/** The testimonial carousel (`Testimonials`): one index cell moved forward
    and back around the list of testimonials by the arrow buttons and set
    directly by the dots. */
module Testimonials {

  /** The testimonials' authors, in display order. */
  const Authors: seq<string> := ["Yegor Lebowski", "Prash Lewin"]

  /** JavaScript's `a % n` for a positive `n`: the remainder takes the sign
      of the dividend. */
  function JsRem(a: int, n: int): (r: int)
    requires n > 0
    ensures a >= 0 ==> 0 <= r < n && r == a % n
    ensures a < 0 ==> -n < r <= 0
  {
    if a >= 0 then a % n else -((-a) % n)
  }

  /** `(prev + 1) % length` */
  function Next(i: int, n: int): int
    requires n > 0
  {
    JsRem(i + 1, n)
  }

  /** `(prev - 1 + length) % length` */
  function Prev(i: int, n: int): int
    requires n > 0
  {
    JsRem(i - 1 + n, n)
  }

  /** Division by a positive number has exactly one quotient and remainder. */
  lemma ModUnique(a: int, n: int, q: int, r: int)
    requires n > 0 && 0 <= r < n && a == q * n + r
    ensures a % n == r && a / n == q
  {
    var q', r' := a / n, a % n;
    assert a == q' * n + r';
    var d := q - q';
    assert d * n == q * n - q' * n;
    assert d * n == r' - r;
    if d >= 1 {
      MulAtLeast(d, n);
      assert false;
    }
    if d <= -1 {
      assert (-d) * n == -(d * n);
      MulAtLeast(-d, n);
      assert false;
    }
  }

  lemma MulAtLeast(d: int, n: int)
    requires d >= 1 && n > 0
    ensures d * n >= n
  {
  }

  /** From a valid index both arrows reach a valid index: the next one, or
      the first after the last; the previous one, or the last before the
      first. */
  lemma StepsStayInRange(i: int, n: int)
    requires 0 <= i < n
    ensures 0 <= Next(i, n) < n && 0 <= Prev(i, n) < n
    ensures Next(i, n) == (if i == n - 1 then 0 else i + 1)
    ensures Prev(i, n) == (if i == 0 then n - 1 else i - 1)
  {
    if i == n - 1 {
      ModUnique(i + 1, n, 1, 0);
    } else {
      ModUnique(i + 1, n, 0, i + 1);
    }
    if i == 0 {
      ModUnique(i - 1 + n, n, 0, n - 1);
    } else {
      ModUnique(i - 1 + n, n, 1, i - 1);
    }
  }

  /** The arrows undo each other. */
  lemma PrevUndoesNext(i: int, n: int)
    requires 0 <= i < n
    ensures Prev(Next(i, n), n) == i
    ensures Next(Prev(i, n), n) == i
  {
    StepsStayInRange(i, n);
    StepsStayInRange(Next(i, n), n);
    StepsStayInRange(Prev(i, n), n);
  }

  /** The index after `k` presses of the next arrow. */
  function NextTimes(i: int, k: nat, n: int): int
    requires n > 0
  {
    if k == 0 then i else Next(NextTimes(i, k - 1, n), n)
  }

  lemma {:induction false} NextTimesIs(i: int, k: nat, n: int)
    requires 0 <= i < n
    ensures NextTimes(i, k, n) == (i + k) % n
  {
    if k == 0 {
      ModUnique(i, n, 0, i);
    } else {
      NextTimesIs(i, k - 1, n);
      NextOfRemainder(i + k - 1, n);
    }
  }

  /** One press of the next arrow adds one modulo the count. */
  lemma NextOfRemainder(a: int, n: int)
    requires a >= 0 && n > 0
    ensures Next(a % n, n) == (a + 1) % n
  {
    var j, q := a % n, a / n;
    assert a == q * n + j;
    StepsStayInRange(j, n);
    if j == n - 1 {
      assert (q + 1) * n == q * n + n;
      ModUnique(a + 1, n, q + 1, 0);
    } else {
      ModUnique(a + 1, n, q, j + 1);
    }
  }

  /** As many presses of the next arrow as there are testimonials come back
      to where they started. */
  lemma FullTurn(i: int, n: int)
    requires 0 <= i < n
    ensures NextTimes(i, n, n) == i
  {
    NextTimesIs(i, n, n);
    ModUnique(i + n, n, 1, i);
  }

  class Carousel {
    const count: int
    var currentIndex: int

    predicate Valid()
      reads this
    {
      count == |Authors| && 0 <= currentIndex < count
    }

    /** The first testimonial is shown first. */
    constructor ()
      ensures Valid() && currentIndex == 0
    {
      count := |Authors|;
      currentIndex := 0;
    }

    method NextClicked()
      requires Valid()
      modifies this
      ensures Valid()
      ensures currentIndex == Next(old(currentIndex), count)
    {
      StepsStayInRange(currentIndex, count);
      currentIndex := JsRem(currentIndex + 1, count);
    }

    method PrevClicked()
      requires Valid()
      modifies this
      ensures Valid()
      ensures currentIndex == Prev(old(currentIndex), count)
    {
      StepsStayInRange(currentIndex, count);
      currentIndex := JsRem(currentIndex - 1 + count, count);
    }

    /** A dot is drawn for each testimonial and selects it. */
    method DotClicked(index: int)
      requires Valid() && 0 <= index < count
      modifies this
      ensures Valid() && currentIndex == index
    {
      currentIndex := index;
    }

    /** The author of the testimonial on display. */
    function Author(): string
      requires Valid()
      reads this
    {
      Authors[currentIndex]
    }
  }
}
