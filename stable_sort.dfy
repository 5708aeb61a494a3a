/** Stable ascending sort by a numeric key: what JavaScript's
    `Array.prototype.sort` with the comparator `(a, b) => key(a) - key(b)` and
    Python's `list.sort(key=...)` both compute. Both are stable, so elements
    with equal keys keep their input order. */
module StableSort {

  predicate SortedBy<T>(s: seq<T>, key: T -> real)
  {
    forall i, j :: 0 <= i < j < |s| ==> key(s[i]) <= key(s[j])
  }

  /** The elements of `s` whose key is `k`, in the order of `s`. */
  function WithKey<T>(s: seq<T>, key: T -> real, k: real): seq<T>
  {
    if s == [] then []
    else (if key(s[0]) == k then [s[0]] else []) + WithKey(s[1..], key, k)
  }

  /** Puts `x` in front of the first element whose key is not smaller. */
  function Insert<T>(x: T, s: seq<T>, key: T -> real): seq<T>
  {
    if s == [] || key(x) <= key(s[0]) then [x] + s
    else [s[0]] + Insert(x, s[1..], key)
  }

  function Sort<T>(s: seq<T>, key: T -> real): seq<T>
  {
    if s == [] then [] else Insert(s[0], Sort(s[1..], key), key)
  }

  /** Insertion adds exactly one occurrence of `x`. */
  lemma {:induction false} InsertElements<T>(x: T, s: seq<T>, key: T -> real)
    ensures multiset(Insert(x, s, key)) == multiset(s) + multiset{x}
    ensures |Insert(x, s, key)| == |s| + 1
  {
    if s != [] && key(x) > key(s[0]) {
      InsertElements(x, s[1..], key);
      assert s == [s[0]] + s[1..];
    }
  }

  /** A lower bound on the keys of `s` and of `x` bounds the keys of the insertion. */
  lemma {:induction false} InsertBounded<T>(x: T, s: seq<T>, key: T -> real, b: real)
    requires b <= key(x)
    requires forall i :: 0 <= i < |s| ==> b <= key(s[i])
    ensures forall i :: 0 <= i < |Insert(x, s, key)| ==> b <= key(Insert(x, s, key)[i])
  {
    if s != [] && key(x) > key(s[0]) {
      InsertBounded(x, s[1..], key, b);
      var r := Insert(x, s[1..], key);
      assert Insert(x, s, key) == [s[0]] + r;
    }
  }

  lemma {:induction false} InsertSorted<T>(x: T, s: seq<T>, key: T -> real)
    requires SortedBy(s, key)
    ensures SortedBy(Insert(x, s, key), key)
  {
    if s != [] && key(x) > key(s[0]) {
      InsertSorted(x, s[1..], key);
      InsertBounded(x, s[1..], key, key(s[0]));
      var r := Insert(x, s[1..], key);
      var t := [s[0]] + r;
      assert Insert(x, s, key) == t;
      forall i, j | 0 <= i < j < |t| ensures key(t[i]) <= key(t[j]) {
        if i > 0 {
          assert t[i] == r[i - 1] && t[j] == r[j - 1];
        } else {
          assert t[j] == r[j - 1];
        }
      }
    }
  }

  lemma {:induction false} WithKeyAppend<T>(a: seq<T>, b: seq<T>, key: T -> real, k: real)
    ensures WithKey(a + b, key, k) == WithKey(a, key, k) + WithKey(b, key, k)
  {
    if a != [] {
      WithKeyAppend(a[1..], b, key, k);
      assert (a + b)[1..] == a[1..] + b;
    } else {
      assert a + b == b;
    }
  }

  /** Insertion passes only elements with a smaller key, so `x` keeps its
      place among the elements with its key. */
  lemma {:induction false} InsertWithKey<T>(x: T, s: seq<T>, key: T -> real, k: real)
    ensures WithKey(Insert(x, s, key), key, k)
         == (if key(x) == k then [x] else []) + WithKey(s, key, k)
  {
    var own := if key(x) == k then [x] else [];
    if s != [] && key(x) > key(s[0]) {
      var r := Insert(x, s[1..], key);
      var head := WithKey([s[0]], key, k);
      assert Insert(x, s, key) == [s[0]] + r;
      InsertWithKey(x, s[1..], key, k);
      WithKeyAppend([s[0]], r, key, k);
      WithKeyAppend([s[0]], s[1..], key, k);
      assert [s[0]] + s[1..] == s;
      assert own == [] || head == [];
      assert head + (own + WithKey(s[1..], key, k)) == own + (head + WithKey(s[1..], key, k));
    } else {
      assert Insert(x, s, key) == [x] + s;
      WithKeyAppend([x], s, key, k);
      assert WithKey([x], key, k) == own;
    }
  }

  lemma {:induction false} SortCorrect<T>(s: seq<T>, key: T -> real)
    ensures SortedBy(Sort(s, key), key)
    ensures multiset(Sort(s, key)) == multiset(s)
    ensures |Sort(s, key)| == |s|
  {
    if s != [] {
      SortCorrect(s[1..], key);
      InsertSorted(s[0], Sort(s[1..], key), key);
      InsertElements(s[0], Sort(s[1..], key), key);
      assert s == [s[0]] + s[1..];
    }
  }

  /** Stability: for every key, the elements carrying it appear in the
      output in the same order as in the input. */
  lemma {:induction false} SortStable<T>(s: seq<T>, key: T -> real, k: real)
    ensures WithKey(Sort(s, key), key, k) == WithKey(s, key, k)
  {
    if s != [] {
      SortStable(s[1..], key, k);
      SortCorrect(s[1..], key);
      InsertWithKey(s[0], Sort(s[1..], key), key, k);
    }
  }
}
