/** Chapter normalisation of the video player (`processChapters`): chapters are
    sorted by start, missing ends are filled in and clamped, and an overlap
    with the previous chapter is resolved by moving the shared boundary. */
module Chapters {
  import opened Wrappers
  import opened StableSort

  /** A chapter as the caller passes it; `end` may be missing. */
  datatype Chapter = Chapter(start: real, end: Option<real>, title: string)

  /** A normalised chapter: every end is filled in. */
  datatype Segment = Segment(start: real, end: real, title: string)

  /** Length used for filling and clamping ends when no positive duration is known. */
  const FallbackDuration: real := 3600.0

  /** Shortest length a chapter is stretched to before overlap resolution. */
  const MinLength: real := 0.5

  function StartOf(c: Chapter): real { c.start }

  function Max(a: real, b: real): real { if a >= b then a else b }

  function Min(a: real, b: real): real { if a <= b then a else b }

  function EffectiveLength(duration: real): (d: real)
    ensures d > 0.0
    ensures duration > 0.0 ==> d == duration
    ensures duration <= 0.0 ==> d == FallbackDuration
  {
    if duration > 0.0 then duration else FallbackDuration
  }

  /** The end a sorted chapter is given before clamping: its own end, else the
      next sorted chapter's start, else the effective length. */
  function FilledEnd(sorted: seq<Chapter>, i: nat, effDur: real): real
    requires i < |sorted|
  {
    match sorted[i].end
    case Some(e) => e
    case None => if i < |sorted| - 1 then sorted[i + 1].start else effDur
  }

  /** Chapter `i` of the sorted list after its start is raised to 0 and its end
      clamped to `min(effDur, max(start + 0.5, end))`. */
  function Clamped(sorted: seq<Chapter>, i: nat, effDur: real): (c: Segment)
    requires i < |sorted|
    requires effDur > 0.0
    ensures c.start >= 0.0 && c.start >= sorted[i].start
    ensures c.end > 0.0 && c.end <= effDur
    ensures c.title == sorted[i].title
  {
    var start := Max(0.0, sorted[i].start);
    Segment(start, Min(effDur, Max(start + MinLength, FilledEnd(sorted, i, effDur))), sorted[i].title)
  }

  /** JavaScript's `prev.end || 1`: a zero end counts as absent. */
  function PrevEnd(prev: Segment): real
  {
    if prev.end != 0.0 then prev.end else 1.0
  }

  /** The previous chapter and the current one after overlap resolution. */
  function Resolve(prev: Segment, cur: Segment): (r: (Segment, Segment))
    requires prev.start >= 0.0 && cur.start >= 0.0
    ensures r.0.start == prev.start && r.0.title == prev.title
    ensures r.1.end == cur.end && r.1.title == cur.title
    ensures r.0.end <= r.1.start || (r.0 == prev && r.1 == cur && cur.start >= PrevEnd(prev))
    ensures cur.start < PrevEnd(prev) ==> r.0.end == r.1.start && r.1.start >= 0.0
    ensures cur.start >= PrevEnd(prev) ==> r == (prev, cur)
  {
    if cur.start < PrevEnd(prev) then
      var midpoint := (prev.start + cur.start) / 2.0;
      if midpoint > prev.start then (prev.(end := midpoint), cur.(start := midpoint))
      else (prev.(end := prev.start + MinLength), cur.(start := prev.start + MinLength))
    else (prev, cur)
  }

  /** Pushes `cur` after resolving its overlap with the last chapter pushed. */
  function Push(processed: seq<Segment>, cur: Segment): (r: seq<Segment>)
    requires forall i :: 0 <= i < |processed| ==> processed[i].start >= 0.0
    requires cur.start >= 0.0
    ensures |r| == |processed| + 1
  {
    if processed == [] then [cur]
    else
      var last := |processed| - 1;
      var pair := Resolve(processed[last], cur);
      processed[..last] + [pair.0, pair.1]
  }

  /** Without an overlap the chapter is appended as it is. */
  lemma PushAppends(processed: seq<Segment>, cur: Segment)
    requires forall i :: 0 <= i < |processed| ==> processed[i].start >= 0.0
    requires cur.start >= 0.0
    requires processed != [] ==> cur.start >= PrevEnd(processed[|processed| - 1])
    ensures Push(processed, cur) == processed + [cur]
  {
    if processed != [] {
      assert processed[..|processed| - 1] + [processed[|processed| - 1], cur] == processed + [cur];
    }
  }

  /** With an overlap the last chapter and the new one are replaced by the
      resolved pair. */
  lemma PushResolved(processed: seq<Segment>, cur: Segment, p: Segment, c: Segment)
    requires forall i :: 0 <= i < |processed| ==> processed[i].start >= 0.0
    requires cur.start >= 0.0 && processed != []
    requires Resolve(processed[|processed| - 1], cur) == (p, c)
    ensures Push(processed, cur) == processed[..|processed| - 1] + [p] + [c]
  {
  }

  /** The first `n` iterations of the loop over the sorted chapters. */
  function Normalise(sorted: seq<Chapter>, effDur: real, n: nat): (r: seq<Segment>)
    requires n <= |sorted|
    requires effDur > 0.0
    ensures |r| == n
    ensures forall i :: 0 <= i < n ==> r[i].start >= 0.0
  {
    if n == 0 then []
    else Push(Normalise(sorted, effDur, n - 1), Clamped(sorted, n - 1, effDur))
  }

  /** What `processChapters(rawChapters, duration)` returns. */
  function Processed(raw: seq<Chapter>, duration: real): seq<Segment>
  {
    if raw == [] then []
    else
      var sorted := Sort(raw, StartOf);
      SortCorrect(raw, StartOf);
      Normalise(sorted, EffectiveLength(duration), |sorted|)
  }

  /** The loop of `processChapters`: a copy of each sorted chapter is clamped
      and pushed, after the previously pushed chapter's end and the copy's start
      have been adjusted for overlap. */
  method ProcessChapters(raw: seq<Chapter>, duration: real) returns (processed: seq<Segment>)
    ensures processed == Processed(raw, duration)
  {
    if |raw| == 0 {
      return [];
    }
    var effectiveDur := if duration > 0.0 then duration else FallbackDuration;
    var sorted := Sort(raw, StartOf);
    processed := NormaliseSorted(sorted, effectiveDur);
  }

  /** The loop over the sorted chapters. */
  method NormaliseSorted(sorted: seq<Chapter>, effectiveDur: real) returns (processed: seq<Segment>)
    requires effectiveDur > 0.0
    ensures processed == Normalise(sorted, effectiveDur, |sorted|)
  {
    processed := [];
    var i := 0;
    while i < |sorted|
      invariant 0 <= i <= |sorted|
      invariant processed == Normalise(sorted, effectiveDur, i)
    {
      var start := Max(0.0, sorted[i].start);
      var end: real;
      if sorted[i].end.None? {
        end := if i < |sorted| - 1 then sorted[i + 1].start else effectiveDur;
      } else {
        end := sorted[i].end.value;
      }
      end := Min(effectiveDur, Max(start + MinLength, end));
      ghost var before, c := processed, Clamped(sorted, i, effectiveDur);
      assert Segment(start, end, sorted[i].title) == c;
      if |processed| > 0 {
        var prev := processed[|processed| - 1];
        if start < PrevEnd(prev) {
          var midpoint := (prev.start + start) / 2.0;
          if midpoint > prev.start {
            prev := prev.(end := midpoint);
            start := midpoint;
          } else {
            prev := prev.(end := prev.start + MinLength);
            start := prev.end;
          }
          processed := processed[..|processed| - 1] + [prev];
          PushResolved(before, c, prev, Segment(start, end, sorted[i].title));
        } else {
          PushAppends(before, c);
        }
      } else {
        PushAppends(before, c);
      }
      processed := processed + [Segment(start, end, sorted[i].title)];
      i := i + 1;
    }
  }

  /** What holds of the first `n` iterations: titles follow the sorted order,
      starts are non-negative, ends are positive (so `|| 1` never applies),
      neighbours do not overlap, an end is either the clamped one or the next
      start, a start is either the clamped one or the previous end, and the
      last end is still the clamped one. */
  predicate Normalised(sorted: seq<Chapter>, effDur: real, r: seq<Segment>)
    requires |r| <= |sorted|
    requires effDur > 0.0
  {
    && (forall i :: 0 <= i < |r| ==> r[i].title == sorted[i].title)
    && (forall i :: 0 <= i < |r| ==> r[i].start >= 0.0 && r[i].end > 0.0)
    && (forall i :: 0 <= i < |r| - 1 ==> r[i].end <= r[i + 1].start)
    && (forall i :: 0 <= i < |r| - 1 ==> r[i].end == Clamped(sorted, i, effDur).end || r[i].end == r[i + 1].start)
    && (|r| > 0 ==> r[0].start == Clamped(sorted, 0, effDur).start)
    && (forall i :: 0 < i < |r| ==> r[i].start == Clamped(sorted, i, effDur).start || r[i].start == r[i - 1].end)
    && (|r| > 0 ==> r[|r| - 1].end == Clamped(sorted, |r| - 1, effDur).end)
  }

  lemma {:induction false} NormaliseInvariant(sorted: seq<Chapter>, effDur: real, n: nat)
    requires n <= |sorted|
    requires effDur > 0.0
    ensures Normalised(sorted, effDur, Normalise(sorted, effDur, n))
  {
    if n > 0 {
      NormaliseInvariant(sorted, effDur, n - 1);
      PushNormalised(sorted, effDur, Normalise(sorted, effDur, n - 1));
    }
  }

  /** One push keeps the invariant. */
  lemma PushNormalised(sorted: seq<Chapter>, effDur: real, q: seq<Segment>)
    requires |q| < |sorted| && effDur > 0.0
    requires Normalised(sorted, effDur, q)
    ensures Normalised(sorted, effDur, Push(q, Clamped(sorted, |q|, effDur)))
  {
    var c := Clamped(sorted, |q|, effDur);
    if q != [] {
      var last := |q| - 1;
      var pair := Resolve(q[last], c);
      var r := Push(q, c);
      assert PrevEnd(q[last]) == q[last].end;
      assert r == q[..last] + [pair.0, pair.1];
      assert forall i :: 0 <= i < last ==> r[i] == q[i];
      assert r[last] == pair.0 && r[last + 1] == pair.1;
      PushedEnds(sorted, effDur, q, r, pair);
    }
  }

  /** After resolution the boundary is ordered and each side is either kept
      or moved onto the other. */
  lemma ResolveBoundary(prev: Segment, cur: Segment)
    requires prev.start >= 0.0 && prev.end > 0.0 && cur.start >= 0.0
    ensures Resolve(prev, cur).0.end > 0.0 && Resolve(prev, cur).1.start >= 0.0
    ensures Resolve(prev, cur).0.end <= Resolve(prev, cur).1.start
    ensures Resolve(prev, cur).0.end == prev.end || Resolve(prev, cur).0.end == Resolve(prev, cur).1.start
    ensures Resolve(prev, cur).1.start == cur.start || Resolve(prev, cur).1.start == Resolve(prev, cur).0.end
  {
  }

  /** The ends and starts around the resolved boundary. */
  lemma PushedEnds(sorted: seq<Chapter>, effDur: real, q: seq<Segment>, r: seq<Segment>, pair: (Segment, Segment))
    requires 0 < |q| < |sorted| && effDur > 0.0
    requires Normalised(sorted, effDur, q)
    requires pair == Resolve(q[|q| - 1], Clamped(sorted, |q|, effDur))
    requires |r| == |q| + 1 && r[|q| - 1] == pair.0 && r[|q|] == pair.1
    requires forall i :: 0 <= i < |q| - 1 ==> r[i] == q[i]
    ensures Normalised(sorted, effDur, r)
  {
    var last, c := |q| - 1, Clamped(sorted, |q|, effDur);
    ResolveBoundary(q[last], c);
    var p := pair.0;
    assert p.start == q[last].start && p.title == q[last].title;
    assert pair.1.end == c.end && pair.1.title == c.title;
    assert q[last].end == Clamped(sorted, last, effDur).end;
    forall i | 0 <= i < |r|
      ensures r[i].title == sorted[i].title && r[i].start >= 0.0 && r[i].end > 0.0
    {
      if i < last {
        assert r[i] == q[i];
      } else if i == last {
        assert r[i] == p;
      } else {
        assert r[i] == pair.1;
      }
    }
    assert r[0].start == q[0].start;
    forall i | 0 < i < |r|
      ensures r[i].start == Clamped(sorted, i, effDur).start || r[i].start == r[i - 1].end
    {
      if i < last {
        assert r[i] == q[i] && r[i - 1] == q[i - 1];
      } else if i == last {
        assert r[i] == p && r[i - 1] == q[i - 1];
      } else {
        assert r[i] == pair.1 && r[i - 1] == p;
      }
    }
    forall i | 0 <= i < |r| - 1
      ensures r[i].end <= r[i + 1].start
      ensures r[i].end == Clamped(sorted, i, effDur).end || r[i].end == r[i + 1].start
    {
      if i < last - 1 {
        assert r[i] == q[i] && r[i + 1] == q[i + 1];
        assert q[i].end <= q[i + 1].start;
        assert q[i].end == Clamped(sorted, i, effDur).end || q[i].end == q[i + 1].start;
      } else if i == last - 1 {
        assert r[i] == q[i] && r[i + 1] == p;
        assert q[i].end <= q[i + 1].start;
        assert q[i].end == Clamped(sorted, i, effDur).end || q[i].end == q[i + 1].start;
      } else {
        assert r[i] == p && r[i + 1] == pair.1;
      }
    }
    assert r[|r| - 1].end == c.end;
  }

  /** `processChapters` on an empty list is empty; otherwise it has one chapter
      per input chapter, carrying the titles in stable start order, every start
      is non-negative, and consecutive chapters never overlap. */
  lemma ProcessedShape(raw: seq<Chapter>, duration: real)
    ensures raw == [] ==> Processed(raw, duration) == []
    ensures |Processed(raw, duration)| == |raw|
    ensures forall i :: 0 <= i < |raw| ==> Processed(raw, duration)[i].title == Sort(raw, StartOf)[i].title
    ensures forall i :: 0 <= i < |raw| ==> Processed(raw, duration)[i].start >= 0.0
    ensures forall i :: 0 <= i < |raw| - 1 ==> Processed(raw, duration)[i].end <= Processed(raw, duration)[i + 1].start
  {
    if raw != [] {
      SortCorrect(raw, StartOf);
      NormaliseInvariant(Sort(raw, StartOf), EffectiveLength(duration), |raw|);
    }
  }

  /** Each end is the filled and clamped end of its sorted chapter unless an
      overlap with the next chapter moved it onto that chapter's start; each
      start is the clamped start unless an overlap moved it onto the previous
      end; the last chapter keeps its clamped end. */
  lemma ProcessedBoundaries(raw: seq<Chapter>, duration: real)
    requires raw != []
    ensures var r, sorted, effDur := Processed(raw, duration), Sort(raw, StartOf), EffectiveLength(duration);
      |r| == |sorted| == |raw|
      && (forall i :: 0 <= i < |r| - 1 ==>
            r[i].end == Clamped(sorted, i, effDur).end || r[i].end == r[i + 1].start)
      && (forall i :: 0 <= i < |r| ==>
            r[i].start == Clamped(sorted, i, effDur).start || (i > 0 && r[i].start == r[i - 1].end))
      && r[|r| - 1].end == Clamped(sorted, |r| - 1, effDur).end
  {
    SortCorrect(raw, StartOf);
    var sorted, effDur := Sort(raw, StartOf), EffectiveLength(duration);
    NormaliseInvariant(sorted, effDur, |raw|);
    assert Processed(raw, duration) == Normalise(sorted, effDur, |sorted|);
  }

  /** One iteration: the chapters pushed before are kept except the last one,
      which keeps its start and title; when the new chapter starts before that
      one's end, the boundary moves to the midpoint of the two starts if that
      lies strictly after the previous start, and otherwise the previous
      chapter becomes exactly 0.5 long and the new one starts at its end; with
      no overlap the clamped chapter is pushed unchanged. */
  lemma {:induction false} NormaliseStep(sorted: seq<Chapter>, effDur: real, n: nat)
    requires 1 <= n < |sorted|
    requires effDur > 0.0
    ensures var q, r, c := Normalise(sorted, effDur, n), Normalise(sorted, effDur, n + 1), Clamped(sorted, n, effDur);
      var p, mid := q[n - 1], (q[n - 1].start + c.start) / 2.0;
      && r[..n - 1] == q[..n - 1]
      && r[n - 1].start == p.start && r[n].end == c.end
      && (c.start < p.end && mid > p.start ==> r[n - 1].end == mid && r[n].start == mid)
      && (c.start < p.end && mid <= p.start ==> r[n - 1].end == p.start + 0.5 && r[n].start == p.start + 0.5)
      && (c.start >= p.end ==> r == q + [c])
  {
    NormaliseInvariant(sorted, effDur, n);
    var q := Normalise(sorted, effDur, n);
    assert PrevEnd(q[n - 1]) == q[n - 1].end;
    var c := Clamped(sorted, n, effDur);
    var pair := Resolve(q[n - 1], c);
    assert Normalise(sorted, effDur, n + 1) == q[..n - 1] + [pair.0, pair.1];
    assert q == q[..n - 1] + [q[n - 1]];
  }
}
