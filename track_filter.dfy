/** Player-track reconciliation of the heatmap pipeline (`_filter_tracks`):
    the tracker's ids are narrowed to four known players. An unseen id is
    either adopted as a known id (when that brings the known set to exactly
    four) or permanently mapped onto a known id missing from the frame, or
    dropped when none is missing; any other situation is an assertion failure. */
module TrackFilter {
  import opened Wrappers

  /** A frame of the tracker: the frame number and (id, position) pairs in
      dictionary order. */
  datatype Entry<P> = Entry(frame: int, dets: seq<(int, P)>)

  /** A filtered frame: the frame number and the positions by translated id. */
  datatype Out<P> = Out(frame: int, dets: map<int, P>)

  /** `known_idx` (its keys) and `mappings`; a mapping to `None` drops the id. */
  datatype State = State(known: set<int>, mappings: map<int, Option<int>>)

  /** `mappings.get(x, x)` */
  function Get(m: map<int, Option<int>>, x: int): (r: Option<int>)
    ensures x !in m ==> r == Some(x)
  {
    if x in m then m[x] else Some(x)
  }

  /** The two dictionary comprehensions: each id is translated, later
      duplicates overwrite earlier ones, and ids translated to `None` go. */
  function Translate<P>(m: map<int, Option<int>>, raw: seq<(int, P)>): map<int, P>
  {
    if raw == [] then map[]
    else
      var rest := Translate(m, raw[..|raw| - 1]);
      var (x, y) := raw[|raw| - 1];
      match Get(m, x)
      case None => rest
      case Some(k) => rest[k := y]
  }

  /** Raw pair `j` translates to id `k`. */
  predicate TranslatesTo<P>(m: map<int, Option<int>>, raw: seq<(int, P)>, j: int, k: int)
  {
    0 <= j < |raw| && Get(m, raw[j].0) == Some(k)
  }

  /** An id is in the translated frame iff some raw id translates to it. */
  lemma {:induction false} TranslateKeys<P>(m: map<int, Option<int>>, raw: seq<(int, P)>)
    ensures forall k :: k in Translate(m, raw) <==> exists j :: TranslatesTo(m, raw, j, k)
  {
    if raw != [] {
      var init := raw[..|raw| - 1];
      TranslateKeys(m, init);
      forall j, k | 0 <= j < |init|
        ensures TranslatesTo(m, init, j, k) <==> TranslatesTo(m, raw, j, k)
      {
        assert init[j] == raw[j];
      }
      forall k | k in Translate(m, raw)
        ensures exists j :: TranslatesTo(m, raw, j, k)
      {
        if !TranslatesTo(m, raw, |raw| - 1, k) {
          assert k in Translate(m, init);
          var j :| TranslatesTo(m, init, j, k);
          assert TranslatesTo(m, raw, j, k);
        }
      }
    }
  }

  /** The position of a translated id is that of the last raw id translating
      to it: later duplicates win. */
  lemma {:induction false} TranslateLast<P>(m: map<int, Option<int>>, raw: seq<(int, P)>, k: int)
    requires k in Translate(m, raw)
    ensures exists j ::
      && TranslatesTo(m, raw, j, k) && Translate(m, raw)[k] == raw[j].1
      && (forall j' :: j < j' < |raw| ==> !TranslatesTo(m, raw, j', k))
  {
    var last := |raw| - 1;
    if !TranslatesTo(m, raw, last, k) {
      var init := raw[..last];
      TranslateLast(m, init, k);
      var j :| TranslatesTo(m, init, j, k) && Translate(m, init)[k] == init[j].1
        && (forall j' :: j < j' < |init| ==> !TranslatesTo(m, init, j', k));
      assert raw[j] == init[j];
      forall j' | j < j' < |raw|
        ensures !TranslatesTo(m, raw, j', k)
      {
        if j' < last {
          assert raw[j'] == init[j'];
        }
      }
      assert TranslatesTo(m, raw, j, k);
    }
  }

  lemma Pick(s: set<int>) returns (x: int)
    requires |s| > 0
    ensures x in s
  {
    if forall y :: y !in s {
      assert false;
    }
    x :| x in s;
  }

  lemma Singleton(s: set<int>, x: int)
    requires |s| == 1 && x in s
    ensures s == {x}
  {
    assert |s - {x}| == 0;
  }

  /** The known set is empty or holds exactly four ids; mapped ids are never
      known ids, and every mapping target is a known id or `None`. */
  predicate Inv(st: State)
  {
    && (|st.known| == 0 || |st.known| == 4)
    && (forall x :: x in st.mappings ==> x !in st.known)
    && (forall x :: x in st.mappings && st.mappings[x].Some? ==> st.mappings[x].value in st.known)
  }

  /** Ids of a translated frame that are not known yet. */
  function Unseen<P>(st: State, e: Entry<P>): set<int>
  {
    Translate(st.mappings, e.dets).Keys - st.known
  }

  /** The case that reaches `assert False`: the unseen ids neither complete the
      known set to four nor are a single id. */
  predicate Fails<P>(st: State, e: Entry<P>)
  {
    |st.known| + |Unseen(st, e)| != 4 && |Unseen(st, e)| != 1
  }

  /** One loop iteration that does not fail: either the unseen ids join the
      known set, or the single unseen id is mapped onto a known id absent from
      the frame (any of them), or onto `None` when all known ids are present,
      and the frame is translated again. The frame number is kept. */
  ghost predicate Stepped<P>(st: State, e: Entry<P>, st2: State, out: Out<P>)
  {
    var dets := Translate(st.mappings, e.dets);
    var unseen := Unseen(st, e);
    && out.frame == e.frame
    && if |st.known| + |unseen| == 4 then
         st2 == State(st.known + unseen, st.mappings) && out.dets == dets
       else
         && |unseen| == 1
         && st2.known == st.known
         && out.dets == Translate(st2.mappings, e.dets)
         && forall cur :: cur in unseen ==>
              || (exists k :: k in st.known && k !in dets && st2.mappings == st.mappings[cur := Some(k)])
              || (st.known <= dets.Keys && st2.mappings == st.mappings[cur := None])
  }

  /** A translated id outside the known set is a raw id without a mapping. */
  lemma UnknownIsUnmapped<P>(st: State, raw: seq<(int, P)>, k: int)
    requires Inv(st)
    requires k in Translate(st.mappings, raw) && k !in st.known
    ensures k !in st.mappings
  {
    TranslateKeys(st.mappings, raw);
    var j :| TranslatesTo(st.mappings, raw, j, k);
    assert raw[j].0 !in st.mappings;
  }

  /** Adopting the unseen ids completes the known set to exactly four ids,
      keeps the invariant, and covers every id of the frame. */
  lemma AdoptKeeps<P>(st: State, e: Entry<P>)
    requires Inv(st) && |st.known| + |Unseen(st, e)| == 4
    ensures Inv(State(st.known + Unseen(st, e), st.mappings))
    ensures Translate(st.mappings, e.dets).Keys <= st.known + Unseen(st, e)
  {
    var unseen := Unseen(st, e);
    forall x | x in st.mappings
      ensures x !in unseen
    {
      if x in unseen {
        UnknownIsUnmapped(st, e.dets, x);
      }
    }
    assert st.known * unseen == {};
    assert |st.known + unseen| == 4;
  }

  /** Mapping the single unseen id onto a known id or `None` keeps the
      invariant, enters an id that had no mapping, and leaves only known ids
      in the frame translated again. */
  lemma MapKeeps<P>(st: State, e: Entry<P>, cur: int, v: Option<int>)
    requires Inv(st) && Unseen(st, e) == {cur}
    requires v.Some? ==> v.value in st.known
    ensures cur !in st.mappings && cur !in st.known
    ensures Inv(State(st.known, st.mappings[cur := v]))
    ensures Translate(st.mappings[cur := v], e.dets).Keys <= st.known
  {
    var m2 := st.mappings[cur := v];
    UnknownIsUnmapped(st, e.dets, cur);
    TranslateKeys(m2, e.dets);
    TranslateKeys(st.mappings, e.dets);
    forall k | k in Translate(m2, e.dets)
      ensures k in st.known
    {
      var j :| TranslatesTo(m2, e.dets, j, k);
      var x := e.dets[j].0;
      if x != cur {
        assert TranslatesTo(st.mappings, e.dets, j, k);
        assert k in Translate(st.mappings, e.dets);
        assert x in st.mappings ==> st.mappings[x] == Some(k) && k in st.known;
        assert x !in st.mappings ==> k == x;
        assert k !in st.known ==> k in Unseen(st, e);
      } else {
        assert v == Some(k);
      }
    }
  }

  /** A step keeps the invariant, never shrinks the known set, never changes
      or removes a mapping, adds at most the one unseen id to the mappings, and
      emits only known ids. */
  lemma SteppedKeeps<P>(st: State, e: Entry<P>, st2: State, out: Out<P>)
    requires Inv(st) && Stepped(st, e, st2, out)
    ensures Inv(st2)
    ensures st.known <= st2.known
    ensures forall x :: x in st.mappings ==> x in st2.mappings && st2.mappings[x] == st.mappings[x]
    ensures forall x :: x in st2.mappings && x !in st.mappings ==> x in Unseen(st, e)
    ensures forall k :: k in out.dets ==> k in st2.known
  {
    var unseen := Unseen(st, e);
    if |st.known| + |unseen| == 4 {
      AdoptKeeps(st, e);
    } else {
      var cur := Pick(unseen);
      Singleton(unseen, cur);
      if exists k :: k in st.known && k !in Translate(st.mappings, e.dets) && st2.mappings == st.mappings[cur := Some(k)] {
        var k :| k in st.known && k !in Translate(st.mappings, e.dets) && st2.mappings == st.mappings[cur := Some(k)];
        MapKeeps(st, e, cur, Some(k));
      } else {
        MapKeeps(st, e, cur, None);
      }
    }
  }

  /** Before four players are known, a frame with a single id has nothing to
      map it onto: the id is mapped to `None` for good and the frame is empty. */
  lemma LoneFirstDetectionDropped<P>(f: int, x: int, p: P, st2: State, out: Out<P>)
    requires Stepped(State({}, map[]), Entry(f, [(x, p)]), st2, out)
    ensures st2 == State({}, map[x := None]) && out == Out(f, map[])
  {
    var st := State({}, map[]);
    var e := Entry(f, [(x, p)]);
    assert Translate(st.mappings, e.dets) == map[x := p];
    assert Unseen(st, e) == {x};
    assert Translate(map[x := None], e.dets) == map[];
  }

  /** A first frame with two distinct ids reaches the assertion failure. */
  lemma TwoFirstDetectionsFail<P>(f: int, a: int, b: int, p: P, q: P)
    requires a != b
    ensures Fails(State({}, map[]), Entry(f, [(a, p), (b, q)]))
  {
    var st := State({}, map[]);
    var e := Entry(f, [(a, p), (b, q)]);
    assert e.dets[..1] == [(a, p)];
    assert Translate(st.mappings, e.dets[..1]) == map[a := p];
    assert Translate(st.mappings, e.dets) == map[a := p][b := q];
    assert map[a := p][b := q].Keys == {a, b};
    assert Unseen(st, e) == {a, b};
  }

  /** One iteration of the loop: the frame is translated and classified. */
  method Step<P>(st: State, e: Entry<P>) returns (r: Result<(State, Out<P>), int>)
    requires Inv(st)
    ensures r.Failure? <==> Fails(st, e)
    ensures r.Failure? ==> r.error == e.frame
    ensures r.Success? ==> Stepped(st, e, r.value.0, r.value.1)
  {
    var dets := Translate(st.mappings, e.dets);
    var unseen := dets.Keys - st.known;
    if |st.known| + |unseen| == 4 {
      return Success((State(st.known + unseen, st.mappings), Out(e.frame, dets)));
    } else if |unseen| == 1 {
      ghost var c := Pick(unseen);
      var cur :| cur in unseen;
      Singleton(unseen, cur);
      var absent := st.known - dets.Keys;
      var mappings: map<int, Option<int>>;
      if absent != {} {
        ghost var w := Pick(absent);
        var k :| k in absent;
        mappings := st.mappings[cur := Some(k)];
      } else {
        mappings := st.mappings[cur := None];
      }
      return Success((State(st.known, mappings), Out(e.frame, Translate(mappings, e.dets))));
    } else {
      return Failure(e.frame);
    }
  }

  /** Extending a run of `Stepped` by one more step. */
  lemma AppendRun<P>(xs: seq<Entry<P>>, states: seq<State>, outs: seq<Out<P>>, st2: State, out: Out<P>)
    requires |states| == |outs| + 1 && |outs| < |xs|
    requires forall j :: 0 <= j < |outs| ==> Stepped(states[j], xs[j], states[j + 1], outs[j])
    requires Stepped(states[|outs|], xs[|outs|], st2, out)
    ensures forall j :: 0 <= j < |outs| + 1 ==>
      Stepped((states + [st2])[j], xs[j], (states + [st2])[j + 1], (outs + [out])[j])
  {
    forall j | 0 <= j < |outs| + 1
      ensures Stepped((states + [st2])[j], xs[j], (states + [st2])[j + 1], (outs + [out])[j])
    {
      if j < |outs| {
        StepOf(states[j], xs[j], states[j + 1], outs[j], (states + [st2])[j], (states + [st2])[j + 1], (outs + [out])[j]);
      } else {
        StepOf(states[j], xs[j], st2, out, (states + [st2])[j], (states + [st2])[j + 1], (outs + [out])[j]);
      }
    }
  }

  lemma StepOf<P>(st: State, e: Entry<P>, st2: State, out: Out<P>, a: State, b: State, o: Out<P>)
    requires Stepped(st, e, st2, out) && a == st && b == st2 && o == out
    ensures Stepped(a, e, b, o)
  {
  }

  /** `_filter_tracks(xs)`. On success there is one output per input, in order,
      with its frame number, every id in it is one of at most four known ids,
      and the states passed through are a run of `Stepped` from the empty
      state. On failure the run stopped at the first frame that `Fails`. */
  method FilterTracks<P>(xs: seq<Entry<P>>) returns (r: Result<seq<Out<P>>, int>, known: set<int>, ghost states: seq<State>, ghost outs: seq<Out<P>>)
    ensures |known| == 0 || |known| == 4
    ensures |states| == |outs| + 1 && |outs| <= |xs| && states[0] == State({}, map[])
    ensures known == states[|states| - 1].known
    ensures forall i :: 0 <= i < |outs| ==> Stepped(states[i], xs[i], states[i + 1], outs[i])
    ensures r.Success? ==> r.value == outs && |outs| == |xs|
    ensures r.Success? ==> forall i :: 0 <= i < |xs| ==> r.value[i].frame == xs[i].frame
    ensures r.Success? ==> forall i, k :: 0 <= i < |xs| && k in r.value[i].dets ==> k in known
    ensures r.Failure? ==> |outs| < |xs| && Fails(states[|outs|], xs[|outs|]) && r.error == xs[|outs|].frame
  {
    var st := State({}, map[]);
    var filtered: seq<Out<P>> := [];
    states, outs := [st], [];
    var i := 0;
    while i < |xs|
      invariant 0 <= i <= |xs|
      invariant Inv(st)
      invariant filtered == outs && |outs| == i && |states| == i + 1
      invariant states[0] == State({}, map[]) && states[i] == st
      invariant forall j :: 0 <= j < i ==> Stepped(states[j], xs[j], states[j + 1], outs[j])
      invariant forall j :: 0 <= j < i ==> filtered[j].frame == xs[j].frame
      invariant forall j, k :: 0 <= j < i && k in filtered[j].dets ==> k in st.known
    {
      var step := Step(st, xs[i]);
      if step.Failure? {
        return Failure(step.error), st.known, states, outs;
      }
      var (st2, out) := step.value;
      SteppedKeeps(st, xs[i], st2, out);
      AppendRun(xs, states, outs, st2, out);
      filtered := filtered + [out];
      states, outs := states + [st2], outs + [out];
      st := st2;
      i := i + 1;
    }
    return Success(filtered), st.known, states, outs;
  }
}
