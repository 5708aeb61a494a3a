/** The custom timeline drawn under both players: trimmed or full mode, the
    mapping of a time to a percentage of the bar, chapter bands, the playhead,
    the progress overlay, the segment bar and the dim masks. Percentages are
    JavaScript numbers: nothing guards their divisions, so a zero divisor gives
    an infinity or NaN (`JsNumber`). */
module Timeline {
  import opened Wrappers
  import opened JsNumber
  import Chapters

  /** What the bar is drawn from. `base` is the duration that decides trimmed
      mode and the default end of the window and scales the full-mode mapping:
      the effective duration in the video player, the metadata duration
      (`videoDuration`) in the modal. `effDur` is the effective duration, which
      scales the playhead, the segment bar and the masks in both. */
  datatype View = View(startTime: real, endTime: Option<real>, base: real, effDur: real, currentTime: real)

  /** `externalDuration || videoDuration` */
  function EffectiveDuration(external: Option<real>, videoDuration: real): (d: real)
    ensures Truthy(external) ==> d == external.value
    ensures !Truthy(external) ==> d == videoDuration
  {
    Or(external, videoDuration)
  }

  /** `(startTime > 0 || endTime !== undefined) && duration > 0` */
  predicate IsTrimmed(v: View)
  {
    (v.startTime > 0.0 || v.endTime.Some?) && v.base > 0.0
  }

  /** `endTime !== undefined ? endTime : duration` */
  function TimelineEnd(v: View): real
  {
    if v.endTime.Some? then v.endTime.value else v.base
  }

  /** `getPercentage(time)`: relative to the window when trimmed, to the whole
      duration otherwise. */
  function Percentage(v: View, time: real): Num
  {
    if IsTrimmed(v) then Percent(time - v.startTime, TimelineEnd(v) - v.startTime)
    else Percent(time, v.base)
  }

  /** Trimmed mode maps the window's start to 0 and its end to 100, linearly
      and increasingly; full mode maps 0 to 0 and the duration to 100. */
  lemma PercentageMapping(v: View, t: real, u: real)
    ensures IsTrimmed(v) && TimelineEnd(v) != v.startTime ==>
      && Percentage(v, v.startTime) == Fin(0.0)
      && Percentage(v, TimelineEnd(v)) == Fin(100.0)
      && Percentage(v, t) == Fin((t - v.startTime) / (TimelineEnd(v) - v.startTime) * 100.0)
    ensures IsTrimmed(v) && TimelineEnd(v) > v.startTime && t <= u ==>
      Percentage(v, t).v <= Percentage(v, u).v
    ensures !IsTrimmed(v) && v.base != 0.0 ==>
      && Percentage(v, 0.0) == Fin(0.0)
      && Percentage(v, v.base) == Fin(100.0)
      && Percentage(v, t) == Fin(t / v.base * 100.0)
  {
    if IsTrimmed(v) {
      if TimelineEnd(v) != v.startTime {
        TrimmedMapping(v, t);
      }
      if TimelineEnd(v) > v.startTime && t <= u {
        TrimmedMonotone(v, t, u);
      }
    } else if v.base != 0.0 {
      FullMapping(v, t);
    }
  }

  lemma TrimmedMapping(v: View, t: real)
    requires IsTrimmed(v) && TimelineEnd(v) != v.startTime
    ensures Percentage(v, v.startTime) == Fin(0.0)
    ensures Percentage(v, TimelineEnd(v)) == Fin(100.0)
    ensures Percentage(v, t) == Fin((t - v.startTime) / (TimelineEnd(v) - v.startTime) * 100.0)
  {
    var d := TimelineEnd(v) - v.startTime;
    assert Percentage(v, v.startTime) == Percent(v.startTime - v.startTime, d);
    assert Percentage(v, TimelineEnd(v)) == Percent(TimelineEnd(v) - v.startTime, d);
    assert Percentage(v, t) == Percent(t - v.startTime, d);
    PercentEnds(d);
  }

  /** Zero is 0% and the whole is 100% of a non-zero whole. */
  lemma PercentEnds(d: real)
    requires d != 0.0
    ensures Percent(0.0, d) == Fin(0.0) && Percent(d, d) == Fin(100.0)
  {
    assert d / d == 1.0;
    assert 0.0 / d == 0.0;
  }

  lemma TrimmedMonotone(v: View, t: real, u: real)
    requires IsTrimmed(v) && TimelineEnd(v) > v.startTime && t <= u
    ensures Percentage(v, t).Fin? && Percentage(v, u).Fin?
    ensures Percentage(v, t).v <= Percentage(v, u).v
  {
    var d := TimelineEnd(v) - v.startTime;
    var a, b := (t - v.startTime) / d, (u - v.startTime) / d;
    DivMonotone(t - v.startTime, u - v.startTime, d);
    assert Percentage(v, t) == Fin(a * 100.0);
    assert Percentage(v, u) == Fin(b * 100.0);
  }

  lemma FullMapping(v: View, t: real)
    requires !IsTrimmed(v) && v.base != 0.0
    ensures Percentage(v, 0.0) == Fin(0.0)
    ensures Percentage(v, v.base) == Fin(100.0)
    ensures Percentage(v, t) == Fin(t / v.base * 100.0)
  {
    assert Percentage(v, 0.0) == Percent(0.0, v.base);
    assert Percentage(v, v.base) == Percent(v.base, v.base);
    assert Percentage(v, t) == Percent(t, v.base);
    PercentEnds(v.base);
  }

  lemma DivMonotone(a: real, b: real, d: real)
    requires d > 0.0 && a <= b
    ensures a / d <= b / d
  {
    assert b / d - a / d == (b - a) / d;
  }

  /** No guard: a window of zero length maps every other time to an infinity
      and its own start to NaN; in full mode a zero duration does the same. */
  lemma PercentageUnguarded(v: View, t: real)
    ensures IsTrimmed(v) && TimelineEnd(v) == v.startTime ==>
      (Percentage(v, t).NaN? <==> t == v.startTime) && (t > v.startTime ==> Percentage(v, t) == PosInf)
    ensures !IsTrimmed(v) && v.base == 0.0 ==>
      (Percentage(v, t).NaN? <==> t == 0.0) && (t < 0.0 ==> Percentage(v, t) == NegInf)
  {
  }

  /** The playhead, drawn only when the effective duration is positive: the
      window percentage in trimmed mode, the share of the effective duration
      otherwise, clamped to [0, 100] either way. */
  function Playhead(v: View): (r: Option<Num>)
    ensures r.Some? <==> v.effDur > 0.0
    ensures r.Some? && !r.value.NaN? ==> r.value.Fin? && 0.0 <= r.value.v <= 100.0
    ensures r.Some? && !IsTrimmed(v) ==> r.value.Fin?
  {
    if v.effDur <= 0.0 then None
    else if IsTrimmed(v) then Some(ClampPercent(Percentage(v, v.currentTime)))
    else Some(ClampPercent(Percent(v.currentTime, v.effDur)))
  }

  /** `getCustomProgressWidth()`, the width of the progress overlay in trimmed mode. */
  function ProgressWidth(v: View): Num
  {
    if !IsTrimmed(v) && v.startTime > 0.0 && Truthy(v.endTime) && v.currentTime >= v.startTime then
      var progress := Min(Div(Fin(v.currentTime - v.startTime), Fin(v.endTime.value - v.startTime)), Fin(1.0));
      Mul(progress, Percent(v.endTime.value - v.startTime, v.effDur))
    else if IsTrimmed(v) && v.currentTime >= v.startTime then
      Min(Percent(v.currentTime - v.startTime, TimelineEnd(v) - v.startTime), Fin(100.0))
    else Percentage(v, v.currentTime)
  }

  /** In trimmed mode, once playback is past the start the overlay is at most
      100 wide; it is the elapsed share of the window until the end is reached. */
  lemma ProgressCapped(v: View)
    requires IsTrimmed(v) && v.currentTime >= v.startTime
    ensures var w := ProgressWidth(v);
      && (!w.NaN? ==> !w.PosInf? && (w.Fin? ==> w.v <= 100.0))
      && (TimelineEnd(v) > v.startTime && v.currentTime <= TimelineEnd(v) ==>
            w == Fin((v.currentTime - v.startTime) / (TimelineEnd(v) - v.startTime) * 100.0))
  {
    var d := TimelineEnd(v) - v.startTime;
    if d > 0.0 && v.currentTime <= TimelineEnd(v) {
      DivMonotone(v.currentTime - v.startTime, d, d);
    }
  }

  /** The blue bar of full mode, drawn when `startTime > 0`, `endTime` is
      truthy and the effective duration positive: it starts at the start's
      share and grows with the elapsed fraction of the segment. */
  function SegmentProgress(v: View): (r: Option<(Num, Num)>)
    ensures r.Some? <==> !IsTrimmed(v) && v.startTime > 0.0 && Truthy(v.endTime) && v.effDur > 0.0
  {
    if IsTrimmed(v) || !(v.startTime > 0.0 && Truthy(v.endTime) && v.effDur > 0.0) then None
    else
      var span := v.endTime.value - v.startTime;
      var full := Percent(span, v.effDur);
      Some((Percent(v.startTime, v.effDur), Min(Mul(Div(Fin(v.currentTime - v.startTime), Fin(span)), full), full)))
  }

  /** The green segment bar of full mode: from the start to `endTime || effDur`. */
  function SegmentBar(v: View): (r: Option<(Num, Num)>)
    ensures r.Some? <==> !IsTrimmed(v)
  {
    if IsTrimmed(v) then None
    else Some((Percent(v.startTime, v.effDur), Percent(Or(v.endTime, v.effDur) - v.startTime, v.effDur)))
  }

  /** The dim masks of full mode: one over [0, startTime) when `startTime > 0`
      and one over [endTime, effDur] when `endTime` is truthy, as (left, width)
      percentages of the effective duration. */
  function Masks(v: View): (r: (Option<(Num, Num)>, Option<(Num, Num)>))
    ensures r.0.Some? <==> !IsTrimmed(v) && v.startTime > 0.0
    ensures r.1.Some? <==> !IsTrimmed(v) && Truthy(v.endTime)
  {
    if IsTrimmed(v) then (None, None)
    else
      ( if v.startTime > 0.0 then Some((Fin(0.0), Percent(v.startTime, v.effDur))) else None,
        if Truthy(v.endTime) then Some((Percent(v.endTime.value, v.effDur), Percent(v.effDur - v.endTime.value, v.effDur))) else None )
  }

  /** With a non-zero effective duration the left mask covers exactly the
      start's share, and the right mask runs from `endTime` to the bar's end. */
  lemma MasksGeometry(v: View)
    requires v.effDur != 0.0
    ensures var (left, right) := Masks(v);
      && (left.Some? ==> left.value == (Fin(0.0), Fin(v.startTime / v.effDur * 100.0)))
      && (right.Some? ==> right.value.0.Fin? && right.value.1.Fin? && right.value.0.v + right.value.1.v == 100.0)
  {
    var (left, right) := Masks(v);
    if right.Some? {
      var e := v.endTime.value;
      assert e / v.effDur * 100.0 + (v.effDur - e) / v.effDur * 100.0 == 100.0 by {
        assert e / v.effDur + (v.effDur - e) / v.effDur == v.effDur / v.effDur;
      }
    }
  }

  /** A chapter band: where it is drawn, whether it is highlighted, and the
      time a click seeks to. */
  datatype Band = Band(left: Num, width: Num, active: bool, seekTo: real)

  /** The band of a normalised chapter; in trimmed mode a chapter wholly
      outside the window is not drawn and the others are clipped to it. A
      zero end counts as absent and is replaced by start + 60. */
  function ChapterBand(v: View, c: Chapters.Segment): Option<Band>
  {
    var cs, ce := c.start, if c.end != 0.0 then c.end else c.start + 60.0;
    if IsTrimmed(v) && (ce < v.startTime || cs > TimelineEnd(v)) then None
    else
      var s := if IsTrimmed(v) then Chapters.Max(cs, v.startTime) else cs;
      var e := if IsTrimmed(v) then Chapters.Min(ce, TimelineEnd(v)) else ce;
      var left, right := Percentage(v, s), Percentage(v, e);
      Some(Band(left, Max(Fin(0.5), Sub(right, left)), v.currentTime >= s && v.currentTime < e, s))
  }

  /** Bands are at least 0.5 wide unless NaN, highlighted exactly while the
      current time is in the drawn interval, and a click seeks to the drawn
      start. In trimmed mode a band is drawn iff the chapter meets the window,
      and then its interval is the chapter clipped to the window, which for a
      window of positive length puts it between 0 and 100. */
  lemma BandGeometry(v: View, c: Chapters.Segment)
    ensures var b, ce := ChapterBand(v, c), if c.end != 0.0 then c.end else c.start + 60.0;
      && (!IsTrimmed(v) ==>
            b.Some? && b.value.seekTo == c.start && (b.value.active <==> c.start <= v.currentTime < ce))
      && (IsTrimmed(v) ==>
            (b.Some? <==> ce >= v.startTime && c.start <= TimelineEnd(v))
            && (b.Some? ==>
                  var s, e := Chapters.Max(c.start, v.startTime), Chapters.Min(ce, TimelineEnd(v));
                  && b.value.seekTo == s && v.startTime <= s && e <= TimelineEnd(v)
                  && (b.value.active <==> s <= v.currentTime < e)
                  && (TimelineEnd(v) > v.startTime ==>
                        b.value.left.Fin? && 0.0 <= b.value.left.v
                        && Percentage(v, e).Fin? && Percentage(v, e).v <= 100.0)))
      && (b.Some? && !b.value.width.NaN? ==> b.value.width.Fin? ==> b.value.width.v >= 0.5)
  {
    var ce := if c.end != 0.0 then c.end else c.start + 60.0;
    if IsTrimmed(v) {
      BandTrimmed(v, c, ce);
    } else {
      BandFull(v, c, ce);
    }
  }

  lemma BandFull(v: View, c: Chapters.Segment, ce: real)
    requires !IsTrimmed(v) && ce == if c.end != 0.0 then c.end else c.start + 60.0
    ensures var b := ChapterBand(v, c);
      && b.Some? && b.value.seekTo == c.start && (b.value.active <==> c.start <= v.currentTime < ce)
      && (!b.value.width.NaN? ==> b.value.width.Fin? ==> b.value.width.v >= 0.5)
  {
    var left, right := Percentage(v, c.start), Percentage(v, ce);
    assert ChapterBand(v, c) == Some(Band(left, Max(Fin(0.5), Sub(right, left)), v.currentTime >= c.start && v.currentTime < ce, c.start));
  }

  lemma BandTrimmed(v: View, c: Chapters.Segment, ce: real)
    requires IsTrimmed(v) && ce == if c.end != 0.0 then c.end else c.start + 60.0
    ensures var b := ChapterBand(v, c);
      && (b.Some? <==> ce >= v.startTime && c.start <= TimelineEnd(v))
      && (b.Some? ==>
            var s, e := Chapters.Max(c.start, v.startTime), Chapters.Min(ce, TimelineEnd(v));
            && b.value.seekTo == s && v.startTime <= s && e <= TimelineEnd(v)
            && (b.value.active <==> s <= v.currentTime < e)
            && (!b.value.width.NaN? ==> b.value.width.Fin? ==> b.value.width.v >= 0.5)
            && (TimelineEnd(v) > v.startTime ==>
                  b.value.left.Fin? && 0.0 <= b.value.left.v
                  && Percentage(v, e).Fin? && Percentage(v, e).v <= 100.0))
  {
    if ce >= v.startTime && c.start <= TimelineEnd(v) {
      var s, e := Chapters.Max(c.start, v.startTime), Chapters.Min(ce, TimelineEnd(v));
      var left, right := Percentage(v, s), Percentage(v, e);
      assert ChapterBand(v, c) == Some(Band(left, Max(Fin(0.5), Sub(right, left)), v.currentTime >= s && v.currentTime < e, s));
      if TimelineEnd(v) > v.startTime {
        TrimmedMapping(v, s);
        TrimmedMonotone(v, v.startTime, s);
        TrimmedMonotone(v, e, TimelineEnd(v));
      }
    }
  }
}
