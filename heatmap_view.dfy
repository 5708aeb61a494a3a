/** The heatmap card (`Heatmap`): the zone split of a player's heatmap cells
    as percentages for the pie chart, and the cells' positions on the
    canvas. The component recomputes the percentages from `points` on every
    render; nothing guards the division by the total intensity. Drawing
    (simpleheat, the canvas context, device pixel ratio) is left out. */
module HeatmapView {
  import opened JsNumber
  import VideoAnalyser
  import Arith

  /** `[[x, y], intensity]`: a court cell and its intensity. */
  type Point = ((real, real), real)

  /** The pie chart's slices: defence, transition, volley. */
  datatype Slices = Slices(defence: Num, transition: Num, volley: Num)

  /** The component's zone rule: `norm = |y - 25| / 25`. */
  function ZoneOf(y: real): VideoAnalyser.Zone
  {
    var norm := (if y - 25.0 < 0.0 then 25.0 - y else y - 25.0) / 25.0;
    if norm < 0.4 then VideoAnalyser.Volley
    else if norm > 0.7 then VideoAnalyser.Defence
    else VideoAnalyser.Transition
  }

  /** The card classifies every row as the analyser does. */
  lemma ZoneRuleMatchesAnalyser(y: real)
    ensures ZoneOf(y) == VideoAnalyser.ZoneOf(y)
  {
  }

  function ZoneValue(points: seq<Point>, z: VideoAnalyser.Zone): real
  {
    if points == [] then 0.0
    else
      var last := points[|points| - 1];
      ZoneValue(points[..|points| - 1], z) + (if ZoneOf(last.0.1) == z then last.1 else 0.0)
  }

  function TotalValue(points: seq<Point>): real
  {
    if points == [] then 0.0 else TotalValue(points[..|points| - 1]) + points[|points| - 1].1
  }

  /** Every point lands in exactly one accumulator. */
  lemma {:induction false} ZonesAddUp(points: seq<Point>)
    ensures ZoneValue(points, VideoAnalyser.Defence) + ZoneValue(points, VideoAnalyser.Transition)
      + ZoneValue(points, VideoAnalyser.Volley) == TotalValue(points)
  {
    if points != [] {
      ZonesAddUp(points[..|points| - 1]);
    }
  }

  /** The accumulation in `points.map`: total, defence, transition and
      volley intensity. */
  method Accumulate(points: seq<Point>) returns (totalValue: real, defenceValue: real, transitionValue: real, volleyValue: real)
    ensures totalValue == TotalValue(points)
    ensures defenceValue == ZoneValue(points, VideoAnalyser.Defence)
    ensures transitionValue == ZoneValue(points, VideoAnalyser.Transition)
    ensures volleyValue == ZoneValue(points, VideoAnalyser.Volley)
  {
    totalValue, defenceValue, transitionValue, volleyValue := 0.0, 0.0, 0.0, 0.0;
    for i := 0 to |points|
      invariant totalValue == TotalValue(points[..i])
      invariant defenceValue == ZoneValue(points[..i], VideoAnalyser.Defence)
      invariant transitionValue == ZoneValue(points[..i], VideoAnalyser.Transition)
      invariant volleyValue == ZoneValue(points[..i], VideoAnalyser.Volley)
    {
      var ((_, y), intensity) := points[i];
      assert points[..i + 1][..i] == points[..i];
      var norm := (if y - 25.0 < 0.0 then 25.0 - y else y - 25.0) / 25.0;
      totalValue := totalValue + intensity;
      if norm < 0.4 {
        volleyValue := volleyValue + intensity;
      } else if norm > 0.7 {
        defenceValue := defenceValue + intensity;
      } else {
        transitionValue := transitionValue + intensity;
      }
    }
    assert points[..|points|] == points;
  }

  /** The slices drawn: each zone's value over the total, times 100. The
      percentage props are overwritten before use, so they do not appear. */
  function Percentages(points: seq<Point>): Slices
  {
    var total := TotalValue(points);
    Slices(Percent(ZoneValue(points, VideoAnalyser.Defence), total),
           Percent(ZoneValue(points, VideoAnalyser.Transition), total),
           Percent(ZoneValue(points, VideoAnalyser.Volley), total))
  }

  /** With a non-zero total the three slices are finite and add up to 100. */
  lemma PercentagesSumTo100(points: seq<Point>)
    requires TotalValue(points) != 0.0
    ensures var s := Percentages(points);
      s.defence.Fin? && s.transition.Fin? && s.volley.Fin? && s.defence.v + s.transition.v + s.volley.v == 100.0
  {
    var total := TotalValue(points);
    var d, t, v := ZoneValue(points, VideoAnalyser.Defence), ZoneValue(points, VideoAnalyser.Transition),
      ZoneValue(points, VideoAnalyser.Volley);
    ZonesAddUp(points);
    Arith.SumOfFractions(d, t, v, total);
    var x, y, z := d / total, t / total, v / total;
    assert x * 100.0 + y * 100.0 + z * 100.0 == (x + y + z) * 100.0;
  }

  /** Nothing guards the division: a card without points shows NaN in every
      slice. */
  lemma NoPointsNaN()
    ensures Percentages([]) == Slices(NaN, NaN, NaN)
  {
  }

  /** The card's input as the analyser produces it: integer cells and counts. */
  function AsPoints(heatmap: seq<(VideoAnalyser.Bin, int)>): (r: seq<Point>)
    ensures |r| == |heatmap|
  {
    seq(|heatmap|, i requires 0 <= i < |heatmap| =>
      ((heatmap[i].0.0 as real, heatmap[i].0.1 as real), heatmap[i].1 as real))
  }

  lemma {:induction false} ValuesMatchAnalyser(heatmap: seq<(VideoAnalyser.Bin, int)>, z: VideoAnalyser.Zone)
    ensures ZoneValue(AsPoints(heatmap), z) == VideoAnalyser.ZoneValue(heatmap, z) as real
    ensures TotalValue(AsPoints(heatmap)) == VideoAnalyser.TotalValue(heatmap) as real
  {
    if heatmap != [] {
      var init := heatmap[..|heatmap| - 1];
      ValuesMatchAnalyser(init, z);
      assert AsPoints(heatmap)[..|heatmap| - 1] == AsPoints(init);
    }
  }

  /** On an analyser heatmap with a non-zero total the card shows the
      analyser's zone shares as percentages. */
  lemma PercentagesMatchShares(heatmap: seq<(VideoAnalyser.Bin, int)>)
    requires VideoAnalyser.TotalValue(heatmap) != 0
    ensures var s := VideoAnalyser.Shares(heatmap);
      Percentages(AsPoints(heatmap))
        == Slices(Fin(s.defenceShare * 100.0), Fin(s.transitionShare * 100.0), Fin(s.volleyShare * 100.0))
  {
    ValuesMatchAnalyser(heatmap, VideoAnalyser.Defence);
    ValuesMatchAnalyser(heatmap, VideoAnalyser.Transition);
    ValuesMatchAnalyser(heatmap, VideoAnalyser.Volley);
  }

  /** `[x / 25 * width, y / 50 * height, intensity]` */
  function CanvasPoint(p: Point, width: real, height: real): (real, real, real)
  {
    (p.0.0 / 25.0 * width, p.0.1 / 50.0 * height, p.1)
  }

  /** Cells of the analyser's 26x51 grid land on the canvas, the grid's far
      corner on the canvas's far corner, and larger cells further along. */
  lemma CanvasCoversCourt(p: Point, q: Point, width: real, height: real)
    requires width >= 0.0 && height >= 0.0
    ensures 0.0 <= p.0.0 <= 25.0 && 0.0 <= p.0.1 <= 50.0 ==>
      0.0 <= CanvasPoint(p, width, height).0 <= width && 0.0 <= CanvasPoint(p, width, height).1 <= height
    ensures p.0 == (0.0, 0.0) ==> CanvasPoint(p, width, height).0 == 0.0 && CanvasPoint(p, width, height).1 == 0.0
    ensures p.0 == (25.0, 50.0) ==> CanvasPoint(p, width, height).0 == width && CanvasPoint(p, width, height).1 == height
    ensures p.0.0 <= q.0.0 ==> CanvasPoint(p, width, height).0 <= CanvasPoint(q, width, height).0
    ensures p.0.1 <= q.0.1 ==> CanvasPoint(p, width, height).1 <= CanvasPoint(q, width, height).1
  {
    Scale(p.0.0, q.0.0, 25.0, width);
    Scale(p.0.1, q.0.1, 50.0, height);
  }

  lemma Scale(a: real, b: real, n: real, w: real)
    requires n > 0.0 && w >= 0.0
    ensures 0.0 <= a <= n ==> 0.0 <= a / n * w <= w
    ensures a == 0.0 ==> a / n * w == 0.0
    ensures a == n ==> a / n * w == w
    ensures a <= b ==> a / n * w <= b / n * w
  {
    var f, g := a / n, b / n;
    if w > 0.0 {
      if 0.0 <= a <= n {
        Arith.FractionBounds(a, n);
        Arith.MulMono(0.0, f, w);
        Arith.MulMono(f, 1.0, w);
      }
      if a <= b {
        assert f * n == a && g * n == b;
        if f > g {
          Arith.MulStrict(f, g, n);
          assert false;
        }
        Arith.MulMono(f, g, w);
      }
    }
  }

  /** Every cell of a player's heatmap from the analyser lands on the canvas. */
  lemma HeatmapOnCanvas(player: VideoAnalyser.Player, width: real, height: real)
    requires forall i :: 0 <= i < |player.heatmap| ==> VideoAnalyser.InCourt(player.heatmap[i].0)
    requires width >= 0.0 && height >= 0.0
    ensures forall i :: 0 <= i < |player.heatmap| ==>
      var (cx, cy, _) := CanvasPoint(AsPoints(player.heatmap)[i], width, height);
      0.0 <= cx <= width && 0.0 <= cy <= height
  {
    var pts := AsPoints(player.heatmap);
    forall i | 0 <= i < |player.heatmap|
      ensures var (cx, cy, _) := CanvasPoint(pts[i], width, height); 0.0 <= cx <= width && 0.0 <= cy <= height
    {
      CanvasCoversCourt(pts[i], pts[i], width, height);
    }
  }
}
