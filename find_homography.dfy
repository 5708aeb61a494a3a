/** Court geometry around the homography: the thirteen court landmarks the
    detected field points are matched against, the processing resolution a
    video is scaled to, and the selection of the detected points that are
    paired with the landmarks. The detector and `findHomography` itself are
    not modelled. */
module FieldGeometry {
  import opened Wrappers
  import opened JsNumber
  import opened Arith

  const Padding: int := 20
  const Width: int := 250
  const Height: int := 500
  const SlMargin: int := 50

  /** Adds the padding to both coordinates of every point. */
  function Padded(ps: seq<(int, int)>): (r: seq<(int, int)>)
    ensures |r| == |ps|
    ensures forall i :: 0 <= i < |ps| ==> r[i] == (ps[i].0 + Padding, ps[i].1 + Padding)
  {
    seq(|ps|, i requires 0 <= i < |ps| => (ps[i].0 + Padding, ps[i].1 + Padding))
  }

  /** `EXPECTED_FIELD_POINTS`: back corners, service lines, net, far service
      line and far corners of a 250x500 court, shifted by the padding. */
  function ExpectedFieldPoints(): seq<(int, int)>
  {
    Padded([(0, Height), (Width, Height),
            (0, Height - SlMargin), (Width / 2, Height - SlMargin), (Width, Height - SlMargin),
            (0, Height / 2), (Width / 2, Height / 2), (Width, Height / 2),
            (0, SlMargin), (Width / 2, SlMargin), (Width, SlMargin),
            (0, 0), (Width, 0)])
  }

  /** Thirteen distinct landmarks, on the left line, the centre line or the
      right line of the padded court, all within [20, 270] x [20, 520]. */
  lemma ExpectedPointsOnCourt()
    ensures |ExpectedFieldPoints()| == 13
    ensures forall i :: 0 <= i < 13 ==>
      var (x, y) := ExpectedFieldPoints()[i];
      && (x == 20 || x == 145 || x == 270)
      && (y == 20 || y == 70 || y == 270 || y == 470 || y == 520)
      && 20 <= x <= 270 && 20 <= y <= 520
    ensures forall i, j :: 0 <= i < j < 13 ==> ExpectedFieldPoints()[i] != ExpectedFieldPoints()[j]
  {
    var e := ExpectedFieldPoints();
    assert e == [(20, 520), (270, 520), (20, 470), (145, 470), (270, 470), (20, 270), (145, 270),
                 (270, 270), (20, 70), (145, 70), (270, 70), (20, 20), (270, 20)];
  }

  /** `_get_processing_dimensions`; `None` for a zero height, where the
      aspect division raises. */
  function ProcessingDimensions(videoWidth: int, videoHeight: int): Option<(int, int)>
  {
    if videoHeight == 0 then None
    else
      var aspect := videoWidth as real / videoHeight as real;
      if aspect > 1280.0 / 720.0 then Some((1280, Trunc(1280.0 / aspect)))
      else Some((Trunc(720.0 * aspect), 720))
  }

  /** One side of the processing size is the target's, the other the
      proportionally scaled side rounded down, so the frame fits 1280x720. */
  predicate FitsTarget(w: int, h: int, dims: (int, int))
    requires w > 0 && h > 0
  {
    var (newW, newH) := dims;
    && (newW == 1280 || newH == 720)
    && 0 <= newW <= 1280 && 0 <= newH <= 720
    && (720 * w > 1280 * h ==> newW == 1280 && newH == (1280 * h) / w)
    && (720 * w <= 1280 * h ==> newH == 720 && newW == (720 * w) / h)
  }

  lemma ProcessingDimensionsFit(w: int, h: int)
    requires w > 0 && h > 0
    ensures ProcessingDimensions(w, h).Some?
    ensures FitsTarget(w, h, ProcessingDimensions(w, h).value)
  {
    WiderIff(w, h, 1280, 720);
    if 720 * w > 1280 * h {
      WideTarget(w, h);
    } else {
      TallTarget(w, h);
    }
  }

  lemma WideTarget(w: int, h: int)
    requires w > 0 && h > 0 && 720 * w > 1280 * h
    requires w as real / h as real > 1280.0 / 720.0
    ensures FitsTarget(w, h, ProcessingDimensions(w, h).value)
  {
    ScaledByInverse(w, h, 1280);
    var newH := (1280 * h) / w;
    QuotientBelow(1280 * h, w, 720);
    var r := ProcessingDimensions(w, h).value;
    assert r.0 == 1280;
    assert r.1 == newH;
  }

  lemma TallTarget(w: int, h: int)
    requires w > 0 && h > 0 && 720 * w <= 1280 * h
    requires !(w as real / h as real > 1280.0 / 720.0)
    ensures FitsTarget(w, h, ProcessingDimensions(w, h).value)
  {
    ScaledDown(w, h, 720);
    assert 720.0 * (w as real / h as real) == w as real * (720.0 / h as real);
    var newW := (720 * w) / h;
    QuotientBelow(720 * w, h, 1281);
    var r := ProcessingDimensions(w, h).value;
    assert r.0 == newW;
    assert r.1 == 720;
  }

  /** `_find_points`: the detected relative points scaled by the image
      size, and the mask of the points detected at all (both coordinates
      non-zero). */
  function FindPoints(dims: (int, int), rel: seq<(real, real)>): (r: (seq<(real, real)>, seq<bool>))
    ensures |r.0| == |rel| && |r.1| == |rel|
  {
    (seq(|rel|, i requires 0 <= i < |rel| => (rel[i].0 * dims.0 as real, rel[i].1 * dims.1 as real)),
     seq(|rel|, i requires 0 <= i < |rel| => rel[i].0 != 0.0 && rel[i].1 != 0.0))
  }

  /** On a non-degenerate image a point is masked in exactly when its
      absolute position is off both axes. */
  lemma MaskIsDetected(dims: (int, int), rel: seq<(real, real)>)
    requires dims.0 != 0 && dims.1 != 0
    ensures var (abs, mask) := FindPoints(dims, rel);
      forall i :: 0 <= i < |rel| ==> (mask[i] <==> abs[i].0 != 0.0 && abs[i].1 != 0.0)
  {
  }

  /** Boolean-mask indexing: the entries whose flag is set, in order. */
  function Select<T>(s: seq<T>, mask: seq<bool>): seq<T>
    requires |s| == |mask|
  {
    if s == [] then []
    else (if mask[0] then [s[0]] else []) + Select(s[1..], mask[1..])
  }

  function CountTrue(mask: seq<bool>): nat
  {
    if mask == [] then 0 else (if mask[0] then 1 else 0) + CountTrue(mask[1..])
  }

  function Zip<A, B>(a: seq<A>, b: seq<B>): (r: seq<(A, B)>)
    requires |a| == |b|
    ensures |r| == |a| && forall i :: 0 <= i < |a| ==> r[i] == (a[i], b[i])
  {
    seq(|a|, i requires 0 <= i < |a| => (a[i], b[i]))
  }

  /** Masking two lists alike keeps their entries paired index by index,
      and keeps as many entries as there are set flags. */
  lemma {:induction false} SelectPairs<A, B>(a: seq<A>, b: seq<B>, mask: seq<bool>)
    requires |a| == |mask| && |b| == |mask|
    ensures |Select(a, mask)| == |Select(b, mask)| == CountTrue(mask)
    ensures Select(Zip(a, b), mask) == Zip(Select(a, mask), Select(b, mask))
  {
    if mask != [] {
      SelectPairs(a[1..], b[1..], mask[1..]);
      assert Zip(a, b)[1..] == Zip(a[1..], b[1..]);
    }
  }

  /** A selected entry comes from a position whose flag is set. */
  lemma {:induction false} SelectedFromMask<T>(s: seq<T>, mask: seq<bool>)
    requires |s| == |mask|
    ensures forall x :: x in Select(s, mask) ==> exists i :: 0 <= i < |s| && mask[i] && s[i] == x
  {
    if s != [] {
      SelectedFromMask(s[1..], mask[1..]);
      forall x | x in Select(s, mask)
        ensures exists i :: 0 <= i < |s| && mask[i] && s[i] == x
      {
        if x !in Select(s[1..], mask[1..]) {
          assert mask[0] && s[0] == x;
        } else {
          var i :| 0 <= i < |s[1..]| && mask[1..][i] && s[1..][i] == x;
          assert s[i + 1] == x && mask[i + 1];
        }
      }
    }
  }

  /** The point lists handed to `findHomography` by `_find_homography`:
      the masked absolute points and the masked landmarks; `None` when the
      detector did not return thirteen points, where masking the landmarks
      raises. */
  function HomographyInputs(dims: (int, int), rel: seq<(real, real)>): Option<(seq<(real, real)>, seq<(int, int)>)>
  {
    var (abs, mask) := FindPoints(dims, rel);
    ExpectedPointsOnCourt();
    if |mask| != |ExpectedFieldPoints()| then None
    else Some((Select(abs, mask), Select(ExpectedFieldPoints(), mask)))
  }

  /** Source and destination lists are the same length, pair each detected
      point with its own landmark, and contain only detected points. */
  lemma HomographyInputsPaired(dims: (int, int), rel: seq<(real, real)>)
    ensures HomographyInputs(dims, rel).Some? <==> |rel| == 13
    ensures HomographyInputs(dims, rel).Some? ==>
      var (src, dst) := HomographyInputs(dims, rel).value;
      var (abs, mask) := FindPoints(dims, rel);
      && |src| == |dst| == CountTrue(mask)
      && Zip(src, dst) == Select(Zip(abs, ExpectedFieldPoints()), mask)
      && (forall p :: p in dst ==> exists i :: 0 <= i < 13 && rel[i].0 != 0.0 && rel[i].1 != 0.0 && ExpectedFieldPoints()[i] == p)
  {
    ExpectedPointsOnCourt();
    if |rel| == 13 {
      var (abs, mask) := FindPoints(dims, rel);
      SelectPairs(abs, ExpectedFieldPoints(), mask);
      SelectedFromMask(ExpectedFieldPoints(), mask);
    }
  }
}
