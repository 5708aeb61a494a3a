/** The video analyser's post-processing: turning the clustered ball
    detections into rallies, the full-clip entry, binning the player tracks
    of each rally into a court heatmap with defence/transition/volley
    shares, and fitting a frame into the 270x150 thumbnail canvas.
    Inference, tracking and the hierarchical clustering itself are not
    modelled: the cluster label of every detection is an input. */
module VideoAnalyser {
  import opened Wrappers
  import opened JsNumber
  import opened StableSort
  import opened TrackFilter
  import opened Arith

  datatype ZoneStats = ZoneStats(defenceShare: real, transitionShare: real, volleyShare: real)

  /** A court cell: column 0..25 across, row 0..50 along the court. */
  type Bin = (int, int)

  datatype Player = Player(id: int, heatmap: seq<(Bin, int)>, zoneStats: ZoneStats)

  datatype Detection = Detection(
    rallyId: int,
    startFrame: int,
    endFrame: int,
    startTime: int,
    endTime: int,
    duration: int,
    detectionCount: int,
    clusterId: int,
    players: map<int, Player>)

  /** A row of the ball-detection table once the clustering has labelled it. */
  datatype Row = Row(frame: int, timestamp: real, cluster: int)

  // ---------------------------------------------------------------- rallies

  /** `detections_sorted[detections_sorted["cluster"] == c]`, in table order. */
  function Members(rows: seq<Row>, c: int): seq<Row>
  {
    if rows == [] then []
    else (if rows[0].cluster == c then [rows[0]] else []) + Members(rows[1..], c)
  }

  /** The members are exactly the rows labelled `c`. */
  lemma {:induction false} MembersAre(rows: seq<Row>, c: int)
    ensures forall i :: 0 <= i < |Members(rows, c)| ==>
      Members(rows, c)[i].cluster == c && Members(rows, c)[i] in rows
    ensures forall i :: 0 <= i < |rows| && rows[i].cluster == c ==> rows[i] in Members(rows, c)
  {
    if rows != [] {
      MembersAre(rows[1..], c);
      assert forall i :: 1 <= i < |rows| ==> rows[i] == rows[1..][i - 1];
    }
  }

  /** `min()` of the timestamp column. */
  function MinTime(s: seq<Row>): real
    requires s != []
  {
    if |s| == 1 then s[0].timestamp
    else
      var m := MinTime(s[1..]);
      if s[0].timestamp <= m then s[0].timestamp else m
  }

  function MaxTime(s: seq<Row>): real
    requires s != []
  {
    if |s| == 1 then s[0].timestamp
    else
      var m := MaxTime(s[1..]);
      if s[0].timestamp >= m then s[0].timestamp else m
  }

  function MinFrame(s: seq<Row>): int
    requires s != []
  {
    if |s| == 1 then s[0].frame
    else
      var m := MinFrame(s[1..]);
      if s[0].frame <= m then s[0].frame else m
  }

  function MaxFrame(s: seq<Row>): int
    requires s != []
  {
    if |s| == 1 then s[0].frame
    else
      var m := MaxFrame(s[1..]);
      if s[0].frame >= m then s[0].frame else m
  }

  /** The four column extremes are attained and bound every row. */
  lemma {:induction false} ExtremesAre(s: seq<Row>)
    requires s != []
    ensures forall i :: 0 <= i < |s| ==>
      && MinTime(s) <= s[i].timestamp <= MaxTime(s)
      && MinFrame(s) <= s[i].frame <= MaxFrame(s)
    ensures exists i :: 0 <= i < |s| && s[i].frame == MinFrame(s)
    ensures exists i :: 0 <= i < |s| && s[i].frame == MaxFrame(s)
  {
    if |s| > 1 {
      ExtremesAre(s[1..]);
      assert forall i :: 1 <= i < |s| ==> s[i] == s[1..][i - 1];
      var a :| 0 <= a < |s[1..]| && s[1..][a].frame == MinFrame(s[1..]);
      var b :| 0 <= b < |s[1..]| && s[1..][b].frame == MaxFrame(s[1..]);
      if s[0].frame > MinFrame(s[1..]) {
        assert s[a + 1].frame == MinFrame(s);
      }
      if s[0].frame < MaxFrame(s[1..]) {
        assert s[b + 1].frame == MaxFrame(s);
      }
    }
  }

  /** `math.ceil` */
  function Ceil(x: real): (r: int)
    ensures x <= r as real < x + 1.0
  {
    -((-x).Floor)
  }

  /** Seconds between the first and the last detection of cluster `c`. */
  function Span(rows: seq<Row>, c: int): real
    requires Members(rows, c) != []
  {
    MaxTime(Members(rows, c)) - MinTime(Members(rows, c))
  }

  /** The rally that cluster `c` becomes. */
  function Rally(rows: seq<Row>, c: int, id: int): Detection
    requires Members(rows, c) != []
  {
    var m := Members(rows, c);
    Detection(id, MinFrame(m), MaxFrame(m), Trunc(MinTime(m)), Ceil(MaxTime(m)),
              Ceil(MaxTime(m) - MinTime(m)), |m|, c, map[])
  }

  /** A rally spans its cluster: its frames are the cluster's first and last
      frame, its end time is at or after every detection (and its start time
      at or before every one when the times are non-negative), its duration
      rounds the span up and its count is the cluster's size. */
  lemma RallyIs(rows: seq<Row>, c: int, id: int)
    requires Members(rows, c) != []
    ensures var d := Rally(rows, c, id);
      && d.rallyId == id && d.clusterId == c && d.players == map[]
      && d.detectionCount == |Members(rows, c)|
      && (forall i :: 0 <= i < |rows| && rows[i].cluster == c ==>
            d.startFrame <= rows[i].frame <= d.endFrame && rows[i].timestamp <= d.endTime as real)
      && (exists i :: 0 <= i < |rows| && rows[i].cluster == c && rows[i].frame == d.startFrame)
      && (exists i :: 0 <= i < |rows| && rows[i].cluster == c && rows[i].frame == d.endFrame)
      && (MinTime(Members(rows, c)) >= 0.0 ==>
            forall i :: 0 <= i < |rows| && rows[i].cluster == c ==> d.startTime as real <= rows[i].timestamp)
      && Span(rows, c) <= d.duration as real < Span(rows, c) + 1.0
  {
    var m := Members(rows, c);
    var d := Rally(rows, c, id);
    MembersAre(rows, c);
    ExtremesAre(m);
    forall i | 0 <= i < |rows| && rows[i].cluster == c
      ensures d.startFrame <= rows[i].frame <= d.endFrame && rows[i].timestamp <= d.endTime as real
      ensures MinTime(m) >= 0.0 ==> d.startTime as real <= rows[i].timestamp
    {
      var j :| 0 <= j < |m| && m[j] == rows[i];
    }
    var a :| 0 <= a < |m| && m[a].frame == d.startFrame;
    var b :| 0 <= b < |m| && m[b].frame == d.endFrame;
    assert m[a] in rows && m[b] in rows;
  }

  /** The clusters the table's labels form, in `value_counts` order: each
      label once, each with at least one row. */
  predicate ClusterIndex(rows: seq<Row>, clusters: seq<int>)
  {
    && (forall i, j :: 0 <= i < j < |clusters| ==> clusters[i] != clusters[j])
    && (forall c :: c in clusters ==> Members(rows, c) != [])
    && (forall i :: 0 <= i < |rows| ==> rows[i].cluster in clusters)
  }

  /** `valid_clusters`: the clusters with at least `minDetections` rows. */
  function ValidClusters(rows: seq<Row>, clusters: seq<int>, minDetections: int): (v: seq<int>)
    ensures forall c :: c in v <==> c in clusters && |Members(rows, c)| >= minDetections
  {
    if clusters == [] then []
    else
      var rest := ValidClusters(rows, clusters[1..], minDetections);
      assert forall c :: c in clusters <==> c == clusters[0] || c in clusters[1..];
      if |Members(rows, clusters[0])| >= minDetections then [clusters[0]] + rest else rest
  }

  predicate Qualifies(rows: seq<Row>, c: int, minDetections: int)
    requires Members(rows, c) != []
  {
    |Members(rows, c)| >= minDetections && Span(rows, c) >= 3.0
  }

  /** The rallies appended by the loop over `valid`, numbered by position in
      `valid` and skipping clusters shorter than three seconds. */
  function Candidates(rows: seq<Row>, valid: seq<int>): seq<Detection>
    requires forall c :: c in valid ==> Members(rows, c) != []
  {
    if valid == [] then []
    else
      var c := valid[|valid| - 1];
      var rest := Candidates(rows, valid[..|valid| - 1]);
      if Span(rows, c) < 3.0 then rest else rest + [Rally(rows, c, |valid|)]
  }

  lemma {:induction false} CandidatesAre(rows: seq<Row>, valid: seq<int>)
    requires forall c :: c in valid ==> Members(rows, c) != []
    ensures var r := Candidates(rows, valid);
      && (forall k :: 0 <= k < |r| ==>
            r[k].clusterId in valid && Span(rows, r[k].clusterId) >= 3.0
            && r[k] == Rally(rows, r[k].clusterId, r[k].rallyId))
      && (forall c :: c in valid && Span(rows, c) >= 3.0 ==> c in ClusterIds(r))
  {
    if valid != [] {
      var n := |valid| - 1;
      var init, c := valid[..n], valid[n];
      assert valid == init + [c];
      assert forall x :: x in init ==> x in valid;
      CandidatesAre(rows, init);
      var rest, r := Candidates(rows, init), Candidates(rows, valid);
      if Span(rows, c) >= 3.0 {
        assert r == rest + [Rally(rows, c, |valid|)];
        forall k | 0 <= k < |r|
          ensures r[k].clusterId in valid && Span(rows, r[k].clusterId) >= 3.0
          ensures r[k] == Rally(rows, r[k].clusterId, r[k].rallyId)
        {
          if k < |rest| {
            assert r[k] == rest[k];
          }
        }
        ClusterIdsSnoc(rest, Rally(rows, c, |valid|));
        assert forall x :: x in valid ==> x in init || x == c;
      } else {
        assert r == rest;
        forall x | x in valid && Span(rows, x) >= 3.0
          ensures x in ClusterIds(r)
        {
          assert x in init;
        }
      }
    }
  }

  /** The clusters a list of rallies comes from. */
  function ClusterIds(ds: seq<Detection>): set<int>
  {
    set k | 0 <= k < |ds| :: ds[k].clusterId
  }

  lemma ClusterIdsSnoc(ds: seq<Detection>, d: Detection)
    ensures ClusterIds(ds + [d]) == ClusterIds(ds) + {d.clusterId}
  {
    var t := ds + [d];
    assert t[|ds|] == d;
    assert forall k :: 0 <= k < |ds| ==> t[k] == ds[k];
  }

  function StartKey(d: Detection): real
  {
    d.startFrame as real
  }

  /** The renumbering loop: positions become ids 1..n. */
  function Renumbered(s: seq<Detection>): (r: seq<Detection>)
  {
    seq(|s|, i requires 0 <= i < |s| => s[i].(rallyId := i + 1))
  }

  /** `detect_rallies_clustering` from the labelled table on. */
  function Rallies(rows: seq<Row>, clusters: seq<int>, minDetections: int): seq<Detection>
    requires ClusterIndex(rows, clusters)
  {
    if |rows| < minDetections then []
    else Renumbered(Sort(Candidates(rows, ValidClusters(rows, clusters, minDetections)), StartKey))
  }

  /** Renumbering changes only the ids, so it keeps the order by first
      frame and the clusters. */
  lemma RenumberedKeeps(s: seq<Detection>)
    ensures |Renumbered(s)| == |s|
    ensures forall k :: 0 <= k < |s| ==> Renumbered(s)[k] == s[k].(rallyId := k + 1)
    ensures SortedBy(s, StartKey) ==> SortedBy(Renumbered(s), StartKey)
    ensures ClusterIds(Renumbered(s)) == ClusterIds(s)
  {
    var r := Renumbered(s);
    assert forall k :: 0 <= k < |s| ==> StartKey(r[k]) == StartKey(s[k]) && r[k].clusterId == s[k].clusterId;
  }

  /** Lists with the same elements come from the same clusters, and each
      element of the one is an element of the other. */
  lemma SameElements(a: seq<Detection>, b: seq<Detection>)
    requires multiset(a) == multiset(b)
    ensures forall k :: 0 <= k < |a| ==> exists j :: 0 <= j < |b| && a[k] == b[j]
    ensures ClusterIds(a) == ClusterIds(b)
  {
    forall k | 0 <= k < |a|
      ensures exists j :: 0 <= j < |b| && a[k] == b[j]
    {
      assert a[k] in multiset(b);
    }
    forall x | x in ClusterIds(a)
      ensures x in ClusterIds(b)
    {
      var k :| 0 <= k < |a| && a[k].clusterId == x;
      assert a[k] in multiset(b);
      var j :| 0 <= j < |b| && b[j] == a[k];
    }
    forall x | x in ClusterIds(b)
      ensures x in ClusterIds(a)
    {
      var j :| 0 <= j < |b| && b[j].clusterId == x;
      assert b[j] in multiset(a);
      var k :| 0 <= k < |a| && a[k] == b[j];
    }
  }

  /** Sorting and renumbering: a permutation of the candidates in
      first-frame order, with ids 1..n. */
  lemma RenumberedSortIs(cands: seq<Detection>, r: seq<Detection>)
    requires r == Renumbered(Sort(cands, StartKey))
    ensures |r| == |cands|
    ensures SortedBy(r, StartKey)
    ensures forall k :: 0 <= k < |r| ==> r[k].rallyId == k + 1
    ensures forall k :: 0 <= k < |r| ==> exists j :: 0 <= j < |cands| && r[k] == cands[j].(rallyId := k + 1)
    ensures ClusterIds(r) == ClusterIds(cands)
  {
    var sorted := Sort(cands, StartKey);
    SortCorrect(cands, StartKey);
    RenumberedKeeps(sorted);
    SameElements(sorted, cands);
    forall k | 0 <= k < |r|
      ensures exists j :: 0 <= j < |cands| && r[k] == cands[j].(rallyId := k + 1)
    {
      var j :| 0 <= j < |cands| && sorted[k] == cands[j];
    }
  }

  /** The sorted, renumbered candidates of `valid`. */
  lemma RalliesOf(rows: seq<Row>, valid: seq<int>, r: seq<Detection>)
    requires forall c :: c in valid ==> Members(rows, c) != []
    requires r == Renumbered(Sort(Candidates(rows, valid), StartKey))
    ensures SortedBy(r, StartKey)
    ensures forall k :: 0 <= k < |r| ==> r[k].rallyId == k + 1
    ensures forall k :: 0 <= k < |r| ==>
      r[k].clusterId in valid && Span(rows, r[k].clusterId) >= 3.0
      && r[k] == Rally(rows, r[k].clusterId, k + 1)
    ensures forall c :: c in valid && Span(rows, c) >= 3.0 ==> c in ClusterIds(r)
  {
    var cands := Candidates(rows, valid);
    CandidatesAre(rows, valid);
    RenumberedSortIs(cands, r);
    RenumberedCandidates(rows, valid, cands, r);
  }

  lemma RenumberedCandidates(rows: seq<Row>, valid: seq<int>, cands: seq<Detection>, r: seq<Detection>)
    requires forall c :: c in valid ==> Members(rows, c) != []
    requires forall k :: 0 <= k < |cands| ==>
      cands[k].clusterId in valid && Span(rows, cands[k].clusterId) >= 3.0
      && cands[k] == Rally(rows, cands[k].clusterId, cands[k].rallyId)
    requires forall k :: 0 <= k < |r| ==> exists j :: 0 <= j < |cands| && r[k] == cands[j].(rallyId := k + 1)
    ensures forall k :: 0 <= k < |r| ==>
      r[k].clusterId in valid && Span(rows, r[k].clusterId) >= 3.0
      && r[k] == Rally(rows, r[k].clusterId, k + 1)
  {
    forall k | 0 <= k < |r|
      ensures r[k].clusterId in valid && Span(rows, r[k].clusterId) >= 3.0
      ensures r[k] == Rally(rows, r[k].clusterId, k + 1)
    {
      var j :| 0 <= j < |cands| && r[k] == cands[j].(rallyId := k + 1);
      RallyRenumbered(rows, cands[j].clusterId, cands[j].rallyId, k + 1);
    }
  }

  /** The rallies are sorted by first frame and numbered 1..n; each is the
      rally of a cluster with enough detections spanning at least three
      seconds, and every such cluster yields one. */
  lemma RalliesAre(rows: seq<Row>, clusters: seq<int>, minDetections: int)
    requires ClusterIndex(rows, clusters)
    ensures var r := Rallies(rows, clusters, minDetections);
      && (|rows| < minDetections ==> r == [])
      && SortedBy(r, StartKey)
      && (forall k :: 0 <= k < |r| ==> r[k].rallyId == k + 1)
      && (forall k :: 0 <= k < |r| ==>
            r[k].clusterId in clusters && Qualifies(rows, r[k].clusterId, minDetections)
            && r[k] == Rally(rows, r[k].clusterId, k + 1))
      && (|rows| >= minDetections ==>
            forall c :: c in clusters && Qualifies(rows, c, minDetections) ==> c in ClusterIds(r))
  {
    if |rows| >= minDetections {
      var valid := ValidClusters(rows, clusters, minDetections);
      RalliesOf(rows, valid, Rallies(rows, clusters, minDetections));
    }
  }

  lemma RallyRenumbered(rows: seq<Row>, c: int, id: int, id': int)
    requires Members(rows, c) != []
    ensures Rally(rows, c, id).(rallyId := id') == Rally(rows, c, id')
  {
  }

  method DetectRalliesClustering(rows: seq<Row>, clusters: seq<int>, minDetections: int)
    returns (rallies: seq<Detection>)
    requires ClusterIndex(rows, clusters)
    ensures rallies == Rallies(rows, clusters, minDetections)
  {
    if |rows| < minDetections {
      return [];
    }
    var valid := ValidClusters(rows, clusters, minDetections);
    rallies := CollectRallies(rows, valid);
    rallies := Sort(rallies, StartKey);
    rallies := RenumberRallies(rallies);
  }

  /** The loop over the valid clusters, appending a rally for each one that
      spans at least three seconds. */
  method CollectRallies(rows: seq<Row>, valid: seq<int>) returns (rallies: seq<Detection>)
    requires forall c :: c in valid ==> Members(rows, c) != []
    ensures rallies == Candidates(rows, valid)
  {
    rallies := [];
    for i := 0 to |valid|
      invariant rallies == Candidates(rows, valid[..i])
    {
      var clusterId := valid[i];
      var clusterData := Members(rows, clusterId);
      var startTime, endTime := MinTime(clusterData), MaxTime(clusterData);
      var startFrame, endFrame := MinFrame(clusterData), MaxFrame(clusterData);
      var duration := endTime - startTime;
      assert valid[..i + 1][..i] == valid[..i];
      if duration < 3.0 {
        continue;
      }
      rallies := rallies + [Detection(i + 1, startFrame, endFrame, Trunc(startTime), Ceil(endTime),
                                      Ceil(endTime - startTime), |clusterData|, clusterId, map[])];
    }
    assert valid[..|valid|] == valid;
  }

  /** The loop writing `rally_id = idx + 1` in place. */
  method RenumberRallies(sorted: seq<Detection>) returns (rallies: seq<Detection>)
    ensures rallies == Renumbered(sorted)
  {
    rallies := sorted;
    for idx := 0 to |rallies|
      invariant |rallies| == |sorted|
      invariant forall k :: 0 <= k < idx ==> rallies[k] == sorted[k].(rallyId := k + 1)
      invariant forall k :: idx <= k < |rallies| ==> rallies[k] == sorted[k]
    {
      rallies := rallies[idx := rallies[idx].(rallyId := idx + 1)];
    }
  }

  /** The entry for the whole video that `_detect_rallies` puts first;
      `None` when the frame rate reads as 0 and the division raises. It
      covers every frame and lasts the video's whole seconds. */
  function FullClip(totalFrames: int, fps: int): (r: Option<Detection>)
    ensures r.None? <==> fps == 0
    ensures r.Some? ==> var d := r.value;
      && d.rallyId == 0 && d.startFrame == 0 && d.endFrame == totalFrames
      && d.startTime == 0 && d.endTime == d.duration
      && (fps > 0 && totalFrames >= 0 ==> d.endTime * fps <= totalFrames < (d.endTime + 1) * fps)
  {
    if fps == 0 then None
    else
      var secs := Trunc(totalFrames as real / fps as real);
      if fps > 0 && totalFrames >= 0 then
        TruncQuotient(totalFrames, fps);
        Some(Detection(0, 0, totalFrames, 0, secs, secs, 0, 0, map[]))
      else Some(Detection(0, 0, totalFrames, 0, secs, secs, 0, 0, map[]))
  }

  /** What `_detect_rallies` returns: the full clip, then the rallies. */
  function DetectedClips(totalFrames: int, fps: int, rows: seq<Row>, clusters: seq<int>): Option<seq<Detection>>
    requires ClusterIndex(rows, clusters)
  {
    match FullClip(totalFrames, fps)
    case None => None
    case Some(full) => Some([full] + Rallies(rows, clusters, 5))
  }

  /** Every clip's id is its position in the list. */
  lemma ClipIdsArePositions(totalFrames: int, fps: int, rows: seq<Row>, clusters: seq<int>)
    requires ClusterIndex(rows, clusters)
    ensures var r := DetectedClips(totalFrames, fps, rows, clusters);
      r.Some? ==> forall k :: 0 <= k < |r.value| ==> r.value[k].rallyId == k
  {
    RalliesAre(rows, clusters, 5);
  }

  // ---------------------------------------------------------------- zones

  datatype Zone = Volley | Transition | Defence

  /** The zone of court row `y` by its distance from the net row 25. */
  function ZoneOf(y: real): (z: Zone)
    ensures z == Volley <==> 15.0 < y < 35.0
    ensures z == Defence <==> y < 7.5 || y > 42.5
  {
    var d := if y >= 25.0 then y - 25.0 else 25.0 - y;
    var norm := d / 25.0;
    if norm < 0.4 then Volley else if norm > 0.7 then Defence else Transition
  }

  /** Intensity of the heatmap cells lying in zone `z`. */
  function ZoneValue(coords: seq<(Bin, int)>, z: Zone): int
  {
    if coords == [] then 0
    else
      var last := coords[|coords| - 1];
      ZoneValue(coords[..|coords| - 1], z) + (if ZoneOf(last.0.1 as real) == z then last.1 else 0)
  }

  function TotalValue(coords: seq<(Bin, int)>): int
  {
    if coords == [] then 0 else TotalValue(coords[..|coords| - 1]) + coords[|coords| - 1].1
  }

  /** Each cell falls in exactly one zone, so the zones add up to the total. */
  lemma {:induction false} ZonesAddUp(coords: seq<(Bin, int)>)
    ensures ZoneValue(coords, Volley) + ZoneValue(coords, Transition) + ZoneValue(coords, Defence)
         == TotalValue(coords)
  {
    if coords != [] {
      ZonesAddUp(coords[..|coords| - 1]);
    }
  }

  lemma {:induction false} ZoneValueBounds(coords: seq<(Bin, int)>, z: Zone)
    requires forall i :: 0 <= i < |coords| ==> coords[i].1 >= 0
    ensures 0 <= ZoneValue(coords, z) <= TotalValue(coords)
  {
    if coords != [] {
      ZoneValueBounds(coords[..|coords| - 1], z);
    }
  }

  /** The shares `_build_zone_stats` returns. */
  function Shares(coords: seq<(Bin, int)>): ZoneStats
  {
    var total := TotalValue(coords);
    if total == 0 then ZoneStats(0.0, 0.0, 0.0)
    else
      ZoneStats(ZoneValue(coords, Defence) as real / total as real,
                ZoneValue(coords, Transition) as real / total as real,
                ZoneValue(coords, Volley) as real / total as real)
  }

  /** A non-zero total splits into three shares that add up to one. */
  lemma SharesSumToOne(coords: seq<(Bin, int)>)
    requires TotalValue(coords) != 0
    ensures var s := Shares(coords); s.defenceShare + s.transitionShare + s.volleyShare == 1.0
  {
    ZonesAddUp(coords);
    var total := TotalValue(coords);
    SumOfFractions(ZoneValue(coords, Defence) as real, ZoneValue(coords, Transition) as real,
                   ZoneValue(coords, Volley) as real, total as real);
  }

  /** With non-negative intensities every share lies in [0, 1]; a zero total
      gives three zero shares. */
  lemma SharesBounded(coords: seq<(Bin, int)>)
    requires forall i :: 0 <= i < |coords| ==> coords[i].1 >= 0
    ensures var s := Shares(coords);
      && 0.0 <= s.defenceShare <= 1.0 && 0.0 <= s.transitionShare <= 1.0 && 0.0 <= s.volleyShare <= 1.0
  {
    var total := TotalValue(coords);
    if total != 0 {
      ZoneValueBounds(coords, Volley);
      ZoneValueBounds(coords, Transition);
      ZoneValueBounds(coords, Defence);
      FractionBounds(ZoneValue(coords, Volley) as real, total as real);
      FractionBounds(ZoneValue(coords, Transition) as real, total as real);
      FractionBounds(ZoneValue(coords, Defence) as real, total as real);
    }
  }

  method BuildZoneStats(coords: seq<(Bin, int)>) returns (stats: ZoneStats)
    ensures stats == Shares(coords)
  {
    var totalValue, volleyValue, defenceValue, transitionValue := 0, 0, 0, 0;
    for i := 0 to |coords|
      invariant totalValue == TotalValue(coords[..i])
      invariant volleyValue == ZoneValue(coords[..i], Volley)
      invariant defenceValue == ZoneValue(coords[..i], Defence)
      invariant transitionValue == ZoneValue(coords[..i], Transition)
    {
      var (cell, intensity) := coords[i];
      assert coords[..i + 1][..i] == coords[..i];
      totalValue := totalValue + intensity;
      match ZoneOf(cell.1 as real)
      case Volley => volleyValue := volleyValue + intensity;
      case Defence => defenceValue := defenceValue + intensity;
      case Transition => transitionValue := transitionValue + intensity;
    }
    assert coords[..|coords|] == coords;
    if totalValue == 0 {
      return ZoneStats(0.0, 0.0, 0.0);
    }
    stats := ZoneStats(defenceValue as real / totalValue as real,
                       transitionValue as real / totalValue as real,
                       volleyValue as real / totalValue as real);
  }

  // ---------------------------------------------------------------- heatmap

  function Clip(v: int, lo: int, hi: int): int
  {
    if v < lo then lo else if v > hi then hi else v
  }

  /** The court cell of a position: `x // 10` clipped to [0, 25] and
      `y // 10` clipped to [0, 50]. */
  function BinOf(p: (int, int)): (b: Bin)
    ensures 0 <= b.0 <= 25 && 0 <= b.1 <= 50
    ensures 0 <= p.0 < 260 ==> b.0 * 10 <= p.0 < b.0 * 10 + 10
    ensures 0 <= p.1 < 510 ==> b.1 * 10 <= p.1 < b.1 * 10 + 10
    ensures p.0 < 0 ==> b.0 == 0
    ensures p.0 >= 260 ==> b.0 == 25
    ensures p.1 < 0 ==> b.1 == 0
    ensures p.1 >= 510 ==> b.1 == 50
  {
    (Clip(p.0 / 10, 0, 25), Clip(p.1 / 10, 0, 50))
  }

  function Occurrences(bins: seq<Bin>, b: Bin): nat
  {
    if bins == [] then 0
    else Occurrences(bins[..|bins| - 1], b) + (if bins[|bins| - 1] == b then 1 else 0)
  }

  /** Counts one more occurrence of `b`: its cell's count goes up, or it is
      appended with count 1. */
  function Bump(t: seq<(Bin, int)>, b: Bin): seq<(Bin, int)>
  {
    if exists i :: 0 <= i < |t| && t[i].0 == b then
      seq(|t|, i requires 0 <= i < |t| => if t[i].0 == b then (b, t[i].1 + 1) else t[i])
    else t + [(b, 1)]
  }

  /** `value_counts` of the binned positions, cells in order of first
      appearance. */
  function Tally(bins: seq<Bin>): seq<(Bin, int)>
  {
    if bins == [] then [] else Bump(Tally(bins[..|bins| - 1]), bins[|bins| - 1])
  }

  /** `t` counts `bins`: one entry per distinct cell, carrying the number of
      times it occurs, the counts adding up to the number of positions. */
  predicate Counts(t: seq<(Bin, int)>, bins: seq<Bin>)
  {
    && (forall i, j :: 0 <= i < j < |t| ==> t[i].0 != t[j].0)
    && (forall i :: 0 <= i < |t| ==> t[i].0 in bins && t[i].1 == Occurrences(bins, t[i].0) > 0)
    && (forall b :: b in bins ==> exists i :: 0 <= i < |t| && t[i].0 == b)
    && TotalValue(t) == |bins|
  }

  lemma {:induction false} OccursIff(bins: seq<Bin>, b: Bin)
    ensures Occurrences(bins, b) > 0 <==> b in bins
  {
    if bins != [] {
      var init := bins[..|bins| - 1];
      OccursIff(init, b);
      assert bins == init + [bins[|bins| - 1]];
    }
  }

  /** Raising the count at one index raises the sum by one. */
  lemma {:induction false} TotalValueBump(t: seq<(Bin, int)>, u: seq<(Bin, int)>, j: int)
    requires |u| == |t| && 0 <= j < |t|
    requires u[j].1 == t[j].1 + 1
    requires forall i :: 0 <= i < |t| && i != j ==> u[i].1 == t[i].1
    ensures TotalValue(u) == TotalValue(t) + 1
  {
    var n := |t| - 1;
    if j == n {
      TotalValueEqual(t[..n], u[..n]);
    } else {
      TotalValueBump(t[..n], u[..n], j);
    }
  }

  lemma {:induction false} TotalValueEqual(t: seq<(Bin, int)>, u: seq<(Bin, int)>)
    requires |u| == |t|
    requires forall i :: 0 <= i < |t| ==> u[i].1 == t[i].1
    ensures TotalValue(u) == TotalValue(t)
  {
    if t != [] {
      TotalValueEqual(t[..|t| - 1], u[..|u| - 1]);
    }
  }

  lemma OccurrencesSnoc(bins: seq<Bin>, b: Bin)
    ensures forall c :: Occurrences(bins + [b], c) == Occurrences(bins, c) + (if c == b then 1 else 0)
  {
    assert (bins + [b])[..|bins|] == bins;
  }

  lemma BumpCounts(t: seq<(Bin, int)>, bins: seq<Bin>, b: Bin)
    requires Counts(t, bins)
    ensures Counts(Bump(t, b), bins + [b])
  {
    OccurrencesSnoc(bins, b);
    if exists i :: 0 <= i < |t| && t[i].0 == b {
      var j :| 0 <= j < |t| && t[j].0 == b;
      BumpExisting(t, bins, b, j);
    } else {
      BumpNew(t, bins, b);
    }
  }

  lemma BumpExisting(t: seq<(Bin, int)>, bins: seq<Bin>, b: Bin, j: int)
    requires Counts(t, bins) && 0 <= j < |t| && t[j].0 == b
    requires forall c :: Occurrences(bins + [b], c) == Occurrences(bins, c) + (if c == b then 1 else 0)
    ensures Counts(Bump(t, b), bins + [b])
  {
    BumpAt(t, b, j);
    RaisedCounts(t, Bump(t, b), bins, b, j);
  }

  /** Bumping a cell already present raises its count and leaves the other
      entries alone. */
  lemma BumpAt(t: seq<(Bin, int)>, b: Bin, j: int)
    requires 0 <= j < |t| && t[j].0 == b
    requires forall i, k :: 0 <= i < k < |t| ==> t[i].0 != t[k].0
    ensures |Bump(t, b)| == |t| && Bump(t, b)[j] == (b, t[j].1 + 1)
    ensures forall i :: 0 <= i < |t| && i != j ==> Bump(t, b)[i] == t[i]
  {
    assert exists i :: 0 <= i < |t| && t[i].0 == b;
    forall i | 0 <= i < |t| && i != j
      ensures t[i].0 != b
    {
      if i < j {
        assert t[i].0 != t[j].0;
      } else {
        assert t[j].0 != t[i].0;
      }
    }
  }

  lemma RaisedCounts(t: seq<(Bin, int)>, u: seq<(Bin, int)>, bins: seq<Bin>, b: Bin, j: int)
    requires Counts(t, bins) && 0 <= j < |t| && t[j].0 == b
    requires forall c :: Occurrences(bins + [b], c) == Occurrences(bins, c) + (if c == b then 1 else 0)
    requires |u| == |t| && u[j] == (b, t[j].1 + 1)
    requires forall i :: 0 <= i < |t| && i != j ==> u[i] == t[i]
    ensures Counts(u, bins + [b])
  {
    var bins' := bins + [b];
    forall i, k | 0 <= i < k < |u|
      ensures u[i].0 != u[k].0
    {
      assert u[i].0 == t[i].0 && u[k].0 == t[k].0;
    }
    forall i | 0 <= i < |u|
      ensures u[i].0 in bins' && u[i].1 == Occurrences(bins', u[i].0) > 0
    {
      assert t[i].0 in bins;
    }
    forall c | c in bins'
      ensures exists i :: 0 <= i < |u| && u[i].0 == c
    {
      if c != b {
        assert c in bins;
        var i :| 0 <= i < |t| && t[i].0 == c;
        assert u[i].0 == c;
      } else {
        assert u[j].0 == c;
      }
    }
    TotalValueBump(t, u, j);
  }

  lemma BumpNew(t: seq<(Bin, int)>, bins: seq<Bin>, b: Bin)
    requires Counts(t, bins) && forall i :: 0 <= i < |t| ==> t[i].0 != b
    requires forall c :: Occurrences(bins + [b], c) == Occurrences(bins, c) + (if c == b then 1 else 0)
    ensures Counts(Bump(t, b), bins + [b])
  {
    var u, bins' := Bump(t, b), bins + [b];
    assert u == t + [(b, 1)];
    OccursIff(bins, b);
    assert b !in bins;
    assert u[..|t|] == t;
    forall i, k | 0 <= i < k < |u|
      ensures u[i].0 != u[k].0
    {
      if k < |t| {
        assert u[i] == t[i] && u[k] == t[k];
      }
    }
    forall i | 0 <= i < |u|
      ensures u[i].0 in bins' && u[i].1 == Occurrences(bins', u[i].0) > 0
    {
      if i < |t| {
        assert u[i] == t[i];
      }
    }
    forall c | c in bins'
      ensures exists i :: 0 <= i < |u| && u[i].0 == c
    {
      if c == b {
        assert u[|t|].0 == c;
      } else {
        assert c in bins;
        var i :| 0 <= i < |t| && t[i].0 == c;
        assert u[i] == t[i];
      }
    }
  }

  lemma {:induction false} TallyCounts(bins: seq<Bin>)
    ensures Counts(Tally(bins), bins)
  {
    if bins != [] {
      var init := bins[..|bins| - 1];
      TallyCounts(init);
      BumpCounts(Tally(init), init, bins[|bins| - 1]);
      assert init + [bins[|bins| - 1]] == bins;
    }
  }

  /** The positions of player `pid` in the frames `lo..hi`, skipping frames
      where the player is absent (`dropna`). */
  function Positions(tracks: seq<Out<(int, int)>>, lo: int, hi: int, pid: int): seq<(int, int)>
  {
    if tracks == [] then []
    else
      var e := tracks[0];
      (if lo <= e.frame <= hi && pid in e.dets then [e.dets[pid]] else [])
        + Positions(tracks[1..], lo, hi, pid)
  }

  /** The positions are those of the player in the frames from `lo` to `hi`
      inclusive, nothing else. */
  lemma {:induction false} PositionsAre(tracks: seq<Out<(int, int)>>, lo: int, hi: int, pid: int)
    ensures forall i :: 0 <= i < |tracks| && lo <= tracks[i].frame <= hi && pid in tracks[i].dets ==>
      tracks[i].dets[pid] in Positions(tracks, lo, hi, pid)
    ensures forall q :: q in Positions(tracks, lo, hi, pid) ==>
      exists i :: 0 <= i < |tracks| && lo <= tracks[i].frame <= hi && pid in tracks[i].dets && tracks[i].dets[pid] == q
  {
    if tracks != [] {
      PositionsAre(tracks[1..], lo, hi, pid);
      assert forall i :: 1 <= i < |tracks| ==> tracks[i] == tracks[1..][i - 1];
      forall q | q in Positions(tracks, lo, hi, pid)
        ensures exists i :: 0 <= i < |tracks| && lo <= tracks[i].frame <= hi && pid in tracks[i].dets && tracks[i].dets[pid] == q
      {
        if q !in Positions(tracks[1..], lo, hi, pid) {
          assert lo <= tracks[0].frame <= hi && pid in tracks[0].dets && tracks[0].dets[pid] == q;
        } else {
          var j :| 0 <= j < |tracks[1..]| && lo <= tracks[1..][j].frame <= hi && pid in tracks[1..][j].dets
                   && tracks[1..][j].dets[pid] == q;
          assert tracks[j + 1] == tracks[1..][j];
        }
      }
    }
  }

  function BinsOf(ps: seq<(int, int)>): (r: seq<Bin>)
    ensures |r| == |ps| && forall i :: 0 <= i < |ps| ==> r[i] == BinOf(ps[i])
  {
    seq(|ps|, i requires 0 <= i < |ps| => BinOf(ps[i]))
  }

  /** Every player id of the track table (its columns). */
  function AllIds(tracks: seq<Out<(int, int)>>): set<int>
  {
    set i, k | 0 <= i < |tracks| && k in tracks[i].dets :: k
  }

  function PlayerIn(tracks: seq<Out<(int, int)>>, d: Detection, pid: int): Player
  {
    var heatmap := Tally(BinsOf(Positions(tracks, d.startFrame, d.endFrame, pid)));
    Player(pid, heatmap, Shares(heatmap))
  }

  /** The players written into rally `d` for the columns `ids`. */
  function PlayersIn(tracks: seq<Out<(int, int)>>, d: Detection, ids: set<int>): map<int, Player>
  {
    map pid | pid in ids :: PlayerIn(tracks, d, pid)
  }

  /** The rally once every column of the track table has been written into
      `rally.players`. */
  function WithPlayers(tracks: seq<Out<(int, int)>>, d: Detection): Detection
  {
    d.(players := d.players + PlayersIn(tracks, d, AllIds(tracks)))
  }

  predicate InCourt(b: Bin)
  {
    0 <= b.0 <= 25 && 0 <= b.1 <= 50
  }

  lemma CellsInCourt(t: seq<(Bin, int)>, bins: seq<Bin>)
    requires Counts(t, bins)
    requires forall i :: 0 <= i < |bins| ==> InCourt(bins[i])
    ensures forall i :: 0 <= i < |t| ==> InCourt(t[i].0)
  {
    forall i | 0 <= i < |t|
      ensures InCourt(t[i].0)
    {
      var j :| 0 <= j < |bins| && bins[j] == t[i].0;
    }
  }

  /** A player's heatmap counts the cells of its positions within the rally,
      all inside the court grid, and its shares are fractions adding up to
      one whenever it was seen. */
  lemma PlayerInIs(tracks: seq<Out<(int, int)>>, d: Detection, pid: int)
    ensures var p := PlayerIn(tracks, d, pid);
      var bins := BinsOf(Positions(tracks, d.startFrame, d.endFrame, pid));
      && p.id == pid
      && Counts(p.heatmap, bins)
      && (forall i :: 0 <= i < |p.heatmap| ==> InCourt(p.heatmap[i].0))
      && (bins != [] ==>
            p.zoneStats.defenceShare + p.zoneStats.transitionShare + p.zoneStats.volleyShare == 1.0)
      && 0.0 <= p.zoneStats.defenceShare <= 1.0
      && 0.0 <= p.zoneStats.transitionShare <= 1.0
      && 0.0 <= p.zoneStats.volleyShare <= 1.0
  {
    var bins := BinsOf(Positions(tracks, d.startFrame, d.endFrame, pid));
    var h := Tally(bins);
    TallyCounts(bins);
    CellsInCourt(h, bins);
    SharesBounded(h);
    if bins != [] {
      SharesSumToOne(h);
    }
  }

  /** `_populate_players`; `None` when there are no tracks at all, where
      indexing the empty table by "frame" raises. */
  method PopulatePlayers(tracks: seq<Out<(int, int)>>, rallies: seq<Detection>)
    returns (r: Option<seq<Detection>>)
    ensures tracks == [] <==> r.None?
    ensures r.Some? ==>
      (|r.value| == |rallies| && forall k :: 0 <= k < |rallies| ==> r.value[k] == WithPlayers(tracks, rallies[k]))
  {
    if tracks == [] {
      return None;
    }
    var result := rallies;
    for k := 0 to |rallies|
      invariant |result| == |rallies|
      invariant forall j :: 0 <= j < k ==> result[j] == WithPlayers(tracks, rallies[j])
      invariant forall j :: k <= j < |rallies| ==> result[j] == rallies[j]
    {
      var rally := result[k];
      var players := WritePlayers(tracks, rally);
      result := result[k := rally.(players := players)];
    }
    return Some(result);
  }

  lemma PlayersInAdd(tracks: seq<Out<(int, int)>>, d: Detection, ids: set<int>, pid: int)
    ensures PlayersIn(tracks, d, ids + {pid}) == PlayersIn(tracks, d, ids)[pid := PlayerIn(tracks, d, pid)]
  {
  }

  lemma UnionUpdate<K, V>(a: map<K, V>, b: map<K, V>, k: K, v: V)
    ensures (a + b)[k := v] == a + b[k := v]
  {
  }

  /** The inner loop of `_populate_players`: one player per column of the
      track table is written into the rally's players. */
  method WritePlayers(tracks: seq<Out<(int, int)>>, rally: Detection) returns (players: map<int, Player>)
    ensures players == rally.players + PlayersIn(tracks, rally, AllIds(tracks))
  {
    players := rally.players;
    var columns := AllIds(tracks);
    ghost var written: set<int> := {};
    while columns != {}
      invariant columns + written == AllIds(tracks) && columns !! written
      invariant players == rally.players + PlayersIn(tracks, rally, written)
      decreases columns
    {
      var pid :| pid in columns;
      var heatmap := Tally(BinsOf(Positions(tracks, rally.startFrame, rally.endFrame, pid)));
      var zoneStats := BuildZoneStats(heatmap);
      assert Player(pid, heatmap, zoneStats) == PlayerIn(tracks, rally, pid);
      PlayersInAdd(tracks, rally, written, pid);
      UnionUpdate(rally.players, PlayersIn(tracks, rally, written), pid, PlayerIn(tracks, rally, pid));
      players := players[pid := Player(pid, heatmap, zoneStats)];
      columns := columns - {pid};
      written := written + {pid};
    }
  }

  // ---------------------------------------------------------------- thumbnail

  /** The resized frame's size and its offsets on the 270x150 canvas:
      `(new_w, new_h, x_offset, y_offset)` for a `w` by `h` frame. */
  function FitThumbnail(w: int, h: int): (int, int, int, int)
    requires w > 0 && h > 0
  {
    if w as real / h as real > 270.0 / 150.0 then
      var newH := Trunc(h as real * (270.0 / w as real));
      (270, newH, (270 - 270) / 2, (150 - newH) / 2)
    else
      var newW := Trunc(w as real * (150.0 / h as real));
      (newW, 150, (270 - newW) / 2, (150 - 150) / 2)
  }

  /** One side fills the canvas, the other is the scaled side rounded
      down, and the picture lies inside the canvas. */
  predicate Fits(w: int, h: int, r: (int, int, int, int))
    requires w > 0 && h > 0
  {
    var (newW, newH, x, y) := r;
    && (newW == 270 || newH == 150)
    && 0 <= newW <= 270 && 0 <= newH <= 150
    && 0 <= x && x + newW <= 270 && 0 <= y && y + newH <= 150
    && (150 * w > 270 * h ==> newW == 270 && newH == (270 * h) / w)
    && (150 * w <= 270 * h ==> newH == 150 && newW == (150 * w) / h)
  }

  lemma ThumbnailFits(w: int, h: int)
    requires w > 0 && h > 0
    ensures Fits(w, h, FitThumbnail(w, h))
  {
    WiderIff(w, h, 270, 150);
    if 150 * w > 270 * h {
      WideFits(w, h);
    } else {
      TallFits(w, h);
    }
  }

  lemma WideFits(w: int, h: int)
    requires w > 0 && h > 0 && 150 * w > 270 * h
    requires w as real / h as real > 270.0 / 150.0
    ensures Fits(w, h, FitThumbnail(w, h))
  {
    ScaledDown(h, w, 270);
    var newH := (270 * h) / w;
    assert Trunc(h as real * (270.0 / w as real)) == newH;
    QuotientBelow(270 * h, w, 150);
    var r := FitThumbnail(w, h);
    assert r.0 == 270;
    assert r.1 == newH;
    assert r.2 == 0;
    assert r.3 == (150 - newH) / 2;
  }

  lemma TallFits(w: int, h: int)
    requires w > 0 && h > 0 && 150 * w <= 270 * h
    requires !(w as real / h as real > 270.0 / 150.0)
    ensures Fits(w, h, FitThumbnail(w, h))
  {
    ScaledDown(w, h, 150);
    var newW := (150 * w) / h;
    assert Trunc(w as real * (150.0 / h as real)) == newW;
    QuotientBelow(150 * w, h, 271);
    var r := FitThumbnail(w, h);
    assert r.0 == newW;
    assert r.1 == 150;
    assert r.2 == (270 - newW) / 2;
    assert r.3 == 0;
  }
}
