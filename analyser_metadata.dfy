/** The analyser's side of the `users-media` table: its record type carries
    the clips, and `update_clips` converts the dumped record's floats to
    decimals before writing it, as DynamoDB takes no floats. */
module AnalyserMetadata {
  import opened Wrappers
  import opened Text
  import opened Uuids
  import opened Media
  import opened Json

  function StateName(s: MediaState): string
  {
    match s
    case Uploading => "uploading"
    case Processing => "processing"
    case Processed => "processed"
    case Analyzing => "analyzing"
    case Complete => "complete"
    case Failed => "failed"
  }

  function OptStr(o: Option<string>): Json
  {
    match o
    case None => Null
    case Some(s) => Str(s)
  }

  function OptInt(o: Option<int>): Json
  {
    match o
    case None => Null
    case Some(i) => Int(i)
  }

  /** A heatmap cell `((x, y), count)`; tuples dump as lists. */
  function DumpCell(c: ((int, int), int)): Json
  {
    List([List([Int(c.0.0), Int(c.0.1)]), Int(c.1)])
  }

  /** A player: the three shares are the only floats of a record. */
  function DumpPlayer(p: Player): (r: Json)
    ensures r.Dict? && !NoFloat(r)
  {
    var analysis := Dict(map[
      "defence_share" := Float(p.analysis.defenceShare),
      "transition_share" := Float(p.analysis.transitionShare),
      "volley_share" := Float(p.analysis.volleyShare)]);
    assert !NoFloat(analysis) by {
      assert "defence_share" in analysis.entries && analysis.entries["defence_share"].Float?;
    }
    var r := Dict(map[
      "player_id" := Int(p.playerId),
      "heatmap" := List(seq(|p.heatmap|, i requires 0 <= i < |p.heatmap| => DumpCell(p.heatmap[i]))),
      "analysis" := analysis,
      "insights" := Dict(map["positioning" := List(seq(|p.positioning|, i requires 0 <= i < |p.positioning| => Str(p.positioning[i])))])]);
    assert "analysis" in r.entries && r.entries["analysis"] == analysis;
    r
  }

  /** `str(n)` never gives two numbers the same text. */
  lemma IntToStringInjective()
    ensures forall a: int, b: int :: IntToString(a) == IntToString(b) ==> a == b
  {
    forall a: int, b: int | IntToString(a) == IntToString(b)
      ensures a == b
    {
      ParseIntToString(a);
      ParseIntToString(b);
    }
  }

  /** The players of a clip, keyed by the text of their integer keys as JSON
      requires: one entry per player, none other. */
  function DumpPlayers(players: map<int, Player>): (r: Json)
    ensures r.Dict?
    ensures forall k :: k in players ==> IntToString(k) in r.entries && r.entries[IntToString(k)] == DumpPlayer(players[k])
    ensures forall key :: key in r.entries ==> exists k :: k in players && key == IntToString(k)
  {
    IntToStringInjective();
    Dict(map k | k in players :: IntToString(k) := DumpPlayer(players[k]))
  }

  function DumpClip(c: Clip): (r: Json)
    ensures r.Dict?
  {
    Dict(map[
      "clip_id" := Str(Format(c.clipId)),
      "clip_type" := Str(if c.clipType == Full then "full" else "rally"),
      "start_frame" := Int(c.startFrame),
      "end_frame" := Int(c.endFrame),
      "start_sec" := Int(c.startSec),
      "end_sec" := Int(c.endSec),
      "thumbnail_key" := OptStr(c.thumbnailKey),
      "players" := DumpPlayers(c.players)])
  }

  /** A value with no structure inside. */
  predicate Scalar(j: Json)
  {
    j.Null? || j.Int? || j.Str?
  }

  function IdFields(m: MediaInfo): (r: map<string, Json>)
    ensures forall k :: k in r ==> Scalar(r[k])
  {
    var mediaId, userId := Format(m.mediaId), Format(m.userId);
    map["media_id" := Str(mediaId), "user_id" := Str(userId), "title" := Str(m.title), "file_name" := Str(m.fileName)]
  }

  function StatusFields(m: MediaInfo): (r: map<string, Json>)
    ensures forall k :: k in r ==> Scalar(r[k])
  {
    map[
      "uploaded_at" := Str(m.uploadedAt),
      "updated_at" := OptStr(m.updatedAt),
      "state" := Str(StateName(m.state)),
      "processed_media_s3_key" := OptStr(m.processedKey),
      "thumbnail_s3_key" := OptStr(m.thumbnailKey),
      "error_message" := OptStr(m.errorMessage),
      "frames_count" := OptInt(m.framesCount),
      "duration_sec" := OptInt(m.durationSec)]
  }

  /** The dump of every field but the clips: text, integers and nulls. */
  function ScalarFields(m: MediaInfo): (r: map<string, Json>)
    ensures forall k :: k in r ==> Scalar(r[k])
  {
    IdFields(m) + StatusFields(m)
  }

  /** The keys of a dumped record: one per field of the analyser's record type. */
  const RecordKeys: set<string> := {
    "media_id", "user_id", "title", "file_name", "uploaded_at", "updated_at", "state",
    "processed_media_s3_key", "thumbnail_s3_key", "error_message", "frames_count", "duration_sec", "clips"}

  function DumpClips(clips: Option<seq<Clip>>): Json
  {
    match clips
    case None => Null
    case Some(cs) => List(seq(|cs|, i requires 0 <= i < |cs| => DumpClip(cs[i])))
  }

  /** `model_dump(mode="json")` of the analyser's record. */
  function DumpMedia(m: MediaInfo): (r: Json)
    ensures r.Dict? && r.entries.Keys == RecordKeys
    ensures r.entries["clips"] == DumpClips(m.clips)
  {
    Dict(ScalarFields(m)["clips" := DumpClips(m.clips)])
  }

  /** Of a record's fields only the clips can hold a float. */
  lemma MediaFloats(m: MediaInfo)
    ensures NoFloat(DumpMedia(m)) <==> NoFloat(DumpMedia(m).entries["clips"])
  {
    OneStructuredEntry(ScalarFields(m), "clips", DumpClips(m.clips));
  }

  /** A dictionary of scalars and one more entry holds a float exactly when
      that entry does. */
  lemma OneStructuredEntry(scalars: map<string, Json>, key: string, v: Json)
    requires forall k :: k in scalars ==> Scalar(scalars[k])
    ensures NoFloat(Dict(scalars[key := v])) <==> NoFloat(v)
  {
    var d := scalars[key := v];
    assert key in d && d[key] == v;
    forall k | k in d && k != key
      ensures NoFloat(d[k])
    {
      assert d[k] == scalars[k];
    }
  }

  lemma ClipFloats(c: Clip)
    ensures NoFloat(DumpClip(c)) <==> c.players == map[]
  {
    var d := DumpClip(c);
    var ps := DumpPlayers(c.players);
    assert d.entries["players"] == ps;
    if c.players != map[] {
      var k := PickKey(c.players);
      assert IntToString(k) in ps.entries;
      assert !NoFloat(ps.entries[IntToString(k)]);
    } else {
      assert ps.entries == map[];
      forall key | key in d.entries
        ensures NoFloat(d.entries[key])
      {
      }
    }
  }

  lemma PickKey(players: map<int, Player>) returns (k: int)
    requires players != map[]
    ensures k in players
  {
    if forall j :: j !in players {
      assert false;
    }
    k :| k in players;
  }

  /** A record's dump holds a float exactly when one of its clips has a
      player: only `update_clips`, which writes players, needs the
      conversion. */
  lemma DumpFloats(m: MediaInfo)
    ensures NoFloat(DumpMedia(m)) <==> m.clips.None? || forall i :: 0 <= i < |m.clips.value| ==> m.clips.value[i].players == map[]
  {
    MediaFloats(m);
    if m.clips.Some? {
      var cs := m.clips.value;
      var list := DumpMedia(m).entries["clips"];
      forall i | 0 <= i < |cs|
        ensures NoFloat(list.items[i]) <==> cs[i].players == map[]
      {
        ClipFloats(cs[i]);
      }
    }
  }

  /** The record after the analysis: state COMPLETE, the update time and the
      clips; nothing else changes. */
  function WithClips(m: MediaInfo, clips: seq<Clip>, now: string): (r: MediaInfo)
    ensures SameIdentity(m, r)
    ensures r.state == Complete && r.updatedAt == Some(now) && r.clips == Some(clips)
    ensures r.processedKey == m.processedKey && r.thumbnailKey == m.thumbnailKey && r.errorMessage == m.errorMessage
    ensures r.framesCount == m.framesCount && r.durationSec == m.durationSec
  {
    m.(state := Complete, updatedAt := Some(now), clips := Some(clips))
  }

  /** The record after processing, as the analyser's copy of
      `update_video_status` writes it: state PROCESSED, the update time and
      both keys; the clips are kept. */
  function AfterProcessing(m: MediaInfo, s3Key: string, thumbnailKey: string, now: string): (r: MediaInfo)
    ensures SameIdentity(m, r)
    ensures r.state == Processed && r.updatedAt == Some(now)
    ensures r.processedKey == Some(s3Key) && r.thumbnailKey == Some(thumbnailKey)
    ensures r.errorMessage == m.errorMessage && r.framesCount == m.framesCount
    ensures r.durationSec == m.durationSec && r.clips == m.clips
  {
    m.(state := Processed, updatedAt := Some(now), processedKey := Some(s3Key), thumbnailKey := Some(thumbnailKey))
  }

  /** The analyser's status update dumps a float, and so is refused by
      `put_item`, exactly when the stored record has a clip with a player. */
  lemma StatusDumpFloats(m: MediaInfo, s3Key: string, thumbnailKey: string, now: string)
    ensures !NoFloat(DumpMedia(AfterProcessing(m, s3Key, thumbnailKey, now))) <==>
      m.clips.Some? && exists i :: 0 <= i < |m.clips.value| && m.clips.value[i].players != map[]
  {
    DumpFloats(AfterProcessing(m, s3Key, thumbnailKey, now));
  }

  /** `update_video_status` (analyser): a missing id raises before anything
      is written; otherwise the updated record is dumped with no float
      conversion, so `put_item` writes it only when the dump holds no float,
      which by `DumpFloats` is when no clip has a player, and otherwise
      raises and writes nothing. Returns the record and the item written. */
  method UpdateVideoStatus(table: Table, mediaId: Uuid, s3Key: string, thumbnailKey: string, now: string)
    returns (r: Result<(MediaInfo, Json), UpdateError>)
    requires table.Valid()
    modifies table
    ensures table.Valid()
    ensures mediaId !in old(table.items) ==> r == Failure(NoVideoFound(mediaId)) && table.items == old(table.items)
    ensures mediaId in old(table.items) && NoFloat(DumpMedia(AfterProcessing(old(table.items)[mediaId], s3Key, thumbnailKey, now))) ==>
      && r.Success?
      && r.value.0 == AfterProcessing(old(table.items)[mediaId], s3Key, thumbnailKey, now)
      && r.value.1 == DumpMedia(r.value.0)
      && table.items == old(table.items)[mediaId := r.value.0]
    ensures mediaId in old(table.items) && !NoFloat(DumpMedia(AfterProcessing(old(table.items)[mediaId], s3Key, thumbnailKey, now))) ==>
      r == Failure(FloatsRejected) && table.items == old(table.items)
  {
    if mediaId !in table.items {
      return Failure(NoVideoFound(mediaId));
    }
    var record := table.items[mediaId];
    record := record.(state := Processed);
    record := record.(updatedAt := Some(now));
    record := record.(processedKey := Some(s3Key));
    record := record.(thumbnailKey := Some(thumbnailKey));
    var item := DumpMedia(record);
    if !NoFloat(item) {
      return Failure(FloatsRejected);
    }
    table.items := table.items[record.mediaId := record];
    r := Success((record, item));
  }

  /** `update_clips`: a missing id raises before anything is written;
      otherwise the record gets the clips, and the item written is its dump
      with every float converted to a decimal. Returns the item written. */
  method UpdateClips(table: Table, mediaId: Uuid, clips: seq<Clip>, now: string)
    returns (r: Result<Json, UpdateError>)
    requires table.Valid()
    modifies table
    ensures table.Valid()
    ensures mediaId !in old(table.items) ==> r == Failure(NoVideoFound(mediaId)) && table.items == old(table.items)
    ensures mediaId in old(table.items) ==>
      && table.items == old(table.items)[mediaId := WithClips(old(table.items)[mediaId], clips, now)]
      && r == Success(Convert(DumpMedia(table.items[mediaId])))
      && NoFloat(r.value)
  {
    if mediaId !in table.items {
      return Failure(NoVideoFound(mediaId));
    }
    var stored := table.items[mediaId];
    var record := stored;
    record := record.(state := Complete);
    record := record.(updatedAt := Some(now));
    record := record.(clips := Some(clips));
    assert record == WithClips(stored, clips, now);
    var item := DumpMedia(record);
    item := Convert(item);
    table.items := table.items[record.mediaId := record];
    r := Success(item);
  }

  /** The item `update_clips` writes keeps every field of the record, with
      the clips in their order, one element per clip. */
  lemma StoredClips(m: MediaInfo, clips: seq<Clip>, now: string)
    ensures var item := Convert(DumpMedia(WithClips(m, clips, now)));
      && item.Dict? && item.entries.Keys == RecordKeys
      && item.entries["clips"].List? && |item.entries["clips"].items| == |clips|
      && forall i :: 0 <= i < |clips| ==> item.entries["clips"].items[i] == Convert(DumpClip(clips[i]))
  {
    var d := DumpMedia(WithClips(m, clips, now));
    var list := d.entries["clips"];
    assert list == DumpClips(Some(clips));
    assert list.List? && |list.items| == |clips|;
    assert forall i :: 0 <= i < |clips| ==> list.items[i] == DumpClip(clips[i]);
    ConvertElements(d);
    assert Convert(d).entries["clips"] == Convert(list);
    ConvertElements(list);
  }
}
