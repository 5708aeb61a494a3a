/** The processor's write-back to the `users-media` table once a video is
    encoded. Its record type has no `clips` field, so reading a record
    through it and writing it back drops any clips stored before. */
module ProcessorMetadata {
  import opened Wrappers
  import opened Uuids
  import opened Media

  /** The record after processing: state PROCESSED, the update time, both
      object keys, the frame count and the duration; the clips are lost with
      the field the processor's record type lacks. */
  function AfterProcessing(m: MediaInfo, s3Key: string, thumbnailKey: string, framesCount: int, durationSec: int, now: string): (r: MediaInfo)
    ensures SameIdentity(m, r) && r.errorMessage == m.errorMessage
    ensures r.state == Processed && r.updatedAt == Some(now)
    ensures r.processedKey == Some(s3Key) && r.thumbnailKey == Some(thumbnailKey)
    ensures r.framesCount == Some(framesCount) && r.durationSec == Some(durationSec)
    ensures r.clips == None
  {
    m.(state := Processed, updatedAt := Some(now), processedKey := Some(s3Key), thumbnailKey := Some(thumbnailKey),
       framesCount := Some(framesCount), durationSec := Some(durationSec), clips := None)
  }

  /** Processing a record twice with the same results is processing it once. */
  lemma AfterProcessingTwice(m: MediaInfo, s3Key: string, thumbnailKey: string, framesCount: int, durationSec: int, now: string)
    ensures var once := AfterProcessing(m, s3Key, thumbnailKey, framesCount, durationSec, now);
      AfterProcessing(once, s3Key, thumbnailKey, framesCount, durationSec, now) == once
  {
  }

  /** `update_video_status`: a missing id raises before anything is written;
      otherwise the record is read, updated field by field and put back under
      its own media id. */
  method UpdateVideoStatus(table: Table, mediaId: Uuid, s3Key: string, thumbnailKey: string, framesCount: int, durationSec: int, now: string)
    returns (r: Result<MediaInfo, UpdateError>)
    requires table.Valid()
    modifies table
    ensures table.Valid()
    ensures mediaId !in old(table.items) ==> r == Failure(NoVideoFound(mediaId)) && table.items == old(table.items)
    ensures mediaId in old(table.items) ==>
      && r == Success(AfterProcessing(old(table.items)[mediaId], s3Key, thumbnailKey, framesCount, durationSec, now))
      && table.items == old(table.items)[mediaId := r.value]
  {
    if mediaId !in table.items {
      return Failure(NoVideoFound(mediaId));
    }
    var record := table.items[mediaId];
    record := record.(clips := None);
    record := record.(state := Processed);
    record := record.(updatedAt := Some(now));
    record := record.(processedKey := Some(s3Key));
    record := record.(thumbnailKey := Some(thumbnailKey));
    record := record.(framesCount := Some(framesCount));
    record := record.(durationSec := Some(durationSec));
    table.items := table.items[record.mediaId := record];
    r := Success(record);
  }
}
