/** The media record of the `users-media` table as the API, the processor and
    the analyser read and write it. Timestamps are kept as the ISO strings the
    records are stored with. */
module Media {
  import opened Wrappers
  import opened Uuids

  datatype MediaState = Uploading | Processing | Processed | Analyzing | Complete | Failed

  datatype ClipType = Full | Rally

  /** Shares of a player's time in the three court zones. */
  datatype Analysis = Analysis(defenceShare: real, transitionShare: real, volleyShare: real)

  /** A player of a clip: the binned heatmap ((x, y), count) and its analysis. */
  datatype Player = Player(playerId: int, heatmap: seq<((int, int), int)>, analysis: Analysis, positioning: seq<string>)

  datatype Clip = Clip(
    clipId: Uuid,
    clipType: ClipType,
    startFrame: int,
    endFrame: int,
    startSec: int,
    endSec: int,
    thumbnailKey: Option<string>,
    players: map<int, Player>)

  datatype MediaInfo = MediaInfo(
    mediaId: Uuid,
    userId: Uuid,
    title: string,
    fileName: string,
    uploadedAt: string,
    updatedAt: Option<string>,
    state: MediaState,
    processedKey: Option<string>,
    thumbnailKey: Option<string>,
    errorMessage: Option<string>,
    framesCount: Option<int>,
    durationSec: Option<int>,
    clips: Option<seq<Clip>>)

  /** The fields that no update touches: the ids, the names and the upload
      time. */
  predicate SameIdentity(a: MediaInfo, b: MediaInfo)
  {
    a.mediaId == b.mediaId && a.userId == b.userId && a.title == b.title
    && a.fileName == b.fileName && a.uploadedAt == b.uploadedAt
  }

  /** Why an update writes nothing: `get_item` found nothing (the
      `ValueError` both services raise), or `put_item` refused an item
      holding a float (boto3's `TypeError`). */
  datatype UpdateError = NoVideoFound(mediaId: Uuid) | FloatsRejected

  /** The `users-media` table, keyed by media id. */
  class Table {
    var items: map<Uuid, MediaInfo>

    /** Every record is stored under its own media id. */
    predicate Valid()
      reads this
    {
      forall id :: id in items ==> items[id].mediaId == id
    }

    constructor (items: map<Uuid, MediaInfo>)
      requires forall id :: id in items ==> items[id].mediaId == id
      ensures Valid() && this.items == items
    {
      this.items := items;
    }
  }
}
