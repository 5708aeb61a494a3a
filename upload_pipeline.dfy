/** The object key as it travels from the upload route to the processor: the
    API builds it, the processor reads the user and media ids back out of it
    and derives the processed video's key and the thumbnail's key from it. */
module UploadPipeline {
  import opened Wrappers
  import opened Text
  import opened Uuids
  import opened FileUpload
  import opened VideoProcessor

  /** A key's ids come back from the segments they were written to. */
  lemma MediaInfoFromUploadKey(user: Uuid, media: Uuid, fileName: string)
    ensures GetMediaInfoFromKey(UploadKey(user, media, fileName)) == Success((user, media))
  {
    UploadKeySegments(user, media, fileName);
    FormatParse(user);
    FormatParse(media);
    MediaInfoOfSegments(UploadKey(user, media, fileName), Format(user), Format(media), ObjectName(fileName), user, media);
  }

  lemma MediaInfoOfSegments(key: string, u: string, m: string, n: string, user: Uuid, media: Uuid)
    requires Split(key, '/') == ["uploads", "users", u, "videos", m, n]
    requires Parse(u) == Some(user) && Parse(m) == Some(media)
    ensures GetMediaInfoFromKey(key) == Success((user, media))
  {
    var parts := Split(key, '/');
    assert |parts| == 6 && parts[2] == u && parts[4] == m;
    MediaInfoOfParts(key, user, media);
  }

  lemma MediaInfoOfParts(key: string, user: Uuid, media: Uuid)
    requires |Split(key, '/')| >= 5
    requires Parse(Split(key, '/')[2]) == Some(user) && Parse(Split(key, '/')[4]) == Some(media)
    ensures GetMediaInfoFromKey(key) == Success((user, media))
  {
  }

  /** The ids the processor reads from the key the route returns are the ids
      of the record the route created. */
  lemma RouteThenProcess(user: Uuid, fileName: string, freshId: Uuid, now: string)
    ensures var (entry, key) := RouteUploadFile(user, fileName, freshId, now);
      GetMediaInfoFromKey(key) == Success((entry.userId, entry.mediaId))
  {
    MediaInfoFromUploadKey(user, freshId, fileName);
  }

  lemma UploadKeyText(user: Uuid, media: Uuid, fileName: string)
    ensures UploadKey(user, media, fileName)
      == "uploads/users/" + Format(user) + "/videos/" + Format(media) + "/" + ObjectName(fileName)
  {
    var u, m := Format(user), Format(media);
    assert '/' !in u && '/' !in m;
    KeySegments(u, m, ObjectName(fileName));
  }

  lemma TargetOf(u: string, m: string, n: string)
    ensures TargetKey("uploads/users/" + u + "/videos/" + m + "/" + n) == "media/users/" + u + "/videos/" + m + "/" + n
  {
    var rest := "/users/" + u + "/videos/" + m + "/" + n;
    var key := "uploads/users/" + u + "/videos/" + m + "/" + n;
    assert key == "uploads" + rest;
    assert key[..7] == "uploads" && key[7..] == rest;
    assert "media" + rest == "media/users/" + u + "/videos/" + m + "/" + n;
  }

  lemma ThumbnailDirOf(u: string, m: string, n: string)
    requires '/' !in n && m != [] && m[|m| - 1] != '/'
    ensures DirName("media/users/" + u + "/videos/" + m + "/" + n) == "media/users/" + u + "/videos/" + m
  {
    var d := "media/users/" + u + "/videos/" + m;
    assert d[|d| - 1] == m[|m| - 1];
    DirNameOf(d, n);
  }

  /** The processed video goes to the same path under `media/` instead of
      `uploads/`. */
  lemma TargetOfUploadKey(user: Uuid, media: Uuid, fileName: string)
    ensures TargetKey(UploadKey(user, media, fileName))
      == "media/users/" + Format(user) + "/videos/" + Format(media) + "/" + ObjectName(fileName)
  {
    UploadKeyText(user, media, fileName);
    TargetOf(Format(user), Format(media), ObjectName(fileName));
  }

  /** The thumbnail sits in the processed video's directory and is named
      after the media id. */
  lemma ThumbnailOfUploadKey(user: Uuid, media: Uuid, fileName: string)
    ensures ThumbnailKey(TargetKey(UploadKey(user, media, fileName)), media)
      == "media/users/" + Format(user) + "/videos/" + Format(media) + "/thumbnail_270_150_" + Format(media) + ".jpg"
  {
    TargetOfUploadKey(user, media, fileName);
    var m := Format(media);
    assert m[|m| - 1] != '/';
    ThumbnailDirOf(Format(user), m, ObjectName(fileName));
  }
}
