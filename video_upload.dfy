/** The upload form (`VideoUpload`): a chosen file is checked for its type and
    then its size, and an accepted one is previewed and uploaded while the
    form shows an upload in progress. The handler runs in two steps split at
    its first `await`: the selection, and the settling of the upload (the
    presigned-URL request and the PUT, whose outcome is a parameter). */
module VideoUpload {
  import opened Wrappers

  datatype File = File(name: string, mimeType: string, size: int)

  /** The form's error messages. `TooLarge` carries the limit in MiB that
      the message prints. */
  datatype UploadError = InvalidType | TooLarge(maxMb: real) | UploadFailed

  /** How the upload settled: the presigned-URL request failed, the PUT
      failed, or the PUT succeeded and the presigned answer's `fileKey` came
      back ("" for a missing one). */
  datatype Outcome = PresignFailed | PutFailed | Stored(fileKey: string)

  const AllowedTypes: seq<string> := ["video/mp4", "video/quicktime", "video/x-msvideo"]

  const MiB: int := 1024 * 1024

  /** The `maxSize` default: 512 MiB. */
  const DefaultMaxSize: int := 512 * MiB

  /** The checks in order: the type first, then the size; a file exactly
      `maxSize` bytes long passes. */
  function Validate(file: File, maxSize: int): (r: Option<UploadError>)
    ensures r == Some(InvalidType) <==> file.mimeType !in AllowedTypes
    ensures r.Some? && r.value.TooLarge? <==> file.mimeType in AllowedTypes && file.size > maxSize
    ensures r.Some? && r.value.TooLarge? ==> r.value.maxMb * MiB as real == maxSize as real
    ensures r == None <==> file.mimeType in AllowedTypes && file.size <= maxSize
  {
    if file.mimeType !in AllowedTypes then Some(InvalidType)
    else if file.size > maxSize then Some(TooLarge(maxSize as real / MiB as real))
    else None
  }

  /** The limit is inclusive: a file of exactly the limit is accepted, one
      byte more is refused. */
  lemma SizeLimitInclusive(name: string, mimeType: string, maxSize: int)
    requires mimeType in AllowedTypes
    ensures Validate(File(name, mimeType, maxSize), maxSize) == None
    ensures Validate(File(name, mimeType, maxSize + 1), maxSize) == Some(TooLarge(maxSize as real / MiB as real))
    ensures DefaultMaxSize == 536870912
  {
  }

  /** An upload succeeds when it settles with a non-empty key. */
  predicate Succeeded(o: Outcome)
  {
    o.Stored? && o.fileKey != ""
  }

  class Uploader {
    const maxSize: int
    var error: Option<UploadError>
    var isUploading: bool
    var previewUrl: Option<string>
    var uploadProgress: int

    /** Keys handed to `onUploadComplete`, and preview URLs revoked. */
    var completedKeys: seq<string>
    var revokedUrls: seq<string>

    /** Only non-empty keys are ever reported. */
    predicate Valid()
      reads this
    {
      forall i :: 0 <= i < |completedKeys| ==> completedKeys[i] != ""
    }

    constructor (maxSize: Option<int>)
      ensures Valid()
      ensures this.maxSize == (if maxSize.Some? then maxSize.value else DefaultMaxSize)
      ensures error == None && !isUploading && previewUrl == None && uploadProgress == 0
      ensures completedKeys == [] && revokedUrls == []
    {
      this.maxSize := if maxSize.Some? then maxSize.value else DefaultMaxSize;
      error := None;
      isUploading := false;
      previewUrl := None;
      uploadProgress := 0;
      completedKeys := [];
      revokedUrls := [];
    }

    /** `handleFileSelect` up to its first `await`. Nothing happens without a
        file; a refused file only sets the error; an accepted one gets the
        fresh preview URL `objectUrl`, clears the error and starts the upload
        at progress 0. `started` tells whether the upload goes on, and `seen`
        is the preview URL this run's closure captured: the one before its
        own `setPreviewUrl`. Each run keeps its own; nothing stops a second
        drop from starting a run while one is in flight. */
    method SelectFile(file: Option<File>, objectUrl: string) returns (started: bool, seen: Option<string>)
      requires Valid()
      modifies this`error, this`previewUrl, this`isUploading, this`uploadProgress
      ensures Valid()
      ensures started <==> file.Some? && Validate(file.value, maxSize) == None
      ensures seen == old(previewUrl)
      ensures file.None? ==> unchanged(this)
      ensures file.Some? && !started ==>
        && error == Validate(file.value, maxSize)
        && unchanged(this`previewUrl, this`isUploading, this`uploadProgress)
      ensures started ==>
        && previewUrl == Some(objectUrl)
        && error == None && isUploading && uploadProgress == 0
    {
      seen := previewUrl;
      if file.None? {
        return false, seen;
      }
      var problem := Validate(file.value, maxSize);
      if problem.Some? {
        error := problem;
        return false, seen;
      }
      previewUrl := Some(objectUrl);
      error := None;
      isUploading := true;
      uploadProgress := 0;
      started := true;
    }

    /** The rest of the run of `handleFileSelect` whose closure captured
        `seen`. A non-empty key is reported to `onUploadComplete`; anything
        else sets the retry message and, when the closure saw a preview,
        revokes that one and clears the preview. Either way the form stops
        showing an upload. */
    method UploadSettled(outcome: Outcome, seen: Option<string>)
      requires Valid()
      modifies this`error, this`previewUrl, this`isUploading, this`uploadProgress, this`completedKeys, this`revokedUrls
      ensures Valid()
      ensures !isUploading && uploadProgress == 0
      ensures Succeeded(outcome) ==>
        && completedKeys == old(completedKeys) + [outcome.fileKey]
        && unchanged(this`error, this`previewUrl, this`revokedUrls)
      ensures !Succeeded(outcome) ==>
        && completedKeys == old(completedKeys) && error == Some(UploadFailed)
        && (seen.Some? ==> previewUrl == None && revokedUrls == old(revokedUrls) + [seen.value])
        && (seen.None? ==> previewUrl == old(previewUrl) && revokedUrls == old(revokedUrls))
    {
      if Succeeded(outcome) {
        completedKeys := completedKeys + [outcome.fileKey];
      } else {
        error := Some(UploadFailed);
        if seen.Some? {
          revokedUrls := revokedUrls + [seen.value];
          previewUrl := None;
        }
      }
      isUploading := false;
      uploadProgress := 0;
    }
  }

  /** Two drops in a row, the first upload failing after the second has
      started: the first run's closure saw no preview, so it revokes nothing
      and the second file's preview stays. */
  method OverlappingDrops(a: File, b: File, urlA: string, urlB: string)
    returns (preview: Option<string>, revoked: seq<string>, failed: bool)
    requires Validate(a, DefaultMaxSize) == None && Validate(b, DefaultMaxSize) == None
    ensures preview == Some(urlB) && revoked == [] && failed
  {
    var form := new Uploader(None);
    var startedA, seenA := form.SelectFile(Some(a), urlA);
    var startedB, seenB := form.SelectFile(Some(b), urlB);
    form.UploadSettled(PutFailed, seenA);
    preview, revoked, failed := form.previewUrl, form.revokedUrls, form.error == Some(UploadFailed);
  }
}
