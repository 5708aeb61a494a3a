/** The upload route of the API (`route_upload_file`): a media record is
    created for the request's file name, and the object key the client uploads
    to is built from the user id, the new media id, a sanitised base name and
    the original extension. */
module FileUpload {
  import opened Wrappers
  import opened Text
  import opened Uuids
  import opened Media

  /** Index of the last occurrence of `c` in `s`, or -1 (`str.rfind`). */
  function LastIndexOf(s: string, c: char): (i: int)
    ensures -1 <= i < |s|
    ensures i >= 0 ==> s[i] == c
    ensures forall j :: i < j < |s| ==> s[j] != c
  {
    if s == [] then -1
    else if s[|s| - 1] == c then |s| - 1
    else LastIndexOf(s[..|s| - 1], c)
  }

  /** `os.path.splitext(p)`: the extension starts at the last '.' after the
      last '/', provided something other than dots precedes it in the last
      component; otherwise it is empty. */
  function SplitExt(p: string): (r: (string, string))
    ensures r.0 + r.1 == p
    ensures '/' !in r.1
    ensures r.1 == [] || (r.1[0] == '.' && '.' !in r.1[1..])
  {
    var sep, dot := LastIndexOf(p, '/'), LastIndexOf(p, '.');
    if dot > sep && exists k :: sep + 1 <= k < dot && p[k] != '.' then
      assert forall j :: dot < j < |p| ==> p[j] != '.' && p[j] != '/';
      (p[..dot], p[dot..])
    else (p, "")
  }

  predicate IsAsciiAlnum(c: char)
  {
    'a' <= c <= 'z' || 'A' <= c <= 'Z' || '0' <= c <= '9'
  }

  /** The characters the sanitiser keeps. */
  predicate Kept(c: char)
  {
    IsAsciiAlnum(c) || c == '-' || c == '_'
  }

  /** What the sanitiser can produce: lowercase letters, digits, '-' and '_'. */
  predicate IsSanitisedChar(c: char)
  {
    'a' <= c <= 'z' || '0' <= c <= '9' || c == '-' || c == '_'
  }

  function Lower(c: char): char
  {
    if 'A' <= c <= 'Z' then ((c as int) + 32) as char else c
  }

  /** `"".join(c for c in base if c.isalnum() or c in ("-", "_")).lower()` */
  function Sanitise(s: string): (r: string)
    ensures |r| <= |s|
    ensures forall i :: 0 <= i < |r| ==> IsSanitisedChar(r[i])
  {
    if s == [] then [] else (if Kept(s[0]) then [Lower(s[0])] else []) + Sanitise(s[1..])
  }

  /** Sanitising works character by character, so order is kept. */
  lemma {:induction false} SanitiseAppend(a: string, b: string)
    ensures Sanitise(a + b) == Sanitise(a) + Sanitise(b)
  {
    if a != [] {
      SanitiseAppend(a[1..], b);
      assert (a + b)[0] == a[0];
      assert (a + b)[1..] == a[1..] + b;
    } else {
      assert a + b == b;
    }
  }

  /** A name made only of characters the sanitiser produces is left as it is;
      in particular sanitising twice is sanitising once. */
  lemma {:induction false} SanitiseFixed(s: string)
    requires forall i :: 0 <= i < |s| ==> IsSanitisedChar(s[i])
    ensures Sanitise(s) == s
  {
    if s != [] {
      SanitiseFixed(s[1..]);
      assert [s[0]] + s[1..] == s;
    }
  }

  lemma SanitiseIdempotent(s: string)
    ensures Sanitise(Sanitise(s)) == Sanitise(s)
  {
    SanitiseFixed(Sanitise(s));
  }

  /** The key's last component: the sanitised base name and the extension. */
  function ObjectName(fileName: string): (r: string)
    ensures '/' !in r
  {
    var (root, ext) := SplitExt(fileName);
    var name := Sanitise(root);
    assert forall i :: 0 <= i < |name| ==> name[i] != '/';
    name + ext
  }

  /** `f"uploads/users/{user_id}/videos/{media_id}/{sanitized_name}{extension}".lstrip("/")` */
  function UploadKey(user: Uuid, media: Uuid, fileName: string): string
  {
    LStrip("uploads/users/" + Format(user) + "/videos/" + Format(media) + "/" + ObjectName(fileName), {'/'})
  }

  lemma JoinSix(a: string, b: string, c: string, d: string, e: string, f: string)
    ensures Join([a, b, c, d, e, f], "/") == a + "/" + b + "/" + c + "/" + d + "/" + e + "/" + f
  {
    var parts := [a, b, c, d, e, f];
    assert parts[5..] == [f];
    assert parts[4..] == [e] + parts[5..];
    assert parts[3..] == [d] + parts[4..];
    assert parts[2..] == [c] + parts[3..];
    assert parts[1..] == [b] + parts[2..];
    assert parts == [a] + parts[1..];
    JoinPrepend(e, parts[5..], "/");
    JoinPrepend(d, parts[4..], "/");
    JoinPrepend(c, parts[3..], "/");
    JoinPrepend(b, parts[2..], "/");
    JoinPrepend(a, parts[1..], "/");
  }

  lemma KeySegments(u: string, m: string, n: string)
    requires '/' !in u && '/' !in m && '/' !in n
    ensures var key := "uploads/users/" + u + "/videos/" + m + "/" + n;
      && LStrip(key, {'/'}) == key
      && Split(key, '/') == ["uploads", "users", u, "videos", m, n]
  {
    var parts := ["uploads", "users", u, "videos", m, n];
    var key := "uploads/users/" + u + "/videos/" + m + "/" + n;
    assert key[0] == 'u';
    JoinSix("uploads", "users", u, "videos", m, n);
    assert "uploads/users/" == "uploads" + "/" + "users" + "/";
    assert "/videos/" == "/" + "videos" + "/";
    assert key == Join(parts, "/");
    forall i | 0 <= i < |parts|
      ensures '/' !in parts[i]
    {
    }
    SplitJoin(parts, '/');
  }

  /** The key is the six components joined by '/' (`lstrip` never removes
      anything), so splitting it on '/' gives the six components back, with
      the user id at index 2 and the media id at index 4. */
  lemma UploadKeySegments(user: Uuid, media: Uuid, fileName: string)
    ensures Split(UploadKey(user, media, fileName), '/') == ["uploads", "users", Format(user), "videos", Format(media), ObjectName(fileName)]
  {
    var u, m := Format(user), Format(media);
    assert '/' !in u && '/' !in m;
    KeySegments(u, m, ObjectName(fileName));
  }

  /** `route_upload_file`: the record created for the request (a fresh media
      id, both title and file name the raw request file name, state
      UPLOADING) and the object key built from that record's ids. */
  function RouteUploadFile(user: Uuid, fileName: string, freshId: Uuid, now: string): (r: (MediaInfo, string))
    ensures r.0.mediaId == freshId && r.0.userId == user
    ensures r.0.title == fileName && r.0.fileName == fileName
    ensures r.0.state == Uploading && r.0.uploadedAt == now && r.0.clips == None
    ensures |Split(r.1, '/')| == 6 && Split(r.1, '/')[2] == Format(r.0.userId) && Split(r.1, '/')[4] == Format(r.0.mediaId)
  {
    UploadKeySegments(user, freshId, fileName);
    var entry := MediaInfo(freshId, user, fileName, fileName, now, None, Uploading, None, None, None, None, None, None);
    (entry, UploadKey(entry.userId, entry.mediaId, fileName))
  }
}
