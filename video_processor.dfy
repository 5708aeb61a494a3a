/** The video processor's bookkeeping around ffmpeg: the multipart upload of
    the encoder's output, the `key=value` progress lines, the encoder settings
    per pass, the ids and keys derived from the uploaded object's key, and the
    frame count when ffprobe gives none. */
module VideoProcessor {
  import opened Wrappers
  import opened Text
  import opened Uuids
  import JsNumber

  // ---------------------------------------------------------------- upload parts

  newtype byte = b: int | 0 <= b < 256

  /** Bytes asked of the encoder's pipe per read. */
  const ReadSize: nat := 8192

  /** S3's smallest part except the last: 5 MiB. */
  const MinPartSize: nat := 5 * 1024 * 1024

  datatype Part = Part(number: nat, body: seq<byte>)

  function Flatten(chunks: seq<seq<byte>>): seq<byte>
  {
    if chunks == [] then [] else Flatten(chunks[..|chunks| - 1]) + chunks[|chunks| - 1]
  }

  function Bodies(parts: seq<Part>): seq<byte>
  {
    if parts == [] then [] else Bodies(parts[..|parts| - 1]) + parts[|parts| - 1].body
  }

  lemma FlattenSnoc(chunks: seq<seq<byte>>, i: nat)
    requires i < |chunks|
    ensures Flatten(chunks[..i + 1]) == Flatten(chunks[..i]) + chunks[i]
  {
    assert chunks[..i + 1][..i] == chunks[..i];
  }

  lemma BodiesSnoc(parts: seq<Part>, p: Part)
    ensures Bodies(parts + [p]) == Bodies(parts) + p.body
  {
    assert (parts + [p])[..|parts|] == parts;
  }

  /** The bytes read so far, after one more chunk. */
  lemma ReadOneMore(chunks: seq<seq<byte>>, i: nat, cut: seq<byte>, buffer: seq<byte>)
    requires i < |chunks| && cut + buffer == Flatten(chunks[..i])
    ensures cut + (buffer + chunks[i]) == Flatten(chunks[..i + 1])
    ensures cut + (buffer + chunks[i]) + [] == Flatten(chunks[..i + 1])
  {
    FlattenSnoc(chunks, i);
    assert cut + (buffer + chunks[i]) == cut + buffer + chunks[i];
  }

  /** Parts cut inside the loop: numbered from 1, each at least 5 MiB and
      less than one read beyond it. */
  predicate FullParts(parts: seq<Part>)
  {
    forall k :: 0 <= k < |parts| ==> parts[k].number == k + 1 && MinPartSize <= |parts[k].body| < MinPartSize + ReadSize
  }

  lemma CutPart(parts: seq<Part>, body: seq<byte>)
    requires FullParts(parts) && MinPartSize <= |body| < MinPartSize + ReadSize
    ensures FullParts(parts + [Part(|parts| + 1, body)])
    ensures Bodies(parts + [Part(|parts| + 1, body)]) == Bodies(parts) + body
  {
    BodiesSnoc(parts, Part(|parts| + 1, body));
  }

  /** What the loop leaves, with the leftover buffer as the last part when it
      is not empty. */
  lemma FinishParts(parts: seq<Part>, buffer: seq<byte>, all: seq<Part>)
    requires FullParts(parts) && |buffer| < MinPartSize
    requires all == if buffer == [] then parts else parts + [Part(|parts| + 1, buffer)]
    ensures Bodies(all) == Bodies(parts) + buffer
    ensures forall k :: 0 <= k < |all| ==> all[k].number == k + 1
    ensures forall k :: 0 <= k < |all| ==> 0 < |all[k].body| < MinPartSize + ReadSize
    ensures forall k :: 0 <= k < |all| - 1 ==> MinPartSize <= |all[k].body|
    ensures all == [] <==> Bodies(parts) + buffer == []
  {
    if parts != [] {
      assert |Bodies(parts)| >= |parts[|parts| - 1].body|;
    }
    if buffer == [] {
      assert Bodies(parts) + buffer == Bodies(parts);
    } else {
      BodiesSnoc(parts, Part(|parts| + 1, buffer));
    }
  }

  /** `_create_upload_parts`: `chunks` are the successive results of
      `read(8192)` on the encoder's stdout; reading stops at the first empty
      one (or when there are no more), and `consumed` is the number of chunks
      taken. The buffer is cut into a part as soon as it holds at least 5 MiB;
      what is left at the end becomes one last part if it is not empty. Parts
      are numbered from 1 without gaps, and together they are exactly the bytes
      read. */
  method CreateUploadParts(chunks: seq<seq<byte>>) returns (parts: seq<Part>, consumed: nat)
    requires forall j :: 0 <= j < |chunks| ==> |chunks[j]| <= ReadSize
    ensures consumed <= |chunks|
    ensures forall j :: 0 <= j < consumed ==> chunks[j] != []
    ensures consumed < |chunks| ==> chunks[consumed] == []
    ensures Bodies(parts) == Flatten(chunks[..consumed])
    ensures forall k :: 0 <= k < |parts| ==> parts[k].number == k + 1
    ensures forall k :: 0 <= k < |parts| ==> 0 < |parts[k].body| < MinPartSize + ReadSize
    ensures forall k :: 0 <= k < |parts| - 1 ==> MinPartSize <= |parts[k].body|
    ensures parts == [] <==> Flatten(chunks[..consumed]) == []
  {
    var cut, buffer;
    cut, buffer, consumed := CutWhileReading(chunks);
    if |buffer| > 0 {
      parts := cut + [Part(|cut| + 1, buffer)];
    } else {
      parts := cut;
    }
    FinishParts(cut, buffer, parts);
  }

  /** The read loop: full parts are cut as soon as the buffer holds 5 MiB,
      and the rest stays in the buffer. */
  method CutWhileReading(chunks: seq<seq<byte>>) returns (cut: seq<Part>, buffer: seq<byte>, consumed: nat)
    requires forall j :: 0 <= j < |chunks| ==> |chunks[j]| <= ReadSize
    ensures consumed <= |chunks|
    ensures forall j :: 0 <= j < consumed ==> chunks[j] != []
    ensures consumed < |chunks| ==> chunks[consumed] == []
    ensures FullParts(cut) && |buffer| < MinPartSize
    ensures Bodies(cut) + buffer == Flatten(chunks[..consumed])
  {
    buffer := [];
    var partNumber := 1;
    cut := [];
    var i := 0;
    while i < |chunks| && chunks[i] != []
      invariant 0 <= i <= |chunks|
      invariant forall j :: 0 <= j < i ==> chunks[j] != []
      invariant partNumber == |cut| + 1
      invariant FullParts(cut)
      invariant Bodies(cut) + buffer == Flatten(chunks[..i])
      invariant |buffer| < MinPartSize
    {
      var filled := buffer + chunks[i];
      ReadOneMore(chunks, i, Bodies(cut), buffer);
      if |filled| >= MinPartSize {
        CutPart(cut, filled);
        cut := cut + [Part(partNumber, filled)];
        partNumber := partNumber + 1;
        buffer := [];
      } else {
        buffer := filled;
      }
      i := i + 1;
    }
    consumed := i;
  }

  // ---------------------------------------------------------------- progress lines

  /** The fields of `ProgressInfo`, by the names ffmpeg uses as keys. */
  datatype Field = Frame | Fps | TotalSize | Time | Bitrate | Speed | ProgressField

  /** A snapshot of a `ProgressInfo` record. */
  datatype Progress = Progress(frame: int, fps: real, totalSize: int, time: real, bitrate: string, speed: string, progress: string)

  /** A field's value, whatever its type. */
  datatype Value = IntValue(i: int) | RealValue(r: real) | StringValue(s: string)

  function FieldOf(key: string): (f: Option<Field>)
    ensures f == Some(Frame) <==> key == "frame"
    ensures f == Some(Speed) <==> key == "speed"
  {
    if key == "frame" then Some(Frame)
    else if key == "fps" then Some(Fps)
    else if key == "total_size" then Some(TotalSize)
    else if key == "time" then Some(Time)
    else if key == "bitrate" then Some(Bitrate)
    else if key == "speed" then Some(Speed)
    else if key == "progress" then Some(ProgressField)
    else None
  }

  function Get(p: Progress, f: Field): Value
  {
    match f
    case Frame => IntValue(p.frame)
    case Fps => RealValue(p.fps)
    case TotalSize => IntValue(p.totalSize)
    case Time => RealValue(p.time)
    case Bitrate => StringValue(p.bitrate)
    case Speed => StringValue(p.speed)
    case ProgressField => StringValue(p.progress)
  }

  /** `s.split(c, 1)` when `c` occurs: the text before the first `c` and
      everything after it. */
  function SplitAtFirst(s: string, c: char): (r: (string, string))
    requires c in s
    ensures r.0 + [c] + r.1 == s
    ensures c !in r.0
  {
    if s[0] == c then ([], s[1..])
    else
      var (k, v) := SplitAtFirst(s[1..], c);
      assert [s[0]] + k + [c] + v == s;
      ([s[0]] + k, v)
  }

  /** Stripping characters of `cs` never removes one outside `cs`. */
  lemma StripKeeps(s: string, cs: set<char>, c: char)
    requires c in s && c !in cs
    ensures c in Strip(s, cs)
  {
    var l := LStrip(s, cs);
    var k :| 0 <= k < |s| && s[k] == c;
    assert k >= |s| - |l|;
    assert l[k - (|s| - |l|)] == c;
    var r := RStrip(l, cs);
    assert k - (|s| - |l|) < |r|;
    assert r[k - (|s| - |l|)] == c;
  }

  /** The key and value of a line holding '=': the stripped line split at its
      first '='. */
  function KeyValue(line: string): (r: (string, string))
    requires '=' in line
    ensures r.0 + "=" + r.1 == Strip(line, Whitespace)
    ensures '=' !in r.0
  {
    StripKeeps(line, Whitespace, '=');
    SplitAtFirst(Strip(line, Whitespace), '=')
  }

  /** The assignment `_parse_progress_line` makes for a key that names a
      field: integer fields change only when the value parses as an integer
      and float fields only when `parseFloat` (Python's `float()`) accepts
      it; text fields take the value as it is. `speed` is a text field, so the
      float branch's special case for it is never reached. */
  function Assign(p: Progress, f: Field, value: string, parseFloat: string -> Option<real>): Progress
  {
    match f
    case Frame => (match ParseInt(value) case Some(n) => p.(frame := n) case None => p)
    case TotalSize => (match ParseInt(value) case Some(n) => p.(totalSize := n) case None => p)
    case Fps => (match parseFloat(value) case Some(x) => p.(fps := x) case None => p)
    case Time => (match parseFloat(value) case Some(x) => p.(time := x) case None => p)
    case Bitrate => p.(bitrate := value)
    case Speed => p.(speed := value)
    case ProgressField => p.(progress := value)
  }

  /** The attributes outside the fields that `hasattr` still finds on a
      `ProgressInfo` and that refuse a string: `setattr` raises `TypeError`
      for `__class__` and `__dict__` and `AttributeError` for `__weakref__`,
      which the `except ValueError` does not catch. Any other attribute
      found (a method, `__doc__`, ...) is shadowed by an instance attribute
      that none of the fields sees. */
  const RejectingAttributes: set<string> := {"__class__", "__dict__", "__weakref__"}

  /** `_parse_progress_line` raised: `setattr` refused the key. */
  datatype LineError = SetAttrRaises(key: string)

  /** What `_parse_progress_line` does to the record: nothing without a '='
      or for a key that is not a field, an uncaught error for a key in
      `RejectingAttributes`, otherwise the field's assignment. */
  function ApplyLine(p: Progress, line: string, parseFloat: string -> Option<real>): Result<Progress, LineError>
  {
    if '=' !in line then Success(p)
    else match FieldOf(KeyValue(line).0)
      case None => if KeyValue(line).0 in RejectingAttributes then Failure(SetAttrRaises(KeyValue(line).0)) else Success(p)
      case Some(f) => Success(Assign(p, f, KeyValue(line).1, parseFloat))
  }

  /** The `ProgressInfo` record the progress reader keeps updating. */
  class ProgressInfo {
    var frame: int
    var fps: real
    var totalSize: int
    var time: real
    var bitrate: string
    var speed: string
    var progress: string

    constructor ()
      ensures Snapshot() == Progress(0, 0.0, 0, 0.0, "", "0x", "")
    {
      frame := 0;
      fps := 0.0;
      totalSize := 0;
      time := 0.0;
      bitrate := "";
      speed := "0x";
      progress := "";
    }

    function Snapshot(): Progress
      reads this
    {
      Progress(frame, fps, totalSize, time, bitrate, speed, progress)
    }

    /** `_parse_progress_line(line, self)`: the record becomes `ApplyLine`'s,
        or stays as it was when the call raises, which `raised` reports. */
    method ParseProgressLine(line: string, parseFloat: string -> Option<real>) returns (raised: Option<LineError>)
      modifies this
      ensures ApplyLine(old(Snapshot()), line, parseFloat).Success? ==>
        raised == None && Snapshot() == ApplyLine(old(Snapshot()), line, parseFloat).value
      ensures ApplyLine(old(Snapshot()), line, parseFloat).Failure? ==>
        raised == Some(ApplyLine(old(Snapshot()), line, parseFloat).error) && Snapshot() == old(Snapshot())
    {
      raised := None;
      if '=' !in line {
        return;
      }
      var (key, value) := KeyValue(line);
      var field := FieldOf(key);
      if field.None? {
        if key in RejectingAttributes {
          raised := Some(SetAttrRaises(key));
        }
        return;
      }
      match field.value
      case Frame =>
        var n := ParseInt(value);
        if n.Some? {
          frame := n.value;
        }
      case TotalSize =>
        var n := ParseInt(value);
        if n.Some? {
          totalSize := n.value;
        }
      case Fps =>
        var x := parseFloat(value);
        if x.Some? {
          fps := x.value;
        }
      case Time =>
        var x := parseFloat(value);
        if x.Some? {
          time := x.value;
        }
      case Bitrate =>
        bitrate := value;
      case Speed =>
        speed := value;
      case ProgressField =>
        progress := value;
    }
  }

  /** A line without '=' changes nothing. */
  lemma NoEqualsUnchanged(p: Progress, line: string, parseFloat: string -> Option<real>)
    requires '=' !in line
    ensures ApplyLine(p, line, parseFloat) == Success(p)
  {
  }

  /** A key that is not a field changes nothing, unless `setattr` refuses
      it, and then the call raises. */
  lemma UnknownKeyUnchanged(p: Progress, line: string, parseFloat: string -> Option<real>)
    requires '=' in line && FieldOf(KeyValue(line).0).None?
    ensures KeyValue(line).0 !in RejectingAttributes ==> ApplyLine(p, line, parseFloat) == Success(p)
    ensures KeyValue(line).0 in RejectingAttributes ==> ApplyLine(p, line, parseFloat) == Failure(SetAttrRaises(KeyValue(line).0))
  {
  }

  /** Every field other than the line's key keeps its value. */
  lemma OnlyNamedField(p: Progress, line: string, parseFloat: string -> Option<real>, f: Field)
    requires '=' in line ==> FieldOf(KeyValue(line).0) != Some(f)
    ensures ApplyLine(p, line, parseFloat).Success? ==> Get(ApplyLine(p, line, parseFloat).value, f) == Get(p, f)
  {
  }

  lemma {:induction false} SplitAtFirstOf(a: string, c: char, b: string)
    requires c !in a
    ensures c in a + [c] + b
    ensures SplitAtFirst(a + [c] + b, c) == (a, b)
  {
    var s := a + [c] + b;
    assert s[|a|] == c;
    if a != [] {
      assert s[1..] == a[1..] + [c] + b;
      SplitAtFirstOf(a[1..], c, b);
      assert [a[0]] + a[1..] == a;
    } else {
      assert s[1..] == b;
    }
  }

  /** A line `key=value` that needs no stripping is split at its first '=':
      the value may hold further '='. */
  lemma KeyValueOf(key: string, value: string)
    requires '=' !in key && key != [] && key[0] !in Whitespace
    requires value != [] ==> value[|value| - 1] !in Whitespace
    ensures '=' in key + "=" + value
    ensures KeyValue(key + "=" + value) == (key, value)
  {
    var line := key + "=" + value;
    assert line[0] == key[0];
    assert line[|line| - 1] == if value == [] then '=' else value[|value| - 1];
    StripUnchanged(line, Whitespace);
    SplitAtFirstOf(key, '=', value);
  }

  /** A `key=value` line for a field's key, needing no stripping, assigns
      that field the value. */
  lemma KeyLine(p: Progress, key: string, f: Field, value: string, line: string, parseFloat: string -> Option<real>)
    requires '=' !in key && key != [] && key[0] !in Whitespace && FieldOf(key) == Some(f)
    requires value != [] ==> value[|value| - 1] !in Whitespace
    requires line == key + "=" + value
    ensures ApplyLine(p, line, parseFloat) == Success(Assign(p, f, value, parseFloat))
  {
    KeyValueOf(key, value);
  }

  lemma FrameLineOf(p: Progress, s: string, parseFloat: string -> Option<real>)
    requires s != [] ==> s[|s| - 1] !in Whitespace
    ensures ApplyLine(p, "frame=" + s, parseFloat) == Success(Assign(p, Frame, s, parseFloat))
  {
    assert "frame=" + s == "frame" + "=" + s;
    KeyLine(p, "frame", Frame, s, "frame=" + s, parseFloat);
  }

  /** `frame=<n>` sets the frame count to n and nothing else. */
  lemma FrameLine(p: Progress, n: int, parseFloat: string -> Option<real>)
    ensures ApplyLine(p, "frame=" + IntToString(n), parseFloat) == Success(p.(frame := n))
  {
    var s := IntToString(n);
    IntToStringChars(n);
    assert s[|s| - 1] !in Whitespace;
    FrameLineOf(p, s, parseFloat);
    ParseIntToString(n);
  }

  /** `speed=<v>` stores v verbatim, even when v itself holds '='. */
  lemma SpeedLine(p: Progress, v: string, parseFloat: string -> Option<real>)
    requires v != [] ==> v[|v| - 1] !in Whitespace
    ensures ApplyLine(p, "speed=" + v, parseFloat) == Success(p.(speed := v))
  {
    var line := "speed=" + v;
    assert line == "speed" + "=" + v;
    KeyLine(p, "speed", Speed, v, line, parseFloat);
    AssignSpeed(p, v, parseFloat);
  }

  /** The refused attributes start with '_', hold no '=' and name no field. */
  lemma RejectingShape(key: string)
    requires key in RejectingAttributes
    ensures key != [] && key[0] == '_' && '=' !in key && FieldOf(key).None?
  {
    if key == "__class__" {
    } else if key == "__dict__" {
    } else {
      assert key == "__weakref__";
    }
  }

  /** A `key=value` line for an attribute that refuses a string raises, and
      the record is left as it was. */
  lemma RejectingKeyRaises(p: Progress, key: string, value: string, parseFloat: string -> Option<real>)
    requires key in RejectingAttributes
    requires value != [] ==> value[|value| - 1] !in Whitespace
    ensures ApplyLine(p, key + "=" + value, parseFloat) == Failure(SetAttrRaises(key))
  {
    RejectingShape(key);
    WhitespaceOutsidePrintable(key[0]);
    KeyValueOf(key, value);
  }

  /** Stripping a character of `cs` off the front changes nothing in the strip. */
  lemma StripLeading(c: char, t: string, cs: set<char>)
    requires c in cs
    ensures Strip([c] + t, cs) == Strip(t, cs)
  {
    assert ([c] + t)[1..] == t;
  }

  /** Two lines with the same strip, both holding '=' or neither, are
      parsed alike. */
  lemma SameStripSameLine(p: Progress, a: string, b: string, parseFloat: string -> Option<real>)
    requires '=' in a <==> '=' in b
    requires Strip(a, Whitespace) == Strip(b, Whitespace)
    ensures ApplyLine(p, a, parseFloat) == ApplyLine(p, b, parseFloat)
  {
    if '=' in a {
      assert KeyValue(a) == KeyValue(b);
    }
  }

  /** Putting a character other than `d` in front keeps whether `d` occurs. */
  lemma PrependKeeps(c: char, line: string, d: char)
    requires c != d
    ensures d in [c] + line <==> d in line
  {
    assert forall i :: 0 <= i < |line| ==> ([c] + line)[i + 1] == line[i];
  }

  /** `line.strip()` removes Unicode whitespace too: a line led by any
      whitespace character, U+00A0 say, is parsed as the line without it. */
  lemma LeadingWhitespaceIgnored(p: Progress, c: char, line: string, parseFloat: string -> Option<real>)
    requires c in Whitespace
    ensures ApplyLine(p, [c] + line, parseFloat) == ApplyLine(p, line, parseFloat)
  {
    WhitespaceOutsidePrintable('=');
    PrependKeeps(c, line, '=');
    StripLeading(c, line, Whitespace);
    SameStripSameLine(p, [c] + line, line, parseFloat);
  }

  lemma AssignSpeed(p: Progress, v: string, parseFloat: string -> Option<real>)
    ensures Assign(p, Speed, v, parseFloat) == p.(speed := v)
  {
  }

  /** `frame=<s>` with a value `int()` rejects (ffmpeg's `N/A`, say) leaves
      the record alone. */
  lemma UnparsableFrameUnchanged(p: Progress, s: string, parseFloat: string -> Option<real>)
    requires s != [] ==> s[|s| - 1] !in Whitespace
    requires ParseInt(s).None?
    ensures ApplyLine(p, "frame=" + s, parseFloat) == Success(p)
  {
    FrameLineOf(p, s, parseFloat);
  }

  // ---------------------------------------------------------------- codec settings

  /** The ffmpeg output options the processor sets; `Name` gives each one's
      spelling on the command line. */
  datatype Opt = Acodec | Movflags | Vcodec | Preset | Profile | VideoBitrate | Maxrate | Bufsize
    | Gop | BFrames | Flags | ForceKeyFrames | Pass | MuxerF | MuxerFormat | Crf

  function Name(o: Opt): string
  {
    match o
    case Acodec => "acodec"
    case Movflags => "movflags"
    case Vcodec => "vcodec"
    case Preset => "preset"
    case Profile => "profile:v"
    case VideoBitrate => "b:v"
    case Maxrate => "maxrate"
    case Bufsize => "bufsize"
    case Gop => "g"
    case BFrames => "bf"
    case Flags => "flags"
    case ForceKeyFrames => "force_key_frames"
    case Pass => "pass"
    case MuxerF => "f"
    case MuxerFormat => "format"
    case Crf => "crf"
  }

  datatype Setting = Text(s: string) | Number(n: int)

  const StreamingSettings: map<Opt, Setting> :=
    map[Acodec := Text("none"), Movflags := Text("frag_keyframe+empty_moov+faststart")]

  const H264Settings: map<Opt, Setting> := map[
    Vcodec := Text("libx264"),
    Preset := Text("medium"),
    Profile := Text("high"),
    VideoBitrate := Text("2M"),
    Maxrate := Text("2.5M"),
    Bufsize := Text("5M"),
    Gop := Number(20),
    BFrames := Number(2),
    Flags := Text("+cgop"),
    ForceKeyFrames := Text("expr:gte(t,n_forced*2)")]

  /** The settings that depend on the pass: `pass=1` with the null muxer,
      `pass=2` into mp4, or a single CRF 23 pass into mp4. */
  function PassSettings(pass: int): map<Opt, Setting>
  {
    if pass == 1 then map[Pass := Number(1), MuxerF := Text("null")]
    else if pass == 2 then map[Pass := Number(2), MuxerFormat := Text("mp4")]
    else map[Crf := Number(23), MuxerFormat := Text("mp4")]
  }

  /** `_get_codec_settings(H264, pass)`: the streaming settings, then the
      H.264 settings, then the pass's own settings. */
  function CodecSettings(pass: int): map<Opt, Setting>
  {
    StreamingSettings + H264Settings + PassSettings(pass)
  }

  /** The first pass adds `pass=1` and the null muxer, the second `pass=2`
      and mp4, any other value a CRF 23 encode into mp4; nothing else is set. */
  lemma CodecSettingsOf(pass: int)
    ensures pass == 1 ==> CodecSettings(pass).Keys == StreamingSettings.Keys + H264Settings.Keys + {Pass, MuxerF}
    ensures pass == 1 ==> CodecSettings(pass)[Pass] == Number(1) && CodecSettings(pass)[MuxerF] == Text("null")
    ensures pass == 2 ==> CodecSettings(pass).Keys == StreamingSettings.Keys + H264Settings.Keys + {Pass, MuxerFormat}
    ensures pass == 2 ==> CodecSettings(pass)[Pass] == Number(2) && CodecSettings(pass)[MuxerFormat] == Text("mp4")
    ensures pass != 1 && pass != 2 ==> CodecSettings(pass).Keys == StreamingSettings.Keys + H264Settings.Keys + {Crf, MuxerFormat}
    ensures pass != 1 && pass != 2 ==> CodecSettings(pass)[Crf] == Number(23) && CodecSettings(pass)[MuxerFormat] == Text("mp4")
  {
    if pass == 1 {
      FirstPass();
    } else if pass == 2 {
      SecondPass();
    } else {
      SinglePass(pass);
    }
  }

  lemma FirstPass()
    ensures CodecSettings(1).Keys == StreamingSettings.Keys + H264Settings.Keys + {Pass, MuxerF}
    ensures CodecSettings(1)[Pass] == Number(1) && CodecSettings(1)[MuxerF] == Text("null")
  {
    assert PassSettings(1) == map[Pass := Number(1), MuxerF := Text("null")];
  }

  lemma SecondPass()
    ensures CodecSettings(2).Keys == StreamingSettings.Keys + H264Settings.Keys + {Pass, MuxerFormat}
    ensures CodecSettings(2)[Pass] == Number(2) && CodecSettings(2)[MuxerFormat] == Text("mp4")
  {
    assert PassSettings(2) == map[Pass := Number(2), MuxerFormat := Text("mp4")];
  }

  lemma SinglePass(pass: int)
    requires pass != 1 && pass != 2
    ensures CodecSettings(pass).Keys == StreamingSettings.Keys + H264Settings.Keys + {Crf, MuxerFormat}
    ensures CodecSettings(pass)[Crf] == Number(23) && CodecSettings(pass)[MuxerFormat] == Text("mp4")
  {
    assert PassSettings(pass) == map[Crf := Number(23), MuxerFormat := Text("mp4")];
  }

  /** In `a + b + c`, the entries of `b` survive when `c` does not override
      them, and those of `a` when neither `b` nor `c` does. */
  lemma MergeKeeps<K, V>(a: map<K, V>, b: map<K, V>, c: map<K, V>)
    ensures b.Keys !! c.Keys ==> forall o :: o in b ==> o in a + b + c && (a + b + c)[o] == b[o]
    ensures a.Keys !! (b.Keys + c.Keys) ==> forall o :: o in a ==> o in a + b + c && (a + b + c)[o] == a[o]
  {
  }

  /** The options only `PassSettings` sets. */
  predicate PassOpt(o: Opt)
  {
    o == Pass || o == MuxerF || o == MuxerFormat || o == Crf
  }

  lemma PassKeys(pass: int)
    ensures forall o :: o in PassSettings(pass) ==> PassOpt(o)
  {
  }

  lemma H264Keys()
    ensures forall o :: o in H264Settings ==> !PassOpt(o) && o != Acodec && o != Movflags
  {
  }

  lemma StreamingKeys()
    ensures forall o :: o in StreamingSettings ==> o == Acodec || o == Movflags
  {
  }

  /** No pass overrides a streaming or an H.264 setting. */
  lemma PassSettingsApart(pass: int)
    ensures H264Settings.Keys !! PassSettings(pass).Keys
    ensures StreamingSettings.Keys !! (H264Settings.Keys + PassSettings(pass).Keys)
  {
    PassKeys(pass);
    H264Keys();
    StreamingKeys();
  }

  /** Every pass keeps the streaming settings unchanged. */
  lemma StreamingSettingsKept(pass: int)
    ensures forall o :: o in StreamingSettings ==> o in CodecSettings(pass) && CodecSettings(pass)[o] == StreamingSettings[o]
  {
    PassSettingsApart(pass);
    MergeKeeps(StreamingSettings, H264Settings, PassSettings(pass));
  }

  /** Every pass keeps the H.264 settings unchanged. */
  lemma H264SettingsKept(pass: int)
    ensures forall o :: o in H264Settings ==> o in CodecSettings(pass) && CodecSettings(pass)[o] == H264Settings[o]
  {
    PassSettingsApart(pass);
    MergeKeeps(StreamingSettings, H264Settings, PassSettings(pass));
  }

  // ---------------------------------------------------------------- keys

  /** How `_get_media_info_from_key` fails: too few '/'-segments, or a
      segment that is not a UUID. */
  datatype KeyError = IndexError | BadUuid

  /** `_get_media_info_from_key`: segments 2 and 4 of the key as (user id,
      media id), checked in Python's order (index 2, its parse, index 4, its
      parse). */
  function GetMediaInfoFromKey(key: string): (r: Result<(Uuid, Uuid), KeyError>)
    ensures r.Success? <==> |Split(key, '/')| >= 5 && Parse(Split(key, '/')[2]).Some? && Parse(Split(key, '/')[4]).Some?
    ensures r.Success? ==> Parse(Split(key, '/')[2]) == Some(r.value.0) && Parse(Split(key, '/')[4]) == Some(r.value.1)
    ensures r == Failure(IndexError) <==> |Split(key, '/')| < 3 || (Parse(Split(key, '/')[2]).Some? && |Split(key, '/')| < 5)
  {
    var data := Split(key, '/');
    if |data| < 3 then Failure(IndexError)
    else match Parse(data[2])
      case None => Failure(BadUuid)
      case Some(user) =>
        if |data| < 5 then Failure(IndexError)
        else match Parse(data[4])
          case None => Failure(BadUuid)
          case Some(media) => Success((user, media))
  }

  /** `re.sub(r"^uploads", "media", key)` */
  function TargetKey(key: string): (r: string)
    ensures |key| >= 7 && key[..7] == "uploads" ==> r == "media" + key[7..]
    ensures !(|key| >= 7 && key[..7] == "uploads") ==> r == key
  {
    if |key| >= 7 && key[..7] == "uploads" then "media" + key[7..] else key
  }

  function AllSlashes(s: string): bool
  {
    forall i :: 0 <= i < |s| ==> s[i] == '/'
  }

  /** `os.path.dirname(p)`: everything up to the last '/', with trailing
      slashes removed unless it is made only of slashes. */
  function DirName(p: string): (r: string)
    ensures '/' !in p ==> r == ""
    ensures '/' in p && !AllSlashes(p[..LastSlash(p) + 1]) ==> r == RStrip(p[..LastSlash(p) + 1], {'/'})
  {
    var i := LastSlash(p) + 1;
    var head := p[..i];
    if head != [] && !AllSlashes(head) then RStrip(head, {'/'}) else head
  }

  /** Index of the last '/' in `p`, or -1. */
  function LastSlash(p: string): (i: int)
    ensures -1 <= i < |p|
    ensures i >= 0 ==> p[i] == '/'
    ensures forall j :: i < j < |p| ==> p[j] != '/'
  {
    if p == [] then -1 else if p[|p| - 1] == '/' then |p| - 1 else LastSlash(p[..|p| - 1])
  }

  /** The directory of a key whose last component follows a non-slash. */
  lemma DirNameOf(d: string, name: string)
    requires '/' !in name && d != [] && d[|d| - 1] != '/'
    ensures DirName(d + "/" + name) == d
  {
    var p := d + "/" + name;
    assert p[|d|] == '/';
    assert LastSlash(p) == |d| by {
      forall j | |d| < j < |p|
        ensures p[j] != '/'
      {
        assert p[j] == name[j - |d| - 1];
      }
    }
    assert p[..|d| + 1] == d + "/";
    var head := d + "/";
    assert head[|d| - 1] != '/';
    assert head[..|d|] == d;
  }

  /** The thumbnail's key: beside the processed video, named after the media. */
  function ThumbnailKey(targetKey: string, media: Uuid): string
  {
    DirName(targetKey) + "/thumbnail_270_150_" + Format(media) + ".jpg"
  }

  // ---------------------------------------------------------------- frame count

  /** The frame rate from ffprobe's `r_frame_rate`: "num/den" of two integers
      with a non-zero denominator, otherwise 30. */
  function FrameRate(rFrameRate: Option<string>): (r: real)
    ensures rFrameRate.None? ==> r == 30.0
  {
    match rFrameRate
    case None => 30.0
    case Some(s) =>
      var parts := Split(s, '/');
      if |parts| != 2 then 30.0
      else match (ParseInt(parts[0]), ParseInt(parts[1]))
        case (Some(num), Some(den)) => if den == 0 then 30.0 else (num as real) / (den as real)
        case _ => 30.0
  }

  /** The frame count of `_get_video_info`: `nb_frames` when ffprobe gives it
      (a value `int()` rejects makes the probe fail), otherwise the duration
      times the frame rate, truncated toward zero. */
  function FrameCount(nbFrames: Option<string>, duration: real, rFrameRate: Option<string>): (r: Option<int>)
    ensures nbFrames.Some? ==> r == ParseInt(nbFrames.value)
    ensures nbFrames.None? ==> r.Some?
    ensures nbFrames.None? && duration * FrameRate(rFrameRate) >= 0.0 ==>
      r.value as real <= duration * FrameRate(rFrameRate) < r.value as real + 1.0
  {
    match nbFrames
    case Some(n) => ParseInt(n)
    case None =>
      var frames := duration * FrameRate(rFrameRate);
      Some(JsNumber.Trunc(frames))
  }

  /** Without `nb_frames` and `r_frame_rate`, a non-negative duration counts
      30 frames a second. */
  lemma DefaultFrameCount(duration: real)
    requires duration >= 0.0
    ensures FrameCount(None, duration, None) == Some((duration * 30.0).Floor)
  {
  }

  lemma SplitRate(num: int, den: int)
    ensures Split(IntToString(num) + "/" + IntToString(den), '/') == [IntToString(num), IntToString(den)]
  {
    var a, b := IntToString(num), IntToString(den);
    IntToStringChars(num);
    IntToStringChars(den);
    SplitAfterPart(a, '/', b);
    SplitNoSeparator(b, '/');
  }

  /** A well-formed "num/den" gives num/den, and a zero denominator falls back
      to 30 frames per second. */
  lemma FrameRateOf(num: int, den: int)
    ensures den != 0 ==> FrameRate(Some(IntToString(num) + "/" + IntToString(den))) == (num as real) / (den as real)
    ensures den == 0 ==> FrameRate(Some(IntToString(num) + "/" + IntToString(den))) == 30.0
  {
    SplitRate(num, den);
    ParseIntToString(num);
    ParseIntToString(den);
  }
}
