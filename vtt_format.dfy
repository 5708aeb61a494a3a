/** Time formatting of the players and the chapter track they attach: the
    `hh:mm:ss.ttt` timestamps and cue text of section 4.1 of the W3C WebVTT
    specification (`formatTime`, `createChapterTrack`) and the `H:MM:SS` /
    `M:SS` display form (`formatTimeHMS`). */
module Vtt {
  import opened Wrappers
  import opened Text
  import opened JsNumber
  import Chapters

  /** JavaScript's `x % m`: the remainder keeps the sign of `x`. */
  function JsMod(x: real, m: real): real
    requires m != 0.0
  {
    x - m * (Trunc(x / m) as real)
  }

  /** `Math.floor(seconds / 3600)` */
  function Hours(t: real): int { (t / 3600.0).Floor }

  /** `Math.floor((seconds % 3600) / 60)` */
  function Minutes(t: real): int { (JsMod(t, 3600.0) / 60.0).Floor }

  /** `Math.floor(seconds % 60)` */
  function Seconds(t: real): int { JsMod(t, 60.0).Floor }

  /** `Math.floor((seconds % 1) * 1000)` */
  function Millis(t: real): int { (JsMod(t, 1.0) * 1000.0).Floor }

  /** `n.toString().padStart(width, '0')` */
  function Padded(n: int, width: nat): string
  {
    PadStart(IntToString(n), width, '0')
  }

  /** `formatTime`: the WebVTT timestamp of a time in seconds. */
  function FormatTime(t: real): string
  {
    Padded(Hours(t), 2) + ":" + Padded(Minutes(t), 2) + ":" + Padded(Seconds(t), 2) + "." + Padded(Millis(t), 3)
  }

  /** `formatTimeHMS`: hours only when positive, minutes then unpadded. */
  function FormatTimeHMS(t: real): string
  {
    if Hours(t) > 0 then IntToString(Hours(t)) + ":" + Padded(Minutes(t), 2) + ":" + Padded(Seconds(t), 2)
    else IntToString(Minutes(t)) + ":" + Padded(Seconds(t), 2)
  }

  /** Flooring a quotient by a positive integer floors the dividend first. */
  lemma FloorDiv(x: real, n: int)
    requires n > 0
    ensures (x / (n as real)).Floor == x.Floor / n
  {
    var a := x.Floor;
    var q, r := a / n, a % n;
    assert a == q * n + r && 0 <= r < n;
    assert q * n <= a && a + 1 <= (q + 1) * n;
    var nr, qr := n as real, q as real;
    assert (q * n) as real == qr * nr && ((q + 1) * n) as real == (qr + 1.0) * nr;
    assert a as real <= x < a as real + 1.0;
    var y := x / nr;
    assert y * nr == x;
    assert qr * nr <= x < (qr + 1.0) * nr;
    MulLess(qr, y, nr);
    MulLess(y, qr + 1.0, nr);
    assert qr <= y < qr + 1.0;
  }

  lemma MulLess(a: real, b: real, c: real)
    requires c > 0.0
    ensures a * c <= b * c ==> a <= b
    ensures a * c < b * c ==> a < b
  {
  }

  lemma FloorShift(x: real, k: int)
    ensures (x - k as real).Floor == x.Floor - k
  {
  }

  /** For a time t >= 0 the four fields are in range, and they add up to t
      truncated to whole milliseconds. */
  lemma TimeFields(t: real)
    requires t >= 0.0
    ensures var f := (1000.0 * t).Floor;
      && Hours(t) >= 0 && 0 <= Minutes(t) < 60 && 0 <= Seconds(t) < 60 && 0 <= Millis(t) < 1000
      && Hours(t) * 3600000 + Minutes(t) * 60000 + Seconds(t) * 1000 + Millis(t) == f
  {
    var f := (1000.0 * t).Floor;
    assert f >= 0;
    var x := 1000.0 * t;
    FloorDiv(x, 1000);
    FloorDiv(x, 60000);
    FloorDiv(x, 3600000);
    assert x / 1000.0 == t;
    assert x / 60000.0 == t / 60.0;
    assert x / 3600000.0 == t / 3600.0;
    var h, m1, s1 := f / 3600000, f / 60000, f / 1000;
    assert Hours(t) == h;
    assert t.Floor == s1;
    assert (t / 60.0).Floor == m1;
    FloorDiv(t / 60.0, 60);
    FloorDiv(t, 60);
    assert (t / 60.0) / 60.0 == t / 3600.0;
    assert h == m1 / 60;
    assert m1 == s1 / 60;
    // minutes
    assert JsMod(t, 3600.0) == t - 3600.0 * (h as real);
    assert JsMod(t, 3600.0) / 60.0 == t / 60.0 - (60 * h) as real;
    FloorShift(t / 60.0, 60 * h);
    assert Minutes(t) == m1 - 60 * h;
    // seconds
    assert Trunc(t / 60.0) == m1;
    assert JsMod(t, 60.0) == t - (60 * m1) as real;
    FloorShift(t, 60 * m1);
    assert Seconds(t) == s1 - 60 * m1;
    // milliseconds
    assert Trunc(t / 1.0) == s1;
    assert JsMod(t, 1.0) * 1000.0 == x - (1000 * s1) as real;
    FloorShift(x, 1000 * s1);
    assert Millis(t) == f - 1000 * s1;
  }

  /** A parser for the `hh:mm:ss.ttt` form of a WebVTT timestamp (at least two
      hour digits, minutes and seconds below 60, three fraction digits); the
      value is in milliseconds. */
  function ParseTimestamp(s: string): Option<int>
  {
    var parts := Split(s, ':');
    if |parts| != 3 then None
    else
      var hh, mm, rest := parts[0], parts[1], parts[2];
      if |hh| < 2 || !AllDigits(hh) || |mm| != 2 || !AllDigits(mm) || |rest| != 6
         || !AllDigits(rest[..2]) || rest[2] != '.' || !AllDigits(rest[3..])
      then None
      else if DigitsValue(mm) > 59 || DigitsValue(rest[..2]) > 59 then None
      else Some(DigitsValue(hh) * 3600000 + DigitsValue(mm) * 60000 + DigitsValue(rest[..2]) * 1000 + DigitsValue(rest[3..]))
  }

  lemma DigitsNoColon(s: string)
    requires AllDigits(s)
    ensures ':' !in s
  {
    forall i | 0 <= i < |s| ensures s[i] != ':' {
      assert IsDigit(s[i]);
    }
  }

  /** Four digit strings in the shape of a timestamp parse to their value. */
  lemma {:induction false} ParseFields(str: string, a: string, b: string, c: string, d: string)
    requires AllDigits(a) && AllDigits(b) && AllDigits(c) && AllDigits(d)
    requires |a| >= 2 && |b| == 2 && |c| == 2 && |d| == 3
    requires DigitsValue(b) < 60 && DigitsValue(c) < 60
    requires str == a + ":" + b + ":" + c + "." + d
    ensures ParseTimestamp(str)
         == Some(DigitsValue(a) * 3600000 + DigitsValue(b) * 60000 + DigitsValue(c) * 1000 + DigitsValue(d))
  {
    var rest := c + "." + d;
    assert rest[..2] == c && rest[2] == '.' && rest[3..] == d;
    DigitsNoColon(a);
    DigitsNoColon(b);
    DigitsNoColon(c);
    DigitsNoColon(d);
    assert ':' !in rest;
    var parts := [a, b, rest];
    SplitJoin(parts, ':');
    assert parts == [a] + [b, rest] && [b, rest] == [b] + [rest];
    JoinPrepend(b, [rest], [':']);
    JoinPrepend(a, [b, rest], [':']);
    assert a + ":" + b + ":" + c + "." + d == Join(parts, [':']);
  }

  /** For t >= 0, `formatTime` gives a valid WebVTT timestamp that denotes t
      truncated to whole milliseconds. */
  lemma {:induction false} FormatTimeParses(t: real)
    requires t >= 0.0
    ensures ParseTimestamp(FormatTime(t)) == Some((1000.0 * t).Floor)
  {
    TimeFields(t);
    var h, m, s, ms := Hours(t), Minutes(t), Seconds(t), Millis(t);
    PaddedField(h, 2);
    PaddedField(m, 2);
    PaddedField(s, 2);
    PaddedField(ms, 3);
    ParseFields(FormatTime(t), Padded(h, 2), Padded(m, 2), Padded(s, 2), Padded(ms, 3));
  }

  /** A padded field is all digits, at least `width` long, exactly `width`
      long when it fits, and stands for its value. */
  lemma PaddedField(n: int, width: nat)
    requires n >= 0 && (width == 2 || width == 3)
    ensures AllDigits(Padded(n, width)) && DigitsValue(Padded(n, width)) == n
    ensures |Padded(n, width)| >= width
    ensures n < (if width == 2 then 100 else 1000) ==> |Padded(n, width)| == width
  {
    assert IntToString(n) == NatToString(n);
    PaddedNat(n, width);
    assert Pow10(2) == 100 && Pow10(3) == 1000 by {
      assert Pow10(1) == 10;
    }
  }

  /** The display form: `H:MM:SS` with padded minutes and seconds when there
      are hours, `M:SS` otherwise; the fields are those of the timestamp. */
  lemma FormatTimeHMSFields(t: real)
    requires t >= 0.0
    ensures Hours(t) > 0 ==> FormatTimeHMS(t) == NatToString(Hours(t)) + ":" + Padded(Minutes(t), 2) + ":" + Padded(Seconds(t), 2)
    ensures Hours(t) == 0 ==> FormatTimeHMS(t) == NatToString(Minutes(t)) + ":" + Padded(Seconds(t), 2)
    ensures |Padded(Minutes(t), 2)| == 2 && |Padded(Seconds(t), 2)| == 2
    ensures AllDigits(Padded(Seconds(t), 2)) && AllDigits(Padded(Minutes(t), 2))
    ensures DigitsValue(Padded(Seconds(t), 2)) == Seconds(t) < 60 && DigitsValue(Padded(Minutes(t), 2)) == Minutes(t) < 60
  {
    TimeFields(t);
    assert IntToString(Minutes(t)) == NatToString(Minutes(t));
    assert IntToString(Seconds(t)) == NatToString(Seconds(t));
    assert IntToString(Hours(t)) == NatToString(Hours(t));
    PaddedNat(Minutes(t), 2);
    PaddedNat(Seconds(t), 2);
    assert Pow10(2) == 100 by {
      assert Pow10(1) == 10;
    }
  }

  // ----- chapter track -----

  /** `externalDuration || videoElement.duration || 3600`; an unknown (NaN)
      element duration is absent. */
  function TrackDuration(external: Option<real>, elementDuration: Option<real>): real
  {
    Or(external, Or(elementDuration, Chapters.FallbackDuration))
  }

  /** End time of cue `i`: the chapter's end when truthy, else the next
      chapter's start in the given order, else the track duration. */
  function CueEnd(chapters: seq<Chapters.Chapter>, i: nat, total: real): (e: real)
    requires i < |chapters|
    ensures Truthy(chapters[i].end) ==> e == chapters[i].end.value
    ensures !Truthy(chapters[i].end) && i < |chapters| - 1 ==> e == chapters[i + 1].start
    ensures !Truthy(chapters[i].end) && i == |chapters| - 1 ==> e == total
  {
    if Truthy(chapters[i].end) then chapters[i].end.value
    else if i < |chapters| - 1 then chapters[i + 1].start
    else total
  }

  /** The cue timing line `start --> end`. */
  function Timing(chapters: seq<Chapters.Chapter>, i: nat, total: real): string
    requires i < |chapters|
  {
    FormatTime(chapters[i].start) + " --> " + FormatTime(CueEnd(chapters, i, total))
  }

  /** Timing line and title of every cue, in the order the chapters are given. */
  function CueParts(chapters: seq<Chapters.Chapter>, total: real): (r: seq<(string, string)>)
    ensures |r| == |chapters|
    ensures forall i :: 0 <= i < |r| ==> r[i] == (Timing(chapters, i, total), chapters[i].title)
  {
    seq(|chapters|, i requires 0 <= i < |chapters| => (Timing(chapters, i, total), chapters[i].title))
  }

  /** One cue: its timing line, a line break, its title. */
  function Block(p: (string, string)): string
  {
    p.0 + "\n" + p.1
  }

  function Blocks(ps: seq<(string, string)>): (r: seq<string>)
    ensures |r| == |ps|
    ensures forall i :: 0 <= i < |r| ==> r[i] == Block(ps[i])
  {
    seq(|ps|, i requires 0 <= i < |ps| => Block(ps[i]))
  }

  /** The WebVTT text: the header, a blank line, then the cues separated by blank lines. */
  function CueText(chapters: seq<Chapters.Chapter>, total: real): (r: string)
    ensures |r| >= 8 && r[..8] == "WEBVTT\n\n"
  {
    var r := "WEBVTT\n\n" + Join(Blocks(CueParts(chapters, total)), "\n\n");
    assert r[..8] == "WEBVTT\n\n";
    r
  }

  /** `createChapterTrack`: no track without chapters, otherwise the cue text
      over the chapters in the order given (not the normalised ones). */
  function ChapterTrack(chapters: seq<Chapters.Chapter>, external: Option<real>, elementDuration: Option<real>): (r: Option<string>)
    ensures r.None? <==> chapters == []
    ensures r.Some? ==> |r.value| >= 8 && r.value[..8] == "WEBVTT\n\n"
  {
    if chapters == [] then None else Some(CueText(chapters, TrackDuration(external, elementDuration)))
  }

  /** The lines of a run of cues: timing, title, and a blank line between
      consecutive cues. */
  function Lines(ps: seq<(string, string)>): (r: seq<string>)
    requires |ps| >= 1
    ensures |r| == 3 * |ps| - 1
  {
    [ps[0].0, ps[0].1] + (if |ps| > 1 then [""] + Lines(ps[1..]) else [])
  }

  lemma {:induction false} LinesAt(ps: seq<(string, string)>)
    requires |ps| >= 1
    ensures forall i :: 0 <= i < |ps| ==> Lines(ps)[3 * i] == ps[i].0 && Lines(ps)[3 * i + 1] == ps[i].1
    ensures forall i :: 0 <= i < |ps| - 1 ==> Lines(ps)[3 * i + 2] == ""
  {
    if |ps| > 1 {
      LinesAt(ps[1..]);
      var rest := Lines(ps[1..]);
      assert Lines(ps) == [ps[0].0, ps[0].1, ""] + rest;
      forall i | 1 <= i < |ps|
        ensures Lines(ps)[3 * i] == ps[i].0 && Lines(ps)[3 * i + 1] == ps[i].1
        ensures i < |ps| - 1 ==> Lines(ps)[3 * i + 2] == ""
      {
        assert Lines(ps)[3 * i] == rest[3 * (i - 1)];
        assert ps[1..][i - 1] == ps[i];
      }
    }
  }

  lemma {:induction false} LinesJoin(ps: seq<(string, string)>)
    requires |ps| >= 1
    ensures Join(Lines(ps), "\n") == Join(Blocks(ps), "\n\n")
  {
    var t, title := ps[0].0, ps[0].1;
    if |ps| == 1 {
      assert Lines(ps) == [t, title];
      assert Blocks(ps) == [Block(ps[0])];
      JoinPrepend(t, [title], "\n");
    } else {
      LinesJoin(ps[1..]);
      var rest := Lines(ps[1..]);
      assert Lines(ps) == [t] + ([title] + ([""] + rest));
      JoinPrepend("", rest, "\n");
      JoinPrepend(title, [""] + rest, "\n");
      JoinPrepend(t, [title] + ([""] + rest), "\n");
      assert Blocks(ps) == [Block(ps[0])] + Blocks(ps[1..]);
      JoinPrepend(Block(ps[0]), Blocks(ps[1..]), "\n\n");
    }
  }

  lemma {:induction false} LinesNoNewline(ps: seq<(string, string)>)
    requires |ps| >= 1
    requires forall i :: 0 <= i < |ps| ==> '\n' !in ps[i].0 && '\n' !in ps[i].1
    ensures forall j :: 0 <= j < |Lines(ps)| ==> '\n' !in Lines(ps)[j]
  {
    if |ps| > 1 {
      LinesNoNewline(ps[1..]);
      var rest := Lines(ps[1..]);
      assert Lines(ps) == [ps[0].0, ps[0].1, ""] + rest;
      forall j | 3 <= j < |Lines(ps)| ensures '\n' !in Lines(ps)[j] {
        assert Lines(ps)[j] == rest[j - 3];
      }
    }
  }

  lemma NoNewlineInInt(i: int)
    ensures '\n' !in IntToString(i)
  {
    var n := if i < 0 then -i else i;
    NatToStringDigits(n);
    var s := IntToString(i);
    forall j | 0 <= j < |s| ensures s[j] != '\n' {
      if i < 0 && j > 0 {
        assert s[j] == NatToString(n)[j - 1];
        assert IsDigit(NatToString(n)[j - 1]);
      } else if i >= 0 {
        assert IsDigit(NatToString(n)[j]);
      }
    }
  }

  lemma NoNewlineInPadded(n: int, width: nat)
    ensures '\n' !in Padded(n, width)
  {
    NoNewlineInInt(n);
    var s, r := IntToString(n), Padded(n, width);
    forall j | 0 <= j < |r| ensures r[j] != '\n' {
      if |s| < width && j >= width - |s| {
        assert r[j] == r[width - |s|..][j - (width - |s|)];
      }
    }
  }

  lemma NoNewlineInTime(t: real)
    ensures '\n' !in FormatTime(t)
  {
    NoNewlineInPadded(Hours(t), 2);
    NoNewlineInPadded(Minutes(t), 2);
    NoNewlineInPadded(Seconds(t), 2);
    NoNewlineInPadded(Millis(t), 3);
  }

  lemma TimingNoNewline(chapters: seq<Chapters.Chapter>, i: nat, total: real)
    requires i < |chapters|
    ensures '\n' !in Timing(chapters, i, total)
  {
    NoNewlineInTime(chapters[i].start);
    NoNewlineInTime(CueEnd(chapters, i, total));
  }

  /** The text of a header and cues, split at line breaks, for any timing
      lines and titles without line breaks of their own. */
  lemma {:induction false} TextLines(ps: seq<(string, string)>)
    requires |ps| >= 1
    requires forall i :: 0 <= i < |ps| ==> '\n' !in ps[i].0 && '\n' !in ps[i].1
    ensures var lines := Split("WEBVTT\n\n" + Join(Blocks(ps), "\n\n"), '\n');
      && |lines| == 3 * |ps| + 1 && lines[0] == "WEBVTT" && lines[1] == ""
      && (forall i :: 0 <= i < |ps| ==> lines[3 * i + 2] == ps[i].0 && lines[3 * i + 3] == ps[i].1)
      && (forall i :: 0 <= i < |ps| - 1 ==> lines[3 * i + 4] == "")
  {
    var lines := Lines(ps);
    var all := ["WEBVTT"] + ([""] + lines);
    LinesJoin(ps);
    JoinPrepend("", lines, "\n");
    JoinPrepend("WEBVTT", [""] + lines, "\n");
    assert Join(all, "\n") == "WEBVTT\n\n" + Join(Blocks(ps), "\n\n");
    LinesNoNewline(ps);
    forall i | 0 <= i < |all| ensures '\n' !in all[i] {
      if i >= 2 {
        assert all[i] == lines[i - 2];
      }
    }
    SplitJoin(all, '\n');
    LinesAt(ps);
    forall i | 0 <= i < |ps|
      ensures all[3 * i + 2] == ps[i].0 && all[3 * i + 3] == ps[i].1
      ensures i < |ps| - 1 ==> all[3 * i + 4] == ""
    {
      assert all[3 * i + 2] == lines[3 * i];
      assert all[3 * i + 3] == lines[3 * i + 1];
      if i < |ps| - 1 {
        assert all[3 * i + 4] == lines[3 * i + 2];
      }
    }
  }

  /** Read line by line, the track text is `WEBVTT`, a blank line, and then
      for each chapter in the given order its timing line and its title, with
      one blank line between consecutive cues (titles without line breaks). */
  lemma CueTextLines(chapters: seq<Chapters.Chapter>, total: real)
    requires chapters != []
    requires forall i :: 0 <= i < |chapters| ==> '\n' !in chapters[i].title
    ensures var lines := Split(CueText(chapters, total), '\n');
      && |lines| == 3 * |chapters| + 1 && lines[0] == "WEBVTT" && lines[1] == ""
      && (forall i :: 0 <= i < |chapters| ==>
            lines[3 * i + 2] == Timing(chapters, i, total) && lines[3 * i + 3] == chapters[i].title)
      && (forall i :: 0 <= i < |chapters| - 1 ==> lines[3 * i + 4] == "")
  {
    var ps := CueParts(chapters, total);
    forall i | 0 <= i < |ps| ensures '\n' !in ps[i].0 && '\n' !in ps[i].1 {
      TimingNoNewline(chapters, i, total);
    }
    TextLines(ps);
  }

  /** Every cue timing line holds two valid timestamps, `-->` between them,
      denoting the chapter start and the chosen cue end to the millisecond. */
  lemma TimingParses(chapters: seq<Chapters.Chapter>, i: nat, total: real)
    requires i < |chapters|
    requires chapters[i].start >= 0.0 && CueEnd(chapters, i, total) >= 0.0
    ensures var line := Timing(chapters, i, total); var a := FormatTime(chapters[i].start);
      && line[..|a|] == a && line[|a|..|a| + 5] == " --> "
      && ParseTimestamp(line[..|a|]) == Some((1000.0 * chapters[i].start).Floor)
      && ParseTimestamp(line[|a| + 5..]) == Some((1000.0 * CueEnd(chapters, i, total)).Floor)
  {
    var a, b := FormatTime(chapters[i].start), FormatTime(CueEnd(chapters, i, total));
    var line := Timing(chapters, i, total);
    assert line == a + " --> " + b;
    assert line[|a| + 5..] == b;
    FormatTimeParses(chapters[i].start);
    FormatTimeParses(CueEnd(chapters, i, total));
  }
}
