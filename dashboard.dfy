/** The dashboard page (`VideoAnalysisPage`): the recordings and the selected
    video and clip, the four player names merged from the server's answer and
    edited in place, the chapters built from the selected video's clips, and
    the props the page hands to the video player. Fetches and toasts are left
    out; their answers arrive as method parameters. */
module Dashboard {
  import opened Wrappers
  import opened JsNumber
  import opened Text
  import Chapters
  import Timeline

  datatype Clip = Clip(id: int, startSec: real, endSec: real)

  /** A recording; `durationSeconds` is optional in the API's answer. */
  datatype Upload = Upload(id: int, title: string, mediaUrl: string, durationSeconds: Option<real>, clips: seq<Clip>)

  /** One element of the player-names answer. */
  datatype NameEntry = NameEntry(index: int, playerName: string)

  /** How the player-names request ends: a JSON array, some other JSON
      value, or a 404, after which the defaults are shown and saved (the
      save's reply is a response object, never an array). */
  datatype NamesAnswer = NameArray(entries: seq<NameEntry>) | NotAnArray | NotFound

  /** What the page passes to `VideoPlayer`. */
  datatype PlayerProps = PlayerProps(videoTitle: string, videoSrc: string, duration: real,
                                     chapters: seq<Chapters.Chapter>, startTime: real, endTime: Option<real>)

  const Slots: nat := 4

  function DefaultName(i: int): string
  {
    "Player " + IntToString(i + 1)
  }

  function DefaultNames(): seq<string>
  {
    seq(Slots, i => DefaultName(i))
  }

  /** The name the merge leaves in slot `i`: the last entry for `i`, or the
      default name when there is none. */
  function NameIn(entries: seq<NameEntry>, i: int): string
  {
    if entries == [] then DefaultName(i)
    else if entries[|entries| - 1].index == i then entries[|entries| - 1].playerName
    else NameIn(entries[..|entries| - 1], i)
  }

  function MergedNames(entries: seq<NameEntry>): seq<string>
  {
    seq(Slots, i => NameIn(entries, i))
  }

  /** The starting names are "Player 1" to "Player 4". */
  lemma DefaultNamesText()
    ensures DefaultNames() == MergedNames([]) == ["Player 1", "Player 2", "Player 3", "Player 4"]
  {
    assert DigitChar(1) == '1' && DigitChar(2) == '2' && DigitChar(3) == '3' && DigitChar(4) == '4';
    assert DefaultNames()[0] == "Player 1" && DefaultNames()[1] == "Player 2";
    assert DefaultNames()[2] == "Player 3" && DefaultNames()[3] == "Player 4";
  }

  /** A slot without an entry keeps its default name. */
  lemma {:induction false} NameInDefault(entries: seq<NameEntry>, i: int)
    requires forall k :: 0 <= k < |entries| ==> entries[k].index != i
    ensures NameIn(entries, i) == DefaultName(i)
  {
    if entries != [] {
      NameInDefault(entries[..|entries| - 1], i);
    }
  }

  /** A slot with entries takes the name of the last one. */
  lemma {:induction false} NameInLast(entries: seq<NameEntry>, i: int, k: int)
    requires 0 <= k < |entries| && entries[k].index == i
    requires forall j :: k < j < |entries| ==> entries[j].index != i
    ensures NameIn(entries, i) == entries[k].playerName
  {
    if k < |entries| - 1 {
      NameInLast(entries[..|entries| - 1], i, k);
    }
  }

  /** An entry whose index is outside the four slots changes nothing. */
  lemma OutOfRangeIgnored(entries: seq<NameEntry>, e: NameEntry)
    requires e.index < 0 || e.index >= Slots
    ensures MergedNames(entries + [e]) == MergedNames(entries)
  {
    assert (entries + [e])[..|entries|] == entries;
  }

  /** `handlePlayerNameChange`'s copy: slot `index` gets the new name, or its
      default name when the new one is empty. */
  function Renamed(names: seq<string>, index: int, name: string): (r: seq<string>)
    requires 0 <= index < |names|
  {
    names[index := if name == "" then DefaultName(index) else name]
  }

  /** A rename changes one slot, never leaves it empty, and keeps the rest. */
  lemma RenamedIs(names: seq<string>, index: int, name: string)
    requires 0 <= index < |names|
    ensures |Renamed(names, index, name)| == |names|
    ensures Renamed(names, index, name)[index] != ""
    ensures name != "" ==> Renamed(names, index, name)[index] == name
    ensures forall j :: 0 <= j < |names| && j != index ==> Renamed(names, index, name)[j] == names[j]
  {
  }

  function ChapterTitle(id: int): string
  {
    "Rally " + IntToString(id)
  }

  /** The chapters shown for a video: one per clip, in clip order. */
  function ChaptersOf(video: Upload): seq<Chapters.Chapter>
  {
    seq(|video.clips|, i requires 0 <= i < |video.clips| =>
      Chapters.Chapter(video.clips[i].startSec, Some(video.clips[i].endSec), ChapterTitle(video.clips[i].id)))
  }

  /** Each chapter spans its clip and its title names the clip's id, which
      can be read back from it; clips with different ids get different
      titles. */
  lemma ChaptersOfClips(video: Upload)
    ensures |ChaptersOf(video)| == |video.clips|
    ensures forall i :: 0 <= i < |video.clips| ==>
      var c := ChaptersOf(video)[i];
      && c.start == video.clips[i].startSec && c.end == Some(video.clips[i].endSec)
      && c.title[..6] == "Rally " && ParseInt(c.title[6..]) == Some(video.clips[i].id)
    ensures forall i, j :: 0 <= i < |video.clips| && 0 <= j < |video.clips| && video.clips[i].id != video.clips[j].id ==>
      ChaptersOf(video)[i].title != ChaptersOf(video)[j].title
  {
    forall i | 0 <= i < |video.clips|
      ensures ChaptersOf(video)[i].title[6..] == IntToString(video.clips[i].id)
      ensures ParseInt(ChaptersOf(video)[i].title[6..]) == Some(video.clips[i].id)
    {
      ParseIntToString(video.clips[i].id);
    }
  }

  /** `selectedVideo.clips[0]`, `undefined` for a video without clips. */
  function FirstClip(video: Upload): (r: Option<Clip>)
    ensures r.Some? <==> video.clips != []
    ensures r.Some? ==> r.value == video.clips[0]
  {
    if video.clips == [] then None else Some(video.clips[0])
  }

  /** The `VideoPlayer` element, rendered only for a selected video with a
      non-zero id. */
  function PropsFor(video: Option<Upload>, clip: Option<Clip>): Option<PlayerProps>
  {
    if video.None? || video.value.id == 0 then None
    else
      var v := video.value;
      Some(PlayerProps(
        v.title,
        v.mediaUrl,
        if clip.Some? then clip.value.endSec - clip.value.startSec else Or(v.durationSeconds, 0.0),
        if clip.Some? && clip.value.startSec > 0.0 then [] else ChaptersOf(v),
        if clip.Some? then clip.value.startSec else 0.0,
        if clip.Some? && clip.value.endSec != 0.0 then Some(clip.value.endSec) else v.durationSeconds))
  }

  /** The player's timeline as the page's props set it up, before any
      metadata arrives: the `duration` prop is the effective duration. */
  function InitialView(p: PlayerProps, currentTime: real): Timeline.View
  {
    var effDur := Timeline.EffectiveDuration(Some(p.duration), 0.0);
    Timeline.View(p.startTime, p.endTime, effDur, effDur, currentTime)
  }

  /** With a clip selected the player is trimmed to exactly the clip: the
      window runs from the clip's start to its end, as long as the duration
      the player is given, so the clip's start is drawn at 0% and its end at
      100%; chapters are shown only for a clip starting at 0. */
  lemma ClipWindow(video: Upload, clip: Clip, t: real)
    requires video.id != 0 && 0.0 <= clip.startSec < clip.endSec
    ensures PropsFor(Some(video), Some(clip)).Some?
    ensures var p := PropsFor(Some(video), Some(clip)).value;
      var v := InitialView(p, t);
      && Timeline.IsTrimmed(v)
      && p.startTime == clip.startSec && Timeline.TimelineEnd(v) == clip.endSec
      && v.effDur == clip.endSec - clip.startSec
      && Timeline.Percentage(v, clip.startSec) == Fin(0.0)
      && Timeline.Percentage(v, clip.endSec) == Fin(100.0)
      && (p.chapters == [] <==> clip.startSec > 0.0 || video.clips == [])
  {
    var p := PropsFor(Some(video), Some(clip)).value;
    var v := InitialView(p, t);
    assert p.endTime == Some(clip.endSec);
    Timeline.PercentageMapping(v, t, t);
  }

  /** Without a clip, a known positive duration trims the player to the
      whole video, which draws every time where the untrimmed mapping would;
      every clip is a chapter. */
  lemma WholeVideoWindow(video: Upload, d: real, t: real)
    requires video.id != 0 && video.durationSeconds == Some(d) && d > 0.0
    ensures PropsFor(Some(video), None).Some?
    ensures var p := PropsFor(Some(video), None).value;
      var v := InitialView(p, t);
      && Timeline.IsTrimmed(v)
      && v.startTime == 0.0 && Timeline.TimelineEnd(v) == d == v.effDur
      && Timeline.Percentage(v, t) == Percent(t, d)
      && p.chapters == ChaptersOf(video)
  {
    var p := PropsFor(Some(video), None).value;
    var v := InitialView(p, t);
    assert t - 0.0 == t && d - 0.0 == d;
  }

  class Page {
    var uploads: seq<Upload>
    var selectedVideo: Option<Upload>
    var selectedClip: Option<Clip>
    var playerNames: seq<string>

    constructor ()
      ensures uploads == [] && selectedVideo == None && selectedClip == None
      ensures playerNames == ["Player 1", "Player 2", "Player 3", "Player 4"]
    {
      uploads := [];
      selectedVideo := None;
      selectedClip := None;
      playerNames := ["Player 1", "Player 2", "Player 3", "Player 4"];
    }

    /** The recordings request answered. */
    method ReceiveRecordings(items: seq<Upload>)
      modifies this`uploads
      ensures uploads == items
    {
      uploads := items;
    }

    /** The player-names request answered: an array is merged into four
        fresh default names, a 404 resets the names to the defaults, and any
        other value is ignored. */
    method ReceivePlayerNames(answer: NamesAnswer)
      modifies this`playerNames
      ensures answer.NotAnArray? ==> playerNames == old(playerNames)
      ensures answer.NameArray? ==> playerNames == MergedNames(answer.entries)
      ensures answer.NotFound? ==> playerNames == DefaultNames()
    {
      if answer.NotFound? {
        playerNames := DefaultNames();
      } else if answer.NameArray? {
        var entries := answer.entries;
        var names := DefaultNames();
        var k := 0;
        while k < |entries|
          invariant 0 <= k <= |entries|
          invariant names == MergedNames(entries[..k])
        {
          var e := entries[k];
          assert entries[..k + 1][..k] == entries[..k];
          if 0 <= e.index < Slots {
            names := names[e.index := e.playerName];
          } else {
            OutOfRangeIgnored(entries[..k], e);
          }
          k := k + 1;
        }
        assert entries[..k] == entries;
        playerNames := names;
      }
    }

    /** `handlePlayerNameChange`; the save request is left out. */
    method ChangePlayerName(index: int, name: string)
      requires 0 <= index < |playerNames|
      modifies this`playerNames
      ensures playerNames == Renamed(old(playerNames), index, name)
    {
      var newNames := playerNames;
      newNames := newNames[index := if name == "" then DefaultName(index) else name];
      playerNames := newNames;
    }

    /** The carousel's `select` event: the slide's recording and its first
        clip become the selection. */
    method SelectSlide(index: int)
      requires 0 <= index < |uploads|
      modifies this`selectedVideo, this`selectedClip
      ensures selectedVideo == Some(uploads[index])
      ensures selectedClip == FirstClip(uploads[index])
    {
      var video := uploads[index];
      selectedVideo := Some(video);
      selectedClip := FirstClip(video);
    }

    /** A recording picked from the list. */
    method SelectVideo(video: Upload)
      modifies this`selectedVideo
      ensures selectedVideo == Some(video)
    {
      selectedVideo := Some(video);
    }

    /** A clip picked from the clip list. */
    method SelectClip(clip: Clip)
      modifies this`selectedClip
      ensures selectedClip == Some(clip)
    {
      selectedClip := Some(clip);
    }

    function Props(): Option<PlayerProps>
      reads this
    {
      PropsFor(selectedVideo, selectedClip)
    }
  }
}
