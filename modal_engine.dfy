/** The modal player (`VideoModal`): the same timeline as the video player,
    but playback positions go through one time-update handler that loops back
    at `endTime`, and seeks are written directly to Plyr or the media element
    with a fallback when a write throws. Plyr and the element are reduced to
    the positions written to them and the values read back from them. */
module ModalEngine {
  import opened Wrappers
  import opened JsNumber
  import Chapters
  import Timeline
  import Vtt

  /** Which writes of a seek throw: none, only the first, or the first and the
      fallback on the element. */
  datatype SeekFault = NoFault | FirstThrows | BothThrow

  class Modal {
    // props
    var chapters: seq<Chapters.Chapter>
    var externalDuration: Option<real>
    var startTime: real
    var endTime: Option<real>

    // state cells
    var videoDuration: real
    var currentTime: real
    var playerInitialized: bool

    // what the component has done to its surroundings
    var plyrExists: bool
    var elementWrites: seq<real>
    var plyrWrites: seq<real>
    var track: Option<string>

    predicate Valid()
      reads this
    {
      playerInitialized ==> plyrExists
    }

    /** First render: the current time starts at 0, not at `startTime`. */
    constructor (chapters: seq<Chapters.Chapter>, externalDuration: Option<real>, startTime: real, endTime: Option<real>)
      ensures Valid()
      ensures this.chapters == chapters && this.externalDuration == externalDuration
      ensures this.startTime == startTime && this.endTime == endTime
      ensures videoDuration == Or(externalDuration, 0.0) && currentTime == 0.0 && !playerInitialized
      ensures !plyrExists && elementWrites == [] && plyrWrites == [] && track == None
    {
      this.chapters := chapters;
      this.externalDuration := externalDuration;
      this.startTime := startTime;
      this.endTime := endTime;
      videoDuration := Or(externalDuration, 0.0);
      currentTime := 0.0;
      playerInitialized := false;
      plyrExists := false;
      elementWrites := [];
      plyrWrites := [];
      track := None;
    }

    /** `timeUpdateHandler(newTime, playerInstance)`: the time is recorded;
        when `endTime` is defined (even 0) and reached, `startTime` is written
        once, to the Plyr instance passed in, otherwise to the element. */
    method TimeUpdateHandler(newTime: real, viaPlyr: bool)
      modifies this`currentTime, this`elementWrites, this`plyrWrites
      ensures currentTime == newTime
      ensures endTime.Some? && newTime >= endTime.value && viaPlyr ==>
        plyrWrites == old(plyrWrites) + [startTime] && elementWrites == old(elementWrites)
      ensures endTime.Some? && newTime >= endTime.value && !viaPlyr ==>
        elementWrites == old(elementWrites) + [startTime] && plyrWrites == old(plyrWrites)
      ensures !(endTime.Some? && newTime >= endTime.value) ==>
        elementWrites == old(elementWrites) && plyrWrites == old(plyrWrites)
    {
      currentTime := newTime;
      if endTime.Some? && newTime >= endTime.value {
        if viaPlyr {
          plyrWrites := plyrWrites + [startTime];
        } else {
          elementWrites := elementWrites + [startTime];
        }
      }
    }

    /** `handleSeek(time)`: the target goes to Plyr when there is one,
        otherwise to the element; the current time becomes the position read
        back. If that write throws, the element is tried once more, and if
        that throws too nothing changes. No error escapes. */
    method HandleSeek(time: real, fault: SeekFault, readBack: real)
      modifies this`currentTime, this`elementWrites, this`plyrWrites
      ensures fault == NoFault && plyrExists ==>
        plyrWrites == old(plyrWrites) + [time] && elementWrites == old(elementWrites) && currentTime == readBack
      ensures fault == NoFault && !plyrExists ==>
        elementWrites == old(elementWrites) + [time] && plyrWrites == old(plyrWrites) && currentTime == readBack
      ensures fault == FirstThrows ==>
        elementWrites == old(elementWrites) + [time] && plyrWrites == old(plyrWrites) && currentTime == readBack
      ensures fault == BothThrow ==>
        elementWrites == old(elementWrites) && plyrWrites == old(plyrWrites) && currentTime == old(currentTime)
    {
      if fault == NoFault {
        if plyrExists {
          plyrWrites := plyrWrites + [time];
        } else {
          elementWrites := elementWrites + [time];
        }
        currentTime := readBack;
      } else if fault == FirstThrows {
        elementWrites := elementWrites + [time];
        currentTime := readBack;
      }
    }

    /** Loop-back effect: a truthy `endTime` reached by the current time seeks
        back to `startTime`. */
    method LoopBackEffect(fault: SeekFault, readBack: real)
      modifies this`currentTime, this`elementWrites, this`plyrWrites
      ensures !old(Truthy(endTime) && currentTime >= endTime.value) ==>
        currentTime == old(currentTime) && elementWrites == old(elementWrites) && plyrWrites == old(plyrWrites)
      ensures old(Truthy(endTime) && currentTime >= endTime.value) && fault != BothThrow ==>
        |elementWrites| + |plyrWrites| == |old(elementWrites)| + |old(plyrWrites)| + 1
        && (elementWrites == old(elementWrites) + [startTime] || plyrWrites == old(plyrWrites) + [startTime])
      ensures old(Truthy(endTime) && currentTime >= endTime.value) && fault == NoFault && plyrExists ==>
        plyrWrites == old(plyrWrites) + [startTime] && elementWrites == old(elementWrites) && currentTime == readBack
      ensures old(Truthy(endTime) && currentTime >= endTime.value) && (fault == FirstThrows || (fault == NoFault && !plyrExists)) ==>
        elementWrites == old(elementWrites) + [startTime] && plyrWrites == old(plyrWrites) && currentTime == readBack
      ensures old(Truthy(endTime) && currentTime >= endTime.value) && fault == BothThrow ==>
        elementWrites == old(elementWrites) && plyrWrites == old(plyrWrites) && currentTime == old(currentTime)
    {
      if Truthy(endTime) && currentTime >= endTime.value {
        HandleSeek(startTime, fault, readBack);
      }
    }

    /** The element's `loadedmetadata` while open: a positive external
        duration is adopted and the element is moved to `startTime`. */
    method OpenMetadata()
      modifies this`videoDuration, this`elementWrites, this`currentTime
      ensures Truthy(externalDuration) && externalDuration.value > 0.0 ==> videoDuration == externalDuration.value
      ensures !(Truthy(externalDuration) && externalDuration.value > 0.0) ==> videoDuration == old(videoDuration)
      ensures elementWrites == old(elementWrites) + [startTime] && currentTime == startTime
    {
      if Truthy(externalDuration) && externalDuration.value > 0.0 {
        videoDuration := externalDuration.value;
      }
      elementWrites := elementWrites + [startTime];
      currentTime := startTime;
    }

    /** Plyr's `loadedmetadata`/`canplay`: a finite media duration is adopted
        only without an external duration. */
    method PlyrMetadata(mediaDuration: Option<real>)
      modifies this`videoDuration
      ensures !Truthy(externalDuration) && mediaDuration.Some? ==> videoDuration == mediaDuration.value
      ensures Truthy(externalDuration) || mediaDuration.None? ==> videoDuration == old(videoDuration)
    {
      if mediaDuration.Some? && !Truthy(externalDuration) {
        videoDuration := mediaDuration.value;
      }
    }

    /** Plyr is created when the modal is open and it is not initialised; here
        it counts as initialised at once. */
    method InitPlyr(open: bool)
      requires Valid()
      modifies this`plyrExists, this`playerInitialized
      ensures Valid()
      ensures old(open && !playerInitialized) ==> plyrExists && playerInitialized
      ensures !old(open && !playerInitialized) ==> plyrExists == old(plyrExists) && playerInitialized == old(playerInitialized)
    {
      if open && !playerInitialized {
        plyrExists := true;
        playerInitialized := true;
      }
    }

    /** Plyr's `ready`: the chapter track is attached when there are chapters. */
    method PlyrReady(elementDuration: Option<real>)
      modifies this`track
      ensures |chapters| > 0 ==> track == Vtt.ChapterTrack(chapters, externalDuration, elementDuration)
      ensures |chapters| == 0 ==> track == old(track)
    {
      if |chapters| > 0 {
        track := Vtt.ChapterTrack(chapters, externalDuration, elementDuration);
      }
    }

    /** 100 ms after `ready`, a positive `startTime` is written to Plyr and fed
        to the time-update handler as a Plyr update. */
    method DelayedStartSeek()
      modifies this`currentTime, this`elementWrites, this`plyrWrites
      ensures startTime > 0.0 ==> currentTime == startTime
      ensures startTime <= 0.0 ==>
        currentTime == old(currentTime) && plyrWrites == old(plyrWrites) && elementWrites == old(elementWrites)
      ensures startTime > 0.0 && !(endTime.Some? && startTime >= endTime.value) ==>
        plyrWrites == old(plyrWrites) + [startTime] && elementWrites == old(elementWrites)
      ensures startTime > 0.0 && endTime.Some? && startTime >= endTime.value ==>
        plyrWrites == old(plyrWrites) + [startTime, startTime] && elementWrites == old(elementWrites)
    {
      if startTime > 0.0 {
        plyrWrites := plyrWrites + [startTime];
        TimeUpdateHandler(startTime, true);
      }
    }

    /** The 250 ms poll, set up only once Plyr exists: a playing Plyr's
        numeric position wins, else an unpaused element's finite position;
        either goes through the handler, so a defined `endTime` reached by
        that position writes `startTime` back to the same player. */
    method Poll(plyrTime: Option<real>, plyrPlaying: bool, elementTime: Option<real>, elementPaused: bool)
      requires plyrExists
      modifies this`currentTime, this`elementWrites, this`plyrWrites
      ensures plyrTime.Some? && plyrPlaying ==>
        && currentTime == plyrTime.value
        && plyrWrites == old(plyrWrites) + LoopBackWrite(plyrTime.value)
        && elementWrites == old(elementWrites)
      ensures !(plyrTime.Some? && plyrPlaying) && elementTime.Some? && !elementPaused ==>
        && currentTime == elementTime.value
        && elementWrites == old(elementWrites) + LoopBackWrite(elementTime.value)
        && plyrWrites == old(plyrWrites)
      ensures !(plyrTime.Some? && plyrPlaying) && !(elementTime.Some? && !elementPaused) ==>
        currentTime == old(currentTime) && elementWrites == old(elementWrites) && plyrWrites == old(plyrWrites)
    {
      if plyrTime.Some? && plyrPlaying {
        TimeUpdateHandler(plyrTime.value, true);
      } else if elementTime.Some? && !elementPaused {
        TimeUpdateHandler(elementTime.value, false);
      }
    }

    /** What the time-update handler writes for a position `t`: `startTime`
        when `endTime` is defined (even 0) and `t` has reached it, else
        nothing. */
    function LoopBackWrite(t: real): (r: seq<real>)
      reads this
      ensures |r| <= 1
      ensures r == [startTime] <==> endTime.Some? && t >= endTime.value
    {
      if endTime.Some? && t >= endTime.value then [startTime] else []
    }

    function EffectiveDuration(): real
      reads this
    {
      Timeline.EffectiveDuration(externalDuration, videoDuration)
    }

    /** The timeline as drawn now: here the metadata duration, not the
        effective one, decides trimmed mode and scales the chapter mapping. */
    function View(): (v: Timeline.View)
      reads this
      ensures v.base == videoDuration && v.effDur == EffectiveDuration()
      ensures Timeline.IsTrimmed(v) <==> (startTime > 0.0 || endTime.Some?) && videoDuration > 0.0
    {
      Timeline.View(startTime, endTime, videoDuration, EffectiveDuration(), currentTime)
    }

    /** The bands over the normalised chapters; normalisation here is the same
        function as in the video player. */
    function Bands(): (r: seq<Option<Timeline.Band>>)
      reads this
      ensures |r| == |chapters|
    {
      var segs := Chapters.Processed(chapters, EffectiveDuration());
      Chapters.ProcessedShape(chapters, EffectiveDuration());
      seq(|segs|, i requires 0 <= i < |segs| reads this => Timeline.ChapterBand(View(), segs[i]))
    }
  }

  /** The modal's handler loops back on a defined `endTime` of 0, which the
      video player's truthiness test ignores. */
  method ZeroEndTimeLoops(t: real) returns (written: seq<real>)
    requires t >= 0.0
    ensures written == [0.0]
  {
    var m := new Modal([], None, 0.0, Some(0.0));
    m.TimeUpdateHandler(t, false);
    written := m.elementWrites;
  }

  /** Once Plyr is up, a poll that finds it playing at or past a defined
      `endTime` writes `startTime` back to Plyr, and the element is left
      alone. */
  method PollPastEndLoopsBack(start: real, end: real, t: real) returns (plyrWritten: seq<real>, elementWritten: seq<real>)
    requires t >= end
    ensures plyrWritten == [start] && elementWritten == []
  {
    var m := new Modal([], None, start, Some(end));
    m.InitPlyr(true);
    m.Poll(Some(t), true, None, false);
    plyrWritten, elementWritten := m.plyrWrites, m.elementWrites;
  }
}
