/** The video player's state machine (`VideoPlayer`): React state cells
    overwritten by effects, handlers, Plyr and media-element events and a
    250 ms poll. Each effect is a method that runs when its inputs change;
    Plyr and the media element are reduced to the values the component reads
    from them (passed as parameters) and the positions it writes to them
    (recorded in `elementWrites` and `plyrWrites`). */
module PlayerEngine {
  import opened Wrappers
  import opened JsNumber
  import Chapters
  import Timeline
  import Vtt

  class Player {
    // props
    var videoSrc: string
    var chapters: seq<Chapters.Chapter>
    var externalDuration: Option<real>
    var startTime: real
    var endTime: Option<real>

    // state cells
    var videoDuration: real
    var currentTime: real
    var playerInitialized: bool
    var videoLoaded: bool
    var seekRequested: bool
    var lastSource: string
    var lastStartTime: real

    // what the component has done to its surroundings
    var plyrExists: bool
    var elementWrites: seq<real>
    var plyrWrites: seq<real>
    var track: Option<string>

    /** Plyr is reported ready only after it was created. */
    predicate Valid()
      reads this
    {
      playerInitialized ==> plyrExists
    }

    /** First render: `startTime` defaults to 0 and the duration starts as
        `externalDuration || 0`. */
    constructor (videoSrc: string, chapters: seq<Chapters.Chapter>, externalDuration: Option<real>,
                 startTime: real, endTime: Option<real>)
      ensures Valid()
      ensures this.videoSrc == videoSrc && this.chapters == chapters && this.externalDuration == externalDuration
      ensures this.startTime == startTime && this.endTime == endTime
      ensures videoDuration == Or(externalDuration, 0.0) && currentTime == startTime
      ensures !playerInitialized && !videoLoaded && !seekRequested
      ensures lastSource == videoSrc && lastStartTime == startTime
      ensures !plyrExists && elementWrites == [] && plyrWrites == [] && track == None
    {
      this.videoSrc := videoSrc;
      this.chapters := chapters;
      this.externalDuration := externalDuration;
      this.startTime := startTime;
      this.endTime := endTime;
      videoDuration := Or(externalDuration, 0.0);
      currentTime := startTime;
      playerInitialized := false;
      videoLoaded := false;
      seekRequested := false;
      lastSource := videoSrc;
      lastStartTime := startTime;
      plyrExists := false;
      elementWrites := [];
      plyrWrites := [];
      track := None;
    }

    /** A re-render with new props; the effects below then run. */
    method SetProps(videoSrc: string, chapters: seq<Chapters.Chapter>, externalDuration: Option<real>,
                    startTime: real, endTime: Option<real>)
      modifies this`videoSrc, this`chapters, this`externalDuration, this`startTime, this`endTime
      ensures this.videoSrc == videoSrc && this.chapters == chapters && this.externalDuration == externalDuration
      ensures this.startTime == startTime && this.endTime == endTime
    {
      this.videoSrc := videoSrc;
      this.chapters := chapters;
      this.externalDuration := externalDuration;
      this.startTime := startTime;
      this.endTime := endTime;
    }

    /** A new source clears `videoLoaded` and any pending seek. */
    method SourceEffect()
      modifies this`lastSource, this`videoLoaded, this`seekRequested
      ensures old(videoSrc != lastSource) ==> lastSource == videoSrc && !videoLoaded && !seekRequested
      ensures old(videoSrc == lastSource) ==> videoLoaded == old(videoLoaded) && seekRequested == old(seekRequested)
      ensures lastSource == videoSrc
    {
      if videoSrc != lastSource {
        lastSource := videoSrc;
        videoLoaded := false;
        seekRequested := false;
      }
    }

    /** A new `startTime` becomes the current time and requests a seek. */
    method StartTimeEffect()
      modifies this`lastStartTime, this`currentTime, this`seekRequested
      ensures old(startTime != lastStartTime) ==> currentTime == startTime && seekRequested
      ensures old(startTime == lastStartTime) ==> currentTime == old(currentTime) && seekRequested == old(seekRequested)
      ensures lastStartTime == startTime
    {
      if startTime != lastStartTime {
        lastStartTime := startTime;
        currentTime := startTime;
        seekRequested := true;
      }
    }

    /** A positive external duration is adopted. */
    method DurationEffect()
      modifies this`videoDuration
      ensures Truthy(externalDuration) && externalDuration.value > 0.0 ==> videoDuration == externalDuration.value
      ensures !(Truthy(externalDuration) && externalDuration.value > 0.0) ==> videoDuration == old(videoDuration)
    {
      if Truthy(externalDuration) && externalDuration.value > 0.0 {
        videoDuration := externalDuration.value;
      }
    }

    /** `loadedmetadata`: the video counts as loaded, and the media's duration
        (absent when not finite) is adopted only without an external one. */
    method MetadataLoaded(mediaDuration: Option<real>)
      modifies this`videoLoaded, this`videoDuration
      ensures videoLoaded
      ensures !Truthy(externalDuration) && mediaDuration.Some? ==> videoDuration == mediaDuration.value
      ensures Truthy(externalDuration) || mediaDuration.None? ==> videoDuration == old(videoDuration)
    {
      videoLoaded := true;
      if !Truthy(externalDuration) && mediaDuration.Some? {
        videoDuration := mediaDuration.value;
      }
    }

    /** The seek effect: nothing happens before the video is loaded; then a
        requested seek, or a current time that differs from the element's
        position, is written to the element, and to Plyr once it is
        initialised, and the request is cleared. No clamping is applied. */
    method SeekEffect(elementTime: real)
      requires Valid()
      modifies this`elementWrites, this`plyrWrites, this`seekRequested
      ensures Valid()
      ensures !videoLoaded || !(old(seekRequested) || currentTime != elementTime) ==>
        elementWrites == old(elementWrites) && plyrWrites == old(plyrWrites) && seekRequested == old(seekRequested)
      ensures videoLoaded && (old(seekRequested) || currentTime != elementTime) ==>
        && elementWrites == old(elementWrites) + [currentTime]
        && plyrWrites == old(plyrWrites) + (if plyrExists && playerInitialized then [currentTime] else [])
        && !seekRequested
    {
      if !videoLoaded {
        return;
      }
      if seekRequested || currentTime != elementTime {
        elementWrites := elementWrites + [currentTime];
        if plyrExists && playerInitialized {
          plyrWrites := plyrWrites + [currentTime];
        }
        seekRequested := false;
      }
    }

    /** Loop-back: at or past a truthy `endTime` the current time returns to
        `startTime` and a seek is requested. */
    method EndTimeEffect()
      modifies this`currentTime, this`seekRequested
      ensures old(Truthy(endTime) && currentTime >= endTime.value) ==> currentTime == startTime && seekRequested
      ensures !old(Truthy(endTime) && currentTime >= endTime.value) ==>
        currentTime == old(currentTime) && seekRequested == old(seekRequested)
    {
      if Truthy(endTime) && currentTime >= endTime.value {
        currentTime := startTime;
        seekRequested := true;
      }
    }

    /** Plyr is created once the video is loaded and Plyr is not yet initialised. */
    method InitPlyr()
      requires Valid()
      modifies this`plyrExists
      ensures Valid()
      ensures old(videoLoaded && !playerInitialized) ==> plyrExists
      ensures !old(videoLoaded && !playerInitialized) ==> plyrExists == old(plyrExists)
    {
      if videoLoaded && !playerInitialized {
        plyrExists := true;
      }
    }

    /** Plyr's `ready`: it counts as initialised, the chapter track is attached
        when there are chapters, and a seek to `startTime` is requested. */
    method PlyrReady(elementDuration: Option<real>)
      requires Valid() && plyrExists
      modifies this`playerInitialized, this`track, this`currentTime, this`seekRequested
      ensures Valid() && playerInitialized
      ensures |chapters| > 0 ==> track == Vtt.ChapterTrack(chapters, externalDuration, elementDuration)
      ensures |chapters| == 0 ==> track == old(track)
      ensures currentTime == startTime && seekRequested
    {
      playerInitialized := true;
      if |chapters| > 0 {
        track := Vtt.ChapterTrack(chapters, externalDuration, elementDuration);
      }
      currentTime := startTime;
      seekRequested := true;
    }

    /** Plyr's `timeupdate`: its position is adopted when it is a number. */
    method PlyrTimeUpdate(plyrTime: Option<real>)
      modifies this`currentTime
      ensures currentTime == if plyrTime.Some? then plyrTime.value else old(currentTime)
    {
      if plyrTime.Some? {
        currentTime := plyrTime.value;
      }
    }

    /** The element's `timeupdate`: its position is adopted. */
    method ElementTimeUpdate(elementTime: real)
      modifies this`currentTime
      ensures currentTime == elementTime
    {
      currentTime := elementTime;
    }

    /** The 250 ms poll, running only once the video is loaded: an unpaused
        Plyr's position wins, else an unpaused element's finite position. */
    method Poll(plyrTime: Option<real>, plyrPaused: bool, elementTime: Option<real>, elementPaused: bool)
      modifies this`currentTime
      ensures videoLoaded && plyrExists && plyrTime.Some? && !plyrPaused ==> currentTime == plyrTime.value
      ensures videoLoaded && !(plyrExists && plyrTime.Some? && !plyrPaused) && elementTime.Some? && !elementPaused ==>
        currentTime == elementTime.value
      ensures !videoLoaded || (!(plyrExists && plyrTime.Some? && !plyrPaused) && !(elementTime.Some? && !elementPaused)) ==>
        currentTime == old(currentTime)
    {
      if !videoLoaded {
        return;
      }
      if plyrExists && plyrTime.Some? && !plyrPaused {
        currentTime := plyrTime.value;
      } else if elementTime.Some? && !elementPaused {
        currentTime := elementTime.value;
      }
    }

    /** `handleSeek`, the chapter click: only the request is recorded. */
    method HandleSeek(time: real)
      modifies this`currentTime, this`seekRequested
      ensures currentTime == time && seekRequested
    {
      currentTime := time;
      seekRequested := true;
    }

    /** Unmount: Plyr is destroyed and no longer initialised. */
    method Unmount()
      requires Valid()
      modifies this`plyrExists, this`playerInitialized
      ensures Valid()
      ensures old(plyrExists) ==> !plyrExists && !playerInitialized
      ensures !old(plyrExists) ==> playerInitialized == old(playerInitialized)
      ensures !old(plyrExists) ==> plyrExists == old(plyrExists)
    {
      if plyrExists {
        plyrExists := false;
        playerInitialized := false;
      }
    }

    /** `externalDuration || videoDuration` */
    function EffectiveDuration(): real
      reads this
    {
      Timeline.EffectiveDuration(externalDuration, videoDuration)
    }

    /** The timeline as drawn now; in this component the effective duration
        decides trimmed mode. */
    function View(): (v: Timeline.View)
      reads this
      ensures v.base == v.effDur == EffectiveDuration()
      ensures Timeline.IsTrimmed(v) <==> (startTime > 0.0 || endTime.Some?) && EffectiveDuration() > 0.0
    {
      Timeline.View(startTime, endTime, EffectiveDuration(), EffectiveDuration(), currentTime)
    }

    function Bands(): (r: seq<Option<Timeline.Band>>)
      reads this
    {
      var segs := Chapters.Processed(chapters, EffectiveDuration());
      seq(|segs|, i requires 0 <= i < |segs| reads this => Timeline.ChapterBand(View(), segs[i]))
    }

    /** A click on a drawn band seeks to the band's drawn start. */
    method ClickBand(i: nat)
      requires i < |Bands()| && Bands()[i].Some?
      modifies this`currentTime, this`seekRequested
      ensures currentTime == old(Bands()[i].value.seekTo) && seekRequested
    {
      HandleSeek(Bands()[i].value.seekTo);
    }
  }

  /** An external duration, when set, wins over the media duration: after the
      metadata arrives and the duration effect runs, the effective duration is
      the external one when it is truthy, and otherwise the media's finite
      duration if it reported one. */
  method DurationScenario(src: string, external: Option<real>, mediaDuration: Option<real>) returns (d: real)
    ensures Truthy(external) ==> d == external.value
    ensures !Truthy(external) && mediaDuration.Some? ==> d == mediaDuration.value
    ensures !Truthy(external) && mediaDuration.None? ==> d == 0.0
  {
    var p := new Player(src, [], external, 0.0, None);
    p.MetadataLoaded(mediaDuration);
    p.DurationEffect();
    d := p.EffectiveDuration();
  }

  /** A seek requested before the video is loaded waits: it reaches the
      element only after `loadedmetadata`, and then exactly once. */
  method SeekWaitsForLoad(src: string, target: real, elementTime: real) returns (before: seq<real>, after: seq<real>)
    ensures before == [] && after == [target]
  {
    var p := new Player(src, [], None, 0.0, None);
    p.HandleSeek(target);
    p.SeekEffect(elementTime);
    before := p.elementWrites;
    p.MetadataLoaded(None);
    p.SeekEffect(elementTime);
    after := p.elementWrites;
  }

  /** Reaching a truthy `endTime` loops back: once loaded, the next seek
      writes `startTime` to the element. */
  method LoopBackScenario(src: string, start: real, end: real, reached: real) returns (written: seq<real>)
    requires end != 0.0 && reached >= end
    ensures written == [start]
  {
    var p := new Player(src, [], None, start, Some(end));
    p.MetadataLoaded(None);
    p.ElementTimeUpdate(reached);
    p.EndTimeEffect();
    p.SeekEffect(reached);
    written := p.elementWrites;
  }
}
