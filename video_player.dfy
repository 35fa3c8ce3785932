/** frontend/src/components/VideoPlayer.tsx: the player's React state and the handlers that
    keep it in step with the `<video>` element. React's state updates are modelled as taking
    effect immediately; no handler reads a state value after setting it. */
module VideoPlayer {
  import opened Wrappers
  import opened Numeric
  import opened TimeFormat

  /** The parts of an HTMLVideoElement the player reads and writes. */
  class MediaElement {
    var currentTime: real
    var duration: real
    var volume: real
    var paused: bool

    constructor (duration: real)
      ensures this.duration == duration && currentTime == 0.0 && volume == 1.0 && paused
    {
      this.duration := duration;
      currentTime := 0.0;
      volume := 1.0;
      paused := true;
    }

    method Play()
      modifies this
      ensures !paused
      ensures currentTime == old(currentTime) && duration == old(duration) && volume == old(volume)
    {
      paused := false;
    }

    method Pause()
      modifies this
      ensures paused
      ensures currentTime == old(currentTime) && duration == old(duration) && volume == old(volume)
    {
      paused := true;
    }
  }

  /** `Math.max(0, Math.min(duration, currentTime + seconds))`: the target of a skip. */
  function SkipTarget(currentTime: real, duration: real, seconds: real): (r: real)
    ensures r >= 0.0
    ensures 0.0 <= duration ==> r <= duration
    ensures 0.0 <= currentTime + seconds <= duration ==> r == currentTime + seconds
    ensures currentTime + seconds < 0.0 ==> r == 0.0
    ensures 0.0 <= duration < currentTime + seconds ==> r == duration
  {
    Max(0.0, Min(duration, currentTime + seconds))
  }

  class Player {
    /** `videoRef.current`: null while no video is rendered. */
    const element: MediaElement?
    var isPlaying: bool
    var currentTime: real
    var duration: real
    var volume: real

    constructor (element: MediaElement?)
      ensures this.element == element
      ensures !isPlaying && currentTime == 0.0 && duration == 0.0 && volume == 1.0
    {
      this.element := element;
      isPlaying := false;
      currentTime := 0.0;
      duration := 0.0;
      volume := 1.0;
    }

    /** The `seekTo` effect: a non-null request moves the element; null changes nothing. */
    method SeekToEffect(seekTo: Option<real>)
      modifies element
      ensures element != null && seekTo.Some? ==> element.currentTime == seekTo.value
      ensures element != null && seekTo.None? ==> element.currentTime == old(element.currentTime)
      ensures element != null ==> element.paused == old(element.paused) && element.volume == old(element.volume)
                                  && element.duration == old(element.duration)
    {
      if seekTo.Some? && element != null {
        element.currentTime := seekTo.value;
      }
    }

    /** `togglePlayPause`: pauses a playing video, plays a paused one, and flips `isPlaying`. */
    method TogglePlayPause()
      modifies this, element
      ensures element == null ==> isPlaying == old(isPlaying)
      ensures element != null ==> isPlaying == !old(isPlaying) && element.paused == old(isPlaying)
      ensures element != null ==> element.currentTime == old(element.currentTime)
                                  && element.volume == old(element.volume) && element.duration == old(element.duration)
      ensures currentTime == old(currentTime) && duration == old(duration) && volume == old(volume)
    {
      if element != null {
        if isPlaying {
          element.Pause();
        } else {
          element.Play();
        }
        isPlaying := !isPlaying;
      }
    }

    /** `handleTimeUpdate`: the element's position becomes the state's `currentTime`, and the
        same value is what `onTimeUpdate` is called with (`None`: not called). */
    method HandleTimeUpdate() returns (reported: Option<real>)
      modifies this
      ensures element != null ==> currentTime == element.currentTime && reported == Some(element.currentTime)
      ensures element == null ==> currentTime == old(currentTime) && reported == None
      ensures isPlaying == old(isPlaying) && duration == old(duration) && volume == old(volume)
    {
      if element != null {
        var time := element.currentTime;
        currentTime := time;
        reported := Some(time);
      } else {
        reported := None;
      }
    }

    /** `handleLoadedMetadata`: the element's duration becomes the state's. */
    method HandleLoadedMetadata()
      modifies this
      ensures element != null ==> duration == element.duration
      ensures element == null ==> duration == old(duration)
      ensures isPlaying == old(isPlaying) && currentTime == old(currentTime) && volume == old(volume)
    {
      if element != null {
        duration := element.duration;
      }
    }

    /** `handleSeek` with the slider's value: element and state move to the same position. */
    method HandleSeek(time: real)
      modifies this, element
      ensures element != null ==> element.currentTime == time && currentTime == time
      ensures element != null ==> element.paused == old(element.paused) && element.volume == old(element.volume)
                                  && element.duration == old(element.duration)
      ensures element == null ==> currentTime == old(currentTime)
      ensures isPlaying == old(isPlaying) && duration == old(duration) && volume == old(volume)
    {
      if element != null {
        element.currentTime := time;
        currentTime := time;
      }
    }

    /** `handleVolumeChange`: the state follows the slider even when there is no element. */
    method HandleVolumeChange(vol: real)
      modifies this, element
      ensures volume == vol
      ensures element != null ==> element.volume == vol && element.currentTime == old(element.currentTime)
                                  && element.paused == old(element.paused) && element.duration == old(element.duration)
      ensures isPlaying == old(isPlaying) && currentTime == old(currentTime) && duration == old(duration)
    {
      volume := vol;
      if element != null {
        element.volume := vol;
      }
    }

    /** The element's `onPlay` event. */
    method HandlePlay()
      modifies this
      ensures isPlaying
      ensures currentTime == old(currentTime) && duration == old(duration) && volume == old(volume)
    {
      isPlaying := true;
    }

    /** The element's `onPause` event. */
    method HandlePause()
      modifies this
      ensures !isPlaying
      ensures currentTime == old(currentTime) && duration == old(duration) && volume == old(volume)
    {
      isPlaying := false;
    }

    /** `skipTime(seconds)`: moves the element by `seconds` from the state's position,
        clamped to [0, duration]. */
    method SkipTime(seconds: real)
      modifies element
      ensures element != null ==> element.currentTime == SkipTarget(currentTime, duration, seconds)
      ensures element != null ==> element.paused == old(element.paused) && element.volume == old(element.volume)
                                  && element.duration == old(element.duration)
    {
      if element != null {
        element.currentTime := Max(0.0, Min(duration, currentTime + seconds));
      }
    }

    /** The position display, `{formatTime(currentTime)} / {formatTime(duration)}`. */
    function TimeDisplay(): string
      reads this
    {
      FormatTime(currentTime) + " / " + FormatTime(duration)
    }
  }
}
