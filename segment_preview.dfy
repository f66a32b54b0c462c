// The per-segment player of ui/animation_segment_preview.py: a tick that
// holds frames, loops or bounces, the hold editing around it, and the
// preview panel's zoom steps.
module SegmentPreview {
  import opened Wrappers
  import opened PyDict

  /** The playback state `_update_frame` reads and writes. */
  datatype PlayState = PlayState(current: int, direction: int, holdCounter: int)

  function Min(a: int, b: int): int { if a <= b then a else b }
  function Max(a: int, b: int): int { if a <= b then b else a }

  /** The frame is on hold: it has a hold and the counter has not reached it yet. */
  predicate Held(st: PlayState, holds: Dict<int, int>)
  {
    Contains(holds, st.current) && st.holdCounter < Get(holds, st.current).value
  }

  /**
   * The frame move of `_update_frame`. Bounce mode steps in the current
   * direction, turning at either end (to n-2 after the last frame, to 1
   * before the first) and clamping into [0, n-1]; loop mode steps to
   * `(i + 1) % n`.
   */
  function Advance(st: PlayState, n: nat, bounce: bool): (r: PlayState)
    requires n > 0
    ensures 0 <= r.current < n
    ensures r.holdCounter == st.holdCounter
  {
    if bounce then
      var next := st.current + st.direction;
      var direction := if next >= n then -1 else if next < 0 then 1 else st.direction;
      var target := if next >= n then n - 2 else if next < 0 then 1 else next;
      st.(current := Max(0, Min(target, n - 1)), direction := direction)
    else
      st.(current := (st.current + 1) % n)
  }

  /** One timer tick of `_update_frame`. */
  function Tick(st: PlayState, n: nat, bounce: bool, holds: Dict<int, int>): (r: PlayState)
    requires n > 0
    ensures Held(st, holds) ==> r == st.(holdCounter := st.holdCounter + 1)
    ensures !Held(st, holds) ==> 0 <= r.current < n
  {
    if Contains(holds, st.current) then
      if st.holdCounter < Get(holds, st.current).value then st.(holdCounter := st.holdCounter + 1)
      else Advance(st.(holdCounter := 0), n, bounce)
    else Advance(st, n, bounce)
  }

  /** k ticks in a row. */
  function Ticks(st: PlayState, k: nat, n: nat, bounce: bool, holds: Dict<int, int>): PlayState
    requires n > 0
    decreases k
  {
    if k == 0 then st else Ticks(Tick(st, n, bounce, holds), k - 1, n, bounce, holds)
  }

  /** In loop mode a frame that is not held moves to the next one, wrapping after the last. */
  lemma LoopStep(st: PlayState, n: nat, holds: Dict<int, int>)
    requires n > 0 && 0 <= st.current < n && !Contains(holds, st.current)
    ensures Tick(st, n, false, holds).current == if st.current == n - 1 then 0 else st.current + 1
  {
  }

  /**
   * A frame with hold h, reached with the counter at 0, stays on screen
   * for h ticks with the counter counting up, and the next tick resets the
   * counter and moves on.
   */
  lemma {:induction false} HoldLasts(st: PlayState, k: nat, n: nat, bounce: bool, holds: Dict<int, int>)
    requires n > 0 && Contains(holds, st.current) && st.holdCounter >= 0
    requires st.holdCounter + k <= Get(holds, st.current).value
    ensures Ticks(st, k, n, bounce, holds) == st.(holdCounter := st.holdCounter + k)
    decreases k
  {
    if k > 0 {
      var next := st.(holdCounter := st.holdCounter + 1);
      assert Tick(st, n, bounce, holds) == next;
      HoldLasts(next, k - 1, n, bounce, holds);
    }
  }

  /** Once the counter has reached the hold, the tick resets it and advances. */
  lemma HoldReleases(st: PlayState, n: nat, bounce: bool, holds: Dict<int, int>)
    requires n > 0 && Contains(holds, st.current) && st.holdCounter == Get(holds, st.current).value
    ensures Tick(st, n, bounce, holds) == Advance(st.(holdCounter := 0), n, bounce)
    ensures Tick(st, n, bounce, holds).holdCounter == 0
  {
  }

  /** Bouncing forward from frame k with no holds walks straight to the last frame. */
  lemma {:induction false} BounceForward(k: int, m: nat, n: nat)
    requires 0 <= k && k + m <= n - 1
    ensures Ticks(PlayState(k, 1, 0), m, n, true, []) == PlayState(k + m, 1, 0)
    decreases m
  {
    if m > 0 {
      assert Tick(PlayState(k, 1, 0), n, true, []) == PlayState(k + 1, 1, 0);
      BounceForward(k + 1, m - 1, n);
    }
  }

  /** Bouncing backward from frame k with no holds walks straight to frame 0. */
  lemma {:induction false} BounceBackward(k: int, m: nat, n: nat)
    requires n > 0 && k < n && 0 <= k - m
    ensures Ticks(PlayState(k, -1, 0), m, n, true, []) == PlayState(k - m, -1, 0)
    decreases m
  {
    if m > 0 {
      assert Tick(PlayState(k, -1, 0), n, true, []) == PlayState(k - 1, -1, 0);
      BounceBackward(k - 1, m - 1, n);
    }
  }

  lemma {:induction false} TicksAdd(st: PlayState, a: nat, b: nat, n: nat, bounce: bool, holds: Dict<int, int>)
    requires n > 0
    ensures Ticks(st, a + b, n, bounce, holds) == Ticks(Ticks(st, a, n, bounce, holds), b, n, bounce, holds)
    decreases a
  {
    if a > 0 {
      var next := Tick(st, n, bounce, holds);
      assert Ticks(st, a + b, n, bounce, holds) == Ticks(next, (a - 1) + b, n, bounce, holds);
      assert Ticks(st, a, n, bounce, holds) == Ticks(next, a - 1, n, bounce, holds);
      TicksAdd(next, a - 1, b, n, bounce, holds);
    }
  }

  /**
   * Bounce mode is a ping-pong with period 2(n-1): from frame 1 going
   * forward, the frames run up to n-1, back down to 0 and return to frame 1
   * going forward.
   */
  lemma BouncePeriod(n: nat)
    requires n >= 2
    ensures Ticks(PlayState(1, 1, 0), 2 * n - 2, n, true, []) == PlayState(1, 1, 0)
  {
    var start := PlayState(1, 1, 0);
    BounceForward(1, n - 2, n);
    var top := PlayState(n - 1, 1, 0);
    assert Tick(top, n, true, []) == PlayState(n - 2, -1, 0);
    BounceBackward(n - 2, n - 2, n);
    var bottom := PlayState(0, -1, 0);
    assert Tick(bottom, n, true, []) == start;
    TicksAdd(start, n - 2, 1, n, true, []);
    TicksAdd(start, n - 1, n - 2, n, true, []);
    TicksAdd(start, 2 * n - 3, 1, n, true, []);
  }

  /** `SegmentPreviewItem`: one segment's frames, played on a timer. */
  class SegmentPreviewItem {
    /** `len(self._frames)`. */
    var frameCount: nat
    var currentFrame: int
    var isPlaying: bool
    var timerRunning: bool
    var fps: int
    var timerInterval: int
    var bounceMode: bool
    var frameHolds: Dict<int, int>
    var playbackDirection: int
    var holdCounter: int

    /**
     * The item always has frames, shows one of them, runs its timer exactly
     * while playing, and its holds form a dict.
     */
    ghost predicate Valid()
      reads this
    {
      frameCount > 0 && 0 <= currentFrame < frameCount && (timerRunning <==> isPlaying) &&
      holdCounter >= 0 && DistinctKeys(frameHolds)
    }

    function State(): PlayState
      reads this
    {
      PlayState(currentFrame, playbackDirection, holdCounter)
    }

    /** `__init__`: frame 0, paused, 10 fps, forward; a missing holds dict becomes empty. */
    constructor(count: nat, bounce: bool, holds: Option<Dict<int, int>>)
      requires count > 0
      requires holds.Some? ==> DistinctKeys(holds.value)
      ensures Valid()
      ensures frameCount == count && currentFrame == 0 && !isPlaying && fps == 10 && timerInterval == 100
      ensures bounceMode == bounce && frameHolds == (if holds.Some? then holds.value else [])
      ensures playbackDirection == 1 && holdCounter == 0
    {
      frameCount := count;
      currentFrame := 0;
      isPlaying := false;
      timerRunning := false;
      fps := 10;
      timerInterval := 100;
      bounceMode := bounce;
      frameHolds := if holds.Some? then holds.value else [];
      playbackDirection := 1;
      holdCounter := 0;
    }

    /** `_update_frame`: one tick. */
    method UpdateFrame()
      requires Valid()
      modifies this
      ensures Valid()
      ensures State() == Tick(old(State()), frameCount, bounceMode, frameHolds)
      ensures frameHolds == old(frameHolds) && isPlaying == old(isPlaying) && fps == old(fps)
    {
      if Contains(frameHolds, currentFrame) {
        if holdCounter < Get(frameHolds, currentFrame).value {
          holdCounter := holdCounter + 1;
          return;
        } else {
          holdCounter := 0;
        }
      }
      if bounceMode {
        var nextFrame := currentFrame + playbackDirection;
        if nextFrame >= frameCount {
          playbackDirection := -1;
          nextFrame := frameCount - 2;
        } else if nextFrame < 0 {
          playbackDirection := 1;
          nextFrame := 1;
        }
        currentFrame := Max(0, Min(nextFrame, frameCount - 1));
      } else {
        currentFrame := (currentFrame + 1) % frameCount;
      }
    }

    /** `_toggle_playback`: flips playing and starts or stops the timer with it. */
    method TogglePlayback()
      requires Valid()
      modifies this
      ensures Valid()
      ensures isPlaying == !old(isPlaying) && timerRunning == isPlaying
      ensures State() == old(State()) && frameHolds == old(frameHolds) && bounceMode == old(bounceMode)
      ensures frameCount == old(frameCount) && fps == old(fps) && timerInterval == old(timerInterval)
    {
      isPlaying := !isPlaying;
      timerRunning := isPlaying;
    }

    /** `_update_timer_interval`: `1000 // fps` for a positive fps, otherwise unchanged. */
    method UpdateTimerInterval()
      modifies this
      ensures fps > 0 ==> timerInterval == 1000 / fps && timerInterval * fps <= 1000 < (timerInterval + 1) * fps
      ensures fps <= 0 ==> timerInterval == old(timerInterval)
      ensures fps == old(fps) && State() == old(State()) && isPlaying == old(isPlaying)
      ensures timerRunning == old(timerRunning) && frameCount == old(frameCount) && frameHolds == old(frameHolds)
    {
      if fps > 0 {
        timerInterval := 1000 / fps;
      }
    }

    /** `_on_fps_changed`. */
    method OnFpsChanged(value: int)
      requires Valid()
      modifies this
      ensures Valid()
      ensures fps == value
      ensures value > 0 ==> timerInterval == 1000 / value
      ensures value <= 0 ==> timerInterval == old(timerInterval)
      ensures State() == old(State()) && isPlaying == old(isPlaying) && frameHolds == old(frameHolds)
    {
      fps := value;
      UpdateTimerInterval();
    }

    /** `set_playing`: toggles only when the requested state differs. */
    method SetPlaying(playing: bool)
      requires Valid()
      modifies this
      ensures Valid()
      ensures isPlaying == playing
      ensures State() == old(State()) && frameHolds == old(frameHolds)
    {
      if playing != isPlaying {
        TogglePlayback();
      }
    }

    /** `stop_playback`: paused, back on frame 0. */
    method StopPlayback()
      requires Valid()
      modifies this
      ensures Valid()
      ensures !isPlaying && !timerRunning && currentFrame == 0
      ensures playbackDirection == old(playbackDirection) && holdCounter == old(holdCounter)
      ensures frameHolds == old(frameHolds) && bounceMode == old(bounceMode)
    {
      if isPlaying {
        TogglePlayback();
      }
      currentFrame := 0;
    }

    /** `_on_bounce_toggled`: sets the mode and turns the direction forward. */
    method OnBounceToggled(checked: bool)
      requires Valid()
      modifies this
      ensures Valid()
      ensures bounceMode == checked && playbackDirection == 1
      ensures currentFrame == old(currentFrame) && holdCounter == old(holdCounter)
      ensures frameHolds == old(frameHolds) && isPlaying == old(isPlaying)
    {
      bounceMode := checked;
      playbackDirection := 1;
    }

    /**
     * `_add_frame_hold` once both dialogs are accepted: the 1-based frame
     * number and the duration come from spin boxes bounded to [1, n] and
     * [1, 60].
     */
    method AddFrameHold(frameNumber: int, duration: int)
      requires Valid()
      requires 1 <= frameNumber <= frameCount && 1 <= duration <= 60
      modifies this
      ensures Valid()
      ensures frameHolds == Put(old(frameHolds), frameNumber - 1, duration)
      ensures Get(frameHolds, frameNumber - 1) == Some(duration)
      ensures forall f :: f != frameNumber - 1 ==> Get(frameHolds, f) == Get(old(frameHolds), f)
      ensures State() == old(State())
    {
      PutSpec(frameHolds, frameNumber - 1, duration);
      frameHolds := Put(frameHolds, frameNumber - 1, duration);
    }

    /** `_edit_frame_hold` once accepted: a positive duration sets the hold, 0 removes it. */
    method EditFrameHold(frameIndex: int, duration: int)
      requires Valid()
      requires 0 <= duration <= 60
      modifies this
      ensures Valid()
      ensures duration > 0 ==> Get(frameHolds, frameIndex) == Some(duration)
      ensures duration == 0 ==> !Contains(frameHolds, frameIndex)
      ensures forall f :: f != frameIndex ==> Get(frameHolds, f) == Get(old(frameHolds), f)
      ensures State() == old(State())
    {
      if duration > 0 {
        PutSpec(frameHolds, frameIndex, duration);
        frameHolds := Put(frameHolds, frameIndex, duration);
      } else if Contains(frameHolds, frameIndex) {
        RemoveSpec(frameHolds, frameIndex);
        frameHolds := Remove(frameHolds, frameIndex);
      }
    }

    /** `_clear_frame_holds`: no holds and the counter back at 0. */
    method ClearFrameHolds()
      requires Valid()
      modifies this
      ensures Valid()
      ensures frameHolds == [] && holdCounter == 0
      ensures currentFrame == old(currentFrame) && playbackDirection == old(playbackDirection)
    {
      frameHolds := [];
      holdCounter := 0;
    }

    /** `_add_hold_to_all_frames` once accepted: every frame of the item gets the same hold. */
    method AddHoldToAllFrames(duration: int)
      requires Valid()
      requires 1 <= duration <= 60
      modifies this
      ensures Valid()
      ensures forall f :: 0 <= f < frameCount ==> Get(frameHolds, f) == Some(duration)
      ensures forall f :: !(0 <= f < frameCount) ==> Get(frameHolds, f) == Get(old(frameHolds), f)
      ensures State() == old(State())
    {
      var i := 0;
      while i < frameCount
        invariant 0 <= i <= frameCount
        invariant Valid() && State() == old(State())
        invariant HeldUpTo(frameHolds, old(frameHolds), i, duration)
      {
        HeldStep(frameHolds, old(frameHolds), i, duration);
        frameHolds := Put(frameHolds, i, duration);
        i := i + 1;
      }
    }
  }

  /** Frames 0 .. i-1 hold `duration`; every other frame keeps its hold from `before`. */
  ghost predicate HeldUpTo(holds: Dict<int, int>, before: Dict<int, int>, i: int, duration: int)
  {
    DistinctKeys(holds) &&
    (forall f :: 0 <= f < i ==> Get(holds, f) == Some(duration)) &&
    (forall f :: !(0 <= f < i) ==> Get(holds, f) == Get(before, f))
  }

  /** Setting frame i's hold extends the held prefix by one frame. */
  lemma HeldStep(holds: Dict<int, int>, before: Dict<int, int>, i: int, duration: int)
    requires i >= 0 && HeldUpTo(holds, before, i, duration)
    ensures HeldUpTo(Put(holds, i, duration), before, i + 1, duration)
  {
    PutSpec(holds, i, duration);
  }

  /**
   * `AnimationSegmentPreview`'s zoom, kept in whole percent: the factor
   * moves in steps of 0.25 between 0.5 and 2.0, all exact in binary
   * floating point.
   */
  class PreviewZoom {
    var zoomPercent: int

    ghost predicate Valid()
      reads this
    {
      50 <= zoomPercent <= 200 && zoomPercent % 25 == 0
    }

    constructor()
      ensures Valid() && zoomPercent == 100
    {
      zoomPercent := 100;
    }

    /** `_zoom_in`: below 200% it grows by 25 points, capped at 200%. */
    method ZoomIn()
      requires Valid()
      modifies this
      ensures Valid()
      ensures zoomPercent == if old(zoomPercent) < 200 then Min(200, old(zoomPercent) + 25) else old(zoomPercent)
    {
      if zoomPercent < 200 {
        zoomPercent := Min(200, zoomPercent + 25);
      }
    }

    /** `_zoom_out`: above 50% it shrinks by 25 points, floored at 50%. */
    method ZoomOut()
      requires Valid()
      modifies this
      ensures Valid()
      ensures zoomPercent == if old(zoomPercent) > 50 then Max(50, old(zoomPercent) - 25) else old(zoomPercent)
    {
      if zoomPercent > 50 {
        zoomPercent := Max(50, zoomPercent - 25);
      }
    }

    /** `_update_zoom`'s button states: zooming in is offered below 200%, out above 50%. */
    function ButtonsEnabled(): (r: (bool, bool))
      reads this
      requires Valid()
      ensures r.0 <==> zoomPercent <= 175
      ensures r.1 <==> zoomPercent >= 75
    {
      (zoomPercent < 200, zoomPercent > 50)
    }
  }
}
