// The animation controller of core/animation_controller.py: playing, paused
// and stopped states, frame-rate validation and the timer interval. The
// repeating Qt timer is its `timerRunning` flag and `timerInterval`; a timer
// tick is a call of OnTimerTimeout.
module AnimationController {
  import opened Wrappers
  import opened Config
  import SpriteModel

  /**
   * The value handed to `set_fps`, by its Python type: anything that is not
   * an int or float, a bool (a subclass of int), an int, a finite float, NaN
   * or an infinity.
   */
  datatype FpsValue =
    | NotANumber
    | Boolean(b: bool)
    | Integer(i: int)
    | Float(f: real)
    | NaN
    | PosInf
    | NegInf

  /** Python's `int()` of a finite float: truncation toward zero. */
  function Truncate(f: real): (r: int)
    ensures f >= 0.0 ==> r >= 0 && r as real <= f < r as real + 1.0
    ensures f < 0.0 ==> r <= 0 && r as real - 1.0 < f <= r as real
  {
    if f >= 0.0 then f.Floor else -((-f).Floor)
  }

  /** The integer `set_fps` goes on to range-check, or None when it rejects the value's kind. */
  function FpsAsInt(v: FpsValue): (r: Option<int>)
    ensures r.None? <==> v.NotANumber? || v.NaN? || v.PosInf? || v.NegInf?
    ensures v.Boolean? ==> r == Some(if v.b then 1 else 0)
    ensures v.Integer? ==> r == Some(v.i)
    ensures v.Float? ==> r == Some(Truncate(v.f))
  {
    match v
    case NotANumber => None
    case NaN => None
    case PosInf => None
    case NegInf => None
    case Boolean(b) => Some(if b then 1 else 0)
    case Integer(i) => Some(i)
    case Float(f) => Some(Truncate(f))
  }

  /** Python's `round(n / d)` for d > 0: nearest integer, ties to the even one. */
  function RoundDiv(n: int, d: int): (r: int)
    requires d > 0
    ensures 2 * (n - r * d) <= d && -d <= 2 * (n - r * d)
    ensures 2 * (n - r * d) == d ==> r % 2 == 0
    ensures 2 * (n - r * d) == -d ==> r % 2 == 0
  {
    var q, m := n / d, n % d;
    if 2 * m > d then q + 1
    else if 2 * m < d then q
    else if q % 2 == 0 then q
    else q + 1
  }

  const MIN_INTERVAL := TIMER_BASE / MAX_FPS
  const MAX_INTERVAL := TIMER_BASE / MIN_FPS

  /** `_calculate_timer_interval` for a positive rate: the rounded period clamped to [16, 1000] ms. */
  function TimerInterval(fps: int): (ms: int)
    requires fps > 0
    ensures MIN_INTERVAL <= ms <= MAX_INTERVAL
  {
    var raw := RoundDiv(TIMER_BASE, fps);
    if raw < MIN_INTERVAL then MIN_INTERVAL
    else if raw > MAX_INTERVAL then MAX_INTERVAL
    else raw
  }

  /**
   * Within [MIN_FPS, MAX_FPS] the clamp never bites: the interval is the
   * period of the rate rounded to the nearest millisecond.
   */
  lemma IntervalIsNearestPeriod(fps: int)
    requires MIN_FPS <= fps <= MAX_FPS
    ensures var ms := TimerInterval(fps);
      2 * (TIMER_BASE - ms * fps) <= fps && -fps <= 2 * (TIMER_BASE - ms * fps)
  {
    var raw := RoundDiv(TIMER_BASE, fps);
    if raw < MIN_INTERVAL {
      ScaleLe(raw, MIN_INTERVAL - 1, fps);
      assert false;
    }
    if raw > MAX_INTERVAL {
      assert false;
    }
  }

  lemma ScaleLe(a: int, b: int, k: nat)
    requires a <= b
    ensures a * k <= b * k
  {
    assert b * k - a * k == (b - a) * k;
  }

  class AnimationController {
    const model: SpriteModel.SpriteModel
    var isActive: bool
    var isPlaying: bool
    var currentFps: int
    var loopEnabled: bool
    var timerRunning: bool
    var timerInterval: int

    /** The timer runs exactly while playing, at the interval of the current rate. */
    ghost predicate Valid()
      reads this, model
    {
      model.Valid() &&
      MIN_FPS <= currentFps <= MAX_FPS &&
      (timerRunning <==> isPlaying) &&
      (timerRunning ==> timerInterval == TimerInterval(currentFps))
    }

    /** `__init__`: active, not playing, with rate and loop mode taken from the model. */
    constructor(m: SpriteModel.SpriteModel)
      requires m.Valid()
      ensures Valid()
      ensures model == m && isActive && !isPlaying && !timerRunning
      ensures currentFps == m.fps && loopEnabled == m.loopEnabled
    {
      model := m;
      isActive := true;
      isPlaying := false;
      timerRunning := false;
      timerInterval := 0;
      currentFps := m.fps;
      loopEnabled := m.loopEnabled;
    }

    /** `_sync_state_to_model`. */
    method SyncStateToModel()
      requires Valid()
      modifies model
      ensures Valid()
      ensures model.fps == currentFps && model.loopEnabled == loopEnabled
      ensures model.frames == old(model.frames) && model.currentFrame == old(model.currentFrame)
      ensures model.isPlaying == old(model.isPlaying) && model.sheet == old(model.sheet)
    {
      var _ := model.SetFps(currentFps);
      model.SetLoopEnabled(loopEnabled);
    }

    /**
     * `_sync_state_from_model`: adopts the model's rate, falling back to the
     * default when out of range. Its callers (construction and a new sheet
     * after stopping) only call it while the timer is stopped.
     */
    method SyncStateFromModel()
      requires Valid() && !isPlaying
      modifies this
      ensures Valid()
      ensures currentFps == (if MIN_FPS <= model.fps <= MAX_FPS then model.fps else DEFAULT_FPS)
      ensures loopEnabled == model.loopEnabled
      ensures isActive == old(isActive) && isPlaying == old(isPlaying)
      ensures timerRunning == old(timerRunning)
    {
      currentFps := if MIN_FPS <= model.fps <= MAX_FPS then model.fps else DEFAULT_FPS;
      loopEnabled := model.loopEnabled;
    }

    /** `_calculate_timer_interval`. */
    method CalculateTimerInterval() returns (ms: int)
      requires Valid()
      ensures ms == TimerInterval(currentFps)
    {
      ms := TimerInterval(currentFps);
    }

    /**
     * `start_animation`: fails when the controller is inactive or the model
     * has no frames; otherwise starts the timer at the current interval.
     */
    method StartAnimation() returns (ok: bool)
      requires Valid()
      modifies this
      ensures Valid()
      ensures ok <==> old(isActive) && |model.frames| > 0
      ensures isPlaying == (ok || old(isPlaying))
      ensures ok ==> timerRunning && timerInterval == TimerInterval(currentFps)
      ensures currentFps == old(currentFps) && isActive == old(isActive) && loopEnabled == old(loopEnabled)
    {
      if !isActive {
        return false;
      }
      if |model.frames| == 0 {
        return false;
      }
      var ms := CalculateTimerInterval();
      timerRunning, timerInterval := true, ms;
      isPlaying := true;
      return true;
    }

    /** `pause_animation`: acts only while playing and keeps the current frame. */
    method PauseAnimation()
      requires Valid()
      modifies this
      ensures Valid()
      ensures !isPlaying && !timerRunning
      ensures currentFps == old(currentFps) && isActive == old(isActive) && loopEnabled == old(loopEnabled)
    {
      if isPlaying {
        timerRunning := false;
        isPlaying := false;
      }
    }

    /** `stop_animation`: acts only while playing; rewinds the model to its first frame. */
    method StopAnimation()
      requires Valid()
      modifies this, model
      ensures Valid()
      ensures !isPlaying && !timerRunning
      ensures old(isPlaying) ==> model.currentFrame == 0
      ensures !old(isPlaying) ==> model.currentFrame == old(model.currentFrame)
      ensures model.frames == old(model.frames) && model.fps == old(model.fps)
      ensures model.loopEnabled == old(model.loopEnabled)
      ensures currentFps == old(currentFps) && isActive == old(isActive) && loopEnabled == old(loopEnabled)
    {
      if isPlaying {
        timerRunning := false;
        isPlaying := false;
        var _ := model.FirstFrame();
      }
    }

    /** `toggle_playback`: returns the new playing state. */
    method TogglePlayback() returns (playing: bool)
      requires Valid()
      modifies this
      ensures Valid()
      ensures playing == isPlaying
      ensures old(isPlaying) ==> !playing
      ensures !old(isPlaying) ==> (playing <==> isActive && |model.frames| > 0)
      ensures currentFps == old(currentFps) && isActive == old(isActive)
    {
      if isPlaying {
        PauseAnimation();
      } else {
        var _ := StartAnimation();
      }
      playing := isPlaying;
    }

    /**
     * `set_fps`: rejects non-numbers, NaN, infinities and values outside
     * [MIN_FPS, MAX_FPS] after truncation, changing nothing; otherwise stores
     * the rate, pushes it to the model and retimes a running timer.
     */
    method SetFps(v: FpsValue) returns (ok: bool)
      requires Valid()
      modifies this, model
      ensures Valid()
      ensures ok <==> FpsAsInt(v).Some? && MIN_FPS <= FpsAsInt(v).value <= MAX_FPS
      ensures ok ==> currentFps == FpsAsInt(v).value && model.fps == currentFps
      ensures !ok ==> currentFps == old(currentFps) && model.fps == old(model.fps)
      ensures isPlaying == old(isPlaying) && isActive == old(isActive) && loopEnabled == old(loopEnabled)
      ensures model.frames == old(model.frames) && model.currentFrame == old(model.currentFrame)
    {
      var fps := FpsAsInt(v);
      if fps.None? {
        return false;
      }
      if !(MIN_FPS <= fps.value <= MAX_FPS) {
        return false;
      }
      currentFps := fps.value;
      if timerRunning {
        timerInterval := TimerInterval(currentFps);
      }
      SyncStateToModel();
      return true;
    }

    /** `set_loop_mode`: stores the mode and pushes it to the model. */
    method SetLoopMode(enabled: bool)
      requires Valid()
      modifies this, model
      ensures Valid()
      ensures loopEnabled == enabled && model.loopEnabled == enabled
      ensures isPlaying == old(isPlaying) && currentFps == old(currentFps) && isActive == old(isActive)
      ensures model.frames == old(model.frames) && model.currentFrame == old(model.currentFrame)
    {
      loopEnabled := enabled;
      SyncStateToModel();
    }

    /**
     * `_on_timer_timeout`: while playing, advances the model one frame and
     * pauses when the model says playback should not continue.
     */
    method OnTimerTimeout() returns (advanced: Option<int>)
      requires Valid()
      modifies this, model
      ensures Valid()
      ensures !old(isPlaying) ==> advanced == None && model.currentFrame == old(model.currentFrame) && !isPlaying
      ensures old(isPlaying) && |old(model.frames)| > 0 ==>
        var step := SpriteModel.Advance(old(model.currentFrame), |old(model.frames)|, old(model.loopEnabled));
        advanced == Some(step.0) && model.currentFrame == step.0 && isPlaying == step.1
      ensures old(isPlaying) && |model.frames| == 0 ==> advanced == Some(0) && !isPlaying
      ensures model.frames == old(model.frames) && model.loopEnabled == old(model.loopEnabled)
      ensures currentFps == old(currentFps) && isActive == old(isActive)
    {
      if !isPlaying {
        return None;
      }
      var index, shouldContinue := model.NextFrame();
      advanced := Some(index);
      if !shouldContinue {
        PauseAnimation();
      }
    }

    /** `_on_model_extraction_completed`: fewer than two frames pause a running animation. */
    method OnModelExtractionCompleted(frameCount: nat)
      requires Valid()
      modifies this
      ensures Valid()
      ensures frameCount <= 1 ==> !isPlaying
      ensures frameCount > 1 ==> isPlaying == old(isPlaying)
      ensures currentFps == old(currentFps) && isActive == old(isActive)
    {
      if frameCount <= 1 && isPlaying {
        PauseAnimation();
      }
    }

    /** `_on_model_data_loaded`: stops playback and re-reads the model's settings. */
    method OnModelDataLoaded()
      requires Valid()
      modifies this, model
      ensures Valid()
      ensures !isPlaying && !timerRunning
      ensures currentFps == model.fps && loopEnabled == model.loopEnabled
      ensures isActive == old(isActive)
    {
      if isPlaying {
        StopAnimation();
      }
      SyncStateFromModel();
    }

    /** `_on_model_error`: always pauses. */
    method OnModelError()
      requires Valid()
      modifies this
      ensures Valid()
      ensures !isPlaying
      ensures currentFps == old(currentFps) && isActive == old(isActive)
    {
      if isPlaying {
        PauseAnimation();
      }
    }

    /** `shutdown`: stops a running animation and leaves the controller inactive. */
    method Shutdown()
      requires Valid()
      modifies this, model
      ensures Valid()
      ensures !isActive && !isPlaying && !timerRunning
      ensures currentFps == old(currentFps)
    {
      if isPlaying {
        StopAnimation();
      }
      timerRunning := false;
      isActive := false;
    }

    /** After shutdown the controller refuses to start. */
    method StartAfterShutdown() returns (ok: bool)
      requires Valid()
      modifies this, model
      ensures !ok && !isPlaying
    {
      Shutdown();
      ok := StartAnimation();
    }
  }
}
