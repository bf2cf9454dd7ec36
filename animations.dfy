/**
 * Frame-based sprite animation: an animation is a list of sheet rectangles,
 * the frame shown is the number of whole `speedup` periods elapsed since
 * the start, and a looping animation wraps its clock back to 0 once it has
 * run past its last frame.
 */
module Animations {
  import opened Types
  import opened Images
  import opened Actions

  /** A frame list; `frameTimings` is carried along but never consulted. */
  datatype Animation = Animation(frames: seq<Rect>, frameTimings: seq<nat>, loops: bool)

  /** The frame an animation opens with. */
  function InitialFrame(a: Animation): (r: Rect)
    requires |a.frames| > 0
    ensures r in a.frames && r == a.frames[0]
  {
    a.frames[0]
  }

  /** Whole `speedup` periods between `start` and `now` (unsigned subtraction, so `start <= now`). */
  function FrameIndex(start: nat, now: nat, speedup: nat): nat
    requires start <= now && speedup > 0
  {
    (now - start) / speedup
  }

  /** The frame shown at `now`: one of the animation's frames, and the first one for the whole first period. */
  function CurrentFrame(a: Animation, start: nat, now: nat, speedup: nat): (r: Rect)
    requires start <= now && speedup > 0 && FrameIndex(start, now, speedup) < |a.frames|
    ensures r in a.frames
    ensures now - start < speedup ==> r == a.frames[0]
  {
    a.frames[FrameIndex(start, now, speedup)]
  }

  /** Past the last frame; an animation without frames is finished from the start. */
  predicate IsFinished(a: Animation, start: nat, now: nat, speedup: nat)
    requires start <= now && speedup > 0
    ensures !IsFinished(a, start, now, speedup) ==> |a.frames| > 0
    ensures |a.frames| == 0 ==> IsFinished(a, start, now, speedup)
  {
    FrameIndex(start, now, speedup) >= |a.frames|
  }

  /**
   * The frame index counts whole periods: `speedup * i <= now - start <
   * speedup * (i + 1)`, and the frame at the start is the initial frame.
   */
  lemma FrameIndexPeriods(start: nat, now: nat, speedup: nat)
    requires start <= now && speedup > 0
    ensures speedup * FrameIndex(start, now, speedup) <= now - start < speedup * (FrameIndex(start, now, speedup) + 1)
    ensures FrameIndex(start, start, speedup) == 0
  {
    var m := now - start;
    DivModLin(speedup, m);
    assert m == Lin(speedup, m / speedup, m % speedup);
  }

  /** At the start time the current frame is the initial frame. */
  lemma CurrentFrameAtStart(a: Animation, start: nat, speedup: nat)
    requires |a.frames| > 0 && speedup > 0
    ensures CurrentFrame(a, start, start, speedup) == InitialFrame(a)
  {
    FrameIndexPeriods(start, start, speedup);
  }

  /**
   * An animation is finished exactly when `speedup * |frames|` ticks have
   * elapsed, and exactly when the current frame is out of range.
   */
  lemma IsFinishedIff(a: Animation, start: nat, now: nat, speedup: nat)
    requires start <= now && speedup > 0
    ensures IsFinished(a, start, now, speedup) <==> now - start >= speedup * |a.frames|
    ensures !IsFinished(a, start, now, speedup) <==> FrameIndex(start, now, speedup) < |a.frames|
  {
    var q := FrameIndex(start, now, speedup);
    FrameIndexPeriods(start, now, speedup);
    if q >= |a.frames| {
      MulLe(|a.frames|, q, speedup);
    } else {
      MulLe(q + 1, |a.frames|, speedup);
    }
  }

  /** The frame choice depends only on the frames, never on `frameTimings`. */
  lemma TimingsIgnored(a: Animation, timings: seq<nat>, start: nat, now: nat, speedup: nat)
    requires start <= now && speedup > 0
    ensures IsFinished(a.(frameTimings := timings), start, now, speedup) == IsFinished(a, start, now, speedup)
    ensures FrameIndex(start, now, speedup) < |a.frames| ==>
              CurrentFrame(a.(frameTimings := timings), start, now, speedup) == CurrentFrame(a, start, now, speedup)
  {
  }

  /** The clock after one tick: one more, or 0 when a looping animation has just run out. */
  function NextNow(a: Animation, start: nat, now: nat, speedup: nat): nat
    requires start <= now + 1 && speedup > 0
  {
    if IsFinished(a, start, now + 1, speedup) && a.loops then 0 else now + 1
  }

  /** `tick` does not panic: the clock after the tick is not before the start and names a frame. */
  predicate TickOk(a: Animation, start: nat, now: nat, speedup: nat)
  {
    speedup > 0 && start <= now + 1
    && var n := NextNow(a, start, now, speedup);
       start <= n && FrameIndex(start, n, speedup) < |a.frames|
  }

  /** A tick adds exactly one to the clock, or resets a looping, finished animation to 0. */
  lemma NextNowCases(a: Animation, start: nat, now: nat, speedup: nat)
    requires start <= now + 1 && speedup > 0
    ensures NextNow(a, start, now, speedup) == now + 1
            || (NextNow(a, start, now, speedup) == 0 && a.loops && now + 1 - start >= speedup * |a.frames|)
    ensures !a.loops ==> NextNow(a, start, now, speedup) == now + 1
    ensures a.loops && now + 1 - start >= speedup * |a.frames| ==> NextNow(a, start, now, speedup) == 0
  {
    IsFinishedIff(a, start, now + 1, speedup);
  }

  /** A looping, non-empty animation started at time 0 can be ticked from any clock value. */
  lemma LoopingTickInBounds(a: Animation, now: nat, speedup: nat)
    requires a.loops && |a.frames| > 0 && speedup > 0
    ensures TickOk(a, 0, now, speedup)
  {
  }

  /** A non-looping animation panics on the tick that takes it past its last frame. */
  lemma NonLoopingTickPanics(a: Animation, start: nat, now: nat, speedup: nat)
    requires !a.loops && speedup > 0 && start <= now + 1
    ensures TickOk(a, start, now, speedup) <==> now + 1 - start < speedup * |a.frames|
  {
    IsFinishedIff(a, start, now + 1, speedup);
  }

  /** The clock of a freshly played animation (start 0, clock 0) after `k` ticks. */
  function NowAfterTicks(a: Animation, speedup: nat, k: nat): nat
    requires speedup > 0
  {
    if k == 0 then 0 else NextNow(a, 0, NowAfterTicks(a, speedup, k - 1), speedup)
  }

  /**
   * A freshly played looping animation is periodic: after `k` ticks its
   * clock is `k mod (speedup * |frames|)`, and the `k`-th tick shows frame
   * `(k mod (speedup * |frames|)) / speedup`.
   */
  lemma {:induction false} NowAfterTicksPeriodic(a: Animation, speedup: nat, k: nat)
    requires a.loops && |a.frames| > 0 && speedup > 0
    ensures NowAfterTicks(a, speedup, k) == k % (speedup * |a.frames|)
    ensures FrameIndex(0, NowAfterTicks(a, speedup, k), speedup) < |a.frames|
  {
    var period := speedup * |a.frames|;
    MulLe(1, |a.frames|, speedup);
    if k == 0 {
      LinDivMod(period, 0, 0);
      assert NowAfterTicks(a, speedup, k) == 0 == k % period;
    } else {
      NowAfterTicksPeriodic(a, speedup, k - 1);
      var n := (k - 1) % period;
      ModSucc(period, k - 1);
      assert NowAfterTicks(a, speedup, k) == NextNow(a, 0, n, speedup);
      IsFinishedIff(a, 0, n + 1, speedup);
      assert NowAfterTicks(a, speedup, k) == k % period;
    }
    ModSucc(period, k);
    IsFinishedIff(a, 0, NowAfterTicks(a, speedup, k), speedup);
  }

  /** A looping single-frame animation shows its only frame on every tick. */
  lemma SingleFrameConstant(a: Animation, speedup: nat, k: nat)
    requires a.loops && |a.frames| == 1 && speedup > 0
    ensures CurrentFrame(a, 0, NowAfterTicks(a, speedup, k), speedup) == a.frames[0]
  {
    NowAfterTicksPeriodic(a, speedup, k);
  }

  /** The playback state of one animation. */
  class AnimationState {
    const startTime: nat
    var now: nat
    const action: Action
    const animation: Animation

    constructor (startTime: nat, now: nat, action: Action, animation: Animation)
      ensures this.startTime == startTime && this.now == now
      ensures this.action == action && this.animation == animation
    {
      this.startTime := startTime;
      this.now := now;
      this.action := action;
      this.animation := animation;
    }

    predicate CanTick(speedup: nat)
      reads this
    {
      TickOk(animation, startTime, now, speedup)
    }

    /** Advance the clock by one tick (wrapping a looping animation) and return the frame to show. */
    method Tick(speedup: nat) returns (r: Rect)
      requires CanTick(speedup)
      modifies this
      ensures now == NextNow(animation, startTime, old(now), speedup)
      ensures startTime <= now && FrameIndex(startTime, now, speedup) < |animation.frames|
      ensures r == CurrentFrame(animation, startTime, now, speedup)
    {
      now := now + 1;
      if IsFinished(animation, startTime, now, speedup) && animation.loops {
        now := 0;
      }
      r := CurrentFrame(animation, startTime, now, speedup);
    }
  }

  /** The animations of one sprite sheet, keyed by action. */
  class AnimationSet {
    const image: Image
    const animations: map<Action, Animation>

    constructor (image: Image, animations: map<Action, Animation>)
      ensures this.image == image && this.animations == animations
    {
      this.image := image;
      this.animations := animations;
    }

    /** The animation registered for `action`; a missing one is fatal. */
    function GetAnimation(action: Action): (r: Animation)
      requires action in animations
      ensures r in animations.Values && r == animations[action]
    {
      animations[action]
    }

    /** A new playback state for `action`, at start time 0 and clock 0. */
    method PlayAnimation(action: Action) returns (s: AnimationState)
      requires action in animations
      ensures fresh(s)
      ensures s.startTime == 0 && s.now == 0 && s.action == action && s.animation == GetAnimation(action)
    {
      s := new AnimationState(0, 0, action, animations[action]);
    }
  }
}
