/** The eight things a sprite can be doing: standing or walking, facing one of four ways. */
module Actions {
  import opened Types

  datatype Action = StandD | StandU | StandL | StandR | WalkD | WalkU | WalkL | WalkR

  predicate IsStanding(a: Action)
  {
    a.StandD? || a.StandU? || a.StandL? || a.StandR?
  }

  /** The standing action facing `dir`. */
  function Stand(dir: int): (a: Action)
    requires IsDir(dir)
    ensures IsStanding(a)
    ensures dir == DOWN ==> a == StandD
    ensures dir == UP ==> a == StandU
    ensures dir == LEFT ==> a == StandL
    ensures dir == RIGHT ==> a == StandR
  {
    match dir
    case 0 => StandD
    case 1 => StandU
    case 2 => StandL
    case 3 => StandR
  }

  /** The walking action facing `dir`. */
  function WalkIn(dir: int): (a: Action)
    requires IsDir(dir)
    ensures !IsStanding(a)
    ensures dir == DOWN ==> a == WalkD
    ensures dir == UP ==> a == WalkU
    ensures dir == LEFT ==> a == WalkL
    ensures dir == RIGHT ==> a == WalkR
  {
    match dir
    case 0 => WalkD
    case 1 => WalkU
    case 2 => WalkL
    case 3 => WalkR
  }

  /**
   * There are exactly eight actions: each is the standing or the walking
   * action of exactly one direction, and the two families do not overlap.
   */
  lemma ActionsByDirection(a: Action)
    ensures exists d :: IsDir(d) && (a == Stand(d) || a == WalkIn(d))
    ensures forall d, e :: IsDir(d) && IsDir(e) && Stand(d) == Stand(e) ==> d == e
    ensures forall d, e :: IsDir(d) && IsDir(e) && WalkIn(d) == WalkIn(e) ==> d == e
    ensures forall d, e :: IsDir(d) && IsDir(e) ==> Stand(d) != WalkIn(e)
  {
    match a
    case StandD => assert a == Stand(DOWN);
    case StandU => assert a == Stand(UP);
    case StandL => assert a == Stand(LEFT);
    case StandR => assert a == Stand(RIGHT);
    case WalkD => assert a == WalkIn(DOWN);
    case WalkU => assert a == WalkIn(UP);
    case WalkL => assert a == WalkIn(LEFT);
    case WalkR => assert a == WalkIn(RIGHT);
  }
}

/** A sprite: an animation in progress and a shape. */
module Sprites {
  import opened Types
  import opened Animations

  class Sprite {
    var animationState: AnimationState
    var shape: Rect

    constructor (animationState: AnimationState, shape: Rect)
      ensures this.animationState == animationState && this.shape == shape
    {
      this.animationState := animationState;
      this.shape := shape;
    }

    /** Tick the sprite's animation and return the frame to draw; only the animation state changes. */
    method PlayAnimation(speedup: nat) returns (r: Rect)
      requires animationState.CanTick(speedup)
      modifies animationState
      ensures animationState.now
              == NextNow(animationState.animation, animationState.startTime, old(animationState.now), speedup)
      ensures r == CurrentFrame(animationState.animation, animationState.startTime, animationState.now, speedup)
      ensures unchanged(this)
    {
      r := animationState.Tick(speedup);
    }
  }
}
