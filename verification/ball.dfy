/**
 * `MSBall`: the player's ball, which carries a mood and jumps.
 *
 * The physics engine is not modelled: a jump is recorded as the launch it
 * gives, which replaces whatever velocity the ball had.
 */
module Ball {
  import opened Optional
  import opened Sequences
  import opened Moods
  import opened MoodManager
  import ObstacleBase
  import Physics

  /**
   * The jumps the game asks for: `Plain` is the declared `jump()`, `Normal`
   * and `Double` the `jump(.normal)` and `jump(.doubleJump)` the start
   * screen uses.
   */
  datatype JumpKind = Plain | Normal | Double

  /** The ball's velocity: at rest, or just launched by a jump of some kind. */
  datatype Velocity = AtRest | Launched(kind: JumpKind)

  datatype Ball = Ball(
    mood: Option<Mood>,
    position: ObstacleBase.Point,
    velocity: Velocity,
    affectedByGravity: bool,
    body: Physics.Body)

  /** `init()` with `setupPhysics`: a happy ball at rest, not falling, with the ball body. */
  function NewBall(): (b: Ball)
    ensures b.mood == Some(Happy) && b.velocity == AtRest && !b.affectedByGravity
    ensures b.body.category == Physics.BallMask
    ensures b.body.contactTest == Physics.ObstacleMask | Physics.LedgeMask
    ensures b.body.collision == Physics.LedgeMask
  {
    Ball(Some(Happy), ObstacleBase.Point(0.0, 0.0), AtRest, false, Physics.BallBody)
  }

  /** `jump`: the velocity is reset before the impulse, so only the jump's kind matters. */
  function Jump(b: Ball, kind: JumpKind): (b': Ball)
    ensures b'.velocity == Launched(kind)
    ensures b'.mood == b.mood && b'.position == b.position && b'.affectedByGravity == b.affectedByGravity && b'.body == b.body
  {
    b.(velocity := Launched(kind))
  }

  /** Two balls that differ only in velocity are the same after the same jump. */
  lemma JumpForgetsVelocity(b1: Ball, b2: Ball, kind: JumpKind)
    requires b1.(velocity := AtRest) == b2.(velocity := AtRest)
    ensures Jump(b1, kind) == Jump(b2, kind)
  {
    assert b1.mood == b2.mood && b1.position == b2.position;
  }

  /** The ball currently has mood `m`. */
  predicate HasMood(b: Ball, m: Mood)
  {
    b.mood.Some? && b.mood.value == m
  }

  /**
   * The active moods a random redraw may land on: those other than the
   * ball's, in the manager's order.
   */
  function OtherMoods(b: Ball): (ms: seq<ActiveMood>)
    ensures |ms| >= 3
    ensures forall m: ActiveMood :: m in ms <==> !HasMood(b, m)
  {
    match b.mood
    case Some(Happy) => [Sad, Angry, InLove]
    case Some(Sad) => [Happy, Angry, InLove]
    case Some(Angry) => [Happy, Sad, InLove]
    case Some(InLove) => [Happy, Sad, Angry]
    case _ => ActiveMoods
  }

  /**
   * `changeMood(to:)`. A given mood is taken exactly. With none given, the
   * ball redraws until the mood differs from its own; `pick` stands for the
   * draw that ends the loop. The result is then an active mood other than
   * the ball's.
   */
  function ChangeMood(b: Ball, newMood: Option<Mood>, pick: nat): (b': Ball)
    ensures newMood.Some? ==> b'.mood == newMood
    ensures newMood.None? ==> b'.mood.Some? && b'.mood.value != Moodless && b'.mood != b.mood
    ensures b'.position == b.position && b'.velocity == b.velocity && b'.body == b.body
    ensures b'.affectedByGravity == b.affectedByGravity
  {
    if newMood.None? then
      var others := OtherMoods(b);
      var m: Mood := others[pick % |others|];
      b.(mood := Some(m))
    else
      b.(mood := newMood)
  }

  /** Every active mood other than the ball's can come out of a random change. */
  lemma ChangeMoodReachesEveryOther(b: Ball, m: ActiveMood)
    requires !HasMood(b, m)
    ensures exists pick :: HasMood(ChangeMood(b, None, pick), m)
  {
    var others := OtherMoods(b);
    var i := IndexOf(others, m);
    ModOfSmaller(i, |others|);
    var x: Mood := others[i];
    assert ChangeMood(b, None, i).mood == Some(x);
  }
}
