/**
 * `MSGameScene`: the round in progress. It resolves the physics contacts
 * (death on a mismatched obstacle, a new mood from a pickup), keeps the score,
 * turns the power-up meter's notices into power-up effects, follows the ball
 * with the camera and resets everything between rounds.
 *
 * Rendering, particles, labels and actions are not modelled. Random draws are
 * arguments: `moodPick` chooses the pickup's offered mood, `powerPick` the
 * power-up a full meter starts.
 */
module GameScene {
  import opened Optional
  import opened Sequences
  import opened Moods
  import HexColor
  import MoodManager
  import Physics
  import GameInfo
  import ObstacleBase
  import ObstacleManager
  import MoodSwitcher
  import PowerUp
  import Ball

  const SurgeRotationMultiplier: real := 1.5
  const SlowRotationMultiplier: real := 0.5

  /**
   * The scene's size, the middle and bottom of its frame, the generator's
   * layout and the ball's start position.
   */
  datatype Config = Config(
    layout: ObstacleManager.Layout,
    width: real,
    height: real,
    frameMidX: real,
    frameMinY: real,
    ballStart: ObstacleBase.Point)

  datatype Scene = Scene(
    info: GameInfo.Info,
    manager: ObstacleManager.Manager,
    ball: Ball.Ball,
    meter: PowerUp.Meter,
    activePowerUp: Option<PowerUp.PowerUpType>,
    isInvincible: bool,
    isDead: bool,
    cameraY: real)

  /**
   * The scene after `setupScene`: a happy ball at rest at its start, the
   * camera half a screen up, an empty meter, no power-up. `isInvincible`
   * starts out true.
   */
  function NewScene(config: Config, initialMoods: seq<ActiveMood>): (s: Scene)
    ensures s.info == GameInfo.NewInfo() && s.meter == PowerUp.NewMeter()
    ensures s.manager == ObstacleManager.NewManager(initialMoods)
    ensures s.ball.mood == Some(Happy) && s.ball.position == config.ballStart && s.ball.velocity == Ball.AtRest
    ensures s.activePowerUp == None && s.isInvincible && !s.isDead && s.cameraY == config.height / 2.0
  {
    var b := Ball.NewBall().(position := config.ballStart);
    Scene(GameInfo.NewInfo(), ObstacleManager.NewManager(initialMoods), b, PowerUp.NewMeter(),
      None, true, false, config.height / 2.0)
  }

  /**
   * The scene's invariant: the generator's and the meter's invariants hold,
   * and a power-up is recorded exactly while the meter runs one.
   */
  ghost predicate Valid(s: Scene)
  {
    ObstacleManager.Valid(s.manager) && PowerUp.Valid(s.meter) &&
    (s.activePowerUp.Some? <==> s.meter.active)
  }

  lemma NewSceneValid(config: Config, initialMoods: seq<ActiveMood>)
    ensures Valid(NewScene(config, initialMoods))
  {
    ObstacleManager.NewManagerValid(initialMoods);
  }

  // ---------------------------------------------------------------------------
  // Power-ups

  /**
   * `activatePowerUp`: the power-up is recorded; a surge speeds the obstacles
   * up by 1.5, a slow-down slows them by 0.5, invincibility sets
   * `isInvincible`. Nothing else changes, and invincibility is never cleared.
   */
  function ActivatePowerUp(s: Scene, t: PowerUp.PowerUpType): (s': Scene)
    ensures s'.activePowerUp == Some(t)
    ensures t == PowerUp.Surge ==> s'.manager.rotation == ObstacleManager.SpedUp(SurgeRotationMultiplier)
    ensures t == PowerUp.Slow ==> s'.manager.rotation == ObstacleManager.SlowedDown(SlowRotationMultiplier)
    ensures t == PowerUp.Invincible ==> s'.isInvincible && s'.manager == s.manager
    ensures t != PowerUp.Invincible ==> s'.isInvincible == s.isInvincible
    ensures s'.manager == s.manager.(rotation := s'.manager.rotation)
    ensures s'.info == s.info && s'.ball == s.ball && s'.meter == s.meter && s'.isDead == s.isDead && s'.cameraY == s.cameraY
  {
    var s1 := s.(activePowerUp := Some(t));
    match t
    case Surge => s1.(manager := s1.manager.(rotation := ObstacleManager.SpedUp(SurgeRotationMultiplier)))
    case Slow => s1.(manager := s1.manager.(rotation := ObstacleManager.SlowedDown(SlowRotationMultiplier)))
    case Invincible => s1.(isInvincible := true)
  }

  /**
   * `deactivatePowerUp`: a surge or slow-down puts the rotation back to base
   * speed, invincibility clears `isInvincible`; with no power-up nothing
   * happens. Afterwards no power-up is recorded. `isInvincible` is cleared
   * only when the power-up ending is invincibility.
   */
  function DeactivatePowerUp(s: Scene): (s': Scene)
    ensures s'.activePowerUp == None
    ensures s.activePowerUp == None ==> s' == s
    ensures s.activePowerUp == Some(PowerUp.Surge) || s.activePowerUp == Some(PowerUp.Slow) ==>
      s'.manager.rotation == ObstacleManager.BaseSpeed && s'.isInvincible == s.isInvincible
    ensures s.activePowerUp == Some(PowerUp.Invincible) ==> !s'.isInvincible && s'.manager == s.manager
    ensures s'.manager == s.manager.(rotation := s'.manager.rotation)
    ensures s'.info == s.info && s'.ball == s.ball && s'.meter == s.meter && s'.isDead == s.isDead && s'.cameraY == s.cameraY
  {
    var s1 :=
      match s.activePowerUp
      case Some(Surge) => s.(manager := s.manager.(rotation := ObstacleManager.BaseSpeed))
      case Some(Slow) => s.(manager := s.manager.(rotation := ObstacleManager.BaseSpeed))
      case Some(Invincible) => s.(isInvincible := false)
      case None => s;
    s1.(activePowerUp := None)
  }

  /**
   * Starting a power-up and ending it again restores the scene, except that
   * the obstacles turn at base speed after a surge or slow-down, and that
   * `isInvincible` is false after invincibility.
   */
  lemma ActivateThenDeactivate(s: Scene, t: PowerUp.PowerUpType)
    requires s.activePowerUp == None
    ensures var s' := DeactivatePowerUp(ActivatePowerUp(s, t));
      s'.activePowerUp == None && s'.info == s.info && s'.ball == s.ball && s'.meter == s.meter &&
      (t == PowerUp.Invincible ==> s' == s.(isInvincible := false)) &&
      (t != PowerUp.Invincible ==> s' == s.(manager := s.manager.(rotation := ObstacleManager.BaseSpeed)))
  {
  }

  /** `powerUpActivated`: the power-up `pick` selects among all three is started. */
  function PowerUpActivated(s: Scene, pick: nat): (s': Scene)
    ensures s'.activePowerUp.Some? && s'.activePowerUp.value in PowerUp.AllPowerUps
    ensures s'.meter == s.meter && s'.info == s.info && s'.ball == s.ball
  {
    ActivatePowerUp(s, PowerUp.AllPowerUps[pick % |PowerUp.AllPowerUps|])
  }

  /** Every power-up can be the one a full meter starts. */
  lemma EveryPowerUpCanStart(s: Scene, t: PowerUp.PowerUpType)
    ensures exists pick :: PowerUpActivated(s, pick).activePowerUp == Some(t)
  {
    var i := match t case Surge => 0 case Slow => 1 case Invincible => 2;
    assert PowerUp.AllPowerUps[i] == t;
    assert PowerUpActivated(s, i).activePowerUp == Some(t);
  }

  /** What the scene does when the meter calls it: start or end a power-up. */
  function HandleNotice(s: Scene, n: PowerUp.Notice, pick: nat): (s': Scene)
    ensures n == PowerUp.Quiet ==> s' == s
    ensures n == PowerUp.Activated ==> s'.activePowerUp.Some?
    ensures n == PowerUp.Deactivated ==> s'.activePowerUp.None?
    ensures s'.manager == s.manager.(rotation := s'.manager.rotation)
    ensures s'.info == s.info && s'.ball == s.ball && s'.meter == s.meter && s'.isDead == s.isDead && s'.cameraY == s.cameraY
    ensures s'.isInvincible != s.isInvincible ==>
      (n == PowerUp.Activated && s'.isInvincible) || (n == PowerUp.Deactivated && s.activePowerUp == Some(PowerUp.Invincible))
  {
    match n
    case Quiet => s
    case Activated => PowerUpActivated(s, pick)
    case Deactivated => DeactivatePowerUp(s)
  }

  // ---------------------------------------------------------------------------
  // Score

  /**
   * One `increaseProgress(for:)` on the meter, with its notice handled: the
   * meter is the meter credited once, and besides it only the power-up state
   * and the rotation can change.
   */
  function Credit(s: Scene, mood: Mood, pick: nat): (s': Scene)
    ensures s'.meter == PowerUp.IncreaseProgress(s.meter, mood).0
    ensures s'.manager == s.manager.(rotation := s'.manager.rotation)
    ensures s'.info == s.info && s'.ball == s.ball && s'.isDead == s.isDead && s'.cameraY == s.cameraY
  {
    var r := PowerUp.IncreaseProgress(s.meter, mood);
    HandleNotice(s.(meter := r.0), r.1, pick)
  }

  /**
   * One `decreasePowerUpProgress()` on the meter, with its notice handled:
   * while the power-up keeps running its effects stay, and when the
   * decrement ends it, no power-up is recorded any more.
   */
  function Drain(s: Scene): (s': Scene)
    ensures s'.meter == PowerUp.DecreaseProgress(s.meter).0
    ensures s'.meter.active ==> s'.activePowerUp == s.activePowerUp && s'.isInvincible == s.isInvincible && s'.manager == s.manager
    ensures s.meter.active && !s'.meter.active ==> s'.activePowerUp.None?
    ensures s'.manager == s.manager.(rotation := s'.manager.rotation)
    ensures s'.info == s.info && s'.ball == s.ball && s'.isDead == s.isDead && s'.cameraY == s.cameraY
  {
    var r := PowerUp.DecreaseProgress(s.meter);
    // A decrement never starts a power-up, so the draw is not used.
    HandleNotice(s.(meter := r.0), r.1, 0)
  }

  /** `k` decrements: the meter is the meter decremented `k` times. */
  function DrainTimes(s: Scene, k: nat): (s': Scene)
    ensures s'.meter == PowerUp.DecreaseTimes(s.meter, k)
    ensures s'.meter.active ==> s'.activePowerUp == s.activePowerUp && s'.isInvincible == s.isInvincible && s'.manager == s.manager
    ensures s'.manager == s.manager.(rotation := s'.manager.rotation)
    ensures s'.info == s.info && s'.ball == s.ball && s'.isDead == s.isDead && s'.cameraY == s.cameraY
  {
    if k == 0 then s else Drain(DrainTimes(s, k - 1))
  }

  /**
   * `updateScore(with:mood:)`. The score rises by `n`. With no power-up
   * running and a mood given, a positive `n` credits the mood once: every
   * call of the loop reads the segment before any of their animations has
   * raised it, so together they raise it by one step, and of the activation
   * checks they queue at most one starts a power-up. With a power-up
   * running, the meter is decremented `n` times, each at once. Never both.
   * `n` is a `nat` because the Swift code's `0..<n` stops the program for a
   * negative count.
   */
  function UpdateScore(s: Scene, n: nat, mood: Option<Mood>, pick: nat): (s': Scene)
    ensures s'.info.score == s.info.score + n && s'.info.difficultyLevel == s.info.difficultyLevel
    ensures s.activePowerUp.None? && mood.Some? && n > 0 ==> s'.meter == PowerUp.IncreaseProgress(s.meter, mood.value).0
    ensures s.activePowerUp.None? && (mood.None? || n == 0) ==> s' == s.(info := s'.info)
    ensures s.activePowerUp.Some? ==> s'.meter == PowerUp.DecreaseTimes(s.meter, n)
    ensures s'.manager == s.manager.(rotation := s'.manager.rotation)
    ensures s'.ball == s.ball && s'.isDead == s.isDead && s'.cameraY == s.cameraY
  {
    var s1 := s.(info := GameInfo.IncrementScore(s.info, n));
    if s.activePowerUp.None? then
      if mood.Some? && n > 0 then Credit(s1, mood.value, pick) else s1
    else
      DrainTimes(s1, n)
  }

  lemma CreditKeepsValid(s: Scene, mood: Mood, pick: nat)
    requires Valid(s) && s.activePowerUp.None?
    ensures Valid(Credit(s, mood, pick))
  {
    PowerUp.OperationsKeepValid(s.meter, mood);
    PowerUp.CreditActivatesExactly(s.meter, mood);
  }

  lemma {:induction false} DrainKeepsValid(s: Scene, k: nat)
    requires Valid(s)
    ensures Valid(DrainTimes(s, k))
  {
    if k > 0 {
      DrainKeepsValid(s, k - 1);
      var prev := DrainTimes(s, k - 1);
      PowerUp.OperationsKeepValid(prev.meter, Happy);
    }
  }

  /**
   * What `updateScore` does to a valid scene. With no power-up, a positive
   * `n` and a mood that has a segment, the segment rises to `min(p + 30, 90)`
   * and a power-up runs afterwards exactly when that filled the last segment. With a power-up
   * running, it keeps running with `72 n` less on its ring while the ring holds
   * more than that, and is over otherwise, every segment back at 0.
   */
  lemma UpdateScoreEffect(s: Scene, n: nat, mood: Option<Mood>, pick: nat)
    requires Valid(s)
    ensures Valid(UpdateScore(s, n, mood, pick))
    ensures var s' := UpdateScore(s, n, mood, pick);
      s.activePowerUp.None? && mood.Some? && mood.value in s.meter.progress && n > 0 ==>
        s'.meter.progress == s.meter.progress[mood.value := PowerUp.Min(s.meter.progress[mood.value] + PowerUp.MoodSegmentIncrement, PowerUp.FullSegment)] &&
        (s'.activePowerUp.Some? <==> s.meter.progress[mood.value] < PowerUp.FullSegment && PowerUp.AllFull(s'.meter.progress))
    ensures var s' := UpdateScore(s, n, mood, pick);
      s.activePowerUp.Some? && PowerUp.PowerUpDecrement * n < s.meter.powerUpProgress ==>
        s'.activePowerUp == s.activePowerUp && s'.meter.progress == s.meter.progress &&
        s'.meter.powerUpProgress == s.meter.powerUpProgress - PowerUp.PowerUpDecrement * n
    ensures var s' := UpdateScore(s, n, mood, pick);
      s.activePowerUp.Some? && PowerUp.PowerUpDecrement * n >= s.meter.powerUpProgress ==>
        s'.activePowerUp.None? && !s'.meter.active &&
        forall x :: x in s'.meter.progress ==> s'.meter.progress[x] == 0
  {
    var s1 := s.(info := GameInfo.IncrementScore(s.info, n));
    assert Valid(s1);
    if s.activePowerUp.None? {
      if mood.Some? && n > 0 {
        CreditKeepsValid(s1, mood.value, pick);
        if mood.value in s.meter.progress {
          assert PowerUp.IncreaseTimes(s.meter, mood.value, 1) == PowerUp.IncreaseProgress(s.meter, mood.value).0;
          PowerUp.CreditsFillSegment(s.meter, mood.value, 1);
          PowerUp.CreditsActivateExactly(s.meter, mood.value, 1);
        }
      }
    } else {
      DrainKeepsValid(s1, n);
      if PowerUp.PowerUpDecrement * n < s.meter.powerUpProgress {
        PowerUp.DrainWhileRunning(s.meter, n);
      } else {
        PowerUp.DrainEnds(s.meter, n);
      }
    }
  }

  // ---------------------------------------------------------------------------
  // Contacts

  /**
   * The node behind a physics body: none, the ball, a shape filled with a
   * colour, the pickup at an index of the generator's list, or another node.
   */
  datatype ContactNode = NoNode | BallNode | ShapeNode(fill: HexColor.Rgba) | PickupNode(index: nat) | OtherNode

  datatype ContactBody = ContactBody(category: Physics.Mask, node: ContactNode)

  datatype Contact = Contact(bodyA: ContactBody, bodyB: ContactBody)

  /** The node of the body with category `c`, looked for in `bodyA` first. */
  function NodeOf(c: Contact, category: Physics.Mask): ContactNode
  {
    if c.bodyA.category == category then c.bodyA.node else c.bodyB.node
  }

  /** The fill colour of a shape node; other nodes have none. */
  function FillOf(n: ContactNode): (f: Option<HexColor.Rgba>)
    ensures f.Some? <==> n.ShapeNode?
  {
    if n.ShapeNode? then Some(n.fill) else None
  }

  /**
   * `handleBallObstacleCollision`. While invincible nothing happens.
   * Otherwise, when the ball touches a node whose colour does not match its
   * mood, the ball is marked dead, once. Only `isDead` can change.
   */
  function BallObstacle(s: Scene, c: Contact): (s': Scene)
    ensures s' == s || s' == s.(isDead := true)
    ensures s.isInvincible ==> s' == s
    ensures s'.isDead != s.isDead <==>
      !s.isInvincible && !s.isDead && NodeOf(c, Physics.BallMask) == BallNode &&
      NodeOf(c, Physics.ObstacleMask) != NoNode &&
      !MoodManager.IsMoodMatch(s.ball.mood, FillOf(NodeOf(c, Physics.ObstacleMask)))
  {
    var ballNode := NodeOf(c, Physics.BallMask);
    var obstacleNode := NodeOf(c, Physics.ObstacleMask);
    if s.isInvincible then s
    else if ballNode == BallNode && obstacleNode != NoNode then
      if !MoodManager.IsMoodMatch(s.ball.mood, FillOf(obstacleNode)) && !s.isDead then s.(isDead := true) else s
    else s
  }

  /** A ball touching a segment of its own mood survives; of another mood, it dies unless invincible. */
  lemma SegmentContact(s: Scene, c: Contact, n: ActiveMood)
    requires NodeOf(c, Physics.BallMask) == BallNode && NodeOf(c, Physics.ObstacleMask) == ShapeNode(Color(n))
    ensures BallObstacle(s, c).isDead <==> s.isDead || (!s.isInvincible && !Ball.HasMood(s.ball, n))
  {
    MoodManager.MatchIsMoodEquality(s.ball.mood, n);
  }

  /** The ball's mood as the pickup reads it: a missing mood counts as happy. */
  function CurrentMood(b: Ball.Ball): Mood
  {
    b.mood.GetOr(Happy)
  }

  /** The index of the pickup a ball-pickup contact names, if the guards pass. */
  function TouchedPickup(s: Scene, c: Contact): (k: Option<nat>)
    ensures k.Some? ==> k.value < |s.manager.pickups|
  {
    var ballNode := NodeOf(c, Physics.BallMask);
    var pickupNode := NodeOf(c, Physics.MoodSwitchMask);
    if ballNode == BallNode && pickupNode.PickupNode? && pickupNode.index < |s.manager.pickups| then
      Some(pickupNode.index)
    else None
  }

  /**
   * The pickup's redraw loop ends for the ball's mood. The game never
   * returns from a contact with a pickup where it does not.
   */
  predicate PickupReturns(s: Scene, c: Contact)
  {
    var k := TouchedPickup(s, c);
    k.Some? ==> MoodSwitcher.LoopEnds(MoodSwitcher.ValidMoods(s.manager.pickups[k.value]), CurrentMood(s.ball))
  }

  /** The mood the touched pickup offers the ball. */
  function Offered(s: Scene, c: Contact, moodPick: nat): Mood
    requires PickupReturns(s, c) && TouchedPickup(s, c).Some?
  {
    MoodSwitcher.GetRandomMood(s.manager.pickups[TouchedPickup(s, c).value], CurrentMood(s.ball), moodPick)
  }

  /**
   * The `isInvincible` the pickup handler reads once the score of `before`
   * is updated to `scored`. A credit's activation runs when its animation
   * completes, frames later, so with no power-up running the handler still
   * reads the flag from before the contact; a decrement ends a power-up at
   * once, so with one running it reads the flag after the update.
   */
  predicate ReadsInvincible(before: Scene, scored: Scene)
  {
    if before.activePowerUp.None? then before.isInvincible else scored.isInvincible
  }

  /**
   * `handleBallMoodSwitchCollision`. Unless the guards fail (then nothing
   * changes): the pickup offers a mood other than the ball's; the score rises
   * by one, crediting that mood or draining a running power-up; the ball
   * becomes moodless if the handler reads it as invincible, and otherwise
   * takes the offered mood, even when this very credit starts invincibility;
   * and the pickup is removed from the list.
   */
  function BallPickup(s: Scene, c: Contact, moodPick: nat, powerPick: nat): (s': Scene)
    requires PickupReturns(s, c)
    ensures TouchedPickup(s, c).None? ==> s' == s
    ensures TouchedPickup(s, c).Some? ==>
      var k := TouchedPickup(s, c).value;
      var p := s.manager.pickups[k];
      var offered := MoodSwitcher.GetRandomMood(p, CurrentMood(s.ball), moodPick);
      var scored := UpdateScore(s, 1, Some(offered), powerPick);
      s'.info.score == s.info.score + 1 &&
      s'.meter == scored.meter && s'.activePowerUp == scored.activePowerUp && s'.isInvincible == scored.isInvincible &&
      (s.activePowerUp.None? ==> s'.ball.mood == Some(if s.isInvincible then Moodless else offered)) &&
      (s.activePowerUp.Some? ==> s'.ball.mood == Some(if s'.isInvincible then Moodless else offered)) &&
      s'.manager.pickups == RemoveAt(s.manager.pickups, k) &&
      s'.manager.obstacles == s.manager.obstacles &&
      s'.ball.position == s.ball.position && s'.ball.velocity == s.ball.velocity &&
      s'.isDead == s.isDead && s'.cameraY == s.cameraY
  {
    var touched := TouchedPickup(s, c);
    if touched.None? then s
    else
      var k := touched.value;
      var offered := MoodSwitcher.GetRandomMood(s.manager.pickups[k], CurrentMood(s.ball), moodPick);
      var s1 := UpdateScore(s, 1, Some(offered), powerPick);
      var mood := if ReadsInvincible(s, s1) then Moodless else offered;
      s1.(ball := Ball.ChangeMood(s1.ball, Some(mood), 0),
          manager := s1.manager.(pickups := RemoveAt(s1.manager.pickups, k)))
  }

  /**
   * On a valid scene every pickup contact returns, and a ball the handler
   * does not read as invincible ends with a mood other than the one it had,
   * including when its credit starts invincibility.
   */
  lemma PickupGivesANewMood(s: Scene, c: Contact, moodPick: nat, powerPick: nat)
    requires Valid(s)
    ensures PickupReturns(s, c)
    ensures TouchedPickup(s, c).Some? ==>
      var scored := UpdateScore(s, 1, Some(Offered(s, c, moodPick)), powerPick);
      !ReadsInvincible(s, scored) ==> BallPickup(s, c, moodPick, powerPick).ball.mood != Some(CurrentMood(s.ball))
  {
    var k := TouchedPickup(s, c);
    if k.Some? {
      ObstacleManager.EveryPickupOffersANewMood(s.manager, k.value, CurrentMood(s.ball), moodPick);
    }
  }

  /** The OR of the two categories selects the handler. */
  predicate IsBallObstacle(c: Contact)
  {
    c.bodyA.category | c.bodyB.category == Physics.BallMask | Physics.ObstacleMask
  }

  predicate IsBallPickup(c: Contact)
  {
    c.bodyA.category | c.bodyB.category == Physics.BallMask | Physics.MoodSwitchMask
  }

  /**
   * `didBegin`: a ball-obstacle contact goes to the obstacle handler, a
   * ball-pickup contact to the pickup handler; every other pair, the ball on
   * the ledge included, changes nothing.
   */
  function DidBegin(s: Scene, c: Contact, moodPick: nat, powerPick: nat): (s': Scene)
    requires IsBallPickup(c) ==> PickupReturns(s, c)
    ensures IsBallObstacle(c) ==> s' == BallObstacle(s, c)
    ensures IsBallPickup(c) ==> s' == BallPickup(s, c, moodPick, powerPick)
    ensures !IsBallObstacle(c) && !IsBallPickup(c) ==> s' == s
  {
    Physics.BallPairMasksDistinct();
    if IsBallObstacle(c) then BallObstacle(s, c)
    else if IsBallPickup(c) then BallPickup(s, c, moodPick, powerPick)
    else s
  }

  /** The four categories the game's bodies use. */
  predicate IsCategory(m: Physics.Mask)
  {
    m == Physics.BallMask || m == Physics.ObstacleMask || m == Physics.LedgeMask || m == Physics.MoodSwitchMask
  }

  /** With game categories, the order of the two bodies does not matter. */
  lemma {:induction false} DidBeginSymmetric(s: Scene, a: ContactBody, b: ContactBody, moodPick: nat, powerPick: nat)
    requires IsCategory(a.category) && IsCategory(b.category)
    requires IsBallPickup(Contact(a, b)) ==> PickupReturns(s, Contact(a, b))
    ensures IsBallPickup(Contact(b, a)) ==> PickupReturns(s, Contact(b, a))
    ensures DidBegin(s, Contact(a, b), moodPick, powerPick) == DidBegin(s, Contact(b, a), moodPick, powerPick)
  {
    var ab := Contact(a, b);
    var ba := Contact(b, a);
    assert a.category | b.category == b.category | a.category;
    if IsBallObstacle(ab) {
      assert NodeOf(ab, Physics.BallMask) == NodeOf(ba, Physics.BallMask);
      assert NodeOf(ab, Physics.ObstacleMask) == NodeOf(ba, Physics.ObstacleMask);
    } else if IsBallPickup(ab) {
      assert NodeOf(ab, Physics.BallMask) == NodeOf(ba, Physics.BallMask);
      assert NodeOf(ab, Physics.MoodSwitchMask) == NodeOf(ba, Physics.MoodSwitchMask);
    }
  }

  /** On a valid scene every contact is handled, and the scene stays valid. */
  lemma DidBeginKeepsValid(s: Scene, c: Contact, moodPick: nat, powerPick: nat)
    requires Valid(s)
    ensures PickupReturns(s, c)
    ensures Valid(DidBegin(s, c, moodPick, powerPick))
  {
    PickupGivesANewMood(s, c, moodPick, powerPick);
    var k := TouchedPickup(s, c);
    if IsBallPickup(c) && !IsBallObstacle(c) && k.Some? {
      var offered := MoodSwitcher.GetRandomMood(s.manager.pickups[k.value], CurrentMood(s.ball), moodPick);
      UpdateScoreEffect(s, 1, Some(offered), powerPick);
      var s1 := UpdateScore(s, 1, Some(offered), powerPick);
      ObstacleManager.RemovePickupKeepsValid(s1.manager, k.value);
    }
  }

  // ---------------------------------------------------------------------------
  // Camera and reset

  /**
   * The camera part of `update`: the camera follows a ball above its centre
   * and never moves down; a ball more than half a screen below the centre is
   * marked dead, once.
   */
  function UpdateCamera(s: Scene, config: Config): (s': Scene)
    ensures s'.cameraY >= s.cameraY
    ensures s'.cameraY == s.cameraY || s'.cameraY == s.ball.position.y
    ensures s'.isDead <==> s.isDead || s.ball.position.y - s.cameraY < -config.height / 2.0
    ensures s' == s.(cameraY := s'.cameraY, isDead := s'.isDead)
  {
    var rel := s.ball.position.y - s.cameraY;
    var cameraY := if rel > 0.0 then s.ball.position.y else s.cameraY;
    var isDead := if rel < -config.height / 2.0 && !s.isDead then true else s.isDead;
    s.(cameraY := cameraY, isDead := isDead)
  }

  /**
   * `reset`: the generator's lists are emptied, any power-up ends, the ball
   * is back at its start, at rest and moodless, the camera is back half a
   * screen up, the score is 0 and the meter is idle with every segment at 0.
   */
  function Reset(s: Scene, config: Config): (s': Scene)
    ensures s'.manager.obstacles == [] && s'.manager.pickups == [] && s'.manager.lastY == 0.0
    ensures s'.activePowerUp == None && !s'.isDead && s'.info.score == 0
    ensures s'.ball.mood == Some(Moodless) && s'.ball.position == config.ballStart && s'.ball.velocity == Ball.AtRest
    ensures s'.cameraY == config.height / 2.0
    ensures !s'.meter.active && s'.meter.progress.Keys == s.meter.progress.Keys
    ensures forall x :: x in s'.meter.progress ==> s'.meter.progress[x] == 0
    ensures s.activePowerUp != Some(PowerUp.Invincible) ==> s'.isInvincible == s.isInvincible
  {
    var s1 := DeactivatePowerUp(s.(manager := ObstacleManager.Reset(s.manager)));
    var b := Ball.ChangeMood(s1.ball, Some(Moodless), 0).(position := config.ballStart, velocity := Ball.AtRest);
    var s2 := s1.(isDead := false, ball := b, cameraY := config.height / 2.0, info := GameInfo.Reset(s1.info));
    var r := PowerUp.ResetMeter(s2.meter);
    // No power-up is recorded any more, so the notice the reset sends changes nothing.
    HandleNotice(s2.(meter := r.0), r.1, 0)
  }

  /** What `reset` does to the generator and the meter does not depend on the ball. */
  lemma ResetIgnoresBall(s: Scene, b: Ball.Ball, config: Config)
    ensures Reset(s.(ball := b), config).manager == Reset(s, config).manager
    ensures Reset(s.(ball := b), config).meter == Reset(s, config).meter
  {
  }

  lemma ResetKeepsValid(s: Scene, config: Config)
    requires Valid(s)
    ensures Valid(Reset(s, config))
  {
    ObstacleManager.ResetValid(s.manager);
    PowerUp.OperationsKeepValid(s.meter, Happy);
  }

  /** The generator's per-frame update, run on the scene's manager. */
  function UpdateObstacles(s: Scene, config: Config, pick: nat, picks: seq<nat>): (s': Scene)
    requires |picks| == 4
    ensures s'.manager == ObstacleManager.UpdateObstacles(s.manager, config.layout, s.ball.position.y, pick, picks)
    ensures s' == s.(manager := s'.manager)
  {
    s.(manager := ObstacleManager.UpdateObstacles(s.manager, config.layout, s.ball.position.y, pick, picks))
  }

  lemma UpdateObstaclesKeepsValid(s: Scene, config: Config, pick: nat, picks: seq<nat>)
    requires Valid(s) && |picks| == 4
    ensures Valid(UpdateObstacles(s, config, pick, picks))
  {
    ObstacleManager.UpdateKeepsValid(s.manager, config.layout, s.ball.position.y, pick, picks);
  }
}
