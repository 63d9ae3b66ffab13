/**
 * `MSStartState`, `MSPlayState` and `MSGameOverState` under GameplayKit's
 * state machine: the title screen with its scripted taps, the round, and the
 * game-over screen, entered in the single cycle Start, Play, GameOver.
 *
 * Entering a state runs the current state's `willExit` and then the new
 * state's `didEnter`; a transition the current state does not allow changes
 * nothing. A frame runs the state's `update` and then the scene's camera
 * check; a death requests the game-over screen at once. The physics engine
 * is not modelled: the ball's position is an input.
 */
module GameStates {
  import opened Optional
  import opened Moods
  import ObstacleBase
  import ObstacleManager
  import Ball
  import GameScene

  datatype Phase = Start | Play | GameOver

  /**
   * The game: the current state, the scene, and the start state's own
   * `tapCount` and `lastTapTime`.
   */
  datatype Game = Game(phase: Phase, scene: GameScene.Scene, tapCount: nat, lastTapTime: real)

  /**
   * The random draws one step may use: the next shape, the mood shuffle of a
   * new obstacle, the pickup's offered mood and the power-up a full meter
   * starts.
   */
  datatype Draws = Draws(shape: nat, moods: seq<nat>, mood: nat, powerUp: nat)

  predicate WellFormed(d: Draws)
  {
    |d.moods| == 4
  }

  /** The start screen's tap cooldown, in seconds. */
  const CooldownDuration: real := 0.7

  /** `isValidNextState` of each state. */
  predicate ValidNext(from: Phase, to: Phase)
  {
    match from
    case Start => to == Play
    case Play => to == GameOver
    case GameOver => to == Start
  }

  /** The state that follows `p` in the cycle. */
  function Successor(p: Phase): Phase
  {
    match p
    case Start => Play
    case Play => GameOver
    case GameOver => Start
  }

  /**
   * Each state allows exactly one next state, never itself, and three steps
   * lead back: the states form the single cycle Start, Play, GameOver.
   */
  lemma SingleCycle(p: Phase, q: Phase)
    ensures ValidNext(p, q) <==> q == Successor(p)
    ensures !ValidNext(p, p)
    ensures Successor(Successor(Successor(p))) == p
    ensures Successor(p) != p && Successor(Successor(p)) != p
  {
  }

  /** `resetState` of the start state: no taps yet. */
  function ResetTaps(g: Game): (g': Game)
    ensures g'.tapCount == 0 && g'.lastTapTime == 0.0
    ensures g'.phase == g.phase && g'.scene == g.scene
  {
    g.(tapCount := 0, lastTapTime := 0.0)
  }

  /**
   * `willExit` of the current state. Leaving Start resets the taps (after its
   * fade-out in the game, here at once); leaving Play empties the
   * generator's lists; leaving GameOver puts the ball at the middle of the
   * frame's bottom, at rest and no longer falling.
   */
  function WillExit(g: Game, config: GameScene.Config): (g': Game)
    ensures g'.phase == g.phase
    ensures g.phase == Start ==> g' == ResetTaps(g)
    ensures g.phase == Play ==>
      g'.scene.manager.obstacles == [] && g'.scene.manager.pickups == [] &&
      g'.scene == g.scene.(manager := g'.scene.manager)
    ensures g.phase == GameOver ==>
      g'.scene.ball.position == ObstacleBase.Point(config.frameMidX, config.frameMinY) &&
      g'.scene.ball.velocity == Ball.AtRest && !g'.scene.ball.affectedByGravity &&
      g'.scene.ball.mood == g.scene.ball.mood && g'.scene == g.scene.(ball := g'.scene.ball)
  {
    match g.phase
    case Start => ResetTaps(g)
    case Play => g.(scene := g.scene.(manager := ObstacleManager.Reset(g.scene.manager)))
    case GameOver =>
      var b := g.scene.ball.(position := ObstacleBase.Point(config.frameMidX, config.frameMinY),
                              velocity := Ball.AtRest, affectedByGravity := false);
      g.(scene := g.scene.(ball := b))
  }

  /**
   * `didEnter` of Start: the taps are reset, the generator runs once for the
   * ball's height, and its last position is then set to the first obstacle's
   * position whatever it spawned.
   */
  function EnterStart(g: Game, config: GameScene.Config, d: Draws): (g': Game)
    requires WellFormed(d)
    ensures g'.phase == Start && g'.tapCount == 0 && g'.lastTapTime == 0.0
    ensures g'.scene.manager.lastY == config.layout.firstObstacleY
    ensures g'.scene.ball == g.scene.ball && g'.scene.info == g.scene.info && g'.scene.meter == g.scene.meter
    ensures var u := ObstacleManager.UpdateObstacles(g.scene.manager, config.layout, g.scene.ball.position.y, d.shape, d.moods);
      g'.scene.manager == u.(lastY := config.layout.firstObstacleY)
  {
    var s := GameScene.UpdateObstacles(g.scene, config, d.shape, d.moods);
    ResetTaps(g).(phase := Start, scene := s.(manager := s.manager.(lastY := config.layout.firstObstacleY)))
  }

  /**
   * `didEnter` of Play: the ball is made to fall and stopped, the scene is
   * reset (which puts the ball back at its start, moodless), the generator's
   * last position is set 100 points below the ball, the generator runs once,
   * and the ball becomes happy.
   */
  function EnterPlay(g: Game, config: GameScene.Config, d: Draws): (g': Game)
    requires WellFormed(d)
    ensures g'.phase == Play && g'.tapCount == g.tapCount && g'.lastTapTime == g.lastTapTime
    ensures g'.scene.ball.mood == Some(Happy) && g'.scene.ball.position == config.ballStart
    ensures g'.scene.ball.velocity == Ball.AtRest && g'.scene.ball.affectedByGravity
    ensures !g'.scene.isDead && g'.scene.info.score == 0 && g'.scene.activePowerUp == None && !g'.scene.meter.active
    ensures forall x :: x in g'.scene.meter.progress ==> g'.scene.meter.progress[x] == 0
    ensures var r := GameScene.Reset(g.scene, config);
      g'.scene.manager == ObstacleManager.UpdateObstacles(r.manager.(lastY := config.ballStart.y - 100.0),
        config.layout, config.ballStart.y, d.shape, d.moods) &&
      g'.scene.meter == r.meter
  {
    var b := g.scene.ball.(affectedByGravity := true, velocity := Ball.AtRest,
                           position := ObstacleBase.Point(config.frameMidX, config.frameMinY + 200.0));
    var s1 := GameScene.Reset(g.scene.(ball := b), config);
    var s2 := s1.(manager := s1.manager.(lastY := s1.ball.position.y - 100.0));
    var s3 := GameScene.UpdateObstacles(s2, config, d.shape, d.moods);
    GameScene.ResetIgnoresBall(g.scene, b, config);
    g.(phase := Play, scene := s3.(ball := s3.ball.(mood := Some(Happy))))
  }

  /**
   * GameplayKit's `enter`: a transition the current state does not allow
   * changes nothing; otherwise the current state's `willExit` runs, then the
   * new state's `didEnter` (GameOver's only draws labels).
   */
  function Enter(g: Game, next: Phase, config: GameScene.Config, d: Draws): (g': Game)
    requires WellFormed(d)
    ensures !ValidNext(g.phase, next) ==> g' == g
    ensures ValidNext(g.phase, next) ==> g'.phase == next
    ensures ValidNext(g.phase, next) && next == GameOver ==> g' == WillExit(g, config).(phase := GameOver)
  {
    if !ValidNext(g.phase, next) then g
    else
      var e := WillExit(g, config);
      match next
      case Start => EnterStart(e, config, d)
      case Play => EnterPlay(e, config, d)
      case GameOver => e.(phase := GameOver)
  }

  /** The game when the scene appears: a new scene, then Start entered. */
  function NewGame(config: GameScene.Config, initialMoods: seq<ActiveMood>, d: Draws): (g: Game)
    requires WellFormed(d)
    ensures g.phase == Start && g.tapCount == 0 && g.lastTapTime == 0.0
    ensures g.scene.isInvincible && g.scene.ball.mood == Some(Happy)
  {
    EnterStart(Game(Start, GameScene.NewScene(config, initialMoods), 0, 0.0), config, d)
  }

  // ---------------------------------------------------------------------------
  // Taps

  /** The moods the first four accepted taps on the start screen give the ball. */
  function ScriptedMood(tapCount: nat): (m: Option<Mood>)
    ensures m.Some? <==> tapCount < 4
  {
    if tapCount == 0 then Some(Happy)
    else if tapCount == 1 then Some(Sad)
    else if tapCount == 2 then Some(Angry)
    else if tapCount == 3 then Some(InLove)
    else None
  }

  /**
   * `handleTap`: taps 0 to 3 set the scripted mood (only on a ball that has
   * a mood), every tap jumps, double for the first four and normal after,
   * and the count goes up by one.
   */
  function HandleTap(g: Game): (g': Game)
    ensures g'.tapCount == g.tapCount + 1
    ensures g'.scene.ball.velocity == Ball.Launched(if g.tapCount < 4 then Ball.Double else Ball.Normal)
    ensures g.tapCount < 4 && g.scene.ball.mood.Some? ==> g'.scene.ball.mood == ScriptedMood(g.tapCount)
    ensures g.tapCount >= 4 || g.scene.ball.mood.None? ==> g'.scene.ball.mood == g.scene.ball.mood
    ensures g'.scene.ball.position == g.scene.ball.position
    ensures g'.scene == g.scene.(ball := g'.scene.ball)
    ensures g'.phase == g.phase && g'.lastTapTime == g.lastTapTime
  {
    var b := g.scene.ball;
    var mood := ScriptedMood(g.tapCount);
    var b1 := if mood.Some? && b.mood.Some? then Ball.ChangeMood(b, mood, 0) else b;
    var b2 := Ball.Jump(b1, if g.tapCount < 4 then Ball.Double else Ball.Normal);
    g.(scene := g.scene.(ball := b2), tapCount := g.tapCount + 1)
  }

  /**
   * `touchesBegan` of Start at time `now`: while fewer than five taps were
   * taken, a tap counts only 0.7 s or more after the last one that counted;
   * from the fifth on, every tap counts.
   */
  function StartTap(g: Game, now: real): (g': Game)
    ensures g'.tapCount == g.tapCount + 1 <==> g.tapCount >= 5 || now - g.lastTapTime >= CooldownDuration
    ensures !(g.tapCount >= 5 || now - g.lastTapTime >= CooldownDuration) ==> g' == g
    ensures g.tapCount < 5 && now - g.lastTapTime >= CooldownDuration ==> g' == HandleTap(g.(lastTapTime := now))
    ensures g.tapCount >= 5 ==> g' == HandleTap(g)
  {
    if g.tapCount < 5 then
      if now - g.lastTapTime >= CooldownDuration then HandleTap(g.(lastTapTime := now)) else g
    else HandleTap(g)
  }

  /**
   * A tap: on the start screen as above; during play the ball jumps and
   * nothing else changes; on the game-over screen the start screen is entered.
   */
  function Tap(g: Game, now: real, config: GameScene.Config, d: Draws): (g': Game)
    requires WellFormed(d)
    ensures g.phase == Start ==> g' == StartTap(g, now)
    ensures g.phase == Play ==> g' == g.(scene := g.scene.(ball := Ball.Jump(g.scene.ball, Ball.Plain)))
    ensures g.phase == GameOver ==> g'.phase == Start && g'.tapCount == 0
  {
    match g.phase
    case Start => StartTap(g, now)
    case Play => g.(scene := g.scene.(ball := Ball.Jump(g.scene.ball, Ball.Plain)))
    case GameOver => Enter(g, Start, config, d)
  }

  // ---------------------------------------------------------------------------
  // Frames and contacts

  /** The physics engine has moved the ball to `p`; nothing else changes. */
  function BallMoved(g: Game, p: ObstacleBase.Point): (g': Game)
    ensures g'.scene.ball.position == p
    ensures g'.scene.ball == g.scene.ball.(position := p)
    ensures g' == g.(scene := g.scene.(ball := g'.scene.ball))
  {
    g.(scene := g.scene.(ball := g.scene.ball.(position := p)))
  }

  /** The start screen hands over to play once the first obstacle is within three quarters of a screen above the ball. */
  predicate FirstObstacleClose(s: GameScene.Scene, config: GameScene.Config)
  {
    |s.manager.obstacles| > 0 &&
    s.manager.obstacles[0].position.y - s.ball.position.y < config.height * 0.75
  }

  /**
   * The state's `update`: Start enters Play when the first obstacle is
   * close; Play runs the generator for the ball's height and does nothing
   * else; GameOver does nothing.
   */
  function StateUpdate(g: Game, config: GameScene.Config, d: Draws): (g': Game)
    requires WellFormed(d)
    ensures g.phase == Start ==> (g'.phase == Play <==> FirstObstacleClose(g.scene, config))
    ensures g.phase == Start && !FirstObstacleClose(g.scene, config) ==> g' == g
    ensures g.phase == Play ==> g' == g.(scene := g.scene.(manager := g'.scene.manager))
    ensures g.phase == Play ==>
      g'.scene.manager == ObstacleManager.UpdateObstacles(g.scene.manager, config.layout, g.scene.ball.position.y, d.shape, d.moods)
    ensures g.phase == GameOver ==> g' == g
  {
    match g.phase
    case Start => if FirstObstacleClose(g.scene, config) then Enter(g, Play, config, d) else g
    case Play => g.(scene := GameScene.UpdateObstacles(g.scene, config, d.shape, d.moods))
    case GameOver => g
  }

  /** A step of the scene marked the ball dead. */
  predicate Died(before: GameScene.Scene, after: GameScene.Scene)
  {
    !before.isDead && after.isDead
  }

  /**
   * After a step: a death requests the game-over screen, which only Play
   * allows.
   */
  function AfterDeath(g: Game, before: GameScene.Scene, config: GameScene.Config, d: Draws): (g': Game)
    requires WellFormed(d)
    ensures Died(before, g.scene) && g.phase == Play ==> g'.phase == GameOver
    ensures !(Died(before, g.scene) && g.phase == Play) ==> g' == g
  {
    if Died(before, g.scene) then Enter(g, GameOver, config, d) else g
  }

  /**
   * A frame: the state's update, then the scene's camera and fall check on
   * the scene that update left; a fall during play then ends the round,
   * emptying the generator's lists, even in the frame that entered Play.
   */
  function Frame(g: Game, config: GameScene.Config, d: Draws): (g': Game)
    requires WellFormed(d)
    ensures var u := StateUpdate(g, config, d);
      var cam := GameScene.UpdateCamera(u.scene, config);
      var ends := u.phase == Play && Died(u.scene, cam);
      g'.phase == (if ends then GameOver else u.phase) &&
      g'.scene.manager == (if ends then ObstacleManager.Reset(u.scene.manager) else u.scene.manager) &&
      g'.scene == cam.(manager := g'.scene.manager) &&
      g'.tapCount == u.tapCount && g'.lastTapTime == u.lastTapTime
  {
    var u := StateUpdate(g, config, d);
    var c := u.(scene := GameScene.UpdateCamera(u.scene, config));
    AfterDeath(c, u.scene, config, d)
  }

  /**
   * A contact reported by the physics engine, resolved by the scene; a death
   * it causes during play ends the round at once, emptying the generator's
   * lists, while in any other state the state stays.
   */
  function Contact(g: Game, c: GameScene.Contact, config: GameScene.Config, d: Draws): (g': Game)
    requires WellFormed(d)
    requires GameScene.IsBallPickup(c) ==> GameScene.PickupReturns(g.scene, c)
    ensures var s := GameScene.DidBegin(g.scene, c, d.mood, d.powerUp);
      var ends := g.phase == Play && Died(g.scene, s);
      g'.phase == (if ends then GameOver else g.phase) &&
      g'.scene == (if ends then s.(manager := ObstacleManager.Reset(s.manager)) else s) &&
      g'.tapCount == g.tapCount && g'.lastTapTime == g.lastTapTime
  {
    var s := GameScene.DidBegin(g.scene, c, d.mood, d.powerUp);
    AfterDeath(g.(scene := s), g.scene, config, d)
  }

  /**
   * During play, a fall below the screen or a mismatched obstacle ends the
   * round: the game is over and the generator's lists are empty. On the
   * start screen the same death leaves the state alone.
   */
  lemma DeathEndsTheRound(g: Game, c: GameScene.Contact, config: GameScene.Config, d: Draws)
    requires WellFormed(d) && g.phase != GameOver
    requires GameScene.IsBallPickup(c) ==> GameScene.PickupReturns(g.scene, c)
    ensures var g' := Contact(g, c, config, d);
      Died(g.scene, g'.scene) ==>
        (g.phase == Play ==> g'.phase == GameOver && g'.scene.manager.obstacles == [] && g'.scene.manager.pickups == []) &&
        (g.phase == Start ==> g'.phase == Start)
    ensures g.phase == Play && Died(StateUpdate(g, config, d).scene, GameScene.UpdateCamera(StateUpdate(g, config, d).scene, config)) ==>
      Frame(g, config, d).phase == GameOver
  {
  }

  /**
   * The round starts with exactly one obstacle, a circle at the first
   * position, and no pickup, provided the spacing exceeds -50 (so the
   * generator spawns) and the first position is not pruned at once.
   */
  lemma PlayStartsWithOneCircle(g: Game, config: GameScene.Config, d: Draws)
    requires WellFormed(d) && g.phase == Start
    requires config.layout.obstacleSpacing > -50.0
    requires config.layout.firstObstacleY + 200.0 >= config.ballStart.y - config.layout.frameHeight
    ensures var g' := Enter(g, Play, config, d);
      g'.phase == Play && |g'.scene.manager.obstacles| == 1 &&
      g'.scene.manager.obstacles[0].kind == ObstacleBase.Circle &&
      g'.scene.manager.obstacles[0].position.y == config.layout.firstObstacleY &&
      g'.scene.manager.pickups == [] && g'.scene.ball.mood == Some(Happy)
  {
    var e := WillExit(g, config);
    assert Enter(g, Play, config, d) == EnterPlay(e, config, d);
    var r := GameScene.Reset(e.scene, config);
    ObstacleManager.FirstUpdateSpawnsOneCircle(r.manager.(lastY := config.ballStart.y - 100.0),
      config.layout, config.ballStart.y, d.shape, d.moods);
  }

  // ---------------------------------------------------------------------------
  // The invariant

  /** The game's invariant is the scene's. */
  ghost predicate Valid(g: Game)
  {
    GameScene.Valid(g.scene)
  }

  lemma NewGameValid(config: GameScene.Config, initialMoods: seq<ActiveMood>, d: Draws)
    requires WellFormed(d)
    ensures Valid(NewGame(config, initialMoods, d))
  {
    var s := GameScene.NewScene(config, initialMoods);
    GameScene.NewSceneValid(config, initialMoods);
    GameScene.UpdateObstaclesKeepsValid(s, config, d.shape, d.moods);
  }

  /** Leaving any state keeps the invariant. */
  lemma WillExitKeepsValid(g: Game, config: GameScene.Config)
    requires Valid(g)
    ensures Valid(WillExit(g, config))
  {
    if g.phase == Play {
      ObstacleManager.ResetValid(g.scene.manager);
    }
  }

  /** Entering Play keeps the invariant. */
  lemma EnterPlayKeepsValid(g: Game, config: GameScene.Config, d: Draws)
    requires Valid(g) && WellFormed(d)
    ensures Valid(EnterPlay(g, config, d))
  {
    GameScene.ResetKeepsValid(g.scene, config);
    var r := GameScene.Reset(g.scene, config);
    var m := r.manager.(lastY := config.ballStart.y - 100.0);
    assert ObstacleManager.Valid(m);
    ObstacleManager.UpdateKeepsValid(m, config.layout, config.ballStart.y, d.shape, d.moods);
  }

  lemma EnterKeepsValid(g: Game, next: Phase, config: GameScene.Config, d: Draws)
    requires Valid(g) && WellFormed(d)
    ensures Valid(Enter(g, next, config, d))
  {
    if ValidNext(g.phase, next) {
      var e := WillExit(g, config);
      WillExitKeepsValid(g, config);
      if next == Start {
        GameScene.UpdateObstaclesKeepsValid(e.scene, config, d.shape, d.moods);
      } else if next == Play {
        EnterPlayKeepsValid(e, config, d);
      }
    }
  }

  /** A tap keeps the invariant. */
  lemma TapKeepsValid(g: Game, now: real, config: GameScene.Config, d: Draws)
    requires Valid(g) && WellFormed(d)
    ensures Valid(Tap(g, now, config, d))
  {
    EnterKeepsValid(g, Start, config, d);
  }

  /** A frame keeps the invariant. */
  lemma FrameKeepsValid(g: Game, config: GameScene.Config, d: Draws)
    requires Valid(g) && WellFormed(d)
    ensures Valid(Frame(g, config, d))
  {
    if g.phase == Play {
      GameScene.UpdateObstaclesKeepsValid(g.scene, config, d.shape, d.moods);
    } else if g.phase == Start {
      EnterKeepsValid(g, Play, config, d);
    }
    var u := StateUpdate(g, config, d);
    var cam := u.(scene := GameScene.UpdateCamera(u.scene, config));
    EnterKeepsValid(cam, GameOver, config, d);
  }

  /** On a valid game every contact is handled, and handling it keeps the invariant. */
  lemma ContactKeepsValid(g: Game, c: GameScene.Contact, config: GameScene.Config, d: Draws)
    requires Valid(g) && WellFormed(d)
    ensures GameScene.IsBallPickup(c) ==> GameScene.PickupReturns(g.scene, c)
    ensures Valid(Contact(g, c, config, d))
  {
    GameScene.DidBeginKeepsValid(g.scene, c, d.mood, d.powerUp);
    EnterKeepsValid(g.(scene := GameScene.DidBegin(g.scene, c, d.mood, d.powerUp)), GameOver, config, d);
  }

  /** Every input keeps the invariant, and on a valid game every contact is handled. */
  lemma StepsKeepValid(g: Game, now: real, c: GameScene.Contact, p: ObstacleBase.Point, config: GameScene.Config, d: Draws)
    requires Valid(g) && WellFormed(d)
    ensures Valid(Tap(g, now, config, d))
    ensures Valid(BallMoved(g, p))
    ensures Valid(Frame(g, config, d))
    ensures GameScene.IsBallPickup(c) ==> GameScene.PickupReturns(g.scene, c)
    ensures Valid(Contact(g, c, config, d))
  {
    TapKeepsValid(g, now, config, d);
    FrameKeepsValid(g, config, d);
    ContactKeepsValid(g, c, config, d);
  }
}
