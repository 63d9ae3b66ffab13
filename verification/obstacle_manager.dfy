/**
 * `MSObstacleManager`: the endless track. It spawns obstacles ahead of the
 * ball, puts a mood-switch pickup between each obstacle and the one before,
 * and drops obstacles left far behind.
 *
 * The track is passable: every pickup offers at least three moods, so there
 * is always a new mood to give the ball.
 */
module ObstacleManager {
  import opened Sequences
  import opened Moods
  import opened MoodManager
  import opened ObstacleBase
  import opened MoodSwitcher
  import ObstacleCircle
  import ObstacleSquare
  import ObstacleTriangle

  /** The layout values the generator reads from the scene. */
  datatype Layout = Layout(
    obstacleSpacing: real,
    firstObstacleY: real,
    midX: real,
    frameHeight: real,
    moodSwitcherRadius: real)

  /**
   * How fast the obstacles turn, as last set through the manager's
   * `speedUpRotation(by:)`, `slowDownRotation(by:)` and `resetRotationSpeed()`.
   */
  datatype RotationMode = BaseSpeed | SpedUp(factor: real) | SlowedDown(factor: real)

  datatype Manager = Manager(
    obstacles: seq<Obstacle>,
    pickups: seq<Pickup>,
    lastType: ShapeKind,
    lastMoods: seq<ActiveMood>,
    lastY: real,
    rotation: RotationMode)

  /**
   * A new manager: no obstacles and no pickups, last shape a circle, last
   * position 0. `initialMoods` stands for `getActiveMoodSequence()`.
   */
  function NewManager(initialMoods: seq<ActiveMood>): (m: Manager)
    ensures m.obstacles == [] && m.pickups == [] && m.lastType == Circle
    ensures m.lastMoods == initialMoods && m.lastY == 0.0 && m.rotation == BaseSpeed
  {
    Manager([], [], Circle, initialMoods, 0.0, BaseSpeed)
  }

  /**
   * `reset()`: both lists are emptied and the last position goes back to 0;
   * the last shape and its moods are kept.
   */
  function Reset(m: Manager): (m': Manager)
    ensures m'.obstacles == [] && m'.pickups == [] && m'.lastY == 0.0
    ensures m'.lastType == m.lastType && m'.lastMoods == m.lastMoods && m'.rotation == m.rotation
  {
    m.(obstacles := [], pickups := [], lastY := 0.0)
  }

  /** The shapes the generator may choose after `last`: never a second triangle. */
  function Candidates(last: ShapeKind): (ks: seq<ShapeKind>)
    ensures Circle in ks && Square in ks
    ensures Triangle in ks <==> last != Triangle
    ensures forall k :: k in ks ==> k in {Circle, Square, Triangle}
  {
    if last == Triangle then [Circle, Square] else [Circle, Square, Triangle]
  }

  /**
   * The shape of the next obstacle: a circle when the list is empty,
   * otherwise the candidate `pick` selects.
   */
  function ChooseKind(m: Manager, pick: nat): (k: ShapeKind)
    ensures |m.obstacles| == 0 ==> k == Circle
    ensures |m.obstacles| > 0 ==> k in Candidates(m.lastType)
  {
    if |m.obstacles| < 1 then Circle
    else
      var ks := Candidates(m.lastType);
      ks[pick % |ks|]
  }

  /** With obstacles on the track, every candidate shape can be chosen. */
  lemma ChooseKindReachesEveryCandidate(m: Manager, k: ShapeKind)
    requires |m.obstacles| > 0 && k in Candidates(m.lastType)
    ensures exists pick :: ChooseKind(m, pick) == k
  {
    var ks := Candidates(m.lastType);
    var i :| 0 <= i < |ks| && ks[i] == k;
    assert i % |ks| == i;
    assert ChooseKind(m, i) == k;
  }

  /**
   * The moods a generated shape lists: all four for a circle or a square,
   * three different ones for a triangle.
   */
  ghost predicate ShapeMoods(kind: ShapeKind, ms: seq<ActiveMood>)
  {
    if kind == Triangle then |ms| == 3 && Distinct(ms) else IsMoodSequence(ms)
  }

  /**
   * `obstacleType.init(layoutInfo:)` followed by `setup(at:)`, for the three
   * shapes the generator uses: the new obstacle stands at `at`, lists the
   * moods its shape promises, and lists exactly the moods it is coloured with.
   */
  function Spawn(kind: ShapeKind, at: Point, picks: seq<nat>): (o: Obstacle)
    requires kind in {Circle, Square, Triangle} && |picks| == 4
    ensures o.kind == kind && o.position == at
    ensures ShapeMoods(kind, o.moods)
    ensures Elements(o.moods) == ObstacleColours(o)
  {
    var blank := NewObstacle(kind).(position := at);
    if kind == Circle then
      var o := ObstacleCircle.CreateShape(blank, picks);
      ObstacleCircle.ListsItsColours(blank, picks);
      assert o.moods[0..] == o.moods;
      o
    else if kind == Square then
      var o := ObstacleSquare.CreateShape(blank, picks);
      ObstacleSquare.ListsItsColours(blank, picks);
      assert o.moods[0..] == o.moods;
      o
    else
      var o := ObstacleTriangle.CreateShape(blank, picks);
      ObstacleTriangle.ListsItsColours(blank, picks);
      assert o.moods[0..] == o.moods;
      o
  }

  /** The y of the next obstacle: the first position, or one spacing above the last. */
  function NextY(m: Manager, layout: Layout): real
  {
    if |m.obstacles| < 1 then layout.firstObstacleY else m.lastY + layout.obstacleSpacing
  }

  /**
   * `generateObstacle(in:)`. One obstacle is appended: a circle at the first
   * position when the list was empty, otherwise a candidate shape one
   * spacing above the last obstacle. When the list already held an obstacle,
   * a pickup is added at the previous obstacle's y, carrying the new
   * obstacle's moods and the previous obstacle's moods. The new obstacle
   * becomes the last one.
   */
  function Generate(m: Manager, layout: Layout, pick: nat, picks: seq<nat>): (m': Manager)
    requires |picks| == 4
    ensures |m'.obstacles| == |m.obstacles| + 1 && m'.obstacles[..|m.obstacles|] == m.obstacles
    ensures var o := m'.obstacles[|m.obstacles|];
      (|m.obstacles| == 0 ==> o.kind == Circle && o.position.y == layout.firstObstacleY) &&
      (|m.obstacles| > 0 ==> o.kind in Candidates(m.lastType) && o.position.y == m.lastY + layout.obstacleSpacing) &&
      o.position.x == layout.midX && ShapeMoods(o.kind, o.moods) &&
      m'.lastY == o.position.y && m'.lastType == o.kind && m'.lastMoods == o.moods
    ensures |m.obstacles| == 0 ==> m'.pickups == m.pickups
    ensures |m.obstacles| > 0 ==>
      |m'.pickups| == |m.pickups| + 1 && m'.pickups[..|m.pickups|] == m.pickups &&
      m'.pickups[|m.pickups|] == NewPickup(layout.moodSwitcherRadius, m'.lastMoods, m.lastMoods)
        .(position := Point(layout.midX, m.lastY))
    ensures m'.rotation == m.rotation
  {
    var kind := ChooseKind(m, pick);
    var o := Spawn(kind, Point(layout.midX, NextY(m, layout)), picks);
    var obstacles := m.obstacles + [o];
    var pickups :=
      if |obstacles| > 1 then
        m.pickups + [NewPickup(layout.moodSwitcherRadius, o.moods, m.lastMoods).(position := Point(layout.midX, m.lastY))]
      else m.pickups;
    m.(obstacles := obstacles, pickups := pickups, lastY := o.position.y, lastType := kind, lastMoods := o.moods)
  }

  /** An obstacle is kept while it is no more than 200 points below the bottom of the view. */
  predicate Kept(o: Obstacle, ballY: real, frameHeight: real)
  {
    !(o.position.y + 200.0 < ballY - frameHeight)
  }

  /**
   * The pruning half of `updateObstacles`: exactly the kept obstacles stay,
   * in their order.
   */
  function Prune(obstacles: seq<Obstacle>, ballY: real, frameHeight: real): (r: seq<Obstacle>)
    ensures forall o :: o in r <==> o in obstacles && Kept(o, ballY, frameHeight)
    ensures IsSubsequence(r, obstacles)
  {
    Filter(obstacles, o => Kept(o, ballY, frameHeight))
  }

  /** The ball has come within two spacings of the last obstacle. */
  predicate ShouldSpawn(m: Manager, layout: Layout, ballY: real)
  {
    ballY > m.lastY - layout.obstacleSpacing * 2.0
  }

  /**
   * `updateObstacles(in:ballPositionY:)`: at most one obstacle is spawned,
   * and only when the ball is close enough to the last one; then the
   * obstacles left behind are dropped. Pickups are never dropped here.
   */
  function UpdateObstacles(m: Manager, layout: Layout, ballY: real, pick: nat, picks: seq<nat>): (m': Manager)
    requires |picks| == 4
    ensures !ShouldSpawn(m, layout, ballY) ==>
      m'.pickups == m.pickups && m'.lastY == m.lastY && m'.lastType == m.lastType && m'.lastMoods == m.lastMoods
    ensures ShouldSpawn(m, layout, ballY) ==>
      var g := Generate(m, layout, pick, picks);
      m'.pickups == g.pickups && m'.lastY == g.lastY && m'.lastType == g.lastType && m'.lastMoods == g.lastMoods
    ensures var before := if ShouldSpawn(m, layout, ballY) then Generate(m, layout, pick, picks).obstacles else m.obstacles;
      IsSubsequence(m'.obstacles, before) &&
      forall o :: o in m'.obstacles <==> o in before && Kept(o, ballY, layout.frameHeight)
    ensures |m'.obstacles| <= |m.obstacles| + 1
    ensures m'.rotation == m.rotation
  {
    var spawned := if ShouldSpawn(m, layout, ballY) then Generate(m, layout, pick, picks) else m;
    spawned.(obstacles := Prune(spawned.obstacles, ballY, layout.frameHeight))
  }

  /**
   * The generator's invariant: the last obstacle's moods are those its shape
   * lists (once there is one), and every pickup on the track is passable.
   */
  ghost predicate Valid(m: Manager)
  {
    (|m.obstacles| > 0 ==> ShapeMoods(m.lastType, m.lastMoods)) &&
    forall i :: 0 <= i < |m.pickups| ==> Passable(m.pickups[i])
  }

  /**
   * From an empty generator whose last position is 100 points below the
   * ball, one update spawns exactly one obstacle, a circle at the first
   * position, and no pickup, provided the spacing exceeds -50 and the first
   * position is not pruned at once.
   */
  lemma FirstUpdateSpawnsOneCircle(m: Manager, layout: Layout, ballY: real, pick: nat, picks: seq<nat>)
    requires |picks| == 4 && m.obstacles == [] && m.pickups == [] && m.lastY == ballY - 100.0
    requires layout.obstacleSpacing > -50.0
    requires layout.firstObstacleY + 200.0 >= ballY - layout.frameHeight
    ensures var u := UpdateObstacles(m, layout, ballY, pick, picks);
      |u.obstacles| == 1 && u.obstacles[0].kind == Circle &&
      u.obstacles[0].position.y == layout.firstObstacleY && u.pickups == []
  {
    assert ShouldSpawn(m, layout, ballY);
    var gen := Generate(m, layout, pick, picks);
    var first := gen.obstacles[0];
    assert first in gen.obstacles;
    assert Kept(first, ballY, layout.frameHeight);
    var u := UpdateObstacles(m, layout, ballY, pick, picks);
    assert first in u.obstacles;
    assert u.obstacles[0] in gen.obstacles;
  }

  /**
   * Two consecutive shapes share at least three moods: one of them is a
   * circle or a square and shows all four, and the other shows at least
   * three different ones.
   */
  lemma {:induction false} ConsecutiveShapesShareThree(k1: ShapeKind, ms1: seq<ActiveMood>, k2: ShapeKind, ms2: seq<ActiveMood>, p: Pickup)
    requires ShapeMoods(k1, ms1) && ShapeMoods(k2, ms2) && !(k1 == Triangle && k2 == Triangle)
    requires p.moods == ms2 && p.lastObstacleMoods == ms1
    ensures Passable(p)
  {
    var valid := ValidMoods(p);
    if k2 != Triangle {
      MoodSequenceFacts(ms2);
      assert Elements(valid) == Elements(ms1);
      if k1 != Triangle {
        MoodSequenceFacts(ms1);
      }
      DistinctCardinality(ms1);
    } else {
      MoodSequenceFacts(ms1);
      assert Elements(valid) == Elements(ms2);
      DistinctCardinality(ms2);
    }
  }

  /** A new manager satisfies the invariant. */
  lemma NewManagerValid(initialMoods: seq<ActiveMood>)
    ensures Valid(NewManager(initialMoods))
  {
  }

  /** Resetting keeps the invariant. */
  lemma ResetValid(m: Manager)
    ensures Valid(Reset(m))
  {
  }

  /** Generating an obstacle keeps the invariant: the new pickup is passable. */
  lemma GenerateKeepsValid(m: Manager, layout: Layout, pick: nat, picks: seq<nat>)
    requires Valid(m) && |picks| == 4
    ensures Valid(Generate(m, layout, pick, picks))
  {
    var m' := Generate(m, layout, pick, picks);
    if |m.obstacles| > 0 {
      var p := m'.pickups[|m.pickups|];
      ConsecutiveShapesShareThree(m.lastType, m.lastMoods, m'.lastType, m'.lastMoods, p);
      assert m'.pickups == m'.pickups[..|m.pickups|] + [p];
      PassableAppend(m.pickups, p);
    }
  }

  lemma PassableAppend(ps: seq<Pickup>, p: Pickup)
    requires forall i :: 0 <= i < |ps| ==> Passable(ps[i])
    requires Passable(p)
    ensures forall i :: 0 <= i < |ps + [p]| ==> Passable((ps + [p])[i])
  {
  }

  /** Every frame's update keeps the invariant. */
  lemma UpdateKeepsValid(m: Manager, layout: Layout, ballY: real, pick: nat, picks: seq<nat>)
    requires Valid(m) && |picks| == 4
    ensures Valid(UpdateObstacles(m, layout, ballY, pick, picks))
  {
    if ShouldSpawn(m, layout, ballY) {
      GenerateKeepsValid(m, layout, pick, picks);
    }
  }

  /** Removing a touched pickup keeps the invariant: the others stay passable. */
  lemma RemovePickupKeepsValid(m: Manager, k: nat)
    requires Valid(m) && k < |m.pickups|
    ensures Valid(m.(pickups := RemoveAt(m.pickups, k)))
  {
    RemoveAtShifts(m.pickups, k);
  }

  /**
   * The track is passable: on a valid manager, every pickup offers a mood
   * different from the ball's, whatever the ball's mood and the draw.
   */
  lemma EveryPickupOffersANewMood(m: Manager, i: nat, current: Mood, pick: nat)
    requires Valid(m) && i < |m.pickups|
    ensures LoopEnds(ValidMoods(m.pickups[i]), current)
    ensures GetRandomMood(m.pickups[i], current, pick) != current
  {
    PassableOffersANewMood(m.pickups[i], current, pick);
  }
}
