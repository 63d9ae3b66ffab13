/**
 * `MSObstacle`: an obstacle node with its coloured pieces, its list of moods,
 * and the base `setup(at:)`, `createShape` and `rotate(duration:)`.
 *
 * A node's geometry is not modelled; what is kept is what the game logic
 * reads or what a contract speaks about: which mood colours each piece, each
 * piece's physics body, the repeating motion it runs and its action speed.
 */
module ObstacleBase {
  import opened Optional
  import opened Moods
  import Physics

  /** The concrete class of an obstacle; `Plain` is the base class itself. */
  datatype ShapeKind =
    | Plain | Circle | Square | Triangle
    | DotCircle | ExpandingDotCircle | DotSquare | DotTriangle | DoubleCircle

  /**
   * A repeating action. `Spin(turns, period)`: rotate by `turns` full turns
   * (+1 is 2π, -1 is -2π) every `period` seconds. `FollowOutline(period,
   * delay)`: after `delay` seconds, go round the shape's outline every
   * `period` seconds. `Breathe(distance, period)`: move `distance` points
   * outward and back every `period` seconds.
   */
  datatype Motion =
    | Still
    | Spin(turns: int, period: real)
    | FollowOutline(period: real, delay: real)
    | Breathe(distance: real, period: real)

  /** A coloured segment or dot, filled with its mood's colour. */
  datatype Piece = Piece(mood: ActiveMood, body: Physics.Body, motion: Motion, speed: real)

  /** The uncoloured outline drawn behind a dot. */
  datatype Glow = Glow(motion: Motion, speed: real)

  /** A node holding pieces and glows, turned by `angle` (in units of π). */
  datatype Ring = Ring(pieces: seq<Piece>, glows: seq<Glow>, angle: real, motion: Motion, speed: real)

  datatype Point = Point(x: real, y: real)

  /**
   * An obstacle. `node` is the obstacle's own node; `rings` are the child
   * nodes of a double circle. The two durations are `None` until a shape
   * that keeps them sets them.
   */
  datatype Obstacle = Obstacle(
    kind: ShapeKind,
    position: Point,
    node: Ring,
    rings: seq<Ring>,
    moods: seq<ActiveMood>,
    initialDuration: Option<real>,
    currentDuration: Option<real>)

  /** SpriteKit's default action speed. */
  const NormalSpeed: real := 1.0

  const EmptyRing: Ring := Ring([], [], 0.0, Still, NormalSpeed)

  /** A freshly constructed obstacle of the given class: nothing drawn, no moods. */
  function NewObstacle(kind: ShapeKind): (o: Obstacle)
    ensures o.kind == kind && o.moods == [] && o.node.pieces == [] && o.rings == []
  {
    Obstacle(kind, Point(0.0, 0.0), EmptyRing, [], [], None, None)
  }

  /** `rotate(duration:)`: the node turns a full turn every `period` seconds. */
  function Rotate(r: Ring, period: real): (r': Ring)
    ensures r'.motion.Spin? && r'.motion.turns == 1 && r'.motion.period == period
    ensures r'.pieces == r.pieces && r'.glows == r.glows && r'.angle == r.angle && r'.speed == r.speed
  {
    r.(motion := Spin(1, period))
  }

  /**
   * The first `count` moods of `ms` as still segments, piece `i` coloured
   * `ms[i]`, each an obstacle body that reports the ball and deflects nothing.
   */
  function Segments(ms: seq<ActiveMood>, count: nat): (ps: seq<Piece>)
    requires count <= |ms|
    ensures |ps| == count
    ensures forall i :: 0 <= i < count ==> ps[i].mood == ms[i] && ps[i].body == Physics.SegmentBody
  {
    seq(count, i requires 0 <= i < count => Piece(ms[i], Physics.SegmentBody, Still, NormalSpeed))
  }

  /**
   * What the segmented shapes' `createShape` loop does: for `i` below `count`,
   * add a segment coloured `ms[i]` and append `ms[i]` to `moods`; then rotate
   * the node once every `period` seconds. Nothing else changes.
   */
  function AddSegments(o: Obstacle, ms: seq<ActiveMood>, count: nat, period: real): (o': Obstacle)
    requires count <= |ms|
    ensures o'.kind == o.kind && o'.position == o.position && o'.rings == o.rings
    ensures o'.initialDuration == o.initialDuration && o'.currentDuration == o.currentDuration
    ensures o'.moods == o.moods + ms[..count]
    ensures |o'.node.pieces| == |o.node.pieces| + count && o'.node.pieces[..|o.node.pieces|] == o.node.pieces
    ensures forall i :: |o.node.pieces| <= i < |o'.node.pieces| ==>
      o'.node.pieces[i].mood == o'.moods[|o.moods| + (i - |o.node.pieces|)] &&
      o'.node.pieces[i].body == Physics.SegmentBody
    ensures o'.node.glows == o.node.glows && o'.node.angle == o.node.angle && o'.node.speed == o.node.speed
    ensures o'.node.motion == Spin(1, period)
  {
    var added := o.node.(pieces := o.node.pieces + Segments(ms, count));
    o.(node := Rotate(added, period), moods := o.moods + ms[..count])
  }

  /** Adding a segment for every mood of `ms` appends exactly `ms` to the listed moods. */
  lemma AddAllSegments(o: Obstacle, ms: seq<ActiveMood>, period: real)
    ensures AddSegments(o, ms, |ms|, period).moods[|o.moods|..] == ms
  {
    assert ms[..|ms|] == ms;
  }

  /** The moods that colour at least one piece of a ring. */
  function PieceMoods(ps: seq<Piece>): set<ActiveMood>
  {
    set i | 0 <= i < |ps| :: ps[i].mood
  }

  /** The moods that colour at least one piece of an obstacle, rings included. */
  function ObstacleColours(o: Obstacle): set<ActiveMood>
  {
    PieceMoods(o.node.pieces) + set r, i | r in o.rings && 0 <= i < |r.pieces| :: r.pieces[i].mood
  }

  /**
   * `Segments` paints exactly the moods it is given: a mood colours a segment
   * if and only if it is one of the first `count` entries.
   */
  lemma {:induction false} SegmentsColourExactly(ms: seq<ActiveMood>, count: nat)
    requires count <= |ms|
    ensures PieceMoods(Segments(ms, count)) == set i | 0 <= i < count :: ms[i]
  {
    var ps := Segments(ms, count);
    forall m ensures m in PieceMoods(ps) <==> m in set i | 0 <= i < count :: ms[i] {
      if m in PieceMoods(ps) {
        var i :| 0 <= i < |ps| && ps[i].mood == m;
        assert ms[i] == m;
      }
      if m in set i | 0 <= i < count :: ms[i] {
        var i :| 0 <= i < count && ms[i] == m;
        assert ps[i].mood == m;
      }
    }
  }

  /** Pieces coloured one-for-one with a list show exactly the list's moods. */
  lemma {:induction false} ColouredAsListed(ps: seq<Piece>, ms: seq<ActiveMood>)
    requires |ps| == |ms| && forall i :: 0 <= i < |ps| ==> ps[i].mood == ms[i]
    ensures PieceMoods(ps) == set m | m in ms
  {
    forall m ensures m in PieceMoods(ps) <==> m in ms {
      if m in ms {
        var i :| 0 <= i < |ms| && ms[i] == m;
        assert ps[i].mood == m;
      }
    }
  }

  /** Without rings, an obstacle's colours are its own node's. */
  lemma ColoursWithoutRings(o: Obstacle)
    requires o.rings == []
    ensures ObstacleColours(o) == PieceMoods(o.node.pieces)
  {
  }

  /** A just-constructed obstacle: nothing drawn, nothing listed. */
  predicate IsFresh(o: Obstacle)
  {
    o.moods == [] && o.node.pieces == [] && o.rings == []
  }

  /** A fresh obstacle given segments lists exactly the moods they are coloured with. */
  lemma FreshSegmentsAsListed(o: Obstacle, ms: seq<ActiveMood>, count: nat, period: real)
    requires IsFresh(o) && count <= |ms|
    ensures (set m | m in AddSegments(o, ms, count, period).moods) == ObstacleColours(AddSegments(o, ms, count, period))
  {
    var o' := AddSegments(o, ms, count, period);
    ColouredAsListed(o'.node.pieces, o'.moods);
    ColoursWithoutRings(o');
  }
}
