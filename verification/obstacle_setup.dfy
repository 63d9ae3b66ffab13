/**
 * `setup(at:)` of `MSObstacle` with its dynamically dispatched
 * `createShape`, and the dispatched `updateRotationSpeed(to:)`.
 */
module ObstacleSetup {
  import opened Sequences
  import opened Moods
  import opened ObstacleBase
  import ObstacleCircle
  import ObstacleSquare
  import ObstacleTriangle
  import ObstacleDotCircle
  import ObstacleExpandingDotCircle
  import ObstacleDotSquare
  import ObstacleDotTriangle
  import ObstacleDoubleCircle
  import Dots

  /**
   * What the shapes take from outside: the shuffle's draws, the number of
   * dots an outline fits, the double circle's mood sequence and the layout's
   * rotation period.
   */
  datatype ShapeInputs = ShapeInputs(
    picks: seq<nat>,
    dotCount: nat,
    doubleCircleMoods: seq<ActiveMood>,
    rotationDuration: real)

  predicate ValidInputs(kind: ShapeKind, inputs: ShapeInputs)
  {
    |inputs.picks| == 4 &&
    (kind == DoubleCircle ==> |inputs.doubleCircleMoods| >= ObstacleDoubleCircle.SectionCount)
  }

  /**
   * `setup(at:)`: the position becomes exactly `at`, then the obstacle's own
   * `createShape` runs. The base class draws and lists nothing. For every
   * class but the double circle, a fresh obstacle ends up listing exactly the
   * moods its pieces are coloured with.
   */
  method Setup(o: Obstacle, at: Point, inputs: ShapeInputs) returns (o': Obstacle)
    requires ValidInputs(o.kind, inputs)
    ensures o'.kind == o.kind && o'.position == at
    ensures o.kind == Plain ==> o'.moods == o.moods && ObstacleColours(o') == ObstacleColours(o)
    ensures IsFresh(o) && o.kind != DoubleCircle ==> Elements(o'.moods) == ObstacleColours(o')
  {
    var p := o.(position := at);
    match o.kind {
      case Plain =>
        o' := p;
      case Circle =>
        o' := CreateSolidShape(p, inputs.picks);
      case Square =>
        o' := CreateSolidShape(p, inputs.picks);
      case Triangle =>
        o' := CreateSolidShape(p, inputs.picks);
      case DotCircle =>
        o' := CreateDottedCircle(p, inputs);
      case ExpandingDotCircle =>
        o' := CreateDottedCircle(p, inputs);
      case DotSquare =>
        o' := CreateDottedOutline(p, inputs);
      case DotTriangle =>
        o' := CreateDottedOutline(p, inputs);
      case DoubleCircle =>
        o' := ObstacleDoubleCircle.CreateShape(p, inputs.doubleCircleMoods, inputs.rotationDuration);
    }
  }

  /** `createShape` of the circle, the square and the triangle. */
  method CreateSolidShape(o: Obstacle, picks: seq<nat>) returns (o': Obstacle)
    requires o.kind in {Circle, Square, Triangle} && |picks| == 4
    ensures o'.kind == o.kind && o'.position == o.position
    ensures IsFresh(o) ==> Elements(o'.moods) == ObstacleColours(o')
  {
    if o.kind == Circle {
      o' := ObstacleCircle.CreateShape(o, picks);
      if IsFresh(o) {
        ObstacleCircle.ListsItsColours(o, picks);
      }
    } else if o.kind == Square {
      o' := ObstacleSquare.CreateShape(o, picks);
      if IsFresh(o) {
        ObstacleSquare.ListsItsColours(o, picks);
      }
    } else {
      o' := ObstacleTriangle.CreateShape(o, picks);
      if IsFresh(o) {
        ObstacleTriangle.ListsItsColours(o, picks);
      }
    }
  }

  /** `createShape` of the two dotted circles. */
  method CreateDottedCircle(o: Obstacle, inputs: ShapeInputs) returns (o': Obstacle)
    requires o.kind in {DotCircle, ExpandingDotCircle} && |inputs.picks| == 4
    ensures o'.kind == o.kind && o'.position == o.position
    ensures IsFresh(o) ==> Elements(o'.moods) == ObstacleColours(o')
  {
    if o.kind == DotCircle {
      o' := ObstacleDotCircle.CreateShape(o, inputs.picks, inputs.rotationDuration);
    } else {
      o' := ObstacleExpandingDotCircle.CreateShape(o, inputs.picks, inputs.rotationDuration);
    }
    if IsFresh(o) {
      DotsAsListed(o', o'.moods);
    }
  }

  /** `createShape` of the dotted square and the dotted triangle. */
  method CreateDottedOutline(o: Obstacle, inputs: ShapeInputs) returns (o': Obstacle)
    requires o.kind in {DotSquare, DotTriangle} && |inputs.picks| == 4
    ensures o'.kind == o.kind && o'.position == o.position
    ensures IsFresh(o) ==> Elements(o'.moods) == ObstacleColours(o')
  {
    var added;
    if o.kind == DotSquare {
      o', added := ObstacleDotSquare.CreateShape(o, inputs.picks, inputs.dotCount, inputs.rotationDuration);
    } else {
      o', added := ObstacleDotTriangle.CreateShape(o, inputs.picks, inputs.dotCount, inputs.rotationDuration);
    }
    if IsFresh(o) {
      DotsAsListed(o', added);
    }
  }

  /** The classes whose `updateRotationSpeed(to:)` override is part of this model. */
  predicate HasSpeedOverride(o: Obstacle)
  {
    o.kind in {DotCircle, ExpandingDotCircle, DotSquare, DotTriangle} ||
    (o.kind == DoubleCircle && |o.rings| >= 2)
  }

  /**
   * The dispatched `updateRotationSpeed(to:)`. Whatever the class, changing
   * speed never changes which moods the obstacle lists or shows.
   */
  function UpdateRotationSpeed(o: Obstacle, multiplier: real): (o': Obstacle)
    requires HasSpeedOverride(o)
    ensures o'.kind == o.kind && o'.position == o.position && o'.moods == o.moods
    ensures ObstacleColours(o') == ObstacleColours(o)
  {
    var o' :=
      if o.kind == DotCircle then ObstacleDotCircle.UpdateRotationSpeed(o, multiplier)
      else if o.kind == ExpandingDotCircle then ObstacleExpandingDotCircle.UpdateRotationSpeed(o, multiplier)
      else if o.kind == DotSquare || o.kind == DotTriangle then Dots.SetDotSpeeds(o, multiplier)
      else ObstacleDoubleCircle.UpdateRotationSpeed(o, multiplier);
    SameColours(o, o');
    o'
  }

  /** Obstacles whose pieces carry the same moods, ring by ring, show the same colours. */
  lemma SameColours(o: Obstacle, o': Obstacle)
    requires |o'.node.pieces| == |o.node.pieces|
    requires forall i :: 0 <= i < |o.node.pieces| ==> o'.node.pieces[i].mood == o.node.pieces[i].mood
    requires |o'.rings| == |o.rings| && forall k :: 0 <= k < |o.rings| ==> o'.rings[k].pieces == o.rings[k].pieces
    ensures ObstacleColours(o') == ObstacleColours(o)
  {
    forall m ensures m in ObstacleColours(o') <==> m in ObstacleColours(o) {
      if m in PieceMoods(o'.node.pieces) {
        var i :| 0 <= i < |o'.node.pieces| && o'.node.pieces[i].mood == m;
        assert o.node.pieces[i].mood == m;
      }
      if m in PieceMoods(o.node.pieces) {
        var i :| 0 <= i < |o.node.pieces| && o.node.pieces[i].mood == m;
        assert o'.node.pieces[i].mood == m;
      }
      if r, i :| r in o'.rings && 0 <= i < |r.pieces| && r.pieces[i].mood == m {
        var k :| 0 <= k < |o'.rings| && o'.rings[k] == r;
        assert o.rings[k] in o.rings && o.rings[k].pieces[i].mood == m;
      }
      if r, i :| r in o.rings && 0 <= i < |r.pieces| && r.pieces[i].mood == m {
        var k :| 0 <= k < |o.rings| && o.rings[k] == r;
        assert o'.rings[k] in o'.rings && o'.rings[k].pieces[i].mood == m;
      }
    }
  }

  lemma DotsAsListed(o: Obstacle, added: seq<ActiveMood>)
    requires o.rings == [] && o.moods == added
    requires PieceMoods(o.node.pieces[0..]) == Elements(added)
    ensures Elements(o.moods) == ObstacleColours(o)
  {
    assert o.node.pieces[0..] == o.node.pieces;
    ColoursWithoutRings(o);
  }
}
