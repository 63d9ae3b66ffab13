/**
 * `MSObstacleDoubleCircle`: two concentric rings of four arcs each, both
 * coloured from the same mood sequence and turning in opposite directions.
 */
module ObstacleDoubleCircle {
  import opened Optional
  import opened Sequences
  import opened Moods
  import opened ObstacleBase

  const SectionCount: nat := 4

  /** Both rings start turned by a quarter of π. */
  const InitialAngle: real := 0.25

  /**
   * One ring from `createCircle`: four arcs, arc `i` coloured `ms[i]`, each
   * with a glow behind it; turned to the initial angle and spinning `turns`
   * full turns every `period` seconds.
   */
  function MakeRing(ms: seq<ActiveMood>, turns: int, period: real): (r: Ring)
    requires |ms| >= SectionCount
    ensures |r.pieces| == SectionCount && |r.glows| == SectionCount
    ensures forall i :: 0 <= i < SectionCount ==> r.pieces[i].mood == ms[i]
    ensures r.angle == InitialAngle && r.motion == Spin(turns, period) && r.speed == NormalSpeed
  {
    Ring(Segments(ms, SectionCount), seq(SectionCount, _ => Glow(Still, NormalSpeed)), InitialAngle, Spin(turns, period), NormalSpeed)
  }

  /**
   * `createShape`, with the sequence from the double circle's mood helper
   * passed in as `ms` (the helper is not part of this model; the code reads
   * its first four entries): an outer and an inner ring are added, both
   * coloured `ms[0..4]`, the outer one turning one way and the inner one the
   * other way with the same period; only `ms[0]` and `ms[2]` are appended to
   * `moods`; both durations record the period.
   */
  function CreateShape(o: Obstacle, ms: seq<ActiveMood>, rotationDuration: real): (o': Obstacle)
    requires |ms| >= SectionCount
    ensures o'.kind == o.kind && o'.position == o.position && o'.node == o.node
    ensures |o'.rings| == |o.rings| + 2 && o'.rings[..|o.rings|] == o.rings
    ensures forall r :: r in o'.rings[|o.rings|..] ==>
      |r.pieces| == SectionCount && (forall i :: 0 <= i < SectionCount ==> r.pieces[i].mood == ms[i]) &&
      r.angle == InitialAngle && r.motion.Spin? && r.motion.period == rotationDuration
    ensures o'.rings[|o.rings|].motion.turns == 1 && o'.rings[|o.rings| + 1].motion.turns == -1
    ensures o'.moods == o.moods + [ms[0], ms[2]]
    ensures o'.initialDuration == Some(rotationDuration) && o'.currentDuration == Some(rotationDuration)
  {
    var outer := MakeRing(ms, 1, rotationDuration);
    var inner := MakeRing(ms, -1, rotationDuration);
    o.(rings := o.rings + [outer, inner], moods := o.moods + [ms[0], ms[2]],
       initialDuration := Some(rotationDuration), currentDuration := Some(rotationDuration))
  }

  /**
   * A fresh double circle with four different moods lists only two of the
   * four colours it shows: `ms[1]` and `ms[3]` colour arcs but are not in
   * `moods`.
   */
  lemma {:induction false} ListsTwoOfFourColours(ms: seq<ActiveMood>, rotationDuration: real)
    requires |ms| == SectionCount && Distinct(ms)
    ensures Elements(CreateShape(NewObstacle(DoubleCircle), ms, rotationDuration).moods) == {ms[0], ms[2]}
    ensures ObstacleColours(CreateShape(NewObstacle(DoubleCircle), ms, rotationDuration)) == Elements(ms)
    ensures ms[1] !in CreateShape(NewObstacle(DoubleCircle), ms, rotationDuration).moods
    ensures ms[3] !in CreateShape(NewObstacle(DoubleCircle), ms, rotationDuration).moods
  {
    var o := CreateShape(NewObstacle(DoubleCircle), ms, rotationDuration);
    var outer := o.rings[0];
    assert o.moods == [ms[0], ms[2]];
    forall m ensures m in ObstacleColours(o) <==> m in Elements(ms) {
      if m in ObstacleColours(o) {
        assert PieceMoods(o.node.pieces) == {};
        var r, i :| r in o.rings && 0 <= i < |r.pieces| && r.pieces[i].mood == m;
        assert m == ms[i];
      }
      if m in Elements(ms) {
        var i :| 0 <= i < |ms| && ms[i] == m;
        assert outer in o.rings && outer.pieces[i].mood == m;
      }
    }
  }

  /**
   * `updateRotationSpeed(to:)`: both rings run at `multiplier`. The rings
   * exist only once `createShape` has run, so the obstacle must have them.
   */
  function UpdateRotationSpeed(o: Obstacle, multiplier: real): (o': Obstacle)
    requires |o.rings| >= 2
    ensures |o'.rings| == |o.rings| && o'.rings[..|o.rings| - 2] == o.rings[..|o.rings| - 2]
    ensures forall k :: |o.rings| - 2 <= k < |o.rings| ==>
      o'.rings[k] == o.rings[k].(speed := multiplier)
    ensures o'.node == o.node && o'.moods == o.moods
  {
    var n := |o.rings|;
    var outer := o.rings[n - 2].(speed := multiplier);
    var inner := o.rings[n - 1].(speed := multiplier);
    o.(rings := o.rings[..n - 2] + [outer, inner])
  }
}
