/**
 * `MSObstacleExpandingDotCircle`: 20 dots round a circle, five per mood, each
 * dot and its glow moving out and back while the whole node turns.
 */
module ObstacleExpandingDotCircle {
  import opened Sequences
  import opened Moods
  import opened MoodManager
  import opened DotIndex
  import opened ObstacleBase
  import opened Dots
  import ObstacleDotCircle

  const DotCount: nat := 20

  /** How far a dot moves outward, in points, and how long a move out and back takes. */
  const GapMovementDistance: real := 80.0
  const GapAnimationDuration: real := 2.5

  /** Dot `i` takes mood number `i / 5`: each mood colours five consecutive dots. */
  lemma {:induction false} FivePerMood(i: nat)
    requires i < DotCount
    ensures MoodIndex(i, 4, DotCount) == i / 5
  {
    DivUnique(i * 4, DotCount, i / 5, (i % 5) * 4);
  }

  /** The action every dot and glow runs: out by the gap distance and back. */
  function BreathingMotions(): (ms: seq<Motion>)
    ensures |ms| == DotCount
    ensures forall i :: 0 <= i < |ms| ==> ms[i] == Breathe(GapMovementDistance, GapAnimationDuration)
  {
    seq(DotCount, _ => Breathe(GapMovementDistance, GapAnimationDuration))
  }

  /** Every dot coloured from `ms` runs the breathing action it was given. */
  lemma DotsBreathe(ms: seq<ActiveMood>, motions: seq<Motion>)
    requires |ms| > 0 && motions == BreathingMotions()
    ensures forall i :: 0 <= i < |ColouredDots(ms, motions)| ==>
      ColouredDots(ms, motions)[i].motion == Breathe(GapMovementDistance, GapAnimationDuration)
  {
    var dots := ColouredDots(ms, motions);
    assert forall i :: 0 <= i < |dots| ==> dots[i].motion == motions[i];
  }

  /**
   * `createShape`, with the shuffle's draws passed in as `picks`: 20 dots and
   * their glows are added, all moving out and back; the append-on-change
   * loop lists the whole drawn sequence, whose moods are exactly the dots'
   * colours; the node turns once per `rotationDuration`. The two durations
   * are left as they were.
   */
  method CreateShape(o: Obstacle, picks: seq<nat>, rotationDuration: real) returns (o': Obstacle)
    requires |picks| == 4
    ensures o'.kind == o.kind && o'.position == o.position && o'.rings == o.rings
    ensures o'.initialDuration == o.initialDuration && o'.currentDuration == o.currentDuration
    ensures o'.moods == o.moods + RandomMoodSequence(picks)
    ensures |o'.node.pieces| == |o.node.pieces| + DotCount && o'.node.pieces[..|o.node.pieces|] == o.node.pieces
    ensures PieceMoods(o'.node.pieces[|o.node.pieces|..]) == Elements(o'.moods[|o.moods|..])
    ensures forall i :: |o.node.pieces| <= i < |o'.node.pieces| ==>
      o'.node.pieces[i].motion == Breathe(GapMovementDistance, GapAnimationDuration)
    ensures o'.node.motion == Spin(1, rotationDuration)
  {
    var ms := RandomMoodSequence(picks);
    MoodSequenceDistinct(ms);
    var motions := BreathingMotions();
    assert |motions| >= |ms|;
    var added;
    o', added := AppendDots(o, ms, motions);
    assert added == ms;
    DotsBreathe(ms, motions);
    assert o'.node.pieces[|o.node.pieces|..] == ColouredDots(ms, motions);
    assert o'.moods[|o.moods|..] == added;
    o' := o'.(node := Rotate(o'.node, rotationDuration));
  }

  /** `updateRotationSpeed(to:)`: as for the dotted circle, only the node's own speed changes. */
  function UpdateRotationSpeed(o: Obstacle, multiplier: real): (o': Obstacle)
    ensures o'.node.speed == multiplier
    ensures o'.node.pieces == o.node.pieces && o'.node.glows == o.node.glows && o'.rings == o.rings
    ensures o'.moods == o.moods && o'.node.motion == o.node.motion
  {
    ObstacleDotCircle.UpdateRotationSpeed(o, multiplier)
  }
}
