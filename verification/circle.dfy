/**
 * `MSObstacleCircle`: a ring of four arcs, coloured with a shuffled mood
 * sequence and listed in the same order, turning once every four seconds.
 */
module ObstacleCircle {
  import opened Moods
  import opened MoodManager
  import opened ObstacleBase

  const SectionCount: nat := 4
  const RotationPeriod: real := 4.0

  /**
   * `createShape`, with the shuffle's draws passed in as `picks`: the four
   * arcs are appended to the node, arc `i` coloured with the `i`-th appended
   * mood, and the appended moods are a rearrangement of all four moods.
   */
  function CreateShape(o: Obstacle, picks: seq<nat>): (o': Obstacle)
    requires |picks| == 4
    ensures o'.kind == o.kind && o'.position == o.position && o'.rings == o.rings
    ensures o'.moods == o.moods + RandomMoodSequence(picks)
    ensures |o'.moods| == |o.moods| + SectionCount && IsMoodSequence(o'.moods[|o.moods|..])
    ensures |o'.node.pieces| == |o.node.pieces| + SectionCount
    ensures forall i :: |o.node.pieces| <= i < |o'.node.pieces| ==>
      o'.node.pieces[i].mood == o'.moods[|o.moods| + (i - |o.node.pieces|)]
    ensures o'.node.motion == Spin(1, RotationPeriod)
  {
    var ms := RandomMoodSequence(picks);
    MoodSequenceLength(ms);
    AddAllSegments(o, ms, RotationPeriod);
    AddSegments(o, ms, SectionCount, RotationPeriod)
  }

  /** A fresh circle lists exactly the drawn sequence. */
  lemma FreshMoods(picks: seq<nat>)
    requires |picks| == 4
    ensures CreateShape(NewObstacle(Circle), picks).moods == RandomMoodSequence(picks)
  {
    assert NewObstacle(Circle).moods == [];
  }

  /** Every arrangement of the four moods can come out of a fresh circle. */
  lemma EveryArrangementDrawable(s: seq<ActiveMood>)
    requires IsMoodSequence(s)
    ensures exists picks :: |picks| == 4 && CreateShape(NewObstacle(Circle), picks).moods == s
  {
    EveryMoodSequenceDrawable(s);
    var picks :| |picks| == 4 && RandomMoodSequence(picks) == s;
    FreshMoods(picks);
  }

  /** A fresh circle lists exactly the moods its sections are coloured with. */
  lemma ListsItsColours(o: Obstacle, picks: seq<nat>)
    requires IsFresh(o) && |picks| == 4
    ensures (set m | m in CreateShape(o, picks).moods) == ObstacleColours(CreateShape(o, picks))
  {
    FreshSegmentsAsListed(o, RandomMoodSequence(picks), SectionCount, RotationPeriod);
  }
}
