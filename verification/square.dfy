/**
 * `MSObstacleSquare`: a square frame of four sides, coloured with a shuffled
 * mood sequence and listed in the same order, turning once every four seconds.
 */
module ObstacleSquare {
  import opened Optional
  import opened Moods
  import opened MoodManager
  import opened ObstacleBase
  import ObstacleCircle

  const SectionCount: nat := 4
  const RotationPeriod: real := 4.0

  datatype Side = Top | Right | Bottom | Left

  /** The `switch` that picks a section's side; any other index draws nothing. */
  function SectionSide(i: nat): (s: Option<Side>)
    ensures s.Some? <==> i < SectionCount
  {
    match i
    case 0 => Some(Top)
    case 1 => Some(Right)
    case 2 => Some(Bottom)
    case 3 => Some(Left)
    case _ => None
  }

  /** The four sections are the four different sides. */
  lemma {:induction false} SectionsAreTheFourSides(i: nat, j: nat)
    requires i < SectionCount && j < SectionCount
    ensures SectionSide(i) == SectionSide(j) <==> i == j
  {
  }

  /**
   * `createShape`, with the shuffle's draws passed in as `picks`: the four
   * sides are appended to the node, side `i` coloured with the `i`-th
   * appended mood, and the appended moods are a rearrangement of all four.
   * Only the sections' geometry differs from the circle's arcs, so the
   * pieces and moods are the circle's.
   */
  function CreateShape(o: Obstacle, picks: seq<nat>): (o': Obstacle)
    requires |picks| == 4
    ensures o'.kind == o.kind && o'.position == o.position && o'.rings == o.rings
    ensures o'.moods == o.moods + RandomMoodSequence(picks)
    ensures |o'.moods| == |o.moods| + SectionCount && IsMoodSequence(o'.moods[|o.moods|..])
    ensures |o'.node.pieces| == |o.node.pieces| + SectionCount
    ensures forall i :: |o.node.pieces| <= i < |o'.node.pieces| ==>
      o'.node.pieces[i].mood == o'.moods[|o.moods| + (i - |o.node.pieces|)]
    ensures o'.node.motion == Spin(1, RotationPeriod)
  {
    ObstacleCircle.CreateShape(o, picks)
  }

  /** A fresh square lists exactly the drawn sequence. */
  lemma FreshMoods(picks: seq<nat>)
    requires |picks| == 4
    ensures CreateShape(NewObstacle(Square), picks).moods == RandomMoodSequence(picks)
  {
    assert NewObstacle(Square).moods == [];
  }

  /** Every arrangement of the four moods can come out of a fresh square. */
  lemma EveryArrangementDrawable(s: seq<ActiveMood>)
    requires IsMoodSequence(s)
    ensures exists picks :: |picks| == 4 && CreateShape(NewObstacle(Square), picks).moods == s
  {
    EveryMoodSequenceDrawable(s);
    var picks :| |picks| == 4 && RandomMoodSequence(picks) == s;
    FreshMoods(picks);
  }

  /** A fresh square lists exactly the moods its sections are coloured with. */
  lemma ListsItsColours(o: Obstacle, picks: seq<nat>)
    requires IsFresh(o) && |picks| == 4
    ensures (set m | m in CreateShape(o, picks).moods) == ObstacleColours(CreateShape(o, picks))
  {
    FreshSegmentsAsListed(o, RandomMoodSequence(picks), SectionCount, RotationPeriod);
  }
}
