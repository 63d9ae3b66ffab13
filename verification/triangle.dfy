/**
 * `MSObstacleTriangle`: a triangular frame of three sides, coloured with the
 * first three moods of a shuffled sequence, turning once every four seconds.
 */
module ObstacleTriangle {
  import opened Sequences
  import opened Moods
  import opened MoodManager
  import opened ObstacleBase

  const SectionCount: nat := 3
  const RotationPeriod: real := 4.0

  /** The outer corners section `i` runs between: `i` and the next one round. */
  function Corners(i: nat): (c: (nat, nat))
    requires i < SectionCount
    ensures c.0 < SectionCount && c.1 < SectionCount && c.0 != c.1
  {
    (i, (i + 1) % SectionCount)
  }

  /**
   * The sections go once round the triangle: each corner starts exactly one
   * section and ends exactly one, and each section ends where the next starts.
   */
  lemma {:induction false} CornersGoRound(i: nat, j: nat)
    requires i < SectionCount && j < SectionCount
    ensures Corners(i).0 == Corners(j).0 <==> i == j
    ensures Corners(i).1 == Corners(j).1 <==> i == j
    ensures Corners(i).1 == Corners((i + 1) % SectionCount).0
  {
  }

  /**
   * `createShape`, with the shuffle's draws passed in as `picks`: three sides
   * are appended to the node, side `i` coloured with the `i`-th appended
   * mood; the three appended moods are different.
   */
  function CreateShape(o: Obstacle, picks: seq<nat>): (o': Obstacle)
    requires |picks| == 4
    ensures o'.kind == o.kind && o'.position == o.position && o'.rings == o.rings
    ensures |o'.moods| == |o.moods| + SectionCount && o'.moods[..|o.moods|] == o.moods
    ensures Distinct(o'.moods[|o.moods|..])
    ensures |o'.node.pieces| == |o.node.pieces| + SectionCount
    ensures forall i :: |o.node.pieces| <= i < |o'.node.pieces| ==>
      o'.node.pieces[i].mood == o'.moods[|o.moods| + (i - |o.node.pieces|)]
    ensures o'.node.motion == Spin(1, RotationPeriod)
  {
    var ms := RandomMoodSequence(picks);
    ThreeOfFour(ms);
    AddSegments(o, ms, SectionCount, RotationPeriod)
  }

  /** The first three of a rearrangement of the four moods leave out just the last. */
  lemma ThreeOfFour(ms: seq<ActiveMood>)
    requires IsMoodSequence(ms)
    ensures |ms| == 4 && Distinct(ms[..3])
    ensures forall m: ActiveMood :: m in ms[..3] <==> m != ms[3]
  {
    MoodSequenceFacts(ms);
    forall m: ActiveMood ensures m in ms[..3] <==> m != ms[3] {
      assert m in ms;
      assert ms == ms[..3] + [ms[3]];
    }
  }

  /** The one active mood a triangle leaves out is the last of the drawn sequence. */
  lemma {:induction false} MissesExactlyOne(o: Obstacle, picks: seq<nat>)
    requires |picks| == 4
    ensures forall m: ActiveMood ::
      m in CreateShape(o, picks).moods[|o.moods|..] <==> m != RandomMoodSequence(picks)[3]
  {
    var ms := RandomMoodSequence(picks);
    ThreeOfFour(ms);
    assert CreateShape(o, picks).moods[|o.moods|..] == ms[..3];
  }

  /** Any three different moods, in any order, can come out of a fresh triangle. */
  lemma EveryTripleDrawable(s: seq<ActiveMood>)
    requires |s| == 3 && Distinct(s)
    ensures exists picks :: |picks| == 4 && CreateShape(NewObstacle(Triangle), picks).moods == s
  {
    var missing: ActiveMood :| missing !in s;
    var full := s + [missing];
    assert Distinct(full);
    FourDifferentMoods(full);
    EveryMoodSequenceDrawable(full);
    var picks :| |picks| == 4 && RandomMoodSequence(picks) == full;
    assert full[..3] == s;
    assert CreateShape(NewObstacle(Triangle), picks).moods == s;
  }

  /** A fresh triangle lists exactly the moods its sections are coloured with. */
  lemma ListsItsColours(o: Obstacle, picks: seq<nat>)
    requires IsFresh(o) && |picks| == 4
    ensures (set m | m in CreateShape(o, picks).moods) == ObstacleColours(CreateShape(o, picks))
  {
    FreshSegmentsAsListed(o, RandomMoodSequence(picks), SectionCount, RotationPeriod);
  }
}
