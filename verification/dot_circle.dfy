/**
 * `MSObstacleDotCircle`: 25 dots round a circle, coloured in four runs from
 * a shuffled mood sequence, the whole node turning once per rotation period.
 */
module ObstacleDotCircle {
  import opened Optional
  import opened Sequences
  import opened Moods
  import opened MoodManager
  import opened DotIndex
  import opened ObstacleBase
  import opened Dots

  const DotCount: nat := 25

  /** Where each mood's run of dots starts; the last entry is the dot count. */
  const RunStarts: seq<nat> := [0, 7, 13, 19, 25]

  /**
   * Dot `i` takes mood number `j` exactly when it lies in run `j`: the four
   * moods colour 7, 6, 6 and 6 consecutive dots.
   */
  lemma {:induction false} DotRuns(i: nat, j: nat)
    requires i < DotCount && j < 4
    ensures MoodIndex(i, 4, DotCount) == j <==> RunStarts[j] <= i < RunStarts[j + 1]
  {
    var q := if i < 7 then 0 else if i < 13 then 1 else if i < 19 then 2 else 3;
    DivUnique(i * 4, DotCount, q, i * 4 - q * DotCount);
  }

  /**
   * `createShape`, with the shuffle's draws passed in as `picks`: 25 still
   * dots and their glows are added; `moods` is replaced by the drawn
   * sequence, every mood of which colours some dot and no dot has another
   * colour; the node turns once per `rotationDuration`, which both durations
   * record.
   */
  function CreateShape(o: Obstacle, picks: seq<nat>, rotationDuration: real): (o': Obstacle)
    requires |picks| == 4
    ensures o'.kind == o.kind && o'.position == o.position && o'.rings == o.rings
    ensures IsMoodSequence(o'.moods)
    ensures |o'.node.pieces| == |o.node.pieces| + DotCount && o'.node.pieces[..|o.node.pieces|] == o.node.pieces
    ensures |o'.node.glows| == |o.node.glows| + DotCount
    ensures PieceMoods(o'.node.pieces[|o.node.pieces|..]) == Elements(o'.moods)
    ensures o'.node.motion == Spin(1, rotationDuration)
    ensures o'.initialDuration == Some(rotationDuration) && o'.currentDuration == Some(rotationDuration)
  {
    var ms := RandomMoodSequence(picks);
    var motions := seq(DotCount, _ => Still);
    var dots := ColouredDots(ms, motions);
    EveryMoodHasARun(ms, motions);
    var node := o.node.(pieces := o.node.pieces + dots, glows := o.node.glows + GlowsFor(motions));
    assert (o.node.pieces + dots)[|o.node.pieces|..] == dots;
    o.(node := Rotate(node, rotationDuration), moods := ms,
       initialDuration := Some(rotationDuration), currentDuration := Some(rotationDuration))
  }

  lemma EveryMoodHasARun(ms: seq<ActiveMood>, motions: seq<Motion>)
    requires IsMoodSequence(ms) && |motions| == DotCount
    ensures PieceMoods(ColouredDots(ms, motions)) == Elements(ms)
  {
    MoodSequenceFacts(ms);
    DotColours(ms, motions);
    forall j | 0 <= j < 4 ensures ms[j] in DotMoods(ms, DotCount) {
      DotRuns(RunStarts[j], j);
      assert ms[MoodIndex(RunStarts[j], 4, DotCount)] == ms[j];
    }
  }

  /** `updateRotationSpeed(to:)`: only the node's own speed changes. */
  function UpdateRotationSpeed(o: Obstacle, multiplier: real): (o': Obstacle)
    ensures o'.node.speed == multiplier
    ensures o'.node.pieces == o.node.pieces && o'.node.glows == o.node.glows && o'.rings == o.rings
    ensures o'.moods == o.moods && o'.node.motion == o.node.motion
  {
    o.(node := o.node.(speed := multiplier))
  }
}
