/**
 * `MSObstacleDotTriangle`: `n` dots going round a triangle outline one after
 * another, coloured in runs from a shuffled mood sequence. The node itself
 * does not turn.
 */
module ObstacleDotTriangle {
  import opened Optional
  import opened Sequences
  import opened Moods
  import opened MoodManager
  import opened ObstacleBase
  import opened Dots

  /**
   * `createShape`, with the shuffle's draws passed in as `picks` and the
   * number of dots the outline fits as `n`: `n` dots and their glows are
   * added, dot `i` starting round the outline after an `i / n` share of the
   * period; the appended moods, `added`, are different, come from the drawn sequence
   * in its order (all of it once there are at least four dots, none without
   * dots) and are exactly the dots' colours; both durations record the
   * layout's rotation period, which is also the dots' period.
   */
  method CreateShape(o: Obstacle, picks: seq<nat>, n: nat, rotationDuration: real) returns (o': Obstacle, added: seq<ActiveMood>)
    requires |picks| == 4
    ensures o'.kind == o.kind && o'.position == o.position && o'.rings == o.rings
    ensures o'.node.motion == o.node.motion && o'.node.speed == o.node.speed
    ensures o'.moods == o.moods + added && Distinct(added)
    ensures n < 4 ==> IsSubsequence(added, RandomMoodSequence(picks))
    ensures n >= 4 ==> added == RandomMoodSequence(picks)
    ensures n == 0 ==> added == []
    ensures |o'.node.pieces| == |o.node.pieces| + n && o'.node.pieces[..|o.node.pieces|] == o.node.pieces
    ensures PieceMoods(o'.node.pieces[|o.node.pieces|..]) == Elements(added)
    ensures forall i :: |o.node.pieces| <= i < |o'.node.pieces| ==>
      o'.node.pieces[i].motion == OutlineMotions(rotationDuration, n)[i - |o.node.pieces|]
    ensures o'.initialDuration == Some(rotationDuration)
    ensures o'.currentDuration == Some(rotationDuration)
  {
    var ms := RandomMoodSequence(picks);
    MoodSequenceDistinct(ms);
    var motions := OutlineMotions(rotationDuration, n);
    o', added := AppendDots(o, ms, motions);
    var dots := ColouredDots(ms, motions);
    assert o'.node.pieces[|o.node.pieces|..] == dots;
    forall i | |o.node.pieces| <= i < |o'.node.pieces|
      ensures o'.node.pieces[i].motion == motions[i - |o.node.pieces|]
    {
      assert o'.node.pieces[i] == dots[i - |o.node.pieces|];
    }
    o' := o'.(initialDuration := Some(rotationDuration), currentDuration := Some(rotationDuration));
  }
}
