/**
 * `MSMoodManager`: the list of active moods, random draws from it, and the
 * colour comparison that decides whether the ball may pass a segment.
 */
module MoodManager {
  import opened Optional
  import opened Sequences
  import opened HexColor
  import opened Moods

  /** `activeMoods`, in the manager's order (which differs from `allCases`). */
  const ActiveMoods: seq<ActiveMood> := [Happy, Sad, Angry, InLove]

  /** A rearrangement of the four active moods. */
  predicate IsMoodSequence(s: seq<ActiveMood>)
  {
    multiset(s) == multiset(ActiveMoods)
  }

  /** A rearrangement of the active moods has four entries and no repeats. */
  lemma MoodSequenceDistinct(s: seq<ActiveMood>)
    requires IsMoodSequence(s)
    ensures |s| == 4 && Distinct(s)
  {
    assert |s| == |multiset(s)| == 4;
    assert Distinct(ActiveMoods);
    PermutationKeepsDistinct(ActiveMoods, s);
  }

  /** A rearrangement of the active moods has four entries. */
  lemma MoodSequenceLength(s: seq<ActiveMood>)
    requires IsMoodSequence(s)
    ensures |s| == 4
  {
    assert |s| == |multiset(s)|;
  }

  /**
   * What a rearrangement of the active moods looks like: four entries, no
   * repeats, and every declared mood present.
   */
  lemma MoodSequenceFacts(s: seq<ActiveMood>)
    requires IsMoodSequence(s)
    ensures |s| == 4 && Distinct(s)
    ensures forall m: Mood :: m in s <==> m != Moodless
  {
    MoodSequenceDistinct(s);
    forall m: Mood ensures m in s <==> m != Moodless {
      assert m in s <==> m in multiset(s);
    }
  }

  /** Four different active moods leave none out. */
  lemma FourDifferentCoverAll(s: seq<ActiveMood>, x: ActiveMood)
    requires |s| == 4 && Distinct(s)
    ensures x in s
  {
    var a, b, c, d := s[0], s[1], s[2], s[3];
    assert a != b && a != c && a != d && b != c && b != d && c != d;
    if x != a && x != b && x != c {
      assert x == d;
    }
  }

  /** Four different active moods are a rearrangement of all four. */
  lemma FourDifferentMoods(s: seq<ActiveMood>)
    requires |s| == 4 && Distinct(s)
    ensures IsMoodSequence(s)
  {
    assert Distinct(ActiveMoods);
    forall x: Mood ensures multiset(s)[x] == multiset(ActiveMoods)[x] {
      if x == Moodless {
        assert x !in s && x !in ActiveMoods;
      } else {
        FourDifferentCoverAll(s, x);
        DistinctCount(s, x);
        DistinctCount(ActiveMoods, x);
        assert x in ActiveMoods;
      }
    }
    assert multiset(s) == multiset(ActiveMoods);
  }

  /** `getRandomMoodSequence`: `activeMoods.shuffled()`, with the draws passed in. */
  function RandomMoodSequence(picks: seq<nat>): (s: seq<ActiveMood>)
    requires |picks| == 4
    ensures IsMoodSequence(s)
  {
    Shuffle(ActiveMoods, picks)
  }

  /** Every rearrangement of the active moods can be drawn. */
  lemma EveryMoodSequenceDrawable(s: seq<ActiveMood>)
    requires IsMoodSequence(s)
    ensures exists picks :: |picks| == 4 && RandomMoodSequence(picks) == s
  {
    ShuffleReachesEveryPermutation(ActiveMoods, s);
  }

  /** `getRandomMood`: `activeMoods.randomElement() ?? .happy`, with the draw passed in. */
  function RandomMood(pick: nat): (m: ActiveMood)
    ensures m in ActiveMoods
    ensures pick < |ActiveMoods| ==> m == ActiveMoods[pick]
  {
    ActiveMoods[pick % |ActiveMoods|]
  }

  /** Every active mood can be drawn. */
  lemma RandomMoodReachesEveryMood(m: ActiveMood)
    ensures exists pick :: RandomMood(pick) == m
  {
    var k := match m case Happy => 0 case Sad => 1 case Angry => 2 case InLove => 3;
    assert RandomMood(k) == m;
  }

  /**
   * `isMoodMatch`: false when the contacted node is not a shape node (`fill`
   * is `None`) or the ball has no mood; otherwise whether the mood's colour
   * code equals the hexadecimal form of the node's fill colour. A `Moodless`
   * ball has no colour code and matches nothing.
   */
  function IsMoodMatch(ballMood: Option<Mood>, fill: Option<Rgba>): (r: bool)
    ensures r ==> ballMood.Some? && ballMood.value != Moodless && fill.Some?
  {
    match (ballMood, fill)
    case (Some(m), Some(c)) => m != Moodless && ColorHex(m) == HexString(c)
    case _ => false
  }

  /** Against a segment filled with a mood's colour, the match is mood equality. */
  lemma {:induction false} MatchIsMoodEquality(ballMood: Option<Mood>, n: ActiveMood)
    ensures IsMoodMatch(ballMood, Some(Color(n))) <==> ballMood.Some? && ballMood.value == n
  {
    if ballMood.Some? && ballMood.value != Moodless && ballMood.value != n {
      ColorHexDistinct(ballMood.value, n);
    }
  }
}
