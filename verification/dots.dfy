/**
 * What the four dotted obstacles share: `n` dots coloured by the rule of
 * `DotIndex`, a glow behind each dot running the same action, and the mood
 * list built by appending a mood each time the dot's mood number changes.
 */
module Dots {
  import opened Sequences
  import opened Moods
  import opened DotIndex
  import opened ObstacleBase
  import Physics

  /** The moods some dot takes, when `n` dots are coloured from `ms`. */
  function DotMoods(ms: seq<ActiveMood>, n: nat): set<ActiveMood>
    requires n > 0 ==> |ms| > 0
  {
    set i | 0 <= i < n :: ms[MoodIndex(i, |ms|, n)]
  }

  /**
   * One dot per entry of `motions`: dot `i` is coloured `ms[(i * |ms|) / n]`,
   * has the obstacle body and runs `motions[i]`.
   */
  function ColouredDots(ms: seq<ActiveMood>, motions: seq<Motion>): (ps: seq<Piece>)
    requires |motions| > 0 ==> |ms| > 0
    ensures |ps| == |motions|
    ensures forall i :: 0 <= i < |ps| ==> ps[i].body == Physics.SegmentBody && ps[i].motion == motions[i]
  {
    seq(|motions|, i requires 0 <= i < |motions| =>
      Piece(ms[MoodIndex(i, |ms|, |motions|)], Physics.SegmentBody, motions[i], NormalSpeed))
  }

  /** The glows drawn behind the dots, running the dots' actions. */
  function GlowsFor(motions: seq<Motion>): (gs: seq<Glow>)
    ensures |gs| == |motions|
    ensures forall i :: 0 <= i < |gs| ==> gs[i].motion == motions[i]
  {
    seq(|motions|, i requires 0 <= i < |motions| => Glow(motions[i], NormalSpeed))
  }

  /** The dots are coloured with exactly the moods the rule picks. */
  lemma {:induction false} DotColours(ms: seq<ActiveMood>, motions: seq<Motion>)
    requires |motions| > 0 ==> |ms| > 0
    ensures PieceMoods(ColouredDots(ms, motions)) == DotMoods(ms, |motions|)
  {
    var ps := ColouredDots(ms, motions);
    forall m ensures m in PieceMoods(ps) <==> m in DotMoods(ms, |motions|) {
      if m in PieceMoods(ps) {
        var i :| 0 <= i < |ps| && ps[i].mood == m;
        assert ms[MoodIndex(i, |ms|, |motions|)] == m;
      }
      if m in DotMoods(ms, |motions|) {
        var i :| 0 <= i < |motions| && ms[MoodIndex(i, |ms|, |motions|)] == m;
        assert ps[i].mood == m;
      }
    }
  }

  /**
   * The append-on-change loop of the dotted shapes, for `n` dots and a mood
   * sequence without repeats: the moods it lists are different, are the
   * sequence with some entries left out, and are exactly the moods some dot is coloured with;
   * with at least as many dots as moods they are the whole sequence, and with
   * no dots they are none.
   */
  method ListOnChange(ms: seq<ActiveMood>, n: nat) returns (added: seq<ActiveMood>)
    requires Distinct(ms) && (n > 0 ==> |ms| > 0)
    ensures Distinct(added) && IsSubsequence(added, ms)
    ensures Elements(added) == DotMoods(ms, n)
    ensures n >= |ms| ==> added == ms
    ensures n == 0 ==> added == []
  {
    var used;
    added, used := AppendOnChange(ms, n);
    ListedInOrder(ms, added, used);
    ListedAreDotMoods(ms, n, added, used);
  }

  lemma ListedInOrder(ms: seq<ActiveMood>, added: seq<ActiveMood>, used: seq<nat>)
    requires Distinct(ms) && |used| == |added| && Increasing(used)
    requires forall t :: 0 <= t < |used| ==> used[t] < |ms| && added[t] == ms[used[t]]
    ensures Distinct(added) && IsSubsequence(added, ms)
  {
    SubsequenceAt(added, ms, used);
  }

  lemma ListedAreDotMoods(ms: seq<ActiveMood>, n: nat, added: seq<ActiveMood>, used: seq<nat>)
    requires n > 0 ==> |ms| > 0
    requires |used| == |added|
    requires forall t :: 0 <= t < |used| ==> used[t] < |ms| && added[t] == ms[used[t]]
    requires forall i :: 0 <= i < n ==> MoodIndex(i, |ms|, n) in used
    requires forall t :: 0 <= t < |used| ==> used[t] in DotIndices(|ms|, n)
    ensures Elements(added) == DotMoods(ms, n)
  {
    forall m ensures m in Elements(added) <==> m in DotMoods(ms, n) {
      if m in Elements(added) {
        var t :| 0 <= t < |added| && added[t] == m;
        var d := DotIndices(|ms|, n);
        var i :| 0 <= i < |d| && d[i] == used[t];
        assert ms[MoodIndex(i, |ms|, n)] == m;
      }
      if m in DotMoods(ms, n) {
        var i :| 0 <= i < n && ms[MoodIndex(i, |ms|, n)] == m;
        var t :| 0 <= t < |used| && used[t] == MoodIndex(i, |ms|, n);
        assert added[t] == m;
      }
    }
  }

  /**
   * The dotted shapes' loop body, run for every dot: add the dot and its
   * glow, both running the dot's action, and append the dot's mood when its
   * mood number differs from the previous dot's; `added` is what was
   * appended. Nothing else changes.
   */
  method AppendDots(o: Obstacle, ms: seq<ActiveMood>, motions: seq<Motion>) returns (o': Obstacle, added: seq<ActiveMood>)
    requires Distinct(ms) && (|motions| > 0 ==> |ms| > 0)
    ensures o'.kind == o.kind && o'.position == o.position && o'.rings == o.rings
    ensures o'.initialDuration == o.initialDuration && o'.currentDuration == o.currentDuration
    ensures o'.node.angle == o.node.angle && o'.node.motion == o.node.motion && o'.node.speed == o.node.speed
    ensures o'.node.pieces == o.node.pieces + ColouredDots(ms, motions)
    ensures o'.node.glows == o.node.glows + GlowsFor(motions)
    ensures o'.moods == o.moods + added
    ensures Distinct(added)
    ensures |motions| < |ms| ==> IsSubsequence(added, ms)
    ensures Elements(added) == PieceMoods(ColouredDots(ms, motions))
    ensures |motions| >= |ms| ==> added == ms
    ensures |motions| == 0 ==> added == []
  {
    added := ListOnChange(ms, |motions|);
    DotColours(ms, motions);
    var node := o.node.(pieces := o.node.pieces + ColouredDots(ms, motions), glows := o.node.glows + GlowsFor(motions));
    o' := o.(node := node, moods := o.moods + added);
  }

  /**
   * Each dot starts going round the outline `delay(i)` seconds after the
   * first, the delays spreading the `n` dots evenly over one `period`.
   */
  function OutlineMotions(period: real, n: nat): (ms: seq<Motion>)
    ensures |ms| == n
    ensures forall i :: 0 <= i < n ==>
      ms[i].FollowOutline? && ms[i].period == period && ms[i].delay == (period / n as real) * i as real
  {
    seq(n, i requires 0 <= i < n => FollowOutline(period, (period / n as real) * i as real))
  }

  /**
   * `updateRotationSpeed(to:)` of the outline-following shapes: every dot and
   * every glow runs at `multiplier`; nothing else changes.
   */
  function SetDotSpeeds(o: Obstacle, multiplier: real): (o': Obstacle)
    ensures |o'.node.pieces| == |o.node.pieces| && |o'.node.glows| == |o.node.glows|
    ensures forall i :: 0 <= i < |o.node.pieces| ==> o'.node.pieces[i] == o.node.pieces[i].(speed := multiplier)
    ensures forall i :: 0 <= i < |o.node.glows| ==> o'.node.glows[i] == o.node.glows[i].(speed := multiplier)
    ensures o'.node.speed == o.node.speed && o'.node.motion == o.node.motion && o'.rings == o.rings
    ensures o'.moods == o.moods && o'.kind == o.kind && o'.position == o.position
  {
    var ps := seq(|o.node.pieces|, i requires 0 <= i < |o.node.pieces| => o.node.pieces[i].(speed := multiplier));
    var gs := seq(|o.node.glows|, i requires 0 <= i < |o.node.glows| => o.node.glows[i].(speed := multiplier));
    o.(node := o.node.(pieces := ps, glows := gs))
  }
}
