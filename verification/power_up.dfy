/**
 * `MSPowerUpIndicator`: the power-up meter. Each mood has a segment that
 * fills by 30 degrees per credit up to 90; when every segment is full the
 * power-up starts, and its 360-degree ring then drains by 72 per decrement
 * until it is empty and the power-up ends.
 *
 * The animation of a credit is modelled by its net effect, applied at once,
 * followed by its completion check. Calls to the delegate are returned as a
 * `Notice` for the caller to act on.
 */
module PowerUp {
  import opened Moods

  /** `MSPowerUpType`. */
  datatype PowerUpType = Surge | Slow | Invincible

  const AllPowerUps: seq<PowerUpType> := [Surge, Slow, Invincible]

  const MoodSegmentIncrement: int := 30
  const FullSegment: int := 90
  const PowerUpDecrement: int := 72
  const FullPowerUp: int := 360

  /** What the meter tells its delegate. */
  datatype Notice = Quiet | Activated | Deactivated

  /** The meter: each mood's segment in degrees, whether a power-up runs, the ring in degrees. */
  datatype Meter = Meter(progress: map<Mood, int>, active: bool, powerUpProgress: int)

  /** The progress map after `setupMoodSegments`: each of the four moods at 0, and no segment for `Moodless`. */
  const EmptySegments: map<Mood, int> := map[Happy := 0, Sad := 0, Angry := 0, InLove := 0]

  /** A segment value that credits can produce. */
  predicate IsLevel(v: int)
  {
    v == 0 || v == 30 || v == 60 || v == 90
  }

  /** `checkIfAllSegmentsFull`: no segment in the map is below 90. */
  predicate AllFull(progress: map<Mood, int>)
  {
    forall x :: x in progress ==> progress[x] >= FullSegment
  }

  /** Every segment in the map set back to 0. */
  function Emptied(progress: map<Mood, int>): (r: map<Mood, int>)
    ensures r.Keys == progress.Keys
    ensures forall x :: x in r ==> r[x] == 0
  {
    map x | x in progress :: 0
  }

  /**
   * The meter's invariant: every mood has a segment on a credit level; an
   * idle meter has a full ring; a running power-up has all segments full and
   * a ring of one to five decrements.
   */
  predicate Valid(m: Meter)
  {
    (forall x: Mood :: x in m.progress <==> x != Moodless) &&
    (forall x :: x in m.progress ==> IsLevel(m.progress[x])) &&
    (!m.active ==> m.powerUpProgress == FullPowerUp) &&
    (m.active ==> AllFull(m.progress) && 0 < m.powerUpProgress <= FullPowerUp && m.powerUpProgress % PowerUpDecrement == 0)
  }

  /** A new meter: all segments empty, no power-up, full ring. */
  function NewMeter(): (m: Meter)
    ensures Valid(m) && !m.active && m.powerUpProgress == FullPowerUp
    ensures forall x: Mood :: x in m.progress <==> x != Moodless
    ensures forall x :: x in m.progress ==> m.progress[x] == 0
  {
    Meter(EmptySegments, false, FullPowerUp)
  }

  /** `activatePowerUp`: does nothing if one already runs; otherwise starts it and tells the delegate. */
  function Activate(m: Meter): (r: (Meter, Notice))
    ensures m.active ==> r == (m, Quiet)
    ensures !m.active ==> r.0.active && r.1 == Activated
    ensures r.0.progress == m.progress && r.0.powerUpProgress == m.powerUpProgress
  {
    if m.active then (m, Quiet) else (m.(active := true), Activated)
  }

  /**
   * `deactivatePowerUp`: does nothing if no power-up runs; otherwise stops
   * it, refills the ring, empties every segment and tells the delegate.
   */
  function Deactivate(m: Meter): (r: (Meter, Notice))
    ensures !m.active ==> r == (m, Quiet)
    ensures m.active ==> !r.0.active && r.0.powerUpProgress == FullPowerUp && r.1 == Deactivated
    ensures m.active ==> r.0.progress.Keys == m.progress.Keys && forall x :: x in r.0.progress ==> r.0.progress[x] == 0
  {
    if !m.active then (m, Quiet) else (Meter(Emptied(m.progress), false, FullPowerUp), Deactivated)
  }

  /** The smaller of two values, as Swift's `min`. */
  function Min(a: int, b: int): int
  {
    if a < b then a else b
  }

  /**
   * `increaseProgress(for:)`. While a power-up runs, or for a mood without a
   * segment, nothing happens. Otherwise the mood's segment becomes
   * `min(p + 30, 90)`; if that raised it to 90 and every segment is full,
   * the power-up starts. A segment already at 90 changes nothing and runs
   * no check.
   */
  function IncreaseProgress(m: Meter, mood: Mood): (r: (Meter, Notice))
    ensures m.active || mood !in m.progress ==> r == (m, Quiet)
    ensures !m.active && mood in m.progress && m.progress[mood] < FullSegment ==>
      r.0.progress == m.progress[mood := Min(m.progress[mood] + MoodSegmentIncrement, FullSegment)] &&
      r.0.powerUpProgress == m.powerUpProgress
    ensures mood in m.progress && m.progress[mood] >= FullSegment ==> r == (m, Quiet)
    ensures r.1 != Deactivated
  {
    if m.active || mood !in m.progress then (m, Quiet)
    else
      var current := m.progress[mood];
      var target := Min(current + MoodSegmentIncrement, FullSegment);
      if target - current <= 0 then (m, Quiet)
      else
        var m' := m.(progress := m.progress[mood := target]);
        if target == FullSegment && AllFull(m'.progress) then Activate(m') else (m', Quiet)
  }

  /**
   * A credit starts the power-up exactly when it fills the mood's segment
   * while every other segment is already full.
   */
  lemma {:induction false} CreditActivatesExactly(m: Meter, mood: Mood)
    requires Valid(m)
    ensures IncreaseProgress(m, mood).1 == Activated <==>
      !m.active && mood in m.progress && m.progress[mood] < FullSegment <= m.progress[mood] + MoodSegmentIncrement &&
      forall x :: x in m.progress && x != mood ==> m.progress[x] >= FullSegment
    ensures IncreaseProgress(m, mood).1 == Activated <==> IncreaseProgress(m, mood).0.active && !m.active
  {
    var r := IncreaseProgress(m, mood);
    if !m.active && mood in m.progress {
      var current := m.progress[mood];
      var target := Min(current + MoodSegmentIncrement, FullSegment);
      var p' := m.progress[mood := target];
      if current < FullSegment <= current + MoodSegmentIncrement && forall x :: x in m.progress && x != mood ==> m.progress[x] >= FullSegment {
        assert AllFull(p') by {
          forall x | x in p' ensures p'[x] >= FullSegment {
            if x != mood {
              assert p'[x] == m.progress[x];
            }
          }
        }
      }
      if r.1 == Activated {
        forall x | x in m.progress && x != mood ensures m.progress[x] >= FullSegment {
          assert p'[x] == m.progress[x];
        }
      }
    }
  }

  /** The meter after `k` credits to `mood`. */
  function IncreaseTimes(m: Meter, mood: Mood, k: nat): Meter
  {
    if k == 0 then m else IncreaseProgress(IncreaseTimes(m, mood, k - 1), mood).0
  }

  /**
   * One credit to a mood with a segment: the meter ends up running exactly
   * when it already ran, or the credit found the segment below 90 and left
   * every segment full.
   */
  lemma CreditStep(prev: Meter, mood: Mood)
    requires Valid(prev) && mood in prev.progress
    ensures IncreaseProgress(prev, mood).0.active <==>
      prev.active || (prev.progress[mood] < FullSegment && AllFull(IncreaseProgress(prev, mood).0.progress))
  {
    if !prev.active {
      CreditActivatesExactly(prev, mood);
      var r := IncreaseProgress(prev, mood).0;
      if prev.progress[mood] < FullSegment && AllFull(r.progress) {
        assert r.progress[mood] >= FullSegment;
        forall x | x in prev.progress && x != mood ensures prev.progress[x] >= FullSegment {
          assert r.progress[x] == prev.progress[x];
        }
      }
    }
  }

  /** A segment at `p` after `k` credits: raised by 30 a credit, never past 90. */
  function Filled(p: int, k: nat): int
  {
    Min(p + MoodSegmentIncrement * k, FullSegment)
  }

  /**
   * One more credit to a meter whose segment stands at `Filled(p, k - 1)`
   * over `base` brings it to `Filled(p, k)` and keeps the ring full.
   */
  lemma CreditFills(prev: Meter, mood: Mood, base: map<Mood, int>, p: int, k: nat)
    requires Valid(prev) && k > 0 && mood in prev.progress
    requires prev.progress == base[mood := Filled(p, k - 1)] && prev.powerUpProgress == FullPowerUp
    ensures IncreaseProgress(prev, mood).0.progress == base[mood := Filled(p, k)]
    ensures IncreaseProgress(prev, mood).0.powerUpProgress == FullPowerUp
  {
    var before := Filled(p, k - 1);
    assert prev.progress[mood] == before;
    if prev.active {
      assert AllFull(prev.progress);
      assert before >= FullSegment;
    }
    if before >= FullSegment {
      assert Filled(p, k) == FullSegment;
    } else {
      assert Min(before + MoodSegmentIncrement, FullSegment) == Filled(p, k);
      assert prev.progress[mood := Filled(p, k)] == base[mood := Filled(p, k)];
    }
  }

  /**
   * `k` credits to one mood of an idle meter raise its segment to
   * `min(p + 30 k, 90)` and leave the others alone.
   */
  lemma {:induction false} CreditsFillSegment(m: Meter, mood: Mood, k: nat)
    requires Valid(m) && !m.active && mood in m.progress
    ensures IncreaseTimes(m, mood, k).progress == m.progress[mood := Min(m.progress[mood] + MoodSegmentIncrement * k, FullSegment)]
    ensures IncreaseTimes(m, mood, k).powerUpProgress == FullPowerUp
  {
    if k == 0 {
      assert m.progress[mood := m.progress[mood]] == m.progress;
    } else {
      CreditsFillSegment(m, mood, k - 1);
      OperationsKeepValidTimes(m, mood, k - 1);
      CreditFills(IncreaseTimes(m, mood, k - 1), mood, m.progress, m.progress[mood], k);
    }
  }

  /**
   * One more credit to a meter that has taken `j` credits since its segment
   * stood at `p`: it runs afterwards exactly when `p` was below 90 and every
   * segment is now full.
   */
  lemma ActivationStep(prev: Meter, mood: Mood, p: int, j: nat)
    requires Valid(prev) && mood in prev.progress && p <= prev.progress[mood]
    requires j == 0 ==> prev.progress[mood] == p && !prev.active
    requires prev.active <==> j > 0 && p < FullSegment && AllFull(prev.progress)
    ensures IncreaseProgress(prev, mood).0.active <==>
      p < FullSegment && AllFull(IncreaseProgress(prev, mood).0.progress)
  {
    CreditStep(prev, mood);
    if !prev.active && prev.progress[mood] >= FullSegment {
      assert IncreaseProgress(prev, mood).0 == prev;
    }
  }

  /**
   * After `k` credits to one mood of an idle meter, the power-up runs exactly
   * when some credit found the segment below 90 and every segment is now full.
   */
  lemma {:induction false} CreditsActivateExactly(m: Meter, mood: Mood, k: nat)
    requires Valid(m) && !m.active && mood in m.progress
    ensures IncreaseTimes(m, mood, k).active <==>
      k > 0 && m.progress[mood] < FullSegment && AllFull(IncreaseTimes(m, mood, k).progress)
  {
    if k > 0 {
      CreditsActivateExactly(m, mood, k - 1);
      CreditsFillSegment(m, mood, k - 1);
      OperationsKeepValidTimes(m, mood, k - 1);
      var prev := IncreaseTimes(m, mood, k - 1);
      assert IsLevel(m.progress[mood]) && m.progress[mood] <= prev.progress[mood];
      ActivationStep(prev, mood, m.progress[mood], k - 1);
    }
  }

  /** Any number of credits keeps the invariant. */
  lemma {:induction false} OperationsKeepValidTimes(m: Meter, mood: Mood, k: nat)
    requires Valid(m)
    ensures Valid(IncreaseTimes(m, mood, k))
  {
    if k > 0 {
      OperationsKeepValidTimes(m, mood, k - 1);
      OperationsKeepValid(IncreaseTimes(m, mood, k - 1), mood);
    }
  }

  /**
   * `decreasePowerUpProgress`: does nothing if no power-up runs; otherwise
   * drains 72 degrees, and when the ring is empty clamps it to 0 and ends
   * the power-up.
   */
  function DecreaseProgress(m: Meter): (r: (Meter, Notice))
    ensures !m.active ==> r == (m, Quiet)
    ensures m.active && m.powerUpProgress - PowerUpDecrement > 0 ==>
      r == (m.(powerUpProgress := m.powerUpProgress - PowerUpDecrement), Quiet)
    ensures m.active && m.powerUpProgress - PowerUpDecrement <= 0 ==>
      !r.0.active && r.1 == Deactivated && r.0.powerUpProgress == FullPowerUp
    ensures r.1 != Activated
  {
    if !m.active then (m, Quiet)
    else
      var p := m.powerUpProgress - PowerUpDecrement;
      if p <= 0 then Deactivate(m.(powerUpProgress := 0))
      else (m.(powerUpProgress := p), Quiet)
  }

  /**
   * `resetMeter`: a running power-up is ended (telling the delegate); an idle
   * meter just has its segments emptied. Either way the meter ends idle with
   * every segment at 0.
   */
  function ResetMeter(m: Meter): (r: (Meter, Notice))
    ensures !r.0.active && r.0.progress.Keys == m.progress.Keys
    ensures forall x :: x in r.0.progress ==> r.0.progress[x] == 0
    ensures r.1 == Deactivated <==> m.active
    ensures r.1 != Activated
  {
    if m.active then Deactivate(m) else (m.(progress := Emptied(m.progress)), Quiet)
  }

  /** Every operation keeps the invariant. */
  lemma {:induction false} OperationsKeepValid(m: Meter, mood: Mood)
    requires Valid(m)
    ensures Valid(IncreaseProgress(m, mood).0)
    ensures Valid(DecreaseProgress(m).0)
    ensures Valid(ResetMeter(m).0)
  {
    if !m.active && mood in m.progress {
      var current := m.progress[mood];
      var target := Min(current + MoodSegmentIncrement, FullSegment);
      assert IsLevel(target);
    }
  }

  /** The meter after `k` decrements. */
  function DecreaseTimes(m: Meter, k: nat): Meter
  {
    if k == 0 then m else DecreaseProgress(DecreaseTimes(m, k - 1)).0
  }

  /**
   * While the ring holds more than `k` decrements, `k` decrements keep the
   * power-up running and drain exactly `72 k` degrees.
   */
  lemma {:induction false} DrainWhileRunning(m: Meter, k: nat)
    requires m.active && PowerUpDecrement * k < m.powerUpProgress
    ensures DecreaseTimes(m, k).active
    ensures DecreaseTimes(m, k).powerUpProgress == m.powerUpProgress - PowerUpDecrement * k
    ensures DecreaseTimes(m, k).progress == m.progress
  {
    if k > 0 {
      DrainWhileRunning(m, k - 1);
    }
  }

  /**
   * Once the decrements cover the whole ring, the power-up has ended: the
   * meter is idle with a full ring and every segment at 0.
   */
  lemma {:induction false} DrainEnds(m: Meter, k: nat)
    requires Valid(m) && m.active && PowerUpDecrement * k >= m.powerUpProgress
    ensures !DecreaseTimes(m, k).active && DecreaseTimes(m, k).powerUpProgress == FullPowerUp
    ensures DecreaseTimes(m, k).progress.Keys == m.progress.Keys
    ensures forall x :: x in DecreaseTimes(m, k).progress ==> DecreaseTimes(m, k).progress[x] == 0
  {
    if PowerUpDecrement * (k - 1) < m.powerUpProgress {
      DrainWhileRunning(m, k - 1);
    } else {
      DrainEnds(m, k - 1);
    }
  }

  /**
   * A freshly started power-up survives four decrements and ends on the
   * fifth, which tells the delegate.
   */
  lemma FifthDecrementEnds(m: Meter)
    requires m.active && m.powerUpProgress == FullPowerUp
    ensures forall k :: 0 <= k < 5 ==> DecreaseTimes(m, k).active
    ensures DecreaseProgress(DecreaseTimes(m, 4)).1 == Deactivated
    ensures !DecreaseTimes(m, 5).active
  {
    forall k | 0 <= k < 5 ensures DecreaseTimes(m, k).active {
      DrainWhileRunning(m, k);
    }
    DrainWhileRunning(m, 4);
  }
}
