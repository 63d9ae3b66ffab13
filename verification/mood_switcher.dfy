/**
 * `MSMoodSwitcher`: the pickup placed between two obstacles. Touching it
 * gives the ball a new mood, drawn from the moods that both the obstacle
 * behind it and the obstacle ahead of it show.
 */
module MoodSwitcher {
  import opened Optional
  import opened Sequences
  import opened Moods
  import ObstacleBase
  import Physics

  /**
   * A pickup: `moods` are the next obstacle's moods, `lastObstacleMoods` the
   * previous obstacle's.
   */
  datatype Pickup = Pickup(
    radius: real,
    moods: seq<ActiveMood>,
    lastObstacleMoods: seq<ActiveMood>,
    position: ObstacleBase.Point,
    body: Physics.Body)

  /**
   * `init(radius:moods:lastObstacleMoods:)` with `setupPhysics`: both mood
   * lists are kept exactly as given, and the body is a pickup body. The
   * position is set afterwards by whoever places the pickup.
   */
  function NewPickup(radius: real, moods: seq<ActiveMood>, lastObstacleMoods: seq<ActiveMood>): (p: Pickup)
    ensures p.radius == radius && p.moods == moods && p.lastObstacleMoods == lastObstacleMoods
    ensures p.body.category == Physics.MoodSwitchMask
    ensures p.body.contactTest == Physics.BallMask && p.body.collision == Physics.NoneMask
  {
    Pickup(radius, moods, lastObstacleMoods, ObstacleBase.Point(0.0, 0.0), Physics.PickupBody)
  }

  /** A pickup reports a contact with the ball only, and nothing deflects it. */
  lemma PickupTouchesOnlyTheBall(y: Physics.Body)
    requires Physics.IsGameBody(y)
    ensures Physics.ReportsContact(Physics.PickupBody, y) <==> y == Physics.BallBody
    ensures !Physics.DeflectedBy(Physics.PickupBody, y)
  {
  }

  /**
   * The moods the pickup may offer: the next obstacle's moods that the
   * previous obstacle also shows, in the next obstacle's order.
   */
  function ValidMoods(p: Pickup): (v: seq<ActiveMood>)
    ensures forall m :: m in v <==> m in p.moods && m in p.lastObstacleMoods
    ensures IsSubsequence(v, p.moods)
  {
    Filter(p.moods, m => m in p.lastObstacleMoods)
  }

  /**
   * The redraw loop of `getRandomMood` ends: either there is nothing to draw
   * from, or some valid mood differs from the ball's.
   */
  predicate LoopEnds(valid: seq<ActiveMood>, current: Mood)
  {
    |valid| == 0 || exists m :: m in valid && m != current
  }

  /**
   * `getRandomMood(except:)`, for a pickup whose redraw loop ends; `pick`
   * chooses among the valid moods that differ from `current`. With no valid
   * mood the ball keeps `current`; otherwise the result is a valid mood other
   * than `current`.
   */
  function GetRandomMood(p: Pickup, current: Mood, pick: nat): (r: Mood)
    requires LoopEnds(ValidMoods(p), current)
    ensures ValidMoods(p) == [] ==> r == current
    ensures ValidMoods(p) != [] ==> r in ValidMoods(p) && r != current
  {
    var valid := ValidMoods(p);
    if |valid| == 0 then current
    else
      var others := Others(valid, current);
      var m :| m in valid && m != current;
      assert m in others;
      others[pick % |others|]
  }

  /** The valid moods other than `current`, in order: what the redraw loop can end on. */
  function Others(valid: seq<ActiveMood>, current: Mood): (r: seq<ActiveMood>)
    ensures forall m :: m in r <==> m in valid && m != current
  {
    Filter(valid, (m: ActiveMood) => m != current)
  }

  /** Every valid mood other than `current` can be offered. */
  lemma GetRandomMoodReachesEveryOther(p: Pickup, current: Mood, m: ActiveMood)
    requires m in ValidMoods(p) && m != current
    ensures LoopEnds(ValidMoods(p), current)
    ensures exists pick :: GetRandomMood(p, current, pick) == m
  {
    var others := Others(ValidMoods(p), current);
    assert m in others;
    var i := IndexOf(others, m);
    ModOfSmaller(i, |others|);
    assert GetRandomMood(p, current, i) == m;
  }

  /**
   * The redraw loop as written, over a finite run of draws: the first draw
   * that differs from `current`, or `None` if every draw equals it.
   */
  function FirstDifferentDraw(valid: seq<ActiveMood>, current: Mood, draws: seq<nat>): (r: Option<ActiveMood>)
    requires |valid| > 0
    ensures r.Some? ==> r.value in valid && r.value != current
  {
    if |draws| == 0 then None
    else if valid[draws[0] % |valid|] != current then Some(valid[draws[0] % |valid|])
    else FirstDifferentDraw(valid, current, draws[1..])
  }

  /**
   * When every valid mood is the ball's own, no run of draws ends the loop:
   * this is the case `LoopEnds` excludes. Otherwise a single draw can end it.
   */
  lemma {:induction false} LoopEndsExactly(valid: seq<ActiveMood>, current: Mood, draws: seq<nat>)
    requires |valid| > 0
    ensures !LoopEnds(valid, current) ==> FirstDifferentDraw(valid, current, draws) == None
    ensures LoopEnds(valid, current) ==> exists d :: FirstDifferentDraw(valid, current, [d]).Some?
  {
    if !LoopEnds(valid, current) && |draws| > 0 {
      assert valid[draws[0] % |valid|] in valid;
      LoopEndsExactly(valid, current, draws[1..]);
    }
    if LoopEnds(valid, current) {
      var m :| m in valid && m != current;
      var i := IndexOf(valid, m);
      ModOfSmaller(i, |valid|);
      assert FirstDifferentDraw(valid, current, [i]).Some?;
    }
  }

  /**
   * A pickup offering at least three different moods, which is what the
   * obstacle generator guarantees.
   */
  predicate Passable(p: Pickup)
  {
    |Elements(ValidMoods(p))| >= 3
  }

  /** On a passable pickup the loop ends and a new mood is offered, whatever the ball's mood. */
  lemma PassableOffersANewMood(p: Pickup, current: Mood, pick: nat)
    requires Passable(p)
    ensures LoopEnds(ValidMoods(p), current)
    ensures GetRandomMood(p, current, pick) != current
  {
    var valid := ValidMoods(p);
    var e := Elements(valid);
    assert e != {};
    var x :| x in e;
    var rest := e - {x};
    assert |rest| >= 2;
    assert rest != {};
    var y :| y in rest;
    assert x in valid && y in valid && x != y;
    assert x != current || y != current;
  }
}
