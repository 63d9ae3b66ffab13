/**
 * `MSPhysicsCategory` and the three masks every physics body carries, with
 * SpriteKit's rules for when two bodies report a contact and when one is
 * deflected by the other.
 */
module Physics {

  type Mask = bv32

  const NoneMask: Mask := 0
  const BallMask: Mask := 1
  const ObstacleMask: Mask := 2
  const LedgeMask: Mask := 4
  const MoodSwitchMask: Mask := 8

  /** The four node categories of the game. */
  datatype Category = Ball | Obstacle | Ledge | MoodSwitch

  function CategoryMask(c: Category): Mask
  {
    match c
    case Ball => BallMask
    case Obstacle => ObstacleMask
    case Ledge => LedgeMask
    case MoodSwitch => MoodSwitchMask
  }

  /** Exactly one bit is set. */
  predicate IsSingleBit(m: Mask)
  {
    m != 0 && m & (m - 1) == 0
  }

  /** `none` is empty, every category is one bit, and different categories share no bit. */
  lemma CategoryBits(c: Category, d: Category)
    ensures NoneMask == 0 && IsSingleBit(CategoryMask(c))
    ensures c != d <==> CategoryMask(c) & CategoryMask(d) == 0
  {
  }

  /**
   * The OR of two categories names the unordered pair: it is the same for two
   * pairs exactly when they hold the same categories.
   */
  lemma PairMaskIdentifiesPair(a: Category, b: Category, c: Category, d: Category)
    ensures CategoryMask(a) | CategoryMask(b) == CategoryMask(c) | CategoryMask(d)
        <==> (a == c && b == d) || (a == d && b == c)
  {
  }

  /** The three pairs the game reacts to have different OR values. */
  lemma BallPairMasksDistinct()
    ensures BallMask | ObstacleMask != BallMask | MoodSwitchMask
    ensures BallMask | ObstacleMask != BallMask | LedgeMask
    ensures BallMask | MoodSwitchMask != BallMask | LedgeMask
  {
    PairMaskIdentifiesPair(Ball, Obstacle, Ball, MoodSwitch);
    PairMaskIdentifiesPair(Ball, Obstacle, Ball, Ledge);
    PairMaskIdentifiesPair(Ball, MoodSwitch, Ball, Ledge);
  }

  /** The masks of one physics body. */
  datatype Body = Body(category: Mask, contactTest: Mask, collision: Mask)

  /** The ball: contact-tests obstacles and ledges, is deflected by ledges only. */
  const BallBody: Body := Body(BallMask, ObstacleMask | LedgeMask, LedgeMask)

  /** An obstacle segment or dot: contact-tests the ball, is deflected by nothing. */
  const SegmentBody: Body := Body(ObstacleMask, BallMask, NoneMask)

  /** The ledge under the ball at the start. */
  const LedgeBody: Body := Body(LedgeMask, BallMask, BallMask)

  /** A mood-switch pickup: contact-tests the ball, is deflected by nothing. */
  const PickupBody: Body := Body(MoodSwitchMask, BallMask, NoneMask)

  /** SpriteKit reports a contact when either body contact-tests the other's category. */
  predicate ReportsContact(x: Body, y: Body)
  {
    x.category & y.contactTest != 0 || y.category & x.contactTest != 0
  }

  /** SpriteKit deflects `x` off `y` when `x`'s collision mask holds `y`'s category. */
  predicate DeflectedBy(x: Body, y: Body)
  {
    x.collision & y.category != 0
  }

  /** A collision mask of `none` meets no category. */
  lemma NoneDeflectsNothing(x: Body, c: Category)
    requires x.collision == NoneMask
    ensures !DeflectedBy(x, Body(CategoryMask(c), 0, 0))
  {
  }

  predicate IsGameBody(x: Body)
  {
    x == BallBody || x == SegmentBody || x == LedgeBody || x == PickupBody
  }

  /**
   * Among the game's bodies a contact is reported exactly when one of the two
   * is the ball: segments, the ledge and pickups never report to each other.
   */
  lemma {:induction false} ContactsInvolveTheBall(x: Body, y: Body)
    requires IsGameBody(x) && IsGameBody(y)
    ensures ReportsContact(x, y) <==> (x == BallBody) != (y == BallBody)
  {
  }

  /** The ball is deflected by the ledge and passes through everything else. */
  lemma {:induction false} BallDeflectedOnlyByLedge(y: Body)
    requires IsGameBody(y)
    ensures DeflectedBy(BallBody, y) <==> y == LedgeBody
  {
  }
}
