/**
 * The rule the dotted obstacles use to colour `n` dots from a sequence of `k`
 * moods: dot `i` takes mood number `(i * k) / n` (integer division), and the
 * obstacle's mood list gets a mood appended each time that number changes.
 */
module DotIndex {

  /** Integer division is monotone in the dividend. */
  lemma DivMonotone(a: nat, b: nat, n: nat)
    requires a <= b && n > 0
    ensures a / n <= b / n
  {
    var qa, qb := a / n, b / n;
    assert qa * n <= a;
    assert b < qb * n + n;
    if qa > qb {
      assert qa >= qb + 1;
      MulMonotone(qb + 1, qa, n);
      assert false;
    }
  }

  lemma MulMonotone(x: nat, y: nat, n: nat)
    requires x <= y
    ensures x * n <= y * n
  {
  }

  /** A dividend below `k * n` has a quotient below `k`. */
  lemma DivBelow(a: nat, k: nat, n: nat)
    requires n > 0 && a < k * n
    ensures a / n < k
  {
    var q := a / n;
    assert q * n <= a;
    if q >= k {
      MulMonotone(k, q, n);
      assert false;
    }
  }

  /** The quotient is the only `q` with `q * n <= x < q * n + n`. */
  lemma DivUnique(x: int, n: int, q: int, r: int)
    requires n > 0 && x == q * n + r && 0 <= r < n
    ensures x / n == q
  {
    var d, m := x / n, x % n;
    assert x == d * n + m;
    assert (q - d) * n == m - r;
    if q - d >= 1 {
      MulMonotone(1, q - d, n);
      assert false;
    } else if d - q >= 1 {
      MulMonotone(1, d - q, n);
      assert false;
    }
  }

  /** Adding `m` times the divisor adds `m` to the quotient. */
  lemma DivPlusMultiple(a: nat, m: nat, n: nat)
    requires n > 0
    ensures (a + m * n) / n == a / n + m
  {
    assert a == (a / n) * n + a % n;
    assert a + m * n == (a / n + m) * n + a % n;
    DivUnique(a + m * n, n, a / n + m, a % n);
  }

  /** The mood number of dot `i` out of `n`, for `k` moods. */
  function MoodIndex(i: nat, k: nat, n: nat): (j: nat)
    requires i < n
    ensures k > 0 ==> j < k
  {
    QuotientBelow(i, k, n);
    (i * k) / n
  }

  lemma QuotientBelow(i: nat, k: nat, n: nat)
    requires i < n
    ensures k > 0 ==> (i * k) / n < k
  {
    if k > 0 {
      MulMonotone(i + 1, n, k);
      DivBelow(i * k, k, n);
    }
  }

  /** Later dots never take an earlier mood. */
  lemma MoodIndexMonotone(i: nat, i': nat, k: nat, n: nat)
    requires i <= i' < n
    ensures MoodIndex(i, k, n) <= MoodIndex(i', k, n)
  {
    MulMonotone(i, i', k);
    DivMonotone(i * k, i' * k, n);
  }

  /** With at least as many dots as moods, the mood number grows by at most one per dot. */
  lemma MoodIndexStep(i: nat, j: nat, k: nat, n: nat)
    requires i <= j < n && k <= n
    ensures MoodIndex(j, k, n) <= MoodIndex(i, k, n) + (j - i)
  {
    var m := j - i;
    MulDistributes(i, m, k);
    MulMonotone(k, n, m);
    QuotientStep(i * k, m * k, m, n);
  }

  lemma MulDistributes(x: nat, y: nat, k: nat)
    ensures (x + y) * k == x * k + y * k
  {
  }

  /** Adding at most `m` divisors to the dividend adds at most `m` to the quotient. */
  lemma QuotientStep(a: nat, b: nat, m: nat, n: nat)
    requires n > 0 && b <= m * n
    ensures (a + b) / n <= a / n + m
  {
    DivMonotone(a + b, a + m * n, n);
    DivPlusMultiple(a, m, n);
  }

  /** The first dot takes the first mood. */
  lemma MoodIndexFirst(k: nat, n: nat)
    requires n > 0
    ensures MoodIndex(0, k, n) == 0
  {
  }

  /** With at least as many dots as moods, the last dot takes the last mood. */
  lemma MoodIndexLast(k: nat, n: nat)
    requires 0 < k <= n
    ensures MoodIndex(n - 1, k, n) == k - 1
  {
    var x := (n - 1) * k;
    assert x == (k - 1) * n + (n - k);
    DivUnique(x, n, k - 1, n - k);
  }

  /** The mood numbers of all `n` dots, first dot first. */
  function DotIndices(k: nat, n: nat): (d: seq<nat>)
    ensures |d| == n
    ensures forall i :: 0 <= i < n ==> d[i] == MoodIndex(i, k, n)
  {
    seq(n, i requires 0 <= i < n => MoodIndex(i, k, n))
  }

  /** No entry is below the one before it. */
  predicate Nondecreasing(d: seq<nat>)
  {
    forall i :: 0 < i < |d| ==> d[i - 1] <= d[i]
  }

  /** No entry is more than one above the one before it. */
  predicate Gapless(d: seq<nat>)
  {
    forall i :: 0 < i < |d| ==> d[i] <= d[i - 1] + 1
  }

  /**
   * The dots' mood numbers never go back, start at the first mood and stay
   * below `k`; with at least as many dots as moods they skip no number and end
   * at the last mood.
   */
  lemma DotIndicesShape(k: nat, n: nat)
    requires n > 0 ==> k > 0
    ensures Nondecreasing(DotIndices(k, n))
    ensures forall i :: 0 <= i < n ==> DotIndices(k, n)[i] < k
    ensures n > 0 ==> DotIndices(k, n)[0] == 0
    ensures k <= n ==> Gapless(DotIndices(k, n))
    ensures 0 < k <= n ==> DotIndices(k, n)[n - 1] == k - 1
  {
    var d := DotIndices(k, n);
    forall i | 0 < i < n ensures d[i - 1] <= d[i] {
      MoodIndexMonotone(i - 1, i, k, n);
    }
    if n > 0 {
      MoodIndexFirst(k, n);
    }
    if k <= n {
      forall i | 0 < i < n ensures d[i] <= d[i - 1] + 1 {
        MoodIndexStep(i - 1, i, k, n);
      }
      if k > 0 {
        MoodIndexLast(k, n);
      }
    }
  }

  /** Strictly increasing, so repeat-free. */
  predicate Increasing(s: seq<nat>)
  {
    forall t, u :: 0 <= t < u < |s| ==> s[t] < s[u]
  }

  /** Strictly increasing numbers spread at least as far apart as their positions. */
  lemma {:induction false} IncreasingSpread(s: seq<nat>, t: nat, u: nat)
    requires Increasing(s) && t <= u < |s|
    ensures s[u] - s[t] >= u - t
    decreases u - t
  {
    if t < u {
      IncreasingSpread(s, t, u - 1);
    }
  }

  /** `k` strictly increasing numbers ending at `k - 1` are `0, 1, ..., k - 1`. */
  lemma IncreasingFromZero(s: seq<nat>)
    requires Increasing(s) && |s| > 0 && s[|s| - 1] == |s| - 1
    ensures forall t :: 0 <= t < |s| ==> s[t] == t
  {
    forall t | 0 <= t < |s| ensures s[t] == t {
      IncreasingSpread(s, 0, t);
      IncreasingSpread(s, t, |s| - 1);
    }
  }

  /** The moods of `ms` at the numbers `used`, in order. */
  function MoodsAt<T>(ms: seq<T>, used: seq<nat>): (moods: seq<T>)
    requires forall t :: 0 <= t < |used| ==> used[t] < |ms|
    ensures |moods| == |used|
    ensures forall t :: 0 <= t < |used| ==> moods[t] == ms[used[t]]
  {
    seq(|used|, t requires 0 <= t < |used| => ms[used[t]])
  }

  /** Picking the moods at `0, 1, ..., k - 1` picks all of them. */
  lemma AllCollected<T>(ms: seq<T>, used: seq<nat>)
    requires |used| == |ms| && forall t :: 0 <= t < |used| ==> used[t] == t
    ensures MoodsAt(ms, used) == ms
  {
  }

  lemma IncreasingStep(used: seq<nat>, x: nat)
    requires Increasing(used) && (|used| > 0 ==> used[|used| - 1] < x)
    ensures Increasing(used + [x])
  {
  }

  /** `src[t]` is a dot whose mood number is `used[t]`. */
  ghost predicate Witnessed(d: seq<nat>, used: seq<nat>, src: seq<nat>)
  {
    |src| == |used| && forall t :: 0 <= t < |used| ==> src[t] < |d| && d[src[t]] == used[t]
  }

  /** `pos[j]` is where dot `j`'s mood number sits in `used`. */
  ghost predicate Covered(d: seq<nat>, used: seq<nat>, pos: seq<nat>)
  {
    |pos| == |d| && forall j :: 0 <= j < |d| ==> pos[j] < |used| && used[pos[j]] == d[j]
  }

  lemma WitnessedStep(d: seq<nat>, used: seq<nat>, src: seq<nat>, i: nat)
    requires Witnessed(d, used, src) && i < |d|
    ensures Witnessed(d, used + [d[i]], src + [i])
  {
  }

  lemma CoveredStep(d: seq<nat>, i: nat, used0: seq<nat>, pos0: seq<nat>, used: seq<nat>, pos: seq<nat>)
    requires i < |d| && Covered(d[..i], used0, pos0)
    requires used == used0 || used == used0 + [d[i]]
    requires |used| > 0 && used[|used| - 1] == d[i] && pos == pos0 + [|used| - 1]
    ensures Covered(d[..i + 1], used, pos)
  {
    assert forall j :: 0 <= j < i ==> d[..i + 1][j] == d[..i][j];
  }

  lemma WitnessesGiveMembership(d: seq<nat>, used: seq<nat>, src: seq<nat>, pos: seq<nat>)
    requires Witnessed(d, used, src) && Covered(d, used, pos)
    ensures forall i :: 0 <= i < |d| ==> d[i] in used
    ensures forall t :: 0 <= t < |used| ==> used[t] in d
  {
    forall i | 0 <= i < |d| ensures d[i] in used {
      assert used[pos[i]] == d[i];
    }
    forall t | 0 <= t < |used| ensures used[t] in d {
      assert d[src[t]] == used[t];
    }
  }

  /**
   * What the walk in `CollectOnChange` knows after `i` dots: `used` holds
   * increasing numbers, `src` a dot for each number, `pos` each seen dot's
   * place in `used`, and `last` the previous dot's number. When the numbers
   * skip none and start at 0, `used` counts up from 0.
   */
  ghost predicate CollectInv(d: seq<nat>, i: nat, used: seq<nat>, src: seq<nat>, pos: seq<nat>, last: int, gapless: bool)
  {
    i <= |d| && Increasing(used) && Witnessed(d, used, src) && Covered(d[..i], used, pos) &&
    (i == 0 ==> last == -1 && used == []) &&
    (i > 0 ==> |used| > 0 && last == used[|used| - 1] == d[i - 1]) &&
    (gapless && i > 0 ==> |used| == last + 1)
  }

  /** A dot with the previous dot's number only records where that number sits. */
  lemma CollectRepeat(d: seq<nat>, i: nat, used: seq<nat>, src: seq<nat>, pos: seq<nat>, last: int, gapless: bool)
    requires CollectInv(d, i, used, src, pos, last, gapless)
    requires i < |d| && d[i] == last
    ensures CollectInv(d, i + 1, used, src, pos + [|used| - 1], last, gapless)
  {
    CoveredStep(d, i, used, pos, used, pos + [|used| - 1]);
  }

  /** A dot with a new number appends that number. */
  lemma CollectAppend(d: seq<nat>, i: nat, used: seq<nat>, src: seq<nat>, pos: seq<nat>, last: int, gapless: bool)
    requires CollectInv(d, i, used, src, pos, last, gapless)
    requires Nondecreasing(d) && (gapless ==> Gapless(d) && |d| > 0 && d[0] == 0)
    requires i < |d| && d[i] != last
    ensures CollectInv(d, i + 1, used + [d[i]], src + [i], pos + [|used|], d[i], gapless)
  {
    var x := d[i];
    IncreasingStep(used, x);
    WitnessedStep(d, used, src, i);
    CoveredStep(d, i, used, pos, used + [x], pos + [|used|]);
  }

  /**
   * Over all the dots, the walk's `used` lists each number some dot takes,
   * once and in order; when the numbers skip none, start at 0 and end at
   * `k - 1`, that is `0, 1, ..., k - 1`.
   */
  lemma CollectDone(k: nat, d: seq<nat>, used: seq<nat>, src: seq<nat>, pos: seq<nat>, last: int, gapless: bool)
    requires CollectInv(d, |d|, used, src, pos, last, gapless)
    requires gapless == (Gapless(d) && |d| > 0 && d[0] == 0)
    requires forall i :: 0 <= i < |d| ==> d[i] < k
    ensures Increasing(used) && forall t :: 0 <= t < |used| ==> used[t] < k
    ensures forall i :: 0 <= i < |d| ==> d[i] in used
    ensures forall t :: 0 <= t < |used| ==> used[t] in d
    ensures gapless && d[|d| - 1] == k - 1 ==> |used| == k && forall t :: 0 <= t < |used| ==> used[t] == t
  {
    assert d[..|d|] == d;
    WitnessesGiveMembership(d, used, src, pos);
    forall t | 0 <= t < |used| ensures used[t] < k {
      assert d[src[t]] == used[t];
    }
    if gapless && d[|d| - 1] == k - 1 {
      IncreasingFromZero(used);
    }
  }

  /**
   * Walks the dots' mood numbers `d` in order and appends the mood with that
   * number whenever it differs from the previous dot's. `used` lists the
   * numbers appended: exactly the numbers some dot takes, each once, in
   * increasing order.
   */
  method CollectOnChange<T>(ms: seq<T>, d: seq<nat>) returns (moods: seq<T>, used: seq<nat>)
    requires Nondecreasing(d)
    requires forall i :: 0 <= i < |d| ==> d[i] < |ms|
    ensures |used| == |moods| && Increasing(used)
    ensures forall t :: 0 <= t < |used| ==> used[t] < |ms| && moods[t] == ms[used[t]]
    ensures forall i :: 0 <= i < |d| ==> d[i] in used
    ensures forall t :: 0 <= t < |used| ==> used[t] in d
    ensures Gapless(d) && |d| > 0 && d[0] == 0 && d[|d| - 1] == |ms| - 1 ==> moods == ms
  {
    used := [];
    var last: int := -1;
    var i := 0;
    ghost var gapless := Gapless(d) && |d| > 0 && d[0] == 0;
    // src[t]: a dot with mood number used[t]; pos[j]: where dot j's number sits in used
    ghost var src: seq<nat> := [];
    ghost var pos: seq<nat> := [];
    while i < |d|
      invariant CollectInv(d, i, used, src, pos, last, gapless)
      decreases |d| - i
    {
      var x := d[i];
      if x != last {
        CollectAppend(d, i, used, src, pos, last, gapless);
        pos := pos + [|used|];
        used := used + [x];
        src := src + [i];
        last := x;
      } else {
        CollectRepeat(d, i, used, src, pos, last, gapless);
        pos := pos + [|used| - 1];
      }
      i := i + 1;
    }
    CollectDone(|ms|, d, used, src, pos, last, gapless);
    moods := MoodsAt(ms, used);
    if gapless && d[|d| - 1] == |ms| - 1 {
      AllCollected(ms, used);
    }
  }

  /**
   * The loop of the dotted obstacles' `createShape` that builds `moods` from
   * `n` dots and the mood sequence `ms`. The result lists exactly the moods of
   * `ms` whose number some dot takes, each once, in the order of `ms`; with at
   * least as many dots as moods that is all of `ms`, and with no dots it is
   * empty.
   */
  method AppendOnChange<T>(ms: seq<T>, n: nat) returns (moods: seq<T>, used: seq<nat>)
    requires n > 0 ==> |ms| > 0
    ensures |used| == |moods| && Increasing(used)
    ensures forall t :: 0 <= t < |used| ==> used[t] < |ms| && moods[t] == ms[used[t]]
    ensures forall i :: 0 <= i < n ==> MoodIndex(i, |ms|, n) in used
    ensures forall t :: 0 <= t < |used| ==> used[t] in DotIndices(|ms|, n)
    ensures n >= |ms| ==> moods == ms
    ensures n == 0 ==> moods == []
  {
    var d := DotIndices(|ms|, n);
    DotIndicesShape(|ms|, n);
    moods, used := CollectOnChange(ms, d);
  }
}
