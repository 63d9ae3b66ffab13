/** Facts about sequences shared by the mood lists, the obstacle list and the pickup list. */
module Sequences {

  /** No element occurs twice. */
  ghost predicate Distinct<T>(s: seq<T>)
  {
    forall i, j :: 0 <= i < j < |s| ==> s[i] != s[j]
  }

  /** The set of elements of a sequence. */
  function Elements<T>(s: seq<T>): set<T>
  {
    set x | x in s
  }

  /** A repeat-free sequence has as many distinct elements as it has entries. */
  lemma {:induction false} DistinctCardinality<T>(s: seq<T>)
    requires Distinct(s)
    ensures |Elements(s)| == |s|
  {
    if |s| > 0 {
      var t := s[1..];
      assert Distinct(t) by {
        forall i, j | 0 <= i < j < |t| ensures t[i] != t[j] {
          assert t[i] == s[i + 1] && t[j] == s[j + 1];
        }
      }
      DistinctCardinality(t);
      assert s == [s[0]] + t;
      assert Elements(s) == {s[0]} + Elements(t);
      assert s[0] !in Elements(t) by {
        forall k | 0 <= k < |t| ensures t[k] != s[0] {
          assert t[k] == s[k + 1];
        }
      }
    }
  }

  /** Swift's `if let i = s.firstIndex(of: x) { s.remove(at: i) }`. */
  function RemoveFirst<T(==)>(s: seq<T>, x: T): (r: seq<T>)
    ensures x !in s ==> r == s
    ensures x in s ==> |r| == |s| - 1
    ensures multiset(r) == multiset(s) - multiset{x}
    ensures forall y :: y in r ==> y in s
  {
    if |s| == 0 then s
    else if s[0] == x then
      assert s == [s[0]] + s[1..];
      s[1..]
    else
      var rest := RemoveFirst(s[1..], x);
      assert s == [s[0]] + s[1..];
      [s[0]] + rest
  }

  /** The sequence without its entry at index `j`. */
  function RemoveAt<T>(s: seq<T>, j: nat): (r: seq<T>)
    requires j < |s|
    ensures |r| == |s| - 1
    ensures multiset(s) == multiset(r) + multiset{s[j]}
  {
    assert s == s[..j] + [s[j]] + s[j + 1..];
    s[..j] + s[j + 1..]
  }

  /** `RemoveAt` keeps the entries before `j` in place and moves the later ones down by one. */
  lemma RemoveAtShifts<T>(s: seq<T>, j: nat)
    requires j < |s|
    ensures forall i :: 0 <= i < j ==> RemoveAt(s, j)[i] == s[i]
    ensures forall i :: j <= i < |s| - 1 ==> RemoveAt(s, j)[i] == s[i + 1]
    ensures forall x :: x in RemoveAt(s, j) ==> x in s
  {
  }

  /**
   * Swift's `shuffled()`, with its random draws passed in: the draw `picks[0]`
   * chooses which remaining element comes first, and so on (Fisher-Yates).
   */
  function Shuffle<T>(s: seq<T>, picks: seq<nat>): (r: seq<T>)
    requires |picks| == |s|
    ensures multiset(r) == multiset(s)
  {
    if |s| == 0 then []
    else
      var j := picks[0] % |s|;
      var rest := Shuffle(RemoveAt(s, j), picks[1..]);
      [s[j]] + rest
  }

  /** Every rearrangement of `s` is the outcome of some draws. */
  lemma ShuffleReachesEveryPermutation<T>(s: seq<T>, t: seq<T>)
    requires multiset(t) == multiset(s)
    ensures exists picks :: |picks| == |s| && Shuffle(s, picks) == t
  {
    var picks := DrawsFor(s, t);
  }

  /** The draws that shuffle `s` into `t`: at each step, where `t`'s next entry sits among the rest. */
  lemma {:induction false} DrawsFor<T>(s: seq<T>, t: seq<T>) returns (picks: seq<nat>)
    requires multiset(t) == multiset(s)
    ensures |picks| == |s| && Shuffle(s, picks) == t
    decreases |s|
  {
    assert |t| == |s| by {
      assert |multiset(t)| == |t| && |multiset(s)| == |s|;
    }
    if |s| == 0 {
      picks := [];
    } else {
      assert t[0] in multiset(s);
      var j := IndexOf(s, t[0]);
      TailPermutation(s, t, j);
      var rest := DrawsFor(RemoveAt(s, j), t[1..]);
      ShuffleStep(s, j, rest);
      picks := [j] + rest;
      HeadTail(t);
    }
  }

  /** A position at which `x` occurs in `s`. */
  lemma IndexOf<T>(s: seq<T>, x: T) returns (j: nat)
    requires x in s
    ensures j < |s| && s[j] == x
  {
    j :| 0 <= j < |s| && s[j] == x;
  }

  lemma HeadTail<T>(t: seq<T>)
    requires |t| > 0
    ensures t == [t[0]] + t[1..]
  {
  }

  lemma TailPermutation<T>(s: seq<T>, t: seq<T>, j: nat)
    requires multiset(t) == multiset(s) && 0 < |t| && j < |s| && s[j] == t[0]
    ensures multiset(t[1..]) == multiset(RemoveAt(s, j))
  {
    HeadTail(t);
    assert multiset(t[1..]) == multiset(t) - multiset{t[0]};
  }

  lemma ShuffleStep<T>(s: seq<T>, j: nat, picks: seq<nat>)
    requires j < |s| && |picks| == |s| - 1
    ensures Shuffle(s, [j] + picks) == [s[j]] + Shuffle(RemoveAt(s, j), picks)
  {
    var p := [j] + picks;
    assert p[0] == j && p[1..] == picks;
    ModOfSmaller(j, |s|);
  }

  lemma ModOfSmaller(j: nat, n: nat)
    requires j < n
    ensures j % n == j
  {
  }

  /** A repeat-free sequence holds each value at most once. */
  lemma {:induction false} DistinctCount<T>(s: seq<T>, x: T)
    requires Distinct(s)
    ensures multiset(s)[x] <= 1
  {
    if |s| > 0 {
      var t := s[1..];
      assert s == [s[0]] + t;
      assert Distinct(t) by {
        forall i, j | 0 <= i < j < |t| ensures t[i] != t[j] {
          assert t[i] == s[i + 1] && t[j] == s[j + 1];
        }
      }
      DistinctCount(t, x);
      if s[0] == x {
        forall k | 0 <= k < |t| ensures t[k] != x {
          assert t[k] == s[k + 1];
        }
        assert x !in multiset(t);
      }
    }
  }

  /** A value at two positions is counted at least twice. */
  lemma RepeatCount<T>(s: seq<T>, i: nat, j: nat)
    requires i < j < |s| && s[i] == s[j]
    ensures multiset(s)[s[i]] >= 2
  {
    assert s == s[..j] + s[j..];
    assert s[i] in s[..j];
    assert s[j] in s[j..];
  }

  /** Rearranging a repeat-free sequence keeps it repeat-free. */
  lemma PermutationKeepsDistinct<T>(s: seq<T>, t: seq<T>)
    requires Distinct(s) && multiset(t) == multiset(s)
    ensures Distinct(t)
  {
    forall i, j | 0 <= i < j < |t| ensures t[i] != t[j] {
      if t[i] == t[j] {
        RepeatCount(t, i, j);
        DistinctCount(s, t[i]);
      }
    }
  }

  /** `a` is `s` with some entries left out, the rest kept in order. */
  predicate IsSubsequence<T(==)>(a: seq<T>, s: seq<T>)
  {
    if |a| == 0 then true
    else if |s| == 0 then false
    else if a[0] == s[0] then IsSubsequence(a[1..], s[1..])
    else IsSubsequence(a, s[1..])
  }

  /** Picking entries of `s` at increasing positions gives a subsequence. */
  lemma {:induction false} SubsequenceAt<T>(a: seq<T>, s: seq<T>, idx: seq<nat>)
    requires |idx| == |a|
    requires forall t, u :: 0 <= t < u < |idx| ==> idx[t] < idx[u]
    requires forall t :: 0 <= t < |idx| ==> idx[t] < |s| && a[t] == s[idx[t]]
    ensures IsSubsequence(a, s)
    decreases |s|
  {
    if |a| > 0 {
      assert idx[0] < |s|;
      if a[0] == s[0] {
        var idx' := seq(|idx| - 1, t requires 0 <= t < |idx| - 1 => idx[t + 1] - 1);
        SubsequenceAt(a[1..], s[1..], idx');
      } else {
        var idx' := seq(|idx|, t requires 0 <= t < |idx| => idx[t] - 1);
        SubsequenceAt(a, s[1..], idx');
      }
    }
  }

  /** Putting one more entry in front of `s` keeps every subsequence of `s`. */
  lemma {:induction false} SubsequenceOfLonger<T>(a: seq<T>, s: seq<T>)
    requires |s| > 0 && IsSubsequence(a, s[1..])
    ensures IsSubsequence(a, s)
    decreases |a| + |s|, 1
  {
    if |a| > 0 && a[0] == s[0] {
      SubsequenceDropFirst(a, s[1..]);
    }
  }

  /** Leaving out the first entry of a subsequence leaves a subsequence. */
  lemma {:induction false} SubsequenceDropFirst<T>(a: seq<T>, t: seq<T>)
    requires |a| > 0 && IsSubsequence(a, t)
    ensures IsSubsequence(a[1..], t)
    decreases |a| + |t|, 0
  {
    if a[0] == t[0] {
      SubsequenceOfLonger(a[1..], t);
    } else {
      SubsequenceDropFirst(a, t[1..]);
      SubsequenceOfLonger(a[1..], t);
    }
  }

  /**
   * Swift's `s.filter(keep)`: the entries `keep` accepts, in their order in
   * `s`; a value occurs in the result exactly when it occurs in `s` and is
   * accepted.
   */
  function Filter<T(!new)>(s: seq<T>, keep: T -> bool): (r: seq<T>)
    ensures |r| <= |s|
    ensures forall x :: x in r <==> x in s && keep(x)
    ensures IsSubsequence(r, s)
  {
    if |s| == 0 then []
    else
      var rest := Filter(s[1..], keep);
      if keep(s[0]) then
        assert ([s[0]] + rest)[1..] == rest;
        [s[0]] + rest
      else
        SubsequenceOfLonger(rest, s);
        rest
  }

  /** Removing an entry of a repeat-free sequence removes exactly that value. */
  lemma RemoveFirstOfDistinct<T>(s: seq<T>, x: T)
    requires Distinct(s) && x in s
    ensures |RemoveFirst(s, x)| == |s| - 1
    ensures forall y :: y in RemoveFirst(s, x) <==> y in s && y != x
  {
    var r := RemoveFirst(s, x);
    forall y ensures y in r <==> y in s && y != x {
      assert y in r <==> multiset(r)[y] > 0;
      assert y in s <==> multiset(s)[y] > 0;
      DistinctCount(s, x);
    }
  }
}
