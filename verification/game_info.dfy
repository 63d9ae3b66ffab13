/** `MSGameInfo`: the score of the current round. */
module GameInfo {

  /** The score and the difficulty level, which nothing changes after creation. */
  datatype Info = Info(score: int, difficultyLevel: int)

  function NewInfo(): (i: Info)
    ensures i.score == 0 && i.difficultyLevel == 1
  {
    Info(0, 1)
  }

  function Reset(i: Info): (r: Info)
    ensures r.score == 0 && r.difficultyLevel == i.difficultyLevel
  {
    i.(score := 0)
  }

  /** `incrementScore(by:)`: adds exactly `amount`, which may be any integer. */
  function IncrementScore(i: Info, amount: int): (r: Info)
    ensures r.score - i.score == amount && r.difficultyLevel == i.difficultyLevel
  {
    i.(score := i.score + amount)
  }

  /** The calls a round makes on its game info. */
  datatype Call = ResetCall | IncrementCall(amount: int)

  function Apply(i: Info, c: Call): Info
  {
    match c
    case ResetCall => Reset(i)
    case IncrementCall(n) => IncrementScore(i, n)
  }

  /** The game info after a sequence of calls, first call first. */
  function Run(i: Info, calls: seq<Call>): Info
    decreases |calls|
  {
    if |calls| == 0 then i else Run(Apply(i, calls[0]), calls[1..])
  }

  /** The sum of the increments after the last reset, read from the back. */
  function SinceLastReset(calls: seq<Call>): int
  {
    if |calls| == 0 then 0
    else match calls[|calls| - 1]
      case ResetCall => 0
      case IncrementCall(n) => SinceLastReset(calls[..|calls| - 1]) + n
  }

  /** Running calls one after the other is running their concatenation. */
  lemma {:induction false} RunAppend(i: Info, a: seq<Call>, b: seq<Call>)
    ensures Run(i, a + b) == Run(Run(i, a), b)
    decreases |a|
  {
    if |a| > 0 {
      assert (a + b)[1..] == a[1..] + b;
      RunAppend(Apply(i, a[0]), a[1..], b);
    } else {
      assert a + b == b;
    }
  }

  /**
   * Whatever the calls, the difficulty level stays 1, and the score is the sum
   * of the increments since the last reset (since creation when there is none).
   */
  lemma {:induction false} RunScore(calls: seq<Call>)
    ensures Run(NewInfo(), calls).difficultyLevel == 1
    ensures Run(NewInfo(), calls).score == SinceLastReset(calls)
  {
    if |calls| > 0 {
      var front := calls[..|calls| - 1];
      var last := calls[|calls| - 1];
      assert calls == front + [last];
      RunScore(front);
      RunAppend(NewInfo(), front, [last]);
    }
  }
}
