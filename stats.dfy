/**
 * The four running counters that `main` keeps across rounds and hands to
 * every round by reference, how a won or lost round updates them, and the
 * summary shown on exit.
 */
module Stats {

  datatype Option<T> = None | Some(value: T)

  /** The counters, by their names in the game. */
  datatype Counters = Counters(totalCorrect: int, currentStreak: int, longestStreak: int, totalTime: int)

  /** How a finished round ended: solved in some seconds, or lost (time out or no attempts left). */
  datatype Outcome = Solved(seconds: int) | Failed

  /** The counters at program start. */
  function Zero(): Counters { Counters(0, 0, 0, 0) }

  /** A won round: add its time, count it, extend the streak and raise the record. */
  function Win(c: Counters, elapsedSeconds: int): (r: Counters)
    ensures r.totalCorrect == c.totalCorrect + 1 && r.currentStreak == c.currentStreak + 1
    ensures r.totalTime == c.totalTime + elapsedSeconds
    ensures r.longestStreak >= r.currentStreak && r.longestStreak >= c.longestStreak
    ensures r.longestStreak == r.currentStreak || r.longestStreak == c.longestStreak
  {
    var current := c.currentStreak + 1;
    Counters(c.totalCorrect + 1, current,
             if current > c.longestStreak then current else c.longestStreak,
             c.totalTime + elapsedSeconds)
  }

  /** A lost round: raise the record to the streak if it is longer, then end the streak. */
  function Loss(c: Counters): (r: Counters)
    ensures r.currentStreak == 0
    ensures r.totalCorrect == c.totalCorrect && r.totalTime == c.totalTime
    ensures r.longestStreak >= c.currentStreak && r.longestStreak >= c.longestStreak
    ensures r.longestStreak == c.currentStreak || r.longestStreak == c.longestStreak
  {
    c.(longestStreak := if c.currentStreak > c.longestStreak then c.currentStreak else c.longestStreak,
       currentStreak := 0)
  }

  function Record(c: Counters, o: Outcome): Counters
  {
    match o
    case Solved(t) => Win(c, t)
    case Failed => Loss(c)
  }

  /**
   * What the counters always satisfy: the streak never exceeds the record,
   * the record never exceeds the number of wins, and there is a record
   * exactly when there has been a win.
   */
  predicate Consistent(c: Counters)
  {
    0 <= c.currentStreak <= c.longestStreak <= c.totalCorrect
    && (c.totalCorrect > 0 <==> c.longestStreak > 0)
  }

  /** Both updates keep the counters consistent. */
  lemma RecordKeepsConsistent(c: Counters, o: Outcome)
    requires Consistent(c)
    ensures Consistent(Record(c, o))
    ensures Record(c, o).longestStreak >= c.longestStreak
  {
  }

  /**
   * On consistent counters a loss never raises the record: the streak can
   * never exceed it, so the raise in the loss branches has no effect.
   */
  lemma LossKeepsRecord(c: Counters)
    requires Consistent(c)
    ensures Loss(c) == c.(currentStreak := 0)
  {
  }

  /** The counters after a sequence of finished rounds, starting from zero. */
  function Replay(os: seq<Outcome>): Counters
  {
    if os == [] then Zero() else Record(Replay(os[..|os| - 1]), os[|os| - 1])
  }

  /** The number of won rounds. */
  function Wins(os: seq<Outcome>): nat
  {
    if os == [] then 0 else Wins(os[..|os| - 1]) + (if os[|os| - 1].Solved? then 1 else 0)
  }

  /** The seconds of the won rounds, added up. */
  function SolvedTime(os: seq<Outcome>): int
  {
    if os == [] then 0
    else SolvedTime(os[..|os| - 1]) + (match os[|os| - 1] case Solved(t) => t case Failed => 0)
  }

  /** The number of wins at the end of the sequence since the last loss. */
  function Trailing(os: seq<Outcome>): (r: nat)
    ensures r <= |os|
    ensures forall k :: |os| - r <= k < |os| ==> os[k].Solved?
    ensures r < |os| ==> os[|os| - r - 1] == Failed
  {
    if os == [] then 0
    else if os[|os| - 1].Solved? then Trailing(os[..|os| - 1]) + 1
    else 0
  }

  /** Every round from index `i` up to (not including) `j` was won. */
  predicate WonBetween(os: seq<Outcome>, i: int, j: int)
  {
    0 <= i <= j <= |os| && forall k :: i <= k < j ==> os[k].Solved?
  }

  /** `n` is the length of the longest run of consecutive wins in `os`. */
  ghost predicate IsLongestRun(os: seq<Outcome>, n: nat)
  {
    (exists i, j :: WonBetween(os, i, j) && j - i == n)
    && forall i, j :: WonBetween(os, i, j) ==> j - i <= n
  }

  /**
   * One more round: if `before` was the longest run of wins, the longest run
   * is now the larger of `before` and the trailing wins.
   */
  lemma LongestRunStep(os: seq<Outcome>, before: nat, after: nat)
    requires os != []
    requires IsLongestRun(os[..|os| - 1], before)
    requires after == if Trailing(os) > before then Trailing(os) else before
    ensures IsLongestRun(os, after)
  {
    var init := os[..|os| - 1];
    if after == before {
      var i, j :| WonBetween(init, i, j) && j - i == before;
      assert forall k :: i <= k < j ==> os[k] == init[k];
      assert WonBetween(os, i, j);
    } else {
      assert WonBetween(os, |os| - after, |os|);
    }
    forall i, j | WonBetween(os, i, j)
      ensures j - i <= after
    {
      if j <= |init| {
        assert WonBetween(init, i, j);
      }
    }
  }

  /**
   * What the counters mean after any history of rounds: the wins, the
   * current streak of trailing wins, the longest run of wins, and the
   * seconds of all won rounds.
   */
  lemma {:induction false} ReplayMeaning(os: seq<Outcome>)
    ensures Consistent(Replay(os))
    ensures Replay(os).totalCorrect == Wins(os)
    ensures Replay(os).currentStreak == Trailing(os)
    ensures Replay(os).totalTime == SolvedTime(os)
    ensures IsLongestRun(os, Replay(os).longestStreak)
  {
    if os == [] {
      assert WonBetween(os, 0, 0);
    } else {
      var init, o := os[..|os| - 1], os[|os| - 1];
      ReplayMeaning(init);
      RecordKeepsConsistent(Replay(init), o);
      LongestRunStep(os, Replay(init).longestStreak, Replay(os).longestStreak);
    }
  }

  /** C++ `/` on `int`, which truncates toward zero. */
  function TruncDiv(a: int, b: int): (q: int)
    requires b > 0
    ensures a >= 0 ==> q * b <= a < (q + 1) * b
    ensures a < 0 ==> (q - 1) * b < a <= q * b
  {
    if a >= 0 then a / b else -((-a) / b)
  }

  /**
   * The average shown on exit: "N/A" when there is neither a win nor a
   * streak, otherwise the total time divided by the LONGEST STREAK. Consistent
   * counters make the divisor positive whenever the division is reached.
   */
  function Average(c: Counters): (r: Option<int>)
    requires Consistent(c)
    ensures r == None <==> c.totalCorrect == 0
    ensures r.Some? && c.totalTime >= 0 ==>
              r.value * c.longestStreak <= c.totalTime < (r.value + 1) * c.longestStreak
    ensures r.Some? && c.totalTime < 0 ==>
              (r.value - 1) * c.longestStreak < c.totalTime <= r.value * c.longestStreak
  {
    if c.totalCorrect == 0 && c.longestStreak == 0 then None
    else Some(TruncDiv(c.totalTime, c.longestStreak))
  }

  /** The scenario of three wins and then a timeout. */
  lemma ThreeWinsThenTimeout(a: int, b: int, d: int)
    ensures Replay([Solved(a), Solved(b), Solved(d), Failed]) == Counters(3, 0, 3, a + b + d)
  {
    var os := [Solved(a), Solved(b), Solved(d), Failed];
    assert os[..3][..2][..1][..0] == [];
    assert Replay(os[..3][..2][..1]) == Counters(1, 1, 1, a);
    assert Replay(os[..3][..2]) == Counters(2, 2, 2, a + b);
    assert Replay(os[..3]) == Counters(3, 3, 3, a + b + d);
  }

  /** `main`'s four counters, passed by reference to every round. */
  class Tracker {
    var totalCorrect: int
    var currentStreak: int
    var longestStreak: int
    var totalTime: int

    function Value(): Counters
      reads this
    {
      Counters(totalCorrect, currentStreak, longestStreak, totalTime)
    }

    predicate Valid()
      reads this
    {
      Consistent(Value())
    }

    /** All four counters start at zero. */
    constructor ()
      ensures Valid() && Value() == Zero()
    {
      totalCorrect, currentStreak, longestStreak, totalTime := 0, 0, 0, 0;
    }

    /** The updates on a win. */
    method RecordWin(elapsedSeconds: int)
      modifies this
      ensures old(Valid()) ==> Valid()
      ensures Value() == Win(old(Value()), elapsedSeconds)
    {
      totalTime := totalTime + elapsedSeconds;
      totalCorrect := totalCorrect + 1;
      currentStreak := currentStreak + 1;
      if currentStreak > longestStreak {
        longestStreak := currentStreak;
      }
      if old(Valid()) {
        RecordKeepsConsistent(old(Value()), Solved(elapsedSeconds));
      }
    }

    /** The updates on a timeout or when the attempts run out. */
    method RecordLoss()
      modifies this
      ensures old(Valid()) ==> Valid()
      ensures Value() == Loss(old(Value()))
    {
      if currentStreak > longestStreak {
        longestStreak := currentStreak;
      }
      currentStreak := 0;
      if old(Valid()) {
        RecordKeepsConsistent(old(Value()), Failed);
      }
    }

    /** The figures printed by the exit option of the menu. */
    method Summary() returns (guessed: int, longest: int, average: Option<int>)
      requires Valid()
      ensures guessed == totalCorrect && longest == longestStreak
      ensures average == None <==> totalCorrect == 0
      ensures average == Average(Value())
    {
      guessed := totalCorrect;
      longest := longestStreak;
      average := Average(Value());
    }
  }
}
