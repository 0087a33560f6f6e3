/**
 * One round of Wordle Reload (`wordlePlay`): read guesses until the target
 * is found, the time limit is passed or the attempts run out, and update the
 * running statistics when the round ends.
 *
 * The console is replaced by a sequence of entries. Each entry carries the
 * typed word and the two clock readings the round takes for it: `time(NULL)`
 * just after the word is read, and again after its feedback is shown. The
 * random choice of the target is replaced by an index into the word list.
 */
module Play {
  import opened Catalog
  import opened Evaluate
  import Stats

  /** One typed word with the clock readings taken when it is read and when it is checked. */
  datatype Entry = Entry(word: string, readAt: int, checkedAt: int)

  /** Where a round stands: still waiting for guesses, or ended in one of three ways. */
  datatype Phase = Playing | Won | TimedOut | OutOfAttempts

  /** The locals of `wordlePlay` that outlive one guess. */
  datatype RoundState = RoundState(
    totalAttempts: nat,
    allGuesses: seq<string>,
    startTime: int,
    elapsedSeconds: int,
    phase: Phase)

  /** Seconds allowed for a board of `numLetters` letters. */
  function TimeLimit(numLetters: nat): int { numLetters * 10 - 10 }

  /** Accepted guesses allowed for a board of `numLetters` letters. */
  function AttemptLimit(numLetters: nat): nat { numLetters + 1 }

  function Initial(): RoundState { RoundState(0, [], 0, 0, Playing) }

  /**
   * A lowered guess is accepted when it has the board's length and the binary
   * search finds it: only listed words are accepted, and on a sorted list
   * every listed word of the right length is.
   */
  predicate Accepted(numLetters: nat, words: seq<string>, guessWord: string)
    ensures Accepted(numLetters, words, guessWord) ==> |guessWord| == numLetters && guessWord in words
    ensures Sorted(words) ==>
              (Accepted(numLetters, words, guessWord) <==> |guessWord| == numLetters && guessWord in words)
  {
    var found := if Sorted(words) then LookupComplete(words, guessWord); Lookup(words, guessWord)
                 else Lookup(words, guessWord);
    |guessWord| == numLetters && found != -1
  }

  /**
   * One pass of the round loop on one entry. The clock is (re)started on
   * every read until a guess is accepted. A rejected guess changes nothing
   * else. An accepted one is counted and its feedback row stored, and then
   * the round ends on an exact match, else on a passed time limit, else when
   * the attempts are used up.
   */
  function Step(numLetters: nat, words: seq<string>, target: string, s: RoundState, e: Entry): (r: RoundState)
    ensures r.totalAttempts == s.totalAttempts + 1 <==> Accepted(numLetters, words, LowerWord(e.word))
    ensures r.totalAttempts == s.totalAttempts ==> r.allGuesses == s.allGuesses && r.phase == s.phase
    ensures r.totalAttempts == s.totalAttempts || r.totalAttempts == s.totalAttempts + 1
    ensures |r.allGuesses| - |s.allGuesses| == r.totalAttempts - s.totalAttempts
    ensures s.allGuesses <= r.allGuesses
    ensures r.phase != s.phase ==> r.totalAttempts == s.totalAttempts + 1
    ensures r.phase == Won && s.phase != Won ==> LowerWord(e.word) == target
    ensures s.totalAttempts > 0 ==> r.startTime == s.startTime
  {
    var startTime := if s.totalAttempts == 0 then e.readAt else s.startTime;
    var guessWord := LowerWord(e.word);
    if !Accepted(numLetters, words, guessWord) then
      s.(startTime := startTime)
    else
      var totalAttempts := s.totalAttempts + 1;
      var elapsedSeconds := e.checkedAt - startTime;
      var phase :=
        if target == guessWord then Won
        else if elapsedSeconds > TimeLimit(numLetters) then TimedOut
        else if totalAttempts == AttemptLimit(numLetters) && target != guessWord then OutOfAttempts
        else Playing;
      RoundState(totalAttempts, s.allGuesses + [Row(target, guessWord)], startTime, elapsedSeconds, phase)
  }

  /** The round fed with `entries` until it ends or the entries run out. */
  function Run(numLetters: nat, words: seq<string>, target: string, s: RoundState, entries: seq<Entry>): RoundState
    decreases |entries|
  {
    if s.phase != Playing || entries == [] then s
    else Run(numLetters, words, target, Step(numLetters, words, target, s, entries[0]), entries[1..])
  }

  /** The counters after a round that reached `s`. */
  function Settle(c: Stats.Counters, s: RoundState): Stats.Counters
  {
    match s.phase
    case Won => Stats.Win(c, s.elapsedSeconds)
    case TimedOut => Stats.Loss(c)
    case OutOfAttempts => Stats.Loss(c)
    case Playing => c
  }

  /**
   * What every state of a round satisfies: one stored row per counted
   * attempt, each as long as the board; never more attempts than the limit;
   * a round still playing has attempts left; a timed-out round is past the
   * time limit; a round out of attempts used all of them within the time
   * limit; a won round's last row is the target in capitals.
   */
  predicate Sound(numLetters: nat, target: string, s: RoundState)
  {
    s.totalAttempts == |s.allGuesses| <= AttemptLimit(numLetters)
    && (forall k :: 0 <= k < |s.allGuesses| ==> |s.allGuesses[k]| == numLetters)
    && (s.phase == Playing ==> s.totalAttempts < AttemptLimit(numLetters))
    && (s.phase == TimedOut ==> s.elapsedSeconds > TimeLimit(numLetters))
    && (s.phase == OutOfAttempts ==>
          s.totalAttempts == AttemptLimit(numLetters) && s.elapsedSeconds <= TimeLimit(numLetters))
    && (s.phase == Won ==> s.allGuesses != [] && s.allGuesses[|s.allGuesses| - 1] == UpperWord(target))
  }

  /** One step keeps a round sound. */
  lemma StepSound(numLetters: nat, words: seq<string>, target: string, s: RoundState, e: Entry)
    requires s.phase == Playing && Sound(numLetters, target, s)
    ensures Sound(numLetters, target, Step(numLetters, words, target, s, e))
  {
  }

  /**
   * Every round is sound whatever is typed and whatever the clock says; in
   * particular a round accepts at most `numLetters + 1` guesses.
   */
  lemma {:induction false} RunSound(numLetters: nat, words: seq<string>, target: string, entries: seq<Entry>, s: RoundState)
    requires Sound(numLetters, target, s)
    ensures Sound(numLetters, target, Run(numLetters, words, target, s, entries))
    decreases |entries|
  {
    if s.phase == Playing && entries != [] {
      StepSound(numLetters, words, target, s, entries[0]);
      RunSound(numLetters, words, target, entries[1..], Step(numLetters, words, target, s, entries[0]));
    }
  }

  /** A fresh round is sound, so every round played from the start is. */
  lemma RoundSound(numLetters: nat, words: seq<string>, target: string, entries: seq<Entry>)
    ensures Sound(numLetters, target, Run(numLetters, words, target, Initial(), entries))
    ensures Run(numLetters, words, target, Initial(), entries).totalAttempts <= numLetters + 1
  {
    RunSound(numLetters, words, target, entries, Initial());
  }

  /**
   * Guesses of the wrong length or missing from the word list, however many,
   * use no attempt, store no row, do not end the round and leave the
   * statistics alone.
   */
  lemma {:induction false} RejectedGuessesChangeNothing(
    numLetters: nat, words: seq<string>, target: string, s: RoundState, entries: seq<Entry>, c: Stats.Counters)
    requires s.phase == Playing
    requires forall k :: 0 <= k < |entries| ==> !Accepted(numLetters, words, LowerWord(entries[k].word))
    ensures Run(numLetters, words, target, s, entries).phase == Playing
    ensures Run(numLetters, words, target, s, entries).totalAttempts == s.totalAttempts
    ensures Run(numLetters, words, target, s, entries).allGuesses == s.allGuesses
    ensures Settle(c, Run(numLetters, words, target, s, entries)) == c
    decreases |entries|
  {
    if entries != [] {
      RejectedGuessesChangeNothing(numLetters, words, target,
        Step(numLetters, words, target, s, entries[0]), entries[1..], c);
    }
  }

  /**
   * The match test comes before the clock test: an accepted guess equal to
   * the target wins the round, however late it comes and even on the last
   * attempt.
   */
  lemma ExactMatchWins(numLetters: nat, words: seq<string>, target: string, s: RoundState, e: Entry)
    requires s.phase == Playing
    requires Accepted(numLetters, words, LowerWord(e.word)) && LowerWord(e.word) == target
    ensures Step(numLetters, words, target, s, e).phase == Won
    ensures Step(numLetters, words, target, s, e).totalAttempts == s.totalAttempts + 1
  {
  }

  /**
   * A round ends by timeout only on an accepted guess that misses the target
   * and is checked more than `numLetters * 10 - 10` seconds after the clock
   * started.
   */
  lemma TimeoutOnlyWhenLate(numLetters: nat, words: seq<string>, target: string, s: RoundState, e: Entry)
    requires s.phase == Playing
    ensures Step(numLetters, words, target, s, e).phase == TimedOut <==>
              Accepted(numLetters, words, LowerWord(e.word)) && LowerWord(e.word) != target
              && e.checkedAt - (if s.totalAttempts == 0 then e.readAt else s.startTime) > TimeLimit(numLetters)
  {
  }

  /** How a finished round counts in the statistics. */
  function OutcomeOf(s: RoundState): Stats.Outcome
    requires s.phase != Playing
  {
    if s.phase == Won then Stats.Solved(s.elapsedSeconds) else Stats.Failed
  }

  /** Settling a finished round is recording its outcome. */
  lemma SettleIsRecord(c: Stats.Counters, s: RoundState)
    requires s.phase != Playing
    ensures Settle(c, s) == Stats.Record(c, OutcomeOf(s))
    ensures s.phase == Won <==> OutcomeOf(s).Solved?
  {
  }

  /** The counters after a sequence of rounds, each settled in turn from zero. */
  function SettleAll(rounds: seq<RoundState>): Stats.Counters
  {
    if rounds == [] then Stats.Zero() else Settle(SettleAll(rounds[..|rounds| - 1]), rounds[|rounds| - 1])
  }

  /** The outcomes of a sequence of finished rounds. */
  function Outcomes(rounds: seq<RoundState>): (os: seq<Stats.Outcome>)
    requires forall k :: 0 <= k < |rounds| ==> rounds[k].phase != Playing
    ensures |os| == |rounds|
  {
    if rounds == [] then [] else Outcomes(rounds[..|rounds| - 1]) + [OutcomeOf(rounds[|rounds| - 1])]
  }

  /**
   * The counters after any number of finished rounds are `Stats.Replay` of
   * their outcomes, so `Stats.ReplayMeaning` tells what they hold: the won
   * rounds, the current and the longest run of wins, and the won rounds' time.
   */
  lemma {:induction false} SettleAllIsReplay(rounds: seq<RoundState>)
    requires forall k :: 0 <= k < |rounds| ==> rounds[k].phase != Playing
    ensures SettleAll(rounds) == Stats.Replay(Outcomes(rounds))
  {
    if rounds != [] {
      var init := rounds[..|rounds| - 1];
      SettleAllIsReplay(init);
      assert Outcomes(rounds)[..|rounds| - 1] == Outcomes(init);
      SettleIsRecord(SettleAll(init), rounds[|rounds| - 1]);
    }
  }

  /** A finished round keeps the statistics consistent. */
  lemma SettleKeepsConsistent(c: Stats.Counters, s: RoundState)
    requires Stats.Consistent(c)
    ensures Stats.Consistent(Settle(c, s))
  {
  }

  /**
   * `wordlePlay`: the round loop over the entries, with `idx` standing for
   * the random pick of the target. Returns the state the round ended in (or
   * was left in when the entries ran out) and updates the counters on a win
   * or a loss.
   */
  method WordlePlay(numLetters: nat, wordleWords: seq<string>, idx: nat, entries: seq<Entry>, stats: Stats.Tracker)
    returns (s: RoundState)
    requires idx < |wordleWords|
    modifies stats
    ensures s == Run(numLetters, wordleWords, wordleWords[idx], Initial(), entries)
    ensures stats.Value() == Settle(old(stats.Value()), s)
    ensures old(stats.Valid()) ==> stats.Valid()
  {
    var randomWord := wordleWords[idx];
    var outputWord := new char[numLetters](_ => '*');
    var allGuesses: seq<string> := [];
    var totalAttempts: nat := 0;
    var timeLimit := numLetters * 10 - 10;
    var startTime := 0;
    var elapsedSeconds := 0;
    ghost var run := Run(numLetters, wordleWords, randomWord, Initial(), entries);

    var i := 0;
    while totalAttempts != numLetters + 1 && i < |entries|
      invariant 0 <= i <= |entries|
      invariant totalAttempts < numLetters + 1
      invariant outputWord.Length == numLetters
      invariant run == Run(numLetters, wordleWords, randomWord,
                           RoundState(totalAttempts, allGuesses, startTime, elapsedSeconds, Playing), entries[i..])
      invariant stats.Value() == old(stats.Value())
    {
      var e := entries[i];
      ghost var before := RoundState(totalAttempts, allGuesses, startTime, elapsedSeconds, Playing);
      ghost var after := Step(numLetters, wordleWords, randomWord, before, e);
      assert run == Run(numLetters, wordleWords, randomWord, after, entries[i + 1..]);
      i := i + 1;

      if totalAttempts == 0 {
        startTime := e.readAt;
      }

      var guessWord := Lowercase(e.word);

      if |guessWord| != numLetters {
        continue;
      }

      var found := BinarySearch(wordleWords, guessWord);
      if found == -1 {
        continue;
      }

      WriteFeedback(randomWord, guessWord, outputWord);
      allGuesses := allGuesses + [outputWord[..]];
      totalAttempts := totalAttempts + 1;
      elapsedSeconds := e.checkedAt - startTime;

      if randomWord == guessWord {
        stats.RecordWin(elapsedSeconds);
        s := RoundState(totalAttempts, allGuesses, startTime, elapsedSeconds, Won);
        return;
      }

      if elapsedSeconds > timeLimit {
        stats.RecordLoss();
        s := RoundState(totalAttempts, allGuesses, startTime, elapsedSeconds, TimedOut);
        return;
      } else if totalAttempts == numLetters + 1 && randomWord != guessWord {
        stats.RecordLoss();
        s := RoundState(totalAttempts, allGuesses, startTime, elapsedSeconds, OutOfAttempts);
        return;
      }
    }
    s := RoundState(totalAttempts, allGuesses, startTime, elapsedSeconds, Playing);
  }
}
