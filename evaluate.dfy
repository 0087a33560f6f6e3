/**
 * Guess evaluation: the feedback row shown for one accepted guess, and the
 * lowering of the typed guess that comes before it.
 *
 * `tolower`/`toupper` are taken in the "C" locale, where only the ASCII
 * letters change case.
 */
module Evaluate {

  predicate IsUpper(c: char) { 'A' <= c <= 'Z' }

  predicate IsLower(c: char) { 'a' <= c <= 'z' }

  /** `tolower` in the "C" locale. */
  function ToLower(c: char): char
  {
    if IsUpper(c) then (c as int + 32) as char else c
  }

  /** `toupper` in the "C" locale. */
  function ToUpper(c: char): char
  {
    if IsLower(c) then (c as int - 32) as char else c
  }

  /** The guess with every character passed through `tolower`. */
  function LowerWord(s: string): string
  {
    seq(|s|, i requires 0 <= i < |s| => ToLower(s[i]))
  }

  /** A word of lower-case ASCII letters only, as the word list holds. */
  predicate IsLowerWord(s: string)
  {
    forall i :: 0 <= i < |s| ==> IsLower(s[i])
  }

  /** The word in capitals: the row of a guess that matches the target. */
  function UpperWord(s: string): string
  {
    seq(|s|, i requires 0 <= i < |s| => ToUpper(s[i]))
  }

  /** The in-place loop that lowers the typed guess, character by character. */
  method Lowercase(word: string) returns (guessWord: string)
    ensures guessWord == LowerWord(word)
  {
    guessWord := word;
    var i := 0;
    while i < |guessWord|
      invariant 0 <= i <= |guessWord| == |word|
      invariant forall k :: 0 <= k < i ==> guessWord[k] == ToLower(word[k])
      invariant forall k :: i <= k < |word| ==> guessWord[k] == word[k]
    {
      guessWord := guessWord[i := ToLower(guessWord[i])];
      i := i + 1;
    }
  }

  /**
   * `s.find(c, from)`: the first index at or after `from` that holds `c`,
   * with -1 standing for `string::npos`.
   */
  function Find(s: string, c: char, from: nat): (r: int)
    ensures r == -1 || (from <= r < |s| && s[r] == c)
    ensures forall k :: from <= k < |s| && (r == -1 || k < r) ==> s[k] != c
    decreases |s| - from
  {
    if from >= |s| then -1
    else if s[from] == c then from
    else Find(s, c, from + 1)
  }

  /** `find(c, i) == i` is a positional comparison: it holds exactly when `s[i]` is `c`. */
  lemma FindAtIsPositional(s: string, c: char, i: nat)
    ensures Find(s, c, i) == i <==> i < |s| && s[i] == c
  {
  }

  /** `find(c) == npos` holds exactly when `c` does not occur in `s`. */
  lemma FindMissing(s: string, c: char)
    ensures Find(s, c, 0) == -1 <==> c !in s
  {
  }

  /**
   * Feedback for guessed character `g` at position `i`: `*` when `g` is not
   * in the target, `g` in capitals when the target has `g` at `i`, and `g`
   * unchanged when it is elsewhere in the target.
   */
  function Cell(target: string, g: char, i: nat): (r: char)
    ensures g != '*' ==> (r == '*' <==> g !in target)
    ensures r != '*' ==> ToLower(r) == ToLower(g)
    ensures IsLower(g) ==> (IsUpper(r) <==> i < |target| && target[i] == g)
    ensures IsLower(g) ==> (IsLower(r) <==> g in target && !(i < |target| && target[i] == g))
  {
    if g !in target then '*'
    else if i < |target| && target[i] == g then ToUpper(g)
    else g
  }

  /** The feedback row for `guess` against `target`, one cell per guessed character. */
  function Row(target: string, guess: string): (r: string)
    ensures |r| == |guess|
    ensures forall i :: 0 <= i < |r| ==> r[i] == '*' || ToLower(r[i]) == ToLower(guess[i])
  {
    seq(|guess|, i requires 0 <= i < |guess| => Cell(target, guess[i], i))
  }

  /**
   * The loop that fills `outputWord` with the feedback for `guessWord`,
   * deciding each cell with `find` as the game does. Every cell is written,
   * so the previous guess leaves no trace in the result.
   */
  method WriteFeedback(randomWord: string, guessWord: string, outputWord: array<char>)
    requires outputWord.Length == |guessWord|
    modifies outputWord
    ensures outputWord[..] == Row(randomWord, guessWord)
  {
    var charIndex := 0;
    while charIndex < |guessWord|
      invariant 0 <= charIndex <= |guessWord|
      invariant forall k :: 0 <= k < charIndex ==> outputWord[k] == Cell(randomWord, guessWord[k], k)
    {
      var c := guessWord[charIndex];
      FindMissing(randomWord, c);
      if Find(randomWord, c, 0) == -1 {
        outputWord[charIndex] := '*';
      } else {
        FindAtIsPositional(randomWord, c, charIndex);
        if Find(randomWord, c, charIndex) == charIndex {
          outputWord[charIndex] := ToUpper(c);
        } else {
          outputWord[charIndex] := c;
        }
      }
      charIndex := charIndex + 1;
    }
  }

  /**
   * For a lower-case guess, each cell says one of three things and the three
   * cases are told apart by the cell alone: `*` exactly when the letter is
   * absent, a capital exactly when it is in place, a small letter exactly when
   * it is present elsewhere. A non-`*` cell always shows the guessed letter.
   */
  lemma RowClassifies(target: string, guess: string, i: nat)
    requires IsLowerWord(guess)
    requires i < |guess|
    ensures |Row(target, guess)| == |guess|
    ensures Row(target, guess)[i] == '*' <==> guess[i] !in target
    ensures IsUpper(Row(target, guess)[i]) <==> i < |target| && target[i] == guess[i]
    ensures IsLower(Row(target, guess)[i]) <==> guess[i] in target && !(i < |target| && target[i] == guess[i])
    ensures Row(target, guess)[i] != '*' ==> ToLower(Row(target, guess)[i]) == guess[i]
  {
  }

  /** Guessing the target itself gives the target in capitals: no `*`, no small letter. */
  lemma RowOfTarget(w: string)
    ensures Row(w, w) == UpperWord(w)
    ensures IsLowerWord(w) ==> forall i :: 0 <= i < |w| ==> IsUpper(Row(w, w)[i])
  {
  }

  /** The worked example: target "cat", guess "dot" gives "**T". */
  lemma RowExample()
    ensures Row("cat", "dot") == "**T"
  {
  }
}
