/**
 * The word catalog of Wordle Reload: the split of the word-list tokens into
 * a three-letter and a five-letter list, and the binary search that decides
 * whether a guess is a playable word.
 *
 * Strings compare as C++ `std::string` does: character by character, and a
 * proper prefix before the longer string.
 */
module Catalog {

  /**
   * `a < b` on `std::string`: lexicographic order on character codes. It is
   * strict, and a proper prefix comes before the longer string.
   */
  predicate Less(a: string, b: string)
    ensures Less(a, b) ==> a != b
    ensures |a| < |b| && a == b[..|a|] ==> Less(a, b)
    decreases |a|
  {
    if a == [] then b != []
    else if b == [] then false
    else a[0] < b[0] || (a[0] == b[0] && Less(a[1..], b[1..]))
  }

  /** The order is total: two strings neither of which is below the other are equal. */
  lemma {:induction false} LessTotal(a: string, b: string)
    requires !Less(a, b) && !Less(b, a)
    ensures a == b
    decreases |a|
  {
    if a != [] && b != [] {
      LessTotal(a[1..], b[1..]);
      assert a == [a[0]] + a[1..] && b == [b[0]] + b[1..];
    }
  }

  /** Ascending order, duplicates allowed. */
  predicate Sorted(words: seq<string>)
  {
    forall i, j :: 0 <= i <= j < |words| ==> !Less(words[j], words[i])
  }

  /**
   * What `binarySearch` returns when its window is `low..high` (both
   * inclusive): an index holding `w`, or -1.
   */
  function Search(words: seq<string>, w: string, low: int, high: int): (r: int)
    requires 0 <= low && high < |words|
    ensures r == -1 || (low <= r <= high && words[r] == w)
    decreases high - low
  {
    if high < low then -1
    else
      var mid := (high + low) / 2;
      if Less(words[mid], w) then Search(words, w, mid + 1, high)
      else if Less(w, words[mid]) then Search(words, w, low, mid - 1)
      else LessTotal(words[mid], w); mid
  }

  /**
   * The result of `binarySearch(words, w)`. The window starts at
   * `0..size()-1`; for an empty list the unsigned `size() - 1` converts to the
   * `int` -1, so the search ends at once with -1.
   */
  function Lookup(words: seq<string>, w: string): (r: int)
    ensures r == -1 || (0 <= r < |words| && words[r] == w)
  {
    Search(words, w, 0, |words| - 1)
  }

  /** On a sorted list, a window that holds an occurrence of `w` finds one. */
  lemma {:induction false} SearchFinds(words: seq<string>, w: string, low: int, high: int, k: int)
    requires Sorted(words)
    requires 0 <= low && high < |words|
    requires low <= k <= high && words[k] == w
    ensures Search(words, w, low, high) != -1
    decreases high - low
  {
    var mid := (high + low) / 2;
    if Less(words[mid], w) {
      assert mid < k;
      SearchFinds(words, w, mid + 1, high, k);
    } else if Less(w, words[mid]) {
      assert k < mid;
      SearchFinds(words, w, low, mid - 1, k);
    }
  }

  /** On a sorted list, the search reports "not found" exactly when `w` is absent. */
  lemma LookupComplete(words: seq<string>, w: string)
    requires Sorted(words)
    ensures Lookup(words, w) == -1 <==> w !in words
  {
    if w in words {
      var k :| 0 <= k < |words| && words[k] == w;
      SearchFinds(words, w, 0, |words| - 1, k);
    }
  }

  /** `binarySearch`: narrows `low..high` until it meets `w` or the window is empty. */
  method BinarySearch(words: seq<string>, w: string) returns (r: int)
    ensures r == Lookup(words, w)
    ensures r == -1 || (0 <= r < |words| && words[r] == w)
    ensures Sorted(words) ==> (r == -1 <==> w !in words)
  {
    var low := 0;
    var high := |words| - 1;
    while high >= low
      invariant 0 <= low && high < |words|
      invariant Search(words, w, low, high) == Lookup(words, w)
      decreases high - low
    {
      var mid := (high + low) / 2;
      if Less(words[mid], w) {
        low := mid + 1;
      } else if Less(w, words[mid]) {
        high := mid - 1;
      } else {
        r := mid;
        return;
      }
    }
    r := -1;
    if Sorted(words) {
      LookupComplete(words, w);
    }
  }

  /** The tokens of length `n`, in input order. */
  function OfLength(tokens: seq<string>, n: nat): (r: seq<string>)
    ensures |r| <= |tokens|
    ensures forall i :: 0 <= i < |r| ==> |r[i]| == n
  {
    if tokens == [] then []
    else
      var last := tokens[|tokens| - 1];
      OfLength(tokens[..|tokens| - 1], n) + (if |last| == n then [last] else [])
  }

  /** Filtering keeps input order: it distributes over concatenation. */
  lemma {:induction false} OfLengthConcat(a: seq<string>, b: seq<string>, n: nat)
    ensures OfLength(a + b, n) == OfLength(a, n) + OfLength(b, n)
    decreases |b|
  {
    if b == [] {
      assert a + b == a;
    } else {
      var b' := b[..|b| - 1];
      assert (a + b)[..|a + b| - 1] == a + b';
      OfLengthConcat(a, b', n);
    }
  }

  /**
   * Filtering keeps every token of length `n` as many times as it occurs and
   * drops every other token.
   */
  lemma {:induction false} OfLengthCounts(tokens: seq<string>, n: nat, w: string)
    ensures multiset(OfLength(tokens, n))[w] == if |w| == n then multiset(tokens)[w] else 0
  {
    if tokens != [] {
      var init := tokens[..|tokens| - 1];
      var last := tokens[|tokens| - 1];
      assert tokens == init + [last];
      OfLengthCounts(init, n, w);
    }
  }

  /** `readWordleWords` after the file is split into tokens: clear both lists, then append. */
  method ReadWordleWords(tokens: seq<string>) returns (threeLettered: seq<string>, fiveLettered: seq<string>)
    ensures threeLettered == OfLength(tokens, 3)
    ensures fiveLettered == OfLength(tokens, 5)
  {
    threeLettered := [];
    fiveLettered := [];
    var i := 0;
    while i < |tokens|
      invariant 0 <= i <= |tokens|
      invariant threeLettered == OfLength(tokens[..i], 3)
      invariant fiveLettered == OfLength(tokens[..i], 5)
    {
      var newWord := tokens[i];
      assert tokens[..i + 1][..i] == tokens[..i];
      if |newWord| == 3 {
        threeLettered := threeLettered + [newWord];
      }
      if |newWord| == 5 {
        fiveLettered := fiveLettered + [newWord];
      }
      i := i + 1;
    }
    assert tokens[..i] == tokens;
  }
}
