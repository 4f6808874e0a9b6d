/**
 * Persistent data about searching: the history of searched phrases, oldest
 * first, kept to a maximum length.
 */
module Data {
  /**
   * The history after adding `phrase`: the phrase is appended as the newest
   * entry, and when that makes the history longer than `maxLength`, the
   * oldest entry is dropped.
   */
  function Added(history: seq<string>, phrase: string, maxLength: nat): (r: seq<string>)
    ensures |r| > 0 ==> r[|r| - 1] == phrase
    ensures |history| < maxLength ==> r == history + [phrase]
    ensures |history| >= maxLength && history != [] ==> r == history[1..] + [phrase]
    ensures |history| >= maxLength && history == [] ==> r == []
  {
    var pushed := history + [phrase];
    if |pushed| > maxLength then pushed[1..] else pushed
  }

  /**
   * Adding keeps the history's bound: a history within `maxLength` entries
   * stays within it, growing by one until it is full; with a maximum of 0 it
   * stays empty. The new entry is the newest, and at most the single oldest
   * entry is lost.
   */
  lemma AddedKeepsBound(history: seq<string>, phrase: string, maxLength: nat)
    requires |history| <= maxLength
    ensures |Added(history, phrase, maxLength)| <= maxLength
    ensures |Added(history, phrase, maxLength)| == if |history| < maxLength then |history| + 1 else |history|
    ensures maxLength == 0 ==> Added(history, phrase, maxLength) == []
    ensures maxLength > 0 ==> Added(history, phrase, maxLength)[|Added(history, phrase, maxLength)| - 1] == phrase
  {
  }

  /** Every entry kept is an entry of the old history, in the same order, followed by the phrase. */
  lemma AddedIsSuffix(history: seq<string>, phrase: string, maxLength: nat)
    ensures exists k :: 0 <= k <= 1 && k <= |history| + 1 && Added(history, phrase, maxLength) == (history + [phrase])[k..]
  {
    var pushed := history + [phrase];
    if |pushed| > maxLength {
      assert Added(history, phrase, maxLength) == pushed[1..];
    } else {
      assert Added(history, phrase, maxLength) == pushed[0..];
    }
  }

  /** Data about searching for text in files. */
  class SearcherData {
    /** The phrases searched for, oldest first. */
    var history: seq<string>

    constructor ()
      ensures history == []
    {
      history := [];
    }

    /** Appends the phrase as the newest entry, then drops the oldest if there are too many. */
    method AddToHistory(phrase: string, maxLength: nat)
      modifies this
      ensures history == Added(old(history), phrase, maxLength)
    {
      history := history + [phrase];
      if |history| > maxLength {
        history := history[1..];
      }
    }
  }
}
