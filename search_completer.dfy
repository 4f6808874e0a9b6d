/**
 * Completion of a search phrase from the search history: the most recent
 * search that starts with what has been typed so far.
 */
module SearchCompleter {
  import opened Wrappers

  /** The newest entry of `history` (oldest first) that starts with `partial`. */
  function NewestWithPrefix(history: seq<string>, partial: string): Option<string>
  {
    if history == [] then None
    else if partial <= history[|history| - 1] then Some(history[|history| - 1])
    else NewestWithPrefix(history[..|history| - 1], partial)
  }

  /**
   * The completion is an entry of the history that starts with `partial`,
   * and no newer entry does; there is none exactly when no entry starts
   * with `partial`.
   */
  lemma NewestWithPrefixMeaning(history: seq<string>, partial: string)
    ensures NewestWithPrefix(history, partial).None? <==> forall i :: 0 <= i < |history| ==> !(partial <= history[i])
    ensures NewestWithPrefix(history, partial).Some? ==>
      var r := NewestWithPrefix(history, partial).value;
      partial <= r
      && exists i :: 0 <= i < |history| && history[i] == r
           && forall j :: i < j < |history| ==> !(partial <= history[j])
  {
    NoneMeansNoMatch(history, partial);
    if NewestWithPrefix(history, partial).Some? {
      var i := SomeIsNewestMatch(history, partial);
    }
  }

  /** There is no completion exactly when no entry starts with `partial`. */
  lemma {:induction false} NoneMeansNoMatch(history: seq<string>, partial: string)
    ensures NewestWithPrefix(history, partial).None? <==> forall i :: 0 <= i < |history| ==> !(partial <= history[i])
  {
    if history != [] {
      var n := |history| - 1;
      if !(partial <= history[n]) {
        var front := history[..n];
        NoneMeansNoMatch(front, partial);
        assert forall i :: 0 <= i < n ==> front[i] == history[i];
      }
    }
  }

  /** A completion is the entry at some index `i` that starts with `partial`, and no later entry does. */
  lemma {:induction false} SomeIsNewestMatch(history: seq<string>, partial: string) returns (i: nat)
    requires NewestWithPrefix(history, partial).Some?
    ensures i < |history| && history[i] == NewestWithPrefix(history, partial).value
    ensures partial <= history[i]
    ensures forall j :: i < j < |history| ==> !(partial <= history[j])
  {
    var n := |history| - 1;
    if partial <= history[n] {
      i := n;
    } else {
      var front := history[..n];
      i := SomeIsNewestMatch(front, partial);
      assert history[i] == front[i];
    }
  }

  /** With nothing typed, the completion is the newest search, and there is none without history. */
  lemma NewestWithEmptyPrefix(history: seq<string>)
    ensures NewestWithPrefix(history, "") == if history == [] then None else Some(history[|history| - 1])
  {
  }

  /**
   * `SearchCompleter::complete` over a given history (oldest first; the
   * source reads it from the data file): the source reverses the history and
   * returns the first entry that starts with `partial`, which is this scan
   * from the history's end.
   */
  method Complete(history: seq<string>, partial: string) returns (r: Option<string>)
    ensures r == NewestWithPrefix(history, partial)
  {
    var i := |history|;
    assert history[..i] == history;
    while i > 0
      invariant 0 <= i <= |history|
      invariant NewestWithPrefix(history, partial) == NewestWithPrefix(history[..i], partial)
    {
      assert history[..i][..i - 1] == history[..i - 1];
      i := i - 1;
      if partial <= history[i] {
        return Some(history[i]);
      }
    }
    return None;
  }
}
