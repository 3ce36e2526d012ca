/** The dashboard's "Last 5 Transactions" view of an account history: the
    final few entries of the history, most recent first. Histories are kept
    oldest first, in the order the ledger appended them. */
module History {

  /** How many entries the recent-transactions list shows. */
  const RecentCount: nat := 5

  function Min(a: int, b: int): int
  {
    if a <= b then a else b
  }

  /** The sequence read back to front (Python's `s[::-1]`). */
  function Reversed<T>(s: seq<T>): (r: seq<T>)
    ensures |r| == |s|
    ensures forall i :: 0 <= i < |s| ==> r[i] == s[|s| - 1 - i]
  {
    if s == [] then [] else [s[|s| - 1]] + Reversed(s[..|s| - 1])
  }

  /** The last RecentCount elements of `s`, or all of `s` when it is shorter
      (Python's `s[-5:]`, whose start is clamped at the front of the list). */
  function Window<T>(s: seq<T>): (r: seq<T>)
    ensures |r| == Min(RecentCount, |s|)
    ensures s == s[..|s| - |r|] + r
  {
    if |s| <= RecentCount then s else s[|s| - RecentCount..]
  }

  /** The recent view: element 0 is the newest entry, element 1 the one
      before it, and so on, for at most RecentCount entries. */
  function Recent<T>(h: seq<T>): (r: seq<T>)
    ensures |r| == Min(RecentCount, |h|)
    ensures forall i :: 0 <= i < |r| ==> r[i] == h[|h| - 1 - i]
  {
    var w := Window(h);
    assert forall j :: 0 <= j < |w| ==> w[j] == h[|h| - |w| + j];
    Reversed(w)
  }

  /** Appending an entry to a history puts that entry at the head of the
      recent view and pushes the previous view down by one place, dropping
      its oldest entry once the view is full. */
  lemma {:induction false} RecentAfterAppend<T>(h: seq<T>, e: T)
    ensures Recent(h + [e]) == [e] + Recent(h)[..Min(RecentCount - 1, |h|)]
  {
    ViewShift(h, e, Recent(h), Recent(h + [e]));
  }

  /** The index-level argument behind RecentAfterAppend, stated for any two
      sequences that read `h` and `h + [e]` back to front. */
  lemma {:induction false} ViewShift<T>(h: seq<T>, e: T, r: seq<T>, r': seq<T>)
    requires |r| == Min(RecentCount, |h|) && |r'| == Min(RecentCount, |h| + 1)
    requires forall i :: 0 <= i < |r| ==> r[i] == h[|h| - 1 - i]
    requires forall i :: 0 <= i < |r'| ==> r'[i] == (h + [e])[|h| - i]
    ensures r' == [e] + r[..Min(RecentCount - 1, |h|)]
  {
  }

  /** A history of at most RecentCount entries is shown in full, reversed. */
  lemma RecentOfShortHistory<T>(h: seq<T>)
    requires |h| <= RecentCount
    ensures Recent(h) == Reversed(h)
  {
  }
}
