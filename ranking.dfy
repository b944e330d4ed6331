/**
 * Ranking the scored districts: `sort_values(by="score", ascending=False)`
 * followed by `head(byNum)` (app.py, `calculate_scores`, lines 31-32).
 */
module Ranking {

  /** One returned record: a district name and its score. */
  datatype Record = Record(district: string, score: real)

  /** Scores never increase along the sequence. */
  ghost predicate NonIncreasing(s: seq<Record>)
  {
    forall i, j :: 0 <= i < j < |s| ==> s[i].score >= s[j].score
  }

  /** Places one record into a list already ordered by descending score. */
  function Insert(x: Record, s: seq<Record>): (r: seq<Record>)
    requires NonIncreasing(s)
    ensures NonIncreasing(r)
    ensures multiset(r) == multiset(s) + multiset{x}
    ensures |r| == |s| + 1
    ensures r[0] == x || (s != [] && r[0] == s[0])
  {
    if s == [] || x.score >= s[0].score then
      ConsKeepsOrder(x, s);
      [x] + s
    else
      var tail := Insert(x, s[1..]);
      InsertBehind(x, s, tail);
      [s[0]] + tail
  }

  /**
   * When `x` scores below the head of `s`, the head followed by `x` inserted
   * into the rest is ordered and holds `s` and `x`.
   */
  lemma InsertBehind(x: Record, s: seq<Record>, tail: seq<Record>)
    requires NonIncreasing(s) && s != [] && x.score < s[0].score
    requires NonIncreasing(tail) && multiset(tail) == multiset(s[1..]) + multiset{x}
    requires |tail| == |s| && (tail[0] == x || (|s| > 1 && tail[0] == s[1]))
    ensures NonIncreasing([s[0]] + tail)
    ensures multiset([s[0]] + tail) == multiset(s) + multiset{x}
  {
    assert s == [s[0]] + s[1..];
    ConsKeepsOrder(s[0], tail);
  }

  /** A record no lower than the head of a descending list may precede it. */
  lemma ConsKeepsOrder(h: Record, s: seq<Record>)
    requires NonIncreasing(s)
    requires s != [] ==> h.score >= s[0].score
    ensures NonIncreasing([h] + s)
  {
    var r := [h] + s;
    forall i, j | 0 <= i < j < |r|
      ensures r[i].score >= r[j].score
    {
      if i == 0 {
        assert r[j] == s[j - 1];
        assert s[0].score >= s[j - 1].score;
      } else {
        assert r[i] == s[i - 1] && r[j] == s[j - 1];
      }
    }
  }

  /**
   * Orders records by descending score. Like the unstable sort the source
   * uses, nothing is promised about the relative order of equal scores.
   */
  function SortByScore(s: seq<Record>): (r: seq<Record>)
    ensures NonIncreasing(r)
    ensures multiset(r) == multiset(s)
    ensures |r| == |s|
  {
    if s == [] then []
    else
      assert s == [s[0]] + s[1..];
      Insert(s[0], SortByScore(s[1..]))
  }

  /**
   * How many records `head(n)` keeps out of `len`: the first `n`, or for a
   * negative `n` all but the last `-n`, as a Python slice `[:n]` does.
   */
  function HeadLength(n: int, len: nat): (k: nat)
    ensures k <= len
  {
    if n >= 0 then (if n <= len then n else len)
    else if len + n >= 0 then len + n else 0
  }

  /** `head(n)`: a prefix of the list. */
  function Head(s: seq<Record>, n: int): (r: seq<Record>)
    ensures |r| == HeadLength(n, |s|)
    ensures r <= s
  {
    s[..HeadLength(n, |s|)]
  }

  /**
   * `r` is a top-`n` selection from `records`: it has `min(n, |records|)`
   * entries (for a negative `n`, all but the last `-n`), its scores never
   * increase, each entry is one of the records, and no record left out has
   * a higher score than any entry.
   */
  ghost predicate IsTopN(r: seq<Record>, records: seq<Record>, n: int)
  {
    && (n >= 0 ==> |r| == if n <= |records| then n else |records|)
    && (n < 0 ==> |r| == if |records| + n >= 0 then |records| + n else 0)
    && NonIncreasing(r)
    && multiset(r) <= multiset(records)
    && forall i, y :: 0 <= i < |r| && y in multiset(records) - multiset(r) ==> r[i].score >= y.score
  }

  /** What a prefix leaves out of a list is its suffix. */
  lemma LeftOutIsSuffix(s: seq<Record>, k: nat)
    requires k <= |s|
    ensures multiset(s) - multiset(s[..k]) == multiset(s[k..])
  {
    assert s == s[..k] + s[k..];
  }

  /** In a descending list every entry before position `k` is at least every entry from `k` on. */
  lemma PrefixDominatesSuffix(sorted: seq<Record>, k: nat)
    requires NonIncreasing(sorted)
    requires k <= |sorted|
    ensures forall i, y :: 0 <= i < k && y in multiset(sorted[k..]) ==> sorted[i].score >= y.score
  {
    forall i, y | 0 <= i < k && y in multiset(sorted[k..])
      ensures sorted[i].score >= y.score
    {
      var rest := sorted[k..];
      assert y in rest;
      var j :| 0 <= j < |rest| && rest[j] == y;
      assert sorted[k + j] == y;
    }
  }

  /** The first `k` entries of a descending list are a top-`k` of it. */
  lemma PrefixIsTop(sorted: seq<Record>, k: nat)
    requires NonIncreasing(sorted)
    requires k <= |sorted|
    ensures NonIncreasing(sorted[..k])
    ensures multiset(sorted[..k]) <= multiset(sorted)
    ensures forall i, y :: 0 <= i < k && y in multiset(sorted) - multiset(sorted[..k]) ==> sorted[..k][i].score >= y.score
  {
    var top, rest := sorted[..k], sorted[k..];
    assert forall i :: 0 <= i < k ==> top[i] == sorted[i];
    assert sorted == top + rest;
    LeftOutIsSuffix(sorted, k);
    PrefixDominatesSuffix(sorted, k);
  }

  /** Sorting by descending score and keeping the head selects a top-`n`. */
  lemma TopOfSorted(records: seq<Record>, n: int)
    ensures IsTopN(Head(SortByScore(records), n), records, n)
  {
    var sorted := SortByScore(records);
    var k := HeadLength(n, |sorted|);
    assert Head(sorted, n) == sorted[..k];
    PrefixIsTop(sorted, k);
  }
}
