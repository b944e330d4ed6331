/**
 * The weight dictionary built from a recommendation request and the weighted
 * sum that turns one district's indicator values into its score
 * (app.py, `calculate_scores`, lines 19-28).
 */
module Weights {

  /** One entry of the weight dictionary: an indicator column and its factor. */
  datatype Weight = Weight(column: string, factor: real)

  /**
   * The weight dictionary. A Python dict keeps its keys in insertion order,
   * so it is a sequence of entries; `Put` keeps the columns distinct.
   */
  type Weights = seq<Weight>

  /** The keys of the dictionary. */
  function ColumnSet(w: Weights): (cs: set<string>)
    ensures forall i :: 0 <= i < |w| ==> w[i].column in cs
  {
    if w == [] then {} else {w[0].column} + ColumnSet(w[1..])
  }

  /** Every key of the dictionary names one of its entries. */
  lemma {:induction false} ColumnSetHasEntry(w: Weights, c: string)
    requires c in ColumnSet(w)
    ensures exists i :: 0 <= i < |w| && w[i].column == c
  {
    if w[0].column != c {
      ColumnSetHasEntry(w[1..], c);
      var i :| 0 <= i < |w[1..]| && w[1..][i].column == c;
      assert w[i + 1].column == c;
    }
  }

  /** No column occurs twice, as in any dict. */
  ghost predicate Distinct(w: Weights)
  {
    forall i, j :: 0 <= i < j < |w| ==> w[i].column != w[j].column
  }

  /** The dictionary seen as a mapping, without its key order. */
  function AsMap(w: Weights): (m: map<string, real>)
    ensures m.Keys == ColumnSet(w)
  {
    if w == [] then map[] else AsMap(w[1..])[w[0].column := w[0].factor]
  }

  /**
   * `weights[k] = v`: an existing key keeps its place and takes the new
   * factor; a new key is appended at the end.
   */
  function Put(w: Weights, k: string, v: real): (r: Weights)
    ensures k in ColumnSet(w) ==> |r| == |w| && forall i :: 0 <= i < |w| ==> r[i].column == w[i].column
    ensures k !in ColumnSet(w) ==> r == w + [Weight(k, v)]
  {
    if w == [] then [Weight(k, v)]
    else if w[0].column == k then [Weight(k, v)] + w[1..]
    else [w[0]] + Put(w[1..], k, v)
  }

  /** After `weights[k] = v` the dictionary maps `k` to `v` and every other key as before. */
  lemma {:induction false} PutMaps(w: Weights, k: string, v: real)
    ensures AsMap(Put(w, k, v)) == AsMap(w)[k := v]
  {
    if w != [] {
      var rest, c, f := w[1..], w[0].column, w[0].factor;
      var m := AsMap(rest);
      assert AsMap(w) == m[c := f];
      if c == k {
        assert ([Weight(k, v)] + rest)[1..] == rest;
        var a, b := AsMap(Put(w, k, v)), m[c := f][k := v];
        assert a == m[k := v];
        assert a.Keys == b.Keys;
        assert forall x | x in a :: a[x] == b[x];
      } else {
        var tail := Put(rest, k, v);
        PutMaps(rest, k, v);
        assert ([w[0]] + tail)[1..] == tail;
        var a, b := AsMap(Put(w, k, v)), m[c := f][k := v];
        assert a == m[k := v][c := f];
        assert a.Keys == b.Keys;
        assert forall x | x in a :: a[x] == b[x];
      }
    }
  }

  /** One column's contribution to a score: its weight times the district's value. */
  function Weighted(factor: real, value: real): real
  {
    factor * value
  }

  /** Assigning a key keeps the dictionary's keys distinct. */
  lemma PutKeepsDistinct(w: Weights, k: string, v: real)
    requires Distinct(w)
    ensures Distinct(Put(w, k, v))
  {
  }

  /**
   * The weighted sum of one district's values over the selected columns, in
   * the dictionary's key order (`df_selected.mul(weights_series).sum(axis=1)`).
   */
  function Score(values: map<string, real>, w: Weights): real
    requires ColumnSet(w) <= values.Keys
  {
    if w == [] then 0.0 else Weighted(w[0].factor, values[w[0].column]) + Score(values, w[1..])
  }

  /** Picks some element of a non-empty set of column names. */
  ghost function Pick(s: set<string>): (c: string)
    requires s != {}
    ensures c in s
  {
    var c :| c in s; c
  }

  /** The order-free sum of the values of a mapping. */
  ghost function Sum(m: map<string, real>): real
    decreases |m.Keys|
  {
    if m.Keys == {} then 0.0
    else
      var c := Pick(m.Keys);
      m[c] + Sum(m - {c})
  }

  /** Any key may be taken out of `Sum` first. */
  lemma {:induction false} SumRemove(m: map<string, real>, c: string)
    requires c in m
    ensures Sum(m) == m[c] + Sum(m - {c})
    decreases |m.Keys|
  {
    var p := Pick(m.Keys);
    if p != c {
      assert (m - {p}).Keys == m.Keys - {p};
      assert (m - {c}).Keys == m.Keys - {c};
      SumRemove(m - {p}, c);
      SumRemove(m - {c}, p);
      RemoveCommutes(m, p, c);
    }
  }

  /** Removing two keys from a mapping gives the same mapping in either order. */
  lemma RemoveCommutes(m: map<string, real>, p: string, c: string)
    ensures m - {p} - {c} == m - {c} - {p}
  {
    var a, b := m - {p} - {c}, m - {c} - {p};
    assert a.Keys == b.Keys;
    assert forall x | x in a :: a[x] == b[x];
  }

  /** Each weighted column's contribution: its weight times the district's value. */
  ghost function Contributions(weights: map<string, real>, values: map<string, real>): (m: map<string, real>)
    requires weights.Keys <= values.Keys
  {
    map c | c in weights :: Weighted(weights[c], values[c])
  }

  /** Dropping a column from the weights drops its contribution. */
  lemma ContributionsRemove(weights: map<string, real>, values: map<string, real>, c: string)
    requires weights.Keys <= values.Keys
    ensures Contributions(weights, values) - {c} == Contributions(weights - {c}, values)
  {
    var a, b := Contributions(weights, values) - {c}, Contributions(weights - {c}, values);
    assert a.Keys == b.Keys;
    assert forall x | x in a :: a[x] == b[x];
  }

  /**
   * A district's score is the sum, over the keys of the weight dictionary,
   * of weight times that district's value in the column of that name; the
   * key order of the dictionary does not matter.
   */
  lemma {:induction false} ScoreIsTotal(values: map<string, real>, w: Weights)
    requires Distinct(w)
    requires ColumnSet(w) <= values.Keys
    ensures Score(values, w) == Sum(Contributions(AsMap(w), values))
  {
    if w != [] {
      var rest, c := w[1..], w[0].column;
      assert Distinct(rest);
      ScoreIsTotal(values, rest);
      var m := AsMap(rest);
      assert c !in m by {
        if c in ColumnSet(rest) {
          ColumnSetHasEntry(rest, c);
        }
      }
      assert AsMap(w) - {c} == m;
      ContributionsRemove(AsMap(w), values, c);
      var whole := Contributions(AsMap(w), values);
      SumRemove(whole, c);
      assert whole - {c} == Contributions(m, values);
    }
  }

  /** Two orderings of the same dictionary give every district the same score. */
  lemma ScoreIgnoresKeyOrder(values: map<string, real>, w1: Weights, w2: Weights)
    requires Distinct(w1) && Distinct(w2)
    requires AsMap(w1) == AsMap(w2)
    requires ColumnSet(w1) <= values.Keys
    ensures ColumnSet(w2) <= values.Keys
    ensures Score(values, w1) == Score(values, w2)
  {
    ScoreIsTotal(values, w1);
    ScoreIsTotal(values, w2);
  }

  /**
   * Columns not named in the dictionary contribute nothing: two districts
   * that agree on the weighted columns get the same score.
   */
  lemma {:induction false} ScoreReadsOnlyWeightedColumns(v1: map<string, real>, v2: map<string, real>, w: Weights)
    requires ColumnSet(w) <= v1.Keys && ColumnSet(w) <= v2.Keys
    requires forall c :: c in ColumnSet(w) ==> v1[c] == v2[c]
    ensures Score(v1, w) == Score(v2, w)
  {
    if w != [] {
      ScoreReadsOnlyWeightedColumns(v1, v2, w[1..]);
    }
  }
}
