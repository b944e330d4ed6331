/**
 * The district table and `calculate_scores` (app.py, lines 19-32), which
 * writes a `score` column onto the shared table and returns the
 * best-scoring districts.
 */
module Scoring {
  import opened Results
  import opened Weights
  import opened Ranking

  /** The column `calculate_scores` writes. */
  const ScoreColumn := "score"

  /** One row of the table: the district's name and its numeric columns. */
  datatype District = District(name: string, values: map<string, real>)

  /** Every row of a table has a value for every weighted column. */
  ghost predicate Covers(rows: seq<District>, w: Weights)
  {
    forall i :: 0 <= i < |rows| ==> ColumnSet(w) <= rows[i].values.Keys
  }

  /** Selecting a column the table lacks raises a KeyError naming the missing columns. */
  datatype ScoringError = KeyNotInIndex(missing: set<string>)

  /**
   * The table after `df["score"] = ...`: the same rows in the same order,
   * each with its score in the score column and every other column as it was.
   */
  function WithScores(rows: seq<District>, w: Weights): (r: seq<District>)
    requires Covers(rows, w)
    ensures |r| == |rows|
    ensures forall i :: 0 <= i < |rows| ==>
      && r[i].name == rows[i].name
      && r[i].values.Keys == rows[i].values.Keys + {ScoreColumn}
      && r[i].values[ScoreColumn] == Score(rows[i].values, w)
    ensures forall i, c :: 0 <= i < |rows| && c in rows[i].values && c != ScoreColumn ==>
      r[i].values[c] == rows[i].values[c]
  {
    seq(|rows|, i requires 0 <= i < |rows| =>
      District(rows[i].name, rows[i].values[ScoreColumn := Score(rows[i].values, w)]))
  }

  /** Each district paired with the score the weights give it. */
  function ScoreRecords(rows: seq<District>, w: Weights): seq<Record>
    requires Covers(rows, w)
  {
    seq(|rows|, i requires 0 <= i < |rows| => Record(rows[i].name, Score(rows[i].values, w)))
  }

  /** `df[["자치구", "score"]]`: the name and score columns of a scored table. */
  function NameAndScore(rows: seq<District>): (r: seq<Record>)
    requires forall i :: 0 <= i < |rows| ==> ScoreColumn in rows[i].values
    ensures |r| == |rows|
    ensures forall i :: 0 <= i < |r| ==> r[i].district == rows[i].name
  {
    seq(|rows|, i requires 0 <= i < |rows| => Record(rows[i].name, rows[i].values[ScoreColumn]))
  }

  /** Reading back the score column gives every district its own weighted score. */
  lemma NameAndScoreOfScored(rows: seq<District>, w: Weights)
    requires Covers(rows, w)
    ensures NameAndScore(WithScores(rows, w)) == ScoreRecords(rows, w)
  {
  }

  /**
   * Every entry of a top-`n` selection pairs the name of an existing district
   * with that district's own score.
   */
  lemma RankedEntriesAreDistricts(r: seq<Record>, rows: seq<District>, w: Weights, n: int)
    requires Covers(rows, w)
    requires IsTopN(r, ScoreRecords(rows, w), n)
    ensures forall k :: 0 <= k < |r| ==>
      exists i :: 0 <= i < |rows| && r[k].district == rows[i].name && r[k].score == Score(rows[i].values, w)
  {
    var records := ScoreRecords(rows, w);
    assert |records| == |rows|;
    assert forall i :: 0 <= i < |records| ==> records[i] == Record(rows[i].name, Score(rows[i].values, w));
    forall k | 0 <= k < |r|
      ensures exists i :: 0 <= i < |rows| && r[k].district == rows[i].name && r[k].score == Score(rows[i].values, w)
    {
      assert r[k] in multiset(r);
      assert r[k] in multiset(records);
      var i :| 0 <= i < |records| && records[i] == r[k];
    }
  }

  /**
   * The indicator table `df`, shared by all requests. `columns` are its
   * numeric columns; every row has a value in each of them.
   */
  class DistrictTable {
    var rows: seq<District>
    var columns: set<string>

    ghost predicate Valid()
      reads this
    {
      forall i :: 0 <= i < |rows| ==> rows[i].values.Keys == columns
    }

    /** The table as loaded at start-up. */
    constructor (rows: seq<District>, columns: set<string>)
      requires forall i :: 0 <= i < |rows| ==> rows[i].values.Keys == columns
      ensures Valid()
      ensures this.rows == rows && this.columns == columns
    {
      this.rows := rows;
      this.columns := columns;
    }

    /**
     * `calculate_scores(weights, byNum)`. When some weighted column is
     * missing the table is left alone and the missing columns are reported;
     * otherwise the score column is written onto every row and the
     * best-scoring `byNum` districts are returned, best first.
     */
    method CalculateScores(weights: Weights, byNum: int) returns (r: Result<seq<Record>, ScoringError>)
      requires Valid()
      modifies this
      ensures Valid()
      ensures !(ColumnSet(weights) <= old(columns)) ==>
        && r == Err(KeyNotInIndex(ColumnSet(weights) - old(columns)))
        && rows == old(rows) && columns == old(columns)
      ensures ColumnSet(weights) <= old(columns) ==>
        && Covers(old(rows), weights)
        && rows == WithScores(old(rows), weights)
        && columns == old(columns) + {ScoreColumn}
        && r.Ok? && IsTopN(r.value, ScoreRecords(old(rows), weights), byNum)
    {
      if !(ColumnSet(weights) <= columns) {
        return Err(KeyNotInIndex(ColumnSet(weights) - columns));
      }
      assert Covers(rows, weights) by {
        forall i | 0 <= i < |rows| ensures ColumnSet(weights) <= rows[i].values.Keys {
          assert rows[i].values.Keys == columns;
        }
      }
      var scored := WithScores(rows, weights);
      assert forall i :: 0 <= i < |scored| ==> scored[i].values.Keys == columns + {ScoreColumn};
      var records := NameAndScore(scored);
      NameAndScoreOfScored(rows, weights);
      TopOfSorted(records, byNum);
      var top := Head(SortByScore(records), byNum);
      rows := scored;
      columns := columns + {ScoreColumn};
      r := Ok(top);
    }
  }
}
