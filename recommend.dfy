/**
 * The `/recommend` request handler (app.py, `recommend`, lines 41-68): it
 * splits the query into a result limit and a weight dictionary, rejects a
 * request without weights, and turns any failure into a 400 response.
 */
module Recommend {
  import opened Results
  import opened Weights
  import opened Ranking
  import opened Scoring

  /** The query key that sets the number of districts returned. */
  const NumKey := "num"

  /** The number of districts returned when the query does not say. */
  const DefaultNum := 3

  /** The status of every error response. */
  const BadRequest := 400

  /**
   * One query parameter: its key and what `int(...)` and `float(...)` make
   * of its text (`None` where the conversion raises).
   */
  datatype QueryParam = QueryParam(key: string, asInt: Option<int>, asReal: Option<real>)

  /** Why a request is rejected. */
  datatype Fault =
    | InvalidValue(key: string)             // a value that does not convert
    | MissingWeights                        // no weight key in the query
    | ScoringFailed(error: ScoringError)    // scoring raised

  /** The response: the ranked records, or an error with its status. */
  datatype Response = Ranked(result: seq<Record>) | Rejected(status: int, fault: Fault)

  /** What the argument loop has gathered so far. */
  datatype Args = Args(weights: Weights, num: int)

  /** The conversion a parameter needs succeeds. */
  predicate Parses(p: QueryParam)
  {
    if p.key == NumKey then p.asInt.Some? else p.asReal.Some?
  }

  /** One turn of the argument loop. */
  function Accept(a: Args, p: QueryParam): (r: Result<Args, Fault>)
    ensures r.Ok? <==> Parses(p)
    ensures r.Err? ==> r.error == InvalidValue(p.key)
    ensures r.Ok? && p.key == NumKey ==> r.value.weights == a.weights && Some(r.value.num) == p.asInt
    ensures r.Ok? && p.key != NumKey ==>
      r.value.num == a.num && AsMap(r.value.weights) == AsMap(a.weights)[p.key := p.asReal.value]
  {
    if p.key == NumKey then
      match p.asInt
      case None => Err(InvalidValue(p.key))
      case Some(n) => Ok(a.(num := n))
    else
      match p.asReal
      case None => Err(InvalidValue(p.key))
      case Some(v) =>
        PutMaps(a.weights, p.key, v);
        Ok(a.(weights := Put(a.weights, p.key, v)))
  }

  /** The argument loop run over `q` from the state `a`, stopping at the first failure. */
  function ParseFrom(q: seq<QueryParam>, a: Args): Result<Args, Fault>
    decreases |q|
  {
    if q == [] then Ok(a)
    else
      match Accept(a, q[0])
      case Err(e) => Err(e)
      case Ok(s) => ParseFrom(q[1..], s)
  }

  /** The argument loop from its initial state: no weights, limit 3. */
  function ParseQuery(q: seq<QueryParam>): Result<Args, Fault>
  {
    ParseFrom(q, Args([], DefaultNum))
  }

  /** Running the loop over one more parameter is one more turn. */
  lemma {:induction false} ParseFromSnoc(q: seq<QueryParam>, p: QueryParam, a: Args)
    ensures ParseFrom(q + [p], a) ==
      match ParseFrom(q, a)
      case Ok(s) => Accept(s, p)
      case Err(e) => Err(e)
    decreases |q|
  {
    if q != [] {
      assert (q + [p])[0] == q[0];
      assert (q + [p])[1..] == q[1..] + [p];
      match Accept(a, q[0])
      case Ok(s) => ParseFromSnoc(q[1..], p, s);
      case Err(_) =>
    }
  }

  /** Splits `q` into its last parameter and the ones before it. */
  lemma SplitLast(q: seq<QueryParam>)
    requires q != []
    ensures q == q[..|q| - 1] + [q[|q| - 1]]
  {
  }

  /**
   * The loop succeeds exactly when every value converts; otherwise it
   * reports the first parameter whose value does not.
   */
  lemma {:induction false} ParseQueryFailure(q: seq<QueryParam>)
    ensures ParseQuery(q).Ok? <==> forall i :: 0 <= i < |q| ==> Parses(q[i])
    ensures forall j :: 0 <= j < |q| && !Parses(q[j]) && (forall i :: 0 <= i < j ==> Parses(q[i])) ==>
      ParseQuery(q) == Err(InvalidValue(q[j].key))
    decreases |q|
  {
    if q != [] {
      var init, p := q[..|q| - 1], q[|q| - 1];
      SplitLast(q);
      ParseQueryFailure(init);
      ParseFromSnoc(init, p, Args([], DefaultNum));
    }
  }

  /**
   * The key `num` sets the limit: to the value of its last occurrence, or to
   * 3 when the query has none.
   */
  lemma {:induction false} ParseQueryNum(q: seq<QueryParam>)
    ensures ParseQuery(q).Ok? && (forall i :: 0 <= i < |q| ==> q[i].key != NumKey) ==>
      ParseQuery(q).value.num == DefaultNum
    ensures ParseQuery(q).Ok? ==>
      forall i :: 0 <= i < |q| && q[i].key == NumKey && (forall j :: i < j < |q| ==> q[j].key != NumKey) ==>
        q[i].asInt == Some(ParseQuery(q).value.num)
    decreases |q|
  {
    if q != [] && ParseQuery(q).Ok? {
      var init, p := q[..|q| - 1], q[|q| - 1];
      SplitLast(q);
      ParseFromSnoc(init, p, Args([], DefaultNum));
      assert ParseQuery(init).Ok?;
      ParseQueryNum(init);
      var a0, a := ParseQuery(init).value, ParseQuery(q).value;
      assert Accept(a0, p) == Ok(a);
      if p.key != NumKey {
        assert a.num == a0.num;
        assert (forall i :: 0 <= i < |q| ==> q[i].key != NumKey) ==>
          (forall i :: 0 <= i < |init| ==> init[i].key != NumKey);
        forall i | 0 <= i < |q| && q[i].key == NumKey && (forall j :: i < j < |q| ==> q[j].key != NumKey)
          ensures q[i].asInt == Some(a.num)
        {
          assert i < |init| && init[i] == q[i];
          assert forall j :: i < j < |init| ==> init[j] == q[j];
        }
      }
    }
  }

  /** The keys of the query other than `num`. */
  ghost function WeightKeys(q: seq<QueryParam>): set<string>
  {
    set i | 0 <= i < |q| && q[i].key != NumKey :: q[i].key
  }

  /**
   * Every key other than `num` becomes exactly one weight entry and `num`
   * never becomes a weight.
   */
  lemma {:induction false} ParseQueryWeightKeys(q: seq<QueryParam>)
    ensures ParseQuery(q).Ok? ==> Distinct(ParseQuery(q).value.weights)
    ensures ParseQuery(q).Ok? ==> ColumnSet(ParseQuery(q).value.weights) == WeightKeys(q)
    ensures ParseQuery(q).Ok? ==> NumKey !in ColumnSet(ParseQuery(q).value.weights)
    decreases |q|
  {
    if q != [] && ParseQuery(q).Ok? {
      var init, p := q[..|q| - 1], q[|q| - 1];
      SplitLast(q);
      ParseFromSnoc(init, p, Args([], DefaultNum));
      assert ParseQuery(init).Ok?;
      ParseQueryWeightKeys(init);
      var a0, a := ParseQuery(init).value, ParseQuery(q).value;
      assert Accept(a0, p) == Ok(a);
      WeightKeysSnoc(q, init);
      if p.key != NumKey {
        assert a.weights == Put(a0.weights, p.key, p.asReal.value);
        PutKeepsDistinct(a0.weights, p.key, p.asReal.value);
        PutMaps(a0.weights, p.key, p.asReal.value);
        assert ColumnSet(a.weights) == AsMap(a.weights).Keys == AsMap(a0.weights).Keys + {p.key};
      } else {
        assert a.weights == a0.weights;
      }
    }
  }

  /** The weight keys of a query are those before its last parameter, plus that one's. */
  lemma WeightKeysSnoc(q: seq<QueryParam>, init: seq<QueryParam>)
    requires q != [] && init == q[..|q| - 1]
    ensures WeightKeys(q) == WeightKeys(init) + (if q[|q| - 1].key != NumKey then {q[|q| - 1].key} else {})
  {
    assert forall i :: 0 <= i < |init| ==> init[i] == q[i];
  }

  /** Each weight holds the value of the last occurrence of its key. */
  lemma {:induction false} ParseQueryWeightValues(q: seq<QueryParam>)
    ensures ParseQuery(q).Ok? ==>
      forall i :: 0 <= i < |q| && q[i].key != NumKey && LastWithKey(q, i) ==>
        q[i].key in AsMap(ParseQuery(q).value.weights) &&
        q[i].asReal == Some(AsMap(ParseQuery(q).value.weights)[q[i].key])
    decreases |q|
  {
    if q != [] && ParseQuery(q).Ok? {
      var init, p := q[..|q| - 1], q[|q| - 1];
      SplitLast(q);
      ParseQueryLast(q);
      ParseQueryWeightValues(init);
      var before := AsMap(ParseQuery(init).value.weights);
      var after := AsMap(ParseQuery(q).value.weights);
      assert HoldsLastValues(init, before);
      LastValuesSnoc(q, before, after);
      assert HoldsLastValues(q, after);
    }
  }

  /** A successful loop over `q` is a successful loop over all but its last parameter, then one more turn. */
  lemma ParseQueryLast(q: seq<QueryParam>)
    requires q != [] && ParseQuery(q).Ok?
    ensures ParseQuery(q[..|q| - 1]).Ok?
    ensures Accept(ParseQuery(q[..|q| - 1]).value, q[|q| - 1]) == ParseQuery(q)
  {
    SplitLast(q);
    ParseFromSnoc(q[..|q| - 1], q[|q| - 1], Args([], DefaultNum));
  }

  /** No parameter after position `i` of `q` has the key of the one at `i`. */
  ghost predicate LastWithKey(q: seq<QueryParam>, i: nat)
    requires i < |q|
  {
    forall j :: i < j < |q| ==> q[j].key != q[i].key
  }

  /** `m` holds, for every weight key of `q`, the value of its last occurrence. */
  ghost predicate HoldsLastValues(q: seq<QueryParam>, m: map<string, real>)
  {
    forall i :: 0 <= i < |q| && q[i].key != NumKey && LastWithKey(q, i) ==>
      q[i].key in m && q[i].asReal == Some(m[q[i].key])
  }

  /**
   * If `before` holds the last values of all but the last parameter of `q`,
   * then `after`, the mapping one more turn for that parameter leaves, holds
   * the last values of `q`.
   */
  lemma LastValuesSnoc(q: seq<QueryParam>, before: map<string, real>, after: map<string, real>)
    requires q != [] && HoldsLastValues(q[..|q| - 1], before)
    requires q[|q| - 1].key == NumKey ==> after == before
    requires q[|q| - 1].key != NumKey ==>
      q[|q| - 1].asReal.Some? && after == before[q[|q| - 1].key := q[|q| - 1].asReal.value]
    ensures HoldsLastValues(q, after)
  {
    var init, n := q[..|q| - 1], |q| - 1;
    forall i | 0 <= i < |q| && q[i].key != NumKey && LastWithKey(q, i)
      ensures q[i].key in after && q[i].asReal == Some(after[q[i].key])
    {
      if i < n {
        EarlierLastValue(q, init, before, i);
        assert q[n].key != q[i].key;
      }
    }
  }

  /** A parameter that is the last with its key in `q`, before its final one, has its value in `before`. */
  lemma EarlierLastValue(q: seq<QueryParam>, init: seq<QueryParam>, before: map<string, real>, i: nat)
    requires i < |q| - 1 && init == q[..|q| - 1] && HoldsLastValues(init, before)
    requires q[i].key != NumKey && LastWithKey(q, i)
    ensures q[i].key in before && q[i].asReal == Some(before[q[i].key])
  {
    assert init[i] == q[i];
    assert forall j :: i < j < |init| ==> init[j] == q[j];
    assert LastWithKey(init, i);
  }

  /** The argument loop of `recommend` (lines 44-51). */
  method ParseArgs(query: seq<QueryParam>) returns (r: Result<Args, Fault>)
    ensures r == ParseQuery(query)
  {
    var weights: Weights := [];
    var num := DefaultNum;
    var i := 0;
    while i < |query|
      invariant 0 <= i <= |query|
      invariant ParseFrom(query[i..], Args(weights, num)) == ParseQuery(query)
    {
      var p := query[i];
      assert query[i..] == [p] + query[i + 1..];
      if p.key == NumKey {
        match p.asInt
        case None => return Err(InvalidValue(p.key));
        case Some(n) => num := n;
      } else {
        match p.asReal
        case None => return Err(InvalidValue(p.key));
        case Some(v) => weights := Put(weights, p.key, v);
      }
      i := i + 1;
    }
    r := Ok(Args(weights, num));
  }

  /**
   * `recommend()`: a conversion failure, an empty weight dictionary or a
   * failed scoring each give a 400 response and leave the table alone;
   * otherwise the table gains its score column and the response holds the
   * top `num` districts.
   */
  method HandleRecommend(table: DistrictTable, query: seq<QueryParam>) returns (resp: Response)
    requires table.Valid()
    modifies table
    ensures table.Valid()
    ensures ParseQuery(query).Err? ==>
      && resp == Rejected(BadRequest, ParseQuery(query).error)
      && table.rows == old(table.rows) && table.columns == old(table.columns)
    ensures ParseQuery(query).Ok? && ParseQuery(query).value.weights == [] ==>
      && resp == Rejected(BadRequest, MissingWeights)
      && table.rows == old(table.rows) && table.columns == old(table.columns)
    ensures ParseQuery(query).Ok? && ParseQuery(query).value.weights != [] ==>
      var args := ParseQuery(query).value;
      if ColumnSet(args.weights) <= old(table.columns) then
        && Covers(old(table.rows), args.weights)
        && table.rows == WithScores(old(table.rows), args.weights)
        && table.columns == old(table.columns) + {ScoreColumn}
        && resp.Ranked? && IsTopN(resp.result, ScoreRecords(old(table.rows), args.weights), args.num)
      else
        && resp == Rejected(BadRequest, ScoringFailed(KeyNotInIndex(ColumnSet(args.weights) - old(table.columns))))
        && table.rows == old(table.rows) && table.columns == old(table.columns)
  {
    var parsed := ParseArgs(query);
    match parsed
    case Err(e) =>
      return Rejected(BadRequest, e);
    case Ok(args) =>
      if args.weights == [] {
        return Rejected(BadRequest, MissingWeights);
      }
      var scored := table.CalculateScores(args.weights, args.num);
      match scored
      case Err(e) =>
        resp := Rejected(BadRequest, ScoringFailed(e));
      case Ok(result) =>
        resp := Ranked(result);
  }
}
