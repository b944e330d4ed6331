# Weighted district recommender

This project models the `/recommend` endpoint of the senior-friendly
district service in `app.py`. A request names indicator columns with
weights and, optionally, `num`. The service scores every district of the
indicator table as the weighted sum of its values in those columns. It
writes that score onto the shared table as a `score` column, sorts the
districts by descending score and returns the first `num` (3 by default) as
`(district name, score)` records. A request whose values do not convert,
that carries no weights, or that weights a column the table lacks gets a
400 error response.

Modules, one per part of the handler:

- `Results` (`results.dfy`): `Option` and `Result`.
- `Weights` (`weights.dfy`): the weight dictionary, which keeps its keys in
  insertion order like a Python dict. `Put` models `weights[key] = value`.
  `Score` is one district's weighted sum. The lemmas prove that the score is
  an order-free sum over the dictionary's keys and that it reads only the
  weighted columns.
- `Ranking` (`ranking.dfy`): the descending sort and `head(n)`, and the
  top-N property `IsTopN` they establish together.
- `Scoring` (`table.dfy`): the shared table as a class `DistrictTable`,
  whose `CalculateScores` method updates the table in place and returns the
  top records.
- `Recommend` (`recommend.dfy`): the argument loop (`ParseArgs`, specified
  by the function `ParseQuery`), its properties, and the handler `HandleRecommend`.

Behaviour of `app.py` that the model keeps as it is:

- `score` is written onto the one table the service loads at start-up, not
  onto a per-request copy. Later requests therefore see a `score` column and
  may weight it.
- The sort is not stable, so nothing is promised about the order of
  districts with equal scores.
- `num` is not range-checked. Zero gives an empty result, and a negative
  `num` drops that many rows from the end, as a Python slice `[:num]` does.
- Scores are plain weighted sums of the selected columns. Nothing groups
  columns into categories, inverts a column's direction or explains a
  result.

## Model

| member | source | states |
|---|---|---|
| `Weights.Put` | app.py:51 | `weights[key] = value` leaves an existing key in its position and appends a new key at the end, as a Python dict does |
| `Weights.Score` | app.py:20-28 | one district's weighted sum over the weight dictionary, in its key order; `ScoreIsTotal` shows it is the order-free sum of weight × value over the dictionary's keys |
| `Weights.PutMaps` | app.py:51 | after `weights[key] = value` the dictionary maps `key` to `value` and every other key as before |
| `Weights.PutKeepsDistinct` | app.py:51 | assigning a key never creates a second entry for the same column |
| `Weights.ScoreIsTotal` | app.py:19-28 | a district's score is the sum, over the keys of the weight dictionary, of weight × the district's value in that column, whatever the key order |
| `Weights.ScoreIgnoresKeyOrder` | app.py:20-28 | two dictionaries with the same keys and weights give every district the same score |
| `Weights.ScoreReadsOnlyWeightedColumns` | app.py:25-28 | columns not named in the weights contribute nothing: districts that agree on the weighted columns get equal scores |
| `Ranking.SortByScore` | app.py:31 | the sorted records are a permutation of the input and their scores never increase |
| `Ranking.HeadLength` | app.py:31 | how many rows `head(n)` keeps, never more than there are; `TopOfSorted` shows this is `min(n, count)` for `n ≥ 0` and all but the last `-n` otherwise |
| `Ranking.Head` | app.py:31 | `head(n)` is a prefix of the sorted list of `HeadLength` records |
| `Ranking.TopOfSorted` | app.py:31 | sorting descending and taking `head(n)` gives `min(n, count)` records for `n ≥ 0`, scores non-increasing, every record one of the input's, and none left out scoring higher than any returned |
| `Scoring.WithScores` | app.py:28 | writing the score column keeps the number and order of rows, every name and every other column, and puts each district's weighted sum in `score` |
| `Scoring.NameAndScore` | app.py:31-32 | selecting the name and score columns keeps one record per row, in row order, with that row's name; `NameAndScoreOfScored` shows each score read back is the district's weighted sum |
| `Scoring.RankedEntriesAreDistricts` | app.py:31-32 | every returned record pairs an existing district's name with that district's own score |
| `Scoring.DistrictTable.constructor` | app.py:13-15 | the table holds the given rows, each with a value in every numeric column |
| `Scoring.DistrictTable.CalculateScores` | app.py:19-32 | a weight key naming no numeric column raises a KeyError naming the missing columns and leaves the table unchanged; otherwise the table gains the score column and the result is a top-`byNum` of the districts by their weighted scores |
| `Recommend.Accept` | app.py:47-51 | one turn of the loop fails with the parameter's key exactly when its value does not convert; `num` sets the limit and leaves the weights alone; any other key sets its weight as `weights[key] = value` does and leaves the limit alone |
| `Recommend.ParseQuery` | app.py:44-51 | the loop from no weights and limit 3; `ParseQueryFailure`, `ParseQueryNum`, `ParseQueryWeightKeys` and `ParseQueryWeightValues` characterise its result |
| `Recommend.ParseArgs` | app.py:44-51 | the argument loop computes exactly `ParseQuery`, stopping at the first value that does not convert |
| `Recommend.ParseFromSnoc` | app.py:47-51 | running the loop over one more parameter is one more turn of its body |
| `Recommend.ParseQueryFailure` | app.py:47-51 | the loop succeeds exactly when every value converts; otherwise the error names the first parameter whose value does not |
| `Recommend.ParseQueryNum` | app.py:45-49 | the limit is the value of the last `num` parameter, or 3 when there is none |
| `Recommend.ParseQueryWeightKeys` | app.py:47-51 | the weight keys are exactly the query keys other than `num`, each once; `num` never becomes a weight |
| `Recommend.ParseQueryWeightValues` | app.py:50-51 | each weight holds the converted value of the last parameter with its key |
| `Recommend.HandleRecommend` | app.py:41-68 | a value that does not convert, an empty weight dictionary or a missing column gives status 400 and leaves the table untouched (no scoring happens); otherwise the table gains the score column and the response is a top-`num` ranking |

## Left out

- Flask routing, the index page, CORS, building the JSON response and its content-type header (app.py:2-9, 35-37, 60-64, 71-72). These are web plumbing.
- Loading the CSV file and copying the `district` column into the name column (app.py:13-15). The table is given to the constructor.
- The `int(...)` and `float(...)` conversions (app.py:49, 51). Each query parameter carries what the conversions yield, with `None` where they raise.
- The text of error messages. `Fault` records which failure occurred, with the parameter key or the missing columns. It does not carry the exception text or the fixed missing-weights message.
- Duplicate query keys. Iterating `request.args` yields each key once, with its first value. The model takes that sequence as given, and its lemmas also cover a sequence in which a key repeats.
- NaN values (skipped by pandas' `sum`) and floating-point rounding. Values and weights are exact reals.
- The order among districts with equal scores. The source's sort is not stable, so the model asserts no tie order.
- Concurrent requests writing `score` onto the one shared table. The model is sequential.
- Scoring.DistrictTable.CalculateScores: reports a weight on a text column (such as the district-name columns) as a missing column. The table holds only numeric columns. pandas raises a TypeError there instead of a KeyError, and both reach the client as a 400 error.
