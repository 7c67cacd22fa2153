# Celebrity look-alike matcher: sweep, normalisation and ranking

This project models the matching core of a celebrity look-alike service in
Dafny. The `/analyze` endpoint takes a face photo and reads the face
embedding of the first face the encoder finds. It then pages through the
celebrity reference table in 1000-row chunks. Every reference embedding with
the query's shape becomes a candidate, which carries its Euclidean distance
to the query. Distances are min-max scaled into similarity scores in [0, 10].
Candidates are stably sorted by descending score and truncated to
`num_results`. The survivors get ranks 1, 2, … and scores rounded to two
decimals. The project also models the client-side check `validate_response`,
which accepts a response only when every entry has the keys `rank`, `name`,
`similarity` and `image_url`.

Modules, leaves first:

- `Outcomes` (outcomes.dfy): the endpoint's HTTP errors and a `Result` type.
- `Ints` (ints.dfy): `Min`/`Max`.
- `Euclid` (euclid.dfy): squared distance and what it means for `d` to be the Euclidean distance.
- `Store` (store.dfy): reference records, the count reply, the inclusive range query behind `get_celebrity_chunk`, and an idealised table store.
- `Sweep` (sweep.dfy): the candidate filter, the paged sweep as a function (`RunSweep`) and as the endpoint's `while` loop (`SweepLoop`), with coverage lemmas.
- `Scoring` (scoring.dfy): min/max distance and `compute_normalized_score`.
- `Ranking` (ranking.dfy): stable descending sort, Python prefix slicing, rank assignment, rounding.
- `Validator` (validator.dfy): JSON values and `validate_response`, including Python's `in` on non-dict entries.
- `Analysis`, `AnalysisExample` (analysis.dfy): the whole endpoint as written and as its count helper intends it, its serialised response, and a worked request.

The model follows the code as written on these points:

- Candidates are **not** deduplicated by name (`Sweep.CandidatesKeepEveryMatch`).
- A reference embedding of a different shape is **skipped**, not an error (`Sweep.CandidatesSkipMismatch`).
- A request that yields no candidate **fails with 404**; it does not return an empty list (`Analysis.Analyze`).
- A negative `num_results` follows Python slice semantics and drops entries from the end; it is not treated as 0 (`Ranking.SlicePrefix`).
- A missing count row ends in the count helper's generic 500, not in the 404 it raises for that case (`Analysis.Analyze`). The intended behaviour is modelled separately (`Analysis.AnalyzeIntended`; see "## Findings").

## Model

| member | source | states |
|---|---|---|
| `Outcomes.Status` | celebrityanalysis.py:37-90 | each failure carries the status of its raise: 400 for a non-image upload (:56) and for no face (:66), 404 for a missing count row (:37; only the intended endpoint lets it through, see "## Findings") and for no candidates (:90), 500 for a failed count query (:40) and for a failed page query (:50) |
| `Euclid.SquaredDistance` | celebrityanalysis.py:30-31 | the sum of squared component differences is never negative |
| `Euclid.SquaredDistanceSymmetric` | celebrityanalysis.py:30-31 | the squared distance does not depend on argument order |
| `Euclid.SquaredDistanceZeroIff` | celebrityanalysis.py:30-31 | the squared distance is zero exactly for identical vectors |
| `Euclid.DistanceUnique` | celebrityanalysis.py:30-31 | the Euclidean distance (non-negative root of the squared distance) is uniquely determined by the two vectors |
| `Euclid.DistanceSymmetric` | celebrityanalysis.py:30-31 | a distance from a to b is also the distance from b to a |
| `Euclid.DistanceZeroIffIdentical` | celebrityanalysis.py:30-31 | a distance is zero if and only if the vectors are identical |
| `Euclid.DistanceToItself` | celebrityanalysis.py:30-31 | the only distance from a vector to itself is 0 |
| `Store.FetchCountAsWritten` | celebrityanalysis.py:33-40 | as written: a count row yields its count; a missing row and a failed query both yield the generic count failure |
| `Store.MissingCountRowReports500` | celebrityanalysis.py:36-40 | as written, a missing count row reaches the client as status 500 although a 404 is raised for it |
| `Store.FetchCount` | celebrityanalysis.py:33-40 | succeeds exactly on a count row, with its count; fails with 404 exactly when the row is missing and with 500 exactly when the query fails |
| `Store.FetchChunk` | celebrityanalysis.py:42-50 | a page fails exactly when the range query fails; a reply without data is an empty page; otherwise the page is the rows returned |
| `Store.RowRange` | celebrityanalysis.py:46 | the inclusive row range `offset..offset+limit-1` asked for one page |
| `Store.RowRangeSpansLimit` | celebrityanalysis.py:46 | the range starts at `offset` and, both ends included, spans exactly `limit` row indices |
| `Store.ChunkIsLimitRows` | celebrityanalysis.py:42-48 | against a table, the inclusive range `offset..offset+limit-1` yields `limit` rows from `offset`, fewer at the end of the table, none past it |
| `Sweep.SameShape` | celebrityanalysis.py:81-82 | a reference embedding is used only when it is a one-dimensional vector of the query's length |
| `Sweep.Candidates` | celebrityanalysis.py:80-85 | every candidate comes from a record with the query's shape; every such record yields a candidate; there are never more candidates than records |
| `Sweep.CandidatesAppend` | celebrityanalysis.py:80-85 | candidates are produced record by record in encounter order: those of a concatenation are those of each part |
| `Sweep.CandidatesSkipMismatch` | celebrityanalysis.py:81-83 | a record of a different shape adds nothing and causes no failure |
| `Sweep.CandidatesKeepEveryMatch` | celebrityanalysis.py:84-85 | a record of the query's shape adds exactly one candidate at the end, whether or not its name was already seen |
| `Sweep.SweepFrom` | celebrityanalysis.py:75-87 | the `while` loop from a given offset: stop at the count, abort on a failed page, stop on an empty page, otherwise add the page's candidates and advance by 1000 |
| `Sweep.RunSweep` | celebrityanalysis.py:69-87 | the sweep starts at offset 0 with no candidates; its properties are stated by `Sweep.SweepProperties` |
| `Sweep.SweepOkIsCandidates` | celebrityanalysis.py:69-87 | a successful sweep's candidates are exactly those of all rows read, in order |
| `Sweep.SweepProperties` | celebrityanalysis.py:69-87 | requests go to offsets 0, 1000, 2000, …, each below the count, at most ceil(count/1000) of them; only a failed or empty page stops the sweep early; a failed page aborts it; otherwise the candidates are exactly those of all rows read |
| `Sweep.CollectPage` | celebrityanalysis.py:80-85 | the per-record loop collects exactly the page's candidates |
| `Sweep.SweepLoop` | celebrityanalysis.py:69-87 | the `while` loop requests the same offsets and yields the same outcome as the sweep function, and so has all of its properties |
| `Sweep.GatheredFromTable` | celebrityanalysis.py:72-87 | reading the first m pages of a table yields its first m*1000 rows, or all of them |
| `Sweep.SweepCoversTable` | celebrityanalysis.py:69-87 | against a table, the sweep never fails and reads every row up to the page boundary past the count; with a count at least the table size, every record is read exactly once, in order |
| `Scoring.MinDistance` | celebrityanalysis.py:93-94 | the result is one of the distances and no distance is smaller |
| `Scoring.MaxDistance` | celebrityanalysis.py:93-95 | the result is one of the distances and no distance is larger |
| `Scoring.NormalizedScore` | celebrityanalysis.py:97-100 | equal min and max give 10; otherwise a distance in range scores in [0, 10], the minimum 10 and the maximum 0 |
| `Scoring.ScoreAntitone` | celebrityanalysis.py:97-100 | score never increases with distance, and strictly decreases when the distances are not all equal |
| `Scoring.Score` | celebrityanalysis.py:92-104 | one score per candidate, in candidate order, every score in [0, 10] |
| `Scoring.ScoredMembers` | celebrityanalysis.py:92-104 | every scored entry pairs a candidate of the query with a score in [0, 10] |
| `Scoring.ScoreExtremes` | celebrityanalysis.py:93-100 | the closest candidates score 10; the farthest score 0 unless all are equally far, in which case every candidate scores 10 |
| `Scoring.ScoreMonotone` | celebrityanalysis.py:97-104 | a closer candidate never scores lower, and a strictly closer one scores strictly higher |
| `Scoring.AllTenIffEqualDistances` | celebrityanalysis.py:97-99 | every score is 10 exactly when all candidates are at the same distance |
| `Ranking.Round2` | celebrityanalysis.py:115 | the rounded value is a whole number of hundredths within 0.005 of the score |
| `Ranking.EvenIsModTwo` | celebrityanalysis.py:115 | the parity used for ties agrees with `n % 2 == 0` |
| `Ranking.Round2HalfwayGoesEven` | celebrityanalysis.py:115 | a score exactly halfway between two hundredths rounds to the even one |
| `Ranking.Round2Monotone` | celebrityanalysis.py:115 | rounding never reverses the order of two scores |
| `Ranking.Round2Exact` | celebrityanalysis.py:115 | a value already in hundredths is left unchanged |
| `Ranking.Round2KeepsScoreRange` | celebrityanalysis.py:115 | a rounded score in [0, 10] stays in [0, 10] |
| `Ranking.InsertByScore` | celebrityanalysis.py:107 | inserting into a descending sequence keeps it descending and adds exactly the inserted element |
| `Ranking.InsertKeepsGroups` | celebrityanalysis.py:107 | the inserted element goes first among equal scores; every other group of equal scores is unchanged |
| `Ranking.SortByScoreDesc` | celebrityanalysis.py:107 | the result is a permutation of the input, non-increasing in score, with equal scores in encounter order |
| `Ranking.SortedStableUnique` | celebrityanalysis.py:107 | two descending sequences with the same groups of equal scores are equal |
| `Ranking.StableSortCharacterised` | celebrityanalysis.py:107 | any descending arrangement that keeps equal scores in encounter order is the one the ranking uses |
| `Ranking.SlicePrefix` | celebrityanalysis.py:108 | `s[:n]` is a prefix of length min(n, \|s\|) for n ≥ 0 and max(0, \|s\|+n) for negative n |
| `Ranking.Enumerate` | celebrityanalysis.py:110-117 | entry i has rank i+1 and takes its name, image URL and rounded score from the i-th candidate |
| `Ranking.Rank` | celebrityanalysis.py:106-119 | result length follows the slice; ranks are 1..n; similarities never increase; each entry shows the name, image and rounded score of a scored candidate; the first entry has the highest rounded score of all candidates; which candidates are shown is stated by `Ranking.RankIsStableTop` |
| `Ranking.RankInRange` | celebrityanalysis.py:106-119 | scores in [0, 10] give similarities in [0, 10] |
| `Ranking.PrefixIsStableTop` | celebrityanalysis.py:107-108 | any prefix of a stable descending arrangement is a stable top: drawn from the candidates without repetition, descending, each group of equal scores a leading part of that group in encounter order, and nothing left out scoring above anything kept |
| `Ranking.RankIsStableTop` | celebrityanalysis.py:106-119 | the entries are the enumeration of a stable top of the scored candidates, as long as the slice |
| `Validator.Contains` | test_api_call.py:14 | `key in x` raises exactly on non-containers; on an object it is key membership |
| `Validator.AllKeys` | test_api_call.py:14 | true exactly when every key is found; raises exactly when the first test raises |
| `Validator.CheckResults` | test_api_call.py:13-16 | true exactly when every entry has all four keys; a raise implies some entry is not a container |
| `Validator.ValidateResponse` | test_api_call.py:9-16 | false when `results` is absent or not a list; true for an empty list; true exactly when `results` is a list whose entries all have the four keys |
| `Validator.ObjectResults` | test_api_call.py:11-16 | with only object entries it never raises, and it is true exactly when each has all four keys |
| `Validator.MissingKeyFails` | test_api_call.py:13-15 | an object entry lacking a required key makes it false when no earlier entry raises, that is, when every earlier entry is an object, a list or a string |
| `Validator.ExtraKeysIgnored` | test_api_call.py:13-15 | adding a non-required key to an entry does not change the outcome |
| `Validator.OtherFieldsIgnored` | test_api_call.py:11 | fields other than `results` do not change the outcome |
| `Analysis.RankCandidates` | celebrityanalysis.py:92-119 | the response entries follow the slice length, ranks 1..n, similarities in [0, 10] and non-increasing, and every entry names a candidate; which candidates are shown is stated by `Analysis.RankCandidatesStableTop` |
| `Analysis.IsImageContentType` | celebrityanalysis.py:55 | the content type starts with `image/` |
| `Analysis.Respond` | celebrityanalysis.py:52-119 | once the count helper has answered: non-image upload gives 400; no face gives 400; a count failure is passed on; a failed page gives 500; no candidates give 404; any candidate gives success; every success passes `validate_response` |
| `Analysis.Analyze` | celebrityanalysis.py:52-119 | as written: non-image upload gives 400; no face gives 400; a missing count row and a failed count query both give the generic 500; a failed page gives 500; no candidates give 404; any candidate gives success; every success passes `validate_response` |
| `Analysis.AnalyzeIntended` | celebrityanalysis.py:33-40 | for an image with a face, a missing count row gives 404 and a failed count query 500 |
| `Analysis.MissingCountRowDiffers` | celebrityanalysis.py:33-40 | the endpoint as written and as intended differ exactly for an image with a face and a missing count row, which gets 500 instead of 404 |
| `Analysis.AnalyzeRanksSweep` | celebrityanalysis.py:52-119 | a request succeeds if and only if the upload is an image with a face, the count row is present and the sweep finds at least one candidate; the entries of a success are the ranking of exactly those candidates |
| `Analysis.RankCandidatesStableTop` | celebrityanalysis.py:92-119 | the ranked entries are the enumeration of a stable top of the candidates' scores |
| `Analysis.AnalyzeReturnsStableTop` | celebrityanalysis.py:52-119 | a success lists a stable top of the scores of the candidates the sweep found, as long as the slice |
| `Analysis.ExactMatchRanksFirst` | celebrityanalysis.py:30-31 | with the Euclidean distance, a reference whose embedding equals the query gives the first entry similarity 10 |
| `Analysis.AnalyzeResults` | celebrityanalysis.py:69-119 | every entry of a success names a record the sweep read whose embedding has the query's shape |
| `Analysis.AnalyzeFace` | celebrityanalysis.py:52-119 | the endpoint run with the imperative sweep loop returns exactly what `Analyze` specifies |
| `Analysis.ResultJson` | celebrityanalysis.py:21-25 | an entry serialises to an object with exactly the keys `rank`, `name`, `similarity` and `image_url` |
| `Analysis.ResponseJson` | celebrityanalysis.py:27-28 | a response serialises to an object whose only key `results` holds an array with one item per entry |
| `Analysis.ResponsesValidate` | test_api_call.py:9-16 | the serialisation of any four-field response passes `validate_response` |
| `AnalysisExample.ExampleCandidates` | celebrityanalysis.py:72-87 | the example table's mismatched record is skipped and the two others become candidates in order |
| `AnalysisExample.ExampleRanking` | celebrityanalysis.py:92-119 | distances 0 and 5 rank as 1 with similarity 10 and 2 with similarity 0 |
| `AnalysisExample.TwoMatchesRanked` | celebrityanalysis.py:52-119 | the whole request on the example returns A (rank 1, 10.0) and B (rank 2, 0.0) |

## Left out

- Image loading and face encoding (celebrityanalysis.py:59-67) are foreign library calls. The encoder's output list is an input (`Upload.faceEncodings`), and an empty list is the no-face failure. An `image/*` upload whose bytes cannot be decoded makes `load_image_file` (celebrityanalysis.py:61) raise, which gives 500. The model has no path for that, because an `Upload` always carries an encoder result.
- The Supabase client and the HTTP layer are left out. Each count query and range query appears only as its reply (`CountReply`, `RangeQuery`). `TableStore` is an idealised store, used only to state coverage.
- `np.linalg.norm` needs a square root, which Dafny's reals lack. The distance is a parameter `norm`. `Euclid` proves the distance facts for any value meeting `IsDistance`. `Analyze` does not require `norm` to be Euclidean, since only the scoring depends on its values.
- Floating point is not modelled: scores are exact reals. `Ranking.Round2` is the exact-real idealisation of `round(score, 2)`: the nearest hundredth, ties to even, which is also numpy's tie rule. Every score except the literal `10.0` of celebrityanalysis.py:99 is a `numpy.float64`, so the program rounds with numpy, which rounds the floating product `score * 100` to an integer and divides by 100. Values near a tie can therefore round differently from the model. For example, the double nearest 2.675 lies just below it, yet its product by 100 rounds to 267.5 and numpy gives 2.68.
- Reference names and image URLs are modelled as strings and the count as an integer. Ill-typed values are left out. A count that is not a number fails in the comparison of the `while` loop (celebrityanalysis.py:75). A row whose `name` or `image_url` is not a string fails the response model's validation only when it is among the returned entries (celebrityanalysis.py:108-117), which gives 500; below the cut it has no effect. Two kinds of ill-typed embedding fail around the shape test instead of being skipped. A ragged nested embedding makes `np.array` raise (500 with numpy 1.24 or later). A list of the query's length holding strings or `None` passes the shape test and then fails in the subtraction of `euclidean_distance`.
- A missing `content_type` (`None`) makes the check at celebrityanalysis.py:55 raise `AttributeError`, which gives 500; the model's content type is always a string.
- The default `num_results = 8` is a request-parsing detail; the model takes `num_results` as an explicit argument.
- `test_api` (test_api_call.py:18-66) is HTTP plumbing around `validate_response` and is left out.
- `validate_response` takes the decoded response as a JSON object (`map<string, Json>`), as its `Dict[str, Any]` annotation says. A top-level array or string would make the `.get` at test_api_call.py:11 raise `AttributeError`; the model has no such input.
- `main.py` is left out. It holds storage upload, table insert and parquet output, with a separate top-3 similarity scheme fused with that I/O. `test.py` (model download and quantisation) is left out too.
- The model has no concurrency: the endpoint handles one request start to finish. Its awaits (the upload read and the store calls) are modelled by their results.
- Validator.CheckResults: when the check raises, the contract says only that some entry is not a container. It does not say that this entry is the first one to fail.

## Findings

| source | as written | input that shows it | evidently intended | confidence | as-written member | corrected member |
|---|---|---|---|---|---|---|
| celebrityanalysis.py:33-40 | the 404 "Record count not found" is raised inside the `try`, so `except Exception` catches it and re-raises it as a 500 | the count query succeeds but returns no data (`NoCountRow`) | the client receives 404 for a missing count row and 500 only for a failed query | medium; not executed | `Store.FetchCountAsWritten`, `Store.MissingCountRowReports500`, `Analysis.Analyze`, `Analysis.MissingCountRowDiffers` | `Store.FetchCount`, `Analysis.AnalyzeIntended` |
