/** The `/analyze` endpoint end to end: upload checks, record count, paged
    sweep, normalisation, ranking, and the JSON the client receives. */
module Analysis {
  import opened Ints
  import opened Outcomes
  import opened Euclid
  import opened Store
  import opened Sweep
  import opened Scoring
  import opened Ranking
  import opened Validator

  /** An uploaded file: its declared content type and the face encodings
      the encoder produced for its image, in the encoder's order. */
  datatype Upload = Upload(contentType: string, faceEncodings: seq<seq<real>>)

  /** The content type starts with `image/`. */
  predicate IsImageContentType(contentType: string) {
    |contentType| >= 6 && contentType[..6] == "image/"
  }

  /** Normalises, sorts and truncates the candidates of one query. */
  function RankCandidates(found: seq<Candidate>, numResults: int): (results: seq<CelebrityResult>)
    requires |found| > 0
    ensures numResults >= 0 ==> |results| == Min(numResults, |found|)
    ensures numResults < 0 ==> |results| == Max(0, |found| + numResults)
    ensures forall i :: 0 <= i < |results| ==> results[i].rank == i + 1
    ensures forall i :: 0 <= i < |results| ==> 0.0 <= results[i].similarity <= 10.0
    ensures forall i, j :: 0 <= i < j < |results| ==> results[i].similarity >= results[j].similarity
    ensures forall i :: 0 <= i < |results| ==>
              exists c :: c in found && c.name == results[i].name && c.imageUrl == results[i].imageUrl
  {
    RankedSimilarityInRange(found, numResults);
    RankedEntriesFromCandidates(found, numResults);
    Rank(Score(found), numResults)
  }

  lemma RankedSimilarityInRange(found: seq<Candidate>, numResults: int)
    requires |found| > 0
    ensures var results := Rank(Score(found), numResults);
            forall i :: 0 <= i < |results| ==> 0.0 <= results[i].similarity <= 10.0
  {
    ScoredMembers(found);
    RankInRange(Score(found), numResults);
  }

  lemma RankedEntriesFromCandidates(found: seq<Candidate>, numResults: int)
    requires |found| > 0
    ensures var results := Rank(Score(found), numResults);
            forall i :: 0 <= i < |results| ==>
              exists c :: c in found && c.name == results[i].name && c.imageUrl == results[i].imageUrl
  {
    var scored := Score(found);
    var results := Rank(scored, numResults);
    ScoredMembers(found);
    forall i | 0 <= i < |results|
      ensures exists c :: c in found && c.name == results[i].name && c.imageUrl == results[i].imageUrl
    {
      var x :| x in scored && results[i].name == x.candidate.name && results[i].imageUrl == x.candidate.imageUrl
                           && results[i].similarity == Round2(x.score);
      assert x.candidate in found;
    }
  }

  /** The endpoint once the count helper has answered with `total`: the
      first face's encoding is the query; candidates come from the sweep; a
      request that finds none fails with 404. */
  function Respond(upload: Upload, numResults: int, total: Result<int>, store: RangeQuery, norm: Norm)
    : (r: Result<AnalysisResponse>)
    ensures !IsImageContentType(upload.contentType) ==> r == Err(InvalidFileType)
    ensures IsImageContentType(upload.contentType) && |upload.faceEncodings| == 0 ==> r == Err(NoFaceDetected)
    ensures IsImageContentType(upload.contentType) && |upload.faceEncodings| > 0 && total.Err? ==>
              r == Err(total.error)
    ensures IsImageContentType(upload.contentType) && |upload.faceEncodings| > 0 && total.Ok? ==>
              var sweep := RunSweep(upload.faceEncodings[0], total.value, store, norm).outcome;
              && (sweep.Err? ==> r == Err(ChunkFetchFailed))
              && (sweep == Ok([]) ==> r == Err(NoMatchingRecords))
              && (sweep.Ok? && |sweep.value| > 0 ==> r.Ok?)
    ensures r.Ok? ==> ValidateResponse(ResponseJson(r.value)) == Valid
  {
    if !IsImageContentType(upload.contentType) then Err(InvalidFileType)
    else if |upload.faceEncodings| == 0 then Err(NoFaceDetected)
    else
      var query := upload.faceEncodings[0];
      var n :- total;
      var trace := RunSweep(query, n, store, norm);
      SweepProperties(query, n, store, norm);
      var found :- trace.outcome;
      if |found| == 0 then Err(NoMatchingRecords)
      else
        var response := AnalysisResponse(RankCandidates(found, numResults));
        ResponsesValidate(response);
        Ok(response)
  }

  /** The endpoint as written. The count helper turns a missing count row
      into the same 500 as a failed count query. */
  function Analyze(upload: Upload, numResults: int, count: CountReply, store: RangeQuery, norm: Norm)
    : (r: Result<AnalysisResponse>)
    ensures !IsImageContentType(upload.contentType) ==> r == Err(InvalidFileType)
    ensures IsImageContentType(upload.contentType) && |upload.faceEncodings| == 0 ==> r == Err(NoFaceDetected)
    ensures IsImageContentType(upload.contentType) && |upload.faceEncodings| > 0 && !count.CountRow? ==>
              r == Err(RecordCountFailed)
    ensures IsImageContentType(upload.contentType) && |upload.faceEncodings| > 0 && count.CountRow? ==>
              var sweep := RunSweep(upload.faceEncodings[0], count.recordCount, store, norm).outcome;
              && (sweep.Err? ==> r == Err(ChunkFetchFailed))
              && (sweep == Ok([]) ==> r == Err(NoMatchingRecords))
              && (sweep.Ok? && |sweep.value| > 0 ==> r.Ok?)
    ensures r.Ok? ==> ValidateResponse(ResponseJson(r.value)) == Valid
  {
    Respond(upload, numResults, FetchCountAsWritten(count), store, norm)
  }

  /** The endpoint as its count helper evidently intends it: a missing count
      row reaches the client as a 404 and only a failed count query as a 500. */
  function AnalyzeIntended(upload: Upload, numResults: int, count: CountReply, store: RangeQuery, norm: Norm)
    : (r: Result<AnalysisResponse>)
    ensures IsImageContentType(upload.contentType) && |upload.faceEncodings| > 0 && count.NoCountRow? ==>
              r.Err? && Status(r.error) == 404
    ensures IsImageContentType(upload.contentType) && |upload.faceEncodings| > 0 && count.CountFailed? ==>
              r.Err? && Status(r.error) == 500
  {
    Respond(upload, numResults, FetchCount(count), store, norm)
  }

  /** The endpoint as written and as intended give different answers exactly
      for an image with a face whose count row is missing: 500 instead of 404. */
  lemma MissingCountRowDiffers(upload: Upload, numResults: int, count: CountReply, store: RangeQuery, norm: Norm)
    ensures Analyze(upload, numResults, count, store, norm) != AnalyzeIntended(upload, numResults, count, store, norm)
            <==> IsImageContentType(upload.contentType) && |upload.faceEncodings| > 0 && count.NoCountRow?
    ensures IsImageContentType(upload.contentType) && |upload.faceEncodings| > 0 && count.NoCountRow? ==>
              && Status(Analyze(upload, numResults, count, store, norm).error) == 500
              && Status(AnalyzeIntended(upload, numResults, count, store, norm).error) == 404
  {
  }

  /** Every entry of a successful response names a record that the sweep
      read and whose embedding has the query's shape. */
  lemma AnalyzeResults(upload: Upload, numResults: int, count: CountReply, store: RangeQuery, norm: Norm)
    ensures var r := Analyze(upload, numResults, count, store, norm);
            r.Ok? ==>
              && |upload.faceEncodings| > 0 && count.CountRow?
              && var query := upload.faceEncodings[0];
                 var rows := Gathered(store, RunSweep(query, count.recordCount, store, norm).requested);
                 forall i :: 0 <= i < |r.value.results| ==>
                   exists rec :: rec in rows && SameShape(query, rec.embedding)
                                 && rec.name == r.value.results[i].name && rec.imageUrl == r.value.results[i].imageUrl
  {
    if Analyze(upload, numResults, count, store, norm).Ok? {
      AnalyzeRanksSweep(upload, numResults, count, store, norm);
      SweepEntriesNameRecords(upload.faceEncodings[0], count.recordCount, store, norm, numResults);
    }
  }

  /** Each entry ranked from a successful sweep names a record it read. */
  lemma SweepEntriesNameRecords(query: seq<real>, total: int, store: RangeQuery, norm: Norm, numResults: int)
    requires RunSweep(query, total, store, norm).outcome.Ok?
    requires |RunSweep(query, total, store, norm).outcome.value| > 0
    ensures var trace := RunSweep(query, total, store, norm);
            var results := RankCandidates(trace.outcome.value, numResults);
            forall i :: 0 <= i < |results| ==>
              exists rec :: rec in Gathered(store, trace.requested) && SameShape(query, rec.embedding)
                            && rec.name == results[i].name && rec.imageUrl == results[i].imageUrl
  {
    var trace := RunSweep(query, total, store, norm);
    SweepOkIsCandidates(query, total, store, norm);
    EntriesNameRecords(query, Gathered(store, trace.requested), norm, numResults);
  }

  /** Each ranked entry names a record of the query's shape. */
  lemma EntriesNameRecords(query: seq<real>, rows: seq<Record>, norm: Norm, numResults: int)
    requires |Candidates(query, rows, norm)| > 0
    ensures var results := RankCandidates(Candidates(query, rows, norm), numResults);
            forall i :: 0 <= i < |results| ==>
              exists rec :: rec in rows && SameShape(query, rec.embedding)
                            && rec.name == results[i].name && rec.imageUrl == results[i].imageUrl
  {
    var found := Candidates(query, rows, norm);
    var results := RankCandidates(found, numResults);
    forall i | 0 <= i < |results|
      ensures exists rec :: rec in rows && SameShape(query, rec.embedding)
                            && rec.name == results[i].name && rec.imageUrl == results[i].imageUrl
    {
      var c :| c in found && c.name == results[i].name && c.imageUrl == results[i].imageUrl;
      var rec :| rec in rows && SameShape(query, rec.embedding) && c == ToCandidate(query, rec, norm);
    }
  }

  /** A request succeeds exactly when the upload is an image with a face,
      the count row is there and the sweep finds candidates; a success is
      the ranking of those candidates. */
  lemma AnalyzeRanksSweep(upload: Upload, numResults: int, count: CountReply, store: RangeQuery, norm: Norm)
    ensures var r := Analyze(upload, numResults, count, store, norm);
            r.Ok? <==>
              && IsImageContentType(upload.contentType) && |upload.faceEncodings| > 0 && count.CountRow?
              && var trace := RunSweep(upload.faceEncodings[0], count.recordCount, store, norm);
                 trace.outcome.Ok? && |trace.outcome.value| > 0
    ensures var r := Analyze(upload, numResults, count, store, norm);
            r.Ok? ==>
              && |upload.faceEncodings| > 0 && count.CountRow?
              && var trace := RunSweep(upload.faceEncodings[0], count.recordCount, store, norm);
                 trace.outcome.Ok? && |trace.outcome.value| > 0
                 && r.value.results == RankCandidates(trace.outcome.value, numResults)
  {
  }

  /** The entries ranked from the candidates are the enumeration of the
      stable top of their scores. */
  lemma RankCandidatesStableTop(found: seq<Candidate>, numResults: int)
    requires |found| > 0
    ensures var results := RankCandidates(found, numResults);
            exists top :: IsStableTop(top, Score(found), |results|) && results == Enumerate(top)
  {
    RankIsStableTop(Score(found), numResults);
  }

  /** A successful response lists the stable top of the scores of the
      candidates the sweep found. */
  lemma AnalyzeReturnsStableTop(upload: Upload, numResults: int, count: CountReply, store: RangeQuery, norm: Norm)
    ensures var r := Analyze(upload, numResults, count, store, norm);
            r.Ok? ==>
              && |upload.faceEncodings| > 0 && count.CountRow?
              && var found := RunSweep(upload.faceEncodings[0], count.recordCount, store, norm).outcome;
                 found.Ok? && |found.value| > 0
                 && exists top :: IsStableTop(top, Score(found.value), |r.value.results|) && r.value.results == Enumerate(top)
  {
    if Analyze(upload, numResults, count, store, norm).Ok? {
      AnalyzeRanksSweep(upload, numResults, count, store, norm);
      var found := RunSweep(upload.faceEncodings[0], count.recordCount, store, norm).outcome;
      RankCandidatesStableTop(found.value, numResults);
    }
  }

  /** With the Euclidean distance, a reference whose embedding equals the
      query puts similarity 10 at the head of the ranking. */
  lemma ExactMatchRanksFirst(query: seq<real>, rows: seq<Record>, norm: Norm, numResults: int)
    requires forall rec :: rec in rows && SameShape(query, rec.embedding) ==>
               IsDistance(norm(query, rec.embedding.values), query, rec.embedding.values)
    requires exists rec :: rec in rows && rec.embedding == Flat(query)
    requires numResults > 0
    ensures |Candidates(query, rows, norm)| > 0
    ensures RankCandidates(Candidates(query, rows, norm), numResults)[0].similarity == 10.0
  {
    var found := Candidates(query, rows, norm);
    var rec :| rec in rows && rec.embedding == Flat(query);
    assert SameShape(query, rec.embedding);
    var c := ToCandidate(query, rec, norm);
    assert c in found;
    DistanceToItself(c.distance, query);
    var i :| 0 <= i < |found| && found[i] == c;
    forall d | d in found
      ensures d.distance >= 0.0
    {
      var r :| r in rows && SameShape(query, r.embedding) && d == ToCandidate(query, r, norm);
    }
    ClosestDistanceIsZero(found, i);
    ScoreExtremes(found);
    ExactScoreRanksFirst(Score(found), i, numResults);
    RankedSimilarityInRange(found, numResults);
  }

  /** A candidate scoring 10 bounds the head of the ranking from below. */
  lemma ExactScoreRanksFirst(scored: seq<Scored>, i: int, numResults: int)
    requires 0 <= i < |scored| && scored[i].score == 10.0 && numResults > 0
    ensures |Rank(scored, numResults)| > 0 && Rank(scored, numResults)[0].similarity >= 10.0
  {
    assert scored[i] in scored;
    Round2Exact(10.0);
  }

  /** Distances are never negative, so a candidate at distance 0 is the
      closest. */
  lemma ClosestDistanceIsZero(found: seq<Candidate>, i: int)
    requires 0 <= i < |found| && found[i].distance == 0.0
    requires forall c :: c in found ==> c.distance >= 0.0
    ensures MinDistance(found) == 0.0
  {
    var j :| 0 <= j < |found| && found[j].distance == MinDistance(found);
    assert found[j] in found;
  }

  /** The endpoint with the sweep run as its imperative loop. */
  method AnalyzeFace(upload: Upload, numResults: int, count: CountReply, store: RangeQuery, norm: Norm)
    returns (r: Result<AnalysisResponse>)
    ensures r == Analyze(upload, numResults, count, store, norm)
  {
    if !IsImageContentType(upload.contentType) {
      return Err(InvalidFileType);
    }
    if |upload.faceEncodings| == 0 {
      return Err(NoFaceDetected);
    }
    var query := upload.faceEncodings[0];
    var total :- FetchCountAsWritten(count);
    var requested, outcome := SweepLoop(query, total, store, norm);
    var found :- outcome;
    if |found| == 0 {
      return Err(NoMatchingRecords);
    }
    r := Ok(AnalysisResponse(RankCandidates(found, numResults)));
  }

  /** The JSON object the response model serialises one entry to. */
  function ResultJson(entry: CelebrityResult): (j: Json)
    ensures j.JObject? && j.fields.Keys == {"rank", "name", "similarity", "image_url"}
  {
    JObject(map[
      "rank" := JNumber(entry.rank as real),
      "name" := JString(entry.name),
      "similarity" := JNumber(entry.similarity),
      "image_url" := JString(entry.imageUrl)])
  }

  /** The JSON object the response model serialises a response to. */
  function ResponseJson(response: AnalysisResponse): (m: map<string, Json>)
    ensures m.Keys == {"results"} && m["results"].JArray?
    ensures |m["results"].items| == |response.results|
  {
    map["results" := JArray(seq(|response.results|, i requires 0 <= i < |response.results| =>
                                  ResultJson(response.results[i])))]
  }

  /** Every response the endpoint can produce passes the client's shape check. */
  lemma ResponsesValidate(response: AnalysisResponse)
    ensures ValidateResponse(ResponseJson(response)) == Valid
  {
    var items := ResponseJson(response)["results"].items;
    forall e | e in items
      ensures HasRequiredKeys(e)
    {
      var i :| 0 <= i < |items| && items[i] == e;
      assert e == ResultJson(response.results[i]);
    }
  }
}

/** A worked request: two reference faces at distances 0 and 5 from the
    query, and one whose embedding has the wrong length. */
module AnalysisExample {
  import opened Outcomes
  import opened Euclid
  import opened Store
  import opened Sweep
  import opened Scoring
  import opened Ranking
  import opened Analysis

  const Origin: seq<real> := [0.0, 0.0]
  const Far: seq<real> := [3.0, 4.0]

  function ExampleTable(): seq<Record> {
    [ Record("A", Flat(Origin), "a.png"),
      Record("C", Flat([1.0, 2.0, 3.0]), "c.png"),
      Record("B", Flat(Far), "b.png") ]
  }

  /** The sweep over the example table yields the two faces of the query's
      length, in table order. */
  lemma ExampleCandidates(norm: Norm)
    requires norm(Origin, Origin) == 0.0 && norm(Origin, Far) == 5.0
    ensures RunSweep(Origin, 3, TableStore(ExampleTable()), norm).outcome
            == Ok([Candidate("A", "a.png", 0.0), Candidate("B", "b.png", 5.0)])
  {
    SweepCoversTable(Origin, ExampleTable(), 3, norm);
    ExampleTableCandidates(norm);
  }

  lemma ExampleTableCandidates(norm: Norm)
    requires norm(Origin, Origin) == 0.0 && norm(Origin, Far) == 5.0
    ensures Candidates(Origin, ExampleTable(), norm)
            == [Candidate("A", "a.png", 0.0), Candidate("B", "b.png", 5.0)]
  {
    var table := ExampleTable();
    var b := Candidate("B", "b.png", 5.0);
    assert table[2..][1..] == [];
    assert SameShape(Origin, table[2].embedding);
    assert Candidates(Origin, table[2..], norm) == [b] + Candidates(Origin, [], norm);
    assert !SameShape(Origin, table[1].embedding);
    assert table[1..][1..] == table[2..];
    assert Candidates(Origin, table[1..], norm) == [b];
    assert SameShape(Origin, table[0].embedding);
    assert Candidates(Origin, table, norm) == [Candidate("A", "a.png", 0.0)] + Candidates(Origin, table[1..], norm);
  }

  /** Distances 0 and 5 score 10 and 0. */
  lemma ExampleScores()
    ensures Score([Candidate("A", "a.png", 0.0), Candidate("B", "b.png", 5.0)])
            == [Scored(Candidate("A", "a.png", 0.0), 10.0), Scored(Candidate("B", "b.png", 5.0), 0.0)]
  {
    var cs := [Candidate("A", "a.png", 0.0), Candidate("B", "b.png", 5.0)];
    assert cs[1..] == [cs[1]];
    assert MinDistance(cs) == 0.0;
    assert MaxDistance(cs) == 5.0;
    var scored := Score(cs);
    assert scored[0].score == NormalizedScore(0.0, 0.0, 5.0) == 10.0;
    assert scored[1].score == NormalizedScore(5.0, 0.0, 5.0) == 0.0;
  }

  /** Distances 0 and 5 rank in their order with similarities 10 and 0. */
  lemma ExampleRanking()
    ensures RankCandidates([Candidate("A", "a.png", 0.0), Candidate("B", "b.png", 5.0)], 8)
            == [CelebrityResult(1, "A", 10.0, "a.png"), CelebrityResult(2, "B", 0.0, "b.png")]
  {
    ExampleScores();
    var scored := [Scored(Candidate("A", "a.png", 0.0), 10.0), Scored(Candidate("B", "b.png", 5.0), 0.0)];
    ExampleSorted(scored);
    Round2Exact(10.0);
    Round2Exact(0.0);
    var entries := Enumerate(scored);
    assert entries[0] == CelebrityResult(1, "A", 10.0, "a.png");
    assert entries[1] == CelebrityResult(2, "B", 0.0, "b.png");
    assert entries == [CelebrityResult(1, "A", 10.0, "a.png"), CelebrityResult(2, "B", 0.0, "b.png")];
    assert Rank(scored, 8) == entries;
  }

  /** Two entries already in descending order stay as they are. */
  lemma ExampleSorted(scored: seq<Scored>)
    requires scored == [Scored(Candidate("A", "a.png", 0.0), 10.0), Scored(Candidate("B", "b.png", 5.0), 0.0)]
    ensures SlicePrefix(SortByScoreDesc(scored), 8) == scored
  {
    assert scored[1..] == [scored[1]];
    assert scored[1..][1..] == [];
    assert SortByScoreDesc(scored[1..]) == [scored[1]];
    assert SortByScoreDesc(scored) == scored;
  }

  /** The Euclidean distances from the origin to itself and to (3, 4). */
  lemma ExampleDistances(norm: Norm)
    requires IsDistance(norm(Origin, Origin), Origin, Origin)
    requires IsDistance(norm(Origin, Far), Origin, Far)
    ensures norm(Origin, Origin) == 0.0 && norm(Origin, Far) == 5.0
  {
    DistanceToItself(norm(Origin, Origin), Origin);
    assert IsDistance(5.0, Origin, Far);
    DistanceUnique(norm(Origin, Far), 5.0, Origin, Far);
  }

  /** With the Euclidean distance, the closest face ranks first with
      similarity 10, the farthest second with 0, and the record of another
      length is skipped. */
  lemma TwoMatchesRanked(norm: Norm)
    requires IsDistance(norm(Origin, Origin), Origin, Origin)
    requires IsDistance(norm(Origin, Far), Origin, Far)
    ensures Analyze(Upload("image/png", [Origin]), 8, CountRow(3), TableStore(ExampleTable()), norm)
            == Ok(AnalysisResponse([CelebrityResult(1, "A", 10.0, "a.png"), CelebrityResult(2, "B", 0.0, "b.png")]))
  {
    ExampleDistances(norm);
    ExampleCandidates(norm);
    ExampleRanking();
    assert IsImageContentType("image/png");
    var found := [Candidate("A", "a.png", 0.0), Candidate("B", "b.png", 5.0)];
    assert Analyze(Upload("image/png", [Origin]), 8, CountRow(3), TableStore(ExampleTable()), norm)
           == Ok(AnalysisResponse(RankCandidates(found, 8)));
  }
}
