/** The paged sweep of `analyze_face`: read the reference table page by page
    and turn every record whose embedding has the query's shape into a
    candidate carrying its distance to the query. */
module Sweep {
  import opened Outcomes
  import opened Store
  import opened Ints

  /** A reference record paired with its distance to the query. */
  datatype Candidate = Candidate(name: string, imageUrl: string, distance: real)

  /** The distance function applied to the query and a reference embedding. */
  type Norm = (seq<real>, seq<real>) -> real

  /** The record's embedding has the same numpy shape as the one-dimensional
      query vector. */
  predicate SameShape(query: seq<real>, e: Embedding) {
    e.Flat? && |e.values| == |query|
  }

  function ToCandidate(query: seq<real>, rec: Record, norm: Norm): Candidate
    requires SameShape(query, rec.embedding)
  {
    Candidate(rec.name, rec.imageUrl, norm(query, rec.embedding.values))
  }

  /** The candidates one page of records contributes, in page order. */
  function Candidates(query: seq<real>, records: seq<Record>, norm: Norm): (r: seq<Candidate>)
    ensures |r| <= |records|
    ensures forall c | c in r ::
              exists rec | rec in records :: SameShape(query, rec.embedding) && c == ToCandidate(query, rec, norm)
    ensures forall rec | rec in records && SameShape(query, rec.embedding) :: ToCandidate(query, rec, norm) in r
  {
    if |records| == 0 then []
    else
      var rest := Candidates(query, records[1..], norm);
      if SameShape(query, records[0].embedding) then [ToCandidate(query, records[0], norm)] + rest else rest
  }

  /** Candidates are built record by record: those of a concatenation are
      those of each part, in order. */
  lemma {:induction false} CandidatesAppend(query: seq<real>, a: seq<Record>, b: seq<Record>, norm: Norm)
    ensures Candidates(query, a + b, norm) == Candidates(query, a, norm) + Candidates(query, b, norm)
    decreases |a|
  {
    if |a| == 0 {
      assert a + b == b;
    } else {
      assert (a + b)[0] == a[0];
      assert (a + b)[1..] == a[1..] + b;
      CandidatesAppend(query, a[1..], b, norm);
    }
  }

  /** A record whose embedding shape differs from the query's is skipped
      without failing. */
  lemma CandidatesSkipMismatch(query: seq<real>, records: seq<Record>, rec: Record, norm: Norm)
    requires !SameShape(query, rec.embedding)
    ensures Candidates(query, records + [rec], norm) == Candidates(query, records, norm)
  {
    CandidatesAppend(query, records, [rec], norm);
  }

  /** Every record of the query's shape adds exactly one candidate at the
      end, even when an earlier record carries the same name: there is no
      deduplication by name. */
  lemma CandidatesKeepEveryMatch(query: seq<real>, records: seq<Record>, rec: Record, norm: Norm)
    requires SameShape(query, rec.embedding)
    ensures Candidates(query, records + [rec], norm) == Candidates(query, records, norm) + [ToCandidate(query, rec, norm)]
  {
    CandidatesAppend(query, records, [rec], norm);
  }

  /** Number of page offsets `0, ChunkSize, 2 * ChunkSize, ...` below `total`. */
  function ChunkCount(total: int): nat {
    if total <= 0 then 0 else (total + ChunkSize - 1) / ChunkSize
  }

  lemma ChunkCountBound(total: int, m: nat)
    ensures m < ChunkCount(total) <==> ChunkSize * m < total
  {
  }

  /** The rows one page request contributes: none when the request failed. */
  function PageRows(store: RangeQuery, offset: int): seq<Record> {
    match FetchChunk(store, offset, ChunkSize)
    case Ok(rows) => rows
    case Err(_) => []
  }

  /** All rows returned for the given page requests, in request order. */
  function Gathered(store: RangeQuery, offsets: seq<int>): seq<Record> {
    if |offsets| == 0 then []
    else Gathered(store, offsets[..|offsets| - 1]) + PageRows(store, offsets[|offsets| - 1])
  }

  /** The page at `offset` ends the sweep: it failed or came back empty. */
  predicate StopsSweep(store: RangeQuery, offset: int) {
    var page := FetchChunk(store, offset, ChunkSize);
    page.Err? || |page.value| == 0
  }

  /** The k-th request is at offset `k * ChunkSize`, and every one is below
      the record count. */
  predicate RegularOffsets(requested: seq<int>, total: int) {
    forall k :: 0 <= k < |requested| ==> requested[k] == ChunkSize * k && requested[k] < total
  }

  /** The page offsets requested, and the candidates or the failure. */
  datatype SweepTrace = SweepTrace(requested: seq<int>, outcome: Result<seq<Candidate>>)

  /** The sweep from `offset` on, having already requested `requested` and
      collected `found`. */
  function SweepFrom(query: seq<real>, total: int, store: RangeQuery, norm: Norm,
                     offset: int, requested: seq<int>, found: seq<Candidate>): SweepTrace
    decreases total - offset
  {
    if offset >= total then SweepTrace(requested, Ok(found))
    else
      match FetchChunk(store, offset, ChunkSize)
      case Err(e) => SweepTrace(requested + [offset], Err(e))
      case Ok(rows) =>
        if |rows| == 0 then SweepTrace(requested + [offset], Ok(found))
        else SweepFrom(query, total, store, norm, offset + ChunkSize, requested + [offset],
                       found + Candidates(query, rows, norm))
  }

  /** The whole sweep for one query against a store holding `total` records. */
  function RunSweep(query: seq<real>, total: int, store: RangeQuery, norm: Norm): SweepTrace {
    SweepFrom(query, total, store, norm, 0, [], [])
  }

  /** What holds of a sweep that has requested `requested` and collected
      `found` and may continue. */
  predicate SweepInvariant(query: seq<real>, total: int, store: RangeQuery, norm: Norm,
                           requested: seq<int>, found: seq<Candidate>)
  {
    && RegularOffsets(requested, total)
    && (forall k :: 0 <= k < |requested| ==> !StopsSweep(store, requested[k]))
    && found == Candidates(query, Gathered(store, requested), norm)
  }

  /** What holds of a finished sweep. */
  predicate SweepOutcome(query: seq<real>, total: int, store: RangeQuery, norm: Norm, tr: SweepTrace) {
    var n := |tr.requested|;
    && RegularOffsets(tr.requested, total)
    && n <= ChunkCount(total)
    && (forall k :: 0 <= k < n - 1 ==> !StopsSweep(store, tr.requested[k]))
    && (n < ChunkCount(total) ==> n > 0 && StopsSweep(store, tr.requested[n - 1]))
    && (tr.outcome.Err? <==> n > 0 && FetchChunk(store, tr.requested[n - 1], ChunkSize).Err?)
    && (tr.outcome.Err? ==> tr.outcome.error == ChunkFetchFailed)
    && (tr.outcome.Ok? ==> tr.outcome.value == Candidates(query, Gathered(store, tr.requested), norm))
  }

  /** The sweep ends because the next offset reaches the record count. */
  lemma SweepEndsAtCount(query: seq<real>, total: int, store: RangeQuery, norm: Norm,
                         requested: seq<int>, found: seq<Candidate>)
    requires SweepInvariant(query, total, store, norm, requested, found)
    requires ChunkSize * |requested| >= total
    ensures SweepOutcome(query, total, store, norm, SweepTrace(requested, Ok(found)))
  {
    ChunkCountBound(total, |requested|);
    if |requested| > 0 {
      ChunkCountBound(total, |requested| - 1);
    }
  }

  /** The sweep ends at a page below the count that failed or came back empty. */
  lemma SweepEndsAtPage(query: seq<real>, total: int, store: RangeQuery, norm: Norm,
                        requested: seq<int>, found: seq<Candidate>)
    requires SweepInvariant(query, total, store, norm, requested, found)
    requires ChunkSize * |requested| < total
    requires StopsSweep(store, ChunkSize * |requested|)
    ensures var offset := ChunkSize * |requested|;
            var page := FetchChunk(store, offset, ChunkSize);
            SweepOutcome(query, total, store, norm,
                         SweepTrace(requested + [offset], if page.Err? then Err(page.error) else Ok(found)))
  {
    var offset := ChunkSize * |requested|;
    var requested' := requested + [offset];
    ChunkCountBound(total, |requested|);
    assert requested'[..|requested'| - 1] == requested;
    assert Gathered(store, requested') == Gathered(store, requested) + PageRows(store, offset);
    var page := FetchChunk(store, offset, ChunkSize);
    var tr := SweepTrace(requested', if page.Err? then Err(page.error) else Ok(found));
    assert RegularOffsets(tr.requested, total);
    assert |tr.requested| <= ChunkCount(total);
    assert forall k :: 0 <= k < |tr.requested| - 1 ==> !StopsSweep(store, tr.requested[k]);
    assert tr.outcome.Err? <==> FetchChunk(store, tr.requested[|tr.requested| - 1], ChunkSize).Err?;
    if page.Ok? {
      assert PageRows(store, offset) == [];
      assert Gathered(store, requested') == Gathered(store, requested);
    }
  }

  /** A non-empty page moves the sweep on by one page. */
  lemma SweepStep(query: seq<real>, total: int, store: RangeQuery, norm: Norm,
                  requested: seq<int>, found: seq<Candidate>)
    requires SweepInvariant(query, total, store, norm, requested, found)
    requires ChunkSize * |requested| < total
    requires !StopsSweep(store, ChunkSize * |requested|)
    ensures var offset := ChunkSize * |requested|;
            var rows := FetchChunk(store, offset, ChunkSize).value;
            SweepInvariant(query, total, store, norm, requested + [offset], found + Candidates(query, rows, norm))
  {
    var offset := ChunkSize * |requested|;
    var rows := FetchChunk(store, offset, ChunkSize).value;
    var requested' := requested + [offset];
    assert requested'[..|requested'| - 1] == requested;
    assert Gathered(store, requested') == Gathered(store, requested) + rows;
    CandidatesAppend(query, Gathered(store, requested), rows, norm);
  }

  lemma {:induction false} SweepFromProperties(query: seq<real>, total: int, store: RangeQuery, norm: Norm,
                                               offset: int, requested: seq<int>, found: seq<Candidate>)
    requires offset == ChunkSize * |requested|
    requires SweepInvariant(query, total, store, norm, requested, found)
    ensures SweepOutcome(query, total, store, norm, SweepFrom(query, total, store, norm, offset, requested, found))
    decreases total - offset
  {
    if offset >= total {
      SweepFromAtCount(query, total, store, norm, offset, requested, found);
    } else if StopsSweep(store, offset) {
      SweepFromAtPage(query, total, store, norm, offset, requested, found);
    } else {
      var rows := FetchChunk(store, offset, ChunkSize).value;
      SweepStep(query, total, store, norm, requested, found);
      SweepFromProperties(query, total, store, norm, offset + ChunkSize, requested + [offset],
                          found + Candidates(query, rows, norm));
      SweepFromNext(query, total, store, norm, offset, requested, found);
    }
  }

  lemma SweepFromAtCount(query: seq<real>, total: int, store: RangeQuery, norm: Norm,
                         offset: int, requested: seq<int>, found: seq<Candidate>)
    requires offset == ChunkSize * |requested| && offset >= total
    requires SweepInvariant(query, total, store, norm, requested, found)
    ensures SweepOutcome(query, total, store, norm, SweepFrom(query, total, store, norm, offset, requested, found))
  {
    assert SweepFrom(query, total, store, norm, offset, requested, found) == SweepTrace(requested, Ok(found));
    SweepEndsAtCount(query, total, store, norm, requested, found);
  }

  lemma SweepFromAtPage(query: seq<real>, total: int, store: RangeQuery, norm: Norm,
                        offset: int, requested: seq<int>, found: seq<Candidate>)
    requires offset == ChunkSize * |requested| && offset < total && StopsSweep(store, offset)
    requires SweepInvariant(query, total, store, norm, requested, found)
    ensures SweepOutcome(query, total, store, norm, SweepFrom(query, total, store, norm, offset, requested, found))
  {
    SweepFromStops(query, total, store, norm, offset, requested, found);
    SweepEndsAtPage(query, total, store, norm, requested, found);
  }

  lemma SweepFromNext(query: seq<real>, total: int, store: RangeQuery, norm: Norm,
                      offset: int, requested: seq<int>, found: seq<Candidate>)
    requires offset < total && !StopsSweep(store, offset)
    requires var rows := FetchChunk(store, offset, ChunkSize).value;
             SweepOutcome(query, total, store, norm,
                          SweepFrom(query, total, store, norm, offset + ChunkSize, requested + [offset],
                                    found + Candidates(query, rows, norm)))
    ensures SweepOutcome(query, total, store, norm, SweepFrom(query, total, store, norm, offset, requested, found))
  {
    SweepFromContinues(query, total, store, norm, offset, requested, found);
  }

  /** What the sweep does, for every store and every record count: pages
      are requested at `0, ChunkSize, 2 * ChunkSize, ...`, all below the
      count; the sweep stops early only at a failed or empty page; a failed
      page aborts it; otherwise the candidates are exactly those of the rows
      read, in order. */
  lemma SweepProperties(query: seq<real>, total: int, store: RangeQuery, norm: Norm)
    ensures SweepOutcome(query, total, store, norm, RunSweep(query, total, store, norm))
  {
    SweepFromProperties(query, total, store, norm, 0, [], []);
  }

  /** A successful sweep's candidates are those of every row it read. */
  lemma SweepOkIsCandidates(query: seq<real>, total: int, store: RangeQuery, norm: Norm)
    ensures var tr := RunSweep(query, total, store, norm);
            tr.outcome.Ok? ==> tr.outcome.value == Candidates(query, Gathered(store, tr.requested), norm)
  {
    SweepProperties(query, total, store, norm);
  }

  /** The candidates of one page, collected record by record as the inner
      `for` loop of the endpoint does. */
  method CollectPage(query: seq<real>, records: seq<Record>, norm: Norm) returns (found: seq<Candidate>)
    ensures found == Candidates(query, records, norm)
  {
    found := [];
    var i := 0;
    while i < |records|
      invariant 0 <= i <= |records|
      invariant found == Candidates(query, records[..i], norm)
    {
      var record := records[i];
      CandidatesOfNextRecord(query, records, i, norm);
      if SameShape(query, record.embedding) {
        var distance := norm(query, record.embedding.values);
        found := found + [Candidate(record.name, record.imageUrl, distance)];
      }
      i := i + 1;
    }
    assert records[..i] == records;
  }

  /** The candidates of one more record of a page. */
  lemma CandidatesOfNextRecord(query: seq<real>, records: seq<Record>, i: int, norm: Norm)
    requires 0 <= i < |records|
    ensures var rec := records[i];
            Candidates(query, records[..i + 1], norm)
            == Candidates(query, records[..i], norm)
               + (if SameShape(query, rec.embedding) then [ToCandidate(query, rec, norm)] else [])
  {
    assert records[..i + 1] == records[..i] + [records[i]];
    if SameShape(query, records[i].embedding) {
      CandidatesKeepEveryMatch(query, records[..i], records[i], norm);
    } else {
      CandidatesSkipMismatch(query, records[..i], records[i], norm);
    }
  }

  /** The sweep as the endpoint runs it: a `while` loop over pages. */
  method SweepLoop(query: seq<real>, total: int, store: RangeQuery, norm: Norm)
    returns (requested: seq<int>, outcome: Result<seq<Candidate>>)
    ensures SweepTrace(requested, outcome) == RunSweep(query, total, store, norm)
    ensures SweepOutcome(query, total, store, norm, SweepTrace(requested, outcome))
  {
    var candidates: seq<Candidate> := [];
    var offset := 0;
    requested := [];
    while offset < total
      invariant SweepFrom(query, total, store, norm, offset, requested, candidates) == RunSweep(query, total, store, norm)
      decreases total - offset
    {
      var page := FetchChunk(store, offset, ChunkSize);
      if page.Err? {
        SweepProperties(query, total, store, norm);
        return requested + [offset], Err(page.error);
      }
      var records := page.value;
      if |records| == 0 {
        SweepProperties(query, total, store, norm);
        return requested + [offset], Ok(candidates);
      }
      var found := CollectPage(query, records, norm);
      SweepFromContinues(query, total, store, norm, offset, requested, candidates);
      candidates := candidates + found;
      requested := requested + [offset];
      offset := offset + ChunkSize;
    }
    outcome := Ok(candidates);
    SweepProperties(query, total, store, norm);
  }

  /** The sweep stops at a failed or empty page below the count. */
  lemma SweepFromStops(query: seq<real>, total: int, store: RangeQuery, norm: Norm,
                       offset: int, requested: seq<int>, found: seq<Candidate>)
    requires offset < total && StopsSweep(store, offset)
    ensures var page := FetchChunk(store, offset, ChunkSize);
            SweepFrom(query, total, store, norm, offset, requested, found)
            == SweepTrace(requested + [offset], if page.Err? then Err(page.error) else Ok(found))
  {
  }

  /** One step of the sweep past a non-empty page. */
  lemma SweepFromContinues(query: seq<real>, total: int, store: RangeQuery, norm: Norm,
                           offset: int, requested: seq<int>, found: seq<Candidate>)
    requires offset < total
    requires FetchChunk(store, offset, ChunkSize).Ok? && |FetchChunk(store, offset, ChunkSize).value| > 0
    ensures SweepFrom(query, total, store, norm, offset, requested, found)
         == SweepFrom(query, total, store, norm, offset + ChunkSize, requested + [offset],
                      found + Candidates(query, FetchChunk(store, offset, ChunkSize).value, norm))
  {
  }

  /** Page offsets `0, ChunkSize, ..., (m - 1) * ChunkSize`. */
  function Offsets(m: nat): (r: seq<int>)
    ensures |r| == m
    ensures forall k :: 0 <= k < m ==> r[k] == ChunkSize * k
  {
    seq(m, k => ChunkSize * k)
  }

  /** Reading the first `m` pages of a table yields its first
      `m * ChunkSize` rows, or all of it. */
  lemma {:induction false} GatheredFromTable(table: seq<Record>, m: nat)
    ensures Gathered(TableStore(table), Offsets(m)) == table[..Min(|table|, ChunkSize * m)]
  {
    if m > 0 {
      var offsets := Offsets(m);
      assert offsets[..m - 1] == Offsets(m - 1);
      GatheredFromTable(table, m - 1);
      TablePageExtends(table, ChunkSize * (m - 1));
    }
  }

  /** The page at `offset` continues a table prefix of length `offset`. */
  lemma TablePageExtends(table: seq<Record>, offset: nat)
    ensures table[..Min(|table|, offset)] + PageRows(TableStore(table), offset)
            == table[..Min(|table|, offset + ChunkSize)]
  {
    ChunkIsLimitRows(table, offset, ChunkSize);
    var rows := PageRows(TableStore(table), offset);
    if offset + ChunkSize <= |table| {
      assert table[..offset] + table[offset..offset + ChunkSize] == table[..offset + ChunkSize];
    } else if offset <= |table| {
      assert table[..offset] + table[offset..] == table;
    } else {
      assert rows == [];
    }
  }

  /** Against a table holding the reference records, the sweep never fails
      and reads every row up to the page boundary past the record count:
      when the count is at least the table size, every record is read once,
      in table order. */
  lemma SweepCoversTable(query: seq<real>, table: seq<Record>, total: int, norm: Norm)
    ensures RunSweep(query, total, TableStore(table), norm).outcome
            == Ok(Candidates(query, table[..Min(|table|, ChunkSize * ChunkCount(total))], norm))
    ensures |table| <= total ==>
              RunSweep(query, total, TableStore(table), norm).outcome == Ok(Candidates(query, table, norm))
  {
    var store := TableStore(table);
    var tr := RunSweep(query, total, store, norm);
    SweepProperties(query, total, store, norm);
    var m := |tr.requested|;
    assert tr.requested == Offsets(m);
    if m > 0 {
      ChunkIsLimitRows(table, ChunkSize * (m - 1), ChunkSize);
    }
    GatheredFromTable(table, m);
    if m < ChunkCount(total) {
      ChunkIsLimitRows(table, ChunkSize * (m - 1), ChunkSize);
      assert ChunkSize * (m - 1) >= |table|;
    }
    if |table| <= total {
      ChunkCountBound(total, ChunkCount(total));
      assert table[..Min(|table|, ChunkSize * ChunkCount(total))] == table;
    }
  }
}
