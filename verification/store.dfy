/** The reference store as the endpoint sees it: one query for the number of
    reference records and a paged range query over the reference table.

    The Supabase client is not modelled; each query is represented by the
    reply it produces, and a page query by a function from the requested
    inclusive row range to its reply.
 */
module Store {
  import opened Outcomes

  /** A reference embedding as numpy sees it once converted with `np.array`:
      either a one-dimensional vector of numbers, or a well-formed value
      whose shape is not that of the query (a missing value, a single string,
      a regular nested array). Rows that `np.array` rejects or that pass the
      shape test without holding numbers are not represented; they are
      listed among the ill-typed rows the model leaves out. */
  datatype Embedding = Flat(values: seq<real>) | NotFlat

  /** One row of the reference table. */
  datatype Record = Record(name: string, embedding: Embedding, imageUrl: string)

  /** Reply of the count query. */
  datatype CountReply =
    | CountRow(recordCount: int)  // the single row holding the record count
    | NoCountRow                  // the query succeeded but returned no data
    | CountFailed                 // the query raised

  /** Reply of a range query. */
  datatype ChunkReply =
    | Rows(rows: seq<Record>)  // the rows returned
    | NoRows                   // the query succeeded with no data attached
    | ChunkFailed              // the query raised

  /** A range query: the reply to a request for rows `lo..hi`, both inclusive. */
  type RangeQuery = (int, int) -> ChunkReply

  /** Rows requested per page. */
  const ChunkSize: int := 1000

  /** The record count as the endpoint's count helper computes it. The 404
      raised for a missing row is raised inside the `try` block and caught by
      its own `except Exception` handler, so it reaches the client re-raised
      as a 500. */
  function FetchCountAsWritten(reply: CountReply): (r: Result<int>)
    ensures r.Ok? <==> reply.CountRow?
    ensures r.Ok? ==> r.value == reply.recordCount
    ensures r.Err? ==> r.error == RecordCountFailed
  {
    match reply
    case CountRow(n) => Ok(n)
    case NoCountRow => Err(RecordCountFailed)
    case CountFailed => Err(RecordCountFailed)
  }

  /** A missing count row is reported with status 500, although the code
      raises a 404 for exactly that case. */
  lemma MissingCountRowReports500()
    ensures FetchCountAsWritten(NoCountRow).Err?
    ensures Status(FetchCountAsWritten(NoCountRow).error) == 500
    ensures Status(RecordCountNotFound) == 404
  {
  }

  /** The record count with the missing-row 404 kept distinct from the
      generic 500 for a failed query. */
  function FetchCount(reply: CountReply): (r: Result<int>)
    ensures r.Ok? <==> reply.CountRow?
    ensures r.Ok? ==> r.value == reply.recordCount
    ensures r.Err? ==> (Status(r.error) == 404 <==> reply.NoCountRow?)
    ensures r.Err? ==> (Status(r.error) == 500 <==> reply.CountFailed?)
  {
    match reply
    case CountRow(n) => Ok(n)
    case NoCountRow => Err(RecordCountNotFound)
    case CountFailed => Err(RecordCountFailed)
  }

  /** The inclusive row range asked for a page of `limit` rows at `offset`. */
  function RowRange(offset: int, limit: int): (int, int) {
    (offset, offset + limit - 1)
  }

  /** The range starts at `offset` and, both ends included, spans exactly
      `limit` row indices. */
  lemma RowRangeSpansLimit(offset: int, limit: int)
    ensures RowRange(offset, limit).0 == offset
    ensures RowRange(offset, limit).1 - RowRange(offset, limit).0 + 1 == limit
  {
  }

  /** One page of records: a failed query aborts, a reply without data is an
      empty page. */
  function FetchChunk(query: RangeQuery, offset: int, limit: int): (r: Result<seq<Record>>)
    ensures r.Err? <==> query(offset, offset + limit - 1).ChunkFailed?
    ensures r.Err? ==> r.error == ChunkFetchFailed
    ensures r.Ok? && query(offset, offset + limit - 1).Rows? ==>
              r.value == query(offset, offset + limit - 1).rows
    ensures r.Ok? && !query(offset, offset + limit - 1).Rows? ==> r.value == []
  {
    var (lo, hi) := RowRange(offset, limit);
    match query(lo, hi)
    case Rows(rows) => Ok(rows)
    case NoRows => Ok([])
    case ChunkFailed => Err(ChunkFetchFailed)
  }

  function Clamp(x: int, lo: int, hi: int): (r: int)
    requires lo <= hi
    ensures lo <= r <= hi
  {
    if x < lo then lo else if x > hi then hi else x
  }

  /** A reference table answering range queries: the rows whose 0-based
      index lies in `lo..hi`, clipped to the table. */
  function TableRange(table: seq<Record>, lo: int, hi: int): ChunkReply {
    var from := Clamp(lo, 0, |table|);
    var to := Clamp(hi + 1, from, |table|);
    Rows(table[from..to])
  }

  function TableStore(table: seq<Record>): RangeQuery {
    (lo: int, hi: int) => TableRange(table, lo, hi)
  }

  /** Against a table, a page request at a non-negative offset yields the
      `limit` rows starting at that offset, or the rows up to the end of the
      table when fewer remain. */
  lemma ChunkIsLimitRows(table: seq<Record>, offset: int, limit: int)
    requires 0 <= offset && 0 <= limit
    ensures offset + limit <= |table| ==>
              FetchChunk(TableStore(table), offset, limit) == Ok(table[offset..offset + limit])
    ensures offset <= |table| < offset + limit ==>
              FetchChunk(TableStore(table), offset, limit) == Ok(table[offset..])
    ensures |table| < offset ==> FetchChunk(TableStore(table), offset, limit) == Ok([])
  {
    var reply := TableStore(table)(offset, offset + limit - 1);
    assert reply == TableRange(table, offset, offset + limit - 1);
    assert FetchChunk(TableStore(table), offset, limit) == Ok(reply.rows);
    if |table| < offset {
      assert reply.rows == table[|table|..|table|] == [];
    } else if |table| < offset + limit {
      assert reply.rows == table[offset..|table|] == table[offset..];
    } else {
      assert reply.rows == table[offset..offset + limit];
    }
  }
}
