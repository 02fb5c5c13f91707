/**
 * The two endpoints of app/main.py around the store: POST /upload, which
 * checks the file name and the CSV header, resets the table and loads the
 * body chunk by chunk, and GET /summary/{user_id}, which checks the user id,
 * turns the optional bounds into canonical ISO text and answers with the
 * store's aggregates.
 *
 * The CSV tokeniser and the date parser are foreign code: a body line arrives
 * already split into cells keyed by column name (or as a line the tokeniser
 * rejects), and the conversions pandas and dateutil apply to a cell are
 * function parameters that either yield a value or fail.
 */
module Api {
  import opened Common
  import opened Db

  /** The columns an upload must declare, in the order the rows are stored. */
  const REQUIRED_COLUMNS: seq<string> :=
    ["transaction_id", "user_id", "product_id", "timestamp", "transaction_amount"]

  /** Rows per chunk of the body. */
  const CHUNK_SIZE: nat := 100000

  // ---------------------------------------------------------------------
  // The file-name check
  // ---------------------------------------------------------------------

  function LowerAscii(c: char): char {
    if 'A' <= c <= 'Z' then (c as int + 32) as char else c
  }

  function Lower(s: string): string {
    seq(|s|, i requires 0 <= i < |s| => LowerAscii(s[i]))
  }

  predicate EndsWith(s: string, suffix: string) {
    |suffix| <= |s| && s[|s| - |suffix|..] == suffix
  }

  /** `filename.lower().endswith(".csv")`. */
  predicate IsCsvName(name: string) {
    EndsWith(Lower(name), ".csv")
  }

  /** A name is accepted exactly when it ends in a dot followed by c, s, v
      in either case: "data.CSV" and "a.Csv" pass, "bad.txt" and "csv" fail. */
  lemma IsCsvNameSuffix(name: string)
    ensures IsCsvName(name) <==>
      && |name| >= 4
      && name[|name| - 4] == '.'
      && name[|name| - 3] in "cC"
      && name[|name| - 2] in "sS"
      && name[|name| - 1] in "vV"
  {
    var n := |name|;
    if n >= 4 {
      var tail := Lower(name)[n - 4..];
      assert tail[0] == LowerAscii(name[n - 4]);
      assert tail[1] == LowerAscii(name[n - 3]);
      assert tail[2] == LowerAscii(name[n - 2]);
      assert tail[3] == LowerAscii(name[n - 1]);
      if tail == ".csv" {
        assert tail[0] == '.' && tail[1] == 'c' && tail[2] == 's' && tail[3] == 'v';
      }
    }
  }

  // ---------------------------------------------------------------------
  // The header check
  // ---------------------------------------------------------------------

  /** r is obtained from s by deleting elements, keeping the order. */
  predicate IsSubsequence(r: seq<string>, s: seq<string>)
    decreases |s|
  {
    if r == [] then true
    else if s == [] then false
    else if r[0] == s[0] then IsSubsequence(r[1..], s[1..])
    else IsSubsequence(r, s[1..])
  }

  /** `[c for c in required if c not in header]`. */
  function Missing(required: seq<string>, header: seq<string>): (r: seq<string>)
    ensures forall c :: c in r <==> c in required && c !in header
    ensures r == [] <==> forall c :: c in required ==> c in header
    ensures IsSubsequence(r, required)
    decreases |required|
  {
    if required == [] then []
    else if required[0] in header then Missing(required[1..], header)
    else [required[0]] + Missing(required[1..], header)
  }

  /** The missing-column list of app/main.py:28. */
  function MissingColumns(header: seq<string>): seq<string> {
    Missing(REQUIRED_COLUMNS, header)
  }

  /** The list depends only on which required columns the header has: the
      order of the header's columns and any other column do not matter. */
  lemma {:induction false} MissingOnlyRequired(required: seq<string>, h1: seq<string>, h2: seq<string>)
    requires forall c :: c in required ==> (c in h1 <==> c in h2)
    ensures Missing(required, h1) == Missing(required, h2)
    decreases |required|
  {
    if required != [] {
      MissingOnlyRequired(required[1..], h1, h2);
    }
  }

  /** Extra columns never cause a rejection, nor change what is reported. */
  lemma ExtraColumnsIgnored(header: seq<string>, extra: seq<string>)
    requires forall c :: c in extra ==> c !in REQUIRED_COLUMNS
    ensures MissingColumns(header + extra) == MissingColumns(header)
  {
    MissingOnlyRequired(REQUIRED_COLUMNS, header + extra, header);
  }

  /** What reading the header with `nrows=0` gave: no data at all
      (EmptyDataError), another reader error, or the column names. */
  datatype HeaderRead = EmptyData | Unreadable | Header(columns: seq<string>)

  predicate HeaderAccepted(h: HeaderRead) {
    h.Header? && MissingColumns(h.columns) == []
  }

  // ---------------------------------------------------------------------
  // Chunks and their projection onto the stored columns
  // ---------------------------------------------------------------------

  /** A body line: its cells by column name, or a line the tokeniser rejects. */
  datatype RawRow = Cells(cells: map<string, string>) | Malformed

  /** The conversions applied to a cell's text (dtype inference with its
      NA strings, parse_dates followed by isoformat, astype(float)); None is
      a conversion that raises, and a product id of Some(None) is NULL. */
  datatype Codecs = Codecs(
    transactionId: string -> Option<string>,
    userId: string -> Option<int>,
    productId: string -> Option<Option<int>>,
    timestamp: string -> Option<string>,
    amount: string -> Option<real>)

  /** A cell's text; a short line leaves the cell empty. */
  function Cell(cells: map<string, string>, column: string): string {
    if column in cells then cells[column] else ""
  }

  /** `chunk[REQUIRED_COLUMNS]` for one line, as the 5-tuple the INSERT takes. */
  function Project(raw: RawRow, c: Codecs): Option<Row> {
    match raw
    case Malformed => None
    case Cells(cells) =>
      var id := c.transactionId(Cell(cells, REQUIRED_COLUMNS[0]));
      var user := c.userId(Cell(cells, REQUIRED_COLUMNS[1]));
      var product := c.productId(Cell(cells, REQUIRED_COLUMNS[2]));
      var ts := c.timestamp(Cell(cells, REQUIRED_COLUMNS[3]));
      var amount := c.amount(Cell(cells, REQUIRED_COLUMNS[4]));
      if id.None? || user.None? || product.None? || ts.None? || amount.None? then None
      else Some(Row(id.value, user.value, product.value, ts.value, amount.value))
  }

  /** Only the five required cells of a line reach the store: lines that
      agree on them give the same row, whatever their other columns. */
  lemma ProjectReadsRequiredOnly(a: map<string, string>, b: map<string, string>, c: Codecs)
    requires forall col :: col in REQUIRED_COLUMNS ==> Cell(a, col) == Cell(b, col)
    ensures Project(Cells(a), c) == Project(Cells(b), c)
  {
  }

  /** The conversion of one body line into a row, None when it fails. The
      chunk loop only applies it; for an upload it is RowOf(codecs). */
  type Converter = RawRow -> Option<Row>

  function RowOf(c: Codecs): Converter {
    raw => Project(raw, c)
  }

  /** `list(chunk.itertuples(...))` after the conversions: the rows of the
      chunk in order, or None when a conversion fails on any line. */
  function ProjectChunk(chunk: seq<RawRow>, convert: Converter): Option<seq<Row>>
    decreases |chunk|
  {
    if chunk == [] then Some([])
    else
      match (convert(chunk[0]), ProjectChunk(chunk[1..], convert))
      case (Some(row), Some(rest)) => Some([row] + rest)
      case _ => None
  }

  /** Line i of a converted chunk becomes row i, and a line that fails to
      convert fails its whole chunk. */
  lemma {:induction false} ProjectChunkAt(chunk: seq<RawRow>, convert: Converter, i: nat)
    requires i < |chunk|
    ensures ProjectChunk(chunk, convert).Some? ==>
              |ProjectChunk(chunk, convert).value| == |chunk| && convert(chunk[i]) == Some(ProjectChunk(chunk, convert).value[i])
    ensures convert(chunk[i]).None? ==> ProjectChunk(chunk, convert).None?
    decreases |chunk|
  {
    if i > 0 {
      assert chunk[1..][i - 1] == chunk[i];
      ProjectChunkAt(chunk[1..], convert, i - 1);
    } else if |chunk| > 1 {
      ProjectChunkAt(chunk[1..], convert, 0);
    }
  }

  /** A chunk whose every line converts converts. */
  lemma {:induction false} ProjectChunkAllLines(chunk: seq<RawRow>, convert: Converter)
    requires forall i :: 0 <= i < |chunk| ==> convert(chunk[i]).Some?
    ensures ProjectChunk(chunk, convert).Some?
    decreases |chunk|
  {
    if chunk != [] {
      assert forall i :: 0 <= i < |chunk[1..]| ==> chunk[1..][i] == chunk[i + 1];
      ProjectChunkAllLines(chunk[1..], convert);
    }
  }

  /** Projecting a + b projects a and b. */
  lemma {:induction false} ProjectChunkAppend(a: seq<RawRow>, b: seq<RawRow>, convert: Converter)
    ensures ProjectChunk(a + b, convert).Some? <==> ProjectChunk(a, convert).Some? && ProjectChunk(b, convert).Some?
    ensures ProjectChunk(a + b, convert).Some? ==>
              ProjectChunk(a + b, convert).value == ProjectChunk(a, convert).value + ProjectChunk(b, convert).value
    decreases |a|
  {
    if a == [] {
      assert a + b == b;
    } else {
      assert (a + b)[0] == a[0] && (a + b)[1..] == a[1..] + b;
      ProjectChunkAppend(a[1..], b, convert);
    }
  }

  function Flatten(chunks: seq<seq<RawRow>>): seq<RawRow>
    decreases |chunks|
  {
    if chunks == [] then [] else chunks[0] + Flatten(chunks[1..])
  }

  /** `pd.read_csv(..., chunksize=size)`: consecutive non-empty chunks of
      `size` lines, the last one possibly shorter, that together are the body. */
  function Chunks(body: seq<RawRow>, size: nat): (r: seq<seq<RawRow>>)
    requires size > 0
    ensures Flatten(r) == body
    ensures forall i :: 0 <= i < |r| ==> 0 < |r[i]| <= size
    ensures forall i :: 0 <= i < |r| - 1 ==> |r[i]| == size
    decreases |body|
  {
    if body == [] then []
    else if |body| <= size then
      assert Flatten([body]) == body + Flatten([]);
      [body]
    else
      var rest := Chunks(body[size..], size);
      assert ([body[..size]] + rest)[1..] == rest;
      assert body == body[..size] + body[size..];
      [body[..size]] + rest
  }

  /** What a chunked load puts in the store: the rows of the chunks converted
      one after another; complete is false when a chunk fails, and then rows
      holds the rows of the chunks before it. */
  datatype Ingest = Ingest(rows: seq<Row>, complete: bool)

  function IngestChunks(chunks: seq<seq<RawRow>>, convert: Converter): Ingest
    decreases |chunks|
  {
    if chunks == [] then Ingest([], true)
    else
      match ProjectChunk(chunks[0], convert)
      case None => Ingest([], false)
      case Some(rows) =>
        var rest := IngestChunks(chunks[1..], convert);
        Ingest(rows + rest.rows, rest.complete)
  }

  /** IngestChunks read from chunk i on. */
  lemma IngestFrom(chunks: seq<seq<RawRow>>, i: nat, convert: Converter)
    requires i < |chunks|
    ensures ProjectChunk(chunks[i], convert).None? ==> IngestChunks(chunks[i..], convert) == Ingest([], false)
    ensures ProjectChunk(chunks[i], convert).Some? ==>
              && IngestChunks(chunks[i..], convert).rows
                 == ProjectChunk(chunks[i], convert).value + IngestChunks(chunks[i + 1..], convert).rows
              && IngestChunks(chunks[i..], convert).complete == IngestChunks(chunks[i + 1..], convert).complete
  {
    assert chunks[i..][0] == chunks[i] && chunks[i..][1..] == chunks[i + 1..];
  }

  /** A chunked load completes exactly when the whole body converts, and
      then it carries the rows of the whole body in order. */
  lemma {:induction false} IngestWholeBody(chunks: seq<seq<RawRow>>, convert: Converter)
    ensures IngestChunks(chunks, convert).complete <==> ProjectChunk(Flatten(chunks), convert).Some?
    ensures IngestChunks(chunks, convert).complete ==>
              ProjectChunk(Flatten(chunks), convert) == Some(IngestChunks(chunks, convert).rows)
    decreases |chunks|
  {
    if chunks != [] {
      IngestWholeBody(chunks[1..], convert);
      ProjectChunkAppend(chunks[0], Flatten(chunks[1..]), convert);
    }
  }

  /** A failed load keeps what the chunks before the failing one inserted:
      there is a failing chunk j, and the rows are those of chunks[..j]. */
  lemma {:induction false} IngestAborted(chunks: seq<seq<RawRow>>, convert: Converter)
    requires !IngestChunks(chunks, convert).complete
    ensures exists j :: 0 <= j < |chunks| && ProjectChunk(chunks[j], convert).None?
              && ProjectChunk(Flatten(chunks[..j]), convert) == Some(IngestChunks(chunks, convert).rows)
    decreases |chunks|
  {
    if ProjectChunk(chunks[0], convert).None? {
      assert chunks[..0] == [];
      assert ProjectChunk(Flatten(chunks[..0]), convert) == Some([]);
    } else {
      IngestAborted(chunks[1..], convert);
      var j :| 0 <= j < |chunks[1..]| && ProjectChunk(chunks[1..][j], convert).None?
               && ProjectChunk(Flatten(chunks[1..][..j]), convert) == Some(IngestChunks(chunks[1..], convert).rows);
      assert chunks[..j + 1] == [chunks[0]] + chunks[1..][..j];
      assert Flatten(chunks[..j + 1]) == chunks[0] + Flatten(chunks[1..][..j]);
      ProjectChunkAppend(chunks[0], Flatten(chunks[1..][..j]), convert);
      assert chunks[j + 1] == chunks[1..][j];
    }
  }

  /** The chunk size does not decide whether a load completes, and a load
      that completes leaves the table that inserting the whole body at once
      leaves. Which rows a failed load keeps does depend on the size. */
  lemma ChunkSizeIrrelevant(body: seq<RawRow>, n: nat, convert: Converter)
    requires n > 0
    ensures IngestChunks(Chunks(body, n), convert).complete <==> ProjectChunk(body, convert).Some?
    ensures ProjectChunk(body, convert).Some? ==>
              IngestChunks(Chunks(body, n), convert).rows == ProjectChunk(body, convert).value
  {
    IngestWholeBody(Chunks(body, n), convert);
  }

  // ---------------------------------------------------------------------
  // POST /upload
  // ---------------------------------------------------------------------

  datatype CsvUpload = CsvUpload(filename: string, header: HeaderRead, body: seq<RawRow>)

  /** The response: the number of rows inserted, or the HTTP status of the
      rejection (400 for the name or the header, 500 for a failed load). */
  datatype UploadResponse = Uploaded(insertedRows: nat) | UploadRejected(status: nat)

  /** upload_csv: nothing is touched until the name and the header pass;
      then the table is reset and the chunks are inserted one by one, and a
      failing chunk ends the load without undoing the chunks before it. */
  method UploadCsv(store: TransactionStore, upload: CsvUpload, c: Codecs)
    returns (resp: UploadResponse)
    requires store.Valid()
    modifies store
    ensures store.Valid()
    ensures !IsCsvName(upload.filename) || !HeaderAccepted(upload.header) ==>
              && resp == UploadRejected(400)
              && store.rows == old(store.rows)
              && store.tableExists == old(store.tableExists)
    ensures IsCsvName(upload.filename) && HeaderAccepted(upload.header) ==>
              var ingest := IngestChunks(Chunks(upload.body, CHUNK_SIZE), RowOf(c));
              && store.tableExists
              && store.rows == InsertAll(map[], ingest.rows)
              && resp == (if ingest.complete then Uploaded(|Ids(ingest.rows)|) else UploadRejected(500))
  {
    if !IsCsvName(upload.filename) {
      return UploadRejected(400);
    }
    match upload.header {
      case EmptyData =>
        return UploadRejected(400);
      case Unreadable =>
        return UploadRejected(400);
      case Header(columns) =>
        var missing := MissingColumns(columns);
        if missing != [] {
          return UploadRejected(400);
        }
    }

    store.InitDb(true);
    resp := LoadChunks(store, Chunks(upload.body, CHUNK_SIZE), RowOf(c));
  }

  /** The loop of upload_csv over the chunks of a freshly reset table: each
      chunk is converted and inserted, `inserted_total` adds up the counts,
      and a chunk that fails to convert ends the load with status 500. */
  method LoadChunks(store: TransactionStore, chunks: seq<seq<RawRow>>, convert: Converter)
    returns (resp: UploadResponse)
    requires store.Valid() && store.tableExists && store.rows == map[]
    modifies store
    ensures store.Valid() && store.tableExists
    ensures var ingest := IngestChunks(chunks, convert);
            && store.rows == InsertAll(map[], ingest.rows)
            && resp == (if ingest.complete then Uploaded(|Ids(ingest.rows)|) else UploadRejected(500))
  {
    ghost var ingest := IngestChunks(chunks, convert);
    var insertedTotal := 0;
    var i := 0;
    ghost var loaded: seq<Row> := [];
    while i < |chunks|
      invariant 0 <= i <= |chunks|
      invariant store.Valid() && store.tableExists
      invariant store.rows == InsertAll(map[], loaded)
      invariant insertedTotal == |store.rows|
      invariant ingest.rows == loaded + IngestChunks(chunks[i..], convert).rows
      invariant ingest.complete == IngestChunks(chunks[i..], convert).complete
    {
      var rows := ProjectChunk(chunks[i], convert);
      if rows.None? {
        assert ingest.rows == loaded by {
          IngestFrom(chunks, i, convert);
        }
        return UploadRejected(500);
      }
      ghost var rest := IngestChunks(chunks[i + 1..], convert);
      assert ingest.rows == (loaded + rows.value) + rest.rows && ingest.complete == rest.complete by {
        IngestFrom(chunks, i, convert);
        assert loaded + (rows.value + rest.rows) == (loaded + rows.value) + rest.rows;
      }
      var inserted := store.InsertMany(rows.value);
      assert store.rows == InsertAll(map[], loaded + rows.value) by {
        InsertAllAppend(map[], loaded, rows.value);
      }
      insertedTotal := insertedTotal + inserted.value;
      loaded := loaded + rows.value;
      i := i + 1;
    }
    assert ingest.rows == loaded by {
      assert chunks[i..] == [];
    }
    assert insertedTotal == |Ids(loaded)| by {
      InsertAllCount(map[], loaded);
    }
    return Uploaded(insertedTotal);
  }

  // ---------------------------------------------------------------------
  // GET /summary/{user_id}
  // ---------------------------------------------------------------------

  /** The response: the echoed request with the aggregates (None is JSON
      null), or the HTTP status of the rejection. */
  datatype SummaryResponse =
    | Summary(userId: int, start: Option<string>, end: Option<string>,
              count: nat, min: Option<real>, max: Option<real>, mean: Option<real>)
    | SummaryRejected(status: nat)

  /** `parse_date(s).isoformat()` when s is a non-empty string: Some(None)
      for no bound, Some(Some(iso)) for a parsed one, None when parsing fails. */
  function IsoBound(s: Option<string>, parseDate: string -> Option<string>): Option<Option<string>> {
    if s.None? || s.value == "" then Some(None)
    else match parseDate(s.value)
         case None => None
         case Some(iso) => Some(Some(iso))
  }

  /** get_summary: a user id below 1 or an unparsable bound is rejected
      before the store is queried; a missing table or a user id too large to
      bind fails the query with 500; otherwise the response carries the
      aggregates of exactly the user's rows within the inclusive bounds. */
  method GetSummary(store: TransactionStore, userId: int, start: Option<string>, end: Option<string>,
                    parseDate: string -> Option<string>)
    returns (resp: SummaryResponse)
    requires store.Valid()
    ensures userId <= 0 ==> resp == SummaryRejected(400)
    ensures userId > 0 && (IsoBound(start, parseDate).None? || IsoBound(end, parseDate).None?) ==>
              resp == SummaryRejected(400)
    ensures userId > 0 && IsoBound(start, parseDate).Some? && IsoBound(end, parseDate).Some? ==>
              if !store.tableExists || !FitsInt64(userId) then resp == SummaryRejected(500)
              else
                && resp.Summary?
                && resp.userId == userId
                && resp.start == IsoBound(start, parseDate).value
                && resp.end == IsoBound(end, parseDate).value
                && Summarises(store.rows, Matching(store.rows, userId, Bound(resp.start), Bound(resp.end)),
                              Aggregate(resp.count, resp.min, resp.max, resp.mean))
  {
    if userId <= 0 {
      return SummaryRejected(400);
    }
    var startIso: Option<string> := None;
    var endIso: Option<string> := None;
    if start.Some? && start.value != "" {
      var parsed := parseDate(start.value);
      if parsed.None? {
        return SummaryRejected(400);
      }
      startIso := parsed;
    }
    if end.Some? && end.value != "" {
      var parsed := parseDate(end.value);
      if parsed.None? {
        return SummaryRejected(400);
      }
      endIso := parsed;
    }
    var result := store.QuerySummary(userId, startIso, endIso);
    match result {
      case NoSuchTable =>
        resp := SummaryRejected(500);
      case Overflow =>
        resp := SummaryRejected(500);
      case Done(a) =>
        resp := Summary(userId, startIso, endIso, a.count, a.min, a.max, a.avg);
    }
  }
}
