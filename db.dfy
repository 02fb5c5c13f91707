/**
 * The transaction store of app/db.py: one SQLite table `transactions` keyed by
 * `transaction_id`, filled by INSERT OR IGNORE batches and queried for
 * COUNT/MIN/MAX/AVG of the amount over one user's rows in a timestamp range.
 *
 * The table is a map from transaction id to row. The file-level plumbing
 * (connection, PRAGMAs, the (user_id, timestamp) index) has no effect on
 * results and is not modelled.
 */
module Db {
  import opened Common
  import opened Text

  /** One row of `transactions`; the fields are the columns in the order of
      the CREATE TABLE and INSERT statements. */
  datatype Row = Row(
    transactionId: string,
    userId: int,
    productId: Option<int>,
    timestamp: string,
    amount: real)

  /** The table's contents, keyed by the primary key `transaction_id`. */
  type Table = map<string, Row>

  /** Every stored row sits under its own transaction id. */
  ghost predicate Keyed(t: Table) {
    forall k :: k in t ==> t[k].transactionId == k
  }

  /** The ids a batch carries. */
  function Ids(batch: seq<Row>): set<string> {
    set i | 0 <= i < |batch| :: batch[i].transactionId
  }

  lemma IdsSnoc(batch: seq<Row>)
    requires batch != []
    ensures Ids(batch) == Ids(batch[..|batch| - 1]) + {batch[|batch| - 1].transactionId}
  {
    var n := |batch| - 1;
    forall x | x in Ids(batch) ensures x in Ids(batch[..n]) + {batch[n].transactionId} {
      var i :| 0 <= i < |batch| && batch[i].transactionId == x;
      if i < n {
        assert batch[..n][i] == batch[i];
      }
    }
    forall x | x in Ids(batch[..n]) ensures x in Ids(batch) {
      var i :| 0 <= i < n && batch[..n][i].transactionId == x;
      assert batch[i] == batch[..n][i];
    }
  }

  /** A batch never carries more distinct ids than rows. */
  lemma {:induction false} IdsBound(batch: seq<Row>)
    ensures |Ids(batch)| <= |batch|
    decreases |batch|
  {
    if batch != [] {
      IdsSnoc(batch);
      IdsBound(batch[..|batch| - 1]);
    }
  }

  // ---------------------------------------------------------------------
  // INSERT OR IGNORE, as a function of the table and the batch
  // ---------------------------------------------------------------------

  /** One execution of `INSERT OR IGNORE`: a row whose key is already
      present is skipped, otherwise it is added under its key. */
  function InsertOrIgnore(t: Table, r: Row): Table {
    if r.transactionId in t then t else t[r.transactionId := r]
  }

  /** `executemany` of that statement: the batch's rows one after another,
      the last one applied to the table the others left. */
  function InsertAll(t: Table, batch: seq<Row>): Table
    decreases |batch|
  {
    if batch == [] then t else InsertOrIgnore(InsertAll(t, batch[..|batch| - 1]), batch[|batch| - 1])
  }

  /** A stored row is never overwritten: every key keeps its row. */
  lemma {:induction false} InsertAllKeepsStored(t: Table, batch: seq<Row>)
    ensures forall k :: k in t ==> k in InsertAll(t, batch) && InsertAll(t, batch)[k] == t[k]
    decreases |batch|
  {
    if batch != [] {
      InsertAllKeepsStored(t, batch[..|batch| - 1]);
    }
  }

  /** After the batch the table holds exactly the old keys and the batch's ids. */
  lemma {:induction false} InsertAllKeys(t: Table, batch: seq<Row>)
    ensures InsertAll(t, batch).Keys == t.Keys + Ids(batch)
    decreases |batch|
  {
    if batch != [] {
      IdsSnoc(batch);
      InsertAllKeys(t, batch[..|batch| - 1]);
    }
  }

  /** Inserting keeps every row under its own id. */
  lemma {:induction false} InsertAllKeyed(t: Table, batch: seq<Row>)
    requires Keyed(t)
    ensures Keyed(InsertAll(t, batch))
    decreases |batch|
  {
    if batch != [] {
      InsertAllKeyed(t, batch[..|batch| - 1]);
    }
  }

  /** Rows are applied in batch order, so for an id that was not stored the
      first row carrying it is the one kept. */
  lemma {:induction false} InsertAllFirstWins(t: Table, batch: seq<Row>, i: nat)
    requires i < |batch|
    requires batch[i].transactionId !in t
    requires forall j :: 0 <= j < i ==> batch[j].transactionId != batch[i].transactionId
    ensures batch[i].transactionId in InsertAll(t, batch)
    ensures InsertAll(t, batch)[batch[i].transactionId] == batch[i]
    decreases |batch|
  {
    var n := |batch| - 1;
    var prefix := batch[..n];
    if i == n {
      InsertAllKeys(t, prefix);
      forall j | 0 <= j < n ensures prefix[j].transactionId != batch[i].transactionId {
        assert prefix[j] == batch[j];
      }
    } else {
      assert prefix[i] == batch[i];
      InsertAllFirstWins(t, prefix, i);
    }
  }

  /** Inserting a + b is inserting a, then b: the table does not depend on
      how a sequence of rows is cut into batches. */
  lemma {:induction false} InsertAllAppend(t: Table, a: seq<Row>, b: seq<Row>)
    ensures InsertAll(t, a + b) == InsertAll(InsertAll(t, a), b)
    decreases |b|
  {
    if b == [] {
      assert a + b == a;
    } else {
      var n := |b| - 1;
      assert (a + b)[..|a + b| - 1] == a + b[..n];
      InsertAllAppend(t, a, b[..n]);
    }
  }

  /** A batch whose ids are all stored changes nothing. */
  lemma {:induction false} InsertAllStoredIds(t: Table, batch: seq<Row>)
    requires Ids(batch) <= t.Keys
    ensures InsertAll(t, batch) == t
    decreases |batch|
  {
    if batch != [] {
      IdsSnoc(batch);
      InsertAllStoredIds(t, batch[..|batch| - 1]);
    }
  }

  /** Idempotence: inserting the same batch again finds no new id and
      leaves the table as it is. */
  lemma InsertAllIdempotent(t: Table, batch: seq<Row>)
    ensures Ids(batch) - InsertAll(t, batch).Keys == {}
    ensures InsertAll(InsertAll(t, batch), batch) == InsertAll(t, batch)
  {
    InsertAllKeys(t, batch);
    InsertAllStoredIds(InsertAll(t, batch), batch);
  }

  /** The table grows by exactly the number of ids of the batch that were not
      stored, which is at most the batch length. */
  lemma InsertAllCount(t: Table, batch: seq<Row>)
    ensures |InsertAll(t, batch)| == |t| + |Ids(batch) - t.Keys|
    ensures |Ids(batch) - t.Keys| <= |batch|
  {
    InsertAllKeys(t, batch);
    var added := Ids(batch) - t.Keys;
    assert InsertAll(t, batch).Keys == t.Keys + added;
    assert t.Keys !! added;
    IdsBound(batch);
    SubsetCardinality(added, Ids(batch));
  }

  lemma {:induction false} SubsetCardinality(a: set<string>, b: set<string>)
    requires a <= b
    ensures |a| <= |b|
    decreases b
  {
    if a != {} {
      var x :| x in a;
      SubsetCardinality(a - {x}, b - {x});
    }
  }

  // ---------------------------------------------------------------------
  // The WHERE clause of query_summary
  // ---------------------------------------------------------------------

  /** A bound as the query sees it: Python treats None and "" alike as
      false, so both mean "no bound". */
  function Bound(s: Option<string>): Option<string> {
    if s.Some? && s.value != "" then s else None
  }

  /** `timestamp >= lower` and `timestamp <= upper` under the BINARY
      collation; an absent bound does not constrain. */
  predicate InRange(ts: string, lower: Option<string>, upper: Option<string>) {
    && (lower.None? || LexLe(lower.value, ts))
    && (upper.None? || LexLe(ts, upper.value))
  }

  /** The WHERE clause: the row is the user's and its timestamp is within the bounds. */
  predicate Selects(r: Row, userId: int, lower: Option<string>, upper: Option<string>) {
    r.userId == userId && InRange(r.timestamp, lower, upper)
  }

  /** The keys of the rows a query for the user between the bounds selects. */
  function Matching(t: Table, userId: int, lower: Option<string>, upper: Option<string>): set<string> {
    set k | k in t && Selects(t[k], userId, lower, upper)
  }

  /** A start after the end (in text order) selects nothing: the query does
      not swap or reject reversed bounds. */
  lemma ReversedBoundsSelectNothing(t: Table, userId: int, start: string, end: string)
    requires !LexLe(start, end)
    ensures Matching(t, userId, Some(start), Some(end)) == {}
  {
    forall k | k in Matching(t, userId, Some(start), Some(end)) ensures false {
      LexLeTransitive(start, t[k].timestamp, end);
    }
  }

  /** `BETWEEN ts AND ts` is inclusive at both ends: it selects exactly the
      user's rows stamped ts. */
  lemma PointRange(t: Table, userId: int, ts: string)
    ensures Matching(t, userId, Some(ts), Some(ts))
         == set k | k in t && t[k].userId == userId && t[k].timestamp == ts
  {
    forall k | k in t && t[k].userId == userId && t[k].timestamp == ts
      ensures k in Matching(t, userId, Some(ts), Some(ts))
    {
      LexLeReflexive(ts);
    }
    forall k | k in Matching(t, userId, Some(ts), Some(ts))
      ensures t[k].timestamp == ts
    {
      LexLeAntisymmetric(ts, t[k].timestamp);
    }
  }

  // ---------------------------------------------------------------------
  // COUNT, MIN, MAX, AVG
  // ---------------------------------------------------------------------

  /** The result row of the aggregate SELECT; SQL NULL is None. */
  datatype Aggregate = Aggregate(count: nat, min: Option<real>, max: Option<real>, avg: Option<real>)

  /** The sum of the amounts of the rows under the keys ks. */
  ghost function Sum(t: Table, ks: set<string>): real
    requires ks <= t.Keys
    decreases ks
  {
    if ks == {} then 0.0 else var k :| k in ks; t[k].amount + Sum(t, ks - {k})
  }

  /** The sum can be taken apart at any key. */
  lemma {:induction false} SumRemove(t: Table, ks: set<string>, k: string)
    requires ks <= t.Keys && k in ks
    ensures Sum(t, ks) == t[k].amount + Sum(t, ks - {k})
    decreases ks
  {
    var j :| j in ks && Sum(t, ks) == t[j].amount + Sum(t, ks - {j});
    if j != k {
      SumRemove(t, ks - {j}, k);
      SumRemove(t, ks - {k}, j);
      assert ks - {j} - {k} == ks - {k} - {j};
    }
  }

  /** n copies of x added up: n * x without a product, so that the sum
      bounds below stay linear. */
  ghost function Times(n: nat, x: real): real {
    if n == 0 then 0.0 else Times(n - 1, x) + x
  }

  lemma {:induction false} TimesIsProduct(n: nat, x: real)
    ensures Times(n, x) == (n as real) * x
  {
    if n > 0 {
      TimesIsProduct(n - 1, x);
      assert (n as real) * x == ((n - 1) as real) * x + x;
    }
  }

  /** Amounts between lo and hi sum to between |ks| * lo and |ks| * hi. */
  lemma {:induction false} SumBetween(t: Table, ks: set<string>, lo: real, hi: real)
    requires ks <= t.Keys
    requires forall k :: k in ks ==> lo <= t[k].amount <= hi
    ensures Times(|ks|, lo) <= Sum(t, ks) <= Times(|ks|, hi)
    decreases ks
  {
    if ks != {} {
      var k :| k in ks;
      var rest := ks - {k};
      SumRemove(t, ks, k);
      SumBetween(t, rest, lo, hi);
      assert |ks| == |rest| + 1;
    }
  }

  ghost predicate IsLeast(t: Table, ks: set<string>, x: real)
    requires ks <= t.Keys
  {
    (exists k :: k in ks && t[k].amount == x) && forall k :: k in ks ==> x <= t[k].amount
  }

  ghost predicate IsGreatest(t: Table, ks: set<string>, x: real)
    requires ks <= t.Keys
  {
    (exists k :: k in ks && t[k].amount == x) && forall k :: k in ks ==> t[k].amount <= x
  }

  /** a is what SQLite's COUNT(*), MIN, MAX and AVG return over the rows
      under ks: with no rows the count is 0 and the other three are NULL. */
  ghost predicate Summarises(t: Table, ks: set<string>, a: Aggregate) {
    && ks <= t.Keys
    && a.count == |ks|
    && (ks == {} ==> a.min.None? && a.max.None? && a.avg.None?)
    && (ks != {} ==>
          && a.min.Some? && a.max.Some? && a.avg.Some?
          && IsLeast(t, ks, a.min.value)
          && IsGreatest(t, ks, a.max.value)
          && a.avg.value == Sum(t, ks) / (|ks| as real))
  }

  /** The mean lies between the minimum and the maximum. */
  lemma SummaryOrdered(t: Table, ks: set<string>, a: Aggregate)
    requires Summarises(t, ks, a) && a.count > 0
    ensures a.min.Some? && a.max.Some? && a.avg.Some?
    ensures a.min.value <= a.avg.value <= a.max.value
  {
    var n := |ks| as real;
    SumBetween(t, ks, a.min.value, a.max.value);
    TimesIsProduct(|ks|, a.min.value);
    TimesIsProduct(|ks|, a.max.value);
    MeanBetween(n, a.min.value, a.max.value, Sum(t, ks));
  }

  lemma MeanBetween(n: real, lo: real, hi: real, s: real)
    requires n > 0.0 && n * lo <= s <= n * hi
    ensures lo <= s / n <= hi
  {
  }

  /** The aggregate is determined by the rows it summarises. */
  lemma SummarisesUnique(t: Table, ks: set<string>, a: Aggregate, b: Aggregate)
    requires Summarises(t, ks, a) && Summarises(t, ks, b)
    ensures a == b
  {
    if ks != {} {
      var i :| i in ks && t[i].amount == a.min.value;
      var j :| j in ks && t[j].amount == b.min.value;
      var p :| p in ks && t[p].amount == a.max.value;
      var q :| q in ks && t[q].amount == b.max.value;
    }
  }

  /** The smaller of a running minimum and x (the first value when there is none yet). */
  function Smaller(m: Option<real>, x: real): real {
    if m.None? || x < m.value then x else m.value
  }

  function Larger(m: Option<real>, x: real): real {
    if m.None? || m.value < x then x else m.value
  }

  lemma LeastAdd(t: Table, done: set<string>, k: string, m: Option<real>)
    requires done <= t.Keys && k in t && k !in done
    requires done == {} <==> m.None?
    requires m.Some? ==> IsLeast(t, done, m.value)
    ensures IsLeast(t, done + {k}, Smaller(m, t[k].amount))
  {
    if m.Some? && t[k].amount >= m.value {
      var w :| w in done && t[w].amount == m.value;
      assert w in done + {k};
    } else {
      assert k in done + {k};
    }
  }

  lemma GreatestAdd(t: Table, done: set<string>, k: string, m: Option<real>)
    requires done <= t.Keys && k in t && k !in done
    requires done == {} <==> m.None?
    requires m.Some? ==> IsGreatest(t, done, m.value)
    ensures IsGreatest(t, done + {k}, Larger(m, t[k].amount))
  {
    if m.Some? && m.value >= t[k].amount {
      var w :| w in done && t[w].amount == m.value;
      assert w in done + {k};
    } else {
      assert k in done + {k};
    }
  }

  /** The running state of the aggregate scan over the keys in done. */
  ghost predicate Running(t: Table, done: set<string>, count: nat, total: real,
                          least: Option<real>, greatest: Option<real>)
  {
    && done <= t.Keys
    && count == |done|
    && total == Sum(t, done)
    && (done == {} <==> least.None?)
    && (done == {} <==> greatest.None?)
    && (least.Some? ==> IsLeast(t, done, least.value))
    && (greatest.Some? ==> IsGreatest(t, done, greatest.value))
  }

  /** Scanning one more row keeps the running state. */
  lemma RunningAdd(t: Table, done: set<string>, k: string, count: nat, total: real,
                   least: Option<real>, greatest: Option<real>)
    requires Running(t, done, count, total, least, greatest)
    requires k in t && k !in done
    ensures Running(t, done + {k}, count + 1, total + t[k].amount,
                    Some(Smaller(least, t[k].amount)), Some(Larger(greatest, t[k].amount)))
  {
    SumRemove(t, done + {k}, k);
    assert done + {k} - {k} == done;
    LeastAdd(t, done, k, least);
    GreatestAdd(t, done, k, greatest);
  }

  /** When the scan has seen every row, count, minimum, maximum and
      total / count are the aggregates. */
  lemma RunningSummarises(t: Table, ks: set<string>, a: Aggregate, total: real)
    requires Running(t, ks, a.count, total, a.min, a.max)
    requires a.avg == if a.count == 0 then None else Some(total / a.count as real)
    ensures Summarises(t, ks, a)
  {
  }

  /** SELECT COUNT(*), MIN, MAX, AVG over the rows under ks: one pass that
      counts, sums and keeps the running minimum and maximum. */
  method SelectAggregates(t: Table, ks: set<string>) returns (a: Aggregate)
    requires ks <= t.Keys
    ensures Summarises(t, ks, a)
  {
    var todo := ks;
    ghost var done: set<string> := {};
    var count := 0;
    var total := 0.0;
    var least: Option<real> := None;
    var greatest: Option<real> := None;
    while todo != {}
      invariant done + todo == ks && done !! todo
      invariant Running(t, done, count, total, least, greatest)
      decreases todo
    {
      var k :| k in todo;
      var x := t[k].amount;
      RunningAdd(t, done, k, count, total, least, greatest);
      total := total + x;
      count := count + 1;
      least := Some(Smaller(least, x));
      greatest := Some(Larger(greatest, x));
      done := done + {k};
      todo := todo - {k};
    }
    var avg := if count == 0 then None else Some(total / count as real);
    a := Aggregate(count, least, greatest, avg);
    RunningSummarises(t, ks, a, total);
  }

  // ---------------------------------------------------------------------
  // The store
  // ---------------------------------------------------------------------

  /** What a statement on the table returns; NoSuchTable is SQLite's
      "no such table" error, raised when init_db has not run yet, and
      Overflow the OverflowError sqlite3 raises when it binds an int that
      does not fit SQLite's 64-bit INTEGER. */
  datatype DbResult<T> = Done(value: T) | NoSuchTable | Overflow

  /** Whether sqlite3 can bind n: a signed 64-bit integer. */
  predicate FitsInt64(n: int) {
    -0x8000_0000_0000_0000 <= n < 0x8000_0000_0000_0000
  }

  /** The database file: whether `transactions` exists, and its rows. */
  class TransactionStore {
    var tableExists: bool
    var rows: Table

    ghost predicate Valid()
      reads this
    {
      Keyed(rows) && (!tableExists ==> rows == map[])
    }

    /** A database file in which init_db has not run. */
    constructor ()
      ensures Valid() && !tableExists && rows == map[]
    {
      tableExists := false;
      rows := map[];
    }

    /** init_db(replace): DROP TABLE IF EXISTS when replacing, then CREATE
        TABLE IF NOT EXISTS; without replace the stored rows stay. */
    method InitDb(replace: bool)
      requires Valid()
      modifies this
      ensures Valid() && tableExists
      ensures replace ==> rows == map[]
      ensures !replace ==> rows == old(rows)
    {
      if replace {
        tableExists := false;
        rows := map[];
      }
      if !tableExists {
        tableExists := true;
        rows := map[];
      }
    }

    /** insert_many: INSERT OR IGNORE of every row in batch order; the result
        is the cursor's rowcount, the number of rows newly inserted. */
    method InsertMany(batch: seq<Row>) returns (r: DbResult<nat>)
      requires Valid()
      modifies this
      ensures Valid() && tableExists == old(tableExists)
      ensures !tableExists ==> r == NoSuchTable && rows == old(rows)
      ensures tableExists ==> rows == InsertAll(old(rows), batch)
      ensures tableExists ==> r == Done(|Ids(batch) - old(rows).Keys|)
      ensures tableExists ==> |rows| == |old(rows)| + r.value
    {
      if !tableExists {
        return NoSuchTable;
      }
      ghost var before := rows;
      var inserted := 0;
      var i := 0;
      while i < |batch|
        invariant 0 <= i <= |batch|
        invariant tableExists
        invariant rows == InsertAll(before, batch[..i])
        invariant |rows| == |before| + inserted
      {
        var row := batch[i];
        if row.transactionId !in rows {
          rows := rows[row.transactionId := row];
          inserted := inserted + 1;
        }
        assert batch[..i + 1][..i] == batch[..i];
        i := i + 1;
      }
      assert rows == InsertAll(before, batch) by {
        assert batch[..i] == batch;
      }
      InsertAllKeyed(before, batch);
      InsertAllCount(before, batch);
      return Done(inserted);
    }

    /** query_summary: the WHERE clause is built from the bounds as the source
        builds its `where` string, then COUNT/MIN/MAX/AVG run over the rows it
        selects. The store is not changed. */
    method QuerySummary(userId: int, start: Option<string>, end: Option<string>)
      returns (r: DbResult<Aggregate>)
      requires Valid()
      ensures !tableExists ==> r == NoSuchTable
      ensures tableExists && !FitsInt64(userId) ==> r == Overflow
      ensures tableExists && FitsInt64(userId) ==> r.Done?
      ensures tableExists && FitsInt64(userId) ==>
                Summarises(rows, Matching(rows, userId, Bound(start), Bound(end)), r.value)
    {
      if !tableExists {
        return NoSuchTable;
      }
      if !FitsInt64(userId) {
        return Overflow;
      }
      var lower: Option<string> := None;
      var upper: Option<string> := None;
      if start.Some? && start.value != "" && end.Some? && end.value != "" {
        lower, upper := start, end;
      } else if start.Some? && start.value != "" {
        lower := start;
      } else if end.Some? && end.value != "" {
        upper := end;
      }
      assert lower == Bound(start) && upper == Bound(end);
      var a := SelectAggregates(rows, Matching(rows, userId, lower, upper));
      return Done(a);
    }
  }
}
