/**
 * The sample of tests/test_api.py on the model: the three sample rows
 * as they are stored, what the summary of user 1 is, and which file
 * names pass the upload's checks.
 */
module Scenario {
  import opened Common
  import opened Db
  import opened Text
  import opened Api

  const TX1: Row := Row("tx1", 1, Some(10), "2024-09-01T12:00:00", 100.0)
  const TX2: Row := Row("tx2", 1, Some(11), "2024-09-02T12:00:00", 50.0)
  const TX3: Row := Row("tx3", 2, Some(12), "2024-09-01T13:00:00", 200.0)

  const SAMPLE: seq<Row> := [TX1, TX2, TX3]

  const SAMPLE_TABLE: Table := map["tx1" := TX1, "tx2" := TX2, "tx3" := TX3]

  /** The sample rows land under their own ids, three of them. */
  lemma SampleLoad()
    ensures InsertAll(map[], SAMPLE) == SAMPLE_TABLE
    ensures |Ids(SAMPLE)| == 3
  {
    assert SAMPLE[..2] == [TX1, TX2] && SAMPLE[..2][..1] == [TX1] && SAMPLE[..2][..1][..0] == [];
    assert InsertAll(map[], [TX1]) == map["tx1" := TX1];
    assert InsertAll(map[], [TX1, TX2]) == map["tx1" := TX1, "tx2" := TX2];
    assert Ids(SAMPLE) == {"tx1", "tx2", "tx3"} by {
      assert SAMPLE[0].transactionId == "tx1";
      assert SAMPLE[1].transactionId == "tx2";
      assert SAMPLE[2].transactionId == "tx3";
    }
  }

  /** User 1 owns tx1 and tx2. */
  lemma SampleUserMatching()
    ensures Matching(SAMPLE_TABLE, 1, None, None) == {"tx1", "tx2"}
  {
  }

  /** tx1 and tx2 together: two rows, 50.0 to 100.0, mean 75.0. */
  lemma SampleUserSummary()
    ensures Summarises(SAMPLE_TABLE, {"tx1", "tx2"}, Aggregate(2, Some(50.0), Some(100.0), Some(75.0)))
  {
    var ks: set<string> := {"tx1", "tx2"};
    SumRemove(SAMPLE_TABLE, ks, "tx1");
    assert ks - {"tx1"} == {"tx2"};
    SumRemove(SAMPLE_TABLE, {"tx2"}, "tx2");
    assert {"tx2"} - {"tx2"} == {};
    assert |ks| == 2;
  }

  /** Whatever summary of user 1 GetSummary returns on the sample table is
      the one the test expects: count 2, min 50.0, max 100.0, mean 75.0. */
  lemma SampleUserResponse(a: Aggregate)
    requires Summarises(SAMPLE_TABLE, Matching(SAMPLE_TABLE, 1, None, None), a)
    ensures a == Aggregate(2, Some(50.0), Some(100.0), Some(75.0))
  {
    SampleUserMatching();
    SampleUserSummary();
    SummarisesUnique(SAMPLE_TABLE, {"tx1", "tx2"}, a, Aggregate(2, Some(50.0), Some(100.0), Some(75.0)));
  }

  const DAY2: string := "2024-09-02T00:00:00"
  const DAY3: string := "2024-09-03T00:00:00"

  /** Of the sample rows, a query selects exactly tx2 when it selects tx2
      but neither tx1 nor tx3. */
  lemma SampleSelectsTx2Only(u: int, lower: Option<string>, upper: Option<string>)
    requires !Selects(TX1, u, lower, upper) && Selects(TX2, u, lower, upper)
    requires !Selects(TX3, u, lower, upper)
    ensures Matching(SAMPLE_TABLE, u, lower, upper) == {"tx2"}
  {
  }

  /** tx1 was stamped before 2024-09-02: the texts first differ at the day. */
  lemma Tx1BeforeDay2()
    ensures !LexLe(DAY2, TX1.timestamp)
  {
    assert DAY2[..9] == TX1.timestamp[..9];
    LexLeFirstDifference(TX1.timestamp, DAY2, 9);
  }

  /** tx2 was stamped at noon of 2024-09-02: the texts first differ at the hour. */
  lemma Day2BeforeTx2()
    ensures LexLe(DAY2, TX2.timestamp)
  {
    assert DAY2[..11] == TX2.timestamp[..11];
    LexLeFirstDifference(DAY2, TX2.timestamp, 11);
  }

  lemma Tx2BeforeDay3()
    ensures LexLe(TX2.timestamp, DAY3)
  {
    assert TX2.timestamp[..9] == DAY3[..9];
    LexLeFirstDifference(TX2.timestamp, DAY3, 9);
  }

  /** From the start of 2024-09-02 to the start of 2024-09-03, user 1 owns
      only tx2: tx1 was stamped the day before. */
  lemma SampleUserRange()
    ensures Matching(SAMPLE_TABLE, 1, Some(DAY2), Some(DAY3)) == {"tx2"}
  {
    Tx1BeforeDay2();
    Day2BeforeTx2();
    Tx2BeforeDay3();
    SampleSelectsTx2Only(1, Some(DAY2), Some(DAY3));
  }

  /** tx2 alone: one row, and min, max and mean all 50.0. */
  lemma SampleTx2Summary()
    ensures Summarises(SAMPLE_TABLE, {"tx2"}, Aggregate(1, Some(50.0), Some(50.0), Some(50.0)))
  {
    SumRemove(SAMPLE_TABLE, {"tx2"}, "tx2");
    assert {"tx2"} - {"tx2"} == {};
  }

  /** Whatever summary GetSummary returns for that range is the one the
      test expects: count 1, and min, max and mean all 50.0. */
  lemma SampleUserRangeResponse(a: Aggregate)
    requires Summarises(SAMPLE_TABLE, Matching(SAMPLE_TABLE, 1, Some(DAY2), Some(DAY3)), a)
    ensures a == Aggregate(1, Some(50.0), Some(50.0), Some(50.0))
  {
    SampleUserRange();
    SampleTx2Summary();
    SummarisesUnique(SAMPLE_TABLE, {"tx2"}, a, Aggregate(1, Some(50.0), Some(50.0), Some(50.0)));
  }

  /** The sample file's name passes the check; "bad.txt" does not. */
  lemma SampleNames()
    ensures IsCsvName("sample.csv") && !IsCsvName("bad.txt")
  {
    IsCsvNameSuffix("sample.csv");
    IsCsvNameSuffix("bad.txt");
  }

  /** A header of exactly the required columns is accepted. */
  lemma SampleHeader()
    ensures HeaderAccepted(Header(REQUIRED_COLUMNS))
  {
  }
}
