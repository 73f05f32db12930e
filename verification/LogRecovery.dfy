// From a log file's bytes to a memtable: what is replayed from a log that was cut anywhere.

module LogRecovery {
  import opened Keys
  import opened Coding
  import opened Logs
  import opened WriteBatches
  import opened CommitProtocol

  datatype LogReplay = LogReplay(entries: seq<Entry>, maxSequence: SequenceNumber, status: Status)

  const NOTHING: LogReplay := LogReplay([], 0, OK)

  /** A record too short for a batch is only reported; a bad batch counts as far as it goes, unless
      checks are paranoid. */
  function AddRecord(sofar: LogReplay, record: Bytes, paranoid: bool): LogReplay {
    if |record| < HEADER then
      sofar.(status := if paranoid then Corruption("log record too small") else OK)
    else
      var first := FixedValue(record[..8]);
      var r := Iterated(record);
      var entries := sofar.entries + EntriesOf(r.ops, first);
      if paranoid && !r.status.OK? then LogReplay(entries, sofar.maxSequence, r.status)
      else
        var last := (first + Signed(FixedValue(record[8..12])) - 1) % TWO_64;
        LogReplay(entries, if last > sofar.maxSequence then last else sofar.maxSequence, OK)
  }

  function ReplayRecords(records: seq<Bytes>, paranoid: bool): LogReplay {
    if records == [] then NOTHING
    else
      var sofar := ReplayRecords(records[..|records| - 1], paranoid);
      if sofar.status.OK? then AddRecord(sofar, records[|records| - 1], paranoid) else sofar
  }

  /** A bad record earlier on ends the replay for good. */
  lemma {:induction false} StoppedStays(records: seq<Bytes>, n: nat, paranoid: bool)
    requires n <= |records| && !ReplayRecords(records[..n], paranoid).status.OK?
    ensures ReplayRecords(records, paranoid) == ReplayRecords(records[..n], paranoid)
    decreases |records|
  {
    if n < |records| {
      var fewer := records[..|records| - 1];
      assert fewer[..n] == records[..n];
      StoppedStays(fewer, n, paranoid);
    } else {
      assert records[..n] == records;
    }
  }

  /** The loop over one log file.  With paranoid checks a reported corruption ends it with an error. */
  method RecoverLogFile(crc: Checksum, file: Bytes, paranoid: bool) returns (r: LogReplay)
    ensures var all := ReadAll(crc, true, file, 0);
            && (!paranoid || all.reports == [] ==> r == ReplayRecords(all.records, paranoid))
            && (paranoid && all.reports != [] ==> !r.status.OK?)
  {
    hide NextRecord, NextPiece, AddRecord;
    var reader := new Reader(crc, true, file);
    ghost var all := ReadAll(crc, true, file, 0);
    ghost var records: seq<Bytes> := [];
    r := NOTHING;
    ReadMore(crc, true, file, 0, [], []);
    while true
      invariant reader.Valid() && reader.crc == crc && reader.checksum && reader.file == file
      invariant 0 <= reader.Pos() <= |file|
      invariant all == Then(Reading(records, reader.reports), ReadAll(crc, true, file, reader.Pos()))
      invariant r == ReplayRecords(records, paranoid) && r.status.OK?
      invariant paranoid ==> reader.reports == []
      decreases |file| - reader.Pos()
    {
      ghost var pos, reports := reader.Pos(), reader.reports;
      ReadMore(crc, true, file, pos, records, reports);
      var ok, record := reader.ReadRecord();
      if paranoid && reader.reports != [] {
        r := r.(status := Corruption("log corruption"));
        return;
      }
      if !ok {
        return;
      }
      r := AddRecord(r, record, paranoid);
      assert (records + [record])[..|records|] == records;
      records := records + [record];
      if !r.status.OK? {
        StoppedReplay(all, records, reader.reports, ReadAll(crc, true, file, reader.Pos()), paranoid);
        return;
      }
    }
  }

  lemma {:induction false} StoppedReplay(all: Reading, records: seq<Bytes>, reports: seq<Report>, rest: Reading, paranoid: bool)
    requires all == Then(Reading(records, reports), rest)
    requires !ReplayRecords(records, paranoid).status.OK?
    ensures ReplayRecords(all.records, paranoid) == ReplayRecords(records, paranoid)
  {
    assert all.records[..|records|] == records;
    StoppedStays(all.records, |records|, paranoid);
  }

  // ----- the groups that were written come back -----

  ghost predicate GoodRecord(record: Record) {
    && 0 < |record.ops| < TWO_31 && AllFit(record.ops)
    && 0 < record.first && record.first + |record.ops| <= MAX_SEQUENCE_NUMBER
  }

  /** A group as it is handed to the log writer. */
  function Rep(record: Record): Bytes {
    Fixed(record.first, 8) + Fixed(|record.ops|, 4) + EncodeOps(record.ops)
  }

  function Reps(records: seq<Record>): (r: seq<Bytes>)
    ensures |r| == |records|
  {
    if records == [] then [] else Reps(records[..|records| - 1]) + [Rep(records[|records| - 1])]
  }

  function Entries(records: seq<Record>): seq<Entry> {
    if records == [] then []
    else Entries(records[..|records| - 1]) + EntriesOf(records[|records| - 1].ops, records[|records| - 1].first)
  }

  lemma {:induction false} RepReplays(record: Record, sofar: LogReplay, paranoid: bool)
    requires GoodRecord(record)
    ensures var last := record.first + |record.ops| - 1;
            AddRecord(sofar, Rep(record), paranoid)
            == LogReplay(sofar.entries + EntriesOf(record.ops, record.first),
                         if last > sofar.maxSequence then last else sofar.maxSequence, OK)
  {
    hide EncodeOps, EntriesOf, Fixed, FixedValue, Replay, AllFit, Pow256;
    var rep, n := Rep(record), |record.ops|;
    FixedRoundTrip(record.first, 8);
    FixedRoundTrip(n, 4);
    Pow256Values();
    assert rep[..8] == Fixed(record.first, 8);
    assert rep[8..12] == Fixed(n, 4);
    assert rep[HEADER..] == EncodeOps(record.ops) == EncodeOps(record.ops) + [];
    OpsReplay(record.ops, []);
    ReplayNothing();
    assert record.ops + [] == record.ops;
  }

  lemma {:induction false} ReplayNothing()
    ensures Replay([]) == Replayed([], OK)
  {
  }

  function LastOf(record: Record): SequenceNumber {
    if record.ops == [] then record.first else record.first + |record.ops| - 1
  }

  /** Replaying whole groups gives their entries in order, and the last sequence number of the last. */
  lemma {:induction false} GroupsReplay(records: seq<Record>, paranoid: bool)
    requires forall i :: 0 <= i < |records| ==> GoodRecord(records[i])
    requires forall i, j :: 0 <= i < j < |records| ==> records[i].first + |records[i].ops| <= records[j].first
    ensures ReplayRecords(Reps(records), paranoid)
            == LogReplay(Entries(records),
                         if records == [] then 0 else LastOf(records[|records| - 1]), OK)
  {
    hide Rep, AddRecord, GoodRecord;
    if records != [] {
      var n := |records| - 1;
      GroupsReplay(records[..n], paranoid);
      GoodBounds(records[n]);
      RepReplays(records[n], ReplayRecords(Reps(records[..n]), paranoid), paranoid);
      assert Reps(records)[..n] == Reps(records[..n]);
    }
  }

  lemma {:induction false} GoodBounds(record: Record)
    requires GoodRecord(record)
    ensures |record.ops| > 0
  {
  }

  /** A log cut anywhere gives back exactly the groups that were written whole before the cut, each of
      them entirely, and no error. */
  lemma {:induction false} CutLogRecovers(crc: Checksum, records: seq<Record>, n: nat, paranoid: bool)
    requires forall i :: 0 <= i < |records| ==> GoodRecord(records[i])
    requires forall i, j :: 0 <= i < j < |records| ==> records[i].first + |records[i].ops| <= records[j].first
    requires n <= |Log(crc, 0, Reps(records))|
    ensures var k := WholeRecords(crc, 0, Reps(records), n);
            var all := ReadAll(crc, true, Log(crc, 0, Reps(records))[..n], 0);
            all.reports == [] && ReplayRecords(all.records, paranoid).entries == Entries(records[..k])
            && ReplayRecords(all.records, paranoid).status.OK?
  {
    hide Log, ReadAll, GoodRecord, Rep, AddRecord, ReplayRecords, Reps;
    CutLogReads(crc, true, Reps(records), n);
    var k := WholeRecords(crc, 0, Reps(records), n);
    RepsOfPrefix(records, k);
    GroupsReplay(records[..k], paranoid);
  }

  lemma {:induction false} RepsOfPrefix(records: seq<Record>, k: nat)
    requires k <= |records|
    ensures Reps(records)[..k] == Reps(records[..k])
    decreases |records|
  {
    hide Rep;
    if k < |records| {
      var fewer := records[..|records| - 1];
      RepsOfPrefix(fewer, k);
      assert fewer[..k] == records[..k];
    } else {
      assert records[..k] == records;
    }
  }
}
