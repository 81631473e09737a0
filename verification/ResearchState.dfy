/**
 * The durable run record of tx_trade/research/sqlite_repository.py: a batch is
 * committed in one transaction that compares and advances the state version,
 * and the outbox is read back in output order.
 */
module ResearchState {
  import opened Wrappers
  import opened PaperReplay

  datatype RecordKind = MarketRecord | PaperRecord | SummaryRecord

  datatype OutboxRecord = OutboxRecord(
    outputSequence: nat, kind: RecordKind, source: Option<nat>, paperSequence: Option<nat>, payload: Bytes)

  datatype Batch = Batch(
    expectedVersion: nat, expectedPrevious: Option<nat>, source: nat, decision: Option<Decision>,
    checkpoint: Memory, records: seq<OutboxRecord>)

  /** A row of research_runs with its batches and outbox rows; rows stand in insertion order. */
  datatype RunRow = RunRow(
    complete: bool, version: nat, cursor: Option<nat>, batches: map<nat, Batch>, checkpoint: Memory,
    rows: seq<OutboxRecord>)

  datatype CommitResult = Applied(run: RunRow) | Repeated | Conflict

  predicate SequenceTaken(rows: seq<OutboxRecord>, sequence: nat) {
    exists r :: r in rows && r.outputSequence == sequence
  }

  /** Inserting rows one by one under the primary key on the output sequence. */
  function InsertRows(rows: seq<OutboxRecord>, more: seq<OutboxRecord>): Option<seq<OutboxRecord>>
    decreases |more|
  {
    if more == [] then Some(rows)
    else if SequenceTaken(rows, more[0].outputSequence) then None
    else InsertRows(rows + [more[0]], more[1..])
  }

  predicate InRange(envelopes: seq<Envelope>, cursor: Option<nat>, source: nat)
    requires envelopes != []
  {
    && (match cursor case Some(c) => source > c case None => source >= envelopes[0].sequence)
    && source <= envelopes[|envelopes| - 1].sequence
  }

  function CommitBatch(envelopes: seq<Envelope>, run: RunRow, b: Batch): CommitResult
    requires envelopes != []
  {
    if b.source in run.batches then (if run.batches[b.source] == b then Repeated else Conflict)
    else if run.complete || run.version != b.expectedVersion || run.cursor != b.expectedPrevious
            || !InRange(envelopes, run.cursor, b.source)
    then Conflict
    else match InsertRows(run.rows, b.records)
      case None => Conflict
      case Some(rows) =>
        Applied(RunRow(false, run.version + 1, Some(b.source), run.batches[b.source := b], b.checkpoint, rows))
  }

  // ---- Reading the outbox ------------------------------------------------------------------

  predicate Sorted(rows: seq<OutboxRecord>) {
    forall i, j :: 0 <= i < j < |rows| ==> rows[i].outputSequence < rows[j].outputSequence
  }

  function InsertSorted(rows: seq<OutboxRecord>, r: OutboxRecord): seq<OutboxRecord> {
    if rows == [] then [r]
    else if r.outputSequence <= rows[0].outputSequence then [r] + rows
    else [rows[0]] + InsertSorted(rows[1..], r)
  }

  /** `ORDER BY output_sequence`. */
  function OrderRows(rows: seq<OutboxRecord>): seq<OutboxRecord> {
    if rows == [] then [] else InsertSorted(OrderRows(rows[..|rows| - 1]), rows[|rows| - 1])
  }

  lemma {:induction false} InsertSortedKeeps(rows: seq<OutboxRecord>, r: OutboxRecord)
    ensures multiset(InsertSorted(rows, r)) == multiset(rows) + multiset{r}
    ensures Sorted(rows) && !SequenceTaken(rows, r.outputSequence) ==> Sorted(InsertSorted(rows, r))
  {
    if rows != [] && r.outputSequence > rows[0].outputSequence {
      assert rows == [rows[0]] + rows[1..];
      InsertSortedKeeps(rows[1..], r);
      if Sorted(rows) && !SequenceTaken(rows, r.outputSequence) {
        assert !SequenceTaken(rows[1..], r.outputSequence);
        SortedFront(rows[0], InsertSorted(rows[1..], r), rows[1..], r);
      }
    } else if Sorted(rows) && !SequenceTaken(rows, r.outputSequence) {
      assert rows != [] ==> rows[0] in rows;
    }
  }

  lemma SortedFront(first: OutboxRecord, rest: seq<OutboxRecord>, old_: seq<OutboxRecord>, r: OutboxRecord)
    requires Sorted(rest) && multiset(rest) == multiset(old_) + multiset{r}
    requires first.outputSequence < r.outputSequence && forall x :: x in old_ ==> first.outputSequence < x.outputSequence
    ensures Sorted([first] + rest)
  {
    forall x | x in rest ensures first.outputSequence < x.outputSequence {
      assert x in multiset(rest);
    }
  }

  predicate DistinctSequences(rows: seq<OutboxRecord>) {
    forall i, j :: 0 <= i < j < |rows| ==> rows[i].outputSequence != rows[j].outputSequence
  }

  lemma {:induction false} OrderRowsSorts(rows: seq<OutboxRecord>)
    requires DistinctSequences(rows)
    ensures Sorted(OrderRows(rows)) && multiset(OrderRows(rows)) == multiset(rows)
  {
    if rows != [] {
      var n := |rows| - 1;
      OrderRowsSorts(rows[..n]);
      assert rows == rows[..n] + [rows[n]];
      forall x | x in OrderRows(rows[..n]) ensures x.outputSequence != rows[n].outputSequence {
        assert x in multiset(rows[..n]);
      }
      InsertSortedKeeps(OrderRows(rows[..n]), rows[n]);
    }
  }

  lemma TailCounts(s: seq<OutboxRecord>)
    requires s != []
    ensures multiset(s[1..]) == multiset(s) - multiset{s[0]}
  {
    assert s == [s[0]] + s[1..];
  }

  lemma SameFirstRow(a: seq<OutboxRecord>, b: seq<OutboxRecord>)
    requires Sorted(a) && Sorted(b) && a != [] && b != [] && multiset(a) == multiset(b)
    ensures a[0] == b[0]
  {
    assert a[0] in multiset(b) && b[0] in multiset(a);
    var i :| 0 <= i < |b| && b[i] == a[0];
    var j :| 0 <= j < |a| && a[j] == b[0];
  }

  /** Rows in output order are determined by which rows there are. */
  lemma {:induction false} SortedIsUnique(a: seq<OutboxRecord>, b: seq<OutboxRecord>)
    requires Sorted(a) && Sorted(b) && multiset(a) == multiset(b)
    ensures a == b
  {
    assert |a| == |multiset(a)| && |b| == |multiset(b)|;
    if a != [] {
      SameFirstRow(a, b);
      TailCounts(a);
      TailCounts(b);
      SortedIsUnique(a[1..], b[1..]);
      assert a == [a[0]] + a[1..] && b == [b[0]] + b[1..];
    }
  }

  /** The stored sequences are 0, 1, 2, ... and no market record follows a paper record. */
  predicate WellLaidOut(rows: seq<OutboxRecord>) {
    && (forall i :: 0 <= i < |rows| ==> rows[i].outputSequence == i)
    && (forall i :: 0 <= i < |rows| - 1 ==> !(rows[i].kind.PaperRecord? && rows[i + 1].kind.MarketRecord?))
  }

  function CompleteRun(envelopes: seq<Envelope>, run: RunRow, expectedVersion: nat, expectedPrevious: nat, summary: OutboxRecord): Option<RunRow>
    requires envelopes != []
  {
    var ordered := OrderRows(run.rows);
    if run.complete || run.version != expectedVersion || run.cursor != Some(expectedPrevious)
       || run.cursor != Some(envelopes[|envelopes| - 1].sequence) || |run.batches| != |envelopes|
    then None
    else if ordered == [] || !WellLaidOut(ordered) || summary.outputSequence != |ordered|
            || exists r :: r in ordered && r.kind.SummaryRecord?
    then None
    else Some(run.(complete := true, version := run.version + 1, rows := run.rows + [summary]))
  }

  function ReadOutbox(run: RunRow): Option<seq<OutboxRecord>> {
    var ordered := OrderRows(run.rows);
    if !run.complete then None
    else if ordered == [] || !WellLaidOut(ordered) || !ordered[|ordered| - 1].kind.SummaryRecord?
            || exists i :: 0 <= i < |ordered| - 1 && ordered[i].kind.SummaryRecord?
    then None
    else Some(ordered)
  }
}
