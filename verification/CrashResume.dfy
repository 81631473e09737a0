/**
 * Crash and resume in tx_trade/app/research_paper.py: the process may die at
 * any point between two atomic commits, any number of times, and the outbox
 * that is finally read back is the output of an uninterrupted run.
 */
module CrashResume {
  import opened Wrappers
  import opened Sums
  import opened PaperReplay
  import opened ResearchState

  // ---- Rows ----------------------------------------------------------------------------

  function MarketRow(sys: System, envelopes: seq<Envelope>, ordinal: nat): OutboxRecord
    requires ordinal < |envelopes|
  {
    OutboxRecord(ordinal, MarketRecord, Some(envelopes[ordinal].sequence), None, sys.encodeMarket(envelopes[ordinal]))
  }

  /** Paper rows are laid out behind all market rows, by paper sequence. */
  function PaperRow(count: nat, e: PaperEvent, line: Bytes): OutboxRecord
    requires e.paperSequence >= 1
  {
    OutboxRecord(count + e.paperSequence - 1, PaperRecord, Some(e.source), Some(e.paperSequence), line)
  }

  function PaperRows(count: nat, events: seq<PaperEvent>, lines: seq<Bytes>): (rows: seq<OutboxRecord>)
    requires |events| == |lines| && forall e :: e in events ==> e.paperSequence >= 1
    ensures |rows| == |events|
  {
    seq(|events|, i requires 0 <= i < |events| => PaperRow(count, events[i], lines[i]))
  }

  function SummaryRow(sys: System, envelopes: seq<Envelope>, m: Memory): OutboxRecord {
    OutboxRecord(|envelopes| + |m.events|, SummaryRecord, None, None, SummaryLine(sys, envelopes, m))
  }

  /** What one durable publish writes: the market row and a row for each new event, with the decision just made. */
  function NewRows(sys: System, envelopes: seq<Envelope>, ordinal: nat, before: Memory): (rows: seq<OutboxRecord>)
    requires ordinal < |envelopes|
    ensures rows != []
  {
    var e := envelopes[ordinal];
    var after := PublishTo(sys, before, e);
    var added := NewEvents(|before.events|, e.sequence, sys.react(before.broker, e).bodies);
    var decision := FirstDecision(after.decisions, e.sequence);
    [MarketRow(sys, envelopes, ordinal)]
    + PaperRows(|envelopes|, added, seq(|added|, i requires 0 <= i < |added| => sys.encodePaper(added[i], decision)))
  }

  function Payloads(rows: seq<OutboxRecord>): (lines: seq<Bytes>)
    ensures |lines| == |rows|
  {
    seq(|rows|, i requires 0 <= i < |rows| => rows[i].payload)
  }

  // ---- The process ----------------------------------------------------------------------

  /** The memory of a running process: broker and coordinator, and the fields of the durable sink. */
  datatype Process = Process(memory: Memory, version: nat, cursor: Option<nat>, bytes: nat)

  datatype World = World(run: RunRow, process: Option<Process>)

  /** Where a process may die within an operation that commits. */
  datatype Crash = NoCrash | BeforeCommit | AfterCommit

  datatype Step = Resume | Publish(crash: Crash) | Finish(crash: Crash) | Die

  /** `_durable_prefix_bytes`: the bytes already committed, recomputed from the checkpoint. */
  function PrefixBytes(sys: System, envelopes: seq<Envelope>, cursor: Option<nat>, m: Memory): nat {
    if cursor.None? then 0
    else Total(MarketLines(sys, UpTo(envelopes, cursor.value))) + Total(PaperLinesOf(sys, m))
  }

  /** The envelopes at or below the cursor. */
  function UpTo(envelopes: seq<Envelope>, cursor: nat): seq<Envelope> {
    if envelopes == [] then []
    else UpTo(envelopes[..|envelopes| - 1], cursor)
         + if envelopes[|envelopes| - 1].sequence <= cursor then [envelopes[|envelopes| - 1]] else []
  }

  /** The envelope a replay continues with. */
  function NextOrdinal(envelopes: seq<Envelope>, cursor: Option<nat>): nat {
    match cursor
    case Some(c) => |UpTo(envelopes, c)|
    case None => 0
  }

  function Created(sys: System): RunRow {
    RunRow(false, 0, None, map[], Fresh(sys), [])
  }

  function Load(sys: System, envelopes: seq<Envelope>, run: RunRow): Option<Process> {
    if run.complete || Total(MarketLines(sys, envelopes)) > sys.limit
       || PrefixBytes(sys, envelopes, run.cursor, run.checkpoint) > sys.limit
    then None
    else Some(Process(run.checkpoint, run.version, run.cursor, PrefixBytes(sys, envelopes, run.cursor, run.checkpoint)))
  }

  function BatchOf(sys: System, envelopes: seq<Envelope>, p: Process, ordinal: nat): Batch
    requires ordinal < |envelopes|
  {
    var after := PublishTo(sys, p.memory, envelopes[ordinal]);
    Batch(p.version, p.cursor, envelopes[ordinal].sequence, FirstDecision(after.decisions, envelopes[ordinal].sequence), after,
          NewRows(sys, envelopes, ordinal, p.memory))
  }

  /** `_DurableCoordinatorSink.publish` on one envelope; a raising or dying process is gone. */
  function PublishAt(sys: System, envelopes: seq<Envelope>, run: RunRow, p: Process, ordinal: nat, crash: Crash): World
    requires ordinal < |envelopes|
  {
    var batch := BatchOf(sys, envelopes, p, ordinal);
    var added := Total(Payloads(batch.records));
    if p.bytes + added > sys.limit || crash.BeforeCommit? then World(run, None)
    else match CommitBatch(envelopes, run, batch)
      case Applied(committed) => World(committed, Published(committed, batch, p.bytes + added, crash))
      case Repeated => World(run, Published(run, batch, p.bytes + added, crash))
      case Conflict => World(run, None)
  }

  function Published(run: RunRow, batch: Batch, bytes: nat, crash: Crash): Option<Process> {
    if crash.AfterCommit? then None else Some(Process(batch.checkpoint, run.version, run.cursor, bytes))
  }

  /** The replay hands over the first envelope after the cursor, while there is one. */
  function PublishNext(sys: System, envelopes: seq<Envelope>, run: RunRow, p: Process, crash: Crash): World {
    var ordinal := NextOrdinal(envelopes, p.cursor);
    if ordinal < |envelopes| then PublishAt(sys, envelopes, run, p, ordinal, crash) else World(run, Some(p))
  }

  function FinishRun(sys: System, envelopes: seq<Envelope>, run: RunRow, p: Process, crash: Crash): World
    requires envelopes != []
  {
    var summary := SummaryRow(sys, envelopes, p.memory);
    var last := envelopes[|envelopes| - 1].sequence;
    if p.cursor != Some(last) || p.bytes + |summary.payload| > sys.limit || crash.BeforeCommit? then World(run, None)
    else match CompleteRun(envelopes, run, p.version, last, summary)
      case Some(completed) => World(completed, None)
      case None => World(run, None)
  }

  function Advance(sys: System, envelopes: seq<Envelope>, w: World, s: Step): World
    requires envelopes != []
  {
    match s
    case Resume => World(w.run, Load(sys, envelopes, w.run))
    case Publish(crash) => if w.process.None? then w else PublishNext(sys, envelopes, w.run, w.process.value, crash)
    case Finish(crash) => if w.process.None? then w else FinishRun(sys, envelopes, w.run, w.process.value, crash)
    case Die => World(w.run, None)
  }

  function After(sys: System, envelopes: seq<Envelope>, steps: seq<Step>): World
    requires envelopes != []
  {
    if steps == [] then World(Created(sys), None)
    else Advance(sys, envelopes, After(sys, envelopes, steps[..|steps| - 1]), steps[|steps| - 1])
  }

  // ---- The rows after some commits ---------------------------------------------------------

  /** The rows in the order in which they are committed. */
  function Inserted(sys: System, envelopes: seq<Envelope>, n: nat): seq<OutboxRecord>
    requires n <= |envelopes|
  {
    if n == 0 then []
    else Inserted(sys, envelopes, n - 1) + NewRows(sys, envelopes, n - 1, Play(sys, envelopes[..n - 1]))
  }

  function MarketRows(sys: System, envelopes: seq<Envelope>, n: nat): (rows: seq<OutboxRecord>)
    requires n <= |envelopes|
    ensures |rows| == n
  {
    seq(n, i requires 0 <= i < n => MarketRow(sys, envelopes, i))
  }

  predicate Numbered(events: seq<PaperEvent>) {
    forall i :: 0 <= i < |events| ==> events[i].paperSequence == i + 1
  }

  /** The same rows in output order. */
  function Laid(sys: System, envelopes: seq<Envelope>, n: nat, m: Memory): (rows: seq<OutboxRecord>)
    requires n <= |envelopes| && Numbered(m.events)
    ensures |rows| == n + |m.events|
  {
    MarketRows(sys, envelopes, n) + PaperRows(|envelopes|, m.events, PaperLinesOf(sys, m))
  }

  lemma LaidIsSorted(sys: System, envelopes: seq<Envelope>, n: nat, m: Memory)
    requires n <= |envelopes| && Numbered(m.events)
    ensures Sorted(Laid(sys, envelopes, n, m))
  {
  }

  /** The rows of one publish carry exactly the lines the output will have. */
  lemma NewRowsAreLines(sys: System, envelopes: seq<Envelope>, n: nat)
    requires n < |envelopes| && Ordered(envelopes)
    ensures var before, after := Play(sys, envelopes[..n]), Play(sys, envelopes[..n + 1]);
            var added := NewEvents(|before.events|, envelopes[n].sequence, sys.react(before.broker, envelopes[n]).bodies);
            && after == PublishTo(sys, before, envelopes[n])
            && after.events == before.events + added
            && PaperLinesOf(sys, after) == PaperLinesOf(sys, before) + PaperLines(sys, added, DecisionMap(after.decisions))
            && NewRows(sys, envelopes, n, before)
               == [MarketRow(sys, envelopes, n)] + PaperRows(|envelopes|, added, PaperLines(sys, added, DecisionMap(after.decisions)))
  {
    var prefix := envelopes[..n + 1];
    assert prefix[..n] == envelopes[..n] && prefix[n] == envelopes[n];
    PlayExtends(sys, prefix);
    SameDecision(sys, prefix);
    var before, after := Play(sys, envelopes[..n]), Play(sys, prefix);
    var added := NewEvents(|before.events|, envelopes[n].sequence, sys.react(before.broker, envelopes[n]).bodies);
    var decision := FirstDecision(after.decisions, envelopes[n].sequence);
    assert seq(|added|, i requires 0 <= i < |added| => sys.encodePaper(added[i], decision))
        == PaperLines(sys, added, DecisionMap(after.decisions));
  }

  lemma PaperRowsConcat(count: nat, a: seq<PaperEvent>, b: seq<PaperEvent>, x: seq<Bytes>, y: seq<Bytes>)
    requires |a| == |x| && |b| == |y|
    requires (forall e :: e in a ==> e.paperSequence >= 1) && (forall e :: e in b ==> e.paperSequence >= 1)
    requires forall e :: e in a + b ==> e.paperSequence >= 1
    ensures PaperRows(count, a + b, x + y) == PaperRows(count, a, x) + PaperRows(count, b, y)
  {
  }

  lemma NumberedPlay(sys: System, envelopes: seq<Envelope>)
    ensures Numbered(Play(sys, envelopes).events)
  {
    EventsAreNumbered(sys, envelopes);
  }

  /** However the commits interleave market and paper rows, they are the laid-out rows. */
  lemma {:induction false} InsertedIsLaid(sys: System, envelopes: seq<Envelope>, n: nat)
    requires n <= |envelopes| && Ordered(envelopes)
    ensures Numbered(Play(sys, envelopes[..n]).events)
    ensures multiset(Inserted(sys, envelopes, n)) == multiset(Laid(sys, envelopes, n, Play(sys, envelopes[..n])))
  {
    NumberedPlay(sys, envelopes[..n]);
    if n > 0 {
      InsertedIsLaid(sys, envelopes, n - 1);
      LaidGrows(sys, envelopes, n - 1);
    }
  }

  lemma LaidGrows(sys: System, envelopes: seq<Envelope>, n: nat)
    requires n < |envelopes| && Ordered(envelopes)
    requires Numbered(Play(sys, envelopes[..n]).events) && Numbered(Play(sys, envelopes[..n + 1]).events)
    ensures multiset(Laid(sys, envelopes, n + 1, Play(sys, envelopes[..n + 1])))
            == multiset(Laid(sys, envelopes, n, Play(sys, envelopes[..n])))
               + multiset(NewRows(sys, envelopes, n, Play(sys, envelopes[..n])))
  {
    var before, after := Play(sys, envelopes[..n]), Play(sys, envelopes[..n + 1]);
    NewRowsAreLines(sys, envelopes, n);
    var added := NewEvents(|before.events|, envelopes[n].sequence, sys.react(before.broker, envelopes[n]).bodies);
    var lines := PaperLines(sys, added, DecisionMap(after.decisions));
    PaperRowsConcat(|envelopes|, before.events, added, PaperLinesOf(sys, before), lines);
    OneMoreMarketRow(sys, envelopes, n);
    SameRows(MarketRows(sys, envelopes, n), [MarketRow(sys, envelopes, n)],
             PaperRows(|envelopes|, before.events, PaperLinesOf(sys, before)), PaperRows(|envelopes|, added, lines));
  }

  lemma OneMoreMarketRow(sys: System, envelopes: seq<Envelope>, n: nat)
    requires n < |envelopes|
    ensures MarketRows(sys, envelopes, n + 1) == MarketRows(sys, envelopes, n) + [MarketRow(sys, envelopes, n)]
  {
  }

  lemma SameRows(a: seq<OutboxRecord>, b: seq<OutboxRecord>, c: seq<OutboxRecord>, d: seq<OutboxRecord>)
    ensures multiset((a + b) + (c + d)) == multiset(a + c) + multiset(b + d)
  {
  }

  // ---- Bytes ----------------------------------------------------------------------------------

  lemma PayloadsConcat(a: seq<OutboxRecord>, b: seq<OutboxRecord>)
    ensures Payloads(a + b) == Payloads(a) + Payloads(b)
  {
  }

  lemma {:induction false} UpToCursor(envelopes: seq<Envelope>, n: nat)
    requires Ordered(envelopes) && n < |envelopes|
    ensures UpTo(envelopes, envelopes[n].sequence) == envelopes[..n + 1]
  {
    var last := |envelopes| - 1;
    if n < last {
      UpToCursor(envelopes[..last], n);
      assert envelopes[..last][..n + 1] == envelopes[..n + 1];
    } else {
      AllUpTo(envelopes, envelopes[n].sequence);
    }
  }

  lemma {:induction false} AllUpTo(envelopes: seq<Envelope>, cursor: nat)
    requires forall e :: e in envelopes ==> e.sequence <= cursor
    ensures UpTo(envelopes, cursor) == envelopes
  {
    if envelopes != [] {
      AllUpTo(envelopes[..|envelopes| - 1], cursor);
    }
  }

  function CursorAt(envelopes: seq<Envelope>, n: nat): Option<nat>
    requires n <= |envelopes|
  {
    if n == 0 then None else Some(envelopes[n - 1].sequence)
  }

  /** The bytes of the lines of n envelopes and their events. */
  function LineBytes(sys: System, envelopes: seq<Envelope>): nat {
    Total(MarketLines(sys, envelopes)) + Total(PaperLinesOf(sys, Play(sys, envelopes)))
  }

  lemma {:induction false} CommittedBytes(sys: System, envelopes: seq<Envelope>, n: nat)
    requires n <= |envelopes| && Ordered(envelopes)
    ensures Total(Payloads(Inserted(sys, envelopes, n))) == LineBytes(sys, envelopes[..n])
  {
    if n == 0 {
      assert envelopes[..0] == [] && MarketLines(sys, []) == [] && PaperLinesOf(sys, Fresh(sys)) == [];
    } else {
      CommittedBytes(sys, envelopes, n - 1);
      CommittedBytesStep(sys, envelopes, n - 1);
    }
  }

  lemma CommittedBytesStep(sys: System, envelopes: seq<Envelope>, n: nat)
    requires n < |envelopes| && Ordered(envelopes)
    requires Total(Payloads(Inserted(sys, envelopes, n))) == LineBytes(sys, envelopes[..n])
    ensures Total(Payloads(Inserted(sys, envelopes, n + 1))) == LineBytes(sys, envelopes[..n + 1])
  {
    BytesGrow(sys, envelopes, n);
  }

  lemma NextAtCursor(envelopes: seq<Envelope>, n: nat)
    requires n <= |envelopes| && Ordered(envelopes)
    ensures NextOrdinal(envelopes, CursorAt(envelopes, n)) == n
    ensures n > 0 ==> UpTo(envelopes, CursorAt(envelopes, n).value) == envelopes[..n]
  {
    if n > 0 {
      UpToCursor(envelopes, n - 1);
    }
  }

  /** The byte count recomputed on resume is the sum of the payloads committed so far. */
  lemma PrefixIsCommitted(sys: System, envelopes: seq<Envelope>, n: nat)
    requires n <= |envelopes| && Ordered(envelopes)
    ensures PrefixBytes(sys, envelopes, CursorAt(envelopes, n), Play(sys, envelopes[..n])) == Total(Payloads(Inserted(sys, envelopes, n)))
  {
    NextAtCursor(envelopes, n);
    CommittedBytes(sys, envelopes, n);
  }

  lemma BytesGrow(sys: System, envelopes: seq<Envelope>, n: nat)
    requires n < |envelopes| && Ordered(envelopes)
    ensures Total(Payloads(Inserted(sys, envelopes, n + 1)))
            == Total(Payloads(Inserted(sys, envelopes, n))) + Total(Payloads(NewRows(sys, envelopes, n, Play(sys, envelopes[..n]))))
    ensures LineBytes(sys, envelopes[..n + 1])
            == LineBytes(sys, envelopes[..n]) + Total(Payloads(NewRows(sys, envelopes, n, Play(sys, envelopes[..n]))))
  {
    RowBytesGrow(Inserted(sys, envelopes, n), NewRows(sys, envelopes, n, Play(sys, envelopes[..n])));
    LineBytesGrow(sys, envelopes, n);
  }

  lemma RowBytesGrow(rows: seq<OutboxRecord>, more: seq<OutboxRecord>)
    ensures Total(Payloads(rows + more)) == Total(Payloads(rows)) + Total(Payloads(more))
  {
    PayloadsConcat(rows, more);
    TotalConcat(Payloads(rows), Payloads(more));
  }

  lemma LineBytesGrow(sys: System, envelopes: seq<Envelope>, n: nat)
    requires n < |envelopes| && Ordered(envelopes)
    ensures LineBytes(sys, envelopes[..n + 1])
            == LineBytes(sys, envelopes[..n]) + Total(Payloads(NewRows(sys, envelopes, n, Play(sys, envelopes[..n]))))
  {
    var before, after := Play(sys, envelopes[..n]), Play(sys, envelopes[..n + 1]);
    NewRowsAreLines(sys, envelopes, n);
    var added := NewEvents(|before.events|, envelopes[n].sequence, sys.react(before.broker, envelopes[n]).bodies);
    var lines := PaperLines(sys, added, DecisionMap(after.decisions));
    var market := sys.encodeMarket(envelopes[n]);
    assert Payloads(NewRows(sys, envelopes, n, before)) == [market] + lines;
    assert MarketLines(sys, envelopes[..n + 1]) == MarketLines(sys, envelopes[..n]) + [market];
    TotalConcat([market], lines);
    TotalConcat(MarketLines(sys, envelopes[..n]), [market]);
    TotalConcat(PaperLinesOf(sys, before), lines);
  }

  // ---- The invariant -------------------------------------------------------------------------

  /** The durable state after n commits, and after completion. */
  ghost predicate RunAt(sys: System, envelopes: seq<Envelope>, run: RunRow, n: nat)
    requires n <= |envelopes|
  {
    && run.cursor == CursorAt(envelopes, n)
    && run.checkpoint == Play(sys, envelopes[..n])
    && |run.batches| == n && (forall s :: s in run.batches ==> n > 0 && s <= envelopes[n - 1].sequence)
    && (run.complete ==> n == |envelopes|)
    && run.version == n + (if run.complete then 1 else 0)
    && run.rows == Inserted(sys, envelopes, n) + if run.complete then [SummaryRow(sys, envelopes, Play(sys, envelopes))] else []
  }

  /** A live process holds what it would hold had it never been interrupted. */
  ghost predicate ProcessAt(sys: System, envelopes: seq<Envelope>, p: Process, n: nat)
    requires n <= |envelopes|
  {
    p == Process(Play(sys, envelopes[..n]), n, CursorAt(envelopes, n), Total(Payloads(Inserted(sys, envelopes, n))))
  }

  ghost predicate Sound(sys: System, envelopes: seq<Envelope>, w: World) {
    |w.run.batches| <= |envelopes| && SoundAt(sys, envelopes, w, |w.run.batches|)
  }

  ghost predicate SoundAt(sys: System, envelopes: seq<Envelope>, w: World, n: nat)
    requires n <= |envelopes|
  {
    && RunAt(sys, envelopes, w.run, n)
    && (w.process.Some? ==> !w.run.complete && ProcessAt(sys, envelopes, w.process.value, n))
    && (w.run.complete ==> Fits(sys, envelopes))
  }

  /** The whole output stays within the byte limit. */
  predicate Fits(sys: System, envelopes: seq<Envelope>) {
    Total(AllLines(sys, envelopes, Play(sys, envelopes))) <= sys.limit
  }

  lemma AllBytes(sys: System, envelopes: seq<Envelope>)
    requires Ordered(envelopes)
    ensures Total(AllLines(sys, envelopes, Play(sys, envelopes)))
            == Total(Payloads(Inserted(sys, envelopes, |envelopes|))) + |SummaryLine(sys, envelopes, Play(sys, envelopes))|
  {
    var m, summary := Play(sys, envelopes), SummaryLine(sys, envelopes, Play(sys, envelopes));
    CommittedBytes(sys, envelopes, |envelopes|);
    assert envelopes[..|envelopes|] == envelopes;
    TotalConcat(MarketLines(sys, envelopes) + PaperLinesOf(sys, m), [summary]);
    TotalConcat(MarketLines(sys, envelopes), PaperLinesOf(sys, m));
    assert [summary][..0] == [] && Total([summary]) == |summary|;
  }

  lemma {:induction false} InsertAll(rows: seq<OutboxRecord>, more: seq<OutboxRecord>)
    requires DistinctSequences(rows + more)
    ensures InsertRows(rows, more) == Some(rows + more)
    decreases |more|
  {
    if more == [] {
      assert rows + more == rows;
    } else {
      assert rows + more == (rows + [more[0]]) + more[1..];
      forall r | r in rows ensures r.outputSequence != more[0].outputSequence {
        var i :| 0 <= i < |rows| && rows[i] == r;
        assert (rows + more)[i] == r && (rows + more)[|rows|] == more[0];
      }
      InsertAll(rows + [more[0]], more[1..]);
    }
  }

  /** Rows that can be put in output order have distinct sequences. */
  lemma PermutedDistinct(sorted: seq<OutboxRecord>, rows: seq<OutboxRecord>)
    requires Sorted(sorted) && multiset(sorted) == multiset(rows)
    ensures DistinctSequences(rows)
  {
    forall i, j | 0 <= i < j < |rows| ensures rows[i].outputSequence != rows[j].outputSequence {
      assert rows[i] in multiset(sorted) && rows[j] in multiset(sorted);
      if rows[i] == rows[j] {
        CountTwice(rows, i, j);
        SingleCount(sorted, rows[i]);
      }
    }
  }

  lemma InsertedIsDistinct(sys: System, envelopes: seq<Envelope>, n: nat)
    requires n <= |envelopes| && Ordered(envelopes)
    ensures DistinctSequences(Inserted(sys, envelopes, n))
  {
    InsertedIsLaid(sys, envelopes, n);
    LaidIsSorted(sys, envelopes, n, Play(sys, envelopes[..n]));
    PermutedDistinct(Laid(sys, envelopes, n, Play(sys, envelopes[..n])), Inserted(sys, envelopes, n));
  }

  /** A publish by a sound process is never refused by the repository. */
  lemma CommitApplies(sys: System, envelopes: seq<Envelope>, run: RunRow, p: Process, n: nat)
    requires Ordered(envelopes) && n < |envelopes| && RunAt(sys, envelopes, run, n) && !run.complete
    requires ProcessAt(sys, envelopes, p, n)
    ensures var r := CommitBatch(envelopes, run, BatchOf(sys, envelopes, p, n));
            r.Applied? && RunAt(sys, envelopes, r.run, n + 1) && !r.run.complete
  {
    var batch := BatchOf(sys, envelopes, p, n);
    InsertedIsDistinct(sys, envelopes, n + 1);
    assert run.rows == Inserted(sys, envelopes, n);
    assert envelopes[..n + 1][..n] == envelopes[..n];
    InsertAll(run.rows, batch.records);
    assert batch.source !in run.batches;
    assert InRange(envelopes, run.cursor, batch.source);
    BatchAdded(run.batches, batch.source, batch);
  }

  lemma BatchAdded(batches: map<nat, Batch>, source: nat, b: Batch)
    requires source !in batches
    ensures |batches[source := b]| == |batches| + 1
  {
    assert batches[source := b].Keys == batches.Keys + {source};
    assert |batches[source := b].Keys| == |batches[source := b]| && |batches.Keys| == |batches|;
  }

  /** A publish leaves the durable state alone and ends the process, or moves both one envelope on, or moves one and ends the other. */
  lemma PublishMoves(sys: System, envelopes: seq<Envelope>, run: RunRow, p: Process, crash: Crash, n: nat)
    requires Ordered(envelopes) && n < |envelopes| && RunAt(sys, envelopes, run, n) && !run.complete
    requires ProcessAt(sys, envelopes, p, n)
    ensures var r := CommitBatch(envelopes, run, BatchOf(sys, envelopes, p, n));
            var next := PublishNext(sys, envelopes, run, p, crash);
            && r.Applied?
            && (next == World(run, None)
                || next == World(r.run, None)
                || next == World(r.run, Some(Process(BatchOf(sys, envelopes, p, n).checkpoint, r.run.version, r.run.cursor,
                                                     p.bytes + Total(Payloads(BatchOf(sys, envelopes, p, n).records))))))
  {
    NextAtCursor(envelopes, n);
    CommitApplies(sys, envelopes, run, p, n);
  }

  lemma PublishIsSound(sys: System, envelopes: seq<Envelope>, w: World, crash: Crash)
    requires Ordered(envelopes) && envelopes != [] && Sound(sys, envelopes, w)
    ensures Sound(sys, envelopes, Advance(sys, envelopes, w, Publish(crash)))
  {
    var n := |w.run.batches|;
    if w.process.Some? {
      NextAtCursor(envelopes, n);
      if n < |envelopes| {
        LivePublishIsSound(sys, envelopes, w.run, w.process.value, crash, n);
      }
    }
  }

  lemma LivePublishIsSound(sys: System, envelopes: seq<Envelope>, run: RunRow, p: Process, crash: Crash, n: nat)
    requires Ordered(envelopes) && n < |envelopes| && RunAt(sys, envelopes, run, n) && !run.complete
    requires ProcessAt(sys, envelopes, p, n)
    ensures var next := PublishNext(sys, envelopes, run, p, crash);
            SoundAt(sys, envelopes, next, n) || SoundAt(sys, envelopes, next, n + 1)
  {
    PublishMoves(sys, envelopes, run, p, crash, n);
    CommitApplies(sys, envelopes, run, p, n);
    CommittedGrows(sys, envelopes, p, n);
  }

  lemma CommittedGrows(sys: System, envelopes: seq<Envelope>, p: Process, n: nat)
    requires Ordered(envelopes) && n < |envelopes| && ProcessAt(sys, envelopes, p, n)
    ensures ProcessAt(sys, envelopes,
                      Process(BatchOf(sys, envelopes, p, n).checkpoint, n + 1, Some(envelopes[n].sequence),
                              p.bytes + Total(Payloads(BatchOf(sys, envelopes, p, n).records))), n + 1)
  {
    BytesGrow(sys, envelopes, n);
    assert envelopes[..n + 1][..n] == envelopes[..n];
  }

  lemma LaidIsWellLaid(sys: System, envelopes: seq<Envelope>, m: Memory)
    requires Numbered(m.events)
    ensures WellLaidOut(Laid(sys, envelopes, |envelopes|, m))
    ensures forall r :: r in Laid(sys, envelopes, |envelopes|, m) ==> !r.kind.SummaryRecord?
    ensures Payloads(Laid(sys, envelopes, |envelopes|, m)) == MarketLines(sys, envelopes) + PaperLinesOf(sys, m)
  {
  }

  /** All rows of a run whose envelopes have all been committed, in output order. */
  lemma CompleteRows(sys: System, envelopes: seq<Envelope>)
    requires Ordered(envelopes)
    ensures Numbered(Play(sys, envelopes).events)
    ensures OrderRows(Inserted(sys, envelopes, |envelopes|)) == Laid(sys, envelopes, |envelopes|, Play(sys, envelopes))
  {
    var n, rows := |envelopes|, Inserted(sys, envelopes, |envelopes|);
    assert envelopes[..n] == envelopes;
    InsertedIsLaid(sys, envelopes, n);
    LaidIsSorted(sys, envelopes, n, Play(sys, envelopes));
    PermutedDistinct(Laid(sys, envelopes, n, Play(sys, envelopes)), rows);
    OrderRowsSorts(rows);
    SortedIsUnique(OrderRows(rows), Laid(sys, envelopes, n, Play(sys, envelopes)));
  }

  lemma CompletionApplies(sys: System, envelopes: seq<Envelope>, run: RunRow)
    requires Ordered(envelopes) && envelopes != [] && RunAt(sys, envelopes, run, |envelopes|) && !run.complete
    ensures var n := |envelopes|;
            var m := Play(sys, envelopes);
            var r := CompleteRun(envelopes, run, n, envelopes[n - 1].sequence, SummaryRow(sys, envelopes, m));
            r.Some? && RunAt(sys, envelopes, r.value, n) && r.value.complete
  {
    CompleteRows(sys, envelopes);
    LaidIsWellLaid(sys, envelopes, Play(sys, envelopes));
    assert run.rows == Inserted(sys, envelopes, |envelopes|);
    assert envelopes[..|envelopes|] == envelopes;
  }

  lemma LastCursor(envelopes: seq<Envelope>, n: nat)
    requires Ordered(envelopes) && envelopes != [] && n <= |envelopes|
    requires CursorAt(envelopes, n) == Some(envelopes[|envelopes| - 1].sequence)
    ensures n == |envelopes|
  {
  }

  lemma FinishIsSound(sys: System, envelopes: seq<Envelope>, w: World, crash: Crash)
    requires Ordered(envelopes) && envelopes != [] && Sound(sys, envelopes, w)
    ensures Sound(sys, envelopes, Advance(sys, envelopes, w, Finish(crash)))
  {
    var n := |w.run.batches|;
    if w.process.Some? && w.process.value.cursor == Some(envelopes[|envelopes| - 1].sequence) {
      LastCursor(envelopes, n);
      LiveFinishIsSound(sys, envelopes, w.run, w.process.value, crash);
    }
  }

  lemma LiveFinishIsSound(sys: System, envelopes: seq<Envelope>, run: RunRow, p: Process, crash: Crash)
    requires Ordered(envelopes) && envelopes != [] && RunAt(sys, envelopes, run, |envelopes|) && !run.complete
    requires ProcessAt(sys, envelopes, p, |envelopes|)
    ensures SoundAt(sys, envelopes, FinishRun(sys, envelopes, run, p, crash), |envelopes|)
  {
    AllBytes(sys, envelopes);
    assert envelopes[..|envelopes|] == envelopes;
    CompletionApplies(sys, envelopes, run);
  }

  lemma ResumeIsSound(sys: System, envelopes: seq<Envelope>, w: World)
    requires Ordered(envelopes) && envelopes != [] && Sound(sys, envelopes, w)
    ensures Sound(sys, envelopes, Advance(sys, envelopes, w, Resume))
  {
    PrefixIsCommitted(sys, envelopes, |w.run.batches|);
  }

  /** However often the process dies, the durable state is one an uninterrupted run passes through. */
  lemma {:induction false} CrashesAreHarmless(sys: System, envelopes: seq<Envelope>, steps: seq<Step>)
    requires Ordered(envelopes) && envelopes != []
    ensures Sound(sys, envelopes, After(sys, envelopes, steps))
  {
    if steps != [] {
      var last := |steps| - 1;
      var w := After(sys, envelopes, steps[..last]);
      CrashesAreHarmless(sys, envelopes, steps[..last]);
      match steps[last]
      case Resume => ResumeIsSound(sys, envelopes, w);
      case Publish(crash) => PublishIsSound(sys, envelopes, w, crash);
      case Finish(crash) => FinishIsSound(sys, envelopes, w, crash);
      case Die =>
    }
  }

  // ---- The output ------------------------------------------------------------------------------

  /** A completed outbox read back in output order is the one-shot output of an uninterrupted run, byte for byte. */
  lemma OutboxIsOneShot(sys: System, envelopes: seq<Envelope>, steps: seq<Step>)
    requires Ordered(envelopes) && envelopes != [] && After(sys, envelopes, steps).run.complete
    ensures ReadOutbox(After(sys, envelopes, steps).run).Some?
    ensures OneShot(sys, envelopes, Play(sys, envelopes))
            == Some(Concat(Payloads(ReadOutbox(After(sys, envelopes, steps).run).value)))
  {
    CrashesAreHarmless(sys, envelopes, steps);
    var run := After(sys, envelopes, steps).run;
    CompletedRun(sys, envelopes, run);
  }

  lemma CompletedRun(sys: System, envelopes: seq<Envelope>, run: RunRow)
    requires Ordered(envelopes) && envelopes != [] && run.complete && RunAt(sys, envelopes, run, |envelopes|) && Fits(sys, envelopes)
    ensures ReadOutbox(run).Some?
    ensures OneShot(sys, envelopes, Play(sys, envelopes)) == Some(Concat(Payloads(ReadOutbox(run).value)))
  {
    CompletedRows(sys, envelopes);
    ReadsBack(sys, envelopes, run);
  }

  lemma CompletedRows(sys: System, envelopes: seq<Envelope>)
    requires Ordered(envelopes) && envelopes != []
    ensures Numbered(Play(sys, envelopes).events)
    ensures OrderRows(Inserted(sys, envelopes, |envelopes|) + [SummaryRow(sys, envelopes, Play(sys, envelopes))])
            == Laid(sys, envelopes, |envelopes|, Play(sys, envelopes)) + [SummaryRow(sys, envelopes, Play(sys, envelopes))]
  {
    var m, summary := Play(sys, envelopes), SummaryRow(sys, envelopes, Play(sys, envelopes));
    CompleteRows(sys, envelopes);
    LaidIsWellLaid(sys, envelopes, m);
    OrderedWithLast(Inserted(sys, envelopes, |envelopes|), Laid(sys, envelopes, |envelopes|, m), summary);
  }

  lemma OrderedWithLast(rows: seq<OutboxRecord>, laid: seq<OutboxRecord>, last: OutboxRecord)
    requires OrderRows(rows) == laid && WellLaidOut(laid) && last.outputSequence == |laid|
    ensures OrderRows(rows + [last]) == laid + [last]
  {
    assert (rows + [last])[..|rows|] == rows;
    forall x | x in laid ensures x.outputSequence < last.outputSequence {
      var i :| 0 <= i < |laid| && laid[i] == x;
    }
    InsertLast(laid, last);
  }

  lemma {:induction false} InsertLast(rows: seq<OutboxRecord>, r: OutboxRecord)
    requires forall x :: x in rows ==> x.outputSequence < r.outputSequence
    ensures InsertSorted(rows, r) == rows + [r]
  {
    if rows != [] {
      assert rows[0] in rows;
      InsertLast(rows[1..], r);
    }
  }

  lemma ReadsBack(sys: System, envelopes: seq<Envelope>, run: RunRow)
    requires envelopes != [] && run.complete && Numbered(Play(sys, envelopes).events)
    requires OrderRows(run.rows) == Laid(sys, envelopes, |envelopes|, Play(sys, envelopes)) + [SummaryRow(sys, envelopes, Play(sys, envelopes))]
    ensures ReadOutbox(run) == Some(OrderRows(run.rows))
    ensures Payloads(OrderRows(run.rows)) == AllLines(sys, envelopes, Play(sys, envelopes))
  {
    var m := Play(sys, envelopes);
    var laid, summary := Laid(sys, envelopes, |envelopes|, m), SummaryRow(sys, envelopes, m);
    LaidIsWellLaid(sys, envelopes, m);
    PayloadsConcat(laid, [summary]);
    SummaryLast(laid, summary, OrderRows(run.rows));
  }

  lemma SummaryLast(laid: seq<OutboxRecord>, summary: OutboxRecord, rows: seq<OutboxRecord>)
    requires rows == laid + [summary] && WellLaidOut(laid) && summary.outputSequence == |laid| && summary.kind.SummaryRecord?
    requires forall r :: r in laid ==> !r.kind.SummaryRecord?
    ensures WellLaidOut(rows) && rows != [] && rows[|rows| - 1].kind.SummaryRecord?
    ensures forall i :: 0 <= i < |rows| - 1 ==> !rows[i].kind.SummaryRecord?
  {
    forall i | 0 <= i < |rows| - 1 ensures !rows[i].kind.SummaryRecord? {
      assert rows[i] == laid[i];
    }
  }

  // ---- Completion stays possible ----------------------------------------------------------------

  /** A resumed process that is not disturbed publishes all remaining envelopes. */
  function Undisturbed(remaining: nat): seq<Step> {
    if remaining == 0 then [] else Undisturbed(remaining - 1) + [Publish(NoCrash)]
  }

  lemma BytesRise(sys: System, envelopes: seq<Envelope>, n: nat)
    requires Ordered(envelopes) && n < |envelopes|
    ensures Total(Payloads(Inserted(sys, envelopes, n))) <= Total(Payloads(Inserted(sys, envelopes, n + 1)))
  {
    BytesGrow(sys, envelopes, n);
  }

  lemma {:induction false} CommittedBytesGrow(sys: System, envelopes: seq<Envelope>, n: nat, bytes: nat)
    requires Ordered(envelopes) && n <= |envelopes| && bytes == Total(Payloads(Inserted(sys, envelopes, |envelopes|)))
    ensures Total(Payloads(Inserted(sys, envelopes, n))) <= bytes
    decreases |envelopes| - n
  {
    if n < |envelopes| {
      BytesRise(sys, envelopes, n);
      CommittedBytesGrow(sys, envelopes, n + 1, bytes);
    }
  }

  lemma CommittedFits(sys: System, envelopes: seq<Envelope>, n: nat)
    requires Ordered(envelopes) && n <= |envelopes| && Fits(sys, envelopes)
    ensures Total(Payloads(Inserted(sys, envelopes, n))) <= sys.limit
  {
    AllBytes(sys, envelopes);
    CommittedBytesGrow(sys, envelopes, n, Total(Payloads(Inserted(sys, envelopes, |envelopes|))));
  }

  lemma MarketFits(sys: System, envelopes: seq<Envelope>)
    requires Ordered(envelopes) && Fits(sys, envelopes)
    ensures Total(MarketLines(sys, envelopes)) <= sys.limit
  {
    CommittedFits(sys, envelopes, |envelopes|);
    CommittedBytes(sys, envelopes, |envelopes|);
    assert envelopes[..|envelopes|] == envelopes;
  }

  lemma ResumeLoads(sys: System, envelopes: seq<Envelope>, w: World)
    requires Ordered(envelopes) && envelopes != [] && Sound(sys, envelopes, w) && !w.run.complete && Fits(sys, envelopes)
    ensures var next := Advance(sys, envelopes, w, Resume);
            next.run == w.run && next.process.Some?
  {
    MarketFits(sys, envelopes);
    PrefixIsCommitted(sys, envelopes, |w.run.batches|);
    CommittedFits(sys, envelopes, |w.run.batches|);
  }

  lemma UndisturbedPublish(sys: System, envelopes: seq<Envelope>, run: RunRow, p: Process, n: nat)
    requires Ordered(envelopes) && n < |envelopes| && RunAt(sys, envelopes, run, n) && !run.complete
    requires ProcessAt(sys, envelopes, p, n) && Fits(sys, envelopes)
    ensures var next := PublishNext(sys, envelopes, run, p, NoCrash);
            next.process.Some? && |next.run.batches| == n + 1
  {
    NextAtCursor(envelopes, n);
    CommitApplies(sys, envelopes, run, p, n);
    CommittedGrows(sys, envelopes, p, n);
    CommittedFits(sys, envelopes, n + 1);
  }

  /** A process that has published everything has room left for the summary. */
  lemma SummaryFits(sys: System, envelopes: seq<Envelope>, p: Process)
    requires Ordered(envelopes) && envelopes != [] && ProcessAt(sys, envelopes, p, |envelopes|) && Fits(sys, envelopes)
    ensures p.memory == Play(sys, envelopes) && p.version == |envelopes|
    ensures p.cursor == Some(envelopes[|envelopes| - 1].sequence)
    ensures p.bytes + |SummaryRow(sys, envelopes, Play(sys, envelopes)).payload| <= sys.limit
  {
    AllBytes(sys, envelopes);
    assert envelopes[..|envelopes|] == envelopes;
  }

  lemma UndisturbedFinish(sys: System, envelopes: seq<Envelope>, run: RunRow, p: Process)
    requires Ordered(envelopes) && envelopes != [] && RunAt(sys, envelopes, run, |envelopes|) && !run.complete
    requires ProcessAt(sys, envelopes, p, |envelopes|) && Fits(sys, envelopes)
    ensures FinishRun(sys, envelopes, run, p, NoCrash).run.complete
  {
    SummaryFits(sys, envelopes, p);
    CompletionApplies(sys, envelopes, run);
  }

  lemma AfterOne(sys: System, envelopes: seq<Envelope>, steps: seq<Step>, s: Step)
    requires envelopes != []
    ensures After(sys, envelopes, steps + [s]) == Advance(sys, envelopes, After(sys, envelopes, steps), s)
  {
    assert (steps + [s])[..|steps|] == steps;
  }

  /** A live process behind the given number of commits. */
  ghost predicate Running(w: World, n: nat) {
    w.process.Some? && |w.run.batches| == n
  }

  lemma PublishesOne(sys: System, envelopes: seq<Envelope>, steps: seq<Step>, n: nat)
    requires Ordered(envelopes) && Fits(sys, envelopes) && n < |envelopes| && Running(After(sys, envelopes, steps), n)
    ensures Running(After(sys, envelopes, steps + [Publish(NoCrash)]), n + 1)
  {
    var w := After(sys, envelopes, steps);
    CrashesAreHarmless(sys, envelopes, steps);
    UndisturbedPublish(sys, envelopes, w.run, w.process.value, n);
    AfterOne(sys, envelopes, steps, Publish(NoCrash));
  }

  lemma {:induction false} PublishesAll(sys: System, envelopes: seq<Envelope>, steps: seq<Step>, n: nat, k: nat)
    requires Ordered(envelopes) && envelopes != [] && Fits(sys, envelopes)
    requires Running(After(sys, envelopes, steps), n) && n + k <= |envelopes|
    ensures Running(After(sys, envelopes, steps + Undisturbed(k)), n + k)
  {
    if k == 0 {
      NothingMore(steps);
    } else {
      PublishesAll(sys, envelopes, steps, n, k - 1);
      PublishesOne(sys, envelopes, steps + Undisturbed(k - 1), n + k - 1);
      Regroup(steps, Undisturbed(k - 1), [Publish(NoCrash)]);
    }
  }

  lemma ResumesAt(sys: System, envelopes: seq<Envelope>, steps: seq<Step>)
    requires Ordered(envelopes) && envelopes != [] && Fits(sys, envelopes) && !After(sys, envelopes, steps).run.complete
    ensures Running(After(sys, envelopes, steps + [Resume]), |After(sys, envelopes, steps).run.batches|)
    ensures |After(sys, envelopes, steps).run.batches| <= |envelopes|
  {
    CrashesAreHarmless(sys, envelopes, steps);
    ResumeLoads(sys, envelopes, After(sys, envelopes, steps));
    AfterOne(sys, envelopes, steps, Resume);
  }

  lemma FinishesAt(sys: System, envelopes: seq<Envelope>, steps: seq<Step>)
    requires Ordered(envelopes) && envelopes != [] && Fits(sys, envelopes)
    requires Running(After(sys, envelopes, steps), |envelopes|)
    ensures After(sys, envelopes, steps + [Finish(NoCrash)]).run.complete
  {
    CrashesAreHarmless(sys, envelopes, steps);
    var w := After(sys, envelopes, steps);
    UndisturbedFinish(sys, envelopes, w.run, w.process.value);
    AfterOne(sys, envelopes, steps, Finish(NoCrash));
  }

  /**
   * A run can be completed, from wherever the crashes have left it, exactly
   * when its one-shot output fits the limit.
   */
  lemma CompletableExactly(sys: System, envelopes: seq<Envelope>, steps: seq<Step>)
    requires Ordered(envelopes) && envelopes != []
    ensures OneShot(sys, envelopes, Play(sys, envelopes)).Some?
            <==> exists more :: After(sys, envelopes, steps + more).run.complete
  {
    if OneShot(sys, envelopes, Play(sys, envelopes)).Some? {
      var more := Completing(sys, envelopes, steps);
      assert After(sys, envelopes, steps + more).run.complete;
    }
    if exists more :: After(sys, envelopes, steps + more).run.complete {
      var more :| After(sys, envelopes, steps + more).run.complete;
      OutboxIsOneShot(sys, envelopes, steps + more);
    }
  }

  lemma Completing(sys: System, envelopes: seq<Envelope>, steps: seq<Step>) returns (more: seq<Step>)
    requires Ordered(envelopes) && envelopes != [] && Fits(sys, envelopes)
    ensures After(sys, envelopes, steps + more).run.complete
  {
    if After(sys, envelopes, steps).run.complete {
      more := [];
      assert steps + more == steps;
    } else {
      var n := |After(sys, envelopes, steps).run.batches|;
      ResumesAt(sys, envelopes, steps);
      var tail := CompletesFrom(sys, envelopes, steps + [Resume], n);
      more := [Resume] + tail;
      Regroup(steps, [Resume], tail);
    }
  }

  lemma NothingMore(a: seq<Step>)
    ensures a + [] == a
  {
  }

  lemma Regroup(a: seq<Step>, b: seq<Step>, c: seq<Step>)
    ensures a + (b + c) == (a + b) + c
  {
  }

  lemma CompletesFrom(sys: System, envelopes: seq<Envelope>, steps: seq<Step>, n: nat) returns (more: seq<Step>)
    requires Ordered(envelopes) && envelopes != [] && Fits(sys, envelopes) && n <= |envelopes|
    requires Running(After(sys, envelopes, steps), n)
    ensures After(sys, envelopes, steps + more).run.complete
  {
    var rest := Undisturbed(|envelopes| - n);
    PublishesAll(sys, envelopes, steps, n, |envelopes| - n);
    FinishesAt(sys, envelopes, steps + rest);
    more := rest + [Finish(NoCrash)];
    Regroup(steps, rest, [Finish(NoCrash)]);
  }
}
