/**
 * When the durable store accepts, repeats or refuses, and when a publish, a
 * resume or a completion goes through, from every state that crashes can leave.
 */
module CrashDecisions {
  import opened Wrappers
  import opened PaperReplay
  import opened ResearchState
  import opened CrashResume

  // ---- The store ---------------------------------------------------------------------------

  /** No output sequence is used twice, among the new records or with a stored one. */
  predicate NewSequences(rows: seq<OutboxRecord>, more: seq<OutboxRecord>) {
    && (forall i, j :: 0 <= i < j < |more| ==> more[i].outputSequence != more[j].outputSequence)
    && (forall r, q :: r in rows && q in more ==> r.outputSequence != q.outputSequence)
  }

  lemma {:induction false} InsertsExactly(rows: seq<OutboxRecord>, more: seq<OutboxRecord>)
    ensures InsertRows(rows, more) == if NewSequences(rows, more) then Some(rows + more) else None
    decreases |more|
  {
    if more == [] {
      assert rows + more == rows;
    } else {
      var first, rest := more[0], more[1..];
      assert first in more && forall q :: q in rest ==> q in more;
      InsertsExactly(rows + [first], rest);
      assert (rows + [first]) + rest == rows + more;
      if !SequenceTaken(rows, first.outputSequence) {
        OneAtATime(rows, more);
      }
    }
  }

  lemma OneAtATime(rows: seq<OutboxRecord>, more: seq<OutboxRecord>)
    requires more != [] && !SequenceTaken(rows, more[0].outputSequence)
    ensures NewSequences(rows + [more[0]], more[1..]) <==> NewSequences(rows, more)
  {
    var first, rest := more[0], more[1..];
    assert more == [first] + rest;
    if NewSequences(rows + [first], rest) {
      forall i, j | 0 <= i < j < |more| ensures more[i].outputSequence != more[j].outputSequence {
        assert more[j] == rest[j - 1] && rest[j - 1] in rest;
        if i == 0 {
          assert first in rows + [first];
        } else {
          assert more[i] == rest[i - 1];
        }
      }
      forall r, q | r in rows && q in more ensures r.outputSequence != q.outputSequence {
        assert r in rows + [first];
      }
    }
    if NewSequences(rows, more) {
      forall i, j | 0 <= i < j < |rest| ensures rest[i].outputSequence != rest[j].outputSequence {
        assert rest[i] == more[i + 1] && rest[j] == more[j + 1];
      }
      forall r, q | r in rows + [first] && q in rest ensures r.outputSequence != q.outputSequence {
        var j :| 0 <= j < |rest| && rest[j] == q;
        assert more[j + 1] == q && q in more;
      }
    }
  }

  /** The batch continues the run: an active one, at the version and cursor the caller saw, further on in the source. */
  predicate Continues(envelopes: seq<Envelope>, run: RunRow, b: Batch)
    requires envelopes != []
  {
    && !run.complete && run.version == b.expectedVersion && run.cursor == b.expectedPrevious
    && (if run.cursor.Some? then run.cursor.value < b.source else envelopes[0].sequence <= b.source)
    && b.source <= envelopes[|envelopes| - 1].sequence
  }

  /**
   * The same batch again is recognised; a batch for a source that has another
   * one, one that does not continue the run and one that reuses an output
   * sequence are conflicts; any other is applied as a whole.
   */
  lemma CommitExactly(envelopes: seq<Envelope>, run: RunRow, b: Batch)
    requires envelopes != []
    ensures CommitBatch(envelopes, run, b)
            == if b.source in run.batches then (if b == run.batches[b.source] then Repeated else Conflict)
               else if Continues(envelopes, run, b) && NewSequences(run.rows, b.records)
               then Applied(run.(version := run.version + 1, cursor := Some(b.source), batches := run.batches[b.source := b],
                                 checkpoint := b.checkpoint, rows := run.rows + b.records))
               else Conflict
  {
    InsertsExactly(run.rows, b.records);
  }

  // ---- The outbox as a set of rows ----------------------------------------------------------

  /** The sequences of the rows are 0, 1, 2, ... in some order. */
  predicate Gapless(rows: seq<OutboxRecord>) {
    forall r :: r in rows ==> r.outputSequence < |rows|
  }

  predicate MarketBeforePaper(rows: seq<OutboxRecord>) {
    forall r, q :: r in rows && q in rows && q.outputSequence == r.outputSequence + 1 ==> !(r.kind.PaperRecord? && q.kind.MarketRecord?)
  }

  lemma {:induction false} SortedClimbs(rows: seq<OutboxRecord>, i: nat)
    requires Sorted(rows) && i < |rows|
    ensures rows[i].outputSequence >= i
  {
    if i > 0 {
      SortedClimbs(rows, i - 1);
    }
  }

  lemma {:induction false} SortedStays(rows: seq<OutboxRecord>, i: nat)
    requires Sorted(rows) && i < |rows| && rows[|rows| - 1].outputSequence < |rows|
    ensures rows[i].outputSequence <= i
    decreases |rows| - i
  {
    if i < |rows| - 1 {
      SortedStays(rows, i + 1);
    }
  }

  lemma SortedIsGapless(ordered: seq<OutboxRecord>)
    requires Sorted(ordered)
    ensures Gapless(ordered) <==> forall i :: 0 <= i < |ordered| ==> ordered[i].outputSequence == i
  {
    if Gapless(ordered) {
      forall i | 0 <= i < |ordered| ensures ordered[i].outputSequence == i {
        SortedClimbs(ordered, i);
        assert ordered[|ordered| - 1] in ordered;
        SortedStays(ordered, i);
      }
    }
  }

  lemma SameMembers(a: seq<OutboxRecord>, b: seq<OutboxRecord>)
    requires multiset(a) == multiset(b)
    ensures |a| == |b| && forall r :: r in a <==> r in b
  {
    assert |a| == |multiset(a)| && |b| == |multiset(b)|;
    forall r ensures r in a <==> r in b {
      assert r in a <==> r in multiset(a);
    }
  }

  /** Rows of different sequences are well laid out in output order exactly when they have no gap and market rows come first. */
  lemma WellLaidExactly(rows: seq<OutboxRecord>)
    requires DistinctSequences(rows)
    ensures Sorted(OrderRows(rows)) && |OrderRows(rows)| == |rows| && forall r :: r in OrderRows(rows) <==> r in rows
    ensures WellLaidOut(OrderRows(rows)) <==> Gapless(rows) && MarketBeforePaper(rows)
  {
    var ordered := OrderRows(rows);
    OrderRowsSorts(rows);
    SameMembers(ordered, rows);
    SortedIsGapless(ordered);
    assert Gapless(ordered) <==> Gapless(rows);
    if Gapless(rows) {
      NeighboursInOrder(ordered);
      assert MarketBeforePaper(ordered) <==> MarketBeforePaper(rows);
    }
  }

  lemma NeighboursInOrder(ordered: seq<OutboxRecord>)
    requires forall i :: 0 <= i < |ordered| ==> ordered[i].outputSequence == i
    ensures MarketBeforePaper(ordered)
            <==> forall i :: 0 <= i < |ordered| - 1 ==> !(ordered[i].kind.PaperRecord? && ordered[i + 1].kind.MarketRecord?)
  {
    if MarketBeforePaper(ordered) {
      forall i | 0 <= i < |ordered| - 1 ensures !(ordered[i].kind.PaperRecord? && ordered[i + 1].kind.MarketRecord?) {
        assert ordered[i] in ordered && ordered[i + 1] in ordered;
      }
    }
    if forall i :: 0 <= i < |ordered| - 1 ==> !(ordered[i].kind.PaperRecord? && ordered[i + 1].kind.MarketRecord?) {
      forall r, q | r in ordered && q in ordered && q.outputSequence == r.outputSequence + 1
        ensures !(r.kind.PaperRecord? && q.kind.MarketRecord?)
      {
        var i :| 0 <= i < |ordered| && ordered[i] == r;
        var j :| 0 <= j < |ordered| && ordered[j] == q;
        assert j == i + 1;
      }
    }
  }

  /**
   * A run is completed exactly when it is active at the version and the last
   * cursor of its source, has a batch for every envelope, and the rows it has
   * fill the sequences below that of the summary, market rows first.
   */
  lemma CompleteExactly(envelopes: seq<Envelope>, run: RunRow, version: nat, previous: nat, summary: OutboxRecord)
    requires envelopes != [] && DistinctSequences(run.rows)
    ensures CompleteRun(envelopes, run, version, previous, summary)
            == if && !run.complete && run.version == version && |run.batches| == |envelopes|
                  && run.cursor == Some(previous) && previous == envelopes[|envelopes| - 1].sequence
                  && run.rows != [] && Gapless(run.rows) && MarketBeforePaper(run.rows)
                  && summary.outputSequence == |run.rows| && forall r :: r in run.rows ==> !r.kind.SummaryRecord?
               then Some(run.(complete := true, version := version + 1, rows := run.rows + [summary]))
               else None
  {
    WellLaidExactly(run.rows);
  }

  predicate SummaryOnlyLast(rows: seq<OutboxRecord>) {
    forall r :: r in rows ==> (r.kind.SummaryRecord? <==> r.outputSequence == |rows| - 1)
  }

  /**
   * The outbox of a run is read exactly when the run is complete and its rows
   * have no gap, market rows first and one summary last; it is all of its rows
   * in output order.
   */
  lemma ReadExactly(run: RunRow)
    requires DistinctSequences(run.rows)
    ensures ReadOutbox(run).Some?
            <==> run.complete && run.rows != [] && Gapless(run.rows) && MarketBeforePaper(run.rows) && SummaryOnlyLast(run.rows)
    ensures ReadOutbox(run).Some? ==> Sorted(ReadOutbox(run).value) && multiset(ReadOutbox(run).value) == multiset(run.rows)
  {
    WellLaidExactly(run.rows);
    OrderRowsSorts(run.rows);
    if run.rows != [] && WellLaidOut(OrderRows(run.rows)) {
      SummaryInRows(run.rows);
    }
  }

  lemma SummaryInRows(rows: seq<OutboxRecord>)
    requires DistinctSequences(rows) && rows != [] && WellLaidOut(OrderRows(rows)) && |OrderRows(rows)| == |rows|
    requires forall r :: r in OrderRows(rows) <==> r in rows
    ensures var ordered := OrderRows(rows);
            ordered[|ordered| - 1].kind.SummaryRecord? && !(exists i :: 0 <= i < |ordered| - 1 && ordered[i].kind.SummaryRecord?)
            <==> SummaryOnlyLast(rows)
  {
    SummaryAtEnd(OrderRows(rows));
  }

  lemma SummaryAtEnd(ordered: seq<OutboxRecord>)
    requires ordered != [] && forall i :: 0 <= i < |ordered| ==> ordered[i].outputSequence == i
    ensures ordered[|ordered| - 1].kind.SummaryRecord? && !(exists i :: 0 <= i < |ordered| - 1 && ordered[i].kind.SummaryRecord?)
            <==> SummaryOnlyLast(ordered)
  {
    assert forall i :: 0 <= i < |ordered| ==> ordered[i] in ordered;
  }

  // ---- From every state that crashes can leave ------------------------------------------------

  lemma Reached(sys: System, envelopes: seq<Envelope>, steps: seq<Step>)
    requires Ordered(envelopes) && envelopes != []
    ensures var w := After(sys, envelopes, steps);
            |w.run.batches| <= |envelopes| && SoundAt(sys, envelopes, w, |w.run.batches|)
  {
    CrashesAreHarmless(sys, envelopes, steps);
  }

  /**
   * Resuming changes nothing durable, and brings a process to life exactly when
   * the run is not complete and neither the market lines nor what has been
   * committed exceeds the limit.
   */
  lemma ResumesExactly(sys: System, envelopes: seq<Envelope>, steps: seq<Step>)
    requires Ordered(envelopes) && envelopes != []
    ensures var w, next := After(sys, envelopes, steps), After(sys, envelopes, steps + [Resume]);
            && next.run == w.run
            && (next.process.Some? <==>
                  && !w.run.complete && Total(MarketLines(sys, envelopes)) <= sys.limit
                  && Total(Payloads(w.run.rows)) <= sys.limit)
  {
    var w := After(sys, envelopes, steps);
    Reached(sys, envelopes, steps);
    AfterOne(sys, envelopes, steps, Resume);
    var n := |w.run.batches|;
    PrefixIsCommitted(sys, envelopes, n);
    assert Inserted(sys, envelopes, n) + [] == Inserted(sys, envelopes, n);
  }

  /**
   * A live process commits the next envelope exactly when all lines up to it fit
   * the limit and it does not die before; it lives on exactly when there was
   * nothing left to commit, or it committed and did not die after.
   */
  lemma PublishesExactly(sys: System, envelopes: seq<Envelope>, steps: seq<Step>, crash: Crash)
    requires Ordered(envelopes) && envelopes != [] && After(sys, envelopes, steps).process.Some?
    ensures var w, next := After(sys, envelopes, steps), After(sys, envelopes, steps + [Publish(crash)]);
            var n := |w.run.batches|;
            var fits := n < |envelopes| && LineBytes(sys, envelopes[..n + 1]) <= sys.limit;
            && n <= |envelopes|
            && |next.run.batches| == (if fits && crash != BeforeCommit then n + 1 else n)
            && (|next.run.batches| == n ==> next.run == w.run)
            && (next.process.Some? <==> n == |envelopes| || (fits && crash == NoCrash))
  {
    var w := After(sys, envelopes, steps);
    Reached(sys, envelopes, steps);
    AfterOne(sys, envelopes, steps, Publish(crash));
    var n := |w.run.batches|;
    if n < |envelopes| {
      LivePublishExactly(sys, envelopes, w.run, w.process.value, crash, n);
    } else {
      NextAtCursor(envelopes, n);
    }
  }

  lemma LivePublishExactly(sys: System, envelopes: seq<Envelope>, run: RunRow, p: Process, crash: Crash, n: nat)
    requires Ordered(envelopes) && n < |envelopes| && RunAt(sys, envelopes, run, n) && !run.complete && ProcessAt(sys, envelopes, p, n)
    ensures var next := PublishNext(sys, envelopes, run, p, crash);
            var fits := LineBytes(sys, envelopes[..n + 1]) <= sys.limit;
            && |next.run.batches| == (if fits && crash != BeforeCommit then n + 1 else n)
            && (|next.run.batches| == n ==> next.run == run)
            && (next.process.Some? <==> fits && crash == NoCrash)
  {
    PublishUnfolds(sys, envelopes, run, p, crash, n);
    PublishFits(sys, envelopes, p, n);
    CommitCounts(sys, envelopes, run, p, n);
  }

  lemma CommitCounts(sys: System, envelopes: seq<Envelope>, run: RunRow, p: Process, n: nat)
    requires Ordered(envelopes) && n < |envelopes| && RunAt(sys, envelopes, run, n) && !run.complete && ProcessAt(sys, envelopes, p, n)
    ensures var r := CommitBatch(envelopes, run, BatchOf(sys, envelopes, p, n));
            r.Applied? && |r.run.batches| == n + 1
  {
    CommitApplies(sys, envelopes, run, p, n);
  }

  lemma PublishUnfolds(sys: System, envelopes: seq<Envelope>, run: RunRow, p: Process, crash: Crash, n: nat)
    requires Ordered(envelopes) && n < |envelopes| && p.cursor == CursorAt(envelopes, n)
    ensures var r := CommitBatch(envelopes, run, BatchOf(sys, envelopes, p, n));
            var next := PublishNext(sys, envelopes, run, p, crash);
            var bytes := p.bytes + Total(Payloads(BatchOf(sys, envelopes, p, n).records));
            r.Applied? ==>
              && next.run == (if bytes <= sys.limit && !crash.BeforeCommit? then r.run else run)
              && (next.process.Some? <==> bytes <= sys.limit && crash.NoCrash?)
  {
    NextAtCursor(envelopes, n);
  }

  lemma PublishFits(sys: System, envelopes: seq<Envelope>, p: Process, n: nat)
    requires Ordered(envelopes) && n < |envelopes| && ProcessAt(sys, envelopes, p, n)
    ensures p.bytes + Total(Payloads(BatchOf(sys, envelopes, p, n).records)) == LineBytes(sys, envelopes[..n + 1])
  {
    CommittedGrows(sys, envelopes, p, n);
    CommittedBytes(sys, envelopes, n + 1);
  }

  /**
   * A live process completes the run exactly when every envelope is committed,
   * the whole output fits the limit, and it does not die before; it does not
   * survive the attempt.
   */
  lemma FinishesExactly(sys: System, envelopes: seq<Envelope>, steps: seq<Step>, crash: Crash)
    requires Ordered(envelopes) && envelopes != [] && After(sys, envelopes, steps).process.Some?
    ensures var w, next := After(sys, envelopes, steps), After(sys, envelopes, steps + [Finish(crash)]);
            var done := && |w.run.batches| == |envelopes| && crash != BeforeCommit
                        && Total(AllLines(sys, envelopes, Play(sys, envelopes))) <= sys.limit;
            && next.process.None? && !w.run.complete && next.run.complete == done
            && (!done ==> next.run == w.run)
  {
    var w := After(sys, envelopes, steps);
    Reached(sys, envelopes, steps);
    AfterOne(sys, envelopes, steps, Finish(crash));
    var n := |w.run.batches|;
    var p := w.process.value;
    if p.cursor == Some(envelopes[|envelopes| - 1].sequence) {
      LastCursor(envelopes, n);
      AllBytes(sys, envelopes);
      assert envelopes[..n] == envelopes;
      CompletionApplies(sys, envelopes, w.run);
    } else {
      assert n < |envelopes|;
    }
  }

  // ---- One more envelope ------------------------------------------------------------------------

  /** Playing an envelope appends what the broker does, in its order, and one decision; nothing earlier changes. */
  lemma PlayReacts(sys: System, envelopes: seq<Envelope>)
    requires envelopes != []
    ensures var n := |envelopes| - 1;
            var before, after := Play(sys, envelopes[..n]), Play(sys, envelopes);
            var e, r := envelopes[n], sys.react(before.broker, envelopes[n]);
            && after.broker == r.broker
            && |after.events| == |before.events| + |r.bodies| && after.events[..|before.events|] == before.events
            && (forall k :: 0 <= k < |r.bodies| ==>
                  after.events[|before.events| + k] == PaperEvent(|before.events| + k + 1, e.sequence, r.bodies[k]))
            && after.decisions == before.decisions + [Decision(e.sequence, r.decision)]
  {
  }

  // ---- The output, line by line and row by row -----------------------------------------------------

  /** Where the decision stands that a paper event was made under. */
  lemma MadeUnder(sys: System, envelopes: seq<Envelope>, k: nat) returns (j: nat)
    requires Ordered(envelopes) && k < |Play(sys, envelopes).events|
    ensures var m := Play(sys, envelopes);
            && j < |envelopes| == |m.decisions| && m.decisions[j].source == envelopes[j].sequence == m.events[k].source
            && |PaperLinesOf(sys, m)| == |m.events| && PaperLinesOf(sys, m)[k] == sys.encodePaper(m.events[k], Some(m.decisions[j]))
  {
    var m := Play(sys, envelopes);
    EventsAreNumbered(sys, envelopes);
    SourcesAreOlder(sys, envelopes);
    assert m.events[k] in m.events;
    j :| 0 <= j < |envelopes| && envelopes[j].sequence == m.events[k].source;
    DecisionMapHolds(m.decisions, j);
  }

  /** The line of a paper event, under the decision on the envelope it came from. */
  predicate PaperLineOf(sys: System, envelopes: seq<Envelope>, m: Memory, e: PaperEvent, line: Bytes) {
    |m.decisions| == |envelopes|
    && exists j :: 0 <= j < |envelopes| && envelopes[j].sequence == e.source && line == sys.encodePaper(e, Some(m.decisions[j]))
  }

  /**
   * The one-shot output has a line for every envelope, then one for every paper
   * event under the decision on its envelope, and one summary of all.
   */
  lemma LinesExactly(sys: System, envelopes: seq<Envelope>)
    requires Ordered(envelopes)
    ensures var m, n := Play(sys, envelopes), |envelopes|;
            var lines := AllLines(sys, envelopes, m);
            && |lines| == n + |m.events| + 1
            && (forall i :: 0 <= i < n ==> lines[i] == sys.encodeMarket(envelopes[i]))
            && (forall k :: 0 <= k < |m.events| ==> PaperLineOf(sys, envelopes, m, m.events[k], lines[n + k]))
            && lines[n + |m.events|] == sys.encodeSummary(n, n, m)
  {
    var m, n := Play(sys, envelopes), |envelopes|;
    var lines := AllLines(sys, envelopes, m);
    EventsAreNumbered(sys, envelopes);
    forall k | 0 <= k < |m.events| ensures PaperLineOf(sys, envelopes, m, m.events[k], lines[n + k]) {
      var j := MadeUnder(sys, envelopes, k);
      assert lines[n + k] == PaperLinesOf(sys, m)[k];
      assert envelopes[j].sequence == m.events[k].source;
    }
  }

  predicate MarketRowOf(sys: System, e: Envelope, i: nat, r: OutboxRecord) {
    r == OutboxRecord(i, MarketRecord, Some(e.sequence), None, sys.encodeMarket(e))
  }

  /** Paper rows come behind the places of all market rows, counted from 1. */
  predicate PaperRowOf(sys: System, envelopes: seq<Envelope>, n: nat, m: Memory, k: nat, r: OutboxRecord)
    requires n <= |envelopes| && k < |m.events|
  {
    && r == OutboxRecord(|envelopes| + k, PaperRecord, Some(m.events[k].source), Some(k + 1), r.payload)
    && PaperLineOf(sys, envelopes[..n], m, m.events[k], r.payload)
  }

  /** What the outbox holds after n envelopes. */
  predicate Belongs(sys: System, envelopes: seq<Envelope>, n: nat, complete: bool, r: OutboxRecord)
    requires n <= |envelopes|
  {
    var m := Play(sys, envelopes[..n]);
    || (exists i :: 0 <= i < n && MarketRowOf(sys, envelopes[i], i, r))
    || (exists k :: 0 <= k < |m.events| && PaperRowOf(sys, envelopes, n, m, k, r))
    || (complete && r == OutboxRecord(|envelopes| + |m.events|, SummaryRecord, None, None,
                                      sys.encodeSummary(|envelopes|, |envelopes|, m)))
  }

  lemma InsertedExactly(sys: System, envelopes: seq<Envelope>, n: nat, r: OutboxRecord)
    requires Ordered(envelopes) && n <= |envelopes|
    ensures r in Inserted(sys, envelopes, n) <==> Belongs(sys, envelopes, n, false, r)
  {
    var m := Play(sys, envelopes[..n]);
    InsertedIsLaid(sys, envelopes, n);
    SameMembers(Inserted(sys, envelopes, n), Laid(sys, envelopes, n, m));
    var paper := PaperRows(|envelopes|, m.events, PaperLinesOf(sys, m));
    MarketRowsExactly(sys, envelopes, n, r);
    forall k | 0 <= k < |m.events| ensures PaperRowOf(sys, envelopes, n, m, k, r) <==> r == paper[k] {
      PaperRowsExactly(sys, envelopes, n, k, r);
    }
    assert Laid(sys, envelopes, n, m) == MarketRows(sys, envelopes, n) + paper;
    assert r in paper <==> exists k :: 0 <= k < |m.events| && paper[k] == r;
  }

  lemma MarketRowsExactly(sys: System, envelopes: seq<Envelope>, n: nat, r: OutboxRecord)
    requires n <= |envelopes|
    ensures r in MarketRows(sys, envelopes, n) <==> exists i :: 0 <= i < n && MarketRowOf(sys, envelopes[i], i, r)
  {
    var rows := MarketRows(sys, envelopes, n);
    assert forall i :: 0 <= i < n ==> (MarketRowOf(sys, envelopes[i], i, r) <==> rows[i] == r);
  }

  lemma PaperRowsExactly(sys: System, envelopes: seq<Envelope>, n: nat, k: nat, r: OutboxRecord)
    requires Ordered(envelopes) && n <= |envelopes| && Numbered(Play(sys, envelopes[..n]).events)
    requires k < |Play(sys, envelopes[..n]).events|
    ensures var m := Play(sys, envelopes[..n]);
            PaperRowOf(sys, envelopes, n, m, k, r) <==> r == PaperRows(|envelopes|, m.events, PaperLinesOf(sys, m))[k]
  {
    var m := Play(sys, envelopes[..n]);
    var j := MadeUnder(sys, envelopes[..n], k);
    assert envelopes[..n][j].sequence == m.events[k].source;
    forall i | 0 <= i < n && envelopes[..n][i].sequence == m.events[k].source ensures i == j {
      assert envelopes[i].sequence == envelopes[j].sequence;
    }
  }

  /** In every state that crashes can leave, the outbox holds exactly the rows of what is committed. */
  lemma RowsExactly(sys: System, envelopes: seq<Envelope>, steps: seq<Step>, r: OutboxRecord)
    requires Ordered(envelopes) && envelopes != []
    ensures var run := After(sys, envelopes, steps).run;
            && |run.batches| <= |envelopes|
            && (r in run.rows <==> Belongs(sys, envelopes, |run.batches|, run.complete, r))
  {
    Reached(sys, envelopes, steps);
    var run := After(sys, envelopes, steps).run;
    RunRowsExactly(sys, envelopes, run, |run.batches|, r);
  }

  lemma RunRowsExactly(sys: System, envelopes: seq<Envelope>, run: RunRow, n: nat, r: OutboxRecord)
    requires Ordered(envelopes) && n <= |envelopes| && RunAt(sys, envelopes, run, n)
    ensures r in run.rows <==> Belongs(sys, envelopes, n, run.complete, r)
  {
    InsertedExactly(sys, envelopes, n, r);
    if run.complete {
      assert envelopes[..n] == envelopes;
      SummaryRowIs(sys, envelopes);
    }
  }

  lemma SummaryRowIs(sys: System, envelopes: seq<Envelope>)
    ensures var m := Play(sys, envelopes);
            SummaryRow(sys, envelopes, m)
            == OutboxRecord(|envelopes| + |m.events|, SummaryRecord, None, None, sys.encodeSummary(|envelopes|, |envelopes|, m))
  {
    EventsAreNumbered(sys, envelopes);
  }
}
