/**
 * The loops and objects behind the two ways of producing research output:
 * `_materialize` of tx_trade/app/research_output.py, and `_durable_prefix_bytes`
 * and `_DurableCoordinatorSink` of tx_trade/app/research_paper.py.
 */
module DurableOutput {
  import opened Wrappers
  import opened PaperReplay
  import opened ResearchState
  import opened CrashResume

  lemma TotalAppend(lines: seq<Bytes>, line: Bytes)
    ensures Total(lines + [line]) == Total(lines) + |line|
    ensures Concat(lines + [line]) == Concat(lines) + line
  {
    assert (lines + [line])[..|lines|] == lines;
  }

  method IndexDecisions(decisions: seq<Decision>) returns (bySource: map<nat, Decision>)
    ensures bySource == DecisionMap(decisions)
  {
    bySource := map[];
    for i := 0 to |decisions|
      invariant bySource == DecisionMap(decisions[..i])
    {
      bySource := bySource[decisions[i].source := decisions[i]];
      assert decisions[..i + 1][..i] == decisions[..i];
    }
    assert decisions[..|decisions|] == decisions;
  }

  /** Appends lines while they fit; None stands for the capacity error. */
  method AppendLines(sys: System, lines: seq<Bytes>, more: seq<Bytes>, bytes: nat) returns (result: Option<seq<Bytes>>, next: nat)
    requires bytes == Total(lines) <= sys.limit
    ensures result.Some? <==> Total(lines + more) <= sys.limit
    ensures result.Some? ==> result.value == lines + more && next == Total(lines + more)
  {
    var all := lines;
    next := bytes;
    TotalConcat(lines, more);
    for i := 0 to |more|
      invariant all == lines + more[..i] && next == Total(all) <= sys.limit
      invariant next == Total(lines) + Total(more[..i])
    {
      assert more[..i + 1] == more[..i] + [more[i]];
      TotalAppend(more[..i], more[i]);
      TotalAppend(all, more[i]);
      if next + |more[i]| > sys.limit {
        TotalGrows(more, i + 1);
        return None, next;
      }
      all, next := all + [more[i]], next + |more[i]|;
      assert all == lines + more[..i + 1];
    }
    assert more[..|more|] == more;
    result := Some(all);
  }

  lemma TotalGrows(lines: seq<Bytes>, i: nat)
    requires i <= |lines|
    ensures Total(lines[..i]) <= Total(lines)
  {
    TotalConcat(lines[..i], lines[i..]);
    assert lines == lines[..i] + lines[i..];
  }

  /** One-shot output: all market lines, all paper lines, the summary; None when the limit is exceeded anywhere. */
  method Materialize(sys: System, envelopes: seq<Envelope>, m: Memory) returns (output: Option<Bytes>)
    ensures output == OneShot(sys, envelopes, m)
  {
    var bySource := IndexDecisions(m.decisions);
    var market, paper := MarketLines(sys, envelopes), PaperLines(sys, m.events, bySource);
    var summary := SummaryLine(sys, envelopes, m);
    TotalConcat(market + paper, [summary]);
    TotalConcat(market, paper);
    var lines, bytes := AppendLines(sys, [], market, 0);
    assert [] + market == market;
    if lines.None? {
      return None;
    }
    lines, bytes := AppendLines(sys, lines.value, paper, bytes);
    if lines.None? {
      return None;
    }
    lines, bytes := AppendLines(sys, lines.value, [summary], bytes);
    if lines.None? {
      return None;
    }
    output := Some(Concat(lines.value));
  }

  /** The committed bytes recomputed by summing over the committed envelopes and the events in the checkpoint. */
  method DurablePrefixBytes(sys: System, envelopes: seq<Envelope>, cursor: Option<nat>, m: Memory) returns (bytes: nat)
    ensures bytes == PrefixBytes(sys, envelopes, cursor, m)
  {
    if cursor.None? {
      return 0;
    }
    var bySource := IndexDecisions(m.decisions);
    var market := SumMarket(sys, envelopes, cursor.value);
    var paper := SumPaper(sys, m.events, bySource);
    bytes := market + paper;
  }

  method SumMarket(sys: System, envelopes: seq<Envelope>, cursor: nat) returns (bytes: nat)
    ensures bytes == Total(MarketLines(sys, UpTo(envelopes, cursor)))
  {
    bytes := 0;
    for i := 0 to |envelopes|
      invariant bytes == Total(MarketLines(sys, UpTo(envelopes[..i], cursor)))
    {
      UpToStep(envelopes, i, cursor);
      if envelopes[i].sequence <= cursor {
        MarketAppend(sys, UpTo(envelopes[..i], cursor), envelopes[i]);
        bytes := bytes + |sys.encodeMarket(envelopes[i])|;
      }
    }
    assert envelopes[..|envelopes|] == envelopes;
  }

  lemma MarketAppend(sys: System, envelopes: seq<Envelope>, e: Envelope)
    ensures Total(MarketLines(sys, envelopes + [e])) == Total(MarketLines(sys, envelopes)) + |sys.encodeMarket(e)|
  {
    assert MarketLines(sys, envelopes + [e]) == MarketLines(sys, envelopes) + [sys.encodeMarket(e)];
    TotalAppend(MarketLines(sys, envelopes), sys.encodeMarket(e));
  }

  method SumPaper(sys: System, events: seq<PaperEvent>, bySource: map<nat, Decision>) returns (bytes: nat)
    ensures bytes == Total(PaperLines(sys, events, bySource))
  {
    bytes := 0;
    ghost var lines := PaperLines(sys, events, bySource);
    for j := 0 to |events|
      invariant bytes == Total(lines[..j])
    {
      assert lines[..j + 1] == lines[..j] + [lines[j]];
      TotalAppend(lines[..j], lines[j]);
      bytes := bytes + |sys.encodePaper(events[j], Lookup(bySource, events[j].source))|;
    }
    assert lines[..|lines|] == lines;
  }

  lemma UpToStep(envelopes: seq<Envelope>, i: nat, cursor: nat)
    requires i < |envelopes|
    ensures UpTo(envelopes[..i + 1], cursor)
            == if envelopes[i].sequence <= cursor then UpTo(envelopes[..i], cursor) + [envelopes[i]] else UpTo(envelopes[..i], cursor)
  {
    assert envelopes[..i + 1][..i] == envelopes[..i];
  }

  /** The state database: each method is one transaction. */
  class ResearchStateRepository {
    const envelopes: seq<Envelope>
    var run: RunRow

    constructor (sys: System, envelopes: seq<Envelope>)
      ensures run == Created(sys) && this.envelopes == envelopes
    {
      this.envelopes := envelopes;
      run := Created(sys);
    }

    method Commit(b: Batch) returns (result: CommitResult)
      requires envelopes != []
      modifies this
      ensures result == CommitBatch(envelopes, old(run), b)
      ensures run == if result.Applied? then result.run else old(run)
    {
      result := CommitBatch(envelopes, run, b);
      if result.Applied? {
        run := result.run;
      }
    }
  }

  /** The broker and the coordinator of a running process. */
  class PaperCoordinator {
    var memory: Memory

    constructor (m: Memory)
      ensures memory == m
    {
      memory := m;
    }

    method Publish(sys: System, e: Envelope)
      modifies this
      ensures memory == PublishTo(sys, old(memory), e)
    {
      memory := PublishTo(sys, memory, e);
    }
  }

  /** The state database knows the envelopes by their sequences alone. */
  lemma RangeBySequence(envelopes: seq<Envelope>, ordinal: nat, e: Envelope, run: RunRow, b: Batch)
    requires ordinal < |envelopes| && envelopes[ordinal].sequence == e.sequence
    ensures CommitBatch(envelopes[ordinal := e], run, b) == CommitBatch(envelopes, run, b)
  {
  }

  class DurableCoordinatorSink {
    const sys: System
    const envelopes: seq<Envelope>
    const coordinator: PaperCoordinator
    const repository: ResearchStateRepository
    var ordinalBySequence: map<nat, nat>
    var stateVersion: nat
    var committedCursor: Option<nat>
    var durableOutputBytes: nat

    ghost predicate Valid()
      reads this
    {
      && envelopes != [] && Ordered(envelopes) && repository.envelopes == envelopes
      && (forall i :: 0 <= i < |envelopes| ==>
            envelopes[i].sequence in ordinalBySequence && ordinalBySequence[envelopes[i].sequence] == i)
      && (forall s :: s in ordinalBySequence ==> ordinalBySequence[s] < |envelopes| && envelopes[ordinalBySequence[s]].sequence == s)
    }

    /** The process as CrashResume sees it. */
    function Process(): Process
      reads this, coordinator
    {
      CrashResume.Process.Process(coordinator.memory, stateVersion, committedCursor, durableOutputBytes)
    }

    constructor (sys: System, envelopes: seq<Envelope>, coordinator: PaperCoordinator, repository: ResearchStateRepository,
                 stateVersion: nat, committedCursor: Option<nat>, durableOutputBytes: nat)
      requires envelopes != [] && Ordered(envelopes) && repository.envelopes == envelopes
      ensures Valid() && this.sys == sys && this.envelopes == envelopes
      ensures this.coordinator == coordinator && this.repository == repository
      ensures Process() == CrashResume.Process.Process(coordinator.memory, stateVersion, committedCursor, durableOutputBytes)
    {
      this.sys, this.envelopes, this.coordinator, this.repository := sys, envelopes, coordinator, repository;
      this.stateVersion, this.committedCursor, this.durableOutputBytes := stateVersion, committedCursor, durableOutputBytes;
      ordinalBySequence := map i | 0 <= i < |envelopes| :: envelopes[i].sequence := i;
    }

    /**
     * Publishes one envelope: decides, then commits rows and checkpoint in one
     * transaction.  Only the sequence is looked up, so an envelope with a known
     * sequence takes the place of the registered one.  A raise, as ok false,
     * leaves the state database alone; the process is then abandoned.
     */
    method Publish(e: Envelope) returns (ok: bool)
      requires Valid()
      modifies this`stateVersion, this`committedCursor, this`durableOutputBytes, coordinator, repository
      ensures Valid()
      ensures (forall i :: 0 <= i < |envelopes| ==> envelopes[i].sequence != e.sequence) ==>
                !ok && repository.run == old(repository.run) && coordinator.memory == old(coordinator.memory)
      ensures forall i :: 0 <= i < |envelopes| && envelopes[i].sequence == e.sequence ==>
                World(repository.run, if ok then Some(Process()) else None)
                == PublishAt(sys, envelopes[i := e], old(repository.run), old(Process()), i, NoCrash)
    {
      if e.sequence !in ordinalBySequence {
        return false;
      }
      var ordinal := ordinalBySequence[e.sequence];
      var before := coordinator.memory;
      coordinator.Publish(sys, e);
      ok := CommitPublished(e, ordinal, before);
    }

    /** The second half of a publish: everything it added goes into one batch. */
    method CommitPublished(e: Envelope, ordinal: nat, before: Memory) returns (ok: bool)
      requires Valid() && ordinal < |envelopes| && envelopes[ordinal].sequence == e.sequence
      requires coordinator.memory == PublishTo(sys, before, e)
      modifies this`stateVersion, this`committedCursor, this`durableOutputBytes, repository
      ensures World(repository.run, if ok then Some(Process()) else None)
              == PublishAt(sys, envelopes[ordinal := e], old(repository.run),
                           old(CrashResume.Process.Process(before, stateVersion, committedCursor, durableOutputBytes)), ordinal, NoCrash)
    {
      var rows := CollectRows(e, ordinal, before);
      var added := SumPayloads(rows);
      if durableOutputBytes + added > sys.limit {
        return false;
      }
      var decision := FirstDecision(coordinator.memory.decisions, e.sequence);
      var batch := Batch(stateVersion, committedCursor, e.sequence, decision, coordinator.memory, rows);
      RangeBySequence(envelopes, ordinal, e, repository.run, batch);
      var result := repository.Commit(batch);
      if result.Conflict? {
        return false;
      }
      stateVersion, committedCursor := repository.run.version, repository.run.cursor;
      durableOutputBytes := durableOutputBytes + added;
      return true;
    }

    /** The market row and a row for every event the publish added. */
    method CollectRows(e: Envelope, ordinal: nat, before: Memory) returns (rows: seq<OutboxRecord>)
      requires ordinal < |envelopes| && coordinator.memory == PublishTo(sys, before, e)
      ensures rows == NewRows(sys, envelopes[ordinal := e], ordinal, before)
    {
      var decision := FirstDecision(coordinator.memory.decisions, e.sequence);
      var added := coordinator.memory.events[|before.events|..];
      ghost var expected := NewEvents(|before.events|, e.sequence, sys.react(before.broker, e).bodies);
      assert added == expected;
      ghost var lines := seq(|expected|, i requires 0 <= i < |expected| => sys.encodePaper(expected[i], decision));
      rows := [OutboxRecord(ordinal, MarketRecord, Some(e.sequence), None, sys.encodeMarket(e))];
      for i := 0 to |added|
        invariant rows == [MarketRow(sys, envelopes[ordinal := e], ordinal)] + PaperRows(|envelopes|, expected, lines)[..i]
      {
        rows := rows + [PaperRow(|envelopes|, added[i], sys.encodePaper(added[i], decision))];
      }
    }

    method SumPayloads(rows: seq<OutboxRecord>) returns (bytes: nat)
      ensures bytes == Total(Payloads(rows))
    {
      bytes := 0;
      for i := 0 to |rows|
        invariant bytes == Total(Payloads(rows[..i]))
      {
        TotalAppend(Payloads(rows[..i]), rows[i].payload);
        assert Payloads(rows[..i + 1]) == Payloads(rows[..i]) + [rows[i].payload];
        bytes := bytes + |rows[i].payload|;
      }
      assert rows[..|rows|] == rows;
    }
  }
}
