/**
 * What an uninterrupted paper run produces: tx_trade/app/research_output.py on
 * top of an abstract deterministic broker and strategy.
 */
module PaperReplay {
  import opened Wrappers

  type Bytes = seq<bv8>

  datatype Envelope = Envelope(sequence: nat, body: string)

  datatype Decision = Decision(source: nat, body: string)

  /** Paper sequences count up from 1 without a gap (tx_trade/orders/paper_broker.py). */
  datatype PaperEvent = PaperEvent(paperSequence: nat, source: nat, body: string)

  /** The broker and coordinator together; a checkpoint restores exactly this. */
  datatype Memory = Memory(broker: string, events: seq<PaperEvent>, decisions: seq<Decision>)

  datatype Reaction = Reaction(broker: string, bodies: seq<string>, decision: string)

  datatype System = System(
    start: string,
    react: (string, Envelope) -> Reaction,
    encodeMarket: Envelope -> Bytes,
    encodePaper: (PaperEvent, Option<Decision>) -> Bytes,
    encodeSummary: (nat, nat, Memory) -> Bytes,
    limit: nat)

  // ---- Playing envelopes ------------------------------------------------------------------

  function NewEvents(count: nat, source: nat, bodies: seq<string>): seq<PaperEvent> {
    seq(|bodies|, i requires 0 <= i < |bodies| => PaperEvent(count + i + 1, source, bodies[i]))
  }

  /** `coordinator.publish`: the broker reacts, its events are appended, the decision is recorded. */
  function PublishTo(sys: System, m: Memory, e: Envelope): Memory {
    var r := sys.react(m.broker, e);
    Memory(r.broker, m.events + NewEvents(|m.events|, e.sequence, r.bodies), m.decisions + [Decision(e.sequence, r.decision)])
  }

  function Fresh(sys: System): Memory {
    Memory(sys.start, [], [])
  }

  function Play(sys: System, envelopes: seq<Envelope>): Memory {
    if envelopes == [] then Fresh(sys)
    else PublishTo(sys, Play(sys, envelopes[..|envelopes| - 1]), envelopes[|envelopes| - 1])
  }

  /** The scanned source is strictly ordered. */
  predicate Ordered(envelopes: seq<Envelope>) {
    forall i, j :: 0 <= i < j < |envelopes| ==> envelopes[i].sequence < envelopes[j].sequence
  }

  lemma {:induction false} EventsAreNumbered(sys: System, envelopes: seq<Envelope>)
    ensures forall i :: 0 <= i < |Play(sys, envelopes).events| ==> Play(sys, envelopes).events[i].paperSequence == i + 1
    ensures |Play(sys, envelopes).decisions| == |envelopes|
    ensures forall i :: 0 <= i < |envelopes| ==> Play(sys, envelopes).decisions[i].source == envelopes[i].sequence
  {
    if envelopes != [] {
      EventsAreNumbered(sys, envelopes[..|envelopes| - 1]);
    }
  }

  // ---- Correlating events with decisions -------------------------------------------------------

  /** The dictionary of decisions by source; a later one would overwrite an earlier one. */
  function DecisionMap(decisions: seq<Decision>): map<nat, Decision> {
    if decisions == [] then map[]
    else DecisionMap(decisions[..|decisions| - 1])[decisions[|decisions| - 1].source := decisions[|decisions| - 1]]
  }

  function Lookup(decisions: map<nat, Decision>, source: nat): Option<Decision> {
    if source in decisions then Some(decisions[source]) else None
  }

  /** The first record with a source, as the durable sink searches. */
  function FirstDecision(decisions: seq<Decision>, source: nat): Option<Decision> {
    if decisions == [] then None
    else if decisions[0].source == source then Some(decisions[0])
    else FirstDecision(decisions[1..], source)
  }

  lemma {:induction false} DecisionMapHolds(decisions: seq<Decision>, i: nat)
    requires i < |decisions| && forall j :: i < j < |decisions| ==> decisions[j].source != decisions[i].source
    ensures Lookup(DecisionMap(decisions), decisions[i].source) == Some(decisions[i])
  {
    if i < |decisions| - 1 {
      DecisionMapHolds(decisions[..|decisions| - 1], i);
    }
  }

  lemma {:induction false} FirstDecisionHolds(decisions: seq<Decision>, i: nat)
    requires i < |decisions| && forall j :: 0 <= j < i ==> decisions[j].source != decisions[i].source
    ensures FirstDecision(decisions, decisions[i].source) == Some(decisions[i])
  {
    if i > 0 {
      assert decisions[1..][i - 1] == decisions[i];
      FirstDecisionHolds(decisions[1..], i - 1);
    }
  }

  // ---- Lines ------------------------------------------------------------------------------------

  function MarketLines(sys: System, envelopes: seq<Envelope>): (lines: seq<Bytes>)
    ensures |lines| == |envelopes|
  {
    seq(|envelopes|, i requires 0 <= i < |envelopes| => sys.encodeMarket(envelopes[i]))
  }

  function PaperLines(sys: System, events: seq<PaperEvent>, decisions: map<nat, Decision>): (lines: seq<Bytes>)
    ensures |lines| == |events|
  {
    seq(|events|, i requires 0 <= i < |events| => sys.encodePaper(events[i], Lookup(decisions, events[i].source)))
  }

  function PaperLinesOf(sys: System, m: Memory): seq<Bytes> {
    PaperLines(sys, m.events, DecisionMap(m.decisions))
  }

  function SummaryLine(sys: System, envelopes: seq<Envelope>, m: Memory): Bytes {
    sys.encodeSummary(|envelopes|, |m.decisions|, m)
  }

  function Concat(lines: seq<Bytes>): Bytes {
    if lines == [] then [] else Concat(lines[..|lines| - 1]) + lines[|lines| - 1]
  }

  function Total(lines: seq<Bytes>): nat {
    if lines == [] then 0 else Total(lines[..|lines| - 1]) + |lines[|lines| - 1]|
  }

  lemma {:induction false} ConcatLength(lines: seq<Bytes>)
    ensures |Concat(lines)| == Total(lines)
  {
    if lines != [] {
      ConcatLength(lines[..|lines| - 1]);
    }
  }

  lemma {:induction false} TotalConcat(a: seq<Bytes>, b: seq<Bytes>)
    ensures Total(a + b) == Total(a) + Total(b)
  {
    if b == [] {
      assert a + b == a;
    } else {
      assert (a + b)[..|a + b| - 1] == a + b[..|b| - 1];
      TotalConcat(a, b[..|b| - 1]);
    }
  }

  /** Each line stands in the output where the lines before it end. */
  lemma {:induction false} ConcatPlaces(lines: seq<Bytes>, i: nat)
    requires i < |lines|
    ensures var start := Total(lines[..i]);
            start + |lines[i]| <= |Concat(lines)| && Concat(lines)[start..start + |lines[i]|] == lines[i]
  {
    var n := |lines| - 1;
    ConcatLength(lines[..n]);
    if i < n {
      assert lines[..n][..i] == lines[..i];
      ConcatPlaces(lines[..n], i);
      SliceOfPrefix(Concat(lines[..n]), lines[n], Total(lines[..i]), lines[i]);
    }
  }

  lemma SliceOfPrefix(bytes: Bytes, more: Bytes, start: nat, line: Bytes)
    requires start + |line| <= |bytes| && bytes[start..start + |line|] == line
    ensures (bytes + more)[start..start + |line|] == line
  {
  }

  /** All lines of a completed run, in output order. */
  function AllLines(sys: System, envelopes: seq<Envelope>, m: Memory): seq<Bytes> {
    MarketLines(sys, envelopes) + PaperLinesOf(sys, m) + [SummaryLine(sys, envelopes, m)]
  }

  /** `_materialize`: the whole output, or None when it exceeds the byte limit. */
  function OneShot(sys: System, envelopes: seq<Envelope>, m: Memory): Option<Bytes> {
    var lines := AllLines(sys, envelopes, m);
    if Total(lines) <= sys.limit then Some(Concat(lines)) else None
  }

  // ---- Playing one more envelope -----------------------------------------------------------------

  /** One more envelope adds its events at the end and leaves the lines of earlier events as they were. */
  lemma PlayExtends(sys: System, envelopes: seq<Envelope>)
    requires envelopes != [] && Ordered(envelopes)
    ensures var n := |envelopes| - 1;
            var before, after := Play(sys, envelopes[..n]), Play(sys, envelopes);
            var bodies := sys.react(before.broker, envelopes[n]).bodies;
            var added := NewEvents(|before.events|, envelopes[n].sequence, bodies);
            && after.events == before.events + added
            && PaperLinesOf(sys, after)
               == PaperLinesOf(sys, before) + PaperLines(sys, added, DecisionMap(after.decisions))
  {
    var n := |envelopes| - 1;
    var before, after := Play(sys, envelopes[..n]), Play(sys, envelopes);
    var added := NewEvents(|before.events|, envelopes[n].sequence, sys.react(before.broker, envelopes[n]).bodies);
    forall i | 0 <= i < |before.events|
      ensures Lookup(DecisionMap(after.decisions), before.events[i].source) == Lookup(DecisionMap(before.decisions), before.events[i].source)
    {
      EarlierLookup(sys, envelopes, i);
    }
    LinesExtend(sys, before.events, added, DecisionMap(before.decisions), DecisionMap(after.decisions));
  }

  lemma LinesExtend(sys: System, earlier: seq<PaperEvent>, added: seq<PaperEvent>, before: map<nat, Decision>, after: map<nat, Decision>)
    requires forall i :: 0 <= i < |earlier| ==> Lookup(after, earlier[i].source) == Lookup(before, earlier[i].source)
    ensures PaperLines(sys, earlier + added, after) == PaperLines(sys, earlier, before) + PaperLines(sys, added, after)
  {
  }

  /** The decision for a new envelope does not touch those of earlier events. */
  lemma EarlierLookup(sys: System, envelopes: seq<Envelope>, i: nat)
    requires envelopes != [] && Ordered(envelopes) && i < |Play(sys, envelopes[..|envelopes| - 1]).events|
    ensures var before, after := Play(sys, envelopes[..|envelopes| - 1]), Play(sys, envelopes);
            Lookup(DecisionMap(after.decisions), before.events[i].source) == Lookup(DecisionMap(before.decisions), before.events[i].source)
  {
    var n := |envelopes| - 1;
    var before, after := Play(sys, envelopes[..n]), Play(sys, envelopes);
    SourcesAreOlder(sys, envelopes[..n]);
    assert before.events[i] in before.events;
    var j :| 0 <= j < n && envelopes[..n][j].sequence == before.events[i].source;
    assert envelopes[j].sequence < envelopes[n].sequence;
    OtherSource(before.decisions, after.decisions[|before.decisions|], before.events[i].source);
  }

  lemma OtherSource(decisions: seq<Decision>, last: Decision, source: nat)
    requires last.source != source
    ensures Lookup(DecisionMap(decisions + [last]), source) == Lookup(DecisionMap(decisions), source)
  {
    assert (decisions + [last])[..|decisions|] == decisions;
  }

  predicate FromSource(e: PaperEvent, envelopes: seq<Envelope>) {
    exists j :: 0 <= j < |envelopes| && envelopes[j].sequence == e.source
  }

  lemma {:induction false} SourcesAreOlder(sys: System, envelopes: seq<Envelope>)
    ensures forall e :: e in Play(sys, envelopes).events ==> FromSource(e, envelopes)
  {
    if envelopes != [] {
      var n := |envelopes| - 1;
      SourcesAreOlder(sys, envelopes[..n]);
      forall e | e in Play(sys, envelopes).events ensures FromSource(e, envelopes) {
        if e in Play(sys, envelopes[..n]).events {
          var j :| 0 <= j < n && envelopes[..n][j].sequence == e.source;
          assert envelopes[j].sequence == e.source;
        } else {
          assert envelopes[n].sequence == e.source;
        }
      }
    }
  }

  /** The decision a durable publish attaches to its new events is the one the output looks up. */
  lemma SameDecision(sys: System, envelopes: seq<Envelope>)
    requires envelopes != [] && Ordered(envelopes)
    ensures var after, source := Play(sys, envelopes), envelopes[|envelopes| - 1].sequence;
            && FirstDecision(after.decisions, source) == Lookup(DecisionMap(after.decisions), source)
            && FirstDecision(after.decisions, source).Some?
  {
    var n := |envelopes| - 1;
    var after := Play(sys, envelopes);
    EventsAreNumbered(sys, envelopes);
    DecisionMapHolds(after.decisions, n);
    FirstDecisionHolds(after.decisions, n);
  }
}
