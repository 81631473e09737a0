/**
 * What the verdict of `assess_reconciliation` says about the two snapshots it
 * compares: when the evidence is ambiguous, and what each kind of discrepancy
 * reports, on local orders and fills and the broker's raw observations alone.
 */
module ReconciliationMeaning {
  import opened Wrappers
  import opened LiveContracts
  import opened Sums
  import opened ReconciliationContracts
  import opened Dedupe

  // ---- Two observations of one thing ----------------------------------------------------

  predicate SameCorrelation(a: Correlation, b: Correlation) {
    a == b.(correlatedAt := a.correlatedAt)
  }

  /** The two observations say the same; only their delivery differs. */
  predicate SameOpenFacts(a: OpenObs, b: OpenObs) {
    && a.accountId == b.accountId && a.instrumentId == b.instrumentId && a.side == b.side
    && a.total == b.total && a.remaining == b.remaining && a.limitPrice == b.limitPrice
    && SameCorrelation(a.correlation, b.correlation)
  }

  predicate SameFillFacts(a: FillObs, b: FillObs) {
    && a.accountId == b.accountId && a.instrumentId == b.instrumentId && a.side == b.side
    && a.quantity == b.quantity && a.price == b.price && a.occurredAt == b.occurredAt
    && SameCorrelation(a.correlation, b.correlation)
  }

  predicate SamePositionFacts(a: Position, b: Position) {
    a.accountId == b.accountId && a.instrumentId == b.instrumentId && a.net == b.net && a.average == b.average
  }

  predicate Shared(a: Option<Id>, b: Option<Id>) {
    a.Some? && a == b
  }

  /** The two observations use one identity: their observation id, or the order both surely speak of. */
  predicate OpenIdentityShared(a: OpenObs, b: OpenObs) {
    || a.observationId == b.observationId
    || (a.correlation.status.Confirmed? && b.correlation.status.Confirmed?
        && Shared(a.correlation.clientOrderId, b.correlation.clientOrderId))
  }

  predicate FillIdentityShared(a: FillObs, b: FillObs) {
    || a.observationId == b.observationId
    || Shared(a.correlation.brokerFillId, b.correlation.brokerFillId)
    || Shared(a.correlation.executionNo, b.correlation.executionNo)
  }

  predicate OpenContradicted(broker: BrokerSnapshot, b: OpenObs) {
    exists c :: c in broker.open && OpenIdentityShared(b, c) && !SameOpenFacts(b, c)
  }

  predicate FillContradicted(broker: BrokerSnapshot, f: FillObs) {
    exists g :: g in broker.fills && FillIdentityShared(f, g) && !SameFillFacts(f, g)
  }

  predicate PositionContradicted(broker: BrokerSnapshot, instrumentId: Id) {
    exists p, q :: p in broker.positions && q in broker.positions && p.instrumentId == instrumentId && q.instrumentId == instrumentId
                   && !SamePositionFacts(p, q)
  }

  predicate OpenTrusted(broker: BrokerSnapshot, b: OpenObs) {
    b.correlation.status == Confirmed && !OpenContradicted(broker, b)
  }

  predicate FillTrusted(broker: BrokerSnapshot, f: FillObs) {
    f.correlation.status == Confirmed && !FillContradicted(broker, f)
  }

  // ---- Which local fill a broker fill names ---------------------------------------------

  predicate Names(f: FillObs, l: LiveFill) {
    f.correlation.brokerFillId == Some(l.fillId) || f.correlation.executionNo == Some(l.fillId)
  }

  ghost predicate NamesOnly(local: LocalSnapshot, f: FillObs, l: LiveFill) {
    && l in local.fills && Names(f, l)
    && forall m :: m in local.fills && Names(f, m) ==> m == l
  }

  predicate NamesTwo(local: LocalSnapshot, f: FillObs) {
    exists l, m :: l in local.fills && m in local.fills && l != m && Names(f, l) && Names(f, m)
  }

  /** Two trusted broker fills that say different things name the same one local fill. */
  ghost predicate Rivals(local: LocalSnapshot, broker: BrokerSnapshot, f: FillObs, g: FillObs, l: LiveFill) {
    FillTrusted(broker, f) && FillTrusted(broker, g) && !SameFillFacts(f, g) && NamesOnly(local, f, l) && NamesOnly(local, g, l)
  }

  // ---- When the evidence is ambiguous ----------------------------------------------------

  ghost predicate OrdersUnclear(broker: BrokerSnapshot) {
    || (exists b :: b in broker.open && OpenContradicted(broker, b))
    || (exists b :: b in broker.open && b.correlation.status != Confirmed)
  }

  ghost predicate FillsUnclear(local: LocalSnapshot, broker: BrokerSnapshot) {
    || (exists f :: f in broker.fills && FillContradicted(broker, f))
    || (exists f :: f in broker.fills && f.correlation.status != Confirmed)
    || (exists f :: f in broker.fills && FillTrusted(broker, f) && NamesTwo(local, f))
    || (exists f, g, l :: f in broker.fills && g in broker.fills && Rivals(local, broker, f, g, l))
  }

  ghost predicate PositionsUnclear(broker: BrokerSnapshot) {
    exists p :: p in broker.positions && PositionContradicted(broker, p.instrumentId)
  }

  /**
   * An identity is used for two different things, an order or fill is not
   * confirmed, a trusted fill names two local fills, or two trusted fills that
   * differ name the same one.
   */
  ghost predicate Unclear(local: LocalSnapshot, broker: BrokerSnapshot) {
    OrdersUnclear(broker) || FillsUnclear(local, broker) || PositionsUnclear(broker)
  }

  /** Two accounts, an assessment before one of its snapshots, or evidence older than the local state it is held against. */
  predicate Untimely(local: LocalSnapshot, broker: BrokerSnapshot, at: Time) {
    || local.accountId != broker.accountId
    || at < local.asOf || at < broker.capturedAt
    || exists e :: e in [broker.openEvidence, broker.fillEvidence, broker.positionEvidence] && e.observedAt < local.asOf
  }

  predicate SomethingMissing(broker: BrokerSnapshot) {
    broker.openEvidence.status != Complete || broker.fillEvidence.status != Complete || broker.positionEvidence.status != Complete
  }

  // ---- What each discrepancy reports ------------------------------------------------------

  /** Of the observations that say the same, the first to arrive is the one that is looked at. */
  ghost predicate OpenLookedAt(broker: BrokerSnapshot, b: OpenObs) {
    exists i :: 0 <= i < |broker.open| && broker.open[i] == b && forall j :: 0 <= j < i ==> !SameOpenFacts(broker.open[j], b)
  }

  ghost predicate FillLookedAt(broker: BrokerSnapshot, f: FillObs) {
    exists i :: 0 <= i < |broker.fills| && broker.fills[i] == f && forall j :: 0 <= j < i ==> !SameFillFacts(broker.fills[j], f)
  }

  predicate AtWork(o: LiveOrder) {
    o.state in {Accepted, PartiallyFilled, CancelPending}
  }

  /** The observation is trusted, and reports under this instrument and client id. */
  ghost predicate OpenSpeaksFor(broker: BrokerSnapshot, b: OpenObs, d: Discrepancy) {
    && OpenLookedAt(broker, b) && OpenTrusted(broker, b)
    && b.instrumentId == d.instrumentId && b.correlation.clientOrderId == d.clientOrderId
  }

  predicate Concerns(o: LiveOrder, b: OpenObs) {
    b.correlation.clientOrderId == Some(o.intent.clientOrderId)
  }

  /** The broker works an order that is not known here. */
  ghost predicate ReportsUnknownOrder(local: LocalSnapshot, broker: BrokerSnapshot, d: Discrepancy) {
    d.quantities.None? && exists b :: OpenSpeaksFor(broker, b, d) && forall o :: o in local.orders ==> !Concerns(o, b)
  }

  /** The broker works an order that has ended or not begun here, or on another instrument, side or price. */
  ghost predicate ReportsOtherOrder(local: LocalSnapshot, broker: BrokerSnapshot, d: Discrepancy) {
    d.quantities.None? && exists b, o :: OpenSpeaksFor(broker, b, d) && o in local.orders && Concerns(o, b) && OtherOrder(o, b)
  }

  predicate OtherOrder(o: LiveOrder, b: OpenObs) {
    || o.intent.instrumentId != b.instrumentId || o.intent.side != b.side || o.limitPrice != b.limitPrice
    || (!AtWork(o) && o.pending.None?)
  }

  /** The totals of a working order differ, or else what remains of it: first the local figure, then the broker's. */
  ghost predicate ReportsOtherQuantity(local: LocalSnapshot, broker: BrokerSnapshot, d: Discrepancy) {
    exists b, o :: OpenSpeaksFor(broker, b, d) && o in local.orders && Concerns(o, b) && AtWork(o) && OtherQuantity(o, b, d.quantities)
  }

  predicate OtherQuantity(o: LiveOrder, b: OpenObs, quantities: Option<(real, real)>) {
    || (o.total != b.total && quantities == Some((o.total, b.total)))
    || (o.total == b.total && o.remaining != b.remaining && quantities == Some((o.remaining, b.remaining)))
  }

  /** A working order without a pending command that the complete and clear evidence does not show. */
  ghost predicate ReportsVanishedOrder(local: LocalSnapshot, broker: BrokerSnapshot, d: Discrepancy) {
    && d.quantities.None? && broker.openEvidence.status == Complete && !OrdersUnclear(broker)
    && exists o :: o in local.orders && AtWork(o) && o.pending.None? && Under(o, d)
                   && forall b :: b in broker.open ==> !Concerns(o, b)
  }

  predicate Under(o: LiveOrder, d: Discrepancy) {
    d.instrumentId == o.intent.instrumentId && d.clientOrderId == Some(o.intent.clientOrderId)
  }

  /** An order with a pending command, under its client id, or an order or fill of the broker that cannot be trusted, under none. */
  ghost predicate ReportsLooseEnd(local: LocalSnapshot, broker: BrokerSnapshot, d: Discrepancy) {
    && d.quantities.None?
    && if d.clientOrderId.Some? then exists o :: o in local.orders && o.pending.Some? && Under(o, d)
       else || (exists b :: OpenLookedAt(broker, b) && !OpenTrusted(broker, b) && b.instrumentId == d.instrumentId)
            || (exists f :: FillLookedAt(broker, f) && !FillTrusted(broker, f) && f.instrumentId == d.instrumentId)
  }

  predicate OtherFill(l: LiveFill, f: FillObs) {
    || l.accountId != f.accountId || l.instrumentId != f.instrumentId || l.side != f.side
    || l.quantity != f.quantity || l.price != f.price || f.correlation.clientOrderId != Some(l.clientOrderId)
    || (f.occurredAt.Some? && f.occurredAt.value != l.occurredAt)
  }

  /** Two of the fills looked at are rivals for this local fill. */
  ghost predicate Contested(local: LocalSnapshot, broker: BrokerSnapshot, l: LiveFill) {
    exists f, g :: FillLookedAt(broker, f) && FillLookedAt(broker, g) && Rivals(local, broker, f, g, l)
  }

  /** A trusted broker fill that names no local fill or several, or one that is contested or that differs. */
  ghost predicate FillDisagrees(local: LocalSnapshot, broker: BrokerSnapshot, f: FillObs, d: Discrepancy) {
    || ((forall l :: l in local.fills ==> !Names(f, l)) && d.clientOrderId == f.correlation.clientOrderId)
    || (NamesTwo(local, f) && d.clientOrderId == f.correlation.clientOrderId)
    || exists l :: NamesOnly(local, f, l) && (if Contested(local, broker, l) then d.clientOrderId == f.correlation.clientOrderId
                                              else OtherFill(l, f) && d.clientOrderId == Some(l.clientOrderId))
  }

  /** A local fill that the complete and clear evidence does not show. */
  ghost predicate FillVanished(local: LocalSnapshot, broker: BrokerSnapshot, l: LiveFill, d: Discrepancy) {
    && l in local.fills && d.instrumentId == l.instrumentId && d.clientOrderId == Some(l.clientOrderId)
    && forall f :: f in broker.fills ==> !Names(f, l)
  }

  ghost predicate ReportsFill(local: LocalSnapshot, broker: BrokerSnapshot, d: Discrepancy) {
    && d.quantities.None?
    && (|| (exists f :: FillLookedAt(broker, f) && FillTrusted(broker, f) && d.instrumentId == f.instrumentId && FillDisagrees(local, broker, f, d))
        || (broker.fillEvidence.status == Complete && !FillsUnclear(local, broker) && exists l :: FillVanished(local, broker, l, d)))
  }

  /** What the local strategies together hold on an instrument. */
  function Held(attributions: seq<Attribution>, instrumentId: Id): real {
    if attributions == [] then 0.0
    else (if attributions[0].instrumentId == instrumentId then attributions[0].quantity else 0.0) + Held(attributions[1..], instrumentId)
  }

  /** The broker's one figure for an instrument; none shown means none held, once the evidence is complete. */
  ghost predicate Shows(broker: BrokerSnapshot, instrumentId: Id, net: real) {
    && !PositionContradicted(broker, instrumentId)
    && (|| (exists p :: p in broker.positions && p.instrumentId == instrumentId && p.net == net)
        || (broker.positionEvidence.status == Complete && net == 0.0 && forall p :: p in broker.positions ==> p.instrumentId != instrumentId))
  }

  /** The broker shows another net position than the one held: first the local figure, then the broker's. */
  ghost predicate ReportsPosition(local: LocalSnapshot, broker: BrokerSnapshot, d: Discrepancy) {
    && d.clientOrderId.None? && d.quantities.Some?
    && d.quantities.value.0 == Held(local.attributions, d.instrumentId)
    && Shows(broker, d.instrumentId, d.quantities.value.1)
    && d.quantities.value.0 != d.quantities.value.1
  }

  ghost predicate Reports(local: LocalSnapshot, broker: BrokerSnapshot, d: Discrepancy) {
    match d.kind
    case MissingLocalOrder => ReportsUnknownOrder(local, broker, d)
    case OrderStateMismatch => ReportsOtherOrder(local, broker, d)
    case QuantityMismatch => ReportsOtherQuantity(local, broker, d)
    case MissingBrokerOrder => ReportsVanishedOrder(local, broker, d)
    case CorrelationMissing => ReportsLooseEnd(local, broker, d)
    case FillMismatch => ReportsFill(local, broker, d)
    case PositionMismatch => ReportsPosition(local, broker, d)
  }

  // ---- The deduplicated evidence in these terms ---------------------------------------------

  lemma OpenPayloadIsFacts(a: OpenObs, b: OpenObs)
    ensures OpenPayload(a) == OpenPayload(b) <==> SameOpenFacts(a, b)
  {
    CorrelationIsFacts(a.correlation, b.correlation);
  }

  lemma FillPayloadIsFacts(a: FillObs, b: FillObs)
    ensures FillPayload(a) == FillPayload(b) <==> SameFillFacts(a, b)
  {
    CorrelationIsFacts(a.correlation, b.correlation);
  }

  lemma CorrelationIsFacts(a: Correlation, b: Correlation)
    ensures a.(correlatedAt := 0) == b.(correlatedAt := 0) <==> SameCorrelation(a, b)
  {
  }

  lemma OpenTouchedExactly(broker: BrokerSnapshot, b: OpenObs)
    requires b in broker.open
    ensures (exists i :: i in OpenIdentities(b) && i in Conflicts(broker.open, OpenIdentities, OpenPayload)) <==> OpenContradicted(broker, b)
  {
    TouchedExactly(broker.open, OpenIdentities, OpenPayload, b);
    forall c | c in broker.open
      ensures (exists i :: i in OpenIdentities(b) && i in OpenIdentities(c)) <==> OpenIdentityShared(b, c)
      ensures OpenPayload(c) == OpenPayload(b) <==> SameOpenFacts(b, c)
    {
      OpenPayloadIsFacts(b, c);
      OpenShares(b, c);
    }
  }

  lemma OpenShares(a: OpenObs, b: OpenObs)
    ensures (exists i :: i in OpenIdentities(a) && i in OpenIdentities(b)) <==> OpenIdentityShared(a, b)
  {
    assert ObservationKey(a.observationId) in OpenIdentities(a) && ObservationKey(b.observationId) in OpenIdentities(b);
    if a.correlation.status.Confirmed? && a.correlation.clientOrderId.Some? {
      assert ClientKey(a.correlation.clientOrderId.value) in OpenIdentities(a);
    }
  }

  lemma FillTouchedExactly(broker: BrokerSnapshot, f: FillObs)
    requires f in broker.fills
    ensures (exists i :: i in FillIdentities(f) && i in Conflicts(broker.fills, FillIdentities, FillPayload)) <==> FillContradicted(broker, f)
  {
    TouchedExactly(broker.fills, FillIdentities, FillPayload, f);
    forall g | g in broker.fills
      ensures (exists i :: i in FillIdentities(f) && i in FillIdentities(g)) <==> FillIdentityShared(f, g)
      ensures FillPayload(g) == FillPayload(f) <==> SameFillFacts(f, g)
    {
      FillPayloadIsFacts(f, g);
      FillShares(f, g);
    }
  }

  lemma FillShares(a: FillObs, b: FillObs)
    ensures (exists i :: i in FillIdentities(a) && i in FillIdentities(b)) <==> FillIdentityShared(a, b)
  {
    assert ObservationKey(a.observationId) in FillIdentities(a) && ObservationKey(b.observationId) in FillIdentities(b);
    if a.correlation.brokerFillId.Some? {
      assert BrokerFillKey(a.correlation.brokerFillId.value) in FillIdentities(a);
    }
    if a.correlation.executionNo.Some? {
      assert ExecutionKey(a.correlation.executionNo.value) in FillIdentities(a);
    }
  }

  /** There is a conflict exactly when an observation is contradicted. */
  lemma OpenConflictsExactly(broker: BrokerSnapshot)
    ensures Conflicts(broker.open, OpenIdentities, OpenPayload) != {} <==> exists b :: b in broker.open && OpenContradicted(broker, b)
  {
    forall b | b in broker.open
      ensures OpenContradicted(broker, b) <==> exists i :: i in OpenIdentities(b) && i in Conflicts(broker.open, OpenIdentities, OpenPayload)
    {
      OpenTouchedExactly(broker, b);
    }
  }

  lemma FillConflictsExactly(broker: BrokerSnapshot)
    ensures Conflicts(broker.fills, FillIdentities, FillPayload) != {} <==> exists f :: f in broker.fills && FillContradicted(broker, f)
  {
    forall f | f in broker.fills
      ensures FillContradicted(broker, f) <==> exists i :: i in FillIdentities(f) && i in Conflicts(broker.fills, FillIdentities, FillPayload)
    {
      FillTouchedExactly(broker, f);
    }
  }

  lemma PositionConflictsExactly(broker: BrokerSnapshot, instrumentId: Id)
    ensures InstrumentKey(instrumentId) in Conflicts(broker.positions, PositionIdentities, PositionPayload)
            <==> PositionContradicted(broker, instrumentId)
  {
    var conflicts := Conflicts(broker.positions, PositionIdentities, PositionPayload);
    if PositionContradicted(broker, instrumentId) {
      var p, q :| p in broker.positions && q in broker.positions && p.instrumentId == instrumentId && q.instrumentId == instrumentId
                  && !SamePositionFacts(p, q);
      assert Reused(broker.positions, PositionIdentities, PositionPayload, InstrumentKey(instrumentId), PositionPayload(p));
      assert InstrumentKey(instrumentId) in conflicts;
    }
  }

  lemma SomePositionConflict(broker: BrokerSnapshot)
    ensures Conflicts(broker.positions, PositionIdentities, PositionPayload) != {} <==> PositionsUnclear(broker)
  {
    var conflicts := Conflicts(broker.positions, PositionIdentities, PositionPayload);
    if conflicts != {} {
      var key :| key in conflicts;
      var p :| p in broker.positions && key in PositionIdentities(p);
      PositionConflictsExactly(broker, p.instrumentId);
    }
    if PositionsUnclear(broker) {
      var p :| p in broker.positions && PositionContradicted(broker, p.instrumentId);
      PositionConflictsExactly(broker, p.instrumentId);
    }
  }

  lemma LookedAtExactly(broker: BrokerSnapshot)
    ensures forall b :: b in FirstSeen(broker.open, OpenPayload) <==> OpenLookedAt(broker, b)
    ensures forall f :: f in FirstSeen(broker.fills, FillPayload) <==> FillLookedAt(broker, f)
  {
    forall b ensures b in FirstSeen(broker.open, OpenPayload) <==> OpenLookedAt(broker, b) {
      FirstSeenIsFirst(broker.open, OpenPayload, b);
      forall j | 0 <= j < |broker.open| ensures OpenPayload(broker.open[j]) == OpenPayload(b) <==> SameOpenFacts(broker.open[j], b) {
        OpenPayloadIsFacts(broker.open[j], b);
      }
    }
    forall f ensures f in FirstSeen(broker.fills, FillPayload) <==> FillLookedAt(broker, f) {
      FirstSeenIsFirst(broker.fills, FillPayload, f);
      forall j | 0 <= j < |broker.fills| ensures FillPayload(broker.fills[j]) == FillPayload(f) <==> SameFillFacts(broker.fills[j], f) {
        FillPayloadIsFacts(broker.fills[j], f);
      }
    }
  }
}
