/**
 * What a ready projection is worth: every projected order is the one the
 * reducer would have produced from the broker's acceptance, and with the
 * projected orders in place the same evidence shows no discrepancy at all.
 */
module ProjectionSafety {
  import opened Wrappers
  import opened LiveContracts
  import opened LiveStateMachine
  import opened Sums
  import opened ReconciliationContracts
  import opened Dedupe
  import opened Reconciliation
  import opened ReconciliationVerdict
  import opened Projection

  // ---- Agreement with the reducer ------------------------------------------------------

  /** The acceptance a broker would have sent for the order it shows, seen when it was observed. */
  predicate AcceptanceOf(event: OrderEvent, o: LiveOrder, b: OpenObs) {
    && event.eventType.NewAccepted?
    && ConfirmedFor(o, event.correlation, event.accountId, event.instrumentId)
    && event.receivedAt == b.observedAt
    && (event.occurredAt.Some? ==> event.occurredAt.value == b.observedAt)
  }

  /** A projected order is exactly what reducing the acceptance leaves behind. */
  lemma ProjectionIsAnAcceptance(a: Assessment, d: Discrepancy, event: OrderEvent, ledger: Ledger)
    requires a.local.Valid() && ReasonsAgainst(a.local, a.broker, d) == {}
    requires var o := Subject(a.local, d);
             && o.Some? && |OpenFor(a.broker.open, d.clientOrderId.value)| == 1
             && AcceptanceOf(event, o.value, OpenFor(a.broker.open, d.clientOrderId.value)[0])
    requires event.Valid() && Find(ledger, BrokerEvent, event.eventId).None?
    ensures ReduceOrderEvent(Subject(a.local, d).value, event, ledger)
            == Returned(Reduction(Projected(a.local, a.broker, d),
                                  ledger + [AppliedEvent(BrokerEvent, event.eventId, OrderPrint(event))], Applied, None, None))
  {
    NoReasons(a.local, a.broker, d);
    FoundOrder(a.local.orders, d.clientOrderId.value);
    AcceptedLikeProjected(Subject(a.local, d).value, OpenFor(a.broker.open, d.clientOrderId.value)[0], a.local.asOf, event, ledger);
  }

  lemma AcceptedLikeProjected(o: LiveOrder, b: OpenObs, asOf: Time, event: OrderEvent, ledger: Ledger)
    requires o.Valid() && LocalReasons(o) == {} && ObservationReasons(o, b, asOf) == {}
    requires AcceptanceOf(event, o, b) && event.Valid() && Find(ledger, BrokerEvent, event.eventId).None?
    ensures ReduceOrderEvent(o, event, ledger)
            == Returned(Reduction(ProjectedOrder(o, b),
                                  ledger + [AppliedEvent(BrokerEvent, event.eventId, OrderPrint(event))], Applied, None, None))
  {
    Untouched(o);
    AcceptedIsValid(o, b);
    ShownOnTime(o, b, asOf);
    assert BrokerTransition(o, event) == Some(Transition(Accepted, o.total, o.limitPrice, None));
    assert MovedOrder(o, event, Transition(Accepted, o.total, o.limitPrice, None)).(version := o.version + 1) == ProjectedOrder(o, b);
  }

  lemma ShownOnTime(o: LiveOrder, b: OpenObs, asOf: Time)
    requires ObservationReasons(o, b, asOf) == {}
    ensures b.correlation.status.Confirmed? && b.correlation.clientOrderId == Some(o.intent.clientOrderId)
    ensures b.accountId == o.intent.accountId && b.instrumentId == o.intent.instrumentId && b.side == o.intent.side
    ensures b.total == o.total && b.remaining == o.remaining && b.limitPrice == o.limitPrice
    ensures b.observedAt >= o.updatedAt && b.observedAt >= asOf
  {
    var against := ObservationReasons(o, b, asOf);
    assert BrokerIdentityMismatch !in against && BrokerQuantityMismatch !in against;
    assert BrokerPriceMismatch !in against && BrokerTimeMismatch !in against;
  }

  // ---- When a plan is ready ---------------------------------------------------------------

  /** A new order that is still exactly as it was sent, its outcome unknown. */
  predicate AsSent(o: LiveOrder) {
    && o.pending.Some? && o.pending.value.New?
    && o.state in {SubmissionUnknown, Reconciling} && o.acceptedAt.None?
    && o.filled == 0.0 && o.average.None?
    && o.total == o.remaining == o.pending.value.intent.quantity && o.limitPrice == o.pending.value.intent.limitPrice
  }

  /** The broker shows the order working and untouched, confirmed and not before the local snapshot. */
  predicate ShownAsSent(o: LiveOrder, b: OpenObs, asOf: Time) {
    && b.correlation.status.Confirmed? && b.correlation.clientOrderId == Some(o.intent.clientOrderId)
    && b.accountId == o.intent.accountId && b.instrumentId == o.intent.instrumentId && b.side == o.intent.side
    && b.total == b.remaining == o.total && o.remaining == o.total && b.limitPrice == o.limitPrice
    && o.updatedAt <= b.observedAt && asOf <= b.observedAt && b.correlation.correlatedAt <= b.observedAt
  }

  /** The broker shows the order exactly once, as it was sent, and no fill under its client id. */
  predicate ProvenOnce(local: LocalSnapshot, broker: BrokerSnapshot, o: LiveOrder) {
    && AsSent(o)
    && (exists i :: 0 <= i < |broker.open| && ShownAsSent(o, broker.open[i], local.asOf) && OnlyOne(broker.open, i, o.intent.clientOrderId))
    && forall f :: f in broker.fills ==> f.correlation.clientOrderId != Some(o.intent.clientOrderId)
  }

  predicate OnlyOne(open: seq<OpenObs>, i: nat, id: Id) {
    forall j :: 0 <= j < |open| && open[j].correlation.clientOrderId == Some(id) ==> j == i
  }

  lemma NoLocalObjection(o: LiveOrder)
    ensures LocalReasons(o) == {} <==> AsSent(o)
  {
    if LocalReasons(o) == {} {
      assert UnsupportedLocalState !in LocalReasons(o) && UnsupportedCommand !in LocalReasons(o);
    }
  }

  lemma NoObservationObjection(o: LiveOrder, b: OpenObs, asOf: Time)
    ensures ObservationReasons(o, b, asOf) == {} <==> ShownAsSent(o, b, asOf)
  {
    if ObservationReasons(o, b, asOf) == {} {
      ShownOnTime(o, b, asOf);
      assert BrokerQuantityMismatch !in ObservationReasons(o, b, asOf) && BrokerTimeMismatch !in ObservationReasons(o, b, asOf);
    }
  }

  lemma {:induction false} OneUnderId(open: seq<OpenObs>, id: Id, i: nat)
    requires i < |open| && open[i].correlation.clientOrderId == Some(id) && OnlyOne(open, i, id)
    ensures OpenFor(open, id) == [open[i]]
  {
    if i == 0 {
      assert forall b :: b in open[1..] ==> b.correlation.clientOrderId != Some(id);
      NoneUnderId(open[1..], id);
    } else {
      assert open[0].correlation.clientOrderId != Some(id);
      assert OnlyOne(open[1..], i - 1, id) by {
        assert forall j :: 0 <= j < |open[1..]| ==> open[1..][j] == open[j + 1];
      }
      OneUnderId(open[1..], id, i - 1);
    }
  }

  lemma NoneUnderId(open: seq<OpenObs>, id: Id)
    requires forall b :: b in open ==> b.correlation.clientOrderId != Some(id)
    ensures OpenFor(open, id) == []
  {
    FilterNone(open, (b: OpenObs) => b.correlation.clientOrderId == Some(id));
  }

  lemma {:induction false} UnderIdOnce(open: seq<OpenObs>, id: Id) returns (i: nat)
    requires |OpenFor(open, id)| == 1
    ensures i < |open| && open[i] == OpenFor(open, id)[0] && OnlyOne(open, i, id)
    ensures open[i].correlation.clientOrderId == Some(id)
  {
    if open[0].correlation.clientOrderId == Some(id) {
      i := 0;
      forall j | 1 <= j < |open| ensures open[j].correlation.clientOrderId != Some(id) {
        assert open[1..][j - 1] == open[j];
        assert open[j] in OpenFor(open[1..], id) <==> open[j].correlation.clientOrderId == Some(id);
      }
    } else {
      i := UnderIdOnce(open[1..], id);
      i := i + 1;
    }
  }

  lemma NoObjection(local: LocalSnapshot, broker: BrokerSnapshot, o: LiveOrder, d: Discrepancy)
    requires Subject(local, d) == Some(o) && d.clientOrderId == Some(o.intent.clientOrderId)
    ensures ReasonsAgainst(local, broker, d) == {} <==> ProvenOnce(local, broker, o)
  {
    var id := o.intent.clientOrderId;
    NoLocalObjection(o);
    if ReasonsAgainst(local, broker, d) == {} {
      NoReasons(local, broker, d);
      var i := UnderIdOnce(broker.open, id);
      NoObservationObjection(o, broker.open[i], local.asOf);
      forall f | f in broker.fills ensures f.correlation.clientOrderId != Some(id) {
        assert f in FillsFor(broker.fills, id) <==> f.correlation.clientOrderId == Some(id);
      }
    }
    if ProvenOnce(local, broker, o) {
      var i :| 0 <= i < |broker.open| && ShownAsSent(o, broker.open[i], local.asOf) && OnlyOne(broker.open, i, id);
      OneUnderId(broker.open, id, i);
      NoObservationObjection(o, broker.open[i], local.asOf);
      NoFillUnderId(broker.fills, id);
    }
  }

  lemma NoFillUnderId(fills: seq<FillObs>, id: Id)
    requires forall f :: f in fills ==> f.correlation.clientOrderId != Some(id)
    ensures FillsFor(fills, id) == []
  {
    FilterNone(fills, (f: FillObs) => f.correlation.clientOrderId == Some(id));
  }

  /**
   * A plan is ready exactly when the given assessment is the authoritative one,
   * something is pending, nothing but pending orders is reported, and the broker
   * proves each of them once, as it was sent.
   */
  lemma ReadyExactly(a: Assessment, less: Ordering)
    requires a.local.Valid()
    ensures Projectable(a, less) <==>
            && Authentic(a, less) && Authoritative(a) && a.result.discrepancies != []
            && (forall d :: d in a.result.discrepancies ==> d in PendingIssues(a.local.orders))
            && (forall o :: o in a.local.orders && o.pending.Some? ==> ProvenOnce(a.local, a.broker, o))
  {
    if Authentic(a, less) {
      forall d | d in a.result.discrepancies
        ensures ReasonsAgainst(a.local, a.broker, d) == {} ==> d in PendingIssues(a.local.orders)
      {
        if ReasonsAgainst(a.local, a.broker, d) == {} {
          NoReasons(a.local, a.broker, d);
          PendingOnce(a, d);
        }
      }
      forall o | o in a.local.orders && o.pending.Some? ensures ReportedAndProven(a, o) {
        PendingIsReported(a.local, a.broker, o);
        OrderIsFound(a.local, o);
        NoObjection(a.local, a.broker, o, PendingIssue(o));
      }
      forall d | d in PendingIssues(a.local.orders) ensures PendingOf(a, d) {
        var o :| o in a.local.orders && o.pending.Some? && d == PendingIssue(o);
      }
    }
  }

  function PendingIssue(o: LiveOrder): Discrepancy {
    Issue(CorrelationMissing, o.intent.instrumentId, Some(o.intent.clientOrderId))
  }

  /** The order's own discrepancy is reported, and unopposed exactly when the order is proven. */
  ghost predicate ReportedAndProven(a: Assessment, o: LiveOrder) {
    && PendingIssue(o) in a.result.discrepancies
    && (ReasonsAgainst(a.local, a.broker, PendingIssue(o)) == {} <==> ProvenOnce(a.local, a.broker, o))
  }

  ghost predicate PendingOf(a: Assessment, d: Discrepancy) {
    exists o :: o in a.local.orders && o.pending.Some? && d == PendingIssue(o)
  }

  // ---- Closing the gap ------------------------------------------------------------------

  /** The order as it stands once the plan has been committed. */
  function Committed(a: Assessment, o: LiveOrder): LiveOrder {
    if o.pending.Some? && |OpenFor(a.broker.open, o.intent.clientOrderId)| == 1
    then ProjectedOrder(o, OpenFor(a.broker.open, o.intent.clientOrderId)[0])
    else o
  }

  function CommittedOrders(a: Assessment, orders: seq<LiveOrder>): seq<LiveOrder> {
    seq(|orders|, i requires 0 <= i < |orders| => Committed(a, orders[i]))
  }

  function AfterCommit(a: Assessment, asOf: Time): LocalSnapshot {
    a.local.(orders := CommittedOrders(a, a.local.orders), asOf := asOf)
  }

  /** In a ready plan exactly the pending orders are projected, each as the plan says. */
  lemma CommitFollowsPlan(a: Assessment, less: Ordering, o: LiveOrder)
    requires a.local.Valid() && Projectable(a, less) && o in a.local.orders && o.pending.Some?
    ensures IsProjection(a, Committed(a, o))
    ensures LocalReasons(o) == {} && |OpenFor(a.broker.open, o.intent.clientOrderId)| == 1
    ensures ObservationReasons(o, OpenFor(a.broker.open, o.intent.clientOrderId)[0], a.local.asOf) == {}
  {
    var d := Issue(CorrelationMissing, o.intent.instrumentId, Some(o.intent.clientOrderId));
    PendingIsReported(a.local, a.broker, o);
    assert d in a.result.discrepancies;
    NoReasons(a.local, a.broker, d);
    OrderIsFound(a.local, o);
  }

  /** The plan's orders are the committed pending orders, no more and no fewer. */
  lemma PlanIsTheCommit(a: Assessment, less: Ordering, p: LiveOrder)
    requires a.local.Valid() && Projectable(a, less)
    ensures IsProjection(a, p) <==> exists o :: o in a.local.orders && o.pending.Some? && p == Committed(a, o)
  {
    if IsProjection(a, p) {
      var o := ProjectionIsCommitted(a, p);
    }
    if exists o :: o in a.local.orders && o.pending.Some? && p == Committed(a, o) {
      var o :| o in a.local.orders && o.pending.Some? && p == Committed(a, o);
      CommitFollowsPlan(a, less, o);
    }
  }

  lemma ProjectionIsCommitted(a: Assessment, p: LiveOrder) returns (o: LiveOrder)
    requires IsProjection(a, p)
    ensures o in a.local.orders && o.pending.Some? && p == Committed(a, o)
  {
    var d :| d in a.result.discrepancies && ReasonsAgainst(a.local, a.broker, d) == {} && p == Projected(a.local, a.broker, d);
    NoReasons(a.local, a.broker, d);
    FoundOrder(a.local.orders, d.clientOrderId.value);
    o := Subject(a.local, d).value;
    Untouched(o);
  }

  lemma PendingIsReported(local: LocalSnapshot, broker: BrokerSnapshot, o: LiveOrder)
    requires o in local.orders && o.pending.Some?
    ensures Issue(CorrelationMissing, o.intent.instrumentId, Some(o.intent.clientOrderId)) in Discrepancies(local, broker)
  {
  }

  /** Nothing but pending orders was reported, so every other phase was silent. */
  lemma OtherPhasesSilent(a: Assessment, less: Ordering)
    requires a.local.Valid() && Projectable(a, less)
    ensures forall d :: d in Discrepancies(a.local, a.broker) ==> d.kind.CorrelationMissing? && d.clientOrderId.Some?
    ensures AllFillIssues(a.local, a.broker) == {} && AllPositionIssues(a.local, a.broker) == {}
    ensures OpenIssuesOf(a.local, OpenEvidence(a.broker).unique, OpenEvidence(a.broker).conflicts) == {}
    ensures MissingIssues(a.local.orders, a.local, OpenEvidence(a.broker), a.broker.openEvidence.status.Complete?) == {}
  {
    forall d | d in Discrepancies(a.local, a.broker) ensures d.kind.CorrelationMissing? && d.clientOrderId.Some? {
      assert d in a.result.discrepancies;
      NoReasons(a.local, a.broker, d);
    }
    OnlyPendingReported(a.local, a.broker);
  }

  lemma OnlyPendingReported(local: LocalSnapshot, broker: BrokerSnapshot)
    requires forall d :: d in Discrepancies(local, broker) ==> d.kind.CorrelationMissing? && d.clientOrderId.Some?
    ensures AllFillIssues(local, broker) == {} && AllPositionIssues(local, broker) == {}
    ensures OpenIssuesOf(local, OpenEvidence(broker).unique, OpenEvidence(broker).conflicts) == {}
    ensures MissingIssues(local.orders, local, OpenEvidence(broker), broker.openEvidence.status.Complete?) == {}
  {
    NeverACorrelatedClient(local, broker);
    forall d ensures d !in AllFillIssues(local, broker) && d !in AllPositionIssues(local, broker) {
      assert d in AllFillIssues(local, broker) ==> d in Discrepancies(local, broker);
      assert d in AllPositionIssues(local, broker) ==> d in Discrepancies(local, broker);
    }
    var open := OpenEvidence(broker);
    forall d ensures d !in OpenIssuesOf(local, open.unique, open.conflicts)
             ensures d !in MissingIssues(local.orders, local, open, broker.openEvidence.status.Complete?) {
      assert d in OpenIssuesOf(local, open.unique, open.conflicts) ==> d in OrderIssues(local, broker);
      assert d in MissingIssues(local.orders, local, open, broker.openEvidence.status.Complete?) ==> d in OrderIssues(local, broker);
    }
  }

  lemma CommittedIsFound(a: Assessment, orders: seq<LiveOrder>, id: Id)
    ensures FindOrder(CommittedOrders(a, orders), id)
            == match FindOrder(orders, id) case Some(o) => Some(Committed(a, o)) case None => None
  {
    if orders != [] {
      assert CommittedOrders(a, orders)[1..] == CommittedOrders(a, orders[1..]);
      CommittedIsFound(a, orders[1..], id);
    }
  }

  /** An open order that agreed with its local order agrees with the committed one. */
  lemma StillSilent(a: Assessment, less: Ordering, b: OpenObs, asOf: Time)
    requires a.local.Valid() && Projectable(a, less)
    requires b in a.broker.open && OpenIssues(a.local, b, {}) == {}
    ensures OpenIssues(AfterCommit(a, asOf), b, {}) == {}
  {
    var id := b.correlation.clientOrderId;
    FoundOrder(a.local.orders, id.value);
    CommittedIsFound(a, a.local.orders, id.value);
    UsableAndFound(a.local, b);
    var o := FindOrder(a.local.orders, id.value).value;
    Agreed(a.local, b, o);
    StillAgrees(a, less, b, o);
    AgreedIsSilent(AfterCommit(a, asOf), b, Committed(a, o));
  }

  lemma UsableAndFound(local: LocalSnapshot, b: OpenObs)
    requires OpenIssues(local, b, {}) == {}
    ensures OpenUsable(b, {}) && FindOrder(local.orders, b.correlation.clientOrderId.value).Some?
  {
  }

  lemma StillAgrees(a: Assessment, less: Ordering, b: OpenObs, o: LiveOrder)
    requires a.local.Valid() && Projectable(a, less) && b in a.broker.open && o in a.local.orders
    requires b.correlation.clientOrderId == Some(o.intent.clientOrderId)
    requires StateAgrees(o, b) && QuantityAgrees(o, b)
    ensures StateAgrees(Committed(a, o), b) && QuantityAgrees(Committed(a, o), b)
  {
    if o.pending.Some? {
      CommitFollowsPlan(a, less, o);
      OnlyOneShown(a.broker.open, b, o.intent.clientOrderId);
      ProjectedAgrees(o, b, a.local.asOf);
    }
  }

  lemma OnlyOneShown(open: seq<OpenObs>, b: OpenObs, id: Id)
    requires b in open && b.correlation.clientOrderId == Some(id) && |OpenFor(open, id)| == 1
    ensures OpenFor(open, id)[0] == b
  {
    assert b in OpenFor(open, id);
  }

  lemma ProjectedAgrees(o: LiveOrder, b: OpenObs, asOf: Time)
    requires ObservationReasons(o, b, asOf) == {}
    ensures StateAgrees(ProjectedOrder(o, b), b) && QuantityAgrees(ProjectedOrder(o, b), b)
  {
    ShownOnTime(o, b, asOf);
  }

  lemma Agreed(local: LocalSnapshot, b: OpenObs, o: LiveOrder)
    requires OpenIssues(local, b, {}) == {} && OpenUsable(b, {})
    requires FindOrder(local.orders, b.correlation.clientOrderId.value) == Some(o)
    ensures StateAgrees(o, b) && QuantityAgrees(o, b)
  {
    var issues := OpenIssues(local, b, {});
    assert !StateAgrees(o, b) ==> Issue(OrderStateMismatch, b.instrumentId, b.correlation.clientOrderId) in issues;
  }

  lemma AgreedIsSilent(local: LocalSnapshot, b: OpenObs, o: LiveOrder)
    requires OpenUsable(b, {}) && FindOrder(local.orders, b.correlation.clientOrderId.value) == Some(o)
    requires StateAgrees(o, b) && QuantityAgrees(o, b)
    ensures OpenIssues(local, b, {}) == {}
  {
  }

  /** Every committed working order is shown by the broker. */
  lemma CommittedIsMatched(a: Assessment, less: Ordering, o: LiveOrder, asOf: Time)
    requires a.local.Valid() && Projectable(a, less) && o in a.local.orders && Working(Committed(a, o))
    requires OpenEvidence(a.broker).conflicts == {} && !OpenAmbiguous(OpenEvidence(a.broker))
    ensures Matched(Committed(a, o), AfterCommit(a, asOf), OpenEvidence(a.broker))
  {
    OrderIsFound(a.local, o);
    CommittedIsFound(a, a.local.orders, o.intent.clientOrderId);
    if o.pending.Some? {
      ProjectedIsMatched(a, less, o, asOf);
    } else {
      SettledIsMatched(a, less, o, asOf);
    }
  }

  lemma ProjectedIsMatched(a: Assessment, less: Ordering, o: LiveOrder, asOf: Time)
    requires a.local.Valid() && Projectable(a, less) && o in a.local.orders && o.pending.Some?
    requires OpenEvidence(a.broker).conflicts == {}
    requires FindOrder(AfterCommit(a, asOf).orders, o.intent.clientOrderId).Some?
    ensures Matched(Committed(a, o), AfterCommit(a, asOf), OpenEvidence(a.broker))
  {
    CommitFollowsPlan(a, less, o);
    var shown := OpenFor(a.broker.open, o.intent.clientOrderId)[0];
    assert shown in OpenFor(a.broker.open, o.intent.clientOrderId);
    ShownOnTime(o, shown, a.local.asOf);
    var u := ShownOnce(a.broker, shown);
    SamePayloadSameOrder(o, u, shown);
    assert MatchedBy(Committed(a, o), AfterCommit(a, asOf), u, {});
  }

  lemma ShownOnce(broker: BrokerSnapshot, b: OpenObs) returns (u: OpenObs)
    requires b in broker.open
    ensures u in OpenEvidence(broker).unique && OpenPayload(u) == OpenPayload(b)
  {
    FirstSeenCovers(broker.open, OpenPayload);
    u :| u in OpenEvidence(broker).unique && OpenPayload(u) == OpenPayload(b);
  }

  lemma SettledIsMatched(a: Assessment, less: Ordering, o: LiveOrder, asOf: Time)
    requires a.local.Valid() && Projectable(a, less) && o in a.local.orders && o.pending.None? && Working(o)
    requires OpenEvidence(a.broker).conflicts == {} && !OpenAmbiguous(OpenEvidence(a.broker))
    requires FindOrder(AfterCommit(a, asOf).orders, o.intent.clientOrderId).Some?
    ensures Matched(Committed(a, o), AfterCommit(a, asOf), OpenEvidence(a.broker))
  {
    var open := OpenEvidence(a.broker);
    OtherPhasesSilent(a, less);
    assert Matched(o, a.local, open) by {
      var missing := MissingIssues(a.local.orders, a.local, open, a.broker.openEvidence.status.Complete?);
      assert !Matched(o, a.local, open) ==> Issue(MissingBrokerOrder, o.intent.instrumentId, Some(o.intent.clientOrderId)) in missing;
    }
    var b :| b in open.unique && MatchedBy(o, a.local, b, {});
    assert MatchedBy(o, AfterCommit(a, asOf), b, {});
  }

  lemma OrdersSilentAfterCommit(a: Assessment, less: Ordering, asOf: Time)
    requires a.local.Valid() && Projectable(a, less)
    ensures OrderIssues(AfterCommit(a, asOf), a.broker) == {}
  {
    var after, open := AfterCommit(a, asOf), OpenEvidence(a.broker);
    CompleteIsUnambiguous(a);
    OtherPhasesSilent(a, less);
    FirstSeenCovers(a.broker.open, OpenPayload);
    forall b | b in open.unique ensures OpenIssues(after, b, {}) == {} {
      assert OpenIssues(a.local, b, {}) <= OpenIssuesOf(a.local, open.unique, {});
      StillSilent(a, less, b, asOf);
    }
    forall o | o in after.orders ensures o.pending.None? && (Working(o) ==> Matched(o, after, open)) {
      var i :| 0 <= i < |a.local.orders| && after.orders[i] == o;
      if a.local.orders[i].pending.Some? {
        CommitFollowsPlan(a, less, a.local.orders[i]);
      }
      if Working(o) {
        CommittedIsMatched(a, less, a.local.orders[i], asOf);
      }
    }
    SilentPhases(after, a.broker);
  }

  lemma CompleteIsUnambiguous(a: Assessment)
    requires StatusOf(a.local, a.broker).CompleteStatus?
    ensures OpenEvidence(a.broker).conflicts == {} && !OpenAmbiguous(OpenEvidence(a.broker))
    ensures !FillsAmbiguous(a.local, FillEvidence(a.broker)) && PositionEvidence(a.broker).conflicts == {}
  {
  }

  /** Fills and positions do not look at the orders. */
  lemma OrdersDoNotMatter(local: LocalSnapshot, orders: seq<LiveOrder>, asOf: Time, broker: BrokerSnapshot)
    ensures AllFillIssues(local.(orders := orders, asOf := asOf), broker) == AllFillIssues(local, broker)
    ensures AllPositionIssues(local.(orders := orders, asOf := asOf), broker) == AllPositionIssues(local, broker)
    ensures FillsAmbiguous(local.(orders := orders, asOf := asOf), FillEvidence(broker)) <==> FillsAmbiguous(local, FillEvidence(broker))
  {
    var after, fills := local.(orders := orders, asOf := asOf), FillEvidence(broker);
    assert forall f, id :: Claims(after, fills, f, id) <==> Claims(local, fills, f, id);
    assert forall id :: Collided(after, fills, id) <==> Collided(local, fills, id);
    assert forall f :: FillIssues(after, f, fills) == FillIssues(local, f, fills);
    assert forall l :: Settled(l, after, fills) <==> Settled(l, local, fills);
  }

  /**
   * Committing a ready plan closes the gap: the same broker evidence then shows
   * no discrepancy, and the assessment of the committed snapshot, whenever there
   * is one, lets the account resume unless recovery is blocked for another reason.
   */
  lemma ReadyPlanClosesTheGap(a: Assessment, less: Ordering, asOf: Time, next: Assessment)
    requires a.local.Valid() && Projectable(a, less)
    requires Authentic(next, less) && next.local == AfterCommit(a, asOf) && next.broker == a.broker
    ensures Discrepancies(AfterCommit(a, asOf), a.broker) == {}
    ensures next.result.status == CompleteStatus && next.result.discrepancies == []
    ensures next.MayResume() <==> a.local.blockers == []
  {
    CompleteIsUnambiguous(a);
    OrdersSilentAfterCommit(a, less, asOf);
    OtherPhasesSilent(a, less);
    OrdersDoNotMatter(a.local, CommittedOrders(a, a.local.orders), asOf, a.broker);
    NothingListed(next.result.discrepancies, []);
  }
}
