/**
 * Local and broker snapshots of tx_trade/orders/live_reconciliation_contracts.py
 * and live_ports.py.  Sums are exact; the bounds of `exact_decimal_sum` are
 * proved in ExactSum.
 */
module ReconciliationContracts {
  import opened Wrappers
  import opened LiveContracts
  import opened Sums

  datatype OpenObs = OpenObs(
    observationId: Id, accountId: Id, instrumentId: Id, side: Side, total: real, remaining: real,
    limitPrice: Option<real>, correlation: Correlation, observedAt: Time)

  datatype FillObs = FillObs(
    observationId: Id, accountId: Id, instrumentId: Id, side: Side, quantity: real, price: real,
    correlation: Correlation, observedAt: Time, occurredAt: Option<Time>)

  datatype Position = Position(
    accountId: Id, instrumentId: Id, net: real, average: Option<real>, observedAt: Time)

  datatype Attribution = Attribution(strategyId: Id, accountId: Id, instrumentId: Id, quantity: real, asOf: Time)

  datatype Completeness = Complete | Incomplete | UnknownCompleteness

  datatype Evidence = Evidence(status: Completeness, observedAt: Time)

  datatype LocalSnapshot = LocalSnapshot(
    accountId: Id, orders: seq<LiveOrder>, fills: seq<LiveFill>, attributions: seq<Attribution>,
    asOf: Time, blockers: seq<Id>, journalSequence: nat)
  {
    /** `LocalReconciliationSnapshot.__post_init__`. */
    ghost predicate Valid() {
      && (forall o :: o in orders ==> o.Valid() && o.intent.accountId == accountId && o.updatedAt <= asOf)
      && (forall f :: f in fills ==> f.accountId == accountId && f.occurredAt <= asOf && f.quantity > 0.0)
      && (forall a :: a in attributions ==> a.accountId == accountId && a.asOf <= asOf)
      && UniqueOrderIds() && UniqueFillIds() && UniqueAttributions()
      && (forall f :: f in fills ==> exists o :: o in orders && Books(o, f))
      && (forall o :: o in orders ==> Sum(FillQuantity, FillsOf(fills, o.intent.clientOrderId)) == o.filled)
      && (forall a :: a in attributions ==>
            a.quantity == Projected(a.strategyId, a.instrumentId) && a.quantity != 0.0)
      && (forall f :: f in fills && Projected(f.strategyId, f.instrumentId) != 0.0 ==>
            exists a :: a in attributions && a.strategyId == f.strategyId && a.instrumentId == f.instrumentId)
    }

    ghost predicate UniqueOrderIds() {
      forall i, j :: 0 <= i < j < |orders| ==> orders[i].intent.clientOrderId != orders[j].intent.clientOrderId
    }

    ghost predicate UniqueFillIds() {
      forall i, j :: 0 <= i < j < |fills| ==> fills[i].fillId != fills[j].fillId
    }

    ghost predicate UniqueAttributions() {
      forall i, j :: 0 <= i < j < |attributions| ==>
        attributions[i].strategyId != attributions[j].strategyId
        || attributions[i].instrumentId != attributions[j].instrumentId
    }

    /** The durable projection of the fills on one strategy and instrument. */
    ghost function Projected(strategyId: Id, instrumentId: Id): real {
      Sum(SignedQuantity, Filter(fills, (f: LiveFill) => f.strategyId == strategyId && f.instrumentId == instrumentId))
    }
  }

  predicate Books(o: LiveOrder, f: LiveFill) {
    && o.intent.clientOrderId == f.clientOrderId && o.intent.accountId == f.accountId
    && o.intent.strategyId == f.strategyId && o.intent.instrumentId == f.instrumentId
    && o.intent.side == f.side
  }

  function FillQuantity(f: LiveFill): real {
    f.quantity
  }

  function SignedQuantity(f: LiveFill): real {
    if f.side.Buy? then f.quantity else -f.quantity
  }

  function FillsOf(fills: seq<LiveFill>, clientOrderId: Id): seq<LiveFill> {
    Filter(fills, (f: LiveFill) => f.clientOrderId == clientOrderId)
  }

  /** The broker's three observation sets at one cut. */
  datatype BrokerSnapshot = BrokerSnapshot(
    snapshotId: Id, accountId: Id,
    open: seq<OpenObs>, openEvidence: Evidence,
    fills: seq<FillObs>, fillEvidence: Evidence,
    positions: seq<Position>, positionEvidence: Evidence, capturedAt: Time)
  {
    /** `BrokerReconciliationSnapshot.__post_init__` with the checks of its parts. */
    ghost predicate Valid() {
      && (forall b :: b in open ==> b.accountId == accountId && b.correlation.Valid() && b.observedAt <= openEvidence.observedAt
                                     && 0.0 < b.remaining <= b.total)
      && (forall f :: f in fills ==> f.accountId == accountId && f.correlation.Valid() && f.observedAt <= fillEvidence.observedAt
                                      && f.correlation.NamesAFill() && f.quantity > 0.0 && f.price > 0.0)
      && (forall p :: p in positions ==> p.accountId == accountId && p.observedAt <= positionEvidence.observedAt)
      && openEvidence.observedAt <= capturedAt && fillEvidence.observedAt <= capturedAt
      && positionEvidence.observedAt <= capturedAt
    }

    predicate AllComplete() {
      openEvidence.status.Complete? && fillEvidence.status.Complete? && positionEvidence.status.Complete?
    }
  }

  // ---- Semantic payloads: an observation without its delivery metadata ---------------

  function OpenPayload(b: OpenObs): OpenObs {
    b.(observationId := "", observedAt := 0, correlation := b.correlation.(correlatedAt := 0))
  }

  function FillPayload(f: FillObs): FillObs {
    f.(observationId := "", observedAt := 0, correlation := f.correlation.(correlatedAt := 0))
  }

  function PositionPayload(p: Position): Position {
    p.(observedAt := 0)
  }

  datatype Identity =
    | ObservationKey(id: Id) | ClientKey(id: Id) | BrokerFillKey(id: Id) | ExecutionKey(id: Id) | InstrumentKey(id: Id)

  function OpenIdentities(b: OpenObs): seq<Identity> {
    [ObservationKey(b.observationId)] +
    (if b.correlation.status.Confirmed? && b.correlation.clientOrderId.Some?
     then [ClientKey(b.correlation.clientOrderId.value)] else [])
  }

  function FillIdentities(f: FillObs): seq<Identity> {
    [ObservationKey(f.observationId)] +
    (if f.correlation.brokerFillId.Some? then [BrokerFillKey(f.correlation.brokerFillId.value)] else []) +
    (if f.correlation.executionNo.Some? then [ExecutionKey(f.correlation.executionNo.value)] else [])
  }

  function PositionIdentities(p: Position): seq<Identity> {
    [InstrumentKey(p.instrumentId)]
  }

  // ---- Discrepancies -------------------------------------------------------------------

  datatype Kind =
    | MissingLocalOrder | MissingBrokerOrder | OrderStateMismatch | QuantityMismatch
    | PositionMismatch | FillMismatch | CorrelationMissing

  /** A discrepancy of one assessment; its id digests exactly these fields and the account. */
  datatype Discrepancy = Discrepancy(
    kind: Kind, instrumentId: Id, clientOrderId: Option<Id>, quantities: Option<(real, real)>)

  datatype Status = CompleteStatus | IncompleteStatus | AmbiguousStatus

  /** The outcome of `assess_reconciliation`: its status and its discrepancies in key order. */
  datatype Result = Result(status: Status, discrepancies: seq<Discrepancy>, reconciledAt: Time)

  datatype Assessment = Assessment(local: LocalSnapshot, broker: BrokerSnapshot, result: Result)
  {
    /** `ReconciliationAssessment.may_resume`. */
    predicate MayResume() {
      result.status.CompleteStatus? && broker.AllComplete() && result.discrepancies == [] && local.blockers == []
    }
  }
}
