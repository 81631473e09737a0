/** What holds over whole runs of the live-order protocol, from any good order and any operations. */
module LiveOrderRuns {
  import opened LiveContracts
  import opened LiveStateMachine
  import opened LiveOrderSafety
  import opened Sums

  ghost predicate ValidOps(ops: seq<Op>) {
    forall i :: 0 <= i < |ops| ==> ops[i].Valid()
  }

  function Run(desk: Desk, ops: seq<Op>): (final: Desk)
    requires Inv(desk.order) && ValidOps(ops)
    ensures Inv(final.order)
    decreases |ops|
  {
    if ops == [] then desk
    else
      StepIsSafe(desk, ops[0]);
      Run(Step(desk, ops[0]), ops[1..])
  }

  // ---- Nothing settled is lost -------------------------------------------------

  /** The facts that hold between any earlier and any later order of one run. */
  predicate Progress(before: LiveOrder, after: LiveOrder) {
    && after.intent == before.intent
    && before.version <= after.version
    && before.updatedAt <= after.updatedAt
    && after.total <= before.total
    && before.filled <= after.filled
    && (before.acceptedAt.Some? ==> after.acceptedAt == before.acceptedAt)
    && (before.state.Filled? || before.state.Rejected? ==> after == before)
    && (before.state.Cancelled? ==> after.state in {Cancelled, Filled})
    && (after.version == before.version ==> after == before)
  }

  lemma StepOnlyAppends(desk: Desk, op: Op)
    requires Inv(desk.order) && op.Valid()
    ensures desk.fills <= Step(desk, op).fills && desk.ledger <= Step(desk, op).ledger
  {
    match op
    case FillEventOp(event) =>
    case OrderEventOp(event) =>
    case DispatchOp(receipt) =>
    case AdvanceOp(_, _, _) =>
    case CancelOp(_, _) =>
    case BindOp(_, _) =>
  }

  lemma {:induction false} RunsOnlyProgress(desk: Desk, ops: seq<Op>)
    requires Inv(desk.order) && ValidOps(ops)
    ensures Progress(desk.order, Run(desk, ops).order)
    ensures Run(desk, ops).order.version <= desk.order.version + |ops|
    ensures desk.fills <= Run(desk, ops).fills && desk.ledger <= Run(desk, ops).ledger
    decreases |ops|
  {
    if ops != [] {
      StepIsSafe(desk, ops[0]);
      StepOnlyAppends(desk, ops[0]);
      RunsOnlyProgress(Step(desk, ops[0]), ops[1..]);
    }
  }

  // ---- Redelivery -----------------------------------------------------------------

  /** The operation carries an identity that the ledger already holds, with equal or altered content. */
  predicate Recorded(ledger: Ledger, op: Op) {
    match op
    case DispatchOp(receipt) => Find(ledger, Dispatch, receipt.commandId).Some?
    case OrderEventOp(event) => Find(ledger, BrokerEvent, event.eventId).Some?
    case FillEventOp(event) => Find(ledger, BrokerEvent, event.eventId).Some?
    case _ => false
  }

  lemma FindAppend(ledger: Ledger, more: Ledger, source: Source, eventId: Id)
    ensures Find(ledger + more, source, eventId)
            == if Find(ledger, source, eventId).Some? then Find(ledger, source, eventId) else Find(more, source, eventId)
  {
    if ledger == [] {
      assert ledger + more == more;
    } else {
      assert (ledger + more)[1..] == ledger[1..] + more;
      FindAppend(ledger[1..], more, source, eventId);
    }
  }

  /** What is recorded stays recorded, so every later point of a run is a place for a redelivery. */
  lemma RecordedForever(desk: Desk, ops: seq<Op>, op: Op)
    requires Inv(desk.order) && ValidOps(ops) && Recorded(desk.ledger, op)
    ensures Recorded(Run(desk, ops).ledger, op)
  {
    RunsOnlyProgress(desk, ops);
    var final := Run(desk, ops).ledger;
    var more := final[|desk.ledger|..];
    assert final == desk.ledger + more;
    match op
    case DispatchOp(receipt) => FindAppend(desk.ledger, more, Dispatch, receipt.commandId);
    case OrderEventOp(event) => FindAppend(desk.ledger, more, BrokerEvent, event.eventId);
    case FillEventOp(event) => FindAppend(desk.ledger, more, BrokerEvent, event.eventId);
  }

  datatype Delivery = Delivery(op: Op, again: bool)

  function AllOps(deliveries: seq<Delivery>): seq<Op> {
    seq(|deliveries|, i requires 0 <= i < |deliveries| => deliveries[i].op)
  }

  function FirstOps(deliveries: seq<Delivery>): seq<Op> {
    if deliveries == [] then []
    else (if deliveries[0].again then [] else [deliveries[0].op]) + FirstOps(deliveries[1..])
  }

  /** Every delivery marked `again` comes after the undisturbed run has recorded its identity. */
  ghost predicate WellPlaced(desk: Desk, deliveries: seq<Delivery>)
    requires Inv(desk.order) && ValidOps(AllOps(deliveries))
    decreases |deliveries|
  {
    deliveries == [] ||
    (assert forall i :: 0 <= i < |deliveries| ==> AllOps(deliveries)[i] == deliveries[i].op;
     assert AllOps(deliveries[1..]) == AllOps(deliveries)[1..];
     StepIsSafe(desk, deliveries[0].op);
     if deliveries[0].again
     then Recorded(desk.ledger, deliveries[0].op) && WellPlaced(desk, deliveries[1..])
     else WellPlaced(Step(desk, deliveries[0].op), deliveries[1..]))
  }

  lemma FirstOpsValid(deliveries: seq<Delivery>)
    requires ValidOps(AllOps(deliveries))
    ensures ValidOps(FirstOps(deliveries))
  {
    if deliveries != [] {
      assert forall i :: 0 <= i < |deliveries| ==> AllOps(deliveries)[i] == deliveries[i].op;
      assert AllOps(deliveries[1..]) == AllOps(deliveries)[1..];
      FirstOpsValid(deliveries[1..]);
    }
  }

  lemma RedeliveryChangesNothing(desk: Desk, op: Op)
    requires Inv(desk.order) && op.Valid() && Recorded(desk.ledger, op)
    ensures Step(desk, op) == desk
  {
  }

  /**
   * Redelivery insensitivity: inserting any number of already recorded events
   * or receipts, unchanged or altered under the same identity, at any later
   * points leaves the final order, ledger and emitted fills as they were.
   */
  lemma {:induction false} RedeliveriesLeaveNoTrace(desk: Desk, deliveries: seq<Delivery>)
    requires Inv(desk.order) && ValidOps(AllOps(deliveries)) && WellPlaced(desk, deliveries)
    ensures ValidOps(FirstOps(deliveries))
    ensures Run(desk, AllOps(deliveries)) == Run(desk, FirstOps(deliveries))
    decreases |deliveries|
  {
    FirstOpsValid(deliveries);
    if deliveries != [] {
      var op := deliveries[0].op;
      assert AllOps(deliveries)[0] == op;
      assert AllOps(deliveries)[1..] == AllOps(deliveries[1..]);
      StepIsSafe(desk, op);
      if deliveries[0].again {
        RedeliveryChangesNothing(desk, op);
        assert FirstOps(deliveries) == FirstOps(deliveries[1..]);
        RedeliveriesLeaveNoTrace(desk, deliveries[1..]);
      } else {
        RedeliveriesLeaveNoTrace(Step(desk, op), deliveries[1..]);
        assert FirstOps(deliveries)[1..] == FirstOps(deliveries[1..]);
      }
    }
  }

  ghost predicate KeysUnique(ledger: Ledger) {
    forall i, j :: 0 <= i < j < |ledger| ==>
      ledger[i].source != ledger[j].source || ledger[i].eventId != ledger[j].eventId
  }

  lemma NotFoundMeansAbsent(ledger: Ledger, source: Source, eventId: Id)
    requires Find(ledger, source, eventId).None?
    ensures forall i :: 0 <= i < |ledger| ==> ledger[i].source != source || ledger[i].eventId != eventId
  {
    if ledger != [] {
      NotFoundMeansAbsent(ledger[1..], source, eventId);
    }
  }

  /** A step appends at most one record, under a key that was not recorded. */
  lemma StepKeepsKeysUnique(desk: Desk, op: Op)
    requires Inv(desk.order) && op.Valid() && KeysUnique(desk.ledger)
    ensures KeysUnique(Step(desk, op).ledger)
  {
    match op
    case DispatchOp(receipt) =>
      if !Recorded(desk.ledger, op) { NotFoundMeansAbsent(desk.ledger, Dispatch, receipt.commandId); }
    case OrderEventOp(event) =>
      if !Recorded(desk.ledger, op) { NotFoundMeansAbsent(desk.ledger, BrokerEvent, event.eventId); }
    case FillEventOp(event) =>
      if !Recorded(desk.ledger, op) { NotFoundMeansAbsent(desk.ledger, BrokerEvent, event.eventId); }
      FillStep(desk, event);
    case _ =>
  }

  /** No run ever records one (source, event id) key twice. */
  lemma {:induction false} LedgerKeysStayUnique(desk: Desk, ops: seq<Op>)
    requires Inv(desk.order) && ValidOps(ops) && KeysUnique(desk.ledger)
    ensures KeysUnique(Run(desk, ops).ledger)
    decreases |ops|
  {
    if ops != [] {
      StepIsSafe(desk, ops[0]);
      StepKeepsKeysUnique(desk, ops[0]);
      LedgerKeysStayUnique(Step(desk, ops[0]), ops[1..]);
    }
  }

  // ---- Fill conservation -------------------------------------------------------------

  function Quantity(fill: LiveFill): real {
    fill.quantity
  }

  function Cost(fill: LiveFill): real {
    fill.quantity * fill.price
  }

  predicate BelongsTo(fill: LiveFill, intent: Intent) {
    && fill.clientOrderId == intent.clientOrderId && fill.strategyId == intent.strategyId
    && fill.accountId == intent.accountId && fill.instrumentId == intent.instrumentId
    && fill.side == intent.side && fill.quantity > 0.0
  }

  /** The order accounts for exactly the fills emitted, in quantity and in money. */
  ghost predicate Conserved(desk: Desk) {
    && desk.order.filled == Sum(Quantity, desk.fills)
    && PriorNotional(desk.order) == Sum(Cost, desk.fills)
    && desk.order.filled <= desk.order.total <= desk.order.intent.quantity
    && (forall i :: 0 <= i < |desk.fills| ==> BelongsTo(desk.fills[i], desk.order.intent))
  }

  predicate SameFills(before: Desk, after: Desk) {
    && after.fills == before.fills
    && after.order.filled == before.order.filled
    && after.order.average == before.order.average
  }

  lemma SameFillsConserve(before: Desk, after: Desk)
    requires Conserved(before) && SameFills(before, after)
    requires Inv(after.order) && after.order.intent == before.order.intent
    ensures Conserved(after)
  {
  }

  /** Only a fill event moves filled quantity, average price or emitted fills. */
  lemma OnlyFillsMoveQuantity(desk: Desk, op: Op)
    requires Inv(desk.order) && op.Valid() && !op.FillEventOp?
    ensures SameFills(desk, Step(desk, op))
  {
    match op
    case OrderEventOp(event) =>
    case DispatchOp(receipt) =>
    case AdvanceOp(_, _, _) =>
    case CancelOp(_, _) =>
    case BindOp(_, _) =>
  }

  lemma FillConserves(desk: Desk, event: FillEvent)
    requires Inv(desk.order) && event.Valid() && Conserved(desk) && FillApplies(desk.order, event)
    ensures Conserved(Desk(FilledOrder(desk.order, event), desk.ledger, desk.fills + [EmittedFill(desk.order, event)]))
  {
    SumAppend(Quantity, desk.fills, EmittedFill(desk.order, event));
    SumAppend(Cost, desk.fills, EmittedFill(desk.order, event));
    QuotientBack(PriorNotional(desk.order) + event.quantity * event.price, desk.order.filled + event.quantity);
  }

  lemma QuotientBack(cost: real, quantity: real)
    requires quantity > 0.0
    ensures quantity * (cost / quantity) == cost
  {
  }

  lemma FillStepConserves(desk: Desk, event: FillEvent, next: Desk)
    requires Inv(desk.order) && event.Valid() && Conserved(desk)
    requires next == Step(desk, FillEventOp(event))
    ensures Conserved(next)
  {
    FillStep(desk, event);
    if next != desk {
      FillConserves(desk, event);
      assert PriorNotional(next.order) == PriorNotional(FilledOrder(desk.order, event));
    }
  }

  lemma StepConservesFills(desk: Desk, op: Op)
    requires Inv(desk.order) && op.Valid() && Conserved(desk)
    ensures Conserved(Step(desk, op))
  {
    StepIsSafe(desk, op);
    var next := Step(desk, op);
    if op.FillEventOp? {
      FillStepConserves(desk, op.fillEvent, next);
    } else {
      OnlyFillsMoveQuantity(desk, op);
      SameFillsConserve(desk, next);
    }
  }

  /** From the created order on, every run conserves quantity and notional. */
  lemma {:induction false} RunsConserveFills(desk: Desk, ops: seq<Op>)
    requires Inv(desk.order) && ValidOps(ops) && Conserved(desk)
    ensures Conserved(Run(desk, ops))
    decreases |ops|
  {
    if ops != [] {
      StepIsSafe(desk, ops[0]);
      StepConservesFills(desk, ops[0]);
      RunsConserveFills(Step(desk, ops[0]), ops[1..]);
    }
  }

  lemma OpenedRunsConserveFills(intent: Intent, ops: seq<Op>)
    requires intent.Valid() && ValidOps(ops)
    ensures Inv(Open(intent).order)
    ensures var final := Run(Open(intent), ops);
            && Conserved(final)
            && KeysUnique(final.ledger)
            && final.order.filled <= final.order.total <= intent.quantity
  {
    CreatedOrderHoldsInv(intent);
    RunsConserveFills(Open(intent), ops);
    LedgerKeysStayUnique(Open(intent), ops);
    RunsOnlyProgress(Open(intent), ops);
  }
}
