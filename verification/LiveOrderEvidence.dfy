/**
 * The broker's authority: what a live order says about the broker changes only
 * on confirmed broker evidence, and uncertainty about a command is kept until
 * such evidence settles it.
 */
module LiveOrderEvidence {
  import opened Wrappers
  import opened LiveContracts
  import opened LiveStateMachine
  import opened LiveOrderSafety
  import opened LiveOrderRuns

  /** A broker event or fill that is confirmed to be about this order. */
  predicate Evidence(order: LiveOrder, op: Op) {
    match op
    case OrderEventOp(event) => ConfirmedFor(order, event.correlation, event.accountId, event.instrumentId)
    case FillEventOp(event) => ConfirmedFor(order, event.correlation, event.accountId, event.instrumentId)
    case _ => false
  }

  /** What the order claims about the broker. */
  predicate SameClaims(before: LiveOrder, after: LiveOrder) {
    && after.intent == before.intent
    && after.total == before.total && after.filled == before.filled && after.remaining == before.remaining
    && after.average == before.average && after.limitPrice == before.limitPrice && after.acceptedAt == before.acceptedAt
    && (after.state.IsTerminal() <==> before.state.IsTerminal())
    && (before.pending.Some? ==> after.pending == before.pending)
  }

  lemma UnconfirmedChangesNothing(desk: Desk, event: OrderEvent)
    requires Inv(desk.order) && event.Valid() && !Evidence(desk.order, OrderEventOp(event))
    ensures Step(desk, OrderEventOp(event)) == desk
  {
    assert desk.fills + [] == desk.fills;
  }

  lemma NoEvidenceNoClaim(desk: Desk, op: Op)
    requires Inv(desk.order) && op.Valid() && !Evidence(desk.order, op)
    ensures SameClaims(desk.order, Step(desk, op).order)
    ensures Step(desk, op).fills == desk.fills
  {
    match op
    case FillEventOp(event) =>
      FillStep(desk, event);
    case OrderEventOp(event) =>
      UnconfirmedChangesNothing(desk, event);
    case DispatchOp(receipt) =>
      ReceiptKeepsClaims(desk, receipt);
    case AdvanceOp(_, _, _) =>
    case CancelOp(_, _) =>
    case BindOp(_, _) =>
  }

  lemma ReceiptKeepsClaims(desk: Desk, receipt: DispatchReceipt)
    requires Inv(desk.order) && receipt.Valid()
    ensures SameClaims(desk.order, Step(desk, DispatchOp(receipt)).order)
    ensures Step(desk, DispatchOp(receipt)).fills == desk.fills
  {
    assert desk.fills + [] == desk.fills;
  }

  /**
   * Over any run without confirmed evidence the order claims what it claimed:
   * commands and receipts never accept, fill, change or end it, and a pending
   * command stays pending.
   */
  lemma {:induction false} OnlyEvidenceChangesClaims(desk: Desk, ops: seq<Op>)
    requires Inv(desk.order) && ValidOps(ops)
    requires forall i :: 0 <= i < |ops| ==> !Evidence(desk.order, ops[i])
    ensures SameClaims(desk.order, Run(desk, ops).order)
    ensures Run(desk, ops).fills == desk.fills
    decreases |ops|
  {
    if ops != [] {
      StepIsSafe(desk, ops[0]);
      NoEvidenceNoClaim(desk, ops[0]);
      var next := Step(desk, ops[0]);
      forall i | 0 <= i < |ops[1..]| ensures !Evidence(next.order, ops[1..][i]) {
        assert !Evidence(desk.order, ops[i + 1]);
      }
      OnlyEvidenceChangesClaims(next, ops[1..]);
    }
  }

  /** An order that was ever accepted, filled or ended has seen evidence. */
  lemma AcceptanceNeedsEvidence(intent: Intent, ops: seq<Op>)
    requires intent.Valid() && ValidOps(ops)
    ensures Inv(Open(intent).order)
    ensures var final := Run(Open(intent), ops).order;
            final.acceptedAt.Some? || final.filled > 0.0 || final.state.IsTerminal()
            ==> exists i :: 0 <= i < |ops| && Evidence(Open(intent).order, ops[i])
  {
    CreatedOrderHoldsInv(intent);
    if forall i :: 0 <= i < |ops| ==> !Evidence(Open(intent).order, ops[i]) {
      OnlyEvidenceChangesClaims(Open(intent), ops);
    }
  }

  // ---- Uncertainty ------------------------------------------------------------------------

  /** The operation says that the outcome of the pending command is not known, or that its dispatch failed. */
  predicate RaisesDoubt(desk: Desk, op: Op) {
    match op
    case DispatchOp(receipt) =>
      && !receipt.state.Succeeded? && !Recorded(desk.ledger, op)
      && desk.order.pending.Some? && receipt.commandId == desk.order.pending.value.commandId
      && receipt.payload == desk.order.pending.value
    case OrderEventOp(event) =>
      && event.eventType.OutcomeUnknown? && !Recorded(desk.ledger, op)
      && desk.order.pending.Some? && Evidence(desk.order, op)
    case _ => false
  }

  /** A dispatch that failed outright, rather than one whose outcome is unknown. */
  predicate FailedOutright(op: Op) {
    op.DispatchOp? && op.receipt.state.Failed?
  }

  /**
   * Doubt is recorded and nothing else: the command stays pending, and the order
   * waits as a submission of unknown outcome exactly when a new order's outcome
   * is unknown, and for reconciliation otherwise.
   */
  lemma DoubtIsKept(desk: Desk, op: Op)
    requires Inv(desk.order) && op.Valid() && RaisesDoubt(desk, op)
    ensures var next := Step(desk, op).order;
            && SameClaims(desk.order, next) && next.pending == desk.order.pending
            && next.version == desk.order.version + 1
            && !next.state.IsTerminal()
            && (next.state.SubmissionUnknown? <==> desk.order.pending.value.New? && !FailedOutright(op))
            && (next.state.SubmissionUnknown? || next.state.Reconciling?)
  {
    StepIsSafe(desk, op);
    if op.DispatchOp? {
      DispatchDoubt(desk, op.receipt);
    } else {
      EventDoubt(desk, op.orderEvent);
    }
  }

  lemma DispatchDoubt(desk: Desk, receipt: DispatchReceipt)
    requires Inv(desk.order) && receipt.Valid() && RaisesDoubt(desk, DispatchOp(receipt))
    ensures var next := Step(desk, DispatchOp(receipt)).order;
            && SameClaims(desk.order, next) && next.pending == desk.order.pending && next.version == desk.order.version + 1
            && next.state == if desk.order.pending.value.New? && receipt.state.Unknown? then SubmissionUnknown else Reconciling
  {
  }

  lemma EventDoubt(desk: Desk, event: OrderEvent)
    requires Inv(desk.order) && event.Valid() && RaisesDoubt(desk, OrderEventOp(event))
    ensures var next := Step(desk, OrderEventOp(event)).order;
            && SameClaims(desk.order, next) && next.pending == desk.order.pending && next.version == desk.order.version + 1
            && next.state == if desk.order.pending.value.New? then SubmissionUnknown else Reconciling
  {
    TransitionIsSound(desk.order, event);
    MovedOrderKeepsInv(desk.order, event, BrokerTransition(desk.order, event).value);
  }

  // ---- Working changes ----------------------------------------------------------------------

  /** The pending command can still take effect: a price for a limit order, a total not below what is filled. */
  predicate CanTakeEffect(order: LiveOrder, command: Command) {
    match command
    case Amend(_, _, _, _) => order.limitPrice.Some?
    case Decrease(_, _, _, target, _) => order.filled <= target
    case _ => false
  }

  /** The order with the pending command carried out, and nothing else changed. */
  predicate CarriedOut(before: LiveOrder, command: Command, after: LiveOrder) {
    && after.pending.None? && after.filled == before.filled && after.average == before.average
    && after.acceptedAt == before.acceptedAt && after.remaining == after.total - after.filled
    && after.state == (if after.remaining == 0.0 then Filled else if after.filled > 0.0 then PartiallyFilled else Accepted)
    && match command
       case Amend(_, _, price, _) => after.limitPrice == Some(price) && after.total == before.total
       case Decrease(_, _, _, target, _) => after.limitPrice == before.limitPrice && after.total == target
       case _ => false
  }

  /**
   * A confirmed working change is applied exactly when it proves the pending
   * command and that can take effect; the order then is what the command asked
   * for.  Otherwise nothing changes at all.
   */
  lemma WorkingChangeIsTheCommand(desk: Desk, event: OrderEvent)
    requires Inv(desk.order) && event.Valid() && Evidence(desk.order, OrderEventOp(event)) && !Recorded(desk.ledger, OrderEventOp(event))
    requires event.eventType in {PriceAmended, QuantityDecreased, PriceAndQuantityAmended}
    ensures var pending := desk.order.pending;
            if pending.Some? && pending.value.MatchesWorkingChange(event, desk.order.total) && CanTakeEffect(desk.order, pending.value)
            then CarriedOut(desk.order, pending.value, Step(desk, OrderEventOp(event)).order)
            else Step(desk, OrderEventOp(event)) == desk
  {
    var transition := BrokerTransition(desk.order, event);
    assert desk.fills + [] == desk.fills;
    if transition.Some? {
      TransitionIsSound(desk.order, event);
      MovedOrderKeepsInv(desk.order, event, transition.value);
      StepIsTheMove(desk, event);
      MoveCarriesOut(desk.order, event);
    }
  }

  lemma StepIsTheMove(desk: Desk, event: OrderEvent)
    requires Inv(desk.order) && event.Valid() && Evidence(desk.order, OrderEventOp(event)) && !Recorded(desk.ledger, OrderEventOp(event))
    requires event.eventType in {PriceAmended, QuantityDecreased, PriceAndQuantityAmended}
    requires BrokerTransition(desk.order, event).Some?
    requires MovedOrder(desk.order, event, BrokerTransition(desk.order, event).value).(version := desk.order.version + 1).Valid()
    ensures Step(desk, OrderEventOp(event)).order
            == MovedOrder(desk.order, event, BrokerTransition(desk.order, event).value).(version := desk.order.version + 1)
  {
  }

  lemma MoveCarriesOut(order: LiveOrder, event: OrderEvent)
    requires Inv(order) && event.Valid() && event.eventType in {PriceAmended, QuantityDecreased, PriceAndQuantityAmended}
    requires BrokerTransition(order, event).Some?
    ensures order.pending.Some? && order.pending.value.MatchesWorkingChange(event, order.total) && CanTakeEffect(order, order.pending.value)
    ensures CarriedOut(order, order.pending.value, MovedOrder(order, event, BrokerTransition(order, event).value))
  {
  }
}
