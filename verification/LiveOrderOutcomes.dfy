/**
 * What each operation does to a good order, said on the order before and the
 * order after: when the operation applies, the resulting state, command and
 * acceptance, what stays as it was, and the answer the caller gets.
 */
module LiveOrderOutcomes {
  import opened Wrappers
  import opened LiveContracts
  import opened LiveStateMachine
  import opened LiveOrderSafety

  // ---- Which events are heard --------------------------------------------------------

  /** No record of the ledger bears this identity. */
  ghost predicate Unseen(ledger: Ledger, source: Source, eventId: Id) {
    forall i :: 0 <= i < |ledger| ==> ledger[i].source != source || ledger[i].eventId != eventId
  }

  /** The broker says without doubt that it speaks of this order. */
  predicate SpeaksOf(correlation: Correlation, accountId: Id, instrumentId: Id, intent: Intent) {
    && correlation.status == Confirmed
    && correlation.clientOrderId == Some(intent.clientOrderId)
    && accountId == intent.accountId
    && instrumentId == intent.instrumentId
  }

  ghost predicate Heard(desk: Desk, event: OrderEvent) {
    && Inv(desk.order) && event.Valid()
    && Unseen(desk.ledger, BrokerEvent, event.eventId)
    && SpeaksOf(event.correlation, event.accountId, event.instrumentId, desk.order.intent)
  }

  lemma UnseenIsNotFound(ledger: Ledger, source: Source, eventId: Id)
    ensures Unseen(ledger, source, eventId) <==> Find(ledger, source, eventId).None?
  {
    if ledger != [] {
      UnseenIsNotFound(ledger[1..], source, eventId);
      if Unseen(ledger, source, eventId) {
        assert Unseen(ledger[1..], source, eventId);
      } else if Unseen(ledger[1..], source, eventId) {
        assert forall i :: 1 <= i < |ledger| ==> ledger[i] == ledger[1..][i - 1];
      }
    }
  }

  // ---- The three answers to a broker order event ---------------------------------------

  function Later(a: Time, b: Time): Time {
    if a >= b then a else b
  }

  /** When the broker first showed that it has the order: kept once known, otherwise the time of this event. */
  function FirstShown(order: LiveOrder, occurredAt: Option<Time>, receivedAt: Time): Option<Time> {
    if order.acceptedAt.Some? then order.acceptedAt
    else if occurredAt.Some? then occurredAt
    else Some(receivedAt)
  }

  /** The event is applied: this state, command and acceptance, and otherwise only version, clock and record move. */
  predicate Applies(desk: Desk, event: OrderEvent, state: OrderState, pending: Option<Command>, acceptedAt: Option<Time>)
    requires desk.order.Valid() && event.Valid()
  {
    var next := Step(desk, OrderEventOp(event));
    && next.order == desk.order.(state := state, pending := pending, acceptedAt := acceptedAt,
                                 version := desk.order.version + 1,
                                 updatedAt := Later(desk.order.updatedAt, event.receivedAt))
    && next.ledger == desk.ledger + [AppliedEvent(BrokerEvent, event.eventId, OrderPrint(event))]
    && next.fills == desk.fills
    && ReduceOrderEvent(desk.order, event, desk.ledger)
       == Returned(Reduction(next.order, next.ledger, Applied, None, event.failure))
  }

  /** The event is only noted: the order has already ended this way. */
  predicate Notes(desk: Desk, event: OrderEvent)
    requires desk.order.Valid() && event.Valid()
  {
    var next := Step(desk, OrderEventOp(event));
    && next == desk.(ledger := desk.ledger + [AppliedEvent(BrokerEvent, event.eventId, OrderPrint(event))])
    && ReduceOrderEvent(desk.order, event, desk.ledger)
       == Returned(Reduction(next.order, next.ledger, NoChange, None, None))
  }

  /** The event contradicts the order: nothing changes, nothing is recorded, and reconciliation is asked for. */
  predicate Contradicts(desk: Desk, event: OrderEvent)
    requires desk.order.Valid() && event.Valid()
  {
    && Step(desk, OrderEventOp(event)) == desk
    && ReduceOrderEvent(desk.order, event, desk.ledger)
       == Returned(Reduction(desk.order, desk.ledger, ReconciliationRequired, None, Some(NeedsReconciliation)))
  }

  lemma HeardIsApplied(desk: Desk, event: OrderEvent)
    requires Heard(desk, event)
    requires !(desk.order.state.Cancelled? && event.eventType in {CancelledAck, DynamicCancelled})
    requires BrokerTransition(desk.order, event).Some?
    ensures var next := MovedOrder(desk.order, event, BrokerTransition(desk.order, event).value).(version := desk.order.version + 1);
            && ReduceOrderEvent(desk.order, event, desk.ledger)
               == Returned(Reduction(next, desk.ledger + [AppliedEvent(BrokerEvent, event.eventId, OrderPrint(event))],
                                     Applied, None, event.failure))
            && Step(desk, OrderEventOp(event))
               == Desk(next, desk.ledger + [AppliedEvent(BrokerEvent, event.eventId, OrderPrint(event))], desk.fills)
  {
    UnseenIsNotFound(desk.ledger, BrokerEvent, event.eventId);
    TransitionIsSound(desk.order, event);
    MovedOrderKeepsInv(desk.order, event, BrokerTransition(desk.order, event).value);
    assert desk.fills + [] == desk.fills;
  }

  lemma HeardIsDeclined(desk: Desk, event: OrderEvent)
    requires Heard(desk, event)
    requires !(desk.order.state.Cancelled? && event.eventType in {CancelledAck, DynamicCancelled})
    requires BrokerTransition(desk.order, event).None?
    ensures Contradicts(desk, event)
  {
    UnseenIsNotFound(desk.ledger, BrokerEvent, event.eventId);
    assert desk.fills + [] == desk.fills;
  }

  lemma HeardIsNoted(desk: Desk, event: OrderEvent)
    requires Heard(desk, event)
    requires desk.order.state.Cancelled? && event.eventType in {CancelledAck, DynamicCancelled}
    ensures Notes(desk, event)
  {
    UnseenIsNotFound(desk.ledger, BrokerEvent, event.eventId);
    assert desk.fills + [] == desk.fills;
  }

  /** The two ways an event that is heard can go, other than being noted. */
  lemma HeardEvent(desk: Desk, event: OrderEvent)
    requires Heard(desk, event)
    requires !(desk.order.state.Cancelled? && event.eventType in {CancelledAck, DynamicCancelled})
    ensures BrokerTransition(desk.order, event).None? ==> Contradicts(desk, event)
    ensures BrokerTransition(desk.order, event).Some? ==>
              var t := BrokerTransition(desk.order, event).value;
              t.total == desk.order.total && t.limitPrice == desk.order.limitPrice ==>
                Applies(desk, event, t.state, t.pending, MovedOrder(desk.order, event, t).acceptedAt)
  {
    if BrokerTransition(desk.order, event).Some? {
      HeardIsApplied(desk, event);
    } else {
      HeardIsDeclined(desk, event);
    }
  }

  // ---- Broker order events, one by one ---------------------------------------------------

  /** Only an order that the broker has never shown, and that has no fill, can be rejected. */
  lemma NewRejectedOutcome(desk: Desk, event: OrderEvent)
    requires Heard(desk, event) && event.eventType.NewRejected?
    ensures if !desk.order.state.IsTerminal() && desk.order.filled == 0.0 && desk.order.acceptedAt.None?
            then Applies(desk, event, Rejected, None, None)
            else Contradicts(desk, event)
  {
    HeardEvent(desk, event);
  }

  /** The first acceptance opens the order and settles its submission; a further one changes nothing about it. */
  lemma NewAcceptedOutcome(desk: Desk, event: OrderEvent)
    requires Heard(desk, event) && event.eventType.NewAccepted?
    ensures if desk.order.state.IsTerminal() then Contradicts(desk, event)
            else if desk.order.acceptedAt.Some? then Applies(desk, event, desk.order.state, desk.order.pending, desk.order.acceptedAt)
            else Applies(desk, event, Accepted, None, if event.occurredAt.Some? then event.occurredAt else Some(event.receivedAt))
  {
    HeardEvent(desk, event);
  }

  /** A cancel that the broker is working on leaves a waiting cancel waiting, and means nothing otherwise. */
  lemma CancelPendingOutcome(desk: Desk, event: OrderEvent)
    requires Heard(desk, event) && event.eventType.CancelPendingAck?
    ensures if desk.order.state.CancelPending?
            then Applies(desk, event, CancelPending, desk.order.pending, desk.order.acceptedAt)
            else Contradicts(desk, event)
  {
    HeardEvent(desk, event);
  }

  /** A cancellation ends every order that has not ended, whatever was asked for. */
  lemma CancelledOutcome(desk: Desk, event: OrderEvent)
    requires Heard(desk, event) && event.eventType.CancelledAck?
    ensures if desk.order.state.Cancelled? then Notes(desk, event)
            else if desk.order.state.IsTerminal() then Contradicts(desk, event)
            else Applies(desk, event, Cancelled, None, FirstShown(desk.order, event.occurredAt, event.receivedAt))
  {
    if desk.order.state.Cancelled? {
      HeardIsNoted(desk, event);
    } else {
      HeardEvent(desk, event);
    }
  }

  /** A cancellation by the exchange ends only an order that the broker is known to work. */
  lemma DynamicCancelledOutcome(desk: Desk, event: OrderEvent)
    requires Heard(desk, event) && event.eventType.DynamicCancelled?
    ensures if desk.order.state.Cancelled? then Notes(desk, event)
            else if desk.order.state in {Accepted, PartiallyFilled, CancelPending}
            then Applies(desk, event, Cancelled, None, desk.order.acceptedAt)
            else Contradicts(desk, event)
  {
    if desk.order.state.Cancelled? {
      HeardIsNoted(desk, event);
    } else {
      HeardEvent(desk, event);
    }
  }

  function OpenAgain(order: LiveOrder): OrderState {
    if order.filled == 0.0 then Accepted else PartiallyFilled
  }

  /** A refused cancel reopens the order, and only a cancel that is pending can be refused. */
  lemma CancelRejectedOutcome(desk: Desk, event: OrderEvent)
    requires Heard(desk, event) && event.eventType.CancelRejected?
    ensures if desk.order.pending.Some? && desk.order.pending.value.Cancel?
            then Applies(desk, event, OpenAgain(desk.order), None, desk.order.acceptedAt)
            else Contradicts(desk, event)
  {
    HeardEvent(desk, event);
  }

  /** A refused amendment reopens the order with total and limit price as they were. */
  lemma AmendRejectedOutcome(desk: Desk, event: OrderEvent)
    requires Heard(desk, event) && event.eventType.AmendRejected?
    ensures if desk.order.pending.Some? && (desk.order.pending.value.Amend? || desk.order.pending.value.Decrease?)
            then Applies(desk, event, OpenAgain(desk.order), None, desk.order.acceptedAt)
            else Contradicts(desk, event)
  {
    HeardEvent(desk, event);
  }

  /** An unknown outcome keeps the command it is about. */
  lemma OutcomeUnknownOutcome(desk: Desk, event: OrderEvent)
    requires Heard(desk, event) && event.eventType.OutcomeUnknown?
    ensures if desk.order.pending.None? then Contradicts(desk, event)
            else Applies(desk, event, if desk.order.pending.value.New? then SubmissionUnknown else Reconciling,
                         desk.order.pending, desk.order.acceptedAt)
  {
    HeardEvent(desk, event);
  }

  /** A new price is taken over exactly when it is the price asked for, on a limit order. */
  lemma PriceAmendedOutcome(desk: Desk, event: OrderEvent)
    requires Heard(desk, event) && event.eventType.PriceAmended?
    ensures var order := desk.order;
            if order.pending.Some? && order.pending.value.Amend? && order.limitPrice.Some?
               && event.newLimitPrice == Some(order.pending.value.newLimitPrice)
            then Step(desk, OrderEventOp(event))
                 == Desk(order.(state := OpenAgain(order), pending := None, limitPrice := event.newLimitPrice,
                                version := order.version + 1, updatedAt := Later(order.updatedAt, event.receivedAt)),
                         desk.ledger + [AppliedEvent(BrokerEvent, event.eventId, OrderPrint(event))], desk.fills)
            else Contradicts(desk, event)
  {
    if BrokerTransition(desk.order, event).Some? {
      HeardIsApplied(desk, event);
    } else {
      HeardIsDeclined(desk, event);
    }
  }

  /** A decrease is taken over exactly when it leads to the total asked for and fills leave room for that. */
  lemma QuantityDecreasedOutcome(desk: Desk, event: OrderEvent)
    requires Heard(desk, event) && event.eventType.QuantityDecreased?
    ensures var order := desk.order;
            if order.pending.Some? && order.pending.value.Decrease? && event.decreasedQuantity.Some?
               && order.total - event.decreasedQuantity.value == order.pending.value.newTotal
               && order.filled <= order.pending.value.newTotal
            then var left := order.pending.value.newTotal - order.filled;
                 Step(desk, OrderEventOp(event))
                 == Desk(order.(state := if left == 0.0 then Filled else OpenAgain(order), pending := None,
                                total := order.pending.value.newTotal, remaining := left,
                                version := order.version + 1, updatedAt := Later(order.updatedAt, event.receivedAt)),
                         desk.ledger + [AppliedEvent(BrokerEvent, event.eventId, OrderPrint(event))], desk.fills)
            else Contradicts(desk, event)
  {
    if BrokerTransition(desk.order, event).Some? {
      HeardIsApplied(desk, event);
    } else {
      HeardIsDeclined(desk, event);
    }
  }

  /** No command asks for a price and a quantity at once, so such a change always contradicts the order. */
  lemma PriceAndQuantityOutcome(desk: Desk, event: OrderEvent)
    requires Heard(desk, event) && event.eventType.PriceAndQuantityAmended?
    ensures Contradicts(desk, event)
  {
    HeardIsDeclined(desk, event);
  }

  // ---- Events that are not heard ------------------------------------------------------------

  /** An event with a new identity that does not surely speak of this order contradicts it. */
  lemma UnconfirmedContradicts(desk: Desk, event: OrderEvent)
    requires Inv(desk.order) && event.Valid() && Unseen(desk.ledger, BrokerEvent, event.eventId)
    requires !SpeaksOf(event.correlation, event.accountId, event.instrumentId, desk.order.intent)
    ensures Contradicts(desk, event)
  {
    UnseenIsNotFound(desk.ledger, BrokerEvent, event.eventId);
    assert desk.fills + [] == desk.fills;
  }

  lemma {:induction false} FindRecorded(ledger: Ledger, i: nat)
    requires i < |ledger|
    requires forall j :: 0 <= j < i ==> ledger[j].source != ledger[i].source || ledger[j].eventId != ledger[i].eventId
    ensures Find(ledger, ledger[i].source, ledger[i].eventId) == Some(ledger[i])
  {
    if i > 0 {
      FindRecorded(ledger[1..], i - 1);
    }
  }

  /**
   * Once an event is recorded, another order event under its identity is the
   * same one exactly when it says the same about account, instrument, kind,
   * price and quantity, however it was delivered; otherwise it is a conflict.
   */
  lemma RedeliveredOrderEvent(order: LiveOrder, ledger: Ledger, first: OrderEvent, again: OrderEvent, more: Ledger)
    requires first.Valid() && again.Valid() && again.eventId == first.eventId
    requires Unseen(ledger, BrokerEvent, first.eventId)
    ensures var whole := ledger + [AppliedEvent(BrokerEvent, first.eventId, OrderPrint(first))] + more;
            ReduceOrderEvent(order, again, whole)
            == if again.accountId == first.accountId && again.instrumentId == first.instrumentId
                  && again.eventType == first.eventType && again.newLimitPrice == first.newLimitPrice
                  && again.decreasedQuantity == first.decreasedQuantity
               then Returned(Reduction(order, whole, ExactDuplicate, None, None))
               else Returned(Reduction(order, whole, EventConflict, None, Some(CorrelationConflict)))
  {
    FindRecorded(ledger + [AppliedEvent(BrokerEvent, first.eventId, OrderPrint(first))] + more, |ledger|);
  }

  /** The same for fills; a fill under the identity of an order event is always a conflict. */
  lemma RedeliveredFill(order: LiveOrder, ledger: Ledger, first: FillEvent, again: FillEvent, more: Ledger)
    requires order.Valid() && first.Valid() && again.Valid() && again.eventId == first.eventId
    requires Unseen(ledger, BrokerEvent, first.eventId)
    ensures var whole := ledger + [AppliedEvent(BrokerEvent, first.eventId, FillPrint(first))] + more;
            ReduceFillEvent(order, again, whole)
            == if again.accountId == first.accountId && again.instrumentId == first.instrumentId
                  && again.side == first.side && again.quantity == first.quantity && again.price == first.price
               then Returned(Reduction(order, whole, ExactDuplicate, None, None))
               else Returned(Reduction(order, whole, EventConflict, None, Some(CorrelationConflict)))
  {
    FindRecorded(ledger + [AppliedEvent(BrokerEvent, first.eventId, FillPrint(first))] + more, |ledger|);
  }

  lemma FillUnderAnOrderEvent(order: LiveOrder, ledger: Ledger, first: OrderEvent, again: FillEvent, more: Ledger)
    requires order.Valid() && first.Valid() && again.Valid() && again.eventId == first.eventId
    requires Unseen(ledger, BrokerEvent, first.eventId)
    ensures var whole := ledger + [AppliedEvent(BrokerEvent, first.eventId, OrderPrint(first))] + more;
            ReduceFillEvent(order, again, whole)
            == Returned(Reduction(order, whole, EventConflict, None, Some(CorrelationConflict)))
  {
    FindRecorded(ledger + [AppliedEvent(BrokerEvent, first.eventId, OrderPrint(first))] + more, |ledger|);
  }

  // ---- Fills ------------------------------------------------------------------------------------

  /** What a fill leaves of the order's state. */
  function StateAfterFill(order: LiveOrder, left: real): OrderState {
    if left == 0.0 then Filled
    else match order.state
      case Cancelled => Cancelled
      case Reconciling => Reconciling
      case CancelPending => CancelPending
      case _ => PartiallyFilled
  }

  /** A fill settles a submission; any other command stays pending while something is left to fill. */
  predicate CommandSurvivesFill(order: LiveOrder, left: real) {
    left != 0.0 && order.pending.Some? && (order.pending.value.New? ==> order.state.Reconciling?)
  }

  predicate FillTaken(desk: Desk, event: FillEvent, next: Desk)
    requires event.Valid()
  {
    var order := desk.order;
    var left := order.remaining - event.quantity;
    && next.order.average.Some?
    && next.order.average.value * (order.filled + event.quantity)
       == (if order.average.Some? then order.average.value * order.filled else 0.0) + event.price * event.quantity
    && next.order == order.(state := StateAfterFill(order, left), filled := order.filled + event.quantity, remaining := left,
                            average := next.order.average, version := order.version + 1,
                            updatedAt := Later(order.updatedAt, event.receivedAt),
                            acceptedAt := FirstShown(order, event.occurredAt, event.receivedAt),
                            pending := if CommandSurvivesFill(order, left) then order.pending else None)
    && next.ledger == desk.ledger + [AppliedEvent(BrokerEvent, event.eventId, FillPrint(event))]
    && next.fills == desk.fills + [ReportedFill(order.intent, event)]
  }

  /** The fill as it is passed on: the broker's figures under the order's own identity. */
  function ReportedFill(intent: Intent, event: FillEvent): LiveFill
    requires event.Valid()
  {
    LiveFill(if event.correlation.brokerFillId.Some? then event.correlation.brokerFillId.value else event.correlation.executionNo.value,
             intent.clientOrderId, intent.strategyId, intent.accountId, intent.instrumentId, intent.side,
             event.quantity, event.price, if event.occurredAt.Some? then event.occurredAt.value else event.receivedAt)
  }

  /** A new confirmed fill on the order's side is taken exactly when the order is open or cancelled and has room for it. */
  lemma FillOutcome(desk: Desk, event: FillEvent)
    requires Inv(desk.order) && event.Valid() && Unseen(desk.ledger, BrokerEvent, event.eventId)
    ensures var next := Step(desk, FillEventOp(event));
            if SpeaksOf(event.correlation, event.accountId, event.instrumentId, desk.order.intent)
               && event.side == desk.order.intent.side && !desk.order.state.Rejected?
               && event.quantity <= desk.order.remaining
            then && FillTaken(desk, event, next)
                 && ReduceFillEvent(desk.order, event, desk.ledger)
                    == Returned(Reduction(next.order, next.ledger, Applied, Some(ReportedFill(desk.order.intent, event)), None))
            else && next == desk
                 && ReduceFillEvent(desk.order, event, desk.ledger)
                    == Returned(Reduction(desk.order, desk.ledger, ReconciliationRequired, None, Some(NeedsReconciliation)))
  {
    UnseenIsNotFound(desk.ledger, BrokerEvent, event.eventId);
    FillStep(desk, event);
    if FillApplies(desk.order, event) {
      FilledOrderKeepsInv(desk.order, event);
      AverageTimesFilled(desk.order, event);
    }
  }

  lemma AverageTimesFilled(order: LiveOrder, event: FillEvent)
    requires Inv(order) && event.Valid()
    ensures FilledOrder(order, event).average.Some?
    ensures FilledOrder(order, event).average.value * (order.filled + event.quantity)
            == (if order.average.Some? then order.average.value * order.filled else 0.0) + event.price * event.quantity
  {
    DivideAndMultiply(PriorNotional(order) + event.quantity * event.price, order.filled + event.quantity);
  }

  lemma DivideAndMultiply(cost: real, quantity: real)
    requires quantity > 0.0
    ensures cost / quantity * quantity == cost
  {
  }

  // ---- Dispatch receipts --------------------------------------------------------------------------

  /** The receipt is about the command that is pending. */
  predicate ReceiptFor(order: LiveOrder, receipt: DispatchReceipt) {
    order.pending == Some(receipt.payload) && receipt.commandId == receipt.payload.commandId
  }

  /** A receipt for anything but the pending command is refused untouched. */
  lemma ForeignReceipt(desk: Desk, receipt: DispatchReceipt)
    requires Inv(desk.order) && receipt.Valid() && !ReceiptFor(desk.order, receipt)
    ensures Step(desk, DispatchOp(receipt)) == desk
    ensures ReduceDispatch(desk.order, receipt, desk.ledger)
            == Returned(Reduction(desk.order, desk.ledger, EventConflict, None, Some(IdempotencyConflict)))
  {
    assert desk.fills + [] == desk.fills;
  }

  /**
   * The first receipt of the pending command is recorded.  A success changes
   * nothing about the order; anything else leaves the command pending, an
   * unknown submission as such and the rest to reconciliation.
   */
  lemma FirstReceipt(desk: Desk, receipt: DispatchReceipt)
    requires Inv(desk.order) && receipt.Valid() && ReceiptFor(desk.order, receipt)
    requires Unseen(desk.ledger, Dispatch, receipt.commandId)
    ensures var order := desk.order;
            var at := if receipt.completedAt.Some? then receipt.completedAt.value else receipt.attemptedAt;
            var next :=
              if receipt.state == Succeeded then order
              else order.(state := if receipt.state == Unknown && receipt.payload.New? then SubmissionUnknown else Reconciling,
                          updatedAt := Later(order.updatedAt, at), version := order.version + 1);
            var ledger := desk.ledger + [AppliedEvent(Dispatch, receipt.commandId, DispatchPrint(receipt))];
            && Step(desk, DispatchOp(receipt)) == Desk(next, ledger, desk.fills)
            && ReduceDispatch(order, receipt, desk.ledger)
               == Returned(Reduction(next, ledger,
                                     match receipt.state
                                     case Succeeded => NoChange
                                     case Unknown => Applied
                                     case Failed => ReconciliationRequired,
                                     None, receipt.failure))
  {
    UnseenIsNotFound(desk.ledger, Dispatch, receipt.commandId);
    assert desk.fills + [] == desk.fills;
  }

  /** A further receipt of the pending command is the same one exactly when it equals the recorded one. */
  lemma RedeliveredReceipt(order: LiveOrder, ledger: Ledger, first: DispatchReceipt, again: DispatchReceipt, more: Ledger)
    requires again.commandId == first.commandId && ReceiptFor(order, again)
    requires Unseen(ledger, Dispatch, first.commandId)
    ensures var whole := ledger + [AppliedEvent(Dispatch, first.commandId, DispatchPrint(first))] + more;
            ReduceDispatch(order, again, whole)
            == Returned(Reduction(order, whole, if again == first then ExactDuplicate else EventConflict, None, None))
  {
    FindRecorded(ledger + [AppliedEvent(Dispatch, first.commandId, DispatchPrint(first))] + more, |ledger|);
  }

  // ---- Local commands -----------------------------------------------------------------------------

  /** A local request is granted with this order, or refused with the desk untouched. */
  predicate Granted(desk: Desk, op: Op, when_: bool, order: LiveOrder)
    requires desk.order.Valid() && op.Valid()
  {
    if when_ then Apply(desk, op) == Returned(desk.(order := order))
    else Apply(desk, op) == Raised(InvalidTransition) && Step(desk, op) == desk
  }

  /** The caller's clock may not run backwards, nor ahead of the command it brings. */
  predicate InTime(order: LiveOrder, at: Time, requestedAt: Time) {
    order.updatedAt <= at && requestedAt <= at
  }

  /** Only validation, submission with its own command and giving up on an unknown submission can be asked for. */
  lemma AdvanceOutcome(desk: Desk, target: OrderState, at: Time, binding: Option<Command>)
    requires Inv(desk.order) && (binding.Some? ==> binding.value.Valid())
    ensures var order := desk.order;
            var moved := order.(state := target, updatedAt := at, version := order.version + 1);
            if binding.None?
            then Granted(desk, AdvanceOp(target, at, binding),
                         order.updatedAt <= at && (order.state, target) in {(Created, Validated), (SubmissionUnknown, Reconciling)},
                         moved)
            else Granted(desk, AdvanceOp(target, at, binding),
                         InTime(order, at, binding.value.requestedAt) && (order.state, target) == (Validated, Submitting)
                         && binding.value.New? && binding.value.intent == order.intent,
                         moved.(pending := binding))
  {
  }

  /** A cancel can be asked for on an open order without a pending command. */
  lemma CancelRequestOutcome(desk: Desk, command: Command, at: Time)
    requires Inv(desk.order) && command.Valid()
    ensures var order := desk.order;
            Granted(desk, CancelOp(command, at),
                    InTime(order, at, command.requestedAt) && order.state in {Accepted, PartiallyFilled} && order.pending.None?
                    && command.Cancel? && command.orderId == order.intent.clientOrderId,
                    order.(state := CancelPending, pending := Some(command), updatedAt := at, version := order.version + 1))
  {
  }

  /** So can a new price or a smaller total, which leave the state as it is; the total must be the one the caller last saw. */
  lemma OperationRequestOutcome(desk: Desk, command: Command, at: Time)
    requires Inv(desk.order) && command.Valid()
    ensures var order := desk.order;
            Granted(desk, BindOp(command, at),
                    InTime(order, at, command.requestedAt) && order.state in {Accepted, PartiallyFilled} && order.pending.None?
                    && ((command.Amend? && command.orderId == order.intent.clientOrderId)
                        || (command.Decrease? && command.orderId == order.intent.clientOrderId && command.expectedTotal == order.total)),
                    order.(pending := Some(command), updatedAt := at, version := order.version + 1))
  {
  }
}
