/**
 * The reducers of tx_trade/orders/live_state_machine.py.  An exception is a
 * Raised outcome: InvalidTransition for a refused caller request, InvalidOrder
 * for a LiveOrder constructor check that fails.
 */
module LiveStateMachine {
  import opened Wrappers
  import opened LiveContracts

  datatype Error = InvalidTransition | InvalidOrder

  datatype Outcome<+T> = Returned(value: T) | Raised(error: Error) {
    predicate IsFailure() {
      Raised?
    }

    function PropagateFailure<U>(): Outcome<U>
      requires Raised?
    {
      Raised(error)
    }

    function Extract(): T
      requires Returned?
    {
      value
    }
  }

  function Require(condition: bool): Outcome<()> {
    if condition then Returned(()) else Raised(InvalidTransition)
  }

  datatype Source = Dispatch | BrokerEvent

  datatype AppliedEvent = AppliedEvent(source: Source, eventId: Id, fingerprint: Fingerprint)

  type Ledger = seq<AppliedEvent>

  datatype Disposition =
    Applied | NoChange | ExactDuplicate | EventConflict | ReconciliationRequired

  datatype Reduction = Reduction(
    order: LiveOrder, ledger: Ledger, disposition: Disposition,
    fill: Option<LiveFill>, failure: Option<FailureCode>)

  function CreateLiveOrder(intent: Intent): LiveOrder {
    LiveOrder(intent, Created, intent.quantity, 0.0, intent.quantity, None, intent.limitPrice,
              1, intent.createdAt, None, None)
  }

  /** `_snapshot`: one more version, never back in time, and the constructor check on the way out. */
  function Snapshot(previous: LiveOrder, next: LiveOrder): Outcome<LiveOrder> {
    if next.updatedAt < previous.updatedAt then Raised(InvalidTransition)
    else
      var order := next.(version := previous.version + 1);
      if order.Valid() then Returned(order) else Raised(InvalidOrder)
  }

  // ---- Local commands -------------------------------------------------------

  function RequireBinding(order: LiveOrder, binding: Command, at: Time): Outcome<()> {
    Require(binding.requestedAt <= at && binding.Targets(order.intent))
  }

  function AdvanceLocal(order: LiveOrder, target: OrderState, at: Time, binding: Option<Command>): Outcome<LiveOrder> {
    var _ :- Require(order.updatedAt <= at);
    if order.state.Created? && target.Validated? then
      var _ :- Require(binding.None?);
      Snapshot(order, order.(state := target, updatedAt := at, pending := None))
    else if order.state.Validated? && target.Submitting? then
      var _ :- Require(binding.Some? && binding.value.New?);
      var _ :- RequireBinding(order, binding.value, at);
      Snapshot(order, order.(state := target, updatedAt := at, pending := binding))
    else if order.state.SubmissionUnknown? && target.Reconciling? && binding.None? then
      Snapshot(order, order.(state := target, updatedAt := at))
    else
      Raised(InvalidTransition)
  }

  function RequestCancel(order: LiveOrder, binding: Command, at: Time): Outcome<LiveOrder> {
    var _ :- Require(order.updatedAt <= at);
    var _ :- Require(binding.Cancel?);
    var _ :- RequireBinding(order, binding, at);
    var _ :- Require(order.state in {Accepted, PartiallyFilled});
    var _ :- Require(order.pending.None?);
    Snapshot(order, order.(state := CancelPending, updatedAt := at, pending := Some(binding)))
  }

  function BindOperation(order: LiveOrder, binding: Command, at: Time): Outcome<LiveOrder> {
    var _ :- Require(order.updatedAt <= at);
    var _ :- Require(binding.Amend? || binding.Decrease?);
    var _ :- RequireBinding(order, binding, at);
    var _ :- Require(order.state in {Accepted, PartiallyFilled});
    var _ :- Require(order.pending.None?);
    var _ :- Require(binding.Decrease? ==> binding.expectedTotal == order.total);
    Snapshot(order, order.(updatedAt := at, pending := Some(binding)))
  }

  // ---- The applied-event ledger --------------------------------------------

  function Find(ledger: Ledger, source: Source, eventId: Id): Option<AppliedEvent> {
    if ledger == [] then None
    else if ledger[0].source == source && ledger[0].eventId == eventId then Some(ledger[0])
    else Find(ledger[1..], source, eventId)
  }

  function Deduplicate(ledger: Ledger, source: Source, eventId: Id, print_: Fingerprint): Option<Disposition> {
    match Find(ledger, source, eventId)
    case None => None
    case Some(recorded) => Some(if recorded.fingerprint == print_ then ExactDuplicate else EventConflict)
  }

  function OrderPrint(e: OrderEvent): Fingerprint {
    OrderEventPrint(e.eventId, e.accountId, e.instrumentId, e.eventType, e.failure, e.newLimitPrice,
                    e.decreasedQuantity)
  }

  function FillPrint(e: FillEvent): Fingerprint {
    FillEventPrint(e.eventId, e.accountId, e.instrumentId, e.side, e.quantity, e.price)
  }

  function Reconcile(order: LiveOrder, ledger: Ledger): Reduction {
    Reduction(order, ledger, ReconciliationRequired, None, Some(NeedsReconciliation))
  }

  function BrokerDuplicate(order: LiveOrder, ledger: Ledger, disposition: Disposition): Reduction {
    Reduction(order, ledger, disposition, None,
              if disposition.EventConflict? then Some(CorrelationConflict) else None)
  }

  predicate ConfirmedFor(order: LiveOrder, correlation: Correlation, accountId: Id, instrumentId: Id) {
    && correlation.status.Confirmed?
    && correlation.clientOrderId == Some(order.intent.clientOrderId)
    && accountId == order.intent.accountId
    && instrumentId == order.intent.instrumentId
  }

  // ---- Reducers ---------------------------------------------------------------

  function ReduceDispatch(order: LiveOrder, receipt: DispatchReceipt, ledger: Ledger): Outcome<Reduction> {
    if order.pending.None? || receipt.commandId != order.pending.value.commandId
       || receipt.payload != order.pending.value
    then Returned(Reduction(order, ledger, EventConflict, None, Some(IdempotencyConflict)))
    else
      match Deduplicate(ledger, Dispatch, receipt.commandId, DispatchPrint(receipt))
      case Some(duplicate) => Returned(Reduction(order, ledger, duplicate, None, None))
      case None =>
        var recorded := ledger + [AppliedEvent(Dispatch, receipt.commandId, DispatchPrint(receipt))];
        if receipt.state.Succeeded? then Returned(Reduction(order, recorded, NoChange, None, None))
        else
          var target := if order.pending.value.New? && receipt.state.Unknown? then SubmissionUnknown else Reconciling;
          var evidenceAt := Or(receipt.completedAt, receipt.attemptedAt);
          var next :- Snapshot(order, order.(state := target, updatedAt := MaxInt(order.updatedAt, evidenceAt)));
          Returned(Reduction(next, recorded, if receipt.state.Unknown? then Applied else ReconciliationRequired,
                             None, receipt.failure))
  }

  /** `_broker_transition`: the state, total, limit price and pending command an event leads to. */
  datatype Transition = Transition(state: OrderState, total: real, limitPrice: Option<real>, pending: Option<Command>)

  function BrokerTransition(order: LiveOrder, event: OrderEvent): Option<Transition> {
    var openState := if order.filled > 0.0 then PartiallyFilled else Accepted;
    if order.state.IsTerminal() then None
    else match event.eventType
      case NewAccepted =>
        if order.acceptedAt.Some? then Some(Transition(order.state, order.total, order.limitPrice, order.pending))
        else Some(Transition(openState, order.total, order.limitPrice, None))
      case NewRejected =>
        if order.filled > 0.0 || order.acceptedAt.Some? then None
        else Some(Transition(Rejected, order.total, order.limitPrice, None))
      case CancelPendingAck =>
        if order.pending.None? || !order.pending.value.Cancel? || !order.state.CancelPending? then None
        else Some(Transition(order.state, order.total, order.limitPrice, order.pending))
      case CancelledAck =>
        if order.remaining == 0.0 then None
        else Some(Transition(Cancelled, order.total, order.limitPrice, None))
      case DynamicCancelled =>
        if order.remaining == 0.0 || order.state !in {Accepted, PartiallyFilled, CancelPending} then None
        else Some(Transition(Cancelled, order.total, order.limitPrice, None))
      case CancelRejected =>
        if order.pending.None? || !order.pending.value.Cancel? then None
        else Some(Transition(openState, order.total, order.limitPrice, None))
      case AmendRejected =>
        if order.pending.None? || !(order.pending.value.Amend? || order.pending.value.Decrease?) then None
        else Some(Transition(openState, order.total, order.limitPrice, None))
      case OutcomeUnknown =>
        if order.pending.None? then None
        else Some(Transition(if order.pending.value.New? then SubmissionUnknown else Reconciling,
                             order.total, order.limitPrice, order.pending))
      case _ =>
        if order.pending.None? || !order.pending.value.MatchesWorkingChange(event, order.total) then None
        else if event.newLimitPrice.Some? && order.limitPrice.None? then None
        else
          var total := order.total - event.decreasedQuantity.GetOr(q => q, 0.0);
          if total < order.filled || total > order.total then None
          else Some(Transition(if total == order.filled then Filled else openState, total,
                               if event.newLimitPrice.Some? then event.newLimitPrice else order.limitPrice, None))
  }

  function MovedOrder(order: LiveOrder, event: OrderEvent, t: Transition): LiveOrder {
    var acceptedAt :=
      if t.state in {Created, Validated, Submitting, SubmissionUnknown, Reconciling, Rejected}
      then order.acceptedAt
      else Some(Or(order.acceptedAt, Or(event.occurredAt, event.receivedAt)));
    order.(
      state := t.state, total := t.total, remaining := t.total - order.filled,
      limitPrice := t.limitPrice, updatedAt := MaxInt(order.updatedAt, event.receivedAt),
      acceptedAt := acceptedAt, pending := t.pending)
  }

  function ReduceOrderEvent(order: LiveOrder, event: OrderEvent, ledger: Ledger): Outcome<Reduction> {
    match Deduplicate(ledger, BrokerEvent, event.eventId, OrderPrint(event))
    case Some(duplicate) => Returned(BrokerDuplicate(order, ledger, duplicate))
    case None =>
      var recorded := ledger + [AppliedEvent(BrokerEvent, event.eventId, OrderPrint(event))];
      if !ConfirmedFor(order, event.correlation, event.accountId, event.instrumentId)
      then Returned(Reconcile(order, ledger))
      else if order.state.Cancelled? && event.eventType in {CancelledAck, DynamicCancelled}
      then Returned(Reduction(order, recorded, NoChange, None, None))
      else
        match BrokerTransition(order, event)
        case None => Returned(Reconcile(order, ledger))
        case Some(t) =>
          var next :- Snapshot(order, MovedOrder(order, event, t));
          Returned(Reduction(next, recorded, Applied, None, event.failure))
  }

  /** What filled quantity has cost so far; the reducer rebuilds it from the average. */
  function PriorNotional(order: LiveOrder): real {
    match order.average
    case Some(average) => order.filled * average
    case None => 0.0
  }

  function FillState(order: LiveOrder, newRemaining: real): (OrderState, Option<Command>) {
    if newRemaining == 0.0 then (Filled, None)
    else if order.state.Cancelled? then (Cancelled, None)
    else if order.state.Reconciling? then (Reconciling, order.pending)
    else if order.state.CancelPending? then (CancelPending, order.pending)
    else (PartiallyFilled, if order.pending.Some? && order.pending.value.New? then None else order.pending)
  }

  function FilledOrder(order: LiveOrder, event: FillEvent): LiveOrder
    requires order.filled + event.quantity != 0.0
  {
    var newFilled := order.filled + event.quantity;
    var newRemaining := order.total - newFilled;
    var (state, pending) := FillState(order, newRemaining);
    order.(
      state := state, filled := newFilled, remaining := newRemaining,
      average := Some((PriorNotional(order) + event.quantity * event.price) / newFilled),
      updatedAt := MaxInt(order.updatedAt, event.receivedAt),
      acceptedAt := Some(Or(order.acceptedAt, Or(event.occurredAt, event.receivedAt))),
      pending := pending)
  }

  function EmittedFill(order: LiveOrder, event: FillEvent): LiveFill
    requires event.correlation.NamesAFill()
  {
    var fillId := if event.correlation.brokerFillId.Some? then event.correlation.brokerFillId.value
                  else event.correlation.executionNo.value;
    LiveFill(fillId, order.intent.clientOrderId, order.intent.strategyId, order.intent.accountId,
             order.intent.instrumentId, order.intent.side, event.quantity, event.price,
             Or(event.occurredAt, event.receivedAt))
  }

  /** Whether a fill event that is new to the ledger is applied rather than sent to reconciliation. */
  predicate FillApplies(order: LiveOrder, event: FillEvent) {
    && ConfirmedFor(order, event.correlation, event.accountId, event.instrumentId)
    && event.side == order.intent.side
    && order.state !in {Rejected, Filled}
    && event.quantity <= order.remaining
  }

  function ReduceFillEvent(order: LiveOrder, event: FillEvent, ledger: Ledger): Outcome<Reduction>
    requires event.Valid() && order.Valid()
  {
    match Deduplicate(ledger, BrokerEvent, event.eventId, FillPrint(event))
    case Some(duplicate) => Returned(BrokerDuplicate(order, ledger, duplicate))
    case None =>
      if !FillApplies(order, event) then Returned(Reconcile(order, ledger))
      else
        var recorded := ledger + [AppliedEvent(BrokerEvent, event.eventId, FillPrint(event))];
        var next :- Snapshot(order, FilledOrder(order, event));
        Returned(Reduction(next, recorded, Applied, Some(EmittedFill(order, event)), None))
  }
}
