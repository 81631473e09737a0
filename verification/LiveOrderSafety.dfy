/**
 * Steps of the live-order protocol and their inductive invariant: a desk owns one order, its applied-event
 * ledger and the fills emitted so far, and takes any sequence of operations.
 * An operation that raises leaves the desk as it was.
 */
module LiveOrderSafety {
  import opened Wrappers
  import opened LiveContracts
  import opened LiveStateMachine

  datatype Desk = Desk(order: LiveOrder, ledger: Ledger, fills: seq<LiveFill>)

  datatype Op =
    | AdvanceOp(target: OrderState, at: Time, binding: Option<Command>)
    | CancelOp(command: Command, at: Time)
    | BindOp(command: Command, at: Time)
    | DispatchOp(receipt: DispatchReceipt)
    | OrderEventOp(orderEvent: OrderEvent)
    | FillEventOp(fillEvent: FillEvent)
  {
    /** The records an operation carries have passed their own constructors. */
    predicate Valid() {
      match this
      case AdvanceOp(_, _, binding) => binding.Some? ==> binding.value.Valid()
      case CancelOp(command, _) => command.Valid()
      case BindOp(command, _) => command.Valid()
      case DispatchOp(receipt) => receipt.Valid()
      case OrderEventOp(event) => event.Valid()
      case FillEventOp(event) => event.Valid()
    }

    /** A caller's own request, as opposed to evidence that comes back from outside. */
    predicate IsLocal() {
      AdvanceOp? || CancelOp? || BindOp?
    }
  }

  function Open(intent: Intent): Desk {
    Desk(CreateLiveOrder(intent), [], [])
  }

  function Absorb(desk: Desk, reduction: Outcome<Reduction>): Outcome<Desk> {
    var r :- reduction;
    Returned(Desk(r.order, r.ledger, desk.fills + (if r.fill.Some? then [r.fill.value] else [])))
  }

  function Reorder(desk: Desk, order: Outcome<LiveOrder>): Outcome<Desk> {
    var next :- order;
    Returned(desk.(order := next))
  }

  function Apply(desk: Desk, op: Op): Outcome<Desk>
    requires op.Valid() && desk.order.Valid()
  {
    match op
    case AdvanceOp(target, at, binding) => Reorder(desk, AdvanceLocal(desk.order, target, at, binding))
    case CancelOp(command, at) => Reorder(desk, RequestCancel(desk.order, command, at))
    case BindOp(command, at) => Reorder(desk, BindOperation(desk.order, command, at))
    case DispatchOp(receipt) => Absorb(desk, ReduceDispatch(desk.order, receipt, desk.ledger))
    case OrderEventOp(event) => Absorb(desk, ReduceOrderEvent(desk.order, event, desk.ledger))
    case FillEventOp(event) => Absorb(desk, ReduceFillEvent(desk.order, event, desk.ledger))
  }

  function Step(desk: Desk, op: Op): Desk
    requires op.Valid() && desk.order.Valid()
  {
    match Apply(desk, op)
    case Returned(next) => next
    case Raised(_) => desk
  }

  // ---- The inductive invariant ------------------------------------------------

  /** What every reachable order satisfies: strictly more than its constructor checks. */
  predicate Inv(order: LiveOrder) {
    && order.Valid()
    && order.intent.Valid()
    && (order.remaining == 0.0 ==> order.state.Filled?)
    && (order.filled > 0.0 ==> order.acceptedAt.Some?)
    && (order.pending.Some? ==> PendingInv(order, order.pending.value))
  }

  predicate PendingInv(order: LiveOrder, command: Command) {
    && command.Valid()
    && (command.New? ==> order.state in {Submitting, SubmissionUnknown, Reconciling})
    && (command.Cancel? ==> order.state in {CancelPending, Reconciling})
    && (command.Amend? || command.Decrease? ==> order.state in {Accepted, PartiallyFilled, Reconciling})
    && (command.Decrease? ==> command.expectedTotal == order.total)
    && (!command.New? ==> order.acceptedAt.Some?)
  }

  /** Orders and steps never lose what has been settled. */
  predicate Advances(before: LiveOrder, after: LiveOrder) {
    && after.intent == before.intent
    && after.version == before.version + 1
    && before.updatedAt <= after.updatedAt
    && after.total <= before.total
    && before.filled <= after.filled
    && (before.acceptedAt.Some? ==> after.acceptedAt == before.acceptedAt)
    && !before.state.Filled? && !before.state.Rejected?
    && (before.state.Cancelled? ==> after.state in {Cancelled, Filled})
  }

  lemma CreatedOrderHoldsInv(intent: Intent)
    requires intent.Valid()
    ensures Inv(CreateLiveOrder(intent))
    ensures var order := CreateLiveOrder(intent);
            && order.intent == intent && order.state == Created && order.version == 1 && order.updatedAt == intent.createdAt
            && order.filled == 0.0 && order.remaining == intent.quantity && order.limitPrice == intent.limitPrice
            && order.pending.None? && order.acceptedAt.None?
  {
  }

  lemma FilledOrderKeepsInv(order: LiveOrder, event: FillEvent)
    requires Inv(order) && event.Valid() && FillApplies(order, event)
    ensures var next := FilledOrder(order, event).(version := order.version + 1);
            Inv(next) && Advances(order, next)
  {
    var newFilled := order.filled + event.quantity;
    assert PriorNotional(order) >= 0.0;
    PositiveQuotient(PriorNotional(order) + event.quantity * event.price, newFilled);
  }

  lemma PositiveQuotient(a: real, b: real)
    requires a > 0.0 && b > 0.0
    ensures a / b > 0.0
  {
  }

  /** What a broker transition must offer for the moved order to be a good one. */
  predicate SoundTransition(order: LiveOrder, t: Transition) {
    && !order.state.IsTerminal()
    && 0.0 < t.total <= order.total
    && order.filled <= t.total
    && (order.intent.orderType.Limit? <==> t.limitPrice.Some?)
    && (t.limitPrice.Some? ==> t.limitPrice.value > 0.0)
    && (t.pending.Some? ==> t.pending == order.pending && t.total == order.total)
    && (t.total == order.filled <==> t.state.Filled?)
    && match t.state
       case Rejected => order.filled == 0.0 && order.acceptedAt.None? && t.pending.None?
       case Filled => t.pending.None?
       case Cancelled => t.pending.None?
       case Accepted => order.filled == 0.0 && (t.pending.Some? ==> order.state.Accepted?)
       case PartiallyFilled => order.filled > 0.0 && (t.pending.Some? ==> order.state.PartiallyFilled?)
       case SubmissionUnknown => t.pending.Some? && t.pending.value.New?
       case Reconciling => t.pending.Some? && (t.pending.value.New? ==> order.state.Reconciling?)
       case _ => t.state == order.state && t.pending == order.pending
  }

  lemma TransitionIsSound(order: LiveOrder, event: OrderEvent)
    requires Inv(order) && event.Valid()
    requires BrokerTransition(order, event).Some?
    ensures SoundTransition(order, BrokerTransition(order, event).value)
    ensures BrokerTransition(order, event).value.state.Rejected? <==> event.eventType.NewRejected?
    ensures BrokerTransition(order, event).value.state.Cancelled? <==> event.eventType in {CancelledAck, DynamicCancelled}
    ensures BrokerTransition(order, event).value.state.Filled? ==> event.eventType.QuantityDecreased?
  {
    match event.eventType
    case NewAccepted =>
    case CancelledAck =>
    case _ =>
  }

  lemma MovedOrderKeepsInv(order: LiveOrder, event: OrderEvent, t: Transition)
    requires Inv(order) && event.Valid() && SoundTransition(order, t)
    ensures var next := MovedOrder(order, event, t).(version := order.version + 1);
            Inv(next) && Advances(order, next)
  {
    var next := MovedOrder(order, event, t).(version := order.version + 1);
    assert next.ValidQuantities();
    assert next.ValidTimes();
    match t.state
    case Cancelled =>
    case Accepted =>
    case PartiallyFilled =>
    case _ =>
  }

  /**
   * The reducers are total on reachable orders: no operation ever fails a
   * LiveOrder constructor check, evidence never raises at all, and the
   * invariant and the forward-only facts hold of whatever comes back.
   */
  lemma StepIsSafe(desk: Desk, op: Op)
    requires Inv(desk.order) && op.Valid()
    ensures Apply(desk, op) != Raised(InvalidOrder)
    ensures !op.IsLocal() ==> Apply(desk, op).Returned?
    ensures Inv(Step(desk, op).order)
    ensures Step(desk, op).order == desk.order || Advances(desk.order, Step(desk, op).order)
  {
    match op
    case FillEventOp(event) => FillIsSafe(desk, event);
    case OrderEventOp(event) => OrderEventIsSafe(desk, event);
    case DispatchOp(receipt) => DispatchIsSafe(desk, receipt);
    case AdvanceOp(target, at, binding) => LocalIsSafe(desk, op);
    case CancelOp(command, at) => LocalIsSafe(desk, op);
    case BindOp(command, at) => LocalIsSafe(desk, op);
  }

  lemma LocalIsSafe(desk: Desk, op: Op)
    requires Inv(desk.order) && op.Valid() && op.IsLocal()
    ensures Apply(desk, op) != Raised(InvalidOrder)
    ensures Inv(Step(desk, op).order)
    ensures Step(desk, op).order == desk.order || Advances(desk.order, Step(desk, op).order)
  {
    match op
    case AdvanceOp(target, at, binding) =>
    case CancelOp(command, at) =>
    case BindOp(command, at) =>
  }

  /** A fill event either leaves the desk alone or fills the order, records the event and emits the fill. */
  lemma FillStep(desk: Desk, event: FillEvent)
    requires Inv(desk.order) && event.Valid()
    ensures Step(desk, FillEventOp(event)) ==
            if Deduplicate(desk.ledger, BrokerEvent, event.eventId, FillPrint(event)).None? && FillApplies(desk.order, event)
            then Desk(FilledOrder(desk.order, event).(version := desk.order.version + 1),
                      desk.ledger + [AppliedEvent(BrokerEvent, event.eventId, FillPrint(event))],
                      desk.fills + [EmittedFill(desk.order, event)])
            else desk
  {
    if FillApplies(desk.order, event) {
      FilledOrderKeepsInv(desk.order, event);
    } else {
      assert desk.fills + [] == desk.fills;
    }
  }

  lemma FillIsSafe(desk: Desk, event: FillEvent)
    requires Inv(desk.order) && event.Valid()
    ensures var r := ReduceFillEvent(desk.order, event, desk.ledger);
            && r.Returned?
            && Inv(r.value.order)
            && (r.value.order == desk.order || Advances(desk.order, r.value.order))
  {
    if FillApplies(desk.order, event) {
      FilledOrderKeepsInv(desk.order, event);
    }
  }

  lemma DispatchIsSafe(desk: Desk, receipt: DispatchReceipt)
    requires Inv(desk.order) && receipt.Valid()
    ensures var r := ReduceDispatch(desk.order, receipt, desk.ledger);
            && r.Returned?
            && Inv(r.value.order)
            && (r.value.order == desk.order || Advances(desk.order, r.value.order))
  {
  }

  lemma OrderEventIsSafe(desk: Desk, event: OrderEvent)
    requires Inv(desk.order) && event.Valid()
    ensures var r := ReduceOrderEvent(desk.order, event, desk.ledger);
            && r.Returned?
            && Inv(r.value.order)
            && (r.value.order == desk.order || Advances(desk.order, r.value.order))
  {
    var transition := BrokerTransition(desk.order, event);
    if transition.Some? {
      TransitionIsSound(desk.order, event);
      MovedOrderKeepsInv(desk.order, event, transition.value);
    }
  }

  /**
   * The constructor check alone is not inductive: a valid RECONCILING order
   * with nothing remaining makes a rejected cancel build an invalid LiveOrder.
   */
  lemma ConstructorCheckIsNotInductive() returns (order: LiveOrder, event: OrderEvent)
    ensures order.Valid() && order.intent.Valid() && event.Valid() && !Inv(order)
    ensures ReduceOrderEvent(order, event, []) == Raised(InvalidOrder)
  {
    var intent := Intent("s", "o", "a", "i", Buy, 1.0, Market, None, Day, false, 0);
    order := LiveOrder(intent, Reconciling, 1.0, 1.0, 0.0, Some(5.0), None, 4, 3, Some(1), Some(Cancel("c", "o", 2)));
    var correlation := Correlation(Confirmed, Some("o"), None, None, Some("q"), None, None, None, None, 4);
    event := OrderEvent("e", "a", "i", CancelRejected, 4, correlation, None, Some(CancelRefused), None, None);
    assert !MovedOrder(order, event, BrokerTransition(order, event).value).(version := 5).ValidState();
  }
}
