/**
 * The frozen records of tx_trade/orders/live_contracts.py.  A record's
 * `__post_init__` check is the predicate Valid of its datatype.  Quantities and
 * prices are exact reals, times are integers, and a payload fingerprint is the
 * payload it digests.
 */
module LiveContracts {
  import opened Wrappers

  type Id = string
  type Time = int

  datatype Side = Buy | Sell

  datatype OrderType = Market | Limit

  datatype TimeInForce = Day | Ioc | Fok

  datatype OrderState =
    | Created | Validated | Submitting | Accepted | PartiallyFilled | Filled
    | Rejected | CancelPending | Cancelled | SubmissionUnknown | Reconciling
  {
    predicate IsTerminal() {
      Filled? || Rejected? || Cancelled?
    }
  }

  datatype BrokerEventType =
    | NewAccepted | NewRejected | CancelPendingAck | CancelledAck | CancelRejected
    | DynamicCancelled | PriceAmended | QuantityDecreased | PriceAndQuantityAmended
    | AmendRejected | OutcomeUnknown

  datatype CorrelationStatus = Candidate | Confirmed | Ambiguous

  datatype DispatchState = Succeeded | Failed | Unknown

  datatype FailureCode =
    | InvalidCommand | IdempotencyConflict | AccountNotReady | RiskRejected | DispatchFailed
    | DispatchOutcomeUnknown | BrokerRejected | CancelRefused | AmendRefused | BrokerTimeout
    | CorrelationConflict | BrokerEventInvalid | NeedsReconciliation | InternalFailure

  datatype Intent = Intent(
    strategyId: Id, clientOrderId: Id, accountId: Id, instrumentId: Id, side: Side,
    quantity: real, orderType: OrderType, limitPrice: Option<real>,
    timeInForce: TimeInForce, dayTrade: bool, createdAt: Time)
  {
    predicate Valid() {
      && quantity > 0.0
      && (limitPrice.Some? ==> limitPrice.value > 0.0)
      && (orderType.Limit? <==> limitPrice.Some?)
    }
  }

  /** A command; PendingCommandBinding adds only its fingerprint, which here is the command itself. */
  datatype Command =
    | New(commandId: Id, intent: Intent, requestedAt: Time)
    | Cancel(commandId: Id, orderId: Id, requestedAt: Time)
    | Amend(commandId: Id, orderId: Id, newLimitPrice: real, requestedAt: Time)
    | Decrease(commandId: Id, orderId: Id, expectedTotal: real, newTotal: real, requestedAt: Time)
  {
    predicate Valid() {
      match this
      case New(_, intent, _) => intent.Valid()
      case Cancel(_, _, _) => true
      case Amend(_, _, price, _) => price > 0.0
      case Decrease(_, _, expected, target, _) => 0.0 < target < expected
    }

    predicate Targets(order: Intent) {
      match this
      case New(_, intent, _) => intent == order
      case Cancel(_, id, _) => id == order.clientOrderId
      case Amend(_, id, _, _) => id == order.clientOrderId
      case Decrease(_, id, _, _, _) => id == order.clientOrderId
    }

    /** Whether a broker working change proves exactly this pending command. */
    predicate MatchesWorkingChange(event: OrderEvent, currentTotal: real) {
      match this
      case Amend(_, _, price, _) =>
        event.eventType.PriceAmended? && event.newLimitPrice == Some(price)
      case Decrease(_, _, expected, target, _) =>
        && event.eventType.QuantityDecreased?
        && event.decreasedQuantity.Some?
        && currentTotal == expected
        && currentTotal - event.decreasedQuantity.value == target
      case _ => false
    }
  }

  datatype LiveOrder = LiveOrder(
    intent: Intent, state: OrderState, total: real, filled: real, remaining: real,
    average: Option<real>, limitPrice: Option<real>, version: int, updatedAt: Time,
    acceptedAt: Option<Time>, pending: Option<Command>)
  {
    /** The whole `LiveOrder.__post_init__` check. */
    predicate Valid() {
      && ValidQuantities()
      && ValidTimes()
      && ValidPending()
      && ValidState()
    }

    predicate ValidQuantities() {
      && total > 0.0
      && filled >= 0.0
      && remaining >= 0.0
      && (average.Some? ==> average.value > 0.0)
      && (limitPrice.Some? ==> limitPrice.value > 0.0)
      && (intent.orderType.Limit? <==> limitPrice.Some?)
      && filled + remaining == total
      && total <= intent.quantity
      && (filled == 0.0 <==> average.None?)
    }

    predicate ValidTimes() {
      && version >= 1
      && (state in {Accepted, PartiallyFilled, Filled, CancelPending, Cancelled} ==> acceptedAt.Some?)
      && (acceptedAt.Some? ==> acceptedAt.value <= updatedAt)
    }

    predicate ValidPending() {
      && (pending.Some? ==>
            && pending.value.requestedAt <= updatedAt
            && pending.value.Targets(intent))
      && (state in {Submitting, SubmissionUnknown, Reconciling, CancelPending} ==> pending.Some?)
      && (state in {Created, Validated, Filled, Rejected, Cancelled} ==> pending.None?)
      && (state.CancelPending? && pending.Some? ==> pending.value.Cancel?)
    }

    predicate ValidState() {
      && (state.PartiallyFilled? ==> 0.0 < filled < total)
      && (state.Filled? ==> remaining == 0.0)
      && (state in {Created, Validated, Submitting, Accepted, Rejected} ==> filled == 0.0)
      && (state in {CancelPending, Cancelled} ==> remaining != 0.0)
    }
  }

  datatype LiveFill = LiveFill(
    fillId: Id, clientOrderId: Id, strategyId: Id, accountId: Id, instrumentId: Id,
    side: Side, quantity: real, price: real, occurredAt: Time)

  /** Broker correlation; the adapter's session generation and receive counter carry no decision and are dropped. */
  datatype Correlation = Correlation(
    status: CorrelationStatus, clientOrderId: Option<Id>, brokerFillId: Option<Id>,
    executionNo: Option<Id>, brokerOrderSequence: Option<Id>, brokerBookNo: Option<Id>,
    proxyStampId: Option<Id>, asyncThreadId: Option<Id>, submissionAttemptId: Option<Id>,
    correlatedAt: Time)
  {
    predicate Valid() {
      && (|| asyncThreadId.Some? || proxyStampId.Some? || brokerOrderSequence.Some?
          || brokerBookNo.Some? || brokerFillId.Some? || executionNo.Some?)
      && (status.Confirmed? ==> clientOrderId.Some?)
    }

    predicate NamesAFill() {
      brokerFillId.Some? || executionNo.Some?
    }
  }

  datatype DispatchReceipt = DispatchReceipt(
    commandId: Id, payload: Command, state: DispatchState, attemptedAt: Time,
    completedAt: Option<Time>, failure: Option<FailureCode>)
  {
    predicate Valid() {
      && (completedAt.Some? ==> attemptedAt <= completedAt.value)
      && (state.Succeeded? <==> failure.None?)
      && (!state.Unknown? ==> completedAt.Some?)
    }
  }

  datatype OrderEvent = OrderEvent(
    eventId: Id, accountId: Id, instrumentId: Id, eventType: BrokerEventType, receivedAt: Time,
    correlation: Correlation, occurredAt: Option<Time>, failure: Option<FailureCode>,
    decreasedQuantity: Option<real>, newLimitPrice: Option<real>)
  {
    predicate Valid() {
      && correlation.Valid()
      && (occurredAt.Some? ==> occurredAt.value <= receivedAt)
      && (decreasedQuantity.Some? ==> decreasedQuantity.value > 0.0)
      && (newLimitPrice.Some? ==> newLimitPrice.value > 0.0)
      && (eventType in {QuantityDecreased, PriceAndQuantityAmended} <==> decreasedQuantity.Some?)
      && (eventType in {PriceAmended, PriceAndQuantityAmended} <==> newLimitPrice.Some?)
      && failure == ExpectedFailure(eventType)
    }
  }

  function ExpectedFailure(eventType: BrokerEventType): Option<FailureCode> {
    match eventType
    case NewRejected => Some(BrokerRejected)
    case CancelRejected => Some(CancelRefused)
    case AmendRejected => Some(AmendRefused)
    case OutcomeUnknown => Some(BrokerTimeout)
    case _ => None
  }

  datatype FillEvent = FillEvent(
    eventId: Id, accountId: Id, instrumentId: Id, side: Side, quantity: real, price: real,
    receivedAt: Time, correlation: Correlation, occurredAt: Option<Time>)
  {
    predicate Valid() {
      && correlation.Valid()
      && correlation.NamesAFill()
      && quantity > 0.0
      && price > 0.0
      && (occurredAt.Some? ==> occurredAt.value <= receivedAt)
    }
  }

  /** `broker_semantic_fingerprint` and the dispatch digest: what is digested, without delivery metadata. */
  datatype Fingerprint =
    | OrderEventPrint(eventId: Id, accountId: Id, instrumentId: Id, eventType: BrokerEventType,
                      failure: Option<FailureCode>, newLimitPrice: Option<real>, decreased: Option<real>)
    | FillEventPrint(eventId: Id, accountId: Id, instrumentId: Id, side: Side, quantity: real, price: real)
    | DispatchPrint(receipt: DispatchReceipt)
}
