/**
 * The queue state of `BoundedIngress` in tx_trade/market_data/ingress.py as a
 * value, with the two atomic steps a locked section can take.
 */
module IngressQueues {
  import opened Wrappers
  import opened RecencyWindow

  type Id = string

  /** What an event carries; the kind of the event is the kind of its payload. */
  datatype Payload =
    | AdapterDiagnostic | ConnectionNotification | ServerTimeNotification | StockListNotification
    | QuoteSnapshot(market: int, stock: int)
    | TickNotification

  /** A captured event; `metadata` stands for the other fields the pipeline compares. */
  datatype Event = Event(
    session: Id, generation: nat, sequence: nat, payload: Payload, candidate: Option<string>, metadata: Id)

  datatype Lane = Diagnostic | Control | Quote | Tick

  datatype Decision = Accepted | Duplicate | Dropped | Coalesced

  datatype QuoteKey = QuoteKey(session: Id, generation: nat, market: int, stock: int)

  datatype DedupeKey = DedupeKey(session: Id, generation: nat, candidate: string)

  function LaneOf(e: Event): Lane {
    match e.payload
    case AdapterDiagnostic => Diagnostic
    case QuoteSnapshot(_, _) => Quote
    case TickNotification => Tick
    case _ => Control
  }

  function KeyOf(e: Event): QuoteKey
    requires LaneOf(e).Quote?
  {
    QuoteKey(e.session, e.generation, e.payload.market, e.payload.stock)
  }

  function DedupeKeyOf(e: Event): Option<DedupeKey> {
    match e.candidate
    case Some(c) => Some(DedupeKey(e.session, e.generation, c))
    case None => None
  }

  datatype Limits = Limits(diagnostic: nat, control: nat, quote: nat, tick: nat, dedupe: nat, burst: nat)
  {
    /** The constructor's checks. */
    predicate Valid() {
      diagnostic > 0 && control > 0 && quote > 0 && tick > 0 && dedupe > 0 && burst > 0
    }

    function Capacity(lane: Lane): nat {
      match lane
      case Diagnostic => diagnostic
      case Control => control
      case Quote => quote
      case Tick => tick
    }
  }

  datatype Queues = Queues(
    diagnostic: seq<Event>, control: seq<Event>, quotes: seq<Event>, ticks: seq<Event>,
    recent: seq<DedupeKey>, marketTurn: Lane, criticalTurn: Lane, burst: nat)
  {
    predicate Valid(l: Limits) {
      && |diagnostic| <= l.diagnostic && |control| <= l.control && |quotes| <= l.quote && |ticks| <= l.tick
      && (forall e :: e in diagnostic ==> LaneOf(e).Diagnostic?) && (forall e :: e in control ==> LaneOf(e).Control?)
      && (forall e :: e in quotes ==> LaneOf(e).Quote?) && (forall e :: e in ticks ==> LaneOf(e).Tick?)
      && (forall i, j :: 0 <= i < j < |quotes| ==> KeyOf(quotes[i]) != KeyOf(quotes[j]))
      && burst <= l.burst
      && (marketTurn.Quote? || marketTurn.Tick?)
      && (criticalTurn.Diagnostic? || criticalTurn.Control?)
    }

    function Lane(lane: Lane): seq<Event> {
      match lane
      case Diagnostic => diagnostic
      case Control => control
      case Quote => quotes
      case Tick => ticks
    }

    function WithLane(lane: Lane, queue: seq<Event>): Queues {
      match lane
      case Diagnostic => this.(diagnostic := queue)
      case Control => this.(control := queue)
      case Quote => this.(quotes := queue)
      case Tick => this.(ticks := queue)
    }

    predicate CriticalWaiting() {
      diagnostic != [] || control != []
    }

    predicate MarketWaiting() {
      quotes != [] || ticks != []
    }
  }

  function Idle(): Queues {
    Queues([], [], [], [], [], Quote, Diagnostic, 0)
  }

  // ---- Publishing ----------------------------------------------------------------------

  /** The place of a key in the quote lane; the length when it is absent. */
  function Place(quotes: seq<Event>, key: QuoteKey): (p: nat)
    requires forall e :: e in quotes ==> LaneOf(e).Quote?
    ensures p <= |quotes|
    ensures p < |quotes| ==> KeyOf(quotes[p]) == key
    ensures forall i :: 0 <= i < p ==> KeyOf(quotes[i]) != key
  {
    if quotes == [] then 0
    else
      assert quotes[0] in quotes;
      if KeyOf(quotes[0]) == key then 0
      else
        var p := 1 + Place(quotes[1..], key);
        assert forall i :: 1 <= i < p ==> quotes[i] == quotes[1..][i - 1];
        p
  }

  /** What happens to the lane itself: its new contents and the decision. */
  datatype Admission = Admission(queue: seq<Event>, decision: Decision)

  function AdmitFifo(queue: seq<Event>, capacity: nat, e: Event): Admission {
    if |queue| >= capacity then Admission(queue, Dropped) else Admission(queue + [e], Accepted)
  }

  function AdmitQuote(quotes: seq<Event>, capacity: nat, e: Event): Admission
    requires LaneOf(e).Quote? && forall q :: q in quotes ==> LaneOf(q).Quote?
  {
    var p := Place(quotes, KeyOf(e));
    if p < |quotes| then
      if e.sequence <= quotes[p].sequence then Admission(quotes, Duplicate)
      else Admission(quotes[p := e], Coalesced)
    else AdmitFifo(quotes, capacity, e)
  }

  predicate CacheHit(s: Queues, e: Event) {
    DedupeKeyOf(e).Some? && DedupeKeyOf(e).value in s.recent
  }

  function Admit(l: Limits, s: Queues, e: Event): Admission
    requires s.Valid(l)
  {
    var lane := LaneOf(e);
    if CacheHit(s, e) then Admission(s.Lane(lane), Duplicate)
    else if lane.Quote? then AdmitQuote(s.quotes, l.quote, e)
    else AdmitFifo(s.Lane(lane), l.Capacity(lane), e)
  }

  predicate Admitted(decision: Decision) {
    decision.Accepted? || decision.Coalesced?
  }

  /** The dedupe cache after a publish: a hit or an admission touches the key. */
  function RecentAfter(l: Limits, s: Queues, e: Event, decision: Decision): seq<DedupeKey> {
    if DedupeKeyOf(e).None? then s.recent
    else if CacheHit(s, e) then Touch(s.recent, DedupeKeyOf(e).value)
    else if Admitted(decision) then Remember(s.recent, DedupeKeyOf(e).value, l.dedupe)
    else s.recent
  }

  function Publish(l: Limits, s: Queues, e: Event): Queues
    requires s.Valid(l)
  {
    var admission := Admit(l, s, e);
    s.WithLane(LaneOf(e), admission.queue).(recent := RecentAfter(l, s, e, admission.decision))
  }

  // ---- Popping ---------------------------------------------------------------------------

  /** The lane the next pop takes from, when anything waits. */
  function NextLane(l: Limits, s: Queues): Option<Lane> {
    if s.CriticalWaiting() && (!s.MarketWaiting() || s.burst < l.burst) then
      Some(if s.diagnostic != [] && s.control != [] then s.criticalTurn
           else if s.diagnostic != [] then Diagnostic else Control)
    else if s.MarketWaiting() then
      Some(if s.quotes != [] && s.ticks != [] then s.marketTurn
           else if s.quotes != [] then Quote else Tick)
    else None
  }

  function OtherLane(lane: Lane): Lane {
    match lane
    case Diagnostic => Control
    case Control => Diagnostic
    case Quote => Tick
    case Tick => Quote
  }

  predicate Critical(lane: Lane) {
    lane.Diagnostic? || lane.Control?
  }

  /** The turns and the burst counter once a lane has been served. */
  function Served(l: Limits, s: Queues, lane: Lane): Queues {
    if Critical(lane) then
      s.(criticalTurn := if s.diagnostic != [] && s.control != [] then OtherLane(lane) else s.criticalTurn,
         burst := if s.burst + 1 < l.burst then s.burst + 1 else l.burst)
    else
      s.(marketTurn := if s.quotes != [] && s.ticks != [] then OtherLane(lane) else s.marketTurn, burst := 0)
  }

  lemma NextLaneWaits(l: Limits, s: Queues)
    requires s.Valid(l) && NextLane(l, s).Some?
    ensures s.Lane(NextLane(l, s).value) != []
    ensures LaneOf(s.Lane(NextLane(l, s).value)[0]) == NextLane(l, s).value
  {
    var lane := NextLane(l, s).value;
    assert s.Lane(lane)[0] in s.Lane(lane);
  }

  function Pop(l: Limits, s: Queues): (Queues, Option<Event>)
    requires s.Valid(l)
  {
    match NextLane(l, s)
    case None => (s, None)
    case Some(lane) =>
      NextLaneWaits(l, s);
      (Served(l, s, lane).WithLane(lane, s.Lane(lane)[1..]), Some(s.Lane(lane)[0]))
  }

  // ---- Both steps keep the queues within bounds -------------------------------------------

  lemma PublishKeepsValid(l: Limits, s: Queues, e: Event)
    requires s.Valid(l)
    ensures Publish(l, s, e).Valid(l)
  {
    if LaneOf(e).Quote? && !CacheHit(s, e) {
      AdmitQuoteKeepsDistinct(s.quotes, l.quote, e);
    }
  }

  lemma AdmitQuoteKeepsDistinct(quotes: seq<Event>, capacity: nat, e: Event)
    requires LaneOf(e).Quote? && forall q :: q in quotes ==> LaneOf(q).Quote?
    requires forall i, j :: 0 <= i < j < |quotes| ==> KeyOf(quotes[i]) != KeyOf(quotes[j])
    requires |quotes| <= capacity
    ensures var queue := AdmitQuote(quotes, capacity, e).queue;
            && (forall q :: q in queue ==> LaneOf(q).Quote?) && |queue| <= capacity
            && (forall i, j :: 0 <= i < j < |queue| ==> KeyOf(queue[i]) != KeyOf(queue[j]))
  {
    var queue := AdmitQuote(quotes, capacity, e).queue;
    forall q | q in queue ensures LaneOf(q).Quote? {
      assert q in quotes || q == e;
    }
    forall i, j | 0 <= i < j < |queue| ensures KeyOf(queue[i]) != KeyOf(queue[j]) {
      assert i < |quotes|;
    }
  }

  lemma PopKeepsValid(l: Limits, s: Queues)
    requires s.Valid(l)
    ensures Pop(l, s).0.Valid(l)
  {
    match NextLane(l, s)
    case None =>
    case Some(lane) =>
      NextLaneWaits(l, s);
      assert forall e :: e in s.Lane(lane)[1..] ==> e in s.Lane(lane);
  }
}
