/**
 * `assess_reconciliation` of tx_trade/orders/live_reconciliation.py: what each
 * phase reports, as sets, and the loops that gather them.
 */
module Reconciliation {
  import opened Wrappers
  import opened LiveContracts
  import opened Sums
  import opened ReconciliationContracts
  import opened Dedupe
  import opened ReconciliationMeaning
  import ExactSum

  // ---- Deduplicated evidence ------------------------------------------------------

  /** One kind of broker evidence after deduplication. */
  datatype Evidenced<T> = Evidenced(unique: seq<T>, conflicts: set<Identity>)

  function OpenEvidence(broker: BrokerSnapshot): Evidenced<OpenObs> {
    Evidenced(FirstSeen(broker.open, OpenPayload), Conflicts(broker.open, OpenIdentities, OpenPayload))
  }

  function FillEvidence(broker: BrokerSnapshot): Evidenced<FillObs> {
    Evidenced(FirstSeen(broker.fills, FillPayload), Conflicts(broker.fills, FillIdentities, FillPayload))
  }

  function PositionEvidence(broker: BrokerSnapshot): Evidenced<Position> {
    Evidenced(FirstSeen(broker.positions, PositionPayload), Conflicts(broker.positions, PositionIdentities, PositionPayload))
  }

  predicate Touches(identities: seq<Identity>, conflicts: set<Identity>) {
    exists i :: i in identities && i in conflicts
  }

  predicate OpenUsable(b: OpenObs, conflicts: set<Identity>) {
    b.correlation.status.Confirmed? && b.correlation.clientOrderId.Some? && !Touches(OpenIdentities(b), conflicts)
  }

  predicate FillUsable(f: FillObs, conflicts: set<Identity>) {
    f.correlation.status.Confirmed? && !Touches(FillIdentities(f), conflicts)
  }

  predicate OpenAmbiguous(open: Evidenced<OpenObs>) {
    open.conflicts != {} || exists b :: b in open.unique && !b.correlation.status.Confirmed?
  }

  // ---- Orders ---------------------------------------------------------------------

  predicate Working(o: LiveOrder) {
    o.state in {Accepted, PartiallyFilled, CancelPending}
  }

  function FindOrder(orders: seq<LiveOrder>, id: Id): Option<LiveOrder> {
    if orders == [] then None
    else if orders[0].intent.clientOrderId == id then Some(orders[0])
    else FindOrder(orders[1..], id)
  }

  function Issue(kind: Kind, instrumentId: Id, clientOrderId: Option<Id>): Discrepancy {
    Discrepancy(kind, instrumentId, clientOrderId, None)
  }

  function PendingIssues(orders: seq<LiveOrder>): set<Discrepancy> {
    set o | o in orders && o.pending.Some? :: Issue(CorrelationMissing, o.intent.instrumentId, Some(o.intent.clientOrderId))
  }

  predicate StateAgrees(o: LiveOrder, b: OpenObs) {
    && o.intent.instrumentId == b.instrumentId
    && o.intent.side == b.side
    && (Working(o) || o.pending.Some?)
    && o.limitPrice == b.limitPrice
  }

  predicate QuantityAgrees(o: LiveOrder, b: OpenObs) {
    Working(o) ==> o.total == b.total && o.remaining == b.remaining
  }

  /** What one deduplicated open-order observation reports. */
  function OpenIssues(local: LocalSnapshot, b: OpenObs, conflicts: set<Identity>): set<Discrepancy> {
    if !OpenUsable(b, conflicts) then {Issue(CorrelationMissing, b.instrumentId, None)}
    else
      var id := b.correlation.clientOrderId;
      match FindOrder(local.orders, id.value)
      case None => {Issue(MissingLocalOrder, b.instrumentId, id)}
      case Some(o) =>
        (if StateAgrees(o, b) then {} else {Issue(OrderStateMismatch, b.instrumentId, id)}) +
        (if QuantityAgrees(o, b) then {}
         else {Discrepancy(QuantityMismatch, b.instrumentId, id,
                           Some(if o.total != b.total then (o.total, b.total) else (o.remaining, b.remaining)))})
  }

  function OpenIssuesOf(local: LocalSnapshot, some: seq<OpenObs>, conflicts: set<Identity>): set<Discrepancy> {
    set b, d | b in some && d in OpenIssues(local, b, conflicts) :: d
  }

  predicate MatchedBy(o: LiveOrder, local: LocalSnapshot, b: OpenObs, conflicts: set<Identity>) {
    && OpenUsable(b, conflicts)
    && b.correlation.clientOrderId == Some(o.intent.clientOrderId)
    && FindOrder(local.orders, o.intent.clientOrderId).Some?
  }

  predicate Matched(o: LiveOrder, local: LocalSnapshot, open: Evidenced<OpenObs>) {
    exists b :: b in open.unique && MatchedBy(o, local, b, open.conflicts)
  }

  function MissingIssues(orders: seq<LiveOrder>, local: LocalSnapshot, open: Evidenced<OpenObs>, complete: bool): set<Discrepancy> {
    set o | o in orders && !Matched(o, local, open) && o.pending.None? && complete && !OpenAmbiguous(open) && Working(o)
      :: Issue(MissingBrokerOrder, o.intent.instrumentId, Some(o.intent.clientOrderId))
  }

  function OrderIssues(local: LocalSnapshot, broker: BrokerSnapshot): set<Discrepancy> {
    var open := OpenEvidence(broker);
    PendingIssues(local.orders)
    + OpenIssuesOf(local, open.unique, open.conflicts)
    + MissingIssues(local.orders, local, open, broker.openEvidence.status.Complete?)
  }

  // ---- Fills ------------------------------------------------------------------------

  function FindFill(fills: seq<LiveFill>, id: Id): Option<LiveFill> {
    if fills == [] then None
    else if fills[0].fillId == id then Some(fills[0])
    else FindFill(fills[1..], id)
  }

  /** The local fills a broker fill names through its fill id and its execution number. */
  datatype Candidates = NoFill | OneFill(fill: LiveFill) | TwoFills

  function Resolve(fills: seq<LiveFill>, f: FillObs): Candidates {
    var a := if f.correlation.brokerFillId.Some? then FindFill(fills, f.correlation.brokerFillId.value) else None;
    var b := if f.correlation.executionNo.Some? then FindFill(fills, f.correlation.executionNo.value) else None;
    match (a, b)
    case (None, None) => NoFill
    case (Some(x), None) => OneFill(x)
    case (None, Some(y)) => OneFill(y)
    case (Some(x), Some(y)) => if x == y then OneFill(x) else TwoFills
  }

  /** Two different deduplicated broker fills claim the local fill of this id. */
  predicate Collided(local: LocalSnapshot, fills: Evidenced<FillObs>, fillId: Id) {
    exists f, g :: f in fills.unique && g in fills.unique && f != g && Claims(local, fills, f, fillId) && Claims(local, fills, g, fillId)
  }

  predicate Claims(local: LocalSnapshot, fills: Evidenced<FillObs>, f: FillObs, fillId: Id) {
    && FillUsable(f, fills.conflicts)
    && Resolve(local.fills, f).OneFill?
    && Resolve(local.fills, f).fill.fillId == fillId
  }

  predicate FillAgrees(l: LiveFill, f: FillObs) {
    && l.accountId == f.accountId && l.instrumentId == f.instrumentId && l.side == f.side
    && l.quantity == f.quantity && l.price == f.price
    && Some(l.clientOrderId) == f.correlation.clientOrderId
    && (f.occurredAt.Some? ==> Some(l.occurredAt) == f.occurredAt)
  }

  /** What one deduplicated broker fill reports. */
  function FillIssues(local: LocalSnapshot, f: FillObs, fills: Evidenced<FillObs>): set<Discrepancy> {
    if !FillUsable(f, fills.conflicts) then {Issue(CorrelationMissing, f.instrumentId, None)}
    else match Resolve(local.fills, f)
      case OneFill(l) =>
        if Collided(local, fills, l.fillId) then {Issue(FillMismatch, f.instrumentId, f.correlation.clientOrderId)}
        else if FillAgrees(l, f) then {}
        else {Issue(FillMismatch, f.instrumentId, Some(l.clientOrderId))}
      case _ => {Issue(FillMismatch, f.instrumentId, f.correlation.clientOrderId)}
  }

  function FillIssuesOf(local: LocalSnapshot, some: seq<FillObs>, fills: Evidenced<FillObs>): set<Discrepancy> {
    set f, d | f in some && d in FillIssues(local, f, fills) :: d
  }

  predicate SomeCollision(local: LocalSnapshot, fills: Evidenced<FillObs>) {
    exists l :: l in local.fills && Collided(local, fills, l.fillId)
  }

  predicate SomeTwoFills(local: LocalSnapshot, fills: Evidenced<FillObs>) {
    exists f :: f in fills.unique && FillUsable(f, fills.conflicts) && Resolve(local.fills, f).TwoFills?
  }

  predicate FillsAmbiguous(local: LocalSnapshot, fills: Evidenced<FillObs>) {
    || fills.conflicts != {}
    || (exists f :: f in fills.unique && !f.correlation.status.Confirmed?)
    || SomeTwoFills(local, fills)
    || SomeCollision(local, fills)
  }

  predicate Settled(l: LiveFill, local: LocalSnapshot, fills: Evidenced<FillObs>) {
    !Collided(local, fills, l.fillId) && exists f :: f in fills.unique && Claims(local, fills, f, l.fillId)
  }

  function UnmatchedIssues(some: seq<LiveFill>, local: LocalSnapshot, fills: Evidenced<FillObs>, complete: bool): set<Discrepancy> {
    set l | l in some && complete && !FillsAmbiguous(local, fills) && !Settled(l, local, fills)
      :: Issue(FillMismatch, l.instrumentId, Some(l.clientOrderId))
  }

  function AllFillIssues(local: LocalSnapshot, broker: BrokerSnapshot): set<Discrepancy> {
    var fills := FillEvidence(broker);
    FillIssuesOf(local, fills.unique, fills)
    + UnmatchedIssues(local.fills, local, fills, broker.fillEvidence.status.Complete?)
  }

  // ---- Positions ----------------------------------------------------------------------

  function AttributedQuantity(a: Attribution): real {
    a.quantity
  }

  function AttributionsOn(attributions: seq<Attribution>, instrumentId: Id): seq<Attribution> {
    Filter(attributions, (a: Attribution) => a.instrumentId == instrumentId)
  }

  /** The net position the local attributions add up to on an instrument. */
  function ExpectedPosition(attributions: seq<Attribution>, instrumentId: Id): real {
    Sum(AttributedQuantity, AttributionsOn(attributions, instrumentId))
  }

  /** The broker's own net position where its evidence does not contradict itself. */
  function BrokerPositions(unique: seq<Position>, conflicts: set<Identity>): map<Id, real> {
    if unique == [] then map[]
    else
      var n := |unique| - 1;
      var earlier := BrokerPositions(unique[..n], conflicts);
      if InstrumentKey(unique[n].instrumentId) in conflicts then earlier
      else earlier[unique[n].instrumentId := unique[n].net]
  }

  function Instruments(local: LocalSnapshot, positions: Evidenced<Position>): set<Id> {
    (set a | a in local.attributions :: a.instrumentId) + BrokerPositions(positions.unique, positions.conflicts).Keys
  }

  function PositionIssues(some: set<Id>, local: LocalSnapshot, positions: Evidenced<Position>, complete: bool): set<Discrepancy> {
    var net := BrokerPositions(positions.unique, positions.conflicts);
    set i | i in some && InstrumentKey(i) !in positions.conflicts && (i in net || complete)
            && ExpectedPosition(local.attributions, i) != (if i in net then net[i] else 0.0)
      :: Discrepancy(PositionMismatch, i, None, Some((ExpectedPosition(local.attributions, i), if i in net then net[i] else 0.0)))
  }

  function AllPositionIssues(local: LocalSnapshot, broker: BrokerSnapshot): set<Discrepancy> {
    var positions := PositionEvidence(broker);
    PositionIssues(Instruments(local, positions), local, positions, broker.positionEvidence.status.Complete?)
  }

  // ---- The assessment --------------------------------------------------------------------

  function Discrepancies(local: LocalSnapshot, broker: BrokerSnapshot): set<Discrepancy> {
    OrderIssues(local, broker) + AllFillIssues(local, broker) + AllPositionIssues(local, broker)
  }

  predicate IsAmbiguous(local: LocalSnapshot, broker: BrokerSnapshot) {
    || OpenAmbiguous(OpenEvidence(broker))
    || FillsAmbiguous(local, FillEvidence(broker))
    || PositionEvidence(broker).conflicts != {}
  }

  function StatusOf(local: LocalSnapshot, broker: BrokerSnapshot): Status {
    if IsAmbiguous(local, broker) then AmbiguousStatus
    else if !broker.AllComplete() then IncompleteStatus
    else CompleteStatus
  }

  /** The sort key of the source is a strict total order on discrepancies. */
  type Ordering = (Discrepancy, Discrepancy) -> bool

  ghost predicate TotalOrder(less: Ordering) {
    && (forall a, b :: a != b ==> (less(a, b) <==> !less(b, a)))
    && (forall a :: !less(a, a))
    && (forall a, b, c :: less(a, b) && less(b, c) ==> less(a, c))
  }

  ghost predicate Ascending(s: seq<Discrepancy>, less: Ordering) {
    forall i, j :: 0 <= i < j < |s| ==> less(s[i], s[j])
  }

  /** The list is the set in key order; there is exactly one such list. */
  ghost predicate Lists(s: seq<Discrepancy>, d: set<Discrepancy>, less: Ordering) {
    Ascending(s, less) && forall x :: x in s <==> x in d
  }

  /** What the constructor of an assessment asks of accounts and times. */
  predicate Timely(local: LocalSnapshot, broker: BrokerSnapshot, at: Time) {
    && local.accountId == broker.accountId
    && local.asOf <= at && broker.capturedAt <= at
    && local.asOf <= broker.openEvidence.observedAt
    && local.asOf <= broker.fillEvidence.observedAt
    && local.asOf <= broker.positionEvidence.observedAt
  }

  /** `exact_decimal_sum` answers for the attributions on every instrument. */
  ghost predicate Summable(attributions: seq<Attribution>) {
    forall a :: a in attributions ==> ExactSum.Representable(ExpectedPosition(attributions, a.instrumentId))
  }

  /** The inputs on which the source answers instead of raising. */
  ghost predicate Assessable(local: LocalSnapshot, broker: BrokerSnapshot, at: Time) {
    Timely(local, broker, at) && Summable(local.attributions)
  }

  /** Whether `exact_decimal_sum` can represent an exact sum; ExactSum decides it digit by digit. */
  type SumCheck = real -> bool

  ghost predicate ChecksSums(fits: SumCheck) {
    forall x :: fits(x) <==> ExactSum.Representable(x)
  }

  // ---- What the status and the discrepancies mean ---------------------------------------

  lemma OpenUsableExactly(broker: BrokerSnapshot, b: OpenObs)
    requires broker.Valid() && b in broker.open
    ensures OpenUsable(b, OpenEvidence(broker).conflicts) <==> OpenTrusted(broker, b)
  {
    OpenTouchedExactly(broker, b);
  }

  lemma FillUsableExactly(broker: BrokerSnapshot, f: FillObs)
    requires f in broker.fills
    ensures FillUsable(f, FillEvidence(broker).conflicts) <==> FillTrusted(broker, f)
  {
    FillTouchedExactly(broker, f);
  }

  lemma FillIsFound(local: LocalSnapshot, l: LiveFill)
    requires local.UniqueFillIds() && l in local.fills
    ensures FindFill(local.fills, l.fillId) == Some(l)
  {
    FoundFill(local.fills, l.fillId);
    var found := FindFill(local.fills, l.fillId).value;
    var i :| 0 <= i < |local.fills| && local.fills[i] == l;
    var j :| 0 <= j < |local.fills| && local.fills[j] == found;
  }

  /** A broker fill resolves to the local fills it names. */
  lemma ResolvesToNamed(local: LocalSnapshot, f: FillObs)
    requires local.UniqueFillIds()
    ensures Resolve(local.fills, f).NoFill? <==> forall l :: l in local.fills ==> !Names(f, l)
    ensures forall l :: Resolve(local.fills, f) == OneFill(l) <==> NamesOnly(local, f, l)
    ensures Resolve(local.fills, f).TwoFills? <==> NamesTwo(local, f)
  {
    if f.correlation.brokerFillId.Some? { FoundFill(local.fills, f.correlation.brokerFillId.value); }
    if f.correlation.executionNo.Some? { FoundFill(local.fills, f.correlation.executionNo.value); }
    forall l | l in local.fills ensures FindFill(local.fills, l.fillId) == Some(l) {
      FillIsFound(local, l);
    }
  }

  /** What is kept is among the observations, and each observation is kept in another that says the same. */
  lemma KeptOrder(broker: BrokerSnapshot, b: OpenObs) returns (u: OpenObs)
    requires b in broker.open
    ensures u in OpenEvidence(broker).unique && u in broker.open && SameOpenFacts(u, b)
  {
    FirstSeenCovers(broker.open, OpenPayload);
    u :| u in FirstSeen(broker.open, OpenPayload) && OpenPayload(u) == OpenPayload(b);
    OpenPayloadIsFacts(u, b);
  }

  lemma KeptFill(broker: BrokerSnapshot, f: FillObs) returns (u: FillObs)
    requires f in broker.fills
    ensures u in FillEvidence(broker).unique && u in broker.fills && SameFillFacts(u, f)
  {
    FirstSeenCovers(broker.fills, FillPayload);
    u :| u in FirstSeen(broker.fills, FillPayload) && FillPayload(u) == FillPayload(f);
    FillPayloadIsFacts(u, f);
  }

  lemma KeptFillsDiffer(broker: BrokerSnapshot, f: FillObs, g: FillObs)
    requires f in FillEvidence(broker).unique && g in FillEvidence(broker).unique
    ensures f == g <==> SameFillFacts(f, g)
  {
    var unique := FirstSeen(broker.fills, FillPayload);
    FirstSeenDistinct(broker.fills, FillPayload);
    FillPayloadIsFacts(f, g);
    var i :| 0 <= i < |unique| && unique[i] == f;
    var j :| 0 <= j < |unique| && unique[j] == g;
  }

  lemma ClaimsExactly(local: LocalSnapshot, broker: BrokerSnapshot, f: FillObs, l: LiveFill)
    requires local.UniqueFillIds() && f in broker.fills && l in local.fills
    ensures Claims(local, FillEvidence(broker), f, l.fillId) <==> FillTrusted(broker, f) && NamesOnly(local, f, l)
  {
    FillUsableExactly(broker, f);
    ResolvesToNamed(local, f);
    ResolvedIsLocal(local.fills, f);
    if Resolve(local.fills, f).OneFill? && Resolve(local.fills, f).fill.fillId == l.fillId {
      FillIsFound(local, l);
      FillIsFound(local, Resolve(local.fills, f).fill);
    }
  }

  lemma RivalsCollide(local: LocalSnapshot, broker: BrokerSnapshot, f: FillObs, g: FillObs, l: LiveFill)
    requires local.UniqueFillIds() && f in FillEvidence(broker).unique && g in FillEvidence(broker).unique
    requires f in broker.fills && g in broker.fills && l in local.fills
    ensures f != g && Claims(local, FillEvidence(broker), f, l.fillId) && Claims(local, FillEvidence(broker), g, l.fillId)
            <==> Rivals(local, broker, f, g, l)
  {
    ClaimsExactly(local, broker, f, l);
    ClaimsExactly(local, broker, g, l);
    KeptFillsDiffer(broker, f, g);
  }

  lemma CollidedIsContested(local: LocalSnapshot, broker: BrokerSnapshot, l: LiveFill)
    requires local.UniqueFillIds() && l in local.fills && Collided(local, FillEvidence(broker), l.fillId)
    ensures Contested(local, broker, l)
  {
    var fills := FillEvidence(broker);
    var f, g :| f in fills.unique && g in fills.unique && f != g && Claims(local, fills, f, l.fillId) && Claims(local, fills, g, l.fillId);
    FirstSeenCovers(broker.fills, FillPayload);
    RivalsCollide(local, broker, f, g, l);
    KeptIsLookedAt(broker, f);
    KeptIsLookedAt(broker, g);
  }

  lemma KeptIsLookedAt(broker: BrokerSnapshot, f: FillObs)
    ensures f in FillEvidence(broker).unique <==> FillLookedAt(broker, f)
  {
    LookedAtExactly(broker);
  }

  lemma ContestedIsCollided(local: LocalSnapshot, broker: BrokerSnapshot, l: LiveFill)
    requires local.UniqueFillIds() && l in local.fills && Contested(local, broker, l)
    ensures Collided(local, FillEvidence(broker), l.fillId)
  {
    var f, g :| FillLookedAt(broker, f) && FillLookedAt(broker, g) && Rivals(local, broker, f, g, l);
    KeptIsLookedAt(broker, f);
    KeptIsLookedAt(broker, g);
    RivalsCollide(local, broker, f, g, l);
  }

  lemma CollidedExactly(local: LocalSnapshot, broker: BrokerSnapshot, l: LiveFill)
    requires local.UniqueFillIds() && l in local.fills
    ensures Collided(local, FillEvidence(broker), l.fillId) <==> Contested(local, broker, l)
  {
    if Collided(local, FillEvidence(broker), l.fillId) { CollidedIsContested(local, broker, l); }
    if Contested(local, broker, l) { ContestedIsCollided(local, broker, l); }
  }

  lemma OrdersUnclearExactly(broker: BrokerSnapshot)
    ensures OpenAmbiguous(OpenEvidence(broker)) <==> OrdersUnclear(broker)
  {
    OpenConflictsExactly(broker);
    UnconfirmedOrdersExactly(broker);
  }

  lemma UnconfirmedOrdersExactly(broker: BrokerSnapshot)
    ensures (exists b :: b in OpenEvidence(broker).unique && !b.correlation.status.Confirmed?)
            <==> exists b :: b in broker.open && b.correlation.status != Confirmed
  {
    FirstSeenCovers(broker.open, OpenPayload);
    if b :| b in broker.open && b.correlation.status != Confirmed {
      var u := KeptOrder(broker, b);
    }
  }

  /** Without contradiction a fill is trusted exactly when it is confirmed. */
  lemma FillsUnclearExactly(local: LocalSnapshot, broker: BrokerSnapshot)
    requires local.UniqueFillIds()
    ensures FillsAmbiguous(local, FillEvidence(broker)) <==> FillsUnclear(local, broker)
  {
    FillConflictsExactly(broker);
    if forall f :: f in broker.fills ==> !FillContradicted(broker, f) {
      UnconfirmedFillsExactly(broker);
      TwoFillsExactly(local, broker);
      CollisionsExactly(local, broker);
    }
  }

  lemma UnconfirmedFillsExactly(broker: BrokerSnapshot)
    ensures (exists f :: f in FillEvidence(broker).unique && !f.correlation.status.Confirmed?)
            <==> exists f :: f in broker.fills && f.correlation.status != Confirmed
  {
    FirstSeenCovers(broker.fills, FillPayload);
    if f :| f in broker.fills && f.correlation.status != Confirmed {
      var u := KeptFill(broker, f);
    }
  }

  lemma SameFillSameNames(local: LocalSnapshot, f: FillObs, u: FillObs)
    requires SameFillFacts(u, f)
    ensures NamesTwo(local, u) <==> NamesTwo(local, f)
    ensures forall l :: NamesOnly(local, u, l) <==> NamesOnly(local, f, l)
    ensures u.correlation.status == f.correlation.status
  {
    assert u.correlation.brokerFillId == f.correlation.brokerFillId && u.correlation.executionNo == f.correlation.executionNo;
    assert forall l :: Names(u, l) <==> Names(f, l);
  }

  lemma NamesTwoExactly(local: LocalSnapshot, broker: BrokerSnapshot, f: FillObs)
    requires local.UniqueFillIds() && f in broker.fills
    ensures FillUsable(f, FillEvidence(broker).conflicts) && Resolve(local.fills, f).TwoFills?
            <==> FillTrusted(broker, f) && NamesTwo(local, f)
  {
    FillUsableExactly(broker, f);
    ResolvesToNamed(local, f);
  }

  lemma TwoFillsExactly(local: LocalSnapshot, broker: BrokerSnapshot)
    requires local.UniqueFillIds() && forall f :: f in broker.fills ==> !FillContradicted(broker, f)
    ensures SomeTwoFills(local, FillEvidence(broker)) <==> exists f :: f in broker.fills && FillTrusted(broker, f) && NamesTwo(local, f)
  {
    var fills := FillEvidence(broker);
    FirstSeenCovers(broker.fills, FillPayload);
    if f :| f in fills.unique && FillUsable(f, fills.conflicts) && Resolve(local.fills, f).TwoFills? {
      NamesTwoExactly(local, broker, f);
    }
    if f :| f in broker.fills && FillTrusted(broker, f) && NamesTwo(local, f) {
      TwoFillsAreKept(local, broker, f);
    }
  }

  lemma TwoFillsAreKept(local: LocalSnapshot, broker: BrokerSnapshot, f: FillObs)
    requires local.UniqueFillIds() && forall g :: g in broker.fills ==> !FillContradicted(broker, g)
    requires f in broker.fills && FillTrusted(broker, f) && NamesTwo(local, f)
    ensures SomeTwoFills(local, FillEvidence(broker))
  {
    var u := KeptFill(broker, f);
    SameFillSameNames(local, f, u);
    NamesTwoExactly(local, broker, u);
  }

  lemma CollisionsExactly(local: LocalSnapshot, broker: BrokerSnapshot)
    requires local.UniqueFillIds() && forall f :: f in broker.fills ==> !FillContradicted(broker, f)
    ensures SomeCollision(local, FillEvidence(broker))
            <==> exists f, g, l :: f in broker.fills && g in broker.fills && Rivals(local, broker, f, g, l)
  {
    if l :| l in local.fills && Collided(local, FillEvidence(broker), l.fillId) {
      CollidedIsContested(local, broker, l);
      ContestedHasRivals(local, broker, l);
    }
    if f, g, l :| f in broker.fills && g in broker.fills && Rivals(local, broker, f, g, l) {
      RivalsAreKept(local, broker, f, g, l);
      ContestedIsCollided(local, broker, l);
    }
  }

  lemma ContestedHasRivals(local: LocalSnapshot, broker: BrokerSnapshot, l: LiveFill)
    requires Contested(local, broker, l)
    ensures exists f, g :: f in broker.fills && g in broker.fills && Rivals(local, broker, f, g, l)
  {
    var f, g :| FillLookedAt(broker, f) && FillLookedAt(broker, g) && Rivals(local, broker, f, g, l);
    assert f in broker.fills && g in broker.fills;
  }

  lemma RivalsAreKept(local: LocalSnapshot, broker: BrokerSnapshot, f: FillObs, g: FillObs, l: LiveFill)
    requires f in broker.fills && g in broker.fills && Rivals(local, broker, f, g, l)
    requires forall x :: x in broker.fills ==> !FillContradicted(broker, x)
    ensures Contested(local, broker, l)
  {
    var u := KeptFill(broker, f);
    var v := KeptFill(broker, g);
    RivalsKept(local, broker, f, g, l, u, v);
    KeptIsLookedAt(broker, u);
    KeptIsLookedAt(broker, v);
  }

  lemma RivalsKept(local: LocalSnapshot, broker: BrokerSnapshot, f: FillObs, g: FillObs, l: LiveFill, u: FillObs, v: FillObs)
    requires Rivals(local, broker, f, g, l) && SameFillFacts(u, f) && SameFillFacts(v, g)
    requires !FillContradicted(broker, u) && !FillContradicted(broker, v)
    ensures Rivals(local, broker, u, v, l)
  {
    SameFillSameNames(local, f, u);
    SameFillSameNames(local, g, v);
  }

  /** The evidence is ambiguous exactly when it is unclear what it says. */
  lemma StatusMeans(local: LocalSnapshot, broker: BrokerSnapshot)
    requires local.Valid() && broker.Valid()
    ensures StatusOf(local, broker) == AmbiguousStatus <==> Unclear(local, broker)
    ensures StatusOf(local, broker) == IncompleteStatus <==> !Unclear(local, broker) && SomethingMissing(broker)
  {
    OrdersUnclearExactly(broker);
    FillsUnclearExactly(local, broker);
    SomePositionConflict(broker);
  }

  // What one observation that is looked at says, by kind of discrepancy.

  ghost predicate OrderSays(local: LocalSnapshot, broker: BrokerSnapshot, b: OpenObs, d: Discrepancy) {
    if !OpenTrusted(broker, b) then d == Issue(CorrelationMissing, b.instrumentId, None)
    else
      && b.instrumentId == d.instrumentId && b.correlation.clientOrderId == d.clientOrderId
      && match d.kind
         case MissingLocalOrder => d.quantities.None? && forall o :: o in local.orders ==> !Concerns(o, b)
         case OrderStateMismatch => d.quantities.None? && exists o :: o in local.orders && Concerns(o, b) && OtherOrder(o, b)
         case QuantityMismatch => exists o :: o in local.orders && Concerns(o, b) && AtWork(o) && OtherQuantity(o, b, d.quantities)
         case _ => false
  }

  ghost predicate FillSays(local: LocalSnapshot, broker: BrokerSnapshot, f: FillObs, d: Discrepancy) {
    if !FillTrusted(broker, f) then d == Issue(CorrelationMissing, f.instrumentId, None)
    else d.kind.FillMismatch? && d.quantities.None? && d.instrumentId == f.instrumentId && FillDisagrees(local, broker, f, d)
  }

  lemma FoundOrder(orders: seq<LiveOrder>, id: Id)
    ensures match FindOrder(orders, id)
            case Some(o) => o in orders && o.intent.clientOrderId == id
            case None => forall o :: o in orders ==> o.intent.clientOrderId != id
  {
    if orders != [] && orders[0].intent.clientOrderId != id {
      FoundOrder(orders[1..], id);
    }
  }

  lemma OrderIsFound(local: LocalSnapshot, o: LiveOrder)
    requires local.UniqueOrderIds() && o in local.orders
    ensures FindOrder(local.orders, o.intent.clientOrderId) == Some(o)
  {
    FoundOrder(local.orders, o.intent.clientOrderId);
    var found := FindOrder(local.orders, o.intent.clientOrderId).value;
    var i :| 0 <= i < |local.orders| && local.orders[i] == o;
    var j :| 0 <= j < |local.orders| && local.orders[j] == found;
  }

  lemma FoundConcerns(local: LocalSnapshot, b: OpenObs)
    requires local.UniqueOrderIds() && b.correlation.clientOrderId.Some?
    ensures match FindOrder(local.orders, b.correlation.clientOrderId.value)
            case None => forall o :: o in local.orders ==> !Concerns(o, b)
            case Some(found) => forall o :: o in local.orders && Concerns(o, b) <==> o == found
  {
    var id := b.correlation.clientOrderId.value;
    FoundOrder(local.orders, id);
    forall o | o in local.orders && Concerns(o, b) ensures FindOrder(local.orders, id) == Some(o) {
      OrderIsFound(local, o);
    }
  }

  lemma OpenIssueMeans(local: LocalSnapshot, broker: BrokerSnapshot, b: OpenObs, d: Discrepancy)
    requires local.UniqueOrderIds() && broker.Valid() && b in broker.open
    ensures d in OpenIssues(local, b, OpenEvidence(broker).conflicts) <==> OrderSays(local, broker, b, d)
  {
    OpenUsableExactly(broker, b);
    if OpenTrusted(broker, b) {
      FoundConcerns(local, b);
      match FindOrder(local.orders, b.correlation.clientOrderId.value)
      case None =>
      case Some(o) => assert Concerns(o, b);
    }
  }

  lemma FillIssueMeans(local: LocalSnapshot, broker: BrokerSnapshot, f: FillObs, d: Discrepancy)
    requires local.UniqueFillIds() && f in broker.fills
    ensures d in FillIssues(local, f, FillEvidence(broker)) <==> FillSays(local, broker, f, d)
  {
    FillUsableExactly(broker, f);
    ResolvesToNamed(local, f);
    match Resolve(local.fills, f)
    case OneFill(l) =>
      assert NamesOnly(local, f, l);
      CollidedExactly(local, broker, l);
    case _ =>
  }

  /** The broker's net of an instrument, as far as its evidence does not contradict itself. */
  lemma ShownNets(unique: seq<Position>, conflicts: set<Identity>)
    ensures forall i :: i in BrokerPositions(unique, conflicts)
                        <==> InstrumentKey(i) !in conflicts && exists p :: p in unique && p.instrumentId == i
    ensures forall i :: i in BrokerPositions(unique, conflicts) ==>
              exists p :: p in unique && p.instrumentId == i && BrokerPositions(unique, conflicts)[i] == p.net
  {
    if unique != [] {
      var n := |unique| - 1;
      ShownNets(unique[..n], conflicts);
      var earlier, all := BrokerPositions(unique[..n], conflicts), BrokerPositions(unique, conflicts);
      assert unique[n] in unique;
      forall p ensures p in unique <==> p in unique[..n] || p == unique[n] {
        assert unique == unique[..n] + [unique[n]];
      }
    }
  }

  lemma {:induction false} HeldIsExpected(attributions: seq<Attribution>, i: Id)
    ensures Held(attributions, i) == ExpectedPosition(attributions, i)
  {
    if attributions != [] {
      HeldIsExpected(attributions[1..], i);
      var rest := AttributionsOn(attributions[1..], i);
      assert AttributionsOn(attributions, i) == if attributions[0].instrumentId == i then [attributions[0]] + rest else rest;
      SumConcat(AttributedQuantity, [attributions[0]], rest);
    }
  }

  lemma NothingHeld(attributions: seq<Attribution>, i: Id)
    ensures (forall a :: a in attributions ==> a.instrumentId != i) ==> Held(attributions, i) == 0.0
  {
    if attributions != [] {
      NothingHeld(attributions[1..], i);
    }
  }

  // Each phase, by kind of discrepancy.

  lemma PendingMeans(local: LocalSnapshot, d: Discrepancy)
    ensures d in PendingIssues(local.orders)
            <==> d.kind.CorrelationMissing? && d.quantities.None? && exists o :: o in local.orders && o.pending.Some? && Under(o, d)
  {
    if o :| o in local.orders && o.pending.Some? && Under(o, d) {
      assert Issue(CorrelationMissing, o.intent.instrumentId, Some(o.intent.clientOrderId)) in PendingIssues(local.orders);
    }
  }

  lemma OpenIssuesMean(local: LocalSnapshot, broker: BrokerSnapshot, d: Discrepancy)
    requires local.UniqueOrderIds() && broker.Valid()
    ensures d in OpenIssuesOf(local, OpenEvidence(broker).unique, OpenEvidence(broker).conflicts)
            <==> exists b :: OpenLookedAt(broker, b) && OrderSays(local, broker, b, d)
  {
    LookedAtExactly(broker);
    if b :| b in OpenEvidence(broker).unique && d in OpenIssues(local, b, OpenEvidence(broker).conflicts) {
      OpenIssueMeans(local, broker, b, d);
    }
    if b :| OpenLookedAt(broker, b) && OrderSays(local, broker, b, d) {
      OpenIssueMeans(local, broker, b, d);
    }
  }

  lemma FillIssuesMean(local: LocalSnapshot, broker: BrokerSnapshot, d: Discrepancy)
    requires local.UniqueFillIds()
    ensures d in FillIssuesOf(local, FillEvidence(broker).unique, FillEvidence(broker))
            <==> exists f :: FillLookedAt(broker, f) && FillSays(local, broker, f, d)
  {
    LookedAtExactly(broker);
    if f :| f in FillEvidence(broker).unique && d in FillIssues(local, f, FillEvidence(broker)) {
      FillIssueMeans(local, broker, f, d);
    }
    if f :| FillLookedAt(broker, f) && FillSays(local, broker, f, d) {
      FillIssueMeans(local, broker, f, d);
    }
  }

  /** In clear evidence a local order is matched exactly when some observation concerns it. */
  lemma MatchedMeans(local: LocalSnapshot, broker: BrokerSnapshot, o: LiveOrder)
    requires local.UniqueOrderIds() && broker.Valid() && !OrdersUnclear(broker) && o in local.orders
    ensures Matched(o, local, OpenEvidence(broker)) <==> exists b :: b in broker.open && Concerns(o, b)
  {
    OrderIsFound(local, o);
    FirstSeenCovers(broker.open, OpenPayload);
    if b :| b in broker.open && Concerns(o, b) {
      var u := KeptOrder(broker, b);
      OpenUsableExactly(broker, u);
      assert MatchedBy(o, local, u, OpenEvidence(broker).conflicts);
    }
  }

  lemma MissingMeans(local: LocalSnapshot, broker: BrokerSnapshot, d: Discrepancy)
    requires local.UniqueOrderIds() && broker.Valid()
    ensures d in MissingIssues(local.orders, local, OpenEvidence(broker), broker.openEvidence.status.Complete?)
            <==> d.kind.MissingBrokerOrder? && ReportsVanishedOrder(local, broker, d)
  {
    OrdersUnclearExactly(broker);
    if !OrdersUnclear(broker) {
      forall o | o in local.orders
        ensures Matched(o, local, OpenEvidence(broker)) <==> exists b :: b in broker.open && Concerns(o, b)
      {
        MatchedMeans(local, broker, o);
      }
    }
  }

  /** In clear evidence a local fill is settled exactly when some observation names it. */
  lemma SettledMeans(local: LocalSnapshot, broker: BrokerSnapshot, l: LiveFill)
    requires local.UniqueFillIds() && !FillsUnclear(local, broker) && l in local.fills
    ensures Settled(l, local, FillEvidence(broker)) <==> exists f :: f in broker.fills && Names(f, l)
  {
    FillsUnclearExactly(local, broker);
    FirstSeenCovers(broker.fills, FillPayload);
    if f :| f in FillEvidence(broker).unique && Claims(local, FillEvidence(broker), f, l.fillId) {
      ClaimsExactly(local, broker, f, l);
    }
    if f :| f in broker.fills && Names(f, l) {
      var u := KeptFill(broker, f);
      NamedIsClaimed(local, broker, u, l);
    }
  }

  lemma NamedIsClaimed(local: LocalSnapshot, broker: BrokerSnapshot, u: FillObs, l: LiveFill)
    requires local.UniqueFillIds() && !FillsUnclear(local, broker) && l in local.fills
    requires u in broker.fills && Names(u, l)
    ensures Claims(local, FillEvidence(broker), u, l.fillId)
  {
    assert FillTrusted(broker, u) && !NamesTwo(local, u);
    ClaimsExactly(local, broker, u, l);
  }

  lemma UnmatchedMeans(local: LocalSnapshot, broker: BrokerSnapshot, d: Discrepancy)
    requires local.UniqueFillIds()
    ensures d in UnmatchedIssues(local.fills, local, FillEvidence(broker), broker.fillEvidence.status.Complete?)
            <==> d.kind.FillMismatch? && d.quantities.None? && broker.fillEvidence.status == Complete && !FillsUnclear(local, broker)
                 && exists l :: FillVanished(local, broker, l, d)
  {
    FillsUnclearExactly(local, broker);
    if !FillsUnclear(local, broker) {
      forall l | l in local.fills
        ensures Settled(l, local, FillEvidence(broker)) <==> exists f :: f in broker.fills && Names(f, l)
      {
        SettledMeans(local, broker, l);
      }
      if l :| FillVanished(local, broker, l, d) {
        assert !Settled(l, local, FillEvidence(broker));
        assert Issue(FillMismatch, l.instrumentId, Some(l.clientOrderId)) == Issue(FillMismatch, d.instrumentId, d.clientOrderId);
      }
      if l :| l in local.fills && !Settled(l, local, FillEvidence(broker)) && d == Issue(FillMismatch, l.instrumentId, Some(l.clientOrderId)) {
        assert FillVanished(local, broker, l, d);
      }
    }
  }

  /** The broker's net that is compared is the one it shows. */
  lemma ShownMeans(broker: BrokerSnapshot, i: Id, net: real)
    ensures var nets := BrokerPositions(PositionEvidence(broker).unique, PositionEvidence(broker).conflicts);
            InstrumentKey(i) !in PositionEvidence(broker).conflicts && (i in nets || broker.positionEvidence.status.Complete?)
            && net == (if i in nets then nets[i] else 0.0)
            <==> Shows(broker, i, net)
  {
    var unique, conflicts := PositionEvidence(broker).unique, PositionEvidence(broker).conflicts;
    PositionConflictsExactly(broker, i);
    ShownNets(unique, conflicts);
    FirstSeenCovers(broker.positions, PositionPayload);
    forall p | p in broker.positions && p.instrumentId == i && !PositionContradicted(broker, i)
      ensures i in BrokerPositions(unique, conflicts) && BrokerPositions(unique, conflicts)[i] == p.net
    {
      var u :| u in unique && PositionPayload(u) == PositionPayload(p);
      var v :| v in unique && v.instrumentId == i && BrokerPositions(unique, conflicts)[i] == v.net;
      assert SamePositionFacts(v, p);
    }
  }

  lemma PositionsMean(local: LocalSnapshot, broker: BrokerSnapshot, d: Discrepancy)
    ensures d in AllPositionIssues(local, broker) <==> d.kind.PositionMismatch? && ReportsPosition(local, broker, d)
  {
    HeldIsExpected(local.attributions, d.instrumentId);
    NothingHeld(local.attributions, d.instrumentId);
    if d.quantities.Some? {
      ShownMeans(broker, d.instrumentId, d.quantities.value.1);
    }
  }

  lemma OrdersMean(local: LocalSnapshot, broker: BrokerSnapshot, d: Discrepancy)
    requires local.Valid() && broker.Valid()
    ensures d in OrderIssues(local, broker) <==>
              match d.kind
              case MissingLocalOrder => ReportsUnknownOrder(local, broker, d)
              case OrderStateMismatch => ReportsOtherOrder(local, broker, d)
              case QuantityMismatch => ReportsOtherQuantity(local, broker, d)
              case MissingBrokerOrder => ReportsVanishedOrder(local, broker, d)
              case CorrelationMissing =>
                && d.quantities.None?
                && (if d.clientOrderId.Some? then exists o :: o in local.orders && o.pending.Some? && Under(o, d)
                    else exists b :: OpenLookedAt(broker, b) && !OpenTrusted(broker, b) && b.instrumentId == d.instrumentId)
              case _ => false
  {
    PendingMeans(local, d);
    OpenIssuesMean(local, broker, d);
    MissingMeans(local, broker, d);
    match d.kind
    case MissingLocalOrder => TrustedSays(local, broker, d);
    case OrderStateMismatch => TrustedSays(local, broker, d);
    case QuantityMismatch => TrustedSays(local, broker, d);
    case _ =>
  }

  lemma TrustedSays(local: LocalSnapshot, broker: BrokerSnapshot, d: Discrepancy)
    ensures d.kind.MissingLocalOrder? ==>
              (ReportsUnknownOrder(local, broker, d) <==> exists b :: OpenLookedAt(broker, b) && OrderSays(local, broker, b, d))
    ensures d.kind.OrderStateMismatch? ==>
              (ReportsOtherOrder(local, broker, d) <==> exists b :: OpenLookedAt(broker, b) && OrderSays(local, broker, b, d))
    ensures d.kind.QuantityMismatch? ==>
              (ReportsOtherQuantity(local, broker, d) <==> exists b :: OpenLookedAt(broker, b) && OrderSays(local, broker, b, d))
  {
    if b :| OpenLookedAt(broker, b) && OrderSays(local, broker, b, d) && !d.kind.CorrelationMissing? {
      assert OpenSpeaksFor(broker, b, d);
    }
    if d.kind.MissingLocalOrder? && ReportsUnknownOrder(local, broker, d) {
      var b :| OpenSpeaksFor(broker, b, d) && forall o :: o in local.orders ==> !Concerns(o, b);
      assert OrderSays(local, broker, b, d);
    }
  }

  lemma FillsMean(local: LocalSnapshot, broker: BrokerSnapshot, d: Discrepancy)
    requires local.Valid() && broker.Valid()
    ensures d in AllFillIssues(local, broker) <==>
              match d.kind
              case FillMismatch => ReportsFill(local, broker, d)
              case CorrelationMissing =>
                && d.quantities.None? && d.clientOrderId.None?
                && exists f :: FillLookedAt(broker, f) && !FillTrusted(broker, f) && f.instrumentId == d.instrumentId
              case _ => false
  {
    FillIssuesMean(local, broker, d);
    UnmatchedMeans(local, broker, d);
  }

  /** Every discrepancy says of the two snapshots what its kind stands for, and whatever can be said so is a discrepancy. */
  lemma DiscrepancyMeans(local: LocalSnapshot, broker: BrokerSnapshot, d: Discrepancy)
    requires local.Valid() && broker.Valid()
    ensures d in Discrepancies(local, broker) <==> Reports(local, broker, d)
  {
    OrdersMean(local, broker, d);
    FillsMean(local, broker, d);
    PositionsMean(local, broker, d);
  }

  /** Some instrument's holdings add up to more than `exact_decimal_sum` can say. */
  ghost predicate Unsummable(local: LocalSnapshot) {
    exists a :: a in local.attributions && !ExactSum.Representable(Held(local.attributions, a.instrumentId))
  }

  lemma RaisesExactly(local: LocalSnapshot, broker: BrokerSnapshot, at: Time)
    ensures Assessable(local, broker, at) <==> !Untimely(local, broker, at) && !Unsummable(local)
  {
    forall a | a in local.attributions
      ensures Held(local.attributions, a.instrumentId) == ExpectedPosition(local.attributions, a.instrumentId)
    {
      HeldIsExpected(local.attributions, a.instrumentId);
    }
    var evidence := [broker.openEvidence, broker.fillEvidence, broker.positionEvidence];
    assert evidence[0] in evidence && evidence[1] in evidence && evidence[2] in evidence;
  }

  lemma VerdictMeans(local: LocalSnapshot, broker: BrokerSnapshot, ordered: seq<Discrepancy>, less: Ordering)
    requires Lists(ordered, Discrepancies(local, broker), less)
    ensures local.Valid() && broker.Valid() ==>
              && (StatusOf(local, broker) == AmbiguousStatus <==> Unclear(local, broker))
              && (StatusOf(local, broker) == IncompleteStatus <==> !Unclear(local, broker) && SomethingMissing(broker))
              && (forall d :: d in ordered <==> Reports(local, broker, d))
  {
    if local.Valid() && broker.Valid() {
      StatusMeans(local, broker);
      forall d ensures d in ordered <==> Reports(local, broker, d) {
        DiscrepancyMeans(local, broker, d);
      }
    }
  }

  /** None stands for a raised ValueError. */
  method AssessReconciliation(local: LocalSnapshot, broker: BrokerSnapshot, at: Time, less: Ordering, fits: SumCheck)
    returns (assessment: Option<Assessment>)
    requires TotalOrder(less) && ChecksSums(fits)
    ensures assessment.Some? <==> Assessable(local, broker, at)
    ensures assessment.None? <==> Untimely(local, broker, at) || Unsummable(local)
    ensures assessment.Some? ==>
              && assessment.value.local == local && assessment.value.broker == broker
              && assessment.value.result.reconciledAt == at
              && assessment.value.result.status == StatusOf(local, broker)
              && Lists(assessment.value.result.discrepancies, Discrepancies(local, broker), less)
    ensures assessment.Some? && local.Valid() && broker.Valid() ==>
              && (assessment.value.result.status == AmbiguousStatus <==> Unclear(local, broker))
              && (assessment.value.result.status == IncompleteStatus <==> !Unclear(local, broker) && SomethingMissing(broker))
              && (forall d :: d in assessment.value.result.discrepancies <==> Reports(local, broker, d))
  {
    RaisesExactly(local, broker, at);
    if !Timely(local, broker, at) {
      return None;
    }
    var openUnique, openConflicts := DedupeAndFindConflicts(broker.open, OpenIdentities, OpenPayload);
    var fillUnique, fillConflicts := DedupeAndFindConflicts(broker.fills, FillIdentities, FillPayload);
    var positionUnique, positionConflicts := DedupeAndFindConflicts(broker.positions, PositionIdentities, PositionPayload);
    var orderIssues, openAmbiguous :=
      AssessOrders(local, Evidenced(openUnique, openConflicts), broker.openEvidence.status.Complete?);
    FirstSeenDistinct(broker.fills, FillPayload);
    var fillIssues, fillsAmbiguous :=
      AssessFills(local, Evidenced(fillUnique, fillConflicts), broker.fillEvidence.status.Complete?);
    var positionIssues :=
      AssessPositions(local, Evidenced(positionUnique, positionConflicts), broker.positionEvidence.status.Complete?, fits);
    if positionIssues.None? {
      return None;
    }
    var ambiguous := openAmbiguous || fillsAmbiguous || positionConflicts != {};
    var status := if ambiguous then AmbiguousStatus
                  else if !broker.AllComplete() then IncompleteStatus else CompleteStatus;
    var ordered := SortDiscrepancies(orderIssues + fillIssues + positionIssues.value, less);
    assessment := Some(Assessment(local, broker, Result(status, ordered, at)));
    VerdictMeans(local, broker, ordered, less);
  }

  method AssessOrders(local: LocalSnapshot, open: Evidenced<OpenObs>, complete: bool)
    returns (issues: set<Discrepancy>, ambiguous: bool)
    ensures ambiguous == OpenAmbiguous(open)
    ensures issues == PendingIssues(local.orders) + OpenIssuesOf(local, open.unique, open.conflicts)
                      + MissingIssues(local.orders, local, open, complete)
  {
    var pending := CollectPending(local.orders);
    var reported, matched := CollectOpen(local, open);
    ambiguous := open.conflicts != {} || exists b :: b in open.unique && !b.correlation.status.Confirmed?;
    var missing := CollectMissing(local, open, complete, matched);
    issues := pending + reported + missing;
  }

  method CollectPending(orders: seq<LiveOrder>) returns (issues: set<Discrepancy>)
    ensures issues == PendingIssues(orders)
  {
    issues := {};
    for i := 0 to |orders|
      invariant issues == PendingIssues(orders[..i])
    {
      var o := orders[i];
      assert orders[..i + 1] == orders[..i] + [o];
      if o.pending.Some? {
        issues := issues + {Issue(CorrelationMissing, o.intent.instrumentId, Some(o.intent.clientOrderId))};
      }
    }
    assert orders[..|orders|] == orders;
  }

  /** The broker orders that reached a local order, by client id. */
  ghost predicate MatchedIds(matched: set<Id>, local: LocalSnapshot, some: seq<OpenObs>, conflicts: set<Identity>) {
    && (forall b :: b in some && OpenUsable(b, conflicts) && FindOrder(local.orders, b.correlation.clientOrderId.value).Some?
          ==> b.correlation.clientOrderId.value in matched)
    && (forall id :: id in matched ==> FindOrder(local.orders, id).Some? && ReachedBy(id, some, conflicts))
  }

  predicate ReachedBy(id: Id, some: seq<OpenObs>, conflicts: set<Identity>) {
    exists b :: b in some && OpenUsable(b, conflicts) && b.correlation.clientOrderId == Some(id)
  }

  method CollectOpen(local: LocalSnapshot, open: Evidenced<OpenObs>) returns (issues: set<Discrepancy>, matched: set<Id>)
    ensures issues == OpenIssuesOf(local, open.unique, open.conflicts)
    ensures MatchedIds(matched, local, open.unique, open.conflicts)
  {
    issues, matched := {}, {};
    for i := 0 to |open.unique|
      invariant issues == OpenIssuesOf(local, open.unique[..i], open.conflicts)
      invariant MatchedIds(matched, local, open.unique[..i], open.conflicts)
    {
      var b := open.unique[i];
      OpenIssuesStep(local, open.unique[..i], b, open.conflicts);
      assert open.unique[..i + 1] == open.unique[..i] + [b];
      issues := issues + OpenIssues(local, b, open.conflicts);
      ghost var before := matched;
      if OpenUsable(b, open.conflicts) && FindOrder(local.orders, b.correlation.clientOrderId.value).Some? {
        matched := matched + {b.correlation.clientOrderId.value};
      }
      MatchedIdsStep(before, matched, local, open.unique[..i], b, open.conflicts);
    }
    assert open.unique[..|open.unique|] == open.unique;
  }

  lemma OpenIssuesStep(local: LocalSnapshot, some: seq<OpenObs>, b: OpenObs, conflicts: set<Identity>)
    ensures OpenIssuesOf(local, some + [b], conflicts) == OpenIssuesOf(local, some, conflicts) + OpenIssues(local, b, conflicts)
  {
  }

  lemma MatchedIdsStep(before: set<Id>, after: set<Id>, local: LocalSnapshot, some: seq<OpenObs>, b: OpenObs, conflicts: set<Identity>)
    requires MatchedIds(before, local, some, conflicts)
    requires after == if OpenUsable(b, conflicts) && FindOrder(local.orders, b.correlation.clientOrderId.value).Some?
                      then before + {b.correlation.clientOrderId.value} else before
    ensures MatchedIds(after, local, some + [b], conflicts)
  {
    forall id | id in after
      ensures FindOrder(local.orders, id).Some? && ReachedBy(id, some + [b], conflicts)
    {
      if id in before {
        var c :| c in some && OpenUsable(c, conflicts) && c.correlation.clientOrderId == Some(id);
        assert c in some + [b];
      } else {
        assert b in some + [b];
      }
    }
  }

  method CollectMissing(local: LocalSnapshot, open: Evidenced<OpenObs>, complete: bool, matched: set<Id>)
    returns (issues: set<Discrepancy>)
    requires MatchedIds(matched, local, open.unique, open.conflicts)
    ensures issues == MissingIssues(local.orders, local, open, complete)
  {
    issues := {};
    for i := 0 to |local.orders|
      invariant issues == MissingIssues(local.orders[..i], local, open, complete)
    {
      var o := local.orders[i];
      assert local.orders[..i + 1] == local.orders[..i] + [o];
      MatchedAgrees(o, matched, local, open);
      if o.intent.clientOrderId !in matched && o.pending.None? && complete && !OpenAmbiguous(open) && Working(o) {
        issues := issues + {Issue(MissingBrokerOrder, o.intent.instrumentId, Some(o.intent.clientOrderId))};
      }
    }
    assert local.orders[..|local.orders|] == local.orders;
  }

  lemma MatchedAgrees(o: LiveOrder, matched: set<Id>, local: LocalSnapshot, open: Evidenced<OpenObs>)
    requires MatchedIds(matched, local, open.unique, open.conflicts)
    ensures Matched(o, local, open) <==> o.intent.clientOrderId in matched
  {
    if o.intent.clientOrderId in matched {
      var b :| b in open.unique && OpenUsable(b, open.conflicts)
               && b.correlation.clientOrderId == Some(o.intent.clientOrderId);
      assert MatchedBy(o, local, b, open.conflicts);
    }
  }

  /** The claims gathered per local fill id: which deduplicated broker fills resolve to it. */
  ghost predicate Gathered(claims: map<Id, seq<FillObs>>, some: seq<FillObs>, local: LocalSnapshot, fills: Evidenced<FillObs>) {
    && (forall f, id :: f in some && Claims(local, fills, f, id) ==> id in claims && f in claims[id])
    && (forall id, f :: id in claims && f in claims[id] ==> f in some && Claims(local, fills, f, id))
    && (forall id :: id in claims ==> claims[id] != [] && NoRepeat(claims[id]))
  }

  predicate NoRepeat<T(==)>(s: seq<T>) {
    forall i, j :: 0 <= i < j < |s| ==> s[i] != s[j]
  }

  method AssessFills(local: LocalSnapshot, fills: Evidenced<FillObs>, complete: bool)
    returns (issues: set<Discrepancy>, ambiguous: bool)
    requires NoRepeat(fills.unique)
    ensures ambiguous == FillsAmbiguous(local, fills)
    ensures issues == FillIssuesOf(local, fills.unique, fills) + UnmatchedIssues(local.fills, local, fills, complete)
  {
    var claims, twoFills := GatherClaims(local, fills);
    var collided := set id | id in claims && |claims[id]| > 1;
    CollidedIds(claims, collided, local, fills);
    ambiguous := fills.conflicts != {} || (exists f :: f in fills.unique && !f.correlation.status.Confirmed?)
                 || twoFills || collided != {};
    var reported := CollectFills(local, fills, collided);
    var unmatched := CollectUnmatched(local, fills, complete, claims, collided, ambiguous);
    issues := reported + unmatched;
  }

  /** The first fill loop: resolve each usable broker fill and group the resolved ones by local fill. */
  method GatherClaims(local: LocalSnapshot, fills: Evidenced<FillObs>) returns (claims: map<Id, seq<FillObs>>, twoFills: bool)
    requires NoRepeat(fills.unique)
    ensures Gathered(claims, fills.unique, local, fills)
    ensures twoFills == SomeTwoFills(local, fills)
  {
    claims, twoFills := map[], false;
    for i := 0 to |fills.unique|
      invariant Gathered(claims, fills.unique[..i], local, fills)
      invariant twoFills <==>
        exists f :: f in fills.unique[..i] && FillUsable(f, fills.conflicts) && Resolve(local.fills, f).TwoFills?
    {
      var f := fills.unique[i];
      assert fills.unique[..i + 1] == fills.unique[..i] + [f];
      assert f !in fills.unique[..i];
      ghost var before := claims;
      if FillUsable(f, fills.conflicts) {
        match Resolve(local.fills, f)
        case NoFill =>
        case TwoFills => twoFills := true;
        case OneFill(l) =>
          claims := claims[l.fillId := (if l.fillId in claims then claims[l.fillId] else []) + [f]];
      }
      GatheredStep(before, claims, fills.unique[..i], f, local, fills);
    }
    assert fills.unique[..|fills.unique|] == fills.unique;
  }

  lemma GatheredStep(before: map<Id, seq<FillObs>>, after: map<Id, seq<FillObs>>, some: seq<FillObs>, f: FillObs,
                     local: LocalSnapshot, fills: Evidenced<FillObs>)
    requires Gathered(before, some, local, fills) && f !in some
    requires after == if FillUsable(f, fills.conflicts) && Resolve(local.fills, f).OneFill?
                      then var id := Resolve(local.fills, f).fill.fillId;
                           before[id := (if id in before then before[id] else []) + [f]]
                      else before
    ensures Gathered(after, some + [f], local, fills)
  {
  }

  lemma CollidedIds(claims: map<Id, seq<FillObs>>, collided: set<Id>, local: LocalSnapshot, fills: Evidenced<FillObs>)
    requires Gathered(claims, fills.unique, local, fills)
    requires collided == set id | id in claims && |claims[id]| > 1
    ensures forall id :: id in collided <==> Collided(local, fills, id)
    ensures collided != {} <==> SomeCollision(local, fills)
  {
    forall id
      ensures id in collided <==> Collided(local, fills, id)
    {
      if id in collided {
        var f, g := claims[id][0], claims[id][1];
        assert f in claims[id] && g in claims[id];
        assert Claims(local, fills, f, id) && Claims(local, fills, g, id);
      }
      if Collided(local, fills, id) {
        var f, g :| f in fills.unique && g in fills.unique && f != g && Claims(local, fills, f, id) && Claims(local, fills, g, id);
        assert f in claims[id] && g in claims[id];
      }
    }
    if collided != {} {
      var id :| id in collided;
      var f := claims[id][0];
      assert f in claims[id];
      assert Claims(local, fills, f, id);
      ResolvedIsLocal(local.fills, f);
      assert Resolve(local.fills, f).fill in local.fills;
    }
  }

  lemma ResolvedIsLocal(fills: seq<LiveFill>, f: FillObs)
    ensures Resolve(fills, f).OneFill? ==> Resolve(fills, f).fill in fills
  {
    if f.correlation.brokerFillId.Some? { FoundFill(fills, f.correlation.brokerFillId.value); }
    if f.correlation.executionNo.Some? { FoundFill(fills, f.correlation.executionNo.value); }
  }

  lemma FoundFill(fills: seq<LiveFill>, id: Id)
    ensures match FindFill(fills, id)
            case Some(l) => l in fills && l.fillId == id
            case None => forall l :: l in fills ==> l.fillId != id
  {
    if fills != [] && fills[0].fillId != id {
      FoundFill(fills[1..], id);
    }
  }

  method CollectFills(local: LocalSnapshot, fills: Evidenced<FillObs>, collided: set<Id>) returns (issues: set<Discrepancy>)
    requires forall id :: id in collided <==> Collided(local, fills, id)
    ensures issues == FillIssuesOf(local, fills.unique, fills)
  {
    issues := {};
    for i := 0 to |fills.unique|
      invariant issues == FillIssuesOf(local, fills.unique[..i], fills)
    {
      var f := fills.unique[i];
      FillIssuesStep(local, fills.unique[..i], f, fills);
      assert fills.unique[..i + 1] == fills.unique[..i] + [f];
      if !FillUsable(f, fills.conflicts) {
        issues := issues + {Issue(CorrelationMissing, f.instrumentId, None)};
      } else {
        match Resolve(local.fills, f)
        case OneFill(l) =>
          if l.fillId in collided {
            issues := issues + {Issue(FillMismatch, f.instrumentId, f.correlation.clientOrderId)};
          } else if !FillAgrees(l, f) {
            issues := issues + {Issue(FillMismatch, f.instrumentId, Some(l.clientOrderId))};
          }
        case _ => issues := issues + {Issue(FillMismatch, f.instrumentId, f.correlation.clientOrderId)};
      }
    }
    assert fills.unique[..|fills.unique|] == fills.unique;
  }

  lemma FillIssuesStep(local: LocalSnapshot, some: seq<FillObs>, f: FillObs, fills: Evidenced<FillObs>)
    ensures FillIssuesOf(local, some + [f], fills) == FillIssuesOf(local, some, fills) + FillIssues(local, f, fills)
  {
  }

  method CollectUnmatched(local: LocalSnapshot, fills: Evidenced<FillObs>, complete: bool, claims: map<Id, seq<FillObs>>,
                          collided: set<Id>, ambiguous: bool)
    returns (issues: set<Discrepancy>)
    requires Gathered(claims, fills.unique, local, fills) && ambiguous == FillsAmbiguous(local, fills)
    requires forall id :: id in collided <==> Collided(local, fills, id)
    ensures issues == UnmatchedIssues(local.fills, local, fills, complete)
  {
    issues := {};
    for i := 0 to |local.fills|
      invariant issues == UnmatchedIssues(local.fills[..i], local, fills, complete)
    {
      var l := local.fills[i];
      assert local.fills[..i + 1] == local.fills[..i] + [l];
      SettledAgrees(l, claims, local, fills);
      if complete && !ambiguous && (l.fillId !in claims || l.fillId in collided) {
        issues := issues + {Issue(FillMismatch, l.instrumentId, Some(l.clientOrderId))};
      }
    }
    assert local.fills[..|local.fills|] == local.fills;
  }

  lemma SettledAgrees(l: LiveFill, claims: map<Id, seq<FillObs>>, local: LocalSnapshot, fills: Evidenced<FillObs>)
    requires Gathered(claims, fills.unique, local, fills)
    ensures Settled(l, local, fills) <==> l.fillId in claims && !Collided(local, fills, l.fillId)
  {
    if l.fillId in claims {
      var f := claims[l.fillId][0];
      assert f in claims[l.fillId];
      assert f in fills.unique && Claims(local, fills, f, l.fillId);
    }
  }

  /** None when an expected position is out of the bounds of `exact_decimal_sum`. */
  method AssessPositions(local: LocalSnapshot, positions: Evidenced<Position>, complete: bool, fits: SumCheck)
    returns (issues: Option<set<Discrepancy>>)
    requires ChecksSums(fits)
    ensures issues.Some? <==> Summable(local.attributions)
    ensures issues.Some? ==> issues.value == PositionIssues(Instruments(local, positions), local, positions, complete)
  {
    var expected := ExpectedPositions(local.attributions);
    SummableByInstrument(expected, local.attributions);
    if exists i :: i in expected && !fits(expected[i]) {
      return None;
    }
    var net: map<Id, real> := map[];
    for i := 0 to |positions.unique|
      invariant net == BrokerPositions(positions.unique[..i], positions.conflicts)
    {
      var p := positions.unique[i];
      assert positions.unique[..i + 1][..i] == positions.unique[..i];
      if InstrumentKey(p.instrumentId) !in positions.conflicts {
        net := net[p.instrumentId := p.net];
      }
    }
    assert positions.unique[..|positions.unique|] == positions.unique;
    assert expected.Keys + net.Keys == Instruments(local, positions);
    var found := ComparePositions(local, positions, complete, expected, net);
    issues := Some(found);
  }

  lemma SummableByInstrument(expected: map<Id, real>, attributions: seq<Attribution>)
    requires IsExpected(expected, attributions)
    ensures Summable(attributions) <==> forall i :: i in expected ==> ExactSum.Representable(expected[i])
  {
    if Summable(attributions) {
      forall i | i in expected ensures ExactSum.Representable(expected[i]) {
        var a :| a in attributions && a.instrumentId == i;
      }
    }
  }

  /** The expected position of every instrument with an attribution. */
  ghost predicate IsExpected(expected: map<Id, real>, attributions: seq<Attribution>) {
    && expected.Keys == (set a | a in attributions :: a.instrumentId)
    && forall i :: i in expected ==> expected[i] == ExpectedPosition(attributions, i)
  }

  method ExpectedPositions(attributions: seq<Attribution>) returns (expected: map<Id, real>)
    ensures IsExpected(expected, attributions)
  {
    expected := map[];
    for k := 0 to |attributions|
      invariant IsExpected(expected, attributions[..k])
    {
      var a := attributions[k];
      assert attributions[..k + 1] == attributions[..k] + [a];
      ExpectedNext(expected, attributions[..k], a);
      expected := expected[a.instrumentId := (if a.instrumentId in expected then expected[a.instrumentId] else 0.0) + a.quantity];
    }
    assert attributions[..|attributions|] == attributions;
  }

  lemma ExpectedNext(expected: map<Id, real>, attributions: seq<Attribution>, a: Attribution)
    requires IsExpected(expected, attributions)
    ensures IsExpected(expected[a.instrumentId := (if a.instrumentId in expected then expected[a.instrumentId] else 0.0) + a.quantity],
                       attributions + [a])
  {
    var after := expected[a.instrumentId := (if a.instrumentId in expected then expected[a.instrumentId] else 0.0) + a.quantity];
    assert after.Keys == (set x | x in attributions + [a] :: x.instrumentId);
    forall i | i in after ensures after[i] == ExpectedPosition(attributions + [a], i) {
      ExpectedStep(attributions, a, i);
      if i !in expected {
        NothingExpected(attributions, i);
      }
    }
  }

  lemma ExpectedStep(attributions: seq<Attribution>, a: Attribution, i: Id)
    ensures ExpectedPosition(attributions + [a], i)
            == ExpectedPosition(attributions, i) + if a.instrumentId == i then a.quantity else 0.0
  {
    AttributionsConcat(attributions, a, i);
    SumConcat(AttributedQuantity, AttributionsOn(attributions, i), AttributionsOn([a], i));
  }

  lemma {:induction false} AttributionsConcat(attributions: seq<Attribution>, a: Attribution, i: Id)
    ensures AttributionsOn(attributions + [a], i) == AttributionsOn(attributions, i) + AttributionsOn([a], i)
    ensures AttributionsOn([a], i) == if a.instrumentId == i then [a] else []
  {
    if attributions == [] {
      assert attributions + [a] == [a];
    } else {
      AttributionsConcat(attributions[1..], a, i);
      assert (attributions + [a])[1..] == attributions[1..] + [a];
    }
  }

  lemma NothingExpected(attributions: seq<Attribution>, i: Id)
    requires forall a :: a in attributions ==> a.instrumentId != i
    ensures ExpectedPosition(attributions, i) == 0.0
  {
    FilterNone(attributions, (a: Attribution) => a.instrumentId == i);
  }

  method ComparePositions(local: LocalSnapshot, positions: Evidenced<Position>, complete: bool,
                          expected: map<Id, real>, net: map<Id, real>)
    returns (issues: set<Discrepancy>)
    requires expected.Keys == set a | a in local.attributions :: a.instrumentId
    requires forall i :: i in expected ==> expected[i] == ExpectedPosition(local.attributions, i)
    requires net == BrokerPositions(positions.unique, positions.conflicts)
    ensures issues == PositionIssues(expected.Keys + net.Keys, local, positions, complete)
  {
    issues := {};
    var rest := expected.Keys + net.Keys;
    ghost var done: set<Id> := {};
    while rest != {}
      invariant done + rest == expected.Keys + net.Keys
      invariant issues == PositionIssues(done, local, positions, complete)
      decreases rest
    {
      var i :| i in rest;
      var more := ComparePosition(i, local, positions, complete, expected, net);
      PositionIssuesStep(done, i, local, positions, complete);
      issues, rest, done := issues + more, rest - {i}, done + {i};
    }
    assert done == expected.Keys + net.Keys;
  }

  method ComparePosition(i: Id, local: LocalSnapshot, positions: Evidenced<Position>, complete: bool,
                         expected: map<Id, real>, net: map<Id, real>)
    returns (issues: set<Discrepancy>)
    requires expected.Keys == set a | a in local.attributions :: a.instrumentId
    requires forall j :: j in expected ==> expected[j] == ExpectedPosition(local.attributions, j)
    requires net == BrokerPositions(positions.unique, positions.conflicts)
    ensures issues == PositionIssues({i}, local, positions, complete)
  {
    if i !in expected {
      NothingExpected(local.attributions, i);
    }
    var e := if i in expected then expected[i] else 0.0;
    var actual := if i in net then net[i] else 0.0;
    OnePositionIssue(i, local, positions, complete, net, e, actual);
    issues := if InstrumentKey(i) !in positions.conflicts && (i in net || complete) && e != actual
              then {Discrepancy(PositionMismatch, i, None, Some((e, actual)))} else {};
  }

  lemma OnePositionIssue(i: Id, local: LocalSnapshot, positions: Evidenced<Position>, complete: bool,
                         net: map<Id, real>, e: real, actual: real)
    requires net == BrokerPositions(positions.unique, positions.conflicts)
    requires e == ExpectedPosition(local.attributions, i) && actual == if i in net then net[i] else 0.0
    ensures PositionIssues({i}, local, positions, complete)
            == if InstrumentKey(i) !in positions.conflicts && (i in net || complete) && e != actual
               then {Discrepancy(PositionMismatch, i, None, Some((e, actual)))} else {}
  {
  }

  lemma PositionIssuesStep(done: set<Id>, i: Id, local: LocalSnapshot, positions: Evidenced<Position>, complete: bool)
    ensures PositionIssues(done + {i}, local, positions, complete)
            == PositionIssues(done, local, positions, complete) + PositionIssues({i}, local, positions, complete)
  {
  }

  method SortDiscrepancies(d: set<Discrepancy>, less: Ordering) returns (ordered: seq<Discrepancy>)
    requires TotalOrder(less)
    ensures Lists(ordered, d, less)
  {
    ordered := [];
    var rest := d;
    while rest != {}
      invariant forall x :: x in d <==> x in ordered || x in rest
      invariant Ascending(ordered, less)
      invariant forall x, y :: x in ordered && y in rest ==> less(x, y)
      decreases |rest|
    {
      ghost var _ := LeastExists(rest, less);
      var least :| least in rest && IsLeast(least, rest, less);
      ghost var next, left := ordered + [least], rest - {least};
      forall x, y | x in next && y in left ensures less(x, y) {
        if x == least {
          LeastPrecedes(least, rest, less, y);
        } else {
          assert x in ordered && y in rest;
        }
      }
      ordered, rest := ordered + [least], rest - {least};
    }
  }

  predicate IsLeast(least: Discrepancy, d: set<Discrepancy>, less: Ordering) {
    least in d && forall x :: x in d && x != least ==> less(least, x)
  }

  lemma LeastPrecedes(least: Discrepancy, d: set<Discrepancy>, less: Ordering, y: Discrepancy)
    requires IsLeast(least, d, less) && y in d && y != least
    ensures less(least, y)
  {
  }

  lemma LeastExists(d: set<Discrepancy>, less: Ordering) returns (least: Discrepancy)
    requires TotalOrder(less) && d != {}
    ensures IsLeast(least, d, less)
    decreases |d|
  {
    var a :| a in d;
    if d == {a} {
      least := a;
    } else {
      var b := LeastExists(d - {a}, less);
      least := if less(a, b) then a else b;
      forall x | x in d && x != least ensures less(least, x) {
        Precedes(a, b, x, least, less);
      }
    }
  }

  lemma Precedes(a: Discrepancy, b: Discrepancy, x: Discrepancy, least: Discrepancy, less: Ordering)
    requires TotalOrder(less) && a != b && least == (if less(a, b) then a else b)
    requires x != least && (x == a || x == b || less(b, x))
    ensures less(least, x)
  {
  }

  /** Two listings of one set in key order are the same list. */
  lemma {:induction false} ListingIsUnique(s: seq<Discrepancy>, t: seq<Discrepancy>, d: set<Discrepancy>, less: Ordering)
    requires TotalOrder(less) && Lists(s, d, less) && Lists(t, d, less)
    ensures s == t
    decreases |s|
  {
    if s == [] || t == [] {
      NothingListed(s, t);
    } else {
      SameFirst(s, t, d, less);
      TailLists(s, d, less);
      TailLists(t, d, less);
      ListingIsUnique(s[1..], t[1..], d - {s[0]}, less);
    }
  }

  lemma NothingListed(s: seq<Discrepancy>, t: seq<Discrepancy>)
    requires (forall x :: x in s <==> x in t) && (s == [] || t == [])
    ensures s == [] && t == []
  {
    SomethingListed(s);
    SomethingListed(t);
  }

  lemma SomethingListed(s: seq<Discrepancy>)
    ensures s != [] ==> exists x :: x in s
  {
    if s != [] { assert s[0] in s; }
  }

  lemma SameFirst(s: seq<Discrepancy>, t: seq<Discrepancy>, d: set<Discrepancy>, less: Ordering)
    requires TotalOrder(less) && Lists(s, d, less) && Lists(t, d, less) && s != [] && t != []
    ensures s[0] == t[0]
  {
    assert s[0] in s && t[0] in t;
    var i :| 0 <= i < |t| && t[i] == s[0];
    var j :| 0 <= j < |s| && s[j] == t[0];
  }

  lemma TailLists(s: seq<Discrepancy>, d: set<Discrepancy>, less: Ordering)
    requires TotalOrder(less) && Lists(s, d, less) && s != []
    ensures Lists(s[1..], d - {s[0]}, less)
  {
    assert forall i :: 1 <= i < |s| ==> less(s[0], s[i]);
    forall x ensures x in s[1..] <==> x in d - {s[0]} {
      if x in d && x != s[0] {
        var i :| 0 <= i < |s| && s[i] == x;
        assert s[1..][i - 1] == x;
      }
    }
  }
}
