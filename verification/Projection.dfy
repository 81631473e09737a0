/**
 * `project_authoritative_orders` of tx_trade/orders/live_reconciliation_projection.py:
 * a plan that turns an order whose submission outcome is unknown into an
 * accepted one, when the broker's complete evidence shows exactly that order.
 */
module Projection {
  import opened Wrappers
  import opened LiveContracts
  import opened Sums
  import opened ReconciliationContracts
  import opened Reconciliation
  import opened ReconciliationVerdict

  datatype Disposition = NoChangeNeeded | Ready | NotAuthoritative | Unsupported

  datatype Reason =
    | AssessmentMismatch | NotAuthoritativeReason | IncompleteEvidence | AmbiguousEvidence | UnsupportedDiscrepancy
    | UnsupportedLocalState | UnsupportedCommand | MissingBrokerMatch | MultipleBrokerMatches | BrokerIdentityMismatch
    | BrokerQuantityMismatch | BrokerPriceMismatch | BrokerTimeMismatch | FillEvidenceUnsupported

  datatype ExpectedVersion = ExpectedVersion(clientOrderId: Id, version: int)

  type IdOrder = (Id, Id) -> bool

  ghost predicate TotalIdOrder(less: IdOrder) {
    && (forall a, b :: a != b ==> (less(a, b) <==> !less(b, a)))
    && (forall a :: !less(a, a))
    && (forall a, b, c :: less(a, b) && less(b, c) ==> less(a, c))
  }

  ghost predicate AscendingIds(orders: seq<LiveOrder>, less: IdOrder) {
    forall i, j :: 0 <= i < j < |orders| ==> less(orders[i].intent.clientOrderId, orders[j].intent.clientOrderId)
  }

  datatype Plan = Plan(
    accountId: Id, snapshotId: Id, expectedJournalSequence: nat, disposition: Disposition,
    versions: seq<ExpectedVersion>, orders: seq<LiveOrder>,
    consumed: set<Discrepancy>, unsupported: set<Discrepancy>, reasons: set<Reason>)
  {
    /** `AuthoritativeOrderProjectionPlan.__post_init__`; the set fields are sorted there. */
    ghost predicate Valid(less: IdOrder) {
      && AscendingIds(orders, less)
      && (forall o :: o in orders ==> o.Valid() && o.intent.accountId == accountId)
      && |versions| == |orders|
      && (forall i :: 0 <= i < |orders| ==>
            versions[i] == ExpectedVersion(orders[i].intent.clientOrderId, orders[i].version - 1))
      && consumed * unsupported == {}
      && match disposition
         case Ready => orders != [] && consumed != {} && unsupported == {} && reasons == {}
         case NoChangeNeeded => orders == [] && consumed == {} && unsupported == {} && reasons == {}
         case NotAuthoritative => orders == [] && consumed == {} && unsupported == {} && reasons != {}
         case Unsupported => orders == [] && consumed == {} && reasons != {}
    }
  }

  // ---- What speaks against a projection ---------------------------------------------

  function LocalReasons(o: LiveOrder): set<Reason> {
    (if o.state !in {SubmissionUnknown, Reconciling} || o.acceptedAt.Some? || o.filled != 0.0 || o.remaining != o.total
        || o.average.Some?
     then {UnsupportedLocalState} else {}) +
    (if o.pending.None? || !o.pending.value.New? then {UnsupportedCommand}
     else
       var intent := o.pending.value.intent;
       if o.total != intent.quantity || o.remaining != intent.quantity || o.limitPrice != intent.limitPrice
       then {UnsupportedLocalState} else {})
  }

  function ObservationReasons(o: LiveOrder, b: OpenObs, asOf: Time): set<Reason> {
    (if !b.correlation.status.Confirmed? || b.correlation.clientOrderId != Some(o.intent.clientOrderId)
        || b.accountId != o.intent.accountId || b.instrumentId != o.intent.instrumentId || b.side != o.intent.side
     then {BrokerIdentityMismatch} else {}) +
    (if b.total != o.total || b.remaining != o.remaining || b.remaining != b.total then {BrokerQuantityMismatch} else {}) +
    (if b.limitPrice != o.limitPrice then {BrokerPriceMismatch} else {}) +
    (if b.observedAt < MaxInt(o.updatedAt, asOf) || b.correlation.correlatedAt > b.observedAt
     then {BrokerTimeMismatch} else {})
  }

  function BrokerReasons(o: LiveOrder, matches: seq<OpenObs>, fills: seq<FillObs>, asOf: Time): set<Reason> {
    (if matches == [] then {MissingBrokerMatch}
     else if |matches| > 1 then {MultipleBrokerMatches}
     else ObservationReasons(o, matches[0], asOf)) +
    (if fills != [] then {FillEvidenceUnsupported} else {})
  }

  /** The raw broker orders and fills under a client id, whatever their correlation status. */
  function OpenFor(open: seq<OpenObs>, id: Id): seq<OpenObs> {
    Filter(open, (b: OpenObs) => b.correlation.clientOrderId == Some(id))
  }

  function FillsFor(fills: seq<FillObs>, id: Id): seq<FillObs> {
    Filter(fills, (f: FillObs) => f.correlation.clientOrderId == Some(id))
  }

  /** The local order a discrepancy asks about, when it is of the one projectable kind. */
  function Subject(local: LocalSnapshot, d: Discrepancy): Option<LiveOrder> {
    if d.clientOrderId.None? || !d.kind.CorrelationMissing? then None
    else FindOrder(local.orders, d.clientOrderId.value)
  }

  function ReasonsAgainst(local: LocalSnapshot, broker: BrokerSnapshot, d: Discrepancy): set<Reason> {
    match Subject(local, d)
    case None => {UnsupportedDiscrepancy}
    case Some(o) =>
      var id := d.clientOrderId.value;
      LocalReasons(o) + BrokerReasons(o, OpenFor(broker.open, id), FillsFor(broker.fills, id), local.asOf)
  }

  function ProjectedOrder(o: LiveOrder, b: OpenObs): LiveOrder {
    o.(state := Accepted, version := o.version + 1, updatedAt := b.observedAt, acceptedAt := Some(b.observedAt), pending := None)
  }

  /** The order a discrepancy without objections is turned into. */
  function Projected(local: LocalSnapshot, broker: BrokerSnapshot, d: Discrepancy): LiveOrder
    requires ReasonsAgainst(local, broker, d) == {}
  {
    assert Subject(local, d).Some?;
    NoReasons(local, broker, d);
    ProjectedOrder(Subject(local, d).value, OpenFor(broker.open, d.clientOrderId.value)[0])
  }

  /** What it takes for a discrepancy to raise no objection. */
  lemma NoReasons(local: LocalSnapshot, broker: BrokerSnapshot, d: Discrepancy)
    requires ReasonsAgainst(local, broker, d) == {}
    ensures Subject(local, d).Some?
    ensures LocalReasons(Subject(local, d).value) == {}
    ensures |OpenFor(broker.open, d.clientOrderId.value)| == 1
    ensures ObservationReasons(Subject(local, d).value, OpenFor(broker.open, d.clientOrderId.value)[0], local.asOf) == {}
    ensures FillsFor(broker.fills, d.clientOrderId.value) == []
  {
    var against := ReasonsAgainst(local, broker, d);
    assert Subject(local, d).None? ==> UnsupportedDiscrepancy in against;
    var o, matches := Subject(local, d).value, OpenFor(broker.open, d.clientOrderId.value);
    assert LocalReasons(o) <= against;
    assert matches == [] ==> MissingBrokerMatch in against;
    assert |matches| > 1 ==> MultipleBrokerMatches in against;
    assert FillsFor(broker.fills, d.clientOrderId.value) != [] ==> FillEvidenceUnsupported in against;
    assert |matches| == 1 ==> ObservationReasons(o, matches[0], local.asOf) <= against;
  }

  // ---- The plan -------------------------------------------------------------------------

  /** The recomputed assessment is the given one. */
  ghost predicate Authentic(a: Assessment, less: Ordering) {
    a.result.status == StatusOf(a.local, a.broker) && Lists(a.result.discrepancies, Discrepancies(a.local, a.broker), less)
  }

  predicate Authoritative(a: Assessment) {
    a.result.status.CompleteStatus? && a.broker.AllComplete()
  }

  /** Every discrepancy is a pending new order that the broker shows exactly once, working and untouched. */
  ghost predicate Projectable(a: Assessment, less: Ordering) {
    && Authentic(a, less)
    && Authoritative(a)
    && a.result.discrepancies != []
    && forall d :: d in a.result.discrepancies ==> ReasonsAgainst(a.local, a.broker, d) == {}
  }

  function AuthorityReasons(status: Status): set<Reason> {
    {NotAuthoritativeReason} +
    match status
    case IncompleteStatus => {IncompleteEvidence}
    case AmbiguousStatus => {AmbiguousEvidence}
    case CompleteStatus => {}
  }

  function Empty(a: Assessment, disposition: Disposition, reasons: set<Reason>, unsupported: set<Discrepancy>): Plan {
    Plan(a.local.accountId, a.broker.snapshotId, a.local.journalSequence, disposition, [], [], {}, unsupported, reasons)
  }

  datatype Item = Item(d: Discrepancy, order: LiveOrder, observation: OpenObs)

  /** The items of some discrepancies: one for each that raises no objection. */
  ghost predicate ItemsOf(items: seq<Item>, a: Assessment, some: seq<Discrepancy>) {
    && (forall it :: it in items ==> IsItem(it, a, some))
    && (forall d :: d in some && ReasonsAgainst(a.local, a.broker, d) == {} ==> exists it :: it in items && it.d == d)
    && (forall i, j :: 0 <= i < j < |items| ==> items[i].d != items[j].d)
  }

  ghost predicate IsItem(it: Item, a: Assessment, some: seq<Discrepancy>) {
    && it.d in some && ReasonsAgainst(a.local, a.broker, it.d) == {}
    && Subject(a.local, it.d) == Some(it.order)
    && ProjectedOrder(it.order, it.observation) == Projected(a.local, a.broker, it.d)
  }

  function Against(local: LocalSnapshot, broker: BrokerSnapshot, some: seq<Discrepancy>): set<Reason> {
    set d, r | d in some && r in ReasonsAgainst(local, broker, d) :: r
  }

  function Refused(local: LocalSnapshot, broker: BrokerSnapshot, some: seq<Discrepancy>): set<Discrepancy> {
    set d | d in some && ReasonsAgainst(local, broker, d) != {}
  }

  lemma AgainstNone(local: LocalSnapshot, broker: BrokerSnapshot, some: seq<Discrepancy>)
    ensures Against(local, broker, some) == {} <==> forall d :: d in some ==> ReasonsAgainst(local, broker, d) == {}
    ensures Against(local, broker, some) == {} <==> Refused(local, broker, some) == {}
  {
    forall d | d in some && ReasonsAgainst(local, broker, d) != {}
      ensures Against(local, broker, some) != {} && Refused(local, broker, some) != {}
    {
      var r :| r in ReasonsAgainst(local, broker, d);
      assert r in Against(local, broker, some) && d in Refused(local, broker, some);
    }
  }

  lemma AgainstStep(local: LocalSnapshot, broker: BrokerSnapshot, some: seq<Discrepancy>, d: Discrepancy)
    ensures Against(local, broker, some + [d]) == Against(local, broker, some) + ReasonsAgainst(local, broker, d)
    ensures Refused(local, broker, some + [d])
            == Refused(local, broker, some) + if ReasonsAgainst(local, broker, d) == {} then {} else {d}
  {
  }

  /** The client ids that have been asked about so far. */
  function Asked(local: LocalSnapshot, some: seq<Discrepancy>): set<Id> {
    set d | d in some && Subject(local, d).Some? :: d.clientOrderId.value
  }

  /** A missing correlation under a client id is the one pending order of that id. */
  lemma PendingOnce(a: Assessment, d: Discrepancy)
    requires a.local.UniqueOrderIds() && d in Discrepancies(a.local, a.broker)
    requires d.kind.CorrelationMissing? && d.clientOrderId.Some?
    ensures d in PendingIssues(a.local.orders)
    ensures Subject(a.local, d).Some? && Subject(a.local, d).value.pending.Some?
    ensures d.instrumentId == Subject(a.local, d).value.intent.instrumentId
  {
    OnlyPendingIsCorrelated(a.local, a.broker, d);
    var o :| o in a.local.orders && o.pending.Some? && d == Issue(CorrelationMissing, o.intent.instrumentId, Some(o.intent.clientOrderId));
    OrderIsFound(a.local, o);
  }

  lemma OnlyPendingIsCorrelated(local: LocalSnapshot, broker: BrokerSnapshot, d: Discrepancy)
    requires d in Discrepancies(local, broker) && d.kind.CorrelationMissing? && d.clientOrderId.Some?
    ensures d in PendingIssues(local.orders)
  {
    NeverACorrelatedClient(local, broker);
  }

  /** Only the pending phase reports a missing correlation under a client id. */
  lemma NeverACorrelatedClient(local: LocalSnapshot, broker: BrokerSnapshot)
    ensures forall d, b, c :: d in OpenIssues(local, b, c) ==> !(d.kind.CorrelationMissing? && d.clientOrderId.Some?)
    ensures forall d, f, e :: d in FillIssues(local, f, e) ==> !(d.kind.CorrelationMissing? && d.clientOrderId.Some?)
    ensures forall d :: d in AllPositionIssues(local, broker) ==> !d.kind.CorrelationMissing?
  {
  }

  /** No client id is asked about twice, so the source's guard against it never fires. */
  lemma NotAskedBefore(a: Assessment, some: seq<Discrepancy>, d: Discrepancy)
    requires a.local.UniqueOrderIds() && d !in some
    requires d in Discrepancies(a.local, a.broker) && forall e :: e in some ==> e in Discrepancies(a.local, a.broker)
    requires Subject(a.local, d).Some?
    ensures d.clientOrderId.value !in Asked(a.local, some)
  {
    PendingOnce(a, d);
    forall e | e in some && Subject(a.local, e).Some? ensures e.clientOrderId != d.clientOrderId {
      PendingOnce(a, e);
      assert e.clientOrderId == d.clientOrderId ==> e == d by {
        PlainPending(a.local.orders, d);
        PlainPending(a.local.orders, e);
      }
    }
  }

  lemma PlainPending(orders: seq<LiveOrder>, d: Discrepancy)
    requires d in PendingIssues(orders)
    ensures d == Issue(CorrelationMissing, d.instrumentId, d.clientOrderId)
  {
  }

  /** The plan for an assessment: its disposition, and the objections or the projected orders that go with it. */
  ghost predicate PlanFollows(plan: Plan, a: Assessment, less: Ordering) {
    && plan.accountId == a.local.accountId && plan.snapshotId == a.broker.snapshotId
    && plan.expectedJournalSequence == a.local.journalSequence
    && (plan.disposition.NotAuthoritative? <==> !(Authentic(a, less) && Authoritative(a)))
    && (plan.disposition.NotAuthoritative? ==>
          plan.reasons == if Authentic(a, less) then AuthorityReasons(a.result.status) else {AssessmentMismatch})
    && (plan.disposition.NoChangeNeeded? <==>
          Authentic(a, less) && Authoritative(a) && a.result.discrepancies == [] && a.local.blockers == [])
    && (plan.disposition.Ready? <==> Projectable(a, less))
    && (plan.disposition.Ready? ==>
          && (plan.consumed == set d | d in a.result.discrepancies)
          && (forall p :: p in plan.orders <==> IsProjection(a, p)))
    && (plan.disposition.Unsupported? && a.result.discrepancies != [] ==>
          && plan.unsupported == Refused(a.local, a.broker, a.result.discrepancies)
          && plan.reasons == Against(a.local, a.broker, a.result.discrepancies))
    && (plan.disposition.Unsupported? && a.result.discrepancies == [] ==>
          plan.unsupported == {} && plan.reasons == {UnsupportedDiscrepancy})
  }

  /** None stands for the ValueError of a recomputation whose sums leave their bounds. */
  method ProjectAuthoritativeOrders(a: Assessment, less: Ordering, idLess: IdOrder, fits: SumCheck) returns (plan: Option<Plan>)
    requires TotalOrder(less) && TotalIdOrder(idLess) && ChecksSums(fits)
    requires a.local.Valid() && a.broker.Valid() && Timely(a.local, a.broker, a.result.reconciledAt)
    ensures plan.Some? <==> Summable(a.local.attributions)
    ensures plan.Some? ==> plan.value.Valid(idLess) && PlanFollows(plan.value, a, less)
  {
    var recomputed := AssessReconciliation(a.local, a.broker, a.result.reconciledAt, less, fits);
    if recomputed.None? {
      return None;
    }
    RecomputedIsAuthentic(a, recomputed.value, less);
    if recomputed != Some(a) {
      return Some(Empty(a, NotAuthoritative, {AssessmentMismatch}, {}));
    }
    if !Authoritative(a) {
      return Some(Empty(a, NotAuthoritative, AuthorityReasons(a.result.status), {}));
    }
    if a.result.discrepancies == [] {
      if a.local.blockers != [] {
        return Some(Empty(a, Unsupported, {UnsupportedDiscrepancy}, {}));
      }
      return Some(Empty(a, NoChangeNeeded, {}, {}));
    }
    var planned := PlanProjection(a, less, idLess);
    plan := Some(planned);
  }

  method PlanProjection(a: Assessment, less: Ordering, idLess: IdOrder) returns (plan: Plan)
    requires TotalOrder(less) && TotalIdOrder(idLess) && a.local.Valid()
    requires Authentic(a, less) && Authoritative(a) && a.result.discrepancies != []
    ensures plan.Valid(idLess) && PlanFollows(plan, a, less)
  {
    AuthenticSubjects(a, less);
    var g := Examine(a);
    AgainstNone(a.local, a.broker, a.result.discrepancies);
    if g.reasons != {} {
      return Empty(a, Unsupported, g.reasons, g.unsupported);
    }
    DistinctItemIds(a, g.items, less);
    ProjectionsAreValid(a);
    plan := Assemble(a, g.items, idLess);
  }

  lemma RecomputedIsAuthentic(a: Assessment, b: Assessment, less: Ordering)
    requires TotalOrder(less) && b.local == a.local && b.broker == a.broker && Authentic(b, less)
    requires b.result.reconciledAt == a.result.reconciledAt
    ensures a == b <==> Authentic(a, less)
  {
    if Authentic(a, less) {
      ListingIsUnique(a.result.discrepancies, b.result.discrepancies, Discrepancies(a.local, a.broker), less);
    }
  }

  ghost predicate GroupedOpen(byId: map<Id, seq<OpenObs>>, open: seq<OpenObs>) {
    forall id :: OpenFor(open, id) == if id in byId then byId[id] else []
  }

  method GroupOpen(open: seq<OpenObs>) returns (byId: map<Id, seq<OpenObs>>)
    ensures GroupedOpen(byId, open)
  {
    byId := map[];
    for k := 0 to |open|
      invariant GroupedOpen(byId, open[..k])
    {
      var id := open[k].correlation.clientOrderId;
      assert open[..k + 1] == open[..k] + [open[k]];
      ghost var before := byId;
      if id.Some? {
        byId := byId[id.value := (if id.value in byId then byId[id.value] else []) + [open[k]]];
      }
      GroupedOpenStep(before, byId, open[..k], open[k]);
    }
    assert open[..|open|] == open;
  }

  lemma GroupedOpenStep(before: map<Id, seq<OpenObs>>, after: map<Id, seq<OpenObs>>, open: seq<OpenObs>, b: OpenObs)
    requires GroupedOpen(before, open)
    requires after == match b.correlation.clientOrderId
                      case Some(id) => before[id := (if id in before then before[id] else []) + [b]]
                      case None => before
    ensures GroupedOpen(after, open + [b])
  {
    forall id ensures OpenFor(open + [b], id) == if id in after then after[id] else [] {
      OpenForStep(open, b, id);
    }
  }

  lemma {:induction false} OpenForStep(open: seq<OpenObs>, b: OpenObs, id: Id)
    ensures OpenFor(open + [b], id) == OpenFor(open, id) + if b.correlation.clientOrderId == Some(id) then [b] else []
  {
    if open == [] {
      assert open + [b] == [b];
    } else {
      OpenForStep(open[1..], b, id);
      assert (open + [b])[1..] == open[1..] + [b];
    }
  }

  ghost predicate GroupedFills(byId: map<Id, seq<FillObs>>, fills: seq<FillObs>) {
    forall id :: FillsFor(fills, id) == if id in byId then byId[id] else []
  }

  method GroupFills(fills: seq<FillObs>) returns (byId: map<Id, seq<FillObs>>)
    ensures GroupedFills(byId, fills)
  {
    byId := map[];
    for k := 0 to |fills|
      invariant GroupedFills(byId, fills[..k])
    {
      var id := fills[k].correlation.clientOrderId;
      assert fills[..k + 1] == fills[..k] + [fills[k]];
      ghost var before := byId;
      if id.Some? {
        byId := byId[id.value := (if id.value in byId then byId[id.value] else []) + [fills[k]]];
      }
      GroupedFillsStep(before, byId, fills[..k], fills[k]);
    }
    assert fills[..|fills|] == fills;
  }

  lemma GroupedFillsStep(before: map<Id, seq<FillObs>>, after: map<Id, seq<FillObs>>, fills: seq<FillObs>, f: FillObs)
    requires GroupedFills(before, fills)
    requires after == match f.correlation.clientOrderId
                      case Some(id) => before[id := (if id in before then before[id] else []) + [f]]
                      case None => before
    ensures GroupedFills(after, fills + [f])
  {
    forall id ensures FillsFor(fills + [f], id) == if id in after then after[id] else [] {
      FillsForStep(fills, f, id);
    }
  }

  lemma {:induction false} FillsForStep(fills: seq<FillObs>, f: FillObs, id: Id)
    ensures FillsFor(fills + [f], id) == FillsFor(fills, id) + if f.correlation.clientOrderId == Some(id) then [f] else []
  {
    if fills == [] {
      assert fills + [f] == [f];
    } else {
      FillsForStep(fills[1..], f, id);
      assert (fills + [f])[1..] == fills[1..] + [f];
    }
  }

  /** What the loop over the discrepancies has gathered. */
  datatype Gathering = Gathering(items: seq<Item>, unsupported: set<Discrepancy>, reasons: set<Reason>, seen: set<Id>)

  ghost predicate Examined(g: Gathering, a: Assessment, some: seq<Discrepancy>) {
    && ItemsOf(g.items, a, some)
    && g.unsupported == Refused(a.local, a.broker, some)
    && g.reasons == Against(a.local, a.broker, some)
    && g.seen == Asked(a.local, some)
  }

  method Examine(a: Assessment) returns (g: Gathering)
    requires DistinctSubjects(a.local, a.result.discrepancies)
    ensures Examined(g, a, a.result.discrepancies)
  {
    var open := GroupOpen(a.broker.open);
    var fills := GroupFills(a.broker.fills);
    var ds := a.result.discrepancies;
    g := Gathering([], {}, {}, {});
    for k := 0 to |ds|
      invariant Examined(g, a, ds[..k])
    {
      assert ds[..k + 1] == ds[..k] + [ds[k]];
      g := ExamineOne(a, ds[..k], ds[k], g, open, fills);
    }
    assert ds[..|ds|] == ds;
  }

  method ExamineOne(a: Assessment, ghost some: seq<Discrepancy>, d: Discrepancy, before: Gathering,
                    open: map<Id, seq<OpenObs>>, fills: map<Id, seq<FillObs>>) returns (g: Gathering)
    requires Examined(before, a, some) && d !in some
    requires Subject(a.local, d).Some? ==> d.clientOrderId.value !in before.seen
    requires GroupedOpen(open, a.broker.open) && GroupedFills(fills, a.broker.fills)
    ensures Examined(g, a, some + [d])
  {
    var against, item := Weigh(a, d, before.seen, open, fills);
    g := Gathering(before.items + item,
                   before.unsupported + (if against != {} then {d} else {}),
                   before.reasons + against,
                   before.seen + if Subject(a.local, d).Some? then {d.clientOrderId.value} else {});
    ExaminedStep(before, g, a, some, d, item);
  }

  lemma ExaminedStep(before: Gathering, g: Gathering, a: Assessment, some: seq<Discrepancy>, d: Discrepancy, item: seq<Item>)
    requires Examined(before, a, some) && d !in some
    requires if ReasonsAgainst(a.local, a.broker, d) == {} then |item| == 1 && IsItem(item[0], a, [d]) else item == []
    requires g == Gathering(before.items + item,
                            before.unsupported + (if ReasonsAgainst(a.local, a.broker, d) != {} then {d} else {}),
                            before.reasons + ReasonsAgainst(a.local, a.broker, d),
                            before.seen + if Subject(a.local, d).Some? then {d.clientOrderId.value} else {})
    ensures Examined(g, a, some + [d])
  {
    AgainstStep(a.local, a.broker, some, d);
    AskedStep(a.local, some, d);
    ItemsStep(before.items, g.items, a, some, d);
  }

  /** No discrepancy repeats, and no client id is asked about twice. */
  ghost predicate DistinctSubjects(local: LocalSnapshot, ds: seq<Discrepancy>) {
    forall k :: 0 <= k < |ds| ==> ds[k] !in ds[..k] && (Subject(local, ds[k]).Some? ==> ds[k].clientOrderId.value !in Asked(local, ds[..k]))
  }

  lemma AuthenticSubjects(a: Assessment, less: Ordering)
    requires TotalOrder(less) && a.local.UniqueOrderIds() && Authentic(a, less)
    ensures DistinctSubjects(a.local, a.result.discrepancies)
  {
    var ds := a.result.discrepancies;
    forall k | 0 <= k < |ds|
      ensures ds[k] !in ds[..k] && (Subject(a.local, ds[k]).Some? ==> ds[k].clientOrderId.value !in Asked(a.local, ds[..k]))
    {
      assert ds[k] in ds && forall e :: e in ds[..k] ==> e in ds;
      if Subject(a.local, ds[k]).Some? {
        NotAskedBefore(a, ds[..k], ds[k]);
      }
    }
  }

  lemma AskedStep(local: LocalSnapshot, some: seq<Discrepancy>, d: Discrepancy)
    ensures Asked(local, some + [d]) == Asked(local, some) + if Subject(local, d).Some? then {d.clientOrderId.value} else {}
  {
  }

  /** One discrepancy: what speaks against projecting it, and its item when nothing does. */
  method Weigh(a: Assessment, d: Discrepancy, seen: set<Id>, open: map<Id, seq<OpenObs>>, fills: map<Id, seq<FillObs>>)
    returns (against: set<Reason>, item: seq<Item>)
    requires Subject(a.local, d).Some? ==> d.clientOrderId.value !in seen
    requires GroupedOpen(open, a.broker.open) && GroupedFills(fills, a.broker.fills)
    ensures against == ReasonsAgainst(a.local, a.broker, d)
    ensures if against == {} then |item| == 1 && IsItem(item[0], a, [d]) else item == []
  {
    item := [];
    var order := Subject(a.local, d);
    if order.None? {
      return {UnsupportedDiscrepancy}, [];
    }
    var id := d.clientOrderId.value;
    if id in seen {
      return {UnsupportedDiscrepancy}, [];
    }
    var matches := if id in open then open[id] else [];
    var correlated := if id in fills then fills[id] else [];
    assert matches == OpenFor(a.broker.open, id) && correlated == FillsFor(a.broker.fills, id);
    against := LocalReasons(order.value) + BrokerReasons(order.value, matches, correlated, a.local.asOf);
    if against == {} {
      NoReasons(a.local, a.broker, d);
      item := [Item(d, order.value, matches[0])];
    }
  }

  lemma ItemsStep(before: seq<Item>, after: seq<Item>, a: Assessment, some: seq<Discrepancy>, d: Discrepancy)
    requires ItemsOf(before, a, some) && d !in some
    requires after == before || (|after| == |before| + 1 && after == before + [after[|before|]])
    requires if ReasonsAgainst(a.local, a.broker, d) == {}
             then |after| > |before| && IsItem(after[|before|], a, [d])
             else after == before
    ensures ItemsOf(after, a, some + [d])
  {
    forall e | e in some + [d] && ReasonsAgainst(a.local, a.broker, e) == {} ensures exists it :: it in after && it.d == e {
      if e == d {
        assert after[|before|] in after;
      } else {
        var it :| it in before && it.d == e;
        assert it in after;
      }
    }
    forall i | 0 <= i < |before| ensures before[i].d in some {
      assert before[i] in before;
    }
    forall it | it in after ensures IsItem(it, a, some + [d]) {
      assert it in before || it == after[|before|];
    }
  }

  // ---- Assembling a ready plan ------------------------------------------------------

  function ItemId(it: Item): Id {
    it.order.intent.clientOrderId
  }

  ghost predicate SortedItems(items: seq<Item>, idLess: IdOrder) {
    forall i, j :: 0 <= i < j < |items| ==> idLess(ItemId(items[i]), ItemId(items[j]))
  }

  method SortItems(items: seq<Item>, idLess: IdOrder) returns (sorted: seq<Item>)
    requires TotalIdOrder(idLess) && forall i, j :: 0 <= i < j < |items| ==> ItemId(items[i]) != ItemId(items[j])
    ensures SortedItems(sorted, idLess) && |sorted| == |items| && forall it :: it in sorted <==> it in items
  {
    sorted := [];
    for k := 0 to |items|
      invariant SortedItems(sorted, idLess) && |sorted| == k
      invariant forall it :: it in sorted <==> it in items[..k]
    {
      var p := 0;
      while p < k && idLess(ItemId(sorted[p]), ItemId(items[k]))
        invariant p <= k && forall i :: 0 <= i < p ==> idLess(ItemId(sorted[i]), ItemId(items[k]))
      {
        p := p + 1;
      }
      assert items[..k + 1] == items[..k] + [items[k]];
      forall i | p <= i < k ensures idLess(ItemId(items[k]), ItemId(sorted[i])) {
        assert sorted[i] in items[..k] && sorted[p] in items[..k];
      }
      InsertedItems(sorted, p, items[k], idLess);
      sorted := sorted[..p] + [items[k]] + sorted[p..];
    }
    assert items[..|items|] == items;
  }

  lemma InsertedItems(sorted: seq<Item>, p: nat, it: Item, idLess: IdOrder)
    requires p <= |sorted| && SortedItems(sorted, idLess)
    requires forall i :: 0 <= i < p ==> idLess(ItemId(sorted[i]), ItemId(it))
    requires forall i :: p <= i < |sorted| ==> idLess(ItemId(it), ItemId(sorted[i]))
    ensures SortedItems(sorted[..p] + [it] + sorted[p..], idLess)
    ensures forall x :: x in sorted[..p] + [it] + sorted[p..] <==> x in sorted || x == it
  {
    var after := sorted[..p] + [it] + sorted[p..];
    forall x ensures x in after <==> x in sorted || x == it {
      assert sorted == sorted[..p] + sorted[p..];
    }
    forall i, j | 0 <= i < j < |after| ensures idLess(ItemId(after[i]), ItemId(after[j])) {
      InsertedPlace(sorted, p, it, i);
      InsertedPlace(sorted, p, it, j);
    }
  }

  lemma InsertedPlace(sorted: seq<Item>, p: nat, it: Item, i: nat)
    requires p <= |sorted| && i <= |sorted|
    ensures (sorted[..p] + [it] + sorted[p..])[i] == if i < p then sorted[i] else if i == p then it else sorted[i - 1]
  {
  }

  lemma DistinctItemIds(a: Assessment, items: seq<Item>, less: Ordering)
    requires a.local.UniqueOrderIds() && Authentic(a, less) && ItemsOf(items, a, a.result.discrepancies)
    ensures forall i, j :: 0 <= i < j < |items| ==> ItemId(items[i]) != ItemId(items[j])
  {
    forall i, j | 0 <= i < j < |items| ensures ItemId(items[i]) != ItemId(items[j]) {
      assert items[i] in items && items[j] in items;
      SubjectIds(a.local, items[i].d);
      SubjectIds(a.local, items[j].d);
      assert items[i].d in a.result.discrepancies && items[j].d in a.result.discrepancies;
      OneSubjectEach(a, items[i].d, items[j].d);
    }
  }

  lemma SubjectIds(local: LocalSnapshot, d: Discrepancy)
    requires Subject(local, d).Some?
    ensures d.clientOrderId == Some(Subject(local, d).value.intent.clientOrderId)
  {
    FoundOrder(local.orders, d.clientOrderId.value);
  }

  lemma OneSubjectEach(a: Assessment, d: Discrepancy, e: Discrepancy)
    requires a.local.UniqueOrderIds() && d in Discrepancies(a.local, a.broker) && e in Discrepancies(a.local, a.broker)
    requires d != e && Subject(a.local, d).Some? && Subject(a.local, e).Some?
    ensures d.clientOrderId != e.clientOrderId
  {
    NotAskedBefore(a, [e], d);
    assert e in [e];
  }

  lemma ProjectionsAreValid(a: Assessment)
    requires a.local.Valid()
    ensures forall p :: IsProjection(a, p) ==> p.Valid() && p.intent.accountId == a.local.accountId
  {
    forall p | IsProjection(a, p) ensures p.Valid() && p.intent.accountId == a.local.accountId {
      var d :| d in a.result.discrepancies && ReasonsAgainst(a.local, a.broker, d) == {} && p == Projected(a.local, a.broker, d);
      ProjectedIsValid(a, d);
    }
  }

  lemma ProjectedIsValid(a: Assessment, d: Discrepancy)
    requires a.local.Valid() && ReasonsAgainst(a.local, a.broker, d) == {}
    ensures Projected(a.local, a.broker, d).Valid()
    ensures Projected(a.local, a.broker, d).intent.accountId == a.local.accountId
  {
    NoReasons(a.local, a.broker, d);
    FoundOrder(a.local.orders, d.clientOrderId.value);
    var o, b := Subject(a.local, d).value, OpenFor(a.broker.open, d.clientOrderId.value)[0];
    AcceptedIsValid(o, b);
  }

  lemma AcceptedIsValid(o: LiveOrder, b: OpenObs)
    requires o.Valid() && LocalReasons(o) == {}
    ensures ProjectedOrder(o, b).Valid()
  {
    Untouched(o);
  }

  lemma Untouched(o: LiveOrder)
    requires LocalReasons(o) == {}
    ensures o.state in {SubmissionUnknown, Reconciling} && o.acceptedAt.None? && o.filled == 0.0 && o.remaining == o.total
    ensures o.average.None? && o.pending.Some? && o.pending.value.New?
  {
    assert UnsupportedLocalState !in LocalReasons(o) && UnsupportedCommand !in LocalReasons(o);
  }

  method Assemble(a: Assessment, items: seq<Item>, idLess: IdOrder) returns (plan: Plan)
    requires TotalIdOrder(idLess) && forall i, j :: 0 <= i < j < |items| ==> ItemId(items[i]) != ItemId(items[j])
    requires forall p :: IsProjection(a, p) ==> p.Valid() && p.intent.accountId == a.local.accountId
    requires ItemsOf(items, a, a.result.discrepancies) && a.result.discrepancies != []
    requires forall d :: d in a.result.discrepancies ==> ReasonsAgainst(a.local, a.broker, d) == {}
    ensures plan.Valid(idLess)
    ensures plan == Plan(a.local.accountId, a.broker.snapshotId, a.local.journalSequence, Ready,
                         plan.versions, plan.orders, set d | d in a.result.discrepancies, {}, {})
    ensures forall p :: p in plan.orders <==> IsProjection(a, p)
  {
    var sorted := SortItems(items, idLess);
    var versions, orders := Columns(sorted, idLess);
    OrdersAreProjections(a, sorted, items, orders);
    var consumed := Consumed(a, sorted, items);
    plan := Plan(a.local.accountId, a.broker.snapshotId, a.local.journalSequence, Ready, versions, orders, consumed, {}, {});
    ReadyPlanIsValid(plan, idLess);
  }

  lemma ReadyPlanIsValid(plan: Plan, idLess: IdOrder)
    requires plan.disposition.Ready? && plan.unsupported == {} && plan.reasons == {}
    requires plan.orders != [] && plan.consumed != {} && AscendingIds(plan.orders, idLess) && |plan.versions| == |plan.orders|
    requires forall o :: o in plan.orders ==> o.Valid() && o.intent.accountId == plan.accountId
    requires forall i :: 0 <= i < |plan.orders| ==>
               plan.versions[i] == ExpectedVersion(plan.orders[i].intent.clientOrderId, plan.orders[i].version - 1)
    ensures plan.Valid(idLess)
  {
  }

  method Columns(sorted: seq<Item>, idLess: IdOrder) returns (versions: seq<ExpectedVersion>, orders: seq<LiveOrder>)
    requires SortedItems(sorted, idLess)
    ensures |versions| == |orders| == |sorted| && AscendingIds(orders, idLess)
    ensures forall i :: 0 <= i < |orders| ==>
              && orders[i] == ProjectedOrder(sorted[i].order, sorted[i].observation)
              && versions[i] == ExpectedVersion(orders[i].intent.clientOrderId, orders[i].version - 1)
  {
    versions := seq(|sorted|, i requires 0 <= i < |sorted| => ExpectedVersion(ItemId(sorted[i]), sorted[i].order.version));
    orders := seq(|sorted|, i requires 0 <= i < |sorted| => ProjectedOrder(sorted[i].order, sorted[i].observation));
  }

  ghost predicate IsProjection(a: Assessment, p: LiveOrder) {
    exists d :: d in a.result.discrepancies && ReasonsAgainst(a.local, a.broker, d) == {} && p == Projected(a.local, a.broker, d)
  }

  method Consumed(a: Assessment, sorted: seq<Item>, ghost items: seq<Item>) returns (consumed: set<Discrepancy>)
    requires ItemsOf(items, a, a.result.discrepancies) && forall it :: it in sorted <==> it in items
    requires forall d :: d in a.result.discrepancies ==> ReasonsAgainst(a.local, a.broker, d) == {}
    requires a.result.discrepancies != []
    ensures consumed == set d | d in a.result.discrepancies
    ensures consumed != {} && sorted != []
  {
    consumed := set it | it in sorted :: it.d;
    forall d | d in a.result.discrepancies ensures d in consumed {
      var it :| it in items && it.d == d;
      assert it in sorted;
    }
    assert a.result.discrepancies[0] in consumed;
  }

  lemma OrdersAreProjections(a: Assessment, sorted: seq<Item>, items: seq<Item>, orders: seq<LiveOrder>)
    requires ItemsOf(items, a, a.result.discrepancies) && forall it :: it in sorted <==> it in items
    requires |orders| == |sorted|
    requires forall i :: 0 <= i < |orders| ==> orders[i] == ProjectedOrder(sorted[i].order, sorted[i].observation)
    ensures forall p :: p in orders <==> IsProjection(a, p)
  {
    forall p | p in orders ensures IsProjection(a, p) {
      var i :| 0 <= i < |orders| && orders[i] == p;
      assert sorted[i] in items;
    }
    forall p | IsProjection(a, p) ensures p in orders {
      var d :| d in a.result.discrepancies && ReasonsAgainst(a.local, a.broker, d) == {} && p == Projected(a.local, a.broker, d);
      var it :| it in items && it.d == d;
      var i :| 0 <= i < |sorted| && sorted[i] == it;
      assert orders[i] == p;
    }
  }
}
