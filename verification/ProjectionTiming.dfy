/**
 * When the commit of a ready projection can be assessed again against the
 * evidence it came from: a projected order carries the time at which the broker
 * was seen to hold it, which the other two evidence sets need not have reached.
 */
module ProjectionTiming {
  import opened Wrappers
  import opened LiveContracts
  import opened Sums
  import opened ReconciliationContracts
  import opened Dedupe
  import opened Reconciliation
  import opened Projection
  import opened ProjectionSafety

  // ---- When the committed snapshot can be assessed ------------------------------------------

  /** The committed snapshot passes its own checks and may be assessed against the same evidence. */
  ghost predicate Reassessable(a: Assessment, asOf: Time, at: Time) {
    AfterCommit(a, asOf).Valid() && Assessable(AfterCommit(a, asOf), a.broker, at)
  }

  /** No projected order is newer than this time. */
  ghost predicate ProjectedBy(a: Assessment, limit: Time) {
    forall o :: o in a.local.orders && o.pending.Some? ==> Committed(a, o).updatedAt <= limit
  }

  lemma CommittedOrder(a: Assessment, less: Ordering, o: LiveOrder)
    requires a.local.Valid() && Projectable(a, less) && o in a.local.orders
    ensures Committed(a, o).Valid() && Committed(a, o).intent == o.intent && Committed(a, o).filled == o.filled
    ensures o.pending.None? ==> Committed(a, o) == o
    ensures o.pending.Some? ==> exists b :: b in a.broker.open && Committed(a, o).updatedAt == b.observedAt
  {
    if o.pending.Some? {
      CommitFollowsPlan(a, less, o);
      var shown := OpenFor(a.broker.open, o.intent.clientOrderId)[0];
      assert shown in OpenFor(a.broker.open, o.intent.clientOrderId);
      AcceptedIsValid(o, shown);
    }
  }

  /** The committed orders as a list: same length, same ids, same filled quantities. */
  lemma CommittedAt(a: Assessment, less: Ordering)
    requires a.local.Valid() && Projectable(a, less)
    ensures var after := CommittedOrders(a, a.local.orders);
            && |after| == |a.local.orders|
            && (forall i :: 0 <= i < |after| ==>
                  && after[i].intent == a.local.orders[i].intent && after[i].filled == a.local.orders[i].filled
                  && after[i].Valid() && after[i] == Committed(a, a.local.orders[i]))
  {
    forall i | 0 <= i < |a.local.orders|
      ensures Committed(a, a.local.orders[i]).intent == a.local.orders[i].intent
      ensures Committed(a, a.local.orders[i]).filled == a.local.orders[i].filled && Committed(a, a.local.orders[i]).Valid()
    {
      CommittedOrder(a, less, a.local.orders[i]);
    }
  }

  /** The same orders under the same ids, with the same fills booked, seen no earlier. */
  ghost predicate SameBooks(before: LocalSnapshot, after: LocalSnapshot) {
    && after == before.(orders := after.orders, asOf := after.asOf) && |after.orders| == |before.orders|
    && forall i :: 0 <= i < |after.orders| ==>
         && after.orders[i].intent == before.orders[i].intent && after.orders[i].filled == before.orders[i].filled
         && after.orders[i].Valid()
  }

  lemma BooksStayValid(before: LocalSnapshot, after: LocalSnapshot)
    requires before.Valid() && SameBooks(before, after) && before.asOf <= after.asOf
    requires forall o :: o in after.orders ==> o.updatedAt <= after.asOf
    ensures after.Valid()
  {
    OrdersStayBooked(before, after);
    FillsStayBooked(before, after);
    AttributionsStay(before, after);
    NothingPostdates(before, after);
  }

  lemma NothingPostdates(before: LocalSnapshot, after: LocalSnapshot)
    requires before.Valid() && SameBooks(before, after) && before.asOf <= after.asOf
    ensures forall f :: f in after.fills ==> f.accountId == after.accountId && f.occurredAt <= after.asOf && f.quantity > 0.0
    ensures forall a :: a in after.attributions ==> a.accountId == after.accountId && a.asOf <= after.asOf
    ensures after.UniqueOrderIds() && after.UniqueFillIds() && after.UniqueAttributions()
  {
  }

  lemma OrdersStayBooked(before: LocalSnapshot, after: LocalSnapshot)
    requires before.Valid() && SameBooks(before, after)
    ensures forall o :: o in after.orders ==> o.Valid() && o.intent.accountId == after.accountId
    ensures forall o :: o in after.orders ==> Sum(FillQuantity, FillsOf(after.fills, o.intent.clientOrderId)) == o.filled
  {
    forall o | o in after.orders
      ensures o.Valid() && o.intent.accountId == after.accountId
      ensures Sum(FillQuantity, FillsOf(after.fills, o.intent.clientOrderId)) == o.filled
    {
      var i :| 0 <= i < |after.orders| && after.orders[i] == o;
      assert before.orders[i] in before.orders;
    }
  }

  lemma AttributionsStay(before: LocalSnapshot, after: LocalSnapshot)
    requires before.Valid() && SameBooks(before, after)
    ensures forall a :: a in after.attributions ==> a.quantity == after.Projected(a.strategyId, a.instrumentId) && a.quantity != 0.0
    ensures forall f :: f in after.fills && after.Projected(f.strategyId, f.instrumentId) != 0.0 ==>
              exists a :: a in after.attributions && a.strategyId == f.strategyId && a.instrumentId == f.instrumentId
  {
    assert forall s, i :: after.Projected(s, i) == before.Projected(s, i);
  }

  lemma FillsStayBooked(before: LocalSnapshot, after: LocalSnapshot)
    requires SameBooks(before, after)
    requires forall f :: f in before.fills ==> exists o :: o in before.orders && Books(o, f)
    ensures forall f :: f in after.fills ==> exists o :: o in after.orders && Books(o, f)
  {
    forall f | f in after.fills ensures exists o :: o in after.orders && Books(o, f) {
      var o :| o in before.orders && Books(o, f);
      var i :| 0 <= i < |before.orders| && before.orders[i] == o;
      assert after.orders[i] in after.orders && Books(after.orders[i], f);
    }
  }

  /** A snapshot of the committed orders is valid from the moment of the newest projected order on. */
  lemma CommittedIsValid(a: Assessment, less: Ordering, asOf: Time)
    requires a.local.Valid() && Projectable(a, less)
    ensures AfterCommit(a, asOf).Valid() ==> ProjectedBy(a, asOf)
    ensures a.local.asOf <= asOf && ProjectedBy(a, asOf) ==> AfterCommit(a, asOf).Valid()
  {
    CommittedAt(a, less);
    if AfterCommit(a, asOf).Valid() {
      ValidMeansProjectedBy(a, AfterCommit(a, asOf), asOf);
    }
    if a.local.asOf <= asOf && ProjectedBy(a, asOf) {
      assert SameBooks(a.local, AfterCommit(a, asOf));
      forall o | o in AfterCommit(a, asOf).orders ensures o.updatedAt <= asOf {
        var i :| 0 <= i < |a.local.orders| && AfterCommit(a, asOf).orders[i] == o;
        CommittedOrder(a, less, a.local.orders[i]);
      }
      BooksStayValid(a.local, AfterCommit(a, asOf));
    }
  }

  lemma ValidMeansProjectedBy(a: Assessment, after: LocalSnapshot, asOf: Time)
    requires after.orders == CommittedOrders(a, a.local.orders) && forall o :: o in after.orders ==> o.updatedAt <= asOf
    ensures ProjectedBy(a, asOf)
  {
    forall o | o in a.local.orders && o.pending.Some? ensures Committed(a, o).updatedAt <= asOf {
      var i :| 0 <= i < |a.local.orders| && a.local.orders[i] == o;
      assert after.orders[i] in after.orders;
    }
  }

  /** At a given time the committed snapshot can be assessed exactly when it is neither too old for the orders nor too new for the evidence. */
  lemma ReassessableExactly(a: Assessment, less: Ordering, asOf: Time, at: Time)
    requires a.local.Valid() && Projectable(a, less) && Summable(a.local.attributions) && a.local.asOf <= asOf
    ensures Reassessable(a, asOf, at) <==> ProjectedBy(a, asOf) && Timely(AfterCommit(a, asOf), a.broker, at)
  {
    CommittedIsValid(a, less, asOf);
  }

  function MinInt3(a: int, b: int, c: int): int {
    if a <= b && a <= c then a else if b <= c then b else c
  }

  /**
   * The commit of a ready plan can be assessed against the evidence it came
   * from, at some time, if and only if no projected order is newer than the
   * fill evidence or the position evidence.
   */
  lemma CommitCanBeAssessed(a: Assessment, less: Ordering)
    requires a.local.Valid() && a.broker.Valid() && Projectable(a, less)
    requires Assessable(a.local, a.broker, a.result.reconciledAt)
    ensures (exists asOf, at :: Reassessable(a, asOf, at))
            <==> ProjectedBy(a, a.broker.fillEvidence.observedAt) && ProjectedBy(a, a.broker.positionEvidence.observedAt)
  {
    if exists asOf, at :: Reassessable(a, asOf, at) {
      var asOf, at :| Reassessable(a, asOf, at);
      ReassessedInTime(a, less, asOf, at);
    }
    if ProjectedBy(a, a.broker.fillEvidence.observedAt) && ProjectedBy(a, a.broker.positionEvidence.observedAt) {
      var asOf := ReassessableAtLeastEvidence(a, less);
      assert Reassessable(a, asOf, a.result.reconciledAt);
    }
  }

  lemma ReassessedInTime(a: Assessment, less: Ordering, asOf: Time, at: Time)
    requires a.local.Valid() && Projectable(a, less) && Reassessable(a, asOf, at)
    ensures ProjectedBy(a, a.broker.fillEvidence.observedAt) && ProjectedBy(a, a.broker.positionEvidence.observedAt)
  {
    CommittedIsValid(a, less, asOf);
    ProjectedLater(a, asOf, a.broker.fillEvidence.observedAt);
    ProjectedLater(a, asOf, a.broker.positionEvidence.observedAt);
  }

  /** The moment of the oldest evidence is a time at which the commit can be assessed. */
  lemma ReassessableAtLeastEvidence(a: Assessment, less: Ordering) returns (asOf: Time)
    requires a.local.Valid() && a.broker.Valid() && Projectable(a, less)
    requires Assessable(a.local, a.broker, a.result.reconciledAt)
    requires ProjectedBy(a, a.broker.fillEvidence.observedAt) && ProjectedBy(a, a.broker.positionEvidence.observedAt)
    ensures Reassessable(a, asOf, a.result.reconciledAt)
  {
    asOf := MinInt3(a.broker.openEvidence.observedAt, a.broker.fillEvidence.observedAt, a.broker.positionEvidence.observedAt);
    ProjectedByOpenEvidence(a, less);
    assert ProjectedBy(a, asOf);
    TimelyAgain(a, asOf, a.result.reconciledAt);
    ReassessableExactly(a, less, asOf, a.result.reconciledAt);
  }

  lemma TimelyAgain(a: Assessment, asOf: Time, at: Time)
    requires a.broker.Valid() && Timely(a.local, a.broker, at)
    requires asOf == MinInt3(a.broker.openEvidence.observedAt, a.broker.fillEvidence.observedAt, a.broker.positionEvidence.observedAt)
    ensures a.local.asOf <= asOf && Timely(AfterCommit(a, asOf), a.broker, at)
  {
  }

  lemma ProjectedLater(a: Assessment, limit: Time, later: Time)
    requires ProjectedBy(a, limit) && limit <= later
    ensures ProjectedBy(a, later)
  {
  }

  lemma ProjectedByOpenEvidence(a: Assessment, less: Ordering)
    requires a.local.Valid() && a.broker.Valid() && Projectable(a, less)
    ensures ProjectedBy(a, a.broker.openEvidence.observedAt)
  {
    forall o | o in a.local.orders && o.pending.Some? ensures Committed(a, o).updatedAt <= a.broker.openEvidence.observedAt {
      CommittedOrder(a, less, o);
    }
  }

  // ---- Evidence that is too old ---------------------------------------------------------------

  /** A new order whose outcome is unknown. */
  function Sent(intent: Intent, command: Id): LiveOrder {
    LiveOrder(intent, SubmissionUnknown, intent.quantity, 0.0, intent.quantity, None, intent.limitPrice, 4, intent.createdAt,
              None, Some(New(command, intent, intent.createdAt)))
  }

  /** The broker shows the order at a time of its own. */
  function Shown(intent: Intent, observation: Id, at: Time): OpenObs {
    OpenObs(observation, intent.accountId, intent.instrumentId, intent.side, intent.quantity, intent.quantity, intent.limitPrice,
            Correlation(Confirmed, Some(intent.clientOrderId), None, None, Some(observation), None, None, None, None, at), at)
  }

  /** Only the open orders were asked for again after the local snapshot; the other evidence is as old as the snapshot. */
  function Stale(intent: Intent, command: Id, observation: Id, at: Time): Assessment {
    var early := Evidence(Complete, intent.createdAt);
    Assessment(
      LocalSnapshot(intent.accountId, [Sent(intent, command)], [], [], intent.createdAt, [], 0),
      BrokerSnapshot(observation, intent.accountId, [Shown(intent, observation, at)], Evidence(Complete, at), [], early, [], early, at),
      Result(CompleteStatus, [PendingIssue(Sent(intent, command))], at))
  }

  lemma StaleIsValid(intent: Intent, command: Id, observation: Id, at: Time)
    requires intent.Valid() && intent.createdAt <= at
    ensures var a := Stale(intent, command, observation, at);
            a.local.Valid() && a.broker.Valid() && Assessable(a.local, a.broker, at)
  {
    var a := Stale(intent, command, observation, at);
    assert a.local.orders == [Sent(intent, command)] && Sent(intent, command).Valid();
  }

  lemma FirstSeenOne<T(!new)>(value: T, payload: T -> T)
    ensures FirstSeen([value], payload) == [value]
  {
    assert [value][..0] == [];
    assert FirstSeen([value], payload) == FirstSeen([value][..0], payload) + [value];
  }

  lemma StaleEvidence(intent: Intent, command: Id, observation: Id, at: Time)
    requires intent.Valid()
    ensures var k := Stale(intent, command, observation, at).broker;
            && OpenEvidence(k) == Evidenced([Shown(intent, observation, at)], {})
            && FillEvidence(k) == Evidenced([], {}) && PositionEvidence(k) == Evidenced([], {})
  {
    var k := Stale(intent, command, observation, at).broker;
    FirstSeenOne(Shown(intent, observation, at), OpenPayload);
    assert Consistent(k.open, OpenIdentities, OpenPayload);
    ConflictFree(k.open, OpenIdentities, OpenPayload);
    ConflictFree(k.fills, FillIdentities, FillPayload);
    ConflictFree(k.positions, PositionIdentities, PositionPayload);
  }

  lemma StaleDiscrepancies(intent: Intent, command: Id, observation: Id, at: Time)
    requires intent.Valid()
    ensures var a := Stale(intent, command, observation, at);
            && Discrepancies(a.local, a.broker) == {PendingIssue(Sent(intent, command))}
            && StatusOf(a.local, a.broker) == CompleteStatus
  {
    var a := Stale(intent, command, observation, at);
    StaleEvidence(intent, command, observation, at);
    var o, b := Sent(intent, command), Shown(intent, observation, at);
    assert a.local.orders == [o] && FindOrder(a.local.orders, intent.clientOrderId) == Some(o);
    assert OpenUsable(b, {}) && OpenIssues(a.local, b, {}) == {};
    assert OrderIssues(a.local, a.broker) == {PendingIssue(o)};
  }

  /**
   * The failing input: the plan is ready, but the committed snapshot cannot be
   * assessed against this evidence at any time, though it shows no discrepancy.
   */
  lemma StaleEvidenceStops(intent: Intent, command: Id, observation: Id, at: Time, less: Ordering)
    requires intent.Valid() && TotalOrder(less) && intent.createdAt < at
    ensures var a := Stale(intent, command, observation, at);
            && a.local.Valid() && a.broker.Valid() && Assessable(a.local, a.broker, at) && Projectable(a, less)
            && (forall asOf, later :: !Reassessable(a, asOf, later))
  {
    var a, o := Stale(intent, command, observation, at), Sent(intent, command);
    StaleIsValid(intent, command, observation, at);
    StaleIsReady(intent, command, observation, at, less);
    OneUnderId(a.broker.open, intent.clientOrderId, 0);
    assert Committed(a, o).updatedAt == at && o in a.local.orders;
    CommitCanBeAssessed(a, less);
  }

  lemma StaleIsReady(intent: Intent, command: Id, observation: Id, at: Time, less: Ordering)
    requires intent.Valid() && TotalOrder(less) && intent.createdAt < at
    ensures Projectable(Stale(intent, command, observation, at), less)
  {
    var a, o := Stale(intent, command, observation, at), Sent(intent, command);
    StaleIsValid(intent, command, observation, at);
    StaleDiscrepancies(intent, command, observation, at);
    StaleIsProven(intent, command, observation, at);
    ReadyExactly(a, less);
  }

  lemma StaleIsProven(intent: Intent, command: Id, observation: Id, at: Time)
    requires intent.createdAt <= at
    ensures var a := Stale(intent, command, observation, at); ProvenOnce(a.local, a.broker, Sent(intent, command))
  {
    var a, o := Stale(intent, command, observation, at), Sent(intent, command);
    assert ShownAsSent(o, a.broker.open[0], a.local.asOf) && OnlyOne(a.broker.open, 0, intent.clientOrderId);
  }
}
