/**
 * What a reconciliation verdict means: `may_resume` holds exactly when local
 * state and the broker's evidence correspond item by item.
 */
module ReconciliationVerdict {
  import opened Wrappers
  import opened LiveContracts
  import opened ReconciliationContracts
  import opened Dedupe
  import opened ReconciliationMeaning
  import opened Reconciliation

  // ---- The correspondence, stated on the raw observations ---------------------------

  predicate SameOrder(o: LiveOrder, b: OpenObs) {
    && b.correlation.clientOrderId == Some(o.intent.clientOrderId)
    && o.intent.instrumentId == b.instrumentId && o.intent.side == b.side && o.limitPrice == b.limitPrice
    && o.total == b.total && o.remaining == b.remaining
  }

  /** Distinct broker open orders and local working orders correspond one to one. */
  ghost predicate OrdersCorrespond(local: LocalSnapshot, broker: BrokerSnapshot) {
    OrdersAreLocal(local, broker) && OrdersAreShown(local, broker) && OrdersAreDistinct(local, broker)
  }

  ghost predicate OrdersAreLocal(local: LocalSnapshot, broker: BrokerSnapshot) {
    forall b :: b in broker.open ==>
      b.correlation.status.Confirmed? && exists o :: o in local.orders && Working(o) && SameOrder(o, b)
  }

  ghost predicate OrdersAreShown(local: LocalSnapshot, broker: BrokerSnapshot) {
    forall o :: o in local.orders && Working(o) ==> exists b :: b in broker.open && SameOrder(o, b)
  }

  ghost predicate OrdersAreDistinct(local: LocalSnapshot, broker: BrokerSnapshot) {
    forall o, b, c :: o in local.orders && b in broker.open && c in broker.open && SameOrder(o, b) && SameOrder(o, c)
      ==> OpenPayload(b) == OpenPayload(c)
  }

  /** The broker fill names this local fill, no other one, and equals it field by field. */
  ghost predicate SameFill(local: LocalSnapshot, l: LiveFill, f: FillObs) {
    Names(f, l) && FillAgrees(l, f) && forall m :: m in local.fills && Names(f, m) ==> m == l
  }

  /** Distinct broker fills and local fills correspond one to one. */
  ghost predicate FillsCorrespond(local: LocalSnapshot, broker: BrokerSnapshot) {
    FillsAreLocal(local, broker) && FillsAreShown(local, broker) && FillsAreDistinct(local, broker)
  }

  ghost predicate FillsAreLocal(local: LocalSnapshot, broker: BrokerSnapshot) {
    forall f :: f in broker.fills ==>
      f.correlation.status.Confirmed? && exists l :: l in local.fills && SameFill(local, l, f)
  }

  ghost predicate FillsAreShown(local: LocalSnapshot, broker: BrokerSnapshot) {
    forall l :: l in local.fills ==> exists f :: f in broker.fills && SameFill(local, l, f)
  }

  ghost predicate FillsAreDistinct(local: LocalSnapshot, broker: BrokerSnapshot) {
    forall l, f, g :: l in local.fills && f in broker.fills && g in broker.fills && SameFill(local, l, f) && SameFill(local, l, g)
      ==> FillPayload(f) == FillPayload(g)
  }

  /** Every broker position is the expected one, and where the broker shows none nothing is expected. */
  ghost predicate PositionsCorrespond(local: LocalSnapshot, broker: BrokerSnapshot) {
    && (forall p :: p in broker.positions ==> ExpectedPosition(local.attributions, p.instrumentId) == p.net)
    && (forall i :: (forall p :: p in broker.positions ==> p.instrumentId != i) ==> ExpectedPosition(local.attributions, i) == 0.0)
  }

  ghost predicate Unambiguous(broker: BrokerSnapshot) {
    && Consistent(broker.open, OpenIdentities, OpenPayload)
    && Consistent(broker.fills, FillIdentities, FillPayload)
    && Consistent(broker.positions, PositionIdentities, PositionPayload)
  }

  ghost predicate Corresponds(local: LocalSnapshot, broker: BrokerSnapshot) {
    && local.blockers == []
    && (forall o :: o in local.orders ==> o.pending.None?)
    && broker.AllComplete()
    && Unambiguous(broker)
    && OrdersCorrespond(local, broker)
    && FillsCorrespond(local, broker)
    && PositionsCorrespond(local, broker)
  }

  // ---- Orders -----------------------------------------------------------------------

  /** The order phase is silent and unambiguous exactly when orders correspond and none is pending. */
  lemma SilentOrders(local: LocalSnapshot, broker: BrokerSnapshot)
    requires local.Valid() && broker.Valid() && broker.AllComplete()
    requires Consistent(broker.open, OpenIdentities, OpenPayload)
    ensures OrderIssues(local, broker) == {} && !OpenAmbiguous(OpenEvidence(broker))
            <==> (forall o :: o in local.orders ==> o.pending.None?) && OrdersCorrespond(local, broker)
  {
    ConflictFree(broker.open, OpenIdentities, OpenPayload);
    FirstSeenCovers(broker.open, OpenPayload);
    if OrderIssues(local, broker) == {} && !OpenAmbiguous(OpenEvidence(broker)) {
      SilentOrdersCorrespond(local, broker);
    }
    if (forall o :: o in local.orders ==> o.pending.None?) && OrdersCorrespond(local, broker) {
      CorrespondingOrdersAreSilent(local, broker);
    }
  }

  lemma SilentOrdersCorrespond(local: LocalSnapshot, broker: BrokerSnapshot)
    requires local.Valid() && broker.Valid() && broker.AllComplete()
    requires Consistent(broker.open, OpenIdentities, OpenPayload) && OpenEvidence(broker).conflicts == {}
    requires OrderIssues(local, broker) == {} && !OpenAmbiguous(OpenEvidence(broker))
    ensures forall o :: o in local.orders ==> o.pending.None?
    ensures OrdersCorrespond(local, broker)
  {
    FirstSeenCovers(broker.open, OpenPayload);
    forall o | o in local.orders ensures o.pending.None? {
      assert o.pending.Some? ==> Issue(CorrelationMissing, o.intent.instrumentId, Some(o.intent.clientOrderId)) in OrderIssues(local, broker);
    }
    forall b | b in broker.open
      ensures b.correlation.status.Confirmed? && exists o :: o in local.orders && Working(o) && SameOrder(o, b)
    {
      var u :| u in OpenEvidence(broker).unique && OpenPayload(u) == OpenPayload(b);
      assert OpenIssues(local, u, OpenEvidence(broker).conflicts) <= OrderIssues(local, broker);
      FoundOrder(local.orders, u.correlation.clientOrderId.value);
      var o := FindOrder(local.orders, u.correlation.clientOrderId.value).value;
      SamePayloadSameOrder(o, u, b);
    }
    SilentOrdersAreShown(local, broker);
    OneToOneOrders(local, broker);
  }

  lemma SilentOrdersAreShown(local: LocalSnapshot, broker: BrokerSnapshot)
    requires local.UniqueOrderIds() && broker.AllComplete() && OpenEvidence(broker).conflicts == {}
    requires OrderIssues(local, broker) == {} && !OpenAmbiguous(OpenEvidence(broker))
    requires forall o :: o in local.orders ==> o.pending.None?
    ensures OrdersAreShown(local, broker)
  {
    var open := OpenEvidence(broker);
    FirstSeenCovers(broker.open, OpenPayload);
    forall o | o in local.orders && Working(o)
      ensures exists b :: b in broker.open && SameOrder(o, b)
    {
      OrderIsFound(local, o);
      assert Matched(o, local, open) by {
        assert !Matched(o, local, open) ==>
          Issue(MissingBrokerOrder, o.intent.instrumentId, Some(o.intent.clientOrderId)) in OrderIssues(local, broker);
      }
      var b :| b in open.unique && MatchedBy(o, local, b, open.conflicts);
      assert OpenIssues(local, b, open.conflicts) <= OrderIssues(local, broker);
      assert SameOrder(o, b);
    }
  }

  lemma OneToOneOrders(local: LocalSnapshot, broker: BrokerSnapshot)
    requires Consistent(broker.open, OpenIdentities, OpenPayload)
    requires forall b :: b in broker.open ==> b.correlation.status.Confirmed?
    ensures forall o, b, c :: o in local.orders && b in broker.open && c in broker.open && SameOrder(o, b) && SameOrder(o, c)
              ==> OpenPayload(b) == OpenPayload(c)
  {
    forall o, b, c | o in local.orders && b in broker.open && c in broker.open && SameOrder(o, b) && SameOrder(o, c)
      ensures OpenPayload(b) == OpenPayload(c)
    {
      var key := ClientKey(o.intent.clientOrderId);
      assert key in OpenIdentities(b) && key in OpenIdentities(c);
    }
  }

  lemma SamePayloadSameOrder(o: LiveOrder, b: OpenObs, c: OpenObs)
    requires OpenPayload(b) == OpenPayload(c)
    ensures SameOrder(o, b) <==> SameOrder(o, c)
    ensures b.correlation.status == c.correlation.status && b.correlation.clientOrderId == c.correlation.clientOrderId
    ensures b.instrumentId == c.instrumentId && b.side == c.side && b.limitPrice == c.limitPrice
    ensures b.total == c.total && b.remaining == c.remaining
  {
    assert OpenPayload(b).correlation.status == OpenPayload(c).correlation.status;
    assert OpenPayload(b).correlation.clientOrderId == OpenPayload(c).correlation.clientOrderId;
    assert OpenPayload(b).instrumentId == OpenPayload(c).instrumentId && OpenPayload(b).side == OpenPayload(c).side;
    assert OpenPayload(b).limitPrice == OpenPayload(c).limitPrice;
    assert OpenPayload(b).total == OpenPayload(c).total && OpenPayload(b).remaining == OpenPayload(c).remaining;
  }

  lemma CorrespondingOrdersAreSilent(local: LocalSnapshot, broker: BrokerSnapshot)
    requires local.UniqueOrderIds() && OpenEvidence(broker).conflicts == {}
    requires forall o :: o in local.orders ==> o.pending.None?
    requires OrdersAreLocal(local, broker) && OrdersAreShown(local, broker)
    ensures OrderIssues(local, broker) == {} && !OpenAmbiguous(OpenEvidence(broker))
  {
    NothingReported(local, broker);
    NothingMissing(local, broker);
    SilentPhases(local, broker);
  }

  lemma SilentPhases(local: LocalSnapshot, broker: BrokerSnapshot)
    requires OpenEvidence(broker).conflicts == {} && forall o :: o in local.orders ==> o.pending.None?
    requires OpenIssuesOf(local, OpenEvidence(broker).unique, {}) == {}
    requires forall b :: b in OpenEvidence(broker).unique ==> b.correlation.status.Confirmed?
    requires forall o :: o in local.orders && Working(o) ==> Matched(o, local, OpenEvidence(broker))
    ensures OrderIssues(local, broker) == {} && !OpenAmbiguous(OpenEvidence(broker))
  {
    assert MissingIssues(local.orders, local, OpenEvidence(broker), broker.openEvidence.status.Complete?) == {};
    assert PendingIssues(local.orders) == {};
  }

  lemma NothingReported(local: LocalSnapshot, broker: BrokerSnapshot)
    requires local.UniqueOrderIds() && OrdersAreLocal(local, broker)
    ensures OpenIssuesOf(local, OpenEvidence(broker).unique, {}) == {}
    ensures forall b :: b in OpenEvidence(broker).unique ==> b.correlation.status.Confirmed?
    ensures forall b :: b in broker.open ==> b.correlation.status.Confirmed?
  {
    FirstSeenCovers(broker.open, OpenPayload);
    forall b | b in broker.open ensures OpenIssues(local, b, {}) == {} && b.correlation.status.Confirmed? {
      SilentOrder(local, broker, b);
    }
  }

  lemma NothingMissing(local: LocalSnapshot, broker: BrokerSnapshot)
    requires local.UniqueOrderIds() && OpenEvidence(broker).conflicts == {} && OrdersAreShown(local, broker)
    requires forall b :: b in broker.open ==> b.correlation.status.Confirmed?
    ensures forall o :: o in local.orders && Working(o) ==> Matched(o, local, OpenEvidence(broker))
  {
    forall o | o in local.orders && Working(o) ensures Matched(o, local, OpenEvidence(broker)) {
      CorrespondingOrderIsMatched(local, broker, o);
    }
  }

  lemma SilentOrder(local: LocalSnapshot, broker: BrokerSnapshot, b: OpenObs)
    requires local.UniqueOrderIds() && OrdersAreLocal(local, broker) && b in broker.open
    ensures OpenIssues(local, b, {}) == {} && b.correlation.status.Confirmed?
  {
    var o :| o in local.orders && Working(o) && SameOrder(o, b);
    OrderIsFound(local, o);
    SameOrderIsSilent(local, o, b);
  }

  lemma SameOrderIsSilent(local: LocalSnapshot, o: LiveOrder, b: OpenObs)
    requires FindOrder(local.orders, o.intent.clientOrderId) == Some(o) && Working(o) && SameOrder(o, b)
    requires b.correlation.status.Confirmed?
    ensures OpenIssues(local, b, {}) == {}
  {
  }

  lemma CorrespondingOrderIsMatched(local: LocalSnapshot, broker: BrokerSnapshot, o: LiveOrder)
    requires local.UniqueOrderIds() && OpenEvidence(broker).conflicts == {} && OrdersAreShown(local, broker)
    requires forall b :: b in broker.open ==> b.correlation.status.Confirmed?
    requires o in local.orders && Working(o)
    ensures Matched(o, local, OpenEvidence(broker))
  {
    FirstSeenCovers(broker.open, OpenPayload);
    var b :| b in broker.open && SameOrder(o, b);
    var u :| u in FirstSeen(broker.open, OpenPayload) && OpenPayload(u) == OpenPayload(b);
    SamePayloadSameOrder(o, u, b);
    OrderIsFound(local, o);
    ShownOrderIsMatched(local, OpenEvidence(broker), o, u);
  }

  lemma ShownOrderIsMatched(local: LocalSnapshot, open: Evidenced<OpenObs>, o: LiveOrder, u: OpenObs)
    requires FindOrder(local.orders, o.intent.clientOrderId) == Some(o) && SameOrder(o, u)
    requires u in open.unique && open.conflicts == {} && u.correlation.status.Confirmed?
    ensures Matched(o, local, open)
  {
    assert MatchedBy(o, local, u, open.conflicts);
  }

  // ---- Fills ------------------------------------------------------------------------

  lemma FillIsFound(local: LocalSnapshot, l: LiveFill)
    requires local.UniqueFillIds() && l in local.fills
    ensures FindFill(local.fills, l.fillId) == Some(l)
  {
    FoundFill(local.fills, l.fillId);
    var found := FindFill(local.fills, l.fillId).value;
    var i :| 0 <= i < |local.fills| && local.fills[i] == l;
    var j :| 0 <= j < |local.fills| && local.fills[j] == found;
  }

  /** A broker fill resolves to a local fill exactly when it names that one and no other. */
  lemma ResolveMeaning(local: LocalSnapshot, f: FillObs, l: LiveFill)
    requires local.UniqueFillIds()
    ensures Resolve(local.fills, f) == OneFill(l)
            <==> l in local.fills && Names(f, l) && forall m :: m in local.fills && Names(f, m) ==> m == l
  {
    ResolvedIsLocal(local.fills, f);
    if f.correlation.brokerFillId.Some? { FoundFill(local.fills, f.correlation.brokerFillId.value); }
    if f.correlation.executionNo.Some? { FoundFill(local.fills, f.correlation.executionNo.value); }
    if l in local.fills {
      FillIsFound(local, l);
    }
  }

  lemma SamePayloadSameFill(local: LocalSnapshot, f: FillObs, g: FillObs)
    requires FillPayload(f) == FillPayload(g)
    ensures Resolve(local.fills, f) == Resolve(local.fills, g)
    ensures f.correlation.status == g.correlation.status && f.correlation.clientOrderId == g.correlation.clientOrderId
    ensures f.instrumentId == g.instrumentId && f.side == g.side && f.quantity == g.quantity
    ensures f.correlation.brokerFillId == g.correlation.brokerFillId && f.correlation.executionNo == g.correlation.executionNo
    ensures forall l :: FillAgrees(l, f) <==> FillAgrees(l, g)
    ensures forall l :: SameFill(local, l, f) <==> SameFill(local, l, g)
  {
    var p, q := FillPayload(f), FillPayload(g);
    assert p.correlation.status == q.correlation.status && p.correlation.clientOrderId == q.correlation.clientOrderId;
    assert p.correlation.brokerFillId == q.correlation.brokerFillId && p.correlation.executionNo == q.correlation.executionNo;
    assert p.accountId == q.accountId && p.instrumentId == q.instrumentId && p.side == q.side;
    assert p.quantity == q.quantity && p.price == q.price && p.occurredAt == q.occurredAt;
    assert forall l :: Names(f, l) <==> Names(g, l);
  }

  lemma SilentFills(local: LocalSnapshot, broker: BrokerSnapshot)
    requires local.Valid() && broker.Valid() && broker.AllComplete()
    requires Consistent(broker.fills, FillIdentities, FillPayload)
    ensures AllFillIssues(local, broker) == {} && !FillsAmbiguous(local, FillEvidence(broker))
            <==> FillsCorrespond(local, broker)
  {
    ConflictFree(broker.fills, FillIdentities, FillPayload);
    if AllFillIssues(local, broker) == {} && !FillsAmbiguous(local, FillEvidence(broker)) {
      SilentFillsCorrespond(local, broker);
    }
    if FillsCorrespond(local, broker) {
      CorrespondingFillsAreSilent(local, broker);
    }
  }

  lemma SilentFillsCorrespond(local: LocalSnapshot, broker: BrokerSnapshot)
    requires local.Valid() && broker.Valid() && broker.AllComplete()
    requires Consistent(broker.fills, FillIdentities, FillPayload) && FillEvidence(broker).conflicts == {}
    requires AllFillIssues(local, broker) == {} && !FillsAmbiguous(local, FillEvidence(broker))
    ensures FillsCorrespond(local, broker)
  {
    var fills := FillEvidence(broker);
    forall f | f in broker.fills
      ensures f.correlation.status.Confirmed? && exists l :: l in local.fills && SameFill(local, l, f)
    {
      var u, l := SilentBrokerFill(local, broker, f);
    }
    forall l | l in local.fills
      ensures exists f :: f in broker.fills && SameFill(local, l, f)
    {
      var f := SilentLocalFill(local, broker, l);
    }
    forall l, f, g | l in local.fills && f in broker.fills && g in broker.fills && SameFill(local, l, f) && SameFill(local, l, g)
      ensures FillPayload(f) == FillPayload(g)
    {
      var u, m := SilentBrokerFill(local, broker, f);
      var v, n := SilentBrokerFill(local, broker, g);
      NotCollided(local, fills, l, u, v);
    }
  }

  /** Behind a broker fill stands its deduplicated twin, which equals exactly one local fill. */
  lemma SilentBrokerFill(local: LocalSnapshot, broker: BrokerSnapshot, f: FillObs) returns (u: FillObs, l: LiveFill)
    requires local.Valid() && FillEvidence(broker).conflicts == {} && AllFillIssues(local, broker) == {}
    requires f in broker.fills
    ensures u in FillEvidence(broker).unique && FillPayload(u) == FillPayload(f)
    ensures f.correlation.status.Confirmed? && l in local.fills && SameFill(local, l, f)
    ensures Resolve(local.fills, u) == OneFill(l)
    ensures forall m :: m in local.fills && SameFill(local, m, f) ==> m == l
  {
    FirstSeenCovers(broker.fills, FillPayload);
    u :| u in FillEvidence(broker).unique && FillPayload(u) == FillPayload(f);
    l := SilentFill(local, broker, u);
    SamePayloadSameFill(local, u, f);
  }

  lemma SilentLocalFill(local: LocalSnapshot, broker: BrokerSnapshot, l: LiveFill) returns (f: FillObs)
    requires local.Valid() && broker.AllComplete() && FillEvidence(broker).conflicts == {}
    requires AllFillIssues(local, broker) == {} && !FillsAmbiguous(local, FillEvidence(broker))
    requires l in local.fills
    ensures f in broker.fills && SameFill(local, l, f)
  {
    var fills := FillEvidence(broker);
    FirstSeenCovers(broker.fills, FillPayload);
    assert Settled(l, local, fills) by {
      assert !Settled(l, local, fills) ==> Issue(FillMismatch, l.instrumentId, Some(l.clientOrderId)) in AllFillIssues(local, broker);
    }
    f :| f in fills.unique && Claims(local, fills, f, l.fillId);
    var m := SilentFill(local, broker, f);
    FillIsFound(local, l);
    FillIsFound(local, m);
  }

  lemma NotCollided(local: LocalSnapshot, fills: Evidenced<FillObs>, l: LiveFill, u: FillObs, v: FillObs)
    requires !FillsAmbiguous(local, fills) && l in local.fills && u in fills.unique && v in fills.unique
    requires Resolve(local.fills, u) == OneFill(l) && Resolve(local.fills, v) == OneFill(l)
    ensures u == v
  {
    assert Claims(local, fills, u, l.fillId) && Claims(local, fills, v, l.fillId);
    assert !Collided(local, fills, l.fillId);
  }

  /** A deduplicated broker fill that reports nothing equals the one local fill it names. */
  lemma SilentFill(local: LocalSnapshot, broker: BrokerSnapshot, u: FillObs) returns (l: LiveFill)
    requires local.Valid() && FillEvidence(broker).conflicts == {} && u in FillEvidence(broker).unique
    requires AllFillIssues(local, broker) == {}
    ensures u.correlation.status.Confirmed? && l in local.fills && SameFill(local, l, u)
    ensures Resolve(local.fills, u) == OneFill(l)
  {
    var fills := FillEvidence(broker);
    assert FillIssues(local, u, fills) <= AllFillIssues(local, broker);
    assert FillIssues(local, u, fills) == {};
    l := Resolve(local.fills, u).fill;
    ResolveMeaning(local, u, l);
  }

  lemma CorrespondingFillsAreSilent(local: LocalSnapshot, broker: BrokerSnapshot)
    requires local.UniqueFillIds() && FillEvidence(broker).conflicts == {}
    requires FillsAreLocal(local, broker) && FillsAreShown(local, broker) && FillsAreDistinct(local, broker)
    ensures AllFillIssues(local, broker) == {} && !FillsAmbiguous(local, FillEvidence(broker))
  {
    forall id ensures !Collided(local, FillEvidence(broker), id) {
      NoCollision(local, broker, id);
    }
    NoFillReported(local, broker);
    NoFillUnmatched(local, broker);
    SilentFillPhases(local, broker);
  }

  lemma SilentFillPhases(local: LocalSnapshot, broker: BrokerSnapshot)
    requires FillEvidence(broker).conflicts == {}
    requires forall id :: !Collided(local, FillEvidence(broker), id)
    requires FillIssuesOf(local, FillEvidence(broker).unique, FillEvidence(broker)) == {}
    requires forall f :: f in FillEvidence(broker).unique ==> f.correlation.status.Confirmed? && Resolve(local.fills, f).OneFill?
    requires forall l :: l in local.fills ==> Settled(l, local, FillEvidence(broker))
    ensures AllFillIssues(local, broker) == {} && !FillsAmbiguous(local, FillEvidence(broker))
  {
    assert UnmatchedIssues(local.fills, local, FillEvidence(broker), broker.fillEvidence.status.Complete?) == {};
  }

  lemma NoFillReported(local: LocalSnapshot, broker: BrokerSnapshot)
    requires local.UniqueFillIds() && FillEvidence(broker).conflicts == {} && FillsAreLocal(local, broker)
    requires forall id :: !Collided(local, FillEvidence(broker), id)
    ensures FillIssuesOf(local, FillEvidence(broker).unique, FillEvidence(broker)) == {}
    ensures forall f :: f in FillEvidence(broker).unique ==> f.correlation.status.Confirmed? && Resolve(local.fills, f).OneFill?
    ensures forall f :: f in broker.fills ==> f.correlation.status.Confirmed?
  {
    FirstSeenCovers(broker.fills, FillPayload);
    forall f | f in broker.fills
      ensures FillIssues(local, f, FillEvidence(broker)) == {} && Resolve(local.fills, f).OneFill? && f.correlation.status.Confirmed?
    {
      CorrespondingFillIsSilent(local, broker, f);
    }
  }

  lemma NoFillUnmatched(local: LocalSnapshot, broker: BrokerSnapshot)
    requires local.UniqueFillIds() && FillEvidence(broker).conflicts == {} && FillsAreShown(local, broker)
    requires forall f :: f in broker.fills ==> f.correlation.status.Confirmed?
    requires forall id :: !Collided(local, FillEvidence(broker), id)
    ensures forall l :: l in local.fills ==> Settled(l, local, FillEvidence(broker))
  {
    forall l | l in local.fills ensures Settled(l, local, FillEvidence(broker)) {
      var u := CorrespondingFillIsClaimed(local, broker, l);
    }
  }

  lemma CorrespondingFillIsSilent(local: LocalSnapshot, broker: BrokerSnapshot, f: FillObs)
    requires local.UniqueFillIds() && FillEvidence(broker).conflicts == {} && FillsAreLocal(local, broker)
    requires f in broker.fills && forall id :: !Collided(local, FillEvidence(broker), id)
    ensures FillIssues(local, f, FillEvidence(broker)) == {} && Resolve(local.fills, f).OneFill?
    ensures f.correlation.status.Confirmed?
  {
    var l :| l in local.fills && SameFill(local, l, f);
    ResolveMeaning(local, f, l);
    assert !Touches(FillIdentities(f), {});
  }

  lemma CorrespondingFillIsClaimed(local: LocalSnapshot, broker: BrokerSnapshot, l: LiveFill) returns (u: FillObs)
    requires local.UniqueFillIds() && FillEvidence(broker).conflicts == {} && FillsAreShown(local, broker)
    requires forall f :: f in broker.fills ==> f.correlation.status.Confirmed?
    requires l in local.fills
    ensures u in FillEvidence(broker).unique && Claims(local, FillEvidence(broker), u, l.fillId)
  {
    FirstSeenCovers(broker.fills, FillPayload);
    var f :| f in broker.fills && SameFill(local, l, f);
    u :| u in FirstSeen(broker.fills, FillPayload) && FillPayload(u) == FillPayload(f);
    SamePayloadSameFill(local, u, f);
    ResolveMeaning(local, u, l);
    assert !Touches(FillIdentities(u), {});
  }

  lemma NoCollision(local: LocalSnapshot, broker: BrokerSnapshot, id: Id)
    requires local.UniqueFillIds() && FillEvidence(broker).conflicts == {}
    requires FillsAreLocal(local, broker) && FillsAreDistinct(local, broker)
    ensures !Collided(local, FillEvidence(broker), id)
  {
    var fills := FillEvidence(broker);
    forall f, g | f in fills.unique && g in fills.unique && Claims(local, fills, f, id) && Claims(local, fills, g, id)
      ensures f == g
    {
      var l := ClaimedFill(local, broker, f, id);
      var m := ClaimedFill(local, broker, g, id);
      FirstSeenCovers(broker.fills, FillPayload);
      UniqueByPayload(broker.fills, f, g);
    }
  }

  lemma ClaimedFill(local: LocalSnapshot, broker: BrokerSnapshot, f: FillObs, id: Id) returns (l: LiveFill)
    requires local.UniqueFillIds() && FillsAreLocal(local, broker)
    requires f in FillEvidence(broker).unique && Claims(local, FillEvidence(broker), f, id)
    ensures SameFill(local, l, f) && l in local.fills && FindFill(local.fills, id) == Some(l)
  {
    FirstSeenCovers(broker.fills, FillPayload);
    l :| l in local.fills && SameFill(local, l, f);
    ResolveMeaning(local, f, l);
    FillIsFound(local, l);
  }

  lemma UniqueByPayload(values: seq<FillObs>, f: FillObs, g: FillObs)
    requires f in FirstSeen(values, FillPayload) && g in FirstSeen(values, FillPayload)
    requires FillPayload(f) == FillPayload(g)
    ensures f == g
  {
    FirstSeenDistinct(values, FillPayload);
    var i :| 0 <= i < |FirstSeen(values, FillPayload)| && FirstSeen(values, FillPayload)[i] == f;
    var j :| 0 <= j < |FirstSeen(values, FillPayload)| && FirstSeen(values, FillPayload)[j] == g;
  }

  // ---- Positions ----------------------------------------------------------------------

  lemma BrokerPositionsMeaning(unique: seq<Position>, conflicts: set<Identity>)
    requires conflicts == {}
    ensures forall i :: i in BrokerPositions(unique, conflicts) <==> exists p :: p in unique && p.instrumentId == i
    ensures forall i :: i in BrokerPositions(unique, conflicts) ==>
              exists p :: p in unique && p.instrumentId == i && BrokerPositions(unique, conflicts)[i] == p.net
  {
    if unique != [] {
      var n := |unique| - 1;
      BrokerPositionsMeaning(unique[..n], conflicts);
      assert unique == unique[..n] + [unique[n]];
      var earlier, all := BrokerPositions(unique[..n], conflicts), BrokerPositions(unique, conflicts);
      forall i | i in all
        ensures exists p :: p in unique && p.instrumentId == i && all[i] == p.net
      {
        if i == unique[n].instrumentId {
          assert unique[n] in unique;
        } else {
          var p :| p in unique[..n] && p.instrumentId == i && earlier[i] == p.net;
          assert p in unique;
        }
      }
      forall p | p in unique ensures p.instrumentId in all {
        assert p in unique[..n] || p == unique[n];
      }
    }
  }

  /** With consistent evidence the map holds the net of whichever observation shows the instrument. */
  lemma BrokerNet(broker: BrokerSnapshot, p: Position)
    requires Consistent(broker.positions, PositionIdentities, PositionPayload) && p in broker.positions
    requires PositionEvidence(broker).conflicts == {}
    ensures var net := BrokerPositions(PositionEvidence(broker).unique, {});
            p.instrumentId in net && net[p.instrumentId] == p.net
  {
    var unique := PositionEvidence(broker).unique;
    FirstSeenCovers(broker.positions, PositionPayload);
    BrokerPositionsMeaning(unique, {});
    var u :| u in unique && PositionPayload(u) == PositionPayload(p);
    assert PositionPayload(u).instrumentId == PositionPayload(p).instrumentId;
    var q :| q in unique && q.instrumentId == p.instrumentId && BrokerPositions(unique, {})[p.instrumentId] == q.net;
    assert InstrumentKey(p.instrumentId) in PositionIdentities(q) && InstrumentKey(p.instrumentId) in PositionIdentities(p);
    assert PositionPayload(q).net == PositionPayload(p).net;
  }

  lemma SilentPositions(local: LocalSnapshot, broker: BrokerSnapshot)
    requires broker.AllComplete() && Consistent(broker.positions, PositionIdentities, PositionPayload)
    ensures AllPositionIssues(local, broker) == {} <==> PositionsCorrespond(local, broker)
  {
    ConflictFree(broker.positions, PositionIdentities, PositionPayload);
    var positions := PositionEvidence(broker);
    var net := BrokerPositions(positions.unique, {});
    FirstSeenCovers(broker.positions, PositionPayload);
    BrokerPositionsMeaning(positions.unique, {});
    forall p | p in broker.positions ensures p.instrumentId in net && net[p.instrumentId] == p.net {
      BrokerNet(broker, p);
    }
    forall i | i in net ensures exists p :: p in broker.positions && p.instrumentId == i {
      var p :| p in positions.unique && p.instrumentId == i;
    }
    if AllPositionIssues(local, broker) == {} {
      SilentPositionsCorrespond(local, broker, net);
    }
    if PositionsCorrespond(local, broker) {
      CorrespondingPositionsAreSilent(local, broker, net);
    }
  }

  lemma SilentPositionsCorrespond(local: LocalSnapshot, broker: BrokerSnapshot, net: map<Id, real>)
    requires broker.AllComplete() && PositionEvidence(broker).conflicts == {}
    requires net == BrokerPositions(PositionEvidence(broker).unique, {})
    requires forall p :: p in broker.positions ==> p.instrumentId in net && net[p.instrumentId] == p.net
    requires forall i :: i in net ==> exists p :: p in broker.positions && p.instrumentId == i
    requires AllPositionIssues(local, broker) == {}
    ensures PositionsCorrespond(local, broker)
  {
    var positions := PositionEvidence(broker);
    forall i ensures ExpectedPosition(local.attributions, i) == if i in net then net[i] else 0.0 {
      var actual := if i in net then net[i] else 0.0;
      if i in Instruments(local, positions) {
        assert ExpectedPosition(local.attributions, i) != actual ==>
          Discrepancy(PositionMismatch, i, None, Some((ExpectedPosition(local.attributions, i), actual))) in AllPositionIssues(local, broker);
      } else {
        assert forall a :: a in local.attributions ==> a.instrumentId in Instruments(local, positions);
        NothingExpected(local.attributions, i);
      }
    }
  }

  lemma CorrespondingPositionsAreSilent(local: LocalSnapshot, broker: BrokerSnapshot, net: map<Id, real>)
    requires PositionEvidence(broker).conflicts == {}
    requires net == BrokerPositions(PositionEvidence(broker).unique, {})
    requires forall p :: p in broker.positions ==> p.instrumentId in net && net[p.instrumentId] == p.net
    requires forall i :: i in net ==> exists p :: p in broker.positions && p.instrumentId == i
    requires PositionsCorrespond(local, broker)
    ensures AllPositionIssues(local, broker) == {}
  {
    forall i ensures ExpectedPosition(local.attributions, i) == if i in net then net[i] else 0.0 {
      if i in net {
        var p :| p in broker.positions && p.instrumentId == i;
      }
    }
  }

  // ---- The main theorem -------------------------------------------------------------------

  /** `may_resume` holds exactly when local state and broker evidence correspond. */
  lemma MayResumeMeansCorrespondence(local: LocalSnapshot, broker: BrokerSnapshot, result: Result, less: Ordering)
    requires local.Valid() && broker.Valid()
    requires result.status == StatusOf(local, broker) && Lists(result.discrepancies, Discrepancies(local, broker), less)
    ensures Assessment(local, broker, result).MayResume() <==> Corresponds(local, broker)
  {
    ListingIsEmpty(result.discrepancies, Discrepancies(local, broker), less);
    ConflictFree(broker.open, OpenIdentities, OpenPayload);
    ConflictFree(broker.fills, FillIdentities, FillPayload);
    ConflictFree(broker.positions, PositionIdentities, PositionPayload);
    if broker.AllComplete() && Unambiguous(broker) {
      SilentOrders(local, broker);
      SilentFills(local, broker);
      SilentPositions(local, broker);
    }
  }

  lemma ListingIsEmpty(s: seq<Discrepancy>, d: set<Discrepancy>, less: Ordering)
    requires Lists(s, d, less)
    ensures s == [] <==> d == {}
  {
    SomethingListed(s);
    if d != {} {
      var x :| x in d;
      assert x in s;
    }
  }
}
