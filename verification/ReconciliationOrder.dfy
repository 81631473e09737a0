/**
 * When the list of discrepancies does not depend on the order of the broker's
 * observations: deduplication keeps the first observation of each payload, and
 * under a reused identity it matters which one that is.
 */
module ReconciliationOrder {
  import opened LiveContracts
  import opened Sums
  import opened ReconciliationContracts
  import opened Dedupe
  import opened Reconciliation
  import opened ReconciliationVerdict
  import opened ReconciliationInvariance
  import opened ReportProfiles

  // ---- Which observation is kept -----------------------------------------------------------

  predicate AllUsable<T(!new, ==)>(values: seq<T>, payload: T -> T, usable: T -> bool, material: T) {
    forall w :: w in values && payload(w) == material ==> usable(w)
  }

  function StandingOf<T(!new, ==)>(values: seq<T>, payload: T -> T, usable: T -> bool): (s: Standing<T>)
    ensures s.Valid()
  {
    Standing(set v | v in values :: payload(v),
             set v | v in values && AllUsable(values, payload, usable, payload(v)) :: payload(v),
             set v | v in values && usable(v) :: payload(v))
  }

  /** The payloads whose kept observation is usable. */
  function Kept<T(!new, ==)>(values: seq<T>, payload: T -> T, usable: T -> bool): set<T> {
    set u | u in FirstSeen(values, payload) && usable(u) :: payload(u)
  }

  lemma KeptIsAllowed<T(!new)>(values: seq<T>, payload: T -> T, usable: T -> bool)
    ensures StandingOf(values, payload, usable).Allows(Kept(values, payload, usable))
  {
    FirstSeenCovers(values, payload);
    forall v | v in values && AllUsable(values, payload, usable, payload(v)) ensures payload(v) in Kept(values, payload, usable) {
      var u :| u in FirstSeen(values, payload) && payload(u) == payload(v);
    }
  }

  /** An observation is usable exactly when its payload is wanted. */
  predicate Suits<T(!new, ==)>(v: T, payload: T -> T, usable: T -> bool, wanted: set<T>) {
    usable(v) == (payload(v) in wanted)
  }

  lemma {:induction false} FilterSplits<T(!new)>(values: seq<T>, p: T -> bool)
    ensures multiset(Filter(values, p) + Filter(values, x => !p(x))) == multiset(values)
  {
    if values != [] {
      FilterSplits(values[1..], p);
      assert values == [values[0]] + values[1..];
      EitherSide(values[0], Filter(values[1..], p), Filter(values[1..], x => !p(x)));
    }
  }

  lemma EitherSide<T>(v: T, s: seq<T>, t: seq<T>)
    ensures multiset(([v] + s) + t) == multiset{v} + multiset(s + t)
    ensures multiset(s + ([v] + t)) == multiset{v} + multiset(s + t)
    ensures [] + s == s && [] + t == t
  {
  }

  lemma {:induction false} FirstHalfFirst<T(!new)>(s: seq<T>, t: seq<T>, payload: T -> T)
    ensures forall u :: u in FirstSeen(s + t, payload) && Has(s, payload, payload(u)) ==> u in s
    decreases |t|
  {
    if t == [] {
      assert s + t == s;
      FirstSeenCovers(s, payload);
    } else {
      var n := |t| - 1;
      assert (s + t)[..|s + t| - 1] == s + t[..n];
      FirstHalfFirst(s, t[..n], payload);
      FirstSeenCovers(s + t[..n], payload);
      forall u | u in FirstSeen(s + t, payload) && Has(s, payload, payload(u)) ensures u in s {
        var w :| w in s && payload(w) == payload(u);
        assert w in s + t[..n];
        assert u in FirstSeen(s + t[..n], payload);
      }
    }
  }

  /** Every allowed choice of usable payloads is made by some order of the observations. */
  lemma Arrange<T(!new)>(values: seq<T>, payload: T -> T, usable: T -> bool, wanted: set<T>) returns (arranged: seq<T>)
    requires StandingOf(values, payload, usable).Allows(wanted)
    ensures multiset(arranged) == multiset(values) && Kept(arranged, payload, usable) == wanted
  {
    var suits := (v: T) => Suits(v, payload, usable, wanted);
    var front, back := Filter(values, suits), Filter(values, x => !suits(x));
    arranged := front + back;
    FilterSplits(values, suits);
    forall v | v in values ensures Has(front, payload, payload(v)) {
      SomeSuits(values, payload, usable, wanted, v);
    }
    FirstHalfFirst(front, back, payload);
    FirstSeenCovers(arranged, payload);
    SameMembers(arranged, values);
    forall u | u in FirstSeen(arranged, payload) ensures Suits(u, payload, usable, wanted) {
      assert u in front;
    }
    forall m | m in wanted ensures m in Kept(arranged, payload, usable) {
      var v :| v in values && payload(v) == m;
      var u :| u in FirstSeen(arranged, payload) && payload(u) == m;
    }
  }

  lemma SomeSuits<T(!new)>(values: seq<T>, payload: T -> T, usable: T -> bool, wanted: set<T>, v: T)
    requires StandingOf(values, payload, usable).Allows(wanted) && v in values
    ensures exists w :: w in values && payload(w) == payload(v) && Suits(w, payload, usable, wanted)
  {
    if payload(v) in wanted {
      var w :| w in values && usable(w) && payload(w) == payload(v);
      assert Suits(w, payload, usable, wanted);
    } else {
      assert !AllUsable(values, payload, usable, payload(v));
      var w :| w in values && payload(w) == payload(v) && !usable(w);
      assert Suits(w, payload, usable, wanted);
    }
  }

  lemma SameMembers<T(!new)>(a: seq<T>, b: seq<T>)
    requires multiset(a) == multiset(b)
    ensures forall v :: v in a <==> v in b
  {
    forall v ensures v in a <==> v in b {
      assert v in a <==> v in multiset(a);
    }
  }

  lemma SameConflicts<T(!new), I(!new)>(a: seq<T>, b: seq<T>, identities: T -> seq<I>, payload: T -> T)
    requires forall v :: v in a <==> v in b
    ensures Conflicts(a, identities, payload) == Conflicts(b, identities, payload)
  {
  }

  lemma SameStanding<T(!new)>(a: seq<T>, b: seq<T>, payload: T -> T, usable: T -> bool)
    requires forall v :: v in a <==> v in b
    ensures StandingOf(a, payload, usable) == StandingOf(b, payload, usable)
  {
  }

  // ---- Open orders -----------------------------------------------------------------------------

  function OpenStanding(broker: BrokerSnapshot): (s: Standing<OpenObs>)
    ensures s.Valid()
  {
    StandingOf(broker.open, OpenPayload, OpenUsableIn(broker))
  }

  function OpenUsableIn(broker: BrokerSnapshot): OpenObs -> bool {
    var conflicts := OpenEvidence(broker).conflicts;
    (b: OpenObs) => OpenUsable(b, conflicts)
  }

  function KeptOpen(broker: BrokerSnapshot): set<OpenObs> {
    Kept(broker.open, OpenPayload, OpenUsableIn(broker))
  }

  /** What an observation reports, by its payload and its standing alone. */
  lemma OpenByPayload(local: LocalSnapshot, b: OpenObs, conflicts: set<Identity>)
    ensures OpenIssues(local, b, conflicts) == OpenReport(local, OpenPayload(b), OpenUsable(b, conflicts))
  {
    assert OpenPayload(OpenPayload(b)) == OpenPayload(b);
    SamePayloadSameIssues(local, b, OpenPayload(b));
    SamePayloadSameOrder(CreatedOrderOf(b), b, OpenPayload(b));
    if OpenUsable(b, conflicts) {
      assert OpenUsable(b, {});
    }
  }

  lemma OpenReportsOf(local: LocalSnapshot, broker: BrokerSnapshot)
    ensures OpenIssuesOf(local, OpenEvidence(broker).unique, OpenEvidence(broker).conflicts)
            == OpenReports(local, OpenStanding(broker).all, KeptOpen(broker))
  {
    var open := OpenEvidence(broker);
    FirstSeenCovers(broker.open, OpenPayload);
    forall u | u in open.unique
      ensures OpenIssues(local, u, open.conflicts) == OpenReport(local, OpenPayload(u), OpenPayload(u) in KeptOpen(broker))
    {
      OpenByPayload(local, u, open.conflicts);
      KeptMeansUsable(broker.open, OpenPayload, OpenUsableIn(broker), u);
    }
    forall d ensures d in OpenIssuesOf(local, open.unique, open.conflicts)
                     <==> d in OpenReports(local, OpenStanding(broker).all, KeptOpen(broker)) {
      if d in OpenReports(local, OpenStanding(broker).all, KeptOpen(broker)) {
        var m :| m in OpenStanding(broker).all && d in OpenReport(local, m, m in KeptOpen(broker));
        var v :| v in broker.open && OpenPayload(v) == m;
        var u :| u in open.unique && OpenPayload(u) == m;
      }
    }
  }

  /** Only one observation of a payload is kept, so its standing is that observation's. */
  lemma KeptMeansUsable<T(!new)>(values: seq<T>, payload: T -> T, usable: T -> bool, u: T)
    requires u in FirstSeen(values, payload)
    ensures payload(u) in Kept(values, payload, usable) <==> usable(u)
  {
    if payload(u) in Kept(values, payload, usable) {
      var w :| w in FirstSeen(values, payload) && usable(w) && payload(w) == payload(u);
      FirstSeenDistinct(values, payload);
      var i :| 0 <= i < |FirstSeen(values, payload)| && FirstSeen(values, payload)[i] == u;
      var j :| 0 <= j < |FirstSeen(values, payload)| && FirstSeen(values, payload)[j] == w;
      assert i == j;
    }
  }

  // ---- Fills -------------------------------------------------------------------------------------

  function FillStanding(broker: BrokerSnapshot): (s: Standing<FillObs>)
    ensures s.Valid()
  {
    StandingOf(broker.fills, FillPayload, FillUsableIn(broker))
  }

  function FillUsableIn(broker: BrokerSnapshot): FillObs -> bool {
    var conflicts := FillEvidence(broker).conflicts;
    (f: FillObs) => FillUsable(f, conflicts)
  }

  function KeptFills(broker: BrokerSnapshot): set<FillObs> {
    Kept(broker.fills, FillPayload, FillUsableIn(broker))
  }

  lemma SameResolution(local: LocalSnapshot, f: FillObs)
    ensures Resolve(local.fills, FillPayload(f)) == Resolve(local.fills, f)
    ensures FillPayload(f).instrumentId == f.instrumentId
    ensures FillPayload(f).correlation.clientOrderId == f.correlation.clientOrderId
    ensures forall l :: FillAgrees(l, FillPayload(f)) <==> FillAgrees(l, f)
  {
    assert FillPayload(FillPayload(f)) == FillPayload(f);
    SamePayloadSameFill(local, f, FillPayload(f));
  }

  /** Two kept fills collide over a local fill exactly when their payloads are rivals. */
  lemma CollidedMeansClash(local: LocalSnapshot, broker: BrokerSnapshot, u: FillObs)
    requires u in FillEvidence(broker).unique && FillUsable(u, FillEvidence(broker).conflicts)
    requires Resolve(local.fills, u).OneFill?
    ensures Collided(local, FillEvidence(broker), Resolve(local.fills, u).fill.fillId)
            <==> Clashes(local, KeptFills(broker), FillPayload(u))
  {
    var fills, id := FillEvidence(broker), Resolve(local.fills, u).fill.fillId;
    SameResolution(local, u);
    if Collided(local, fills, id) {
      var f, g :| f in fills.unique && g in fills.unique && f != g && Claims(local, fills, f, id) && Claims(local, fills, g, id);
      var other := if f == u then g else f;
      OtherPayload(broker.fills, u, other);
      SameResolution(local, other);
      assert FillPayload(other) in KeptFills(broker);
      assert Rivals(local, FillPayload(u), FillPayload(other));
    }
    if Clashes(local, KeptFills(broker), FillPayload(u)) {
      var n :| n in KeptFills(broker) && Rivals(local, FillPayload(u), n);
      var w :| w in fills.unique && FillUsable(w, fills.conflicts) && FillPayload(w) == n;
      SameResolution(local, w);
      assert Claims(local, fills, u, id) && Claims(local, fills, w, id);
    }
  }

  lemma OtherPayload(values: seq<FillObs>, f: FillObs, g: FillObs)
    requires f in FirstSeen(values, FillPayload) && g in FirstSeen(values, FillPayload) && f != g
    ensures FillPayload(f) != FillPayload(g)
  {
    if FillPayload(f) == FillPayload(g) {
      UniqueByPayload(values, f, g);
    }
  }

  lemma FillByPayload(local: LocalSnapshot, broker: BrokerSnapshot, u: FillObs, d: Discrepancy)
    requires u in FillEvidence(broker).unique
    ensures d in FillIssues(local, u, FillEvidence(broker)) <==> FillReported(local, FillPayload(u), KeptFills(broker), d)
  {
    SameResolution(local, u);
    KeptMeansUsable(broker.fills, FillPayload, FillUsableIn(broker), u);
    if FillUsable(u, FillEvidence(broker).conflicts) && Resolve(local.fills, u).OneFill? {
      CollidedMeansClash(local, broker, u);
    }
  }

  lemma FillReportsOf(local: LocalSnapshot, broker: BrokerSnapshot, d: Discrepancy)
    ensures d in FillIssuesOf(local, FillEvidence(broker).unique, FillEvidence(broker))
            <==> FillsReport(local, FillStanding(broker).all, KeptFills(broker), d)
  {
    var fills := FillEvidence(broker);
    FirstSeenCovers(broker.fills, FillPayload);
    if d in FillIssuesOf(local, fills.unique, fills) {
      var u :| u in fills.unique && d in FillIssues(local, u, fills);
      FillByPayload(local, broker, u, d);
      assert FillPayload(u) in FillStanding(broker).all;
    }
    if FillsReport(local, FillStanding(broker).all, KeptFills(broker), d) {
      var m :| m in FillStanding(broker).all && FillReported(local, m, KeptFills(broker), d);
      var v :| v in broker.fills && FillPayload(v) == m;
      var u :| u in fills.unique && FillPayload(u) == m;
      FillByPayload(local, broker, u, d);
    }
  }

  // ---- The whole assessment ------------------------------------------------------------------------

  /** Reported whichever observations are kept. */
  function Fixed(local: LocalSnapshot, broker: BrokerSnapshot): set<Discrepancy> {
    PendingIssues(local.orders)
    + MissingIssues(local.orders, local, OpenEvidence(broker), broker.openEvidence.status.Complete?)
    + UnmatchedIssues(local.fills, local, FillEvidence(broker), broker.fillEvidence.status.Complete?)
    + AllPositionIssues(local, broker)
  }

  lemma DiscrepanciesAre(local: LocalSnapshot, broker: BrokerSnapshot, d: Discrepancy)
    ensures d in Discrepancies(local, broker)
            <==> Reported(local, Fixed(local, broker), OpenStanding(broker), FillStanding(broker), KeptOpen(broker), KeptFills(broker), d)
  {
    OpenReportsOf(local, broker);
    FillReportsOf(local, broker, d);
  }

  // ---- What redelivery leaves alone ------------------------------------------------------------------

  lemma EchoKeepsConflicts<T(!new), I(!new)>(values: seq<T>, again: T, identities: T -> seq<I>, payload: T -> T)
    requires Echo(values, again, identities, payload)
    ensures Conflicts(values + [again], identities, payload) == Conflicts(values, identities, payload)
  {
    var all := values + [again];
    forall v | v in values ensures v in all {
    }
    forall i ensures i in Conflicts(all, identities, payload) <==> i in Conflicts(values, identities, payload) {
      if i in Conflicts(all, identities, payload) {
        var x :| x in all && i in identities(x) && Reused(all, identities, payload, i, payload(x));
        var y :| y in all && i in identities(y) && payload(y) != payload(x);
        var v, w := Original(values, again, identities, payload, i, x, y);
        assert Reused(values, identities, payload, i, payload(v));
      }
      if i in Conflicts(values, identities, payload) {
        var x :| x in values && i in identities(x) && Reused(values, identities, payload, i, payload(x));
        var y :| y in values && i in identities(y) && payload(y) != payload(x);
        assert x in all && y in all;
        assert Reused(all, identities, payload, i, payload(x));
      }
    }
  }

  /** Two payloads under one identity were both shown under it before the redelivery. */
  lemma Original<T(!new), I(!new)>(values: seq<T>, again: T, identities: T -> seq<I>, payload: T -> T, i: I, x: T, y: T)
    returns (v: T, w: T)
    requires Echo(values, again, identities, payload) && x in values + [again] && y in values + [again]
    requires i in identities(x) && i in identities(y) && payload(x) != payload(y)
    ensures v in values && w in values && i in identities(v) && i in identities(w)
    ensures payload(v) == payload(x) && payload(w) == payload(y)
  {
    var u :| u in values && payload(u) == payload(again) && OwnOrFresh(values, u, again, identities);
    v := if x in values then x else u;
    w := if y in values then y else u;
  }

  lemma {:induction false} EchoesKeepConflicts<T(!new), I(!new)>(values: seq<T>, more: seq<T>, identities: T -> seq<I>, payload: T -> T)
    requires Echoes(values, more, identities, payload)
    ensures Conflicts(values + more, identities, payload) == Conflicts(values, identities, payload)
    decreases |more|
  {
    if more == [] {
      assert values + more == values;
    } else {
      EchoKeepsConflicts(values, more[0], identities, payload);
      EchoesKeepConflicts(values + [more[0]], more[1..], identities, payload);
      assert (values + [more[0]]) + more[1..] == values + more;
    }
  }

  lemma RedeliveredKeepsConflicts<T(!new), I(!new)>(a: seq<T>, b: seq<T>, identities: T -> seq<I>, payload: T -> T)
    requires Redelivered(a, b, identities, payload)
    ensures Conflicts(b, identities, payload) == Conflicts(a, identities, payload)
  {
    var shuffled, more :| multiset(shuffled) == multiset(a) && IsRedelivery(shuffled, more, b, identities, payload);
    EchoesKeepConflicts(shuffled, more, identities, payload);
    SameMembers(shuffled, a);
    SameConflicts(shuffled, a, identities, payload);
    SameMembers(shuffled + more, b);
    SameConflicts(shuffled + more, b, identities, payload);
  }

  lemma NetAgrees(a: BrokerSnapshot, b: BrokerSnapshot, i: Id)
    requires SamePayloads(a.positions, b.positions, PositionPayload)
    requires PositionEvidence(a).conflicts == PositionEvidence(b).conflicts
    requires i in BrokerPositions(PositionEvidence(a).unique, PositionEvidence(a).conflicts)
    ensures i in BrokerPositions(PositionEvidence(b).unique, PositionEvidence(b).conflicts)
    ensures BrokerPositions(PositionEvidence(a).unique, PositionEvidence(a).conflicts)[i]
            == BrokerPositions(PositionEvidence(b).unique, PositionEvidence(b).conflicts)[i]
  {
    var conflicts := PositionEvidence(a).conflicts;
    ShownNets(PositionEvidence(a).unique, conflicts);
    ShownNets(PositionEvidence(b).unique, conflicts);
    FirstSeenSamePayloads(a.positions, b.positions, PositionPayload);
    FirstSeenCovers(b.positions, PositionPayload);
    var p :| p in PositionEvidence(a).unique && p.instrumentId == i
             && BrokerPositions(PositionEvidence(a).unique, conflicts)[i] == p.net;
    var q :| q in PositionEvidence(b).unique && PositionPayload(q) == PositionPayload(p);
    assert PositionPayload(q).instrumentId == PositionPayload(p).instrumentId && PositionPayload(q).net == PositionPayload(p).net;
    var r :| r in PositionEvidence(b).unique && r.instrumentId == i
             && BrokerPositions(PositionEvidence(b).unique, conflicts)[i] == r.net;
    OneNet(b, q, r);
  }

  lemma OneNet(broker: BrokerSnapshot, q: Position, r: Position)
    requires q in broker.positions && r in broker.positions && q.instrumentId == r.instrumentId
    requires InstrumentKey(q.instrumentId) !in PositionEvidence(broker).conflicts
    ensures q.net == r.net
  {
    var key := InstrumentKey(q.instrumentId);
    assert key in PositionIdentities(q) && key in PositionIdentities(r);
    assert PositionPayload(r) != PositionPayload(q) ==>
      Reused(broker.positions, PositionIdentities, PositionPayload, key, PositionPayload(q));
    assert PositionPayload(q).net == q.net && PositionPayload(r).net == r.net;
  }

  lemma SamePositions(local: LocalSnapshot, a: BrokerSnapshot, b: BrokerSnapshot)
    requires a.positionEvidence == b.positionEvidence && SamePayloads(a.positions, b.positions, PositionPayload)
    requires PositionEvidence(a).conflicts == PositionEvidence(b).conflicts
    ensures AllPositionIssues(local, a) == AllPositionIssues(local, b)
  {
    var conflicts := PositionEvidence(a).conflicts;
    var m, n := BrokerPositions(PositionEvidence(a).unique, conflicts), BrokerPositions(PositionEvidence(b).unique, conflicts);
    forall i | i in m ensures i in n && m[i] == n[i] {
      NetAgrees(a, b, i);
    }
    forall i | i in n ensures i in m {
      NetAgrees(b, a, i);
    }
    assert m == n;
  }

  /** Redelivery and reordering change neither the conflicts nor what is reported anyway. */
  lemma FixedStays(local: LocalSnapshot, a: BrokerSnapshot, b: BrokerSnapshot)
    requires SameEvidence(a, b)
    ensures OpenEvidence(a).conflicts == OpenEvidence(b).conflicts && FillEvidence(a).conflicts == FillEvidence(b).conflicts
    ensures Fixed(local, a) == Fixed(local, b)
  {
    SameEvidenceIsEquivalent(a, b);
    RedeliveredKeepsConflicts(a.open, b.open, OpenIdentities, OpenPayload);
    RedeliveredKeepsConflicts(a.fills, b.fills, FillIdentities, FillPayload);
    RedeliveredKeepsConflicts(a.positions, b.positions, PositionIdentities, PositionPayload);
    MissingStays(local, a, b);
    UnmatchedStays(local, a, b);
    SamePositions(local, a, b);
  }

  lemma MissingStays(local: LocalSnapshot, a: BrokerSnapshot, b: BrokerSnapshot)
    requires a.openEvidence == b.openEvidence && SamePayloads(a.open, b.open, OpenPayload)
    requires OpenEvidence(a).conflicts == OpenEvidence(b).conflicts
    ensures MissingIssues(local.orders, local, OpenEvidence(a), a.openEvidence.status.Complete?)
            == MissingIssues(local.orders, local, OpenEvidence(b), b.openEvidence.status.Complete?)
  {
    if OpenEvidence(a).conflicts == {} {
      SameOpenIssues(local, a, b);
    } else {
      assert OpenAmbiguous(OpenEvidence(a)) && OpenAmbiguous(OpenEvidence(b));
    }
  }

  lemma UnmatchedStays(local: LocalSnapshot, a: BrokerSnapshot, b: BrokerSnapshot)
    requires a.fillEvidence == b.fillEvidence && SamePayloads(a.fills, b.fills, FillPayload)
    requires FillEvidence(a).conflicts == FillEvidence(b).conflicts
    ensures UnmatchedIssues(local.fills, local, FillEvidence(a), a.fillEvidence.status.Complete?)
            == UnmatchedIssues(local.fills, local, FillEvidence(b), b.fillEvidence.status.Complete?)
  {
    if FillEvidence(a).conflicts == {} {
      SameFillEvidence(local, a, b);
    } else {
      assert FillsAmbiguous(local, FillEvidence(a)) && FillsAmbiguous(local, FillEvidence(b));
    }
  }

  // ---- Reordering ------------------------------------------------------------------------------------

  /** The same observations in another order. */
  ghost predicate Rearranged(a: BrokerSnapshot, b: BrokerSnapshot) {
    && b == a.(open := b.open, fills := b.fills, positions := b.positions)
    && multiset(a.open) == multiset(b.open) && multiset(a.fills) == multiset(b.fills)
    && multiset(a.positions) == multiset(b.positions)
  }

  lemma Shuffled<T(!new), I(!new)>(a: seq<T>, b: seq<T>, identities: T -> seq<I>, payload: T -> T)
    requires multiset(a) == multiset(b)
    ensures Redelivered(a, b, identities, payload)
  {
    assert b + [] == b;
    assert Echoes(b, [], identities, payload);
    assert IsRedelivery(b, [], b, identities, payload);
  }

  lemma RearrangedIsSameEvidence(a: BrokerSnapshot, b: BrokerSnapshot)
    requires Rearranged(a, b)
    ensures SameEvidence(a, b)
  {
    Shuffled(a.open, b.open, OpenIdentities, OpenPayload);
    Shuffled(a.fills, b.fills, FillIdentities, FillPayload);
    Shuffled(a.positions, b.positions, PositionIdentities, PositionPayload);
  }

  lemma RearrangedStandings(local: LocalSnapshot, a: BrokerSnapshot, b: BrokerSnapshot)
    requires Rearranged(a, b)
    ensures Fixed(local, b) == Fixed(local, a) && OpenStanding(b) == OpenStanding(a) && FillStanding(b) == FillStanding(a)
    ensures OpenStanding(a).Allows(KeptOpen(b)) && FillStanding(a).Allows(KeptFills(b))
  {
    RearrangedIsSameEvidence(a, b);
    FixedStays(local, a, b);
    SameMembers(a.open, b.open);
    SameMembers(a.fills, b.fills);
    SameStanding(a.open, b.open, OpenPayload, OpenUsableIn(a));
    SameStanding(a.fills, b.fills, FillPayload, FillUsableIn(a));
    KeptIsAllowed(b.open, OpenPayload, OpenUsableIn(b));
    KeptIsAllowed(b.fills, FillPayload, FillUsableIn(b));
  }

  /** No order of the same observations leads to another set of discrepancies, and so to another list. */
  ghost predicate OrderIrrelevant(local: LocalSnapshot, a: BrokerSnapshot) {
    forall b :: Rearranged(a, b) ==> Discrepancies(local, b) == Discrepancies(local, a)
  }

  /** Two sets of discrepancies have one list in key order exactly when they are the same set. */
  lemma SameListSameSet(r: seq<Discrepancy>, s: seq<Discrepancy>, d: set<Discrepancy>, e: set<Discrepancy>, less: Ordering)
    requires TotalOrder(less) && Lists(r, d, less) && Lists(s, e, less)
    ensures r == s <==> d == e
  {
    if d == e {
      ListingIsUnique(r, s, d, less);
    }
    if r == s {
      forall x ensures x in d <==> x in e {
        assert x in r <==> x in s;
      }
    }
  }

  /** Whatever may be reported under some order must be reported under every order. */
  ghost predicate NothingOptional(local: LocalSnapshot, fixed: set<Discrepancy>, open: Standing<OpenObs>, fills: Standing<FillObs>) {
    forall d :: May(local, fixed, open, fills, d) ==> Must(local, fixed, open, fills, d)
  }

  lemma AsArranged(local: LocalSnapshot, a: BrokerSnapshot, usableOpen: set<OpenObs>, usableFills: set<FillObs>) returns (b: BrokerSnapshot)
    requires OpenStanding(a).Allows(usableOpen) && FillStanding(a).Allows(usableFills)
    ensures Rearranged(a, b) && KeptOpen(b) == usableOpen && KeptFills(b) == usableFills
  {
    var open := Arrange(a.open, OpenPayload, OpenUsableIn(a), usableOpen);
    var fills := Arrange(a.fills, FillPayload, FillUsableIn(a), usableFills);
    b := a.(open := open, fills := fills);
    RearrangedIsSameEvidence(a, b);
    FixedStays(local, a, b);
    assert OpenUsableIn(b) == OpenUsableIn(a) && FillUsableIn(b) == FillUsableIn(a);
  }

  /**
   * The order of the broker's observations does not matter if and only if every
   * discrepancy that some kept observation may report is reported whichever
   * observations are kept.
   */
  lemma OrderIrrelevantExactly(local: LocalSnapshot, a: BrokerSnapshot)
    ensures OrderIrrelevant(local, a) <==> NothingOptional(local, Fixed(local, a), OpenStanding(a), FillStanding(a))
  {
    var fixed, open, fills := Fixed(local, a), OpenStanding(a), FillStanding(a);
    if NothingOptional(local, fixed, open, fills) {
      forall b | Rearranged(a, b) ensures Discrepancies(local, b) == Discrepancies(local, a) {
        SameWhicheverKept(local, a, b);
      }
    }
    if OrderIrrelevant(local, a) {
      forall d | May(local, fixed, open, fills, d) ensures Must(local, fixed, open, fills, d) {
        ReportedUnderEveryOrder(local, a, d);
      }
    }
  }

  lemma SameWhicheverKept(local: LocalSnapshot, a: BrokerSnapshot, b: BrokerSnapshot)
    requires Rearranged(a, b) && NothingOptional(local, Fixed(local, a), OpenStanding(a), FillStanding(a))
    ensures Discrepancies(local, b) == Discrepancies(local, a)
  {
    var fixed, open, fills := Fixed(local, a), OpenStanding(a), FillStanding(a);
    RearrangedStandings(local, a, b);
    RearrangedStandings(local, a, a);
    forall d ensures d in Discrepancies(local, b) <==> d in Discrepancies(local, a) {
      DiscrepanciesAre(local, a, d);
      DiscrepanciesAre(local, b, d);
      ReportedBounds(local, fixed, open, fills, KeptOpen(a), KeptFills(a), d);
      ReportedBounds(local, fixed, open, fills, KeptOpen(b), KeptFills(b), d);
    }
  }

  lemma ReportedUnderEveryOrder(local: LocalSnapshot, a: BrokerSnapshot, d: Discrepancy)
    requires OrderIrrelevant(local, a) && May(local, Fixed(local, a), OpenStanding(a), FillStanding(a), d)
    ensures Must(local, Fixed(local, a), OpenStanding(a), FillStanding(a), d)
  {
    var withOpen, withFills, withoutOpen, withoutFills :=
      BoundsAreReached(local, Fixed(local, a), OpenStanding(a), FillStanding(a), d);
    var b := AsArranged(local, a, withOpen, withFills);
    var c := AsArranged(local, a, withoutOpen, withoutFills);
    RearrangedStandings(local, a, b);
    RearrangedStandings(local, a, c);
    DiscrepanciesAre(local, b, d);
    DiscrepanciesAre(local, c, d);
  }
}
