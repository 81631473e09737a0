/**
 * What a reconciliation verdict does not depend on: the order in which the
 * broker lists its observations, and how often it repeats one.
 */
module ReconciliationInvariance {
  import opened Wrappers
  import opened LiveContracts
  import opened ReconciliationContracts
  import opened Dedupe
  import opened Reconciliation
  import opened ReconciliationVerdict

  // ---- Equivalent evidence -------------------------------------------------------------

  /** One list of observations is the other in any order, followed by any number of redeliveries. */
  ghost predicate Redelivered<T(!new), I(!new)>(a: seq<T>, b: seq<T>, identities: T -> seq<I>, payload: T -> T) {
    exists shuffled, more :: multiset(shuffled) == multiset(a) && IsRedelivery(shuffled, more, b, identities, payload)
  }

  ghost predicate IsRedelivery<T(!new), I(!new)>(shuffled: seq<T>, more: seq<T>, b: seq<T>, identities: T -> seq<I>, payload: T -> T) {
    Echoes(shuffled, more, identities, payload) && multiset(shuffled + more) == multiset(b)
  }

  ghost predicate SameEvidence(a: BrokerSnapshot, b: BrokerSnapshot) {
    && a.openEvidence == b.openEvidence && a.fillEvidence == b.fillEvidence && a.positionEvidence == b.positionEvidence
    && Redelivered(a.open, b.open, OpenIdentities, OpenPayload)
    && Redelivered(a.fills, b.fills, FillIdentities, FillPayload)
    && Redelivered(a.positions, b.positions, PositionIdentities, PositionPayload)
  }

  /** What the assessment can tell of a list of observations without a reused identity. */
  ghost predicate Equivalent<T(!new), I(!new)>(a: seq<T>, b: seq<T>, identities: T -> seq<I>, payload: T -> T) {
    SamePayloads(a, b, payload) && (Consistent(a, identities, payload) <==> Consistent(b, identities, payload))
  }

  lemma RedeliveredIsEquivalent<T(!new), I(!new)>(a: seq<T>, b: seq<T>, identities: T -> seq<I>, payload: T -> T)
    requires Redelivered(a, b, identities, payload)
    ensures Equivalent(a, b, identities, payload)
  {
    var shuffled, more :| multiset(shuffled) == multiset(a) && IsRedelivery(shuffled, more, b, identities, payload);
    PermutedEvidence(a, shuffled, identities, payload);
    EchoesAddNothing(shuffled, more, identities, payload);
    PermutedEvidence(shuffled + more, b, identities, payload);
    SamePayloadsTransitive(a, shuffled, shuffled + more, payload);
    SamePayloadsTransitive(a, shuffled + more, b, payload);
  }

  ghost predicate AllEquivalent(a: BrokerSnapshot, b: BrokerSnapshot) {
    && a.openEvidence == b.openEvidence && a.fillEvidence == b.fillEvidence && a.positionEvidence == b.positionEvidence
    && Equivalent(a.open, b.open, OpenIdentities, OpenPayload)
    && Equivalent(a.fills, b.fills, FillIdentities, FillPayload)
    && Equivalent(a.positions, b.positions, PositionIdentities, PositionPayload)
  }

  /** A broker that repeats an order under an observation id nobody uses redelivers it. */
  lemma FreshOpenObservationIsEcho(values: seq<OpenObs>, b: OpenObs, freshId: Id, observedAt: Time, correlatedAt: Time)
    requires b in values && forall v :: v in values ==> v.observationId != freshId
    ensures Echo(values, b.(observationId := freshId, observedAt := observedAt,
                            correlation := b.correlation.(correlatedAt := correlatedAt)), OpenIdentities, OpenPayload)
  {
    var again := b.(observationId := freshId, observedAt := observedAt,
                    correlation := b.correlation.(correlatedAt := correlatedAt));
    assert OpenPayload(again) == OpenPayload(b);
    forall i | i in OpenIdentities(again)
      ensures i in OpenIdentities(b) || forall v :: v in values ==> i !in OpenIdentities(v)
    {
      if i != ObservationKey(freshId) {
        assert i in OpenIdentities(b);
      }
    }
    assert OwnOrFresh(values, b, again, OpenIdentities);
  }

  lemma FreshFillObservationIsEcho(values: seq<FillObs>, f: FillObs, freshId: Id, observedAt: Time, correlatedAt: Time)
    requires f in values && forall v :: v in values ==> v.observationId != freshId
    ensures Echo(values, f.(observationId := freshId, observedAt := observedAt,
                            correlation := f.correlation.(correlatedAt := correlatedAt)), FillIdentities, FillPayload)
  {
    var again := f.(observationId := freshId, observedAt := observedAt,
                    correlation := f.correlation.(correlatedAt := correlatedAt));
    assert FillPayload(again) == FillPayload(f);
    forall i | i in FillIdentities(again)
      ensures i in FillIdentities(f) || forall v :: v in values ==> i !in FillIdentities(v)
    {
      if i != ObservationKey(freshId) {
        assert i in FillIdentities(f);
      }
    }
    assert OwnOrFresh(values, f, again, FillIdentities);
  }

  // ---- Orders ---------------------------------------------------------------------------

  lemma SamePayloadSameIssues(local: LocalSnapshot, b: OpenObs, c: OpenObs)
    requires OpenPayload(b) == OpenPayload(c)
    ensures OpenIssues(local, b, {}) == OpenIssues(local, c, {})
    ensures forall o :: MatchedBy(o, local, b, {}) <==> MatchedBy(o, local, c, {})
  {
    SamePayloadSameOrder(CreatedOrderOf(b), b, c);
  }

  /** Some order, for lemmas that hold of every one. */
  function CreatedOrderOf(b: OpenObs): LiveOrder {
    LiveOrder(Intent("", "", b.accountId, b.instrumentId, b.side, b.total, Market, None, Day, false, 0),
              Created, b.total, 0.0, b.total, None, None, 1, 0, None, None)
  }

  lemma OpenIssuesReached(local: LocalSnapshot, a: seq<OpenObs>, b: seq<OpenObs>)
    requires forall v :: v in a ==> Has(b, OpenPayload, OpenPayload(v))
    ensures OpenIssuesOf(local, a, {}) <= OpenIssuesOf(local, b, {})
    ensures forall o :: Matched(o, local, Evidenced(a, {})) ==> Matched(o, local, Evidenced(b, {}))
    ensures OpenAmbiguous(Evidenced(a, {})) ==> OpenAmbiguous(Evidenced(b, {}))
  {
    forall d | d in OpenIssuesOf(local, a, {}) ensures d in OpenIssuesOf(local, b, {}) {
      var v :| v in a && d in OpenIssues(local, v, {});
      var w :| w in b && OpenPayload(w) == OpenPayload(v);
      SamePayloadSameIssues(local, v, w);
    }
    forall o | Matched(o, local, Evidenced(a, {})) ensures Matched(o, local, Evidenced(b, {})) {
      var v :| v in a && MatchedBy(o, local, v, {});
      var w :| w in b && OpenPayload(w) == OpenPayload(v);
      SamePayloadSameIssues(local, v, w);
    }
    if OpenAmbiguous(Evidenced(a, {})) {
      var v :| v in a && !v.correlation.status.Confirmed?;
      var w :| w in b && OpenPayload(w) == OpenPayload(v);
      SamePayloadSameOrder(CreatedOrderOf(v), v, w);
    }
  }

  lemma SameOpenIssues(local: LocalSnapshot, a: BrokerSnapshot, b: BrokerSnapshot)
    requires a.openEvidence == b.openEvidence && SamePayloads(a.open, b.open, OpenPayload)
    requires OpenEvidence(a).conflicts == {} && OpenEvidence(b).conflicts == {}
    ensures OrderIssues(local, a) == OrderIssues(local, b)
    ensures OpenAmbiguous(OpenEvidence(a)) <==> OpenAmbiguous(OpenEvidence(b))
    ensures MissingIssues(local.orders, local, OpenEvidence(a), a.openEvidence.status.Complete?)
            == MissingIssues(local.orders, local, OpenEvidence(b), b.openEvidence.status.Complete?)
  {
    FirstSeenSamePayloads(a.open, b.open, OpenPayload);
    var u, v := OpenEvidence(a).unique, OpenEvidence(b).unique;
    OpenIssuesReached(local, u, v);
    OpenIssuesReached(local, v, u);
    assert OpenEvidence(a) == Evidenced(u, {}) && OpenEvidence(b) == Evidenced(v, {});
    var complete := a.openEvidence.status.Complete?;
    assert MissingIssues(local.orders, local, Evidenced(u, {}), complete)
        == MissingIssues(local.orders, local, Evidenced(v, {}), complete);
  }

  // ---- Fills -----------------------------------------------------------------------------

  ghost predicate DistinctPayloads(s: seq<FillObs>) {
    forall f, g :: f in s && g in s && FillPayload(f) == FillPayload(g) ==> f == g
  }

  lemma FirstSeenDistinctPayloads(values: seq<FillObs>)
    ensures DistinctPayloads(FirstSeen(values, FillPayload))
  {
    forall f, g | f in FirstSeen(values, FillPayload) && g in FirstSeen(values, FillPayload) && FillPayload(f) == FillPayload(g)
      ensures f == g
    {
      UniqueByPayload(values, f, g);
    }
  }

  lemma SamePayloadSameClaim(local: LocalSnapshot, f: FillObs, g: FillObs, a: seq<FillObs>, b: seq<FillObs>, id: Id)
    requires FillPayload(f) == FillPayload(g)
    ensures Claims(local, Evidenced(a, {}), f, id) <==> Claims(local, Evidenced(b, {}), g, id)
    ensures FillUsable(f, {}) <==> FillUsable(g, {})
  {
    SamePayloadSameFill(local, f, g);
  }

  lemma CollidedReached(local: LocalSnapshot, a: seq<FillObs>, b: seq<FillObs>, id: Id)
    requires forall v :: v in a ==> Has(b, FillPayload, FillPayload(v))
    requires DistinctPayloads(a)
    ensures Collided(local, Evidenced(a, {}), id) ==> Collided(local, Evidenced(b, {}), id)
    ensures (exists f :: f in a && Claims(local, Evidenced(a, {}), f, id)) ==>
              exists f :: f in b && Claims(local, Evidenced(b, {}), f, id)
  {
    if exists f :: f in a && Claims(local, Evidenced(a, {}), f, id) {
      var f :| f in a && Claims(local, Evidenced(a, {}), f, id);
      var _ := ClaimReached(local, a, b, f, id);
    }
    if Collided(local, Evidenced(a, {}), id) {
      var f, g :| f in a && g in a && f != g && Claims(local, Evidenced(a, {}), f, id) && Claims(local, Evidenced(a, {}), g, id);
      var f' := ClaimReached(local, a, b, f, id);
      var g' := ClaimReached(local, a, b, g, id);
      assert f' != g';
    }
  }

  lemma ClaimReached(local: LocalSnapshot, a: seq<FillObs>, b: seq<FillObs>, f: FillObs, id: Id) returns (g: FillObs)
    requires Has(b, FillPayload, FillPayload(f)) && Claims(local, Evidenced(a, {}), f, id)
    ensures g in b && FillPayload(g) == FillPayload(f) && Claims(local, Evidenced(b, {}), g, id)
  {
    g :| g in b && FillPayload(g) == FillPayload(f);
    SamePayloadSameClaim(local, f, g, a, b, id);
  }

  /** Two deduplicated lists of one set of payloads agree on everything the fill phase looks at. */
  lemma SameCollisions(local: LocalSnapshot, a: seq<FillObs>, b: seq<FillObs>)
    requires SamePayloads(a, b, FillPayload) && DistinctPayloads(a) && DistinctPayloads(b)
    ensures forall id :: Collided(local, Evidenced(a, {}), id) <==> Collided(local, Evidenced(b, {}), id)
    ensures forall l :: Settled(l, local, Evidenced(a, {})) <==> Settled(l, local, Evidenced(b, {}))
  {
    forall id
      ensures Collided(local, Evidenced(a, {}), id) <==> Collided(local, Evidenced(b, {}), id)
      ensures (exists f :: f in a && Claims(local, Evidenced(a, {}), f, id)) <==>
              exists f :: f in b && Claims(local, Evidenced(b, {}), f, id)
    {
      CollidedReached(local, a, b, id);
      CollidedReached(local, b, a, id);
    }
  }

  lemma FillIssuesReached(local: LocalSnapshot, a: seq<FillObs>, b: seq<FillObs>)
    requires forall v :: v in a ==> Has(b, FillPayload, FillPayload(v))
    requires forall id :: Collided(local, Evidenced(a, {}), id) <==> Collided(local, Evidenced(b, {}), id)
    ensures FillIssuesOf(local, a, Evidenced(a, {})) <= FillIssuesOf(local, b, Evidenced(b, {}))
    ensures FillsAmbiguous(local, Evidenced(a, {})) ==> FillsAmbiguous(local, Evidenced(b, {}))
  {
    forall d | d in FillIssuesOf(local, a, Evidenced(a, {})) ensures d in FillIssuesOf(local, b, Evidenced(b, {})) {
      var f :| f in a && d in FillIssues(local, f, Evidenced(a, {}));
      var g :| g in b && FillPayload(g) == FillPayload(f);
      SameFillIssues(local, f, g, a, b);
    }
    if SomeTwoFills(local, Evidenced(a, {})) {
      var f :| f in a && FillUsable(f, {}) && Resolve(local.fills, f).TwoFills?;
      var g :| g in b && FillPayload(g) == FillPayload(f);
      SamePayloadSameFill(local, f, g);
      assert FillUsable(g, {});
    }
    if exists f :: f in a && !f.correlation.status.Confirmed? {
      var f :| f in a && !f.correlation.status.Confirmed?;
      var g :| g in b && FillPayload(g) == FillPayload(f);
      SamePayloadSameFill(local, f, g);
    }
  }

  lemma SameFillIssues(local: LocalSnapshot, f: FillObs, g: FillObs, a: seq<FillObs>, b: seq<FillObs>)
    requires FillPayload(f) == FillPayload(g)
    requires forall id :: Collided(local, Evidenced(a, {}), id) <==> Collided(local, Evidenced(b, {}), id)
    ensures FillIssues(local, f, Evidenced(a, {})) == FillIssues(local, g, Evidenced(b, {}))
  {
    SamePayloadSameFill(local, f, g);
  }

  lemma SameFillEvidence(local: LocalSnapshot, a: BrokerSnapshot, b: BrokerSnapshot)
    requires a.fillEvidence == b.fillEvidence && SamePayloads(a.fills, b.fills, FillPayload)
    requires FillEvidence(a).conflicts == {} && FillEvidence(b).conflicts == {}
    ensures AllFillIssues(local, a) == AllFillIssues(local, b)
    ensures FillsAmbiguous(local, FillEvidence(a)) <==> FillsAmbiguous(local, FillEvidence(b))
    ensures UnmatchedIssues(local.fills, local, FillEvidence(a), a.fillEvidence.status.Complete?)
            == UnmatchedIssues(local.fills, local, FillEvidence(b), b.fillEvidence.status.Complete?)
  {
    FirstSeenSamePayloads(a.fills, b.fills, FillPayload);
    FirstSeenDistinctPayloads(a.fills);
    FirstSeenDistinctPayloads(b.fills);
    var u, v := FillEvidence(a).unique, FillEvidence(b).unique;
    SameCollisions(local, u, v);
    FillIssuesReached(local, u, v);
    FillIssuesReached(local, v, u);
    assert FillEvidence(a) == Evidenced(u, {}) && FillEvidence(b) == Evidenced(v, {});
    var complete := a.fillEvidence.status.Complete?;
    assert UnmatchedIssues(local.fills, local, Evidenced(u, {}), complete)
        == UnmatchedIssues(local.fills, local, Evidenced(v, {}), complete);
  }

  // ---- Positions -----------------------------------------------------------------------

  lemma NetReached(a: BrokerSnapshot, b: BrokerSnapshot, i: Id)
    requires forall v :: v in a.positions ==> Has(b.positions, PositionPayload, PositionPayload(v))
    requires Consistent(a.positions, PositionIdentities, PositionPayload) && PositionEvidence(a).conflicts == {}
    requires Consistent(b.positions, PositionIdentities, PositionPayload) && PositionEvidence(b).conflicts == {}
    requires i in BrokerPositions(PositionEvidence(a).unique, {})
    ensures i in BrokerPositions(PositionEvidence(b).unique, {})
    ensures BrokerPositions(PositionEvidence(a).unique, {})[i] == BrokerPositions(PositionEvidence(b).unique, {})[i]
  {
    BrokerPositionsMeaning(PositionEvidence(a).unique, {});
    FirstSeenCovers(a.positions, PositionPayload);
    var p :| p in PositionEvidence(a).unique && p.instrumentId == i;
    var q :| q in b.positions && PositionPayload(q) == PositionPayload(p);
    assert PositionPayload(q).instrumentId == PositionPayload(p).instrumentId && PositionPayload(q).net == PositionPayload(p).net;
    BrokerNet(a, p);
    BrokerNet(b, q);
  }

  lemma SamePositionIssues(local: LocalSnapshot, a: BrokerSnapshot, b: BrokerSnapshot)
    requires a.positionEvidence == b.positionEvidence && SamePayloads(a.positions, b.positions, PositionPayload)
    requires Consistent(a.positions, PositionIdentities, PositionPayload) && PositionEvidence(a).conflicts == {}
    requires Consistent(b.positions, PositionIdentities, PositionPayload) && PositionEvidence(b).conflicts == {}
    ensures AllPositionIssues(local, a) == AllPositionIssues(local, b)
  {
    var m, n := BrokerPositions(PositionEvidence(a).unique, {}), BrokerPositions(PositionEvidence(b).unique, {});
    forall i | i in m ensures i in n && m[i] == n[i] {
      NetReached(a, b, i);
    }
    forall i | i in n ensures i in m {
      NetReached(b, a, i);
    }
    assert m == n;
  }

  // ---- The theorems -----------------------------------------------------------------------

  lemma EquivalentEvidenceSameFindings(local: LocalSnapshot, a: BrokerSnapshot, b: BrokerSnapshot)
    requires AllEquivalent(a, b) && Unambiguous(a)
    ensures Discrepancies(local, a) == Discrepancies(local, b)
    ensures StatusOf(local, a) == StatusOf(local, b)
  {
    NoConflicts(a);
    NoConflicts(b);
    SameOpenIssues(local, a, b);
    SameFillEvidence(local, a, b);
    SamePositionIssues(local, a, b);
  }

  lemma NoConflicts(broker: BrokerSnapshot)
    ensures Unambiguous(broker) <==>
            OpenEvidence(broker).conflicts == {} && FillEvidence(broker).conflicts == {} && PositionEvidence(broker).conflicts == {}
  {
    ConflictFree(broker.open, OpenIdentities, OpenPayload);
    ConflictFree(broker.fills, FillIdentities, FillPayload);
    ConflictFree(broker.positions, PositionIdentities, PositionPayload);
  }

  /** The status and `may_resume` never depend on the order or the repetition of the broker's observations. */
  lemma VerdictIgnoresRedelivery(local: LocalSnapshot, a: BrokerSnapshot, b: BrokerSnapshot, r: Result, s: Result, less: Ordering)
    requires SameEvidence(a, b)
    requires r.status == StatusOf(local, a) && Lists(r.discrepancies, Discrepancies(local, a), less)
    requires s.status == StatusOf(local, b) && Lists(s.discrepancies, Discrepancies(local, b), less)
    ensures r.status == s.status
    ensures Assessment(local, a, r).MayResume() <==> Assessment(local, b, s).MayResume()
  {
    SameEvidenceIsEquivalent(a, b);
    NoConflicts(a);
    NoConflicts(b);
    if Unambiguous(a) {
      EquivalentEvidenceSameFindings(local, a, b);
      ListingIsEmpty(r.discrepancies, Discrepancies(local, a), less);
      ListingIsEmpty(s.discrepancies, Discrepancies(local, b), less);
    }
  }

  lemma SameEvidenceIsEquivalent(a: BrokerSnapshot, b: BrokerSnapshot)
    requires SameEvidence(a, b)
    ensures AllEquivalent(a, b)
  {
    RedeliveredIsEquivalent(a.open, b.open, OpenIdentities, OpenPayload);
    RedeliveredIsEquivalent(a.fills, b.fills, FillIdentities, FillPayload);
    RedeliveredIsEquivalent(a.positions, b.positions, PositionIdentities, PositionPayload);
  }

  /** When no identity is reused with another payload, the ordered discrepancy list does not depend on it either. */
  lemma ListIgnoresRedelivery(local: LocalSnapshot, a: BrokerSnapshot, b: BrokerSnapshot,
                              r: seq<Discrepancy>, s: seq<Discrepancy>, less: Ordering)
    requires SameEvidence(a, b) && Unambiguous(a) && TotalOrder(less)
    requires Lists(r, Discrepancies(local, a), less) && Lists(s, Discrepancies(local, b), less)
    ensures r == s
  {
    SameEvidenceIsEquivalent(a, b);
    EquivalentEvidenceSameFindings(local, a, b);
    ListingIsUnique(r, s, Discrepancies(local, a), less);
  }
}
