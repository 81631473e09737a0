/**
 * When redeliveries may change the list of discrepancies.  A payload that is
 * unusable only because its observation id is reused becomes usable when the
 * broker repeats it under another id.
 */
module ReconciliationRedelivery {
  import opened Wrappers
  import opened LiveContracts
  import opened ReconciliationContracts
  import opened Dedupe
  import opened Reconciliation
  import opened ReconciliationVerdict
  import opened ReconciliationInvariance
  import opened ReportProfiles
  import opened ReconciliationOrder

  /**
   * A kind of observation: its identities, led by its own observation id, its
   * payload, which decides the other identities, and how it looks when repeated
   * under another observation id.
   */
  datatype Shape<!T> = Shape(identities: T -> seq<Identity>, payload: T -> T, confirmed: T -> bool, repeated: (T, Id) -> T)
  {
    predicate Usable(v: T, conflicts: set<Identity>) {
      confirmed(v) && !Touches(identities(v), conflicts)
    }

    /** Usable but for its observation id. */
    predicate Clean(v: T, conflicts: set<Identity>) {
      confirmed(v) && !exists i :: i in identities(v) && !i.ObservationKey? && i in conflicts
    }
  }

  ghost predicate WellShaped<T(!new)>(s: Shape<T>) {
    && (forall v, w :: s.payload(v) == s.payload(w) ==> SameButId(s, v, w))
    && (forall v :: Led(s, v))
    && (forall v, id :: s.payload(s.repeated(v, id)) == s.payload(v) && OwnId(s, s.repeated(v, id)) == id)
  }

  ghost predicate SameButId<T(!new)>(s: Shape<T>, v: T, w: T) {
    s.confirmed(v) == s.confirmed(w) && forall i: Identity :: !i.ObservationKey? ==> (i in s.identities(v) <==> i in s.identities(w))
  }

  /** The only observation id among the identities is the first one. */
  predicate Led<T(!new)>(s: Shape<T>, v: T) {
    s.identities(v) != [] && s.identities(v)[0].ObservationKey?
    && forall i :: i in s.identities(v) && i.ObservationKey? ==> i == s.identities(v)[0]
  }

  function OwnId<T(!new)>(s: Shape<T>, v: T): Id {
    if Led(s, v) then s.identities(v)[0].id else ""
  }

  // ---- Redelivery keeps standings within bounds ---------------------------------------------

  function UsableUnder<T(!new)>(s: Shape<T>, conflicts: set<Identity>): T -> bool {
    (v: T) => s.Usable(v, conflicts)
  }

  /** What the payloads may be worth once the broker has repeated some of them. */
  function Wide<T(!new, ==)>(s: Shape<T>, values: seq<T>, conflicts: set<Identity>): Standing<T> {
    StandingOf(values, s.payload, UsableUnder(s, conflicts)).(sometimes := set v | v in values && s.Clean(v, conflicts) :: s.payload(v))
  }

  lemma CleanByPayload<T(!new)>(s: Shape<T>, v: T, w: T, conflicts: set<Identity>)
    requires WellShaped(s) && s.payload(v) == s.payload(w)
    ensures s.Clean(v, conflicts) <==> s.Clean(w, conflicts)
    ensures s.Usable(v, conflicts) ==> s.Clean(w, conflicts)
    ensures s.Usable(v, conflicts) <==> s.Clean(v, conflicts) && ObservationKey(OwnId(s, v)) !in conflicts
  {
    assert SameButId(s, v, w) && Led(s, v) && Led(s, w);
    assert s.identities(v)[0] in s.identities(v);
  }

  lemma WideIsValid<T(!new)>(s: Shape<T>, values: seq<T>, conflicts: set<Identity>)
    requires WellShaped(s)
    ensures Wide(s, values, conflicts).Valid()
    ensures StandingOf(values, s.payload, UsableUnder(s, conflicts)).sometimes <= Wide(s, values, conflicts).sometimes
  {
    forall v | v in values && s.Usable(v, conflicts) ensures s.Clean(v, conflicts) {
      CleanByPayload(s, v, v, conflicts);
    }
  }

  /** A redelivery of a payload that was always usable is usable as well. */
  lemma EchoStaysUsable<T(!new)>(s: Shape<T>, values: seq<T>, again: T, material: T)
    requires WellShaped(s) && Echo(values, again, s.identities, s.payload)
    requires var c := Conflicts(values, s.identities, s.payload); AllUsable(values, s.payload, UsableUnder(s, c), material)
    ensures var c := Conflicts(values, s.identities, s.payload); AllUsable(values + [again], s.payload, UsableUnder(s, c), material)
  {
    var c := Conflicts(values, s.identities, s.payload);
    var u :| u in values && s.payload(u) == s.payload(again) && OwnOrFresh(values, u, again, s.identities);
    if s.payload(again) == material {
      assert UsableUnder(s, c)(u);
      assert SameButId(s, u, again);
      forall i | i in s.identities(again) ensures i !in c {
        if i in s.identities(u) {
          assert i !in c;
        } else {
          assert forall v :: v in values ==> i !in s.identities(v);
        }
      }
      assert UsableUnder(s, c)(again);
    }
  }

  lemma {:induction false} EchoesStayUsable<T(!new)>(s: Shape<T>, values: seq<T>, more: seq<T>, material: T)
    requires WellShaped(s) && Echoes(values, more, s.identities, s.payload)
    requires var c := Conflicts(values, s.identities, s.payload); AllUsable(values, s.payload, UsableUnder(s, c), material)
    ensures var c := Conflicts(values, s.identities, s.payload); AllUsable(values + more, s.payload, UsableUnder(s, c), material)
    decreases |more|
  {
    if more == [] {
      assert values + more == values;
    } else {
      var one := values + [more[0]];
      EchoKeepsConflicts(values, more[0], s.identities, s.payload);
      EchoStaysUsable(s, values, more[0], material);
      EchoesStayUsable(s, one, more[1..], material);
      assert one + more[1..] == values + more;
    }
  }

  /** Whatever is redelivered, the kept observations stay within the wide standing. */
  lemma RedeliveredIsAllowed<T(!new)>(s: Shape<T>, a: seq<T>, b: seq<T>)
    requires WellShaped(s) && Redelivered(a, b, s.identities, s.payload)
    ensures var c := Conflicts(a, s.identities, s.payload);
            && Wide(s, a, c).Allows(Kept(b, s.payload, UsableUnder(s, c)))
            && StandingOf(b, s.payload, UsableUnder(s, c)).all == Wide(s, a, c).all
  {
    var c := Conflicts(a, s.identities, s.payload);
    RedeliveredIsEquivalent(a, b, s.identities, s.payload);
    FirstSeenCovers(b, s.payload);
    forall m | m in Wide(s, a, c).always ensures m in Kept(b, s.payload, UsableUnder(s, c)) {
      SteadyIsKept(s, a, b, m);
    }
    forall u | u in FirstSeen(b, s.payload) && s.Usable(u, c) ensures s.payload(u) in Wide(s, a, c).sometimes {
      var v :| v in a && s.payload(v) == s.payload(u);
      CleanByPayload(s, u, v, c);
    }
    AllShown(s.payload, a, b, UsableUnder(s, c));
  }

  lemma AllShown<T(!new)>(payload: T -> T, a: seq<T>, b: seq<T>, usable: T -> bool)
    requires SamePayloads(a, b, payload)
    ensures StandingOf(b, payload, usable).all == StandingOf(a, payload, usable).all
  {
    forall v | v in a ensures payload(v) in StandingOf(b, payload, usable).all {
      var w :| w in b && payload(w) == payload(v);
    }
    forall w | w in b ensures payload(w) in StandingOf(a, payload, usable).all {
      var v :| v in a && payload(v) == payload(w);
    }
  }

  lemma SteadyIsKept<T(!new)>(s: Shape<T>, a: seq<T>, b: seq<T>, material: T)
    requires WellShaped(s) && Redelivered(a, b, s.identities, s.payload)
    requires material in Wide(s, a, Conflicts(a, s.identities, s.payload)).always
    ensures material in Kept(b, s.payload, UsableUnder(s, Conflicts(a, s.identities, s.payload)))
  {
    var c := Conflicts(a, s.identities, s.payload);
    var shuffled, more :| multiset(shuffled) == multiset(a) && IsRedelivery(shuffled, more, b, s.identities, s.payload);
    SameMembers(shuffled, a);
    SameMembers(shuffled + more, b);
    SameConflicts(shuffled, a, s.identities, s.payload);
    var v :| v in a && AllUsable(a, s.payload, UsableUnder(s, c), s.payload(v)) && s.payload(v) == material;
    EchoesStayUsable(s, shuffled, more, material);
    assert v in shuffled && v in shuffled + more;
    FirstSeenCovers(b, s.payload);
    var u :| u in FirstSeen(b, s.payload) && s.payload(u) == material;
    assert UsableUnder(s, c)(u);
  }

  // ---- Every wide standing is reached ---------------------------------------------------------

  /** An id longer than every observation id. */
  function FreshId<T(!new)>(s: Shape<T>, values: seq<T>): (id: Id)
    ensures forall v :: v in values ==> |OwnId(s, v)| < |id|
  {
    if values == [] then ""
    else
      var rest, own := FreshId(s, values[1..]), OwnId(s, values[0]);
      if |own| < |rest| then rest else own + "x"
  }

  lemma RepeatIsEcho<T(!new)>(s: Shape<T>, values: seq<T>, v: T)
    requires WellShaped(s) && v in values
    ensures var again := s.repeated(v, FreshId(s, values));
            && Echo(values, again, s.identities, s.payload)
            && (s.Clean(v, Conflicts(values, s.identities, s.payload)) ==>
                  s.Usable(again, Conflicts(values, s.identities, s.payload)))
  {
    var id := FreshId(s, values);
    var again := s.repeated(v, id);
    assert SameButId(s, v, again) && Led(s, again) && OwnId(s, again) == id;
    forall w | w in values ensures ObservationKey(id) !in s.identities(w) {
      assert Led(s, w);
    }
    assert OwnOrFresh(values, v, again, s.identities);
    var c := Conflicts(values, s.identities, s.payload);
    CleanByPayload(s, again, v, c);
    assert ObservationKey(id) !in c;
  }

  /** Repeating some of the observations under fresh ids. */
  lemma {:induction false} RepeatAll<T(!new)>(s: Shape<T>, values: seq<T>, again: seq<T>) returns (more: seq<T>)
    requires WellShaped(s) && forall v :: v in again ==> v in values
    ensures Echoes(values, more, s.identities, s.payload)
    ensures var c := Conflicts(values, s.identities, s.payload);
            forall v :: v in again && s.Clean(v, c) ==> exists w :: w in more && s.payload(w) == s.payload(v) && s.Usable(w, c)
    decreases |again|
  {
    if again == [] {
      more := [];
    } else {
      var c := Conflicts(values, s.identities, s.payload);
      var first := s.repeated(again[0], FreshId(s, values));
      RepeatIsEcho(s, values, again[0]);
      EchoKeepsConflicts(values, first, s.identities, s.payload);
      assert forall v :: v in again[1..] ==> v in again;
      var rest := RepeatAll(s, values + [first], again[1..]);
      more := [first] + rest;
      assert more[0] == first && more[1..] == rest;
      forall v | v in again && s.Clean(v, c) ensures exists w :: w in more && s.payload(w) == s.payload(v) && s.Usable(w, c) {
        if v == again[0] {
          assert first in more && s.payload(first) == s.payload(v);
        } else {
          assert v in again[1..];
          var w :| w in rest && s.payload(w) == s.payload(v) && s.Usable(w, c);
          assert w in more;
        }
      }
    }
  }

  /** Once everything has been repeated under a fresh id, the standing is the wide one. */
  lemma RepeatedStanding<T(!new)>(s: Shape<T>, values: seq<T>, more: seq<T>)
    requires WellShaped(s) && Echoes(values, more, s.identities, s.payload)
    requires var c := Conflicts(values, s.identities, s.payload);
             forall v :: v in values && s.Clean(v, c) ==> exists w :: w in more && s.payload(w) == s.payload(v) && s.Usable(w, c)
    ensures var c := Conflicts(values, s.identities, s.payload);
            StandingOf(values + more, s.payload, UsableUnder(s, c)) == Wide(s, values, c)
  {
    var c := Conflicts(values, s.identities, s.payload);
    var wide, all := Wide(s, values, c), StandingOf(values + more, s.payload, UsableUnder(s, c));
    EchoesAddNothing(values, more, s.identities, s.payload);
    AllShown(s.payload, values, values + more, UsableUnder(s, c));
    forall m ensures m in all.always <==> m in wide.always {
      SameSteady(s, values, more, m);
    }
    forall m ensures m in all.sometimes <==> m in wide.sometimes {
      if m in all.sometimes {
        var w :| w in values + more && UsableUnder(s, c)(w) && s.payload(w) == m;
        var v :| v in values && s.payload(v) == m;
        CleanByPayload(s, w, v, c);
      }
      if m in wide.sometimes {
        var v :| v in values && s.Clean(v, c) && s.payload(v) == m;
        var w :| w in more && s.payload(w) == s.payload(v) && s.Usable(w, c);
        assert w in values + more && UsableUnder(s, c)(w);
      }
    }
  }

  lemma SameSteady<T(!new)>(s: Shape<T>, values: seq<T>, more: seq<T>, m: T)
    requires WellShaped(s) && Echoes(values, more, s.identities, s.payload)
    ensures var c := Conflicts(values, s.identities, s.payload);
            m in StandingOf(values + more, s.payload, UsableUnder(s, c)).always
            <==> m in StandingOf(values, s.payload, UsableUnder(s, c)).always
  {
    var c := Conflicts(values, s.identities, s.payload);
    var usable := UsableUnder(s, c);
    EchoesAddNothing(values, more, s.identities, s.payload);
    if m in StandingOf(values, s.payload, usable).always {
      var v :| v in values && AllUsable(values, s.payload, usable, s.payload(v)) && s.payload(v) == m;
      EchoesStayUsable(s, values, more, m);
      assert v in values + more;
    }
    if m in StandingOf(values + more, s.payload, usable).always {
      var w :| w in values + more && AllUsable(values + more, s.payload, usable, s.payload(w)) && s.payload(w) == m;
      var v :| v in values && s.payload(v) == m;
      assert forall x :: x in values ==> x in values + more;
      assert AllUsable(values, s.payload, usable, m);
    }
  }

  /** Every choice within the wide standing is made by some redelivery. */
  lemma Redeliver<T(!new)>(s: Shape<T>, values: seq<T>, wanted: set<T>) returns (b: seq<T>)
    requires WellShaped(s) && Wide(s, values, Conflicts(values, s.identities, s.payload)).Allows(wanted)
    ensures Redelivered(values, b, s.identities, s.payload)
    ensures Kept(b, s.payload, UsableUnder(s, Conflicts(values, s.identities, s.payload))) == wanted
  {
    var c := Conflicts(values, s.identities, s.payload);
    var more := RepeatAll(s, values, values);
    RepeatedStanding(s, values, more);
    b := Arrange(values + more, s.payload, UsableUnder(s, c), wanted);
    assert IsRedelivery(values, more, b, s.identities, s.payload);
  }

  // ---- Open orders and fills ---------------------------------------------------------------------

  function OpenShape(): Shape<OpenObs> {
    Shape(OpenIdentities, OpenPayload, (b: OpenObs) => b.correlation.status.Confirmed? && b.correlation.clientOrderId.Some?,
          (b: OpenObs, id: Id) => b.(observationId := id))
  }

  function FillShape(): Shape<FillObs> {
    Shape(FillIdentities, FillPayload, (f: FillObs) => f.correlation.status.Confirmed?,
          (f: FillObs, id: Id) => f.(observationId := id))
  }

  lemma OpenIsWellShaped()
    ensures WellShaped(OpenShape())
  {
    var s := OpenShape();
    forall v, w | s.payload(v) == s.payload(w) ensures SameButId(s, v, w) {
      SamePayloadSameOrder(CreatedOrderOf(v), v, w);
    }
    forall v ensures Led(s, v) {
      assert s.identities(v)[0] == ObservationKey(v.observationId);
    }
  }

  lemma FillIsWellShaped(local: LocalSnapshot)
    ensures WellShaped(FillShape())
  {
    var s := FillShape();
    forall v, w | s.payload(v) == s.payload(w) ensures SameButId(s, v, w) {
      SamePayloadSameFill(local, v, w);
    }
    forall v ensures Led(s, v) {
      assert s.identities(v)[0] == ObservationKey(v.observationId);
    }
  }

  function OpenWide(broker: BrokerSnapshot): Standing<OpenObs> {
    Wide(OpenShape(), broker.open, OpenEvidence(broker).conflicts)
  }

  function FillWide(broker: BrokerSnapshot): Standing<FillObs> {
    Wide(FillShape(), broker.fills, FillEvidence(broker).conflicts)
  }

  lemma SameUsability(broker: BrokerSnapshot)
    ensures KeptOpen(broker) == Kept(broker.open, OpenPayload, UsableUnder(OpenShape(), OpenEvidence(broker).conflicts))
    ensures KeptFills(broker) == Kept(broker.fills, FillPayload, UsableUnder(FillShape(), FillEvidence(broker).conflicts))
  {
    assert forall b :: OpenUsableIn(broker)(b) == UsableUnder(OpenShape(), OpenEvidence(broker).conflicts)(b);
    assert forall f :: FillUsableIn(broker)(f) == UsableUnder(FillShape(), FillEvidence(broker).conflicts)(f);
  }

  /** No reordering and no redelivery of the same observations leads to another set of discrepancies, and so to another list. */
  ghost predicate RedeliveryIrrelevant(local: LocalSnapshot, a: BrokerSnapshot) {
    forall b :: SameEvidence(a, b) ==> Discrepancies(local, b) == Discrepancies(local, a)
  }

  lemma RedeliveredStandings(local: LocalSnapshot, a: BrokerSnapshot, b: BrokerSnapshot)
    requires SameEvidence(a, b)
    ensures Fixed(local, b) == Fixed(local, a)
    ensures OpenWide(a).Valid() && OpenWide(a).Allows(KeptOpen(b)) && OpenStanding(b).all == OpenWide(a).all
    ensures FillWide(a).Valid() && FillWide(a).Allows(KeptFills(b)) && FillStanding(b).all == FillWide(a).all
  {
    FixedStays(local, a, b);
    OpenIsWellShaped();
    FillIsWellShaped(local);
    WideIsValid(OpenShape(), a.open, OpenEvidence(a).conflicts);
    WideIsValid(FillShape(), a.fills, FillEvidence(a).conflicts);
    RedeliveredIsAllowed(OpenShape(), a.open, b.open);
    RedeliveredIsAllowed(FillShape(), a.fills, b.fills);
    SameUsability(b);
  }

  lemma RedeliveredReports(local: LocalSnapshot, a: BrokerSnapshot, b: BrokerSnapshot, d: Discrepancy)
    requires SameEvidence(a, b)
    ensures d in Discrepancies(local, b)
            <==> Reported(local, Fixed(local, a), OpenWide(a), FillWide(a), KeptOpen(b), KeptFills(b), d)
  {
    RedeliveredStandings(local, a, b);
    DiscrepanciesAre(local, b, d);
  }

  lemma AsRedelivered(local: LocalSnapshot, a: BrokerSnapshot, usableOpen: set<OpenObs>, usableFills: set<FillObs>)
    returns (b: BrokerSnapshot)
    requires OpenWide(a).Allows(usableOpen) && FillWide(a).Allows(usableFills)
    ensures SameEvidence(a, b) && KeptOpen(b) == usableOpen && KeptFills(b) == usableFills
  {
    OpenIsWellShaped();
    FillIsWellShaped(local);
    var open := Redeliver(OpenShape(), a.open, usableOpen);
    var fills := Redeliver(FillShape(), a.fills, usableFills);
    b := a.(open := open, fills := fills);
    Shuffled(a.positions, b.positions, PositionIdentities, PositionPayload);
    FixedStays(local, a, b);
    SameUsability(b);
  }

  /**
   * Neither the order nor the repetition of the broker's observations matters
   * if and only if every discrepancy that may be reported is reported however
   * the broker repeats itself.
   */
  lemma RedeliveryIrrelevantExactly(local: LocalSnapshot, a: BrokerSnapshot)
    ensures RedeliveryIrrelevant(local, a) <==> NothingOptional(local, Fixed(local, a), OpenWide(a), FillWide(a))
  {
    var fixed, open, fills := Fixed(local, a), OpenWide(a), FillWide(a);
    if NothingOptional(local, fixed, open, fills) {
      forall b | SameEvidence(a, b) ensures Discrepancies(local, b) == Discrepancies(local, a) {
        SameHoweverRepeated(local, a, b);
      }
    }
    if RedeliveryIrrelevant(local, a) {
      forall d | May(local, fixed, open, fills, d) ensures Must(local, fixed, open, fills, d) {
        ReportedHoweverRepeated(local, a, d);
      }
    }
  }

  lemma SameHoweverRepeated(local: LocalSnapshot, a: BrokerSnapshot, b: BrokerSnapshot)
    requires SameEvidence(a, b) && NothingOptional(local, Fixed(local, a), OpenWide(a), FillWide(a))
    ensures Discrepancies(local, b) == Discrepancies(local, a)
  {
    RearrangedIsSameEvidence(a, a);
    RedeliveredStandings(local, a, a);
    RedeliveredStandings(local, a, b);
    forall d ensures d in Discrepancies(local, b) <==> d in Discrepancies(local, a) {
      RedeliveredReports(local, a, a, d);
      RedeliveredReports(local, a, b, d);
      ReportedBounds(local, Fixed(local, a), OpenWide(a), FillWide(a), KeptOpen(a), KeptFills(a), d);
      ReportedBounds(local, Fixed(local, a), OpenWide(a), FillWide(a), KeptOpen(b), KeptFills(b), d);
    }
  }

  lemma ReportedHoweverRepeated(local: LocalSnapshot, a: BrokerSnapshot, d: Discrepancy)
    requires RedeliveryIrrelevant(local, a) && May(local, Fixed(local, a), OpenWide(a), FillWide(a), d)
    ensures Must(local, Fixed(local, a), OpenWide(a), FillWide(a), d)
  {
    RearrangedIsSameEvidence(a, a);
    RedeliveredStandings(local, a, a);
    var withOpen, withFills, withoutOpen, withoutFills :=
      BoundsAreReached(local, Fixed(local, a), OpenWide(a), FillWide(a), d);
    var b := AsRedelivered(local, a, withOpen, withFills);
    var c := AsRedelivered(local, a, withoutOpen, withoutFills);
    RedeliveredReports(local, a, b, d);
    RedeliveredReports(local, a, c, d);
  }

  // ---- A reused observation id -----------------------------------------------------------------------

  /** An order the account has no record of, shown under an observation id. */
  function Seen(observationId: Id, clientOrderId: Id): OpenObs {
    OpenObs(observationId, "account", "instrument", Buy, 1.0, 1.0, None,
            Correlation(Confirmed, Some(clientOrderId), None, None, Some("sequence"), None, None, None, None, 0), 0)
  }

  function Showing(open: seq<OpenObs>): BrokerSnapshot {
    var complete := Evidence(Complete, 0);
    BrokerSnapshot("snapshot", "account", open, complete, [], complete, [], complete, 0)
  }

  function NoRecords(): LocalSnapshot {
    LocalSnapshot("account", [], [], [], 0, [], 0)
  }

  lemma SampleIsValid(open: seq<OpenObs>)
    requires forall b :: b in open ==> exists o, c :: b == Seen(o, c)
    ensures NoRecords().Valid() && Showing(open).Valid()
  {
  }

  /** The id b stands for two orders, whatever else is shown; no other identity is reused. */
  lemma OnlyTheReusedId(open: seq<OpenObs>, first: Id, second: Id)
    requires first != second && Seen("b", first) in open && Seen("b", second) in open
    requires forall v :: v in open ==> v in {Seen("a", first), Seen("b", first), Seen("b", second)}
    ensures Conflicts(open, OpenIdentities, OpenPayload) == {ObservationKey("b")}
    ensures forall o, c :: OpenIdentities(Seen(o, c)) == [ObservationKey(o), ClientKey(c)]
  {
    var q, other := Seen("b", first), Seen("b", second);
    assert OpenPayload(q).correlation.clientOrderId != OpenPayload(other).correlation.clientOrderId;
    assert OpenPayload(Seen("a", first)) == OpenPayload(q);
    assert forall o, c :: OpenIdentities(Seen(o, c)) == [ObservationKey(o), ClientKey(c)];
    assert Reused(open, OpenIdentities, OpenPayload, ObservationKey("b"), OpenPayload(q));
  }

  /** Without records and fills nothing is reported but what open orders report. */
  lemma NothingElse(open: seq<OpenObs>, d: Discrepancy)
    ensures Fixed(NoRecords(), Showing(open)) == {}
    ensures !FillMay(NoRecords(), FillStanding(Showing(open)), d) && !FillMust(NoRecords(), FillStanding(Showing(open)), d)
    ensures !FillMay(NoRecords(), FillWide(Showing(open)), d) && !FillMust(NoRecords(), FillWide(Showing(open)), d)
  {
    assert PositionEvidence(Showing(open)).unique == [];
  }

  lemma SampleReport(observation: Id, client: Id, usable: bool)
    ensures OpenReport(NoRecords(), OpenPayload(Seen(observation, client)), usable)
            == {if usable then Issue(MissingLocalOrder, "instrument", Some(client)) else Unusable("instrument")}
  {
  }

  /**
   * The order matters when a payload is shown under a reused id and under
   * another one; with the reused id alone it does not, though a repetition would.
   */
  lemma ReusedIdMatters(first: Id, second: Id)
    requires first != second
    ensures var local, a := NoRecords(), Showing([Seen("a", first), Seen("b", first), Seen("b", second)]);
            local.Valid() && a.Valid() && !OrderIrrelevant(local, a)
    ensures var local, a := NoRecords(), Showing([Seen("b", first), Seen("b", second)]);
            local.Valid() && a.Valid() && OpenEvidence(a).conflicts != {} && OrderIrrelevant(local, a) && !RedeliveryIrrelevant(local, a)
  {
    SometimesUsableMatters(first, second);
    NeverUsableDoesNotMatter(first, second);
    UsableAgainMatters(first, second);
  }

  lemma SamplePayload(observation: Id, client: Id)
    ensures OpenPayload(Seen(observation, client)) == Seen("", client)
  {
  }

  /** A payload that is not always usable, but sometimes, may be reported as an unknown order and need not be. */
  lemma Optional(s: Standing<OpenObs>, first: Id, second: Id)
    requires s.always == {} && Seen("", first) in s.all && s.all <= {Seen("", first), Seen("", second)} && Seen("", first) in s.sometimes
    ensures OpenMay(NoRecords(), s, Issue(MissingLocalOrder, "instrument", Some(first)))
    ensures !OpenMust(NoRecords(), s, Issue(MissingLocalOrder, "instrument", Some(first)))
  {
    SamplePayload("", first);
    SamplePayload("", second);
    SampleReport("", first, true);
    SampleReport("", first, false);
    SampleReport("", second, false);
  }

  /** Two payloads, each with an observation that is not usable. */
  lemma NoneAlways(values: seq<OpenObs>, usable: OpenObs -> bool, q: OpenObs, other: OpenObs, first: Id, second: Id)
    requires forall v :: v in values ==> OpenPayload(v) in {Seen("", first), Seen("", second)}
    requires q in values && OpenPayload(q) == Seen("", first) && !usable(q)
    requires other in values && OpenPayload(other) == Seen("", second) && !usable(other)
    ensures var s := StandingOf(values, OpenPayload, usable); s.always == {} && Seen("", first) in s.all && s.all <= {Seen("", first), Seen("", second)}
  {
  }

  /** What is wrong with the sample observations: only those under the reused id are unusable. */
  lemma SampleUsability(open: seq<OpenObs>, first: Id, second: Id)
    requires first != second && Seen("b", first) in open && Seen("b", second) in open
    requires forall v :: v in open ==> v in {Seen("a", first), Seen("b", first), Seen("b", second)}
    ensures var c := OpenEvidence(Showing(open)).conflicts;
            && c == {ObservationKey("b")} && OpenUsable(Seen("a", first), c)
            && !OpenUsable(Seen("b", first), c) && !OpenUsable(Seen("b", second), c) && OpenShape().Clean(Seen("b", first), c)
    ensures forall v :: v in open ==> OpenPayload(v) in {Seen("", first), Seen("", second)}
  {
    OnlyTheReusedId(open, first, second);
    SamplePayload("a", first);
    SamplePayload("b", first);
    SamplePayload("b", second);
  }

  lemma SampleMatters(open: seq<OpenObs>, s: Standing<OpenObs>, first: Id, second: Id)
    requires s.always == {} && Seen("", first) in s.all && s.all <= {Seen("", first), Seen("", second)} && Seen("", first) in s.sometimes
    ensures !NothingOptional(NoRecords(), Fixed(NoRecords(), Showing(open)), s, FillStanding(Showing(open)))
    ensures !NothingOptional(NoRecords(), Fixed(NoRecords(), Showing(open)), s, FillWide(Showing(open)))
  {
    var d := Issue(MissingLocalOrder, "instrument", Some(first));
    NothingElse(open, d);
    Optional(s, first, second);
    var fills, wide := FillStanding(Showing(open)), FillWide(Showing(open));
    assert May(NoRecords(), {}, s, fills, d) && !Must(NoRecords(), {}, s, fills, d);
    assert May(NoRecords(), {}, s, wide, d) && !Must(NoRecords(), {}, s, wide, d);
  }

  lemma SometimesUsableMatters(first: Id, second: Id)
    requires first != second
    ensures var local, a := NoRecords(), Showing([Seen("a", first), Seen("b", first), Seen("b", second)]);
            local.Valid() && a.Valid() && !OrderIrrelevant(local, a)
  {
    var p, q, other := Seen("a", first), Seen("b", first), Seen("b", second);
    var a := Showing([p, q, other]);
    SampleIsValid(a.open);
    assert p in a.open && q in a.open && other in a.open;
    SampleUsability(a.open, first, second);
    NoneAlways(a.open, OpenUsableIn(a), q, other, first, second);
    assert OpenUsableIn(a)(p) && OpenPayload(p) in OpenStanding(a).sometimes;
    SampleMatters(a.open, OpenStanding(a), first, second);
    OrderIrrelevantExactly(NoRecords(), a);
  }

  lemma NeverUsableDoesNotMatter(first: Id, second: Id)
    requires first != second
    ensures var local, a := NoRecords(), Showing([Seen("b", first), Seen("b", second)]);
            local.Valid() && a.Valid() && OpenEvidence(a).conflicts != {} && OrderIrrelevant(local, a)
  {
    var q, other := Seen("b", first), Seen("b", second);
    var a := Showing([q, other]);
    SampleIsValid(a.open);
    assert q in a.open && other in a.open;
    SampleUsability(a.open, first, second);
    assert OpenStanding(a).sometimes == {};
    forall d | May(NoRecords(), Fixed(NoRecords(), a), OpenStanding(a), FillStanding(a), d)
      ensures Must(NoRecords(), Fixed(NoRecords(), a), OpenStanding(a), FillStanding(a), d)
    {
      NothingElse(a.open, d);
      NeverUsableMust(OpenStanding(a), d);
    }
    OrderIrrelevantExactly(NoRecords(), a);
  }

  lemma NeverUsableMust(s: Standing<OpenObs>, d: Discrepancy)
    requires s.Valid() && s.sometimes == {} && OpenMay(NoRecords(), s, d)
    ensures OpenMust(NoRecords(), s, d)
  {
    var m :| m in s.all && ((m in s.sometimes && d in OpenReport(NoRecords(), m, true))
                            || (m !in s.always && d in OpenReport(NoRecords(), m, false)));
    assert OpenAlways(NoRecords(), s, d, m);
  }

  lemma UsableAgainMatters(first: Id, second: Id)
    requires first != second
    ensures !RedeliveryIrrelevant(NoRecords(), Showing([Seen("b", first), Seen("b", second)]))
  {
    var q, other := Seen("b", first), Seen("b", second);
    var a := Showing([q, other]);
    assert q in a.open && other in a.open;
    SampleUsability(a.open, first, second);
    NoneAlways(a.open, UsableUnder(OpenShape(), OpenEvidence(a).conflicts), q, other, first, second);
    assert OpenPayload(q) in OpenWide(a).sometimes;
    SampleMatters(a.open, OpenWide(a), first, second);
    RedeliveryIrrelevantExactly(NoRecords(), a);
  }

  /** The two orders that differ: what shows the reused id first hides the order, what shows it second reports it. */
  lemma ListDependsOnOrderUnderConflict(first: Id, second: Id)
    requires first != second
    ensures var local, p, q, other := NoRecords(), Seen("a", first), Seen("b", first), Seen("b", second);
            && local.Valid() && Showing([p, q, other]).Valid() && Showing([q, p, other]).Valid()
            && Rearranged(Showing([p, q, other]), Showing([q, p, other]))
            && Discrepancies(local, Showing([p, q, other])) != Discrepancies(local, Showing([q, p, other]))
  {
    var p, q, other := Seen("a", first), Seen("b", first), Seen("b", second);
    SampleIsValid([p, q, other]);
    SampleIsValid([q, p, other]);
    assert multiset([p, q, other]) == multiset([q, p, other]);
    assert Showing([p, q, other]).open == [p, q, other] && Showing([q, p, other]).open == [q, p, other];
    assert p in [p, q, other] && q in [p, q, other] && other in [p, q, other];
    assert p in [q, p, other] && q in [q, p, other] && other in [q, p, other];
    SampleUsability([p, q, other], first, second);
    SampleUsability([q, p, other], first, second);
    FirstDecides(p, q, other, first, second);
    FirstDecides(q, p, other, first, second);
  }

  /** Of observations with one payload, the first alone decides whether its order is reported. */
  lemma FirstDecides(x: OpenObs, y: OpenObs, z: OpenObs, first: Id, second: Id)
    requires first != second && OpenPayload(x) == OpenPayload(y) == Seen("", first) && OpenPayload(z) == Seen("", second)
    requires !OpenUsable(z, OpenEvidence(Showing([x, y, z])).conflicts)
    ensures Issue(MissingLocalOrder, "instrument", Some(first)) in Discrepancies(NoRecords(), Showing([x, y, z]))
            <==> OpenUsable(x, OpenEvidence(Showing([x, y, z])).conflicts)
  {
    var a, c := Showing([x, y, z]), OpenEvidence(Showing([x, y, z])).conflicts;
    FirstOfThree(x, y, z);
    NoFillReports(a, Issue(MissingLocalOrder, "instrument", Some(first)));
    IssuesOfTwo(NoRecords(), x, z, c);
    OpenByPayload(NoRecords(), x, c);
    OpenByPayload(NoRecords(), z, c);
    SamplePayload("", first);
    SamplePayload("", second);
    SampleReport("", first, OpenUsable(x, c));
    SampleReport("", second, false);
  }

  lemma IssuesOfTwo(local: LocalSnapshot, x: OpenObs, z: OpenObs, conflicts: set<Identity>)
    ensures OpenIssuesOf(local, [x, z], conflicts) == OpenIssues(local, x, conflicts) + OpenIssues(local, z, conflicts)
  {
    assert x in [x, z] && z in [x, z];
  }

  lemma NoFillReports(a: BrokerSnapshot, d: Discrepancy)
    requires a == Showing(a.open)
    ensures d in Discrepancies(NoRecords(), a)
            <==> d in OpenIssuesOf(NoRecords(), OpenEvidence(a).unique, OpenEvidence(a).conflicts)
  {
    NothingElse(a.open, d);
    assert FillEvidence(a).unique == [];
  }

  lemma FirstOfThree(x: OpenObs, y: OpenObs, z: OpenObs)
    requires OpenPayload(x) == OpenPayload(y) && OpenPayload(x) != OpenPayload(z)
    ensures FirstSeen([x, y, z], OpenPayload) == [x, z]
  {
    assert [x, y, z][..2] == [x, y] && [x, y][..1] == [x] && [x][..0] == [];
    assert FirstSeen([x], OpenPayload) == [x];
    assert x in [x];
    assert FirstSeen([x, y], OpenPayload) == [x];
  }
}
