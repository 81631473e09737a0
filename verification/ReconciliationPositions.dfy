/**
 * When a run may resume, the broker's own fills explain the broker's own
 * positions: per instrument, the signed sum of distinct broker fills is the
 * broker's net position.
 */
module ReconciliationPositions {
  import opened LiveContracts
  import opened Sums
  import opened ReconciliationContracts
  import opened Dedupe
  import opened Reconciliation
  import opened ReconciliationVerdict

  function SignedObservation(f: FillObs): real {
    if f.side.Buy? then f.quantity else -f.quantity
  }

  /** Signed quantity of the distinct broker fills of an instrument. */
  function BrokerFillTotal(broker: BrokerSnapshot, instrumentId: Id): real {
    Sum(SignedObservation, Filter(FirstSeen(broker.fills, FillPayload), (f: FillObs) => f.instrumentId == instrumentId))
  }

  function FillsOn(fills: seq<LiveFill>, instrumentId: Id): seq<LiveFill> {
    Filter(fills, (f: LiveFill) => f.instrumentId == instrumentId)
  }

  function LocalFillTotal(fills: seq<LiveFill>, instrumentId: Id): real {
    Sum(SignedQuantity, FillsOn(fills, instrumentId))
  }

  // ---- Local attributions add up to local fills -----------------------------------

  function GroupTotal(fills: seq<LiveFill>, strategyId: Id): real {
    Sum(SignedQuantity, Filter(fills, (f: LiveFill) => f.strategyId == strategyId))
  }

  lemma DropGroup(fills: seq<LiveFill>, strategyId: Id) returns (rest: seq<LiveFill>)
    ensures rest == Filter(fills, (f: LiveFill) => f.strategyId != strategyId)
    ensures Sum(SignedQuantity, fills) == GroupTotal(fills, strategyId) + Sum(SignedQuantity, rest)
    ensures forall s :: s != strategyId ==> GroupTotal(rest, s) == GroupTotal(fills, s)
  {
    rest := Filter(fills, (f: LiveFill) => f.strategyId != strategyId);
    SumSplit(SignedQuantity, fills, (f: LiveFill) => f.strategyId == strategyId, (f: LiveFill) => f.strategyId != strategyId);
    forall s | s != strategyId ensures GroupTotal(rest, s) == GroupTotal(fills, s) {
      FilterTwice(fills, (f: LiveFill) => f.strategyId != strategyId, (f: LiveFill) => f.strategyId == s,
                  (f: LiveFill) => f.strategyId == s);
    }
  }

  lemma {:induction false} ZeroGroups(fills: seq<LiveFill>)
    requires forall f :: f in fills ==> GroupTotal(fills, f.strategyId) == 0.0
    ensures Sum(SignedQuantity, fills) == 0.0
    decreases |fills|
  {
    if fills != [] {
      var s := fills[0].strategyId;
      var rest := DropGroup(fills, s);
      assert GroupTotal(fills, s) == 0.0;
      assert fills[0] !in rest;
      ShorterFilter(fills, (f: LiveFill) => f.strategyId != s);
      forall f | f in rest ensures GroupTotal(rest, f.strategyId) == 0.0 {
        assert f in fills;
      }
      ZeroGroups(rest);
    }
  }

  lemma ShorterFilter(fills: seq<LiveFill>, p: LiveFill -> bool)
    requires fills != [] && !p(fills[0])
    ensures |Filter(fills, p)| < |fills|
  {
  }

  predicate Attributed(attributions: seq<Attribution>, strategyId: Id) {
    exists a :: a in attributions && a.strategyId == strategyId
  }

  /** Attributions of distinct strategies that carry the group totals carry the whole total. */
  lemma {:induction false} GroupsAddUp(attributions: seq<Attribution>, fills: seq<LiveFill>)
    requires forall i, j :: 0 <= i < j < |attributions| ==> attributions[i].strategyId != attributions[j].strategyId
    requires forall a :: a in attributions ==> a.quantity == GroupTotal(fills, a.strategyId)
    requires forall f :: f in fills && GroupTotal(fills, f.strategyId) != 0.0 ==> Attributed(attributions, f.strategyId)
    ensures Sum(AttributedQuantity, attributions) == Sum(SignedQuantity, fills)
    decreases |attributions|
  {
    if attributions == [] {
      ZeroGroups(fills);
    } else {
      var first, others := attributions[0], attributions[1..];
      var rest := DropGroup(fills, first.strategyId);
      assert first in attributions;
      forall a | a in others ensures a.quantity == GroupTotal(rest, a.strategyId) {
        var i :| 0 <= i < |others| && others[i] == a;
        assert attributions[i + 1] == a;
      }
      forall f | f in rest && GroupTotal(rest, f.strategyId) != 0.0 ensures Attributed(others, f.strategyId) {
        var a :| a in attributions && a.strategyId == f.strategyId;
        assert a in others;
      }
      GroupsAddUp(others, rest);
    }
  }

  lemma ExpectedIsLocalFillTotal(local: LocalSnapshot, instrumentId: Id)
    requires local.Valid()
    ensures ExpectedPosition(local.attributions, instrumentId) == LocalFillTotal(local.fills, instrumentId)
  {
    AttributionsAddUp(local, instrumentId);
  }

  lemma AttributionsAddUp(local: LocalSnapshot, instrumentId: Id)
    requires local.UniqueAttributions()
    requires forall a :: a in local.attributions ==> a.quantity == local.Projected(a.strategyId, a.instrumentId)
    requires forall f :: f in local.fills && local.Projected(f.strategyId, f.instrumentId) != 0.0 ==>
               exists a :: a in local.attributions && a.strategyId == f.strategyId && a.instrumentId == f.instrumentId
    ensures ExpectedPosition(local.attributions, instrumentId) == LocalFillTotal(local.fills, instrumentId)
  {
    var attributions := AttributionsOn(local.attributions, instrumentId);
    var fills := FillsOn(local.fills, instrumentId);
    FilterKeepsDistinct(local.attributions, instrumentId);
    forall a | a in attributions ensures a.quantity == GroupTotal(fills, a.strategyId) {
      GroupIsProjected(local, a.strategyId, instrumentId);
    }
    forall f | f in fills && GroupTotal(fills, f.strategyId) != 0.0 ensures Attributed(attributions, f.strategyId) {
      GroupIsAttributed(local, f, instrumentId);
    }
    GroupsAddUp(attributions, fills);
  }

  lemma GroupIsAttributed(local: LocalSnapshot, f: LiveFill, instrumentId: Id)
    requires f in local.fills && f.instrumentId == instrumentId
    requires local.Projected(f.strategyId, f.instrumentId) != 0.0 ==>
               exists a :: a in local.attributions && a.strategyId == f.strategyId && a.instrumentId == f.instrumentId
    requires GroupTotal(FillsOn(local.fills, instrumentId), f.strategyId) != 0.0
    ensures Attributed(AttributionsOn(local.attributions, instrumentId), f.strategyId)
  {
    GroupIsProjected(local, f.strategyId, instrumentId);
    var a :| a in local.attributions && a.strategyId == f.strategyId && a.instrumentId == f.instrumentId;
    assert a in AttributionsOn(local.attributions, instrumentId);
  }

  lemma GroupIsProjected(local: LocalSnapshot, strategyId: Id, instrumentId: Id)
    ensures GroupTotal(FillsOn(local.fills, instrumentId), strategyId)
            == local.Projected(strategyId, instrumentId)
  {
    FilterTwice(local.fills, (f: LiveFill) => f.instrumentId == instrumentId, (f: LiveFill) => f.strategyId == strategyId,
                (f: LiveFill) => f.strategyId == strategyId && f.instrumentId == instrumentId);
  }

  lemma {:induction false} FilterKeepsDistinct(all: seq<Attribution>, instrumentId: Id)
    requires forall i, j :: 0 <= i < j < |all| ==>
               all[i].strategyId != all[j].strategyId || all[i].instrumentId != all[j].instrumentId
    ensures var some := AttributionsOn(all, instrumentId);
            forall i, j :: 0 <= i < j < |some| ==> some[i].strategyId != some[j].strategyId
  {
    if all != [] {
      FilterKeepsDistinct(all[1..], instrumentId);
      var rest := AttributionsOn(all[1..], instrumentId);
      if all[0].instrumentId == instrumentId {
        forall a | a in rest ensures a.strategyId != all[0].strategyId {
          var i :| 0 <= i < |all[1..]| && all[1..][i] == a;
          assert all[i + 1] == a;
        }
        var some := AttributionsOn(all, instrumentId);
        assert some == [all[0]] + rest;
        forall i, j | 0 <= i < j < |some| ensures some[i].strategyId != some[j].strategyId {
          assert some[j] == rest[j - 1] && rest[j - 1] in rest;
          assert i == 0 || some[i] == rest[i - 1];
        }
      } else {
        assert AttributionsOn(all, instrumentId) == rest;
      }
    }
  }

  // ---- Broker fills and local fills have equal totals ----------------------------------

  /** The local fills that stand behind the distinct broker fills, in the broker's order. */
  function Twins(local: LocalSnapshot, unique: seq<FillObs>): seq<LiveFill>
    requires forall f :: f in unique ==> Resolve(local.fills, f).OneFill?
  {
    seq(|unique|, i requires 0 <= i < |unique| => Resolve(local.fills, unique[i]).fill)
  }

  lemma TwinsPermute(local: LocalSnapshot, broker: BrokerSnapshot)
    requires local.Valid() && FillsAreLocal(local, broker) && FillsAreShown(local, broker) && FillsAreDistinct(local, broker)
    ensures forall f :: f in FirstSeen(broker.fills, FillPayload) ==>
              Resolve(local.fills, f).OneFill? && SameFill(local, Resolve(local.fills, f).fill, f)
    ensures multiset(Twins(local, FirstSeen(broker.fills, FillPayload))) == multiset(local.fills)
  {
    var unique := FirstSeen(broker.fills, FillPayload);
    TwinsResolve(local, broker);
    TwinsAreDistinct(local, broker);
    forall l ensures l in Twins(local, unique) <==> l in local.fills {
      if l in local.fills {
        TwinExists(local, broker, l);
      }
      if l in Twins(local, unique) {
        var i :| 0 <= i < |unique| && Twins(local, unique)[i] == l;
        assert unique[i] in unique;
      }
    }
    FillsDoNotRepeat(local);
    SameElementsPermute(Twins(local, unique), local.fills);
  }

  lemma TwinsResolve(local: LocalSnapshot, broker: BrokerSnapshot)
    requires local.UniqueFillIds() && FillsAreLocal(local, broker)
    ensures forall f :: f in FirstSeen(broker.fills, FillPayload) ==>
              && Resolve(local.fills, f).OneFill? && SameFill(local, Resolve(local.fills, f).fill, f)
              && Resolve(local.fills, f).fill in local.fills && f in broker.fills
  {
    FirstSeenCovers(broker.fills, FillPayload);
    forall f | f in FirstSeen(broker.fills, FillPayload)
      ensures Resolve(local.fills, f).OneFill? && SameFill(local, Resolve(local.fills, f).fill, f)
      ensures Resolve(local.fills, f).fill in local.fills && f in broker.fills
    {
      TwinOf(local, broker, f);
    }
  }

  lemma TwinsAreDistinct(local: LocalSnapshot, broker: BrokerSnapshot)
    requires local.UniqueFillIds() && FillsAreLocal(local, broker) && FillsAreDistinct(local, broker)
    requires forall f :: f in FirstSeen(broker.fills, FillPayload) ==> Resolve(local.fills, f).OneFill?
    ensures var twins := Twins(local, FirstSeen(broker.fills, FillPayload));
            forall i, j :: 0 <= i < j < |twins| ==> twins[i] != twins[j]
  {
    var unique := FirstSeen(broker.fills, FillPayload);
    TwinsResolve(local, broker);
    FirstSeenDistinct(broker.fills, FillPayload);
    forall i, j | 0 <= i < j < |unique| ensures Twins(local, unique)[i] != Twins(local, unique)[j] {
      assert unique[i] in unique && unique[j] in unique;
      DifferentTwins(local, broker, unique[i], unique[j]);
    }
  }

  lemma DifferentTwins(local: LocalSnapshot, broker: BrokerSnapshot, f: FillObs, g: FillObs)
    requires FillsAreDistinct(local, broker) && f in broker.fills && g in broker.fills
    requires Resolve(local.fills, f).OneFill? && SameFill(local, Resolve(local.fills, f).fill, f)
    requires Resolve(local.fills, g).OneFill? && SameFill(local, Resolve(local.fills, g).fill, g)
    requires Resolve(local.fills, f).fill in local.fills && FillPayload(f) != FillPayload(g)
    ensures Resolve(local.fills, f) != Resolve(local.fills, g)
  {
  }

  lemma FillsDoNotRepeat(local: LocalSnapshot)
    requires local.UniqueFillIds()
    ensures forall i, j :: 0 <= i < j < |local.fills| ==> local.fills[i] != local.fills[j]
  {
  }

  lemma TwinOf(local: LocalSnapshot, broker: BrokerSnapshot, f: FillObs)
    requires local.UniqueFillIds() && FillsAreLocal(local, broker) && f in broker.fills
    ensures Resolve(local.fills, f).OneFill? && SameFill(local, Resolve(local.fills, f).fill, f)
    ensures Resolve(local.fills, f).fill in local.fills
  {
    var l :| l in local.fills && SameFill(local, l, f);
    ResolveMeaning(local, f, l);
  }

  lemma TwinExists(local: LocalSnapshot, broker: BrokerSnapshot, l: LiveFill)
    requires local.UniqueFillIds() && FillsAreShown(local, broker) && l in local.fills
    requires forall f :: f in FirstSeen(broker.fills, FillPayload) ==> Resolve(local.fills, f).OneFill?
    ensures l in Twins(local, FirstSeen(broker.fills, FillPayload))
  {
    var unique := FirstSeen(broker.fills, FillPayload);
    FirstSeenCovers(broker.fills, FillPayload);
    var f :| f in broker.fills && SameFill(local, l, f);
    var u :| u in unique && FillPayload(u) == FillPayload(f);
    SamePayloadSameFill(local, u, f);
    ResolveMeaning(local, u, l);
    var i :| 0 <= i < |unique| && unique[i] == u;
    assert Twins(local, unique)[i] == l;
  }

  lemma BrokerTotalIsLocalTotal(local: LocalSnapshot, broker: BrokerSnapshot, instrumentId: Id)
    requires local.Valid() && FillsCorrespond(local, broker)
    ensures BrokerFillTotal(broker, instrumentId) == LocalFillTotal(local.fills, instrumentId)
  {
    var unique := FirstSeen(broker.fills, FillPayload);
    TwinsPermute(local, broker);
    var f := (x: FillObs) => if x.instrumentId == instrumentId then SignedObservation(x) else 0.0;
    var g := (x: LiveFill) => if x.instrumentId == instrumentId then SignedQuantity(x) else 0.0;
    SumFiltered(SignedObservation, unique, (x: FillObs) => x.instrumentId == instrumentId, f);
    SumFiltered(SignedQuantity, local.fills, (x: LiveFill) => x.instrumentId == instrumentId, g);
    TwinSums(local, unique, instrumentId, f, g);
    SumPermutation(g, Twins(local, unique), local.fills);
  }

  lemma TwinSums(local: LocalSnapshot, unique: seq<FillObs>, instrumentId: Id, f: FillObs -> real, g: LiveFill -> real)
    requires forall u :: u in unique ==> Resolve(local.fills, u).OneFill? && FillAgrees(Resolve(local.fills, u).fill, u)
    requires forall x :: f(x) == if x.instrumentId == instrumentId then SignedObservation(x) else 0.0
    requires forall x :: g(x) == if x.instrumentId == instrumentId then SignedQuantity(x) else 0.0
    ensures Sum(f, unique) == Sum(g, Twins(local, unique))
  {
    forall i | 0 <= i < |unique| ensures f(unique[i]) == g(Twins(local, unique)[i]) {
      assert unique[i] in unique;
    }
    SumMap(f, unique, g, Twins(local, unique));
  }

  /** Conservation at the broker: its distinct fills add up to its own net positions. */
  lemma BrokerFillsExplainBrokerPositions(local: LocalSnapshot, broker: BrokerSnapshot)
    requires local.Valid() && broker.Valid() && Corresponds(local, broker)
    ensures forall p :: p in broker.positions ==> BrokerFillTotal(broker, p.instrumentId) == p.net
    ensures forall i :: (forall p :: p in broker.positions ==> p.instrumentId != i) ==> BrokerFillTotal(broker, i) == 0.0
  {
    forall i ensures BrokerFillTotal(broker, i) == ExpectedPosition(local.attributions, i) {
      BrokerTotalIsLocalTotal(local, broker, i);
      ExpectedIsLocalFillTotal(local, i);
    }
  }
}
