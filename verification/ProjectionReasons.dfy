/**
 * What the reasons of a projection plan mean: for each reason, exactly when the
 * plan carries it, said on the local orders and the broker's raw observations.
 */
module ProjectionReasons {
  import opened Wrappers
  import opened LiveContracts
  import opened Sums
  import opened ReconciliationContracts
  import opened ReconciliationMeaning
  import opened Reconciliation
  import opened Projection
  import opened ProjectionSafety

  // ---- The given assessment ---------------------------------------------------------------

  /** The assessment says of its snapshots what there is to say of them, in order. */
  ghost predicate Genuine(a: Assessment, less: Ordering) {
    && (a.result.status == AmbiguousStatus <==> Unclear(a.local, a.broker))
    && (a.result.status == IncompleteStatus <==> !Unclear(a.local, a.broker) && SomethingMissing(a.broker))
    && Ascending(a.result.discrepancies, less)
    && forall d :: d in a.result.discrepancies <==> Reports(a.local, a.broker, d)
  }

  lemma GenuineExactly(a: Assessment, less: Ordering)
    requires a.local.Valid() && a.broker.Valid()
    ensures Authentic(a, less) <==> Genuine(a, less)
  {
    StatusMeans(a.local, a.broker);
    forall d ensures d in Discrepancies(a.local, a.broker) <==> Reports(a.local, a.broker, d) {
      DiscrepancyMeans(a.local, a.broker, d);
    }
  }

  // ---- What speaks against one order ------------------------------------------------------

  /** The order is no longer as its submission left it, or never was what the command asked for. */
  predicate Touched(o: LiveOrder) {
    || !(o.state.SubmissionUnknown? || o.state.Reconciling?)
    || o.acceptedAt.Some? || o.filled != 0.0 || o.average.Some? || o.remaining != o.total
    || (o.pending.Some? && o.pending.value.New?
        && (o.total != o.pending.value.intent.quantity || o.limitPrice != o.pending.value.intent.limitPrice))
  }

  /** The place of the only observation under the order's client id. */
  predicate ShownOnlyAt(open: seq<OpenObs>, o: LiveOrder, i: nat) {
    i < |open| && Concerns(o, open[i]) && forall j :: 0 <= j < |open| && j != i ==> !Concerns(o, open[j])
  }

  predicate OtherIdentity(o: LiveOrder, b: OpenObs) {
    b.correlation.status != Confirmed || b.accountId != o.intent.accountId
    || b.instrumentId != o.intent.instrumentId || b.side != o.intent.side
  }

  /** Shown before the order or the local snapshot reached its present state, or correlated only after it was shown. */
  predicate OutOfTime(o: LiveOrder, b: OpenObs, asOf: Time) {
    b.observedAt < o.updatedAt || b.observedAt < asOf || b.observedAt < b.correlation.correlatedAt
  }

  ghost predicate SpeaksAgainst(local: LocalSnapshot, broker: BrokerSnapshot, o: LiveOrder, r: Reason) {
    var open := broker.open;
    match r
    case UnsupportedLocalState => Touched(o)
    case UnsupportedCommand => o.pending.None? || !o.pending.value.New?
    case MissingBrokerMatch => forall b :: b in open ==> !Concerns(o, b)
    case MultipleBrokerMatches => exists i, j :: 0 <= i < j < |open| && Concerns(o, open[i]) && Concerns(o, open[j])
    case BrokerIdentityMismatch => exists i: nat :: ShownOnlyAt(open, o, i) && OtherIdentity(o, open[i])
    case BrokerQuantityMismatch =>
      exists i: nat :: ShownOnlyAt(open, o, i) && !(o.total == open[i].total && o.remaining == open[i].remaining == open[i].total)
    case BrokerPriceMismatch => exists i: nat :: ShownOnlyAt(open, o, i) && open[i].limitPrice != o.limitPrice
    case BrokerTimeMismatch => exists i: nat :: ShownOnlyAt(open, o, i) && OutOfTime(o, open[i], local.asOf)
    case FillEvidenceUnsupported => exists f :: f in broker.fills && f.correlation.clientOrderId == Some(o.intent.clientOrderId)
    case _ => false
  }

  lemma OnlyShownIsFiltered(open: seq<OpenObs>, o: LiveOrder, i: nat)
    requires ShownOnlyAt(open, o, i)
    ensures OpenFor(open, o.intent.clientOrderId) == [open[i]]
  {
    OneUnderId(open, o.intent.clientOrderId, i);
  }

  lemma FilteredIsOnlyShown(open: seq<OpenObs>, o: LiveOrder) returns (i: nat)
    requires |OpenFor(open, o.intent.clientOrderId)| == 1
    ensures ShownOnlyAt(open, o, i) && OpenFor(open, o.intent.clientOrderId) == [open[i]]
  {
    i := UnderIdOnce(open, o.intent.clientOrderId);
  }

  /** Two places under an id make two matches, and two matches have two places. */
  lemma {:induction false} SeveralUnderId(open: seq<OpenObs>, o: LiveOrder)
    ensures |OpenFor(open, o.intent.clientOrderId)| > 1
            <==> exists i, j :: 0 <= i < j < |open| && Concerns(o, open[i]) && Concerns(o, open[j])
  {
    var id := o.intent.clientOrderId;
    if open != [] {
      var rest := open[1..];
      SeveralUnderId(rest, o);
      if |OpenFor(open, id)| > 1 {
        if |OpenFor(rest, id)| > 1 {
          var i, j :| 0 <= i < j < |rest| && Concerns(o, rest[i]) && Concerns(o, rest[j]);
          assert Concerns(o, open[i + 1]) && Concerns(o, open[j + 1]);
        } else {
          var b := OpenFor(rest, id)[0];
          assert b in OpenFor(rest, id);
          var j :| 0 <= j < |rest| && rest[j] == b;
          assert Concerns(o, open[0]) && Concerns(o, open[j + 1]);
        }
      }
      if i, j :| 0 <= i < j < |open| && Concerns(o, open[i]) && Concerns(o, open[j]) {
        assert rest[j - 1] == open[j];
        assert rest[j - 1] in OpenFor(rest, id);
        if i > 0 {
          assert Concerns(o, rest[i - 1]) && Concerns(o, rest[j - 1]);
        }
      }
    }
  }

  lemma LocalReasonsMean(o: LiveOrder, r: Reason)
    ensures r in LocalReasons(o)
            <==> match r
                 case UnsupportedLocalState => Touched(o)
                 case UnsupportedCommand => o.pending.None? || !o.pending.value.New?
                 case _ => false
  {
  }

  lemma ObservationReasonsMean(o: LiveOrder, b: OpenObs, asOf: Time, r: Reason)
    requires Concerns(o, b)
    ensures r in ObservationReasons(o, b, asOf)
            <==> match r
                 case BrokerIdentityMismatch => OtherIdentity(o, b)
                 case BrokerQuantityMismatch => !(o.total == b.total && o.remaining == b.remaining == b.total)
                 case BrokerPriceMismatch => b.limitPrice != o.limitPrice
                 case BrokerTimeMismatch => OutOfTime(o, b, asOf)
                 case _ => false
  {
  }

  lemma FillsUnderId(fills: seq<FillObs>, id: Id)
    ensures FillsFor(fills, id) != [] <==> exists f :: f in fills && f.correlation.clientOrderId == Some(id)
  {
    if FillsFor(fills, id) != [] {
      assert FillsFor(fills, id)[0] in FillsFor(fills, id);
    }
    if f :| f in fills && f.correlation.clientOrderId == Some(id) {
      assert f in FillsFor(fills, id);
    }
  }

  lemma NoMatchMeans(open: seq<OpenObs>, o: LiveOrder)
    ensures OpenFor(open, o.intent.clientOrderId) == [] <==> forall b :: b in open ==> !Concerns(o, b)
  {
    if OpenFor(open, o.intent.clientOrderId) != [] {
      assert OpenFor(open, o.intent.clientOrderId)[0] in OpenFor(open, o.intent.clientOrderId);
    }
    if b :| b in open && Concerns(o, b) {
      assert b in OpenFor(open, o.intent.clientOrderId);
    }
  }

  lemma BrokerReasonsMean(local: LocalSnapshot, broker: BrokerSnapshot, o: LiveOrder, r: Reason)
    requires !r.UnsupportedLocalState? && !r.UnsupportedCommand?
    ensures var id := o.intent.clientOrderId;
            r in BrokerReasons(o, OpenFor(broker.open, id), FillsFor(broker.fills, id), local.asOf)
            <==> SpeaksAgainst(local, broker, o, r)
  {
    var matches := OpenFor(broker.open, o.intent.clientOrderId);
    FillsUnderId(broker.fills, o.intent.clientOrderId);
    NoMatchMeans(broker.open, o);
    SeveralUnderId(broker.open, o);
    if |matches| == 1 {
      var i := FilteredIsOnlyShown(broker.open, o);
      ObservationReasonsMean(o, broker.open[i], local.asOf, r);
      assert forall j: nat :: ShownOnlyAt(broker.open, o, j) ==> j == i;
    } else {
      NotShownOnce(broker.open, o);
    }
  }

  lemma NotShownOnce(open: seq<OpenObs>, o: LiveOrder)
    requires |OpenFor(open, o.intent.clientOrderId)| != 1
    ensures forall i: nat :: !ShownOnlyAt(open, o, i)
  {
    if i: nat :| ShownOnlyAt(open, o, i) {
      OnlyShownIsFiltered(open, o, i);
    }
  }

  lemma SpeaksAgainstExactly(local: LocalSnapshot, broker: BrokerSnapshot, d: Discrepancy, o: LiveOrder, r: Reason)
    requires Subject(local, d) == Some(o) && d.clientOrderId == Some(o.intent.clientOrderId)
    ensures r in ReasonsAgainst(local, broker, d) <==> SpeaksAgainst(local, broker, o, r)
  {
    LocalReasonsMean(o, r);
    if r.UnsupportedLocalState? || r.UnsupportedCommand? {
      OnlyLocalReasons(local, broker, o, r);
    } else {
      BrokerReasonsMean(local, broker, o, r);
    }
  }

  lemma OnlyLocalReasons(local: LocalSnapshot, broker: BrokerSnapshot, o: LiveOrder, r: Reason)
    requires r.UnsupportedLocalState? || r.UnsupportedCommand?
    ensures var id := o.intent.clientOrderId;
            r !in BrokerReasons(o, OpenFor(broker.open, id), FillsFor(broker.fills, id), local.asOf)
  {
  }

  // ---- The plan -----------------------------------------------------------------------------

  /** The discrepancy asks for a pending order of this client id to be settled. */
  predicate AsksFor(d: Discrepancy) {
    d.kind == CorrelationMissing && d.clientOrderId.Some?
  }

  /** Why a plan that follows from this assessment does nothing, if it does nothing. */
  ghost predicate Carries(a: Assessment, less: Ordering, r: Reason) {
    if !Genuine(a, less) then r == AssessmentMismatch
    else if Unclear(a.local, a.broker) then r == NotAuthoritativeReason || r == AmbiguousEvidence
    else if SomethingMissing(a.broker) then r == NotAuthoritativeReason || r == IncompleteEvidence
    else if a.result.discrepancies == [] then r == UnsupportedDiscrepancy && a.local.blockers != []
    else if r == UnsupportedDiscrepancy then exists d :: d in a.result.discrepancies && !AsksFor(d)
    else exists o :: o in a.local.orders && o.pending.Some? && SpeaksAgainst(a.local, a.broker, o, r)
  }

  /** A discrepancy that cannot be settled: it asks for no order, or something speaks against the order it asks for. */
  ghost predicate Stays(a: Assessment, d: Discrepancy) {
    || !AsksFor(d)
    || exists o, r :: o in a.local.orders && d.clientOrderId == Some(o.intent.clientOrderId) && SpeaksAgainst(a.local, a.broker, o, r)
  }

  lemma AskedForIsPending(a: Assessment, less: Ordering, d: Discrepancy)
    requires a.local.Valid() && Authentic(a, less) && d in a.result.discrepancies && AsksFor(d)
    ensures Subject(a.local, d).Some?
    ensures var o := Subject(a.local, d).value;
            && o in a.local.orders && o.pending.Some? && d.clientOrderId == Some(o.intent.clientOrderId)
            && forall p :: p in a.local.orders && d.clientOrderId == Some(p.intent.clientOrderId) ==> p == o
  {
    PendingOnce(a, d);
    FoundOrder(a.local.orders, d.clientOrderId.value);
    forall p | p in a.local.orders && d.clientOrderId == Some(p.intent.clientOrderId) ensures p == Subject(a.local, d).value {
      OrderIsFound(a.local, p);
    }
  }

  lemma StaysExactly(a: Assessment, less: Ordering, d: Discrepancy)
    requires a.local.Valid() && Authentic(a, less) && d in a.result.discrepancies
    ensures ReasonsAgainst(a.local, a.broker, d) != {} <==> Stays(a, d)
  {
    if AsksFor(d) {
      AskedForIsPending(a, less, d);
      var o := Subject(a.local, d).value;
      forall r ensures r in ReasonsAgainst(a.local, a.broker, d) <==> SpeaksAgainst(a.local, a.broker, o, r) {
        SpeaksAgainstExactly(a.local, a.broker, d, o, r);
      }
      if ReasonsAgainst(a.local, a.broker, d) != {} {
        var r :| r in ReasonsAgainst(a.local, a.broker, d);
      }
    }
  }

  /** What the discrepancies of a genuine assessment are refused for. */
  lemma AgainstExactly(a: Assessment, less: Ordering, r: Reason)
    requires a.local.Valid() && Authentic(a, less)
    ensures r in Against(a.local, a.broker, a.result.discrepancies)
            <==> if r == UnsupportedDiscrepancy then exists d :: d in a.result.discrepancies && !AsksFor(d)
                 else exists o :: o in a.local.orders && o.pending.Some? && SpeaksAgainst(a.local, a.broker, o, r)
  {
    if d :| d in a.result.discrepancies && r in ReasonsAgainst(a.local, a.broker, d) {
      ReasonHasCause(a, less, d, r);
    }
    if d :| d in a.result.discrepancies && !AsksFor(d) {
      assert UnsupportedDiscrepancy in ReasonsAgainst(a.local, a.broker, d);
    }
    if o :| o in a.local.orders && o.pending.Some? && SpeaksAgainst(a.local, a.broker, o, r) {
      CauseIsReason(a, less, o, r);
    }
  }

  lemma ReasonHasCause(a: Assessment, less: Ordering, d: Discrepancy, r: Reason)
    requires a.local.Valid() && Authentic(a, less) && d in a.result.discrepancies && r in ReasonsAgainst(a.local, a.broker, d)
    ensures if r == UnsupportedDiscrepancy then !AsksFor(d)
            else exists o :: o in a.local.orders && o.pending.Some? && SpeaksAgainst(a.local, a.broker, o, r)
  {
    if AsksFor(d) {
      AskedForIsPending(a, less, d);
      SpeaksAgainstExactly(a.local, a.broker, d, Subject(a.local, d).value, r);
    }
  }

  lemma CauseIsReason(a: Assessment, less: Ordering, o: LiveOrder, r: Reason)
    requires a.local.Valid() && Authentic(a, less)
    requires o in a.local.orders && o.pending.Some? && SpeaksAgainst(a.local, a.broker, o, r)
    ensures PendingIssue(o) in a.result.discrepancies && r in ReasonsAgainst(a.local, a.broker, PendingIssue(o))
  {
    PendingIsReported(a.local, a.broker, o);
    OrderIsFound(a.local, o);
    SpeaksAgainstExactly(a.local, a.broker, PendingIssue(o), o, r);
  }

  lemma AuthorityMeans(a: Assessment, less: Ordering)
    requires a.local.Valid() && a.broker.Valid() && Authentic(a, less)
    ensures Authoritative(a) <==> !Unclear(a.local, a.broker) && !SomethingMissing(a.broker)
  {
    StatusMeans(a.local, a.broker);
  }

  /**
   * A plan that follows from an assessment carries each reason exactly when the
   * assessment, the local orders and the broker's observations give it.
   */
  lemma ReasonsExactly(plan: Plan, a: Assessment, less: Ordering, idLess: IdOrder, r: Reason)
    requires a.local.Valid() && a.broker.Valid() && plan.Valid(idLess) && PlanFollows(plan, a, less)
    ensures r in plan.reasons <==> Carries(a, less, r)
  {
    GenuineExactly(a, less);
    if Authentic(a, less) {
      AuthorityMeans(a, less);
      if Authoritative(a) {
        WorkableReasons(plan, a, less, idLess, r);
      } else {
        AuthorityReasonsMean(a, less, r);
      }
    }
  }

  lemma AuthorityReasonsMean(a: Assessment, less: Ordering, r: Reason)
    requires a.local.Valid() && a.broker.Valid() && Authentic(a, less) && !Authoritative(a)
    ensures r in AuthorityReasons(a.result.status)
            <==> if Unclear(a.local, a.broker) then r == NotAuthoritativeReason || r == AmbiguousEvidence
                 else r == NotAuthoritativeReason || r == IncompleteEvidence
    ensures Unclear(a.local, a.broker) || SomethingMissing(a.broker)
  {
    StatusMeans(a.local, a.broker);
  }

  lemma WorkableReasons(plan: Plan, a: Assessment, less: Ordering, idLess: IdOrder, r: Reason)
    requires a.local.Valid() && plan.Valid(idLess) && PlanFollows(plan, a, less) && Authentic(a, less) && Authoritative(a)
    ensures r in plan.reasons
            <==> if a.result.discrepancies == [] then r == UnsupportedDiscrepancy && a.local.blockers != []
                 else r in Against(a.local, a.broker, a.result.discrepancies)
    ensures r in Against(a.local, a.broker, a.result.discrepancies)
            <==> if r == UnsupportedDiscrepancy then exists d :: d in a.result.discrepancies && !AsksFor(d)
                 else exists o :: o in a.local.orders && o.pending.Some? && SpeaksAgainst(a.local, a.broker, o, r)
  {
    AgainstExactly(a, less, r);
    AgainstNone(a.local, a.broker, a.result.discrepancies);
  }

  /**
   * Which of its four answers a plan gives: it has no authority without a genuine
   * assessment of clear and complete evidence; it then does something exactly when
   * there is something to do and nothing stays, and nothing exactly when there is
   * nothing to do.  A plan that refuses names what stays.
   */
  lemma DispositionExactly(plan: Plan, a: Assessment, less: Ordering, idLess: IdOrder)
    requires a.local.Valid() && a.broker.Valid() && plan.Valid(idLess) && PlanFollows(plan, a, less)
    ensures var workable := Genuine(a, less) && !Unclear(a.local, a.broker) && !SomethingMissing(a.broker);
            var ds := a.result.discrepancies;
            && (plan.disposition == NotAuthoritative <==> !workable)
            && (plan.disposition == NoChangeNeeded <==> workable && ds == [] && a.local.blockers == [])
            && (plan.disposition == Ready <==> workable && ds != [] && forall d :: d in ds ==> !Stays(a, d))
            && (forall d :: d in plan.unsupported <==> plan.disposition == Unsupported && d in ds && Stays(a, d))
  {
    GenuineExactly(a, less);
    if Authentic(a, less) {
      AuthorityMeans(a, less);
      forall d | d in a.result.discrepancies ensures ReasonsAgainst(a.local, a.broker, d) != {} <==> Stays(a, d) {
        StaysExactly(a, less, d);
      }
    }
  }
}
