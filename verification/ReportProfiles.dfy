/**
 * What a reconciliation reports when only some observations of a payload may
 * be used and deduplication keeps an arbitrary one: over all ways to keep one,
 * which discrepancies may be reported and which must be.
 */
module ReportProfiles {
  import opened Wrappers
  import opened LiveContracts
  import opened ReconciliationContracts
  import opened Reconciliation

  /**
   * The payloads shown, those that every kept observation makes usable, and
   * those that some kept observation makes usable.
   */
  datatype Standing<T> = Standing(all: set<T>, always: set<T>, sometimes: set<T>)
  {
    predicate Valid() {
      always <= sometimes <= all
    }

    /** The usable payloads of one way to keep an observation of each. */
    predicate Allows(usable: set<T>) {
      always <= usable <= sometimes
    }
  }

  // ---- Open orders -----------------------------------------------------------------------

  function Unusable(instrumentId: Id): Discrepancy {
    Issue(CorrelationMissing, instrumentId, None)
  }

  function OpenReport(local: LocalSnapshot, m: OpenObs, usable: bool): set<Discrepancy> {
    if usable then OpenIssues(local, m, {}) else {Unusable(m.instrumentId)}
  }

  function OpenReports(local: LocalSnapshot, all: set<OpenObs>, usable: set<OpenObs>): set<Discrepancy> {
    set m, d | m in all && d in OpenReport(local, m, m in usable) :: d
  }

  predicate OpenMay(local: LocalSnapshot, s: Standing<OpenObs>, d: Discrepancy) {
    exists m :: m in s.all && ((m in s.sometimes && d in OpenReport(local, m, true))
                               || (m !in s.always && d in OpenReport(local, m, false)))
  }

  /** One payload reports the discrepancy in every standing it can have. */
  predicate OpenMust(local: LocalSnapshot, s: Standing<OpenObs>, d: Discrepancy) {
    exists m :: m in s.all && OpenAlways(local, s, d, m)
  }

  predicate OpenAlways(local: LocalSnapshot, s: Standing<OpenObs>, d: Discrepancy, m: OpenObs) {
    && (m in s.sometimes ==> d in OpenReport(local, m, true))
    && (m !in s.always ==> d in OpenReport(local, m, false))
  }

  /** A way to keep observations under which the discrepancy is reported. */
  lemma OpenWitness(local: LocalSnapshot, s: Standing<OpenObs>, d: Discrepancy) returns (usable: set<OpenObs>)
    requires s.Valid()
    ensures s.Allows(usable)
    ensures OpenMay(local, s, d) ==> d in OpenReports(local, s.all, usable)
  {
    usable := s.always;
    if OpenMay(local, s, d) {
      var m :| m in s.all && ((m in s.sometimes && d in OpenReport(local, m, true))
                              || (m !in s.always && d in OpenReport(local, m, false)));
      if m in s.sometimes && d in OpenReport(local, m, true) {
        usable := s.always + {m};
      }
      assert d in OpenReport(local, m, m in usable);
    }
  }

  /** A way to keep observations that avoids the discrepancy unless one payload always reports it. */
  lemma OpenAvoidance(local: LocalSnapshot, s: Standing<OpenObs>, d: Discrepancy) returns (usable: set<OpenObs>)
    requires s.Valid()
    ensures s.Allows(usable)
    ensures !OpenMust(local, s, d) ==> d !in OpenReports(local, s.all, usable)
  {
    usable := set m | m in s.sometimes && (m in s.always || d !in OpenReport(local, m, true));
    if !OpenMust(local, s, d) {
      forall m | m in s.all ensures d !in OpenReport(local, m, m in usable) {
        assert !OpenAlways(local, s, d, m);
      }
    }
  }

  lemma OpenBounds(local: LocalSnapshot, s: Standing<OpenObs>, d: Discrepancy, usable: set<OpenObs>)
    requires s.Valid() && s.Allows(usable)
    ensures OpenMust(local, s, d) ==> d in OpenReports(local, s.all, usable)
    ensures d in OpenReports(local, s.all, usable) ==> OpenMay(local, s, d)
  {
    if OpenMust(local, s, d) {
      var m :| m in s.all && OpenAlways(local, s, d, m);
      assert d in OpenReport(local, m, m in usable);
    }
    if d in OpenReports(local, s.all, usable) {
      var m :| m in s.all && d in OpenReport(local, m, m in usable);
      assert m in usable ==> m in s.sometimes;
    }
  }

  // ---- Fills ---------------------------------------------------------------------------------

  /** Two payloads claim the same local fill. */
  predicate Rivals(local: LocalSnapshot, m: FillObs, n: FillObs) {
    && m != n && Resolve(local.fills, m).OneFill? && Resolve(local.fills, n).OneFill?
    && Resolve(local.fills, m).fill.fillId == Resolve(local.fills, n).fill.fillId
  }

  predicate Clashes(local: LocalSnapshot, usable: set<FillObs>, m: FillObs) {
    exists n :: n in usable && Rivals(local, m, n)
  }

  /** What a usable fill reports that finds no local fill, two of them, or one that another claims too. */
  function ClashIssue(m: FillObs): Discrepancy {
    Issue(FillMismatch, m.instrumentId, m.correlation.clientOrderId)
  }

  /** A usable fill that alone claims a local fill disagrees with it and reports this. */
  predicate LoneIssue(local: LocalSnapshot, m: FillObs, d: Discrepancy) {
    && Resolve(local.fills, m).OneFill?
    && !FillAgrees(Resolve(local.fills, m).fill, m)
    && d == Issue(FillMismatch, m.instrumentId, Some(Resolve(local.fills, m).fill.clientOrderId))
  }

  predicate FillReported(local: LocalSnapshot, m: FillObs, usable: set<FillObs>, d: Discrepancy) {
    if m !in usable then d == Unusable(m.instrumentId)
    else if !Resolve(local.fills, m).OneFill? || Clashes(local, usable, m) then d == ClashIssue(m)
    else LoneIssue(local, m, d)
  }

  predicate FillsReport(local: LocalSnapshot, all: set<FillObs>, usable: set<FillObs>, d: Discrepancy) {
    exists m :: m in all && FillReported(local, m, usable, d)
  }

  predicate FillMay(local: LocalSnapshot, s: Standing<FillObs>, d: Discrepancy) {
    exists m :: m in s.all && FillMayOf(local, s, d, m)
  }

  predicate FillMayOf(local: LocalSnapshot, s: Standing<FillObs>, d: Discrepancy, m: FillObs) {
    || (m !in s.always && d == Unusable(m.instrumentId))
    || (m in s.sometimes && d == ClashIssue(m) && (!Resolve(local.fills, m).OneFill? || Clashes(local, s.sometimes, m)))
    || (m in s.sometimes && LoneIssue(local, m, d) && !Clashes(local, s.always, m))
  }

  /**
   * A payload that is never usable; one that is always usable and finds no
   * single local fill; two that are always usable and clash; or one that is
   * always usable and reports the discrepancy alone, while a clash reports it
   * as well, by this payload or by whichever rival there is.
   */
  predicate FillMust(local: LocalSnapshot, s: Standing<FillObs>, d: Discrepancy) {
    || (exists m :: m in s.all && m !in s.sometimes && d == Unusable(m.instrumentId))
    || (exists m :: m in s.always && SteadyClash(local, s, d, m))
    || (exists m :: m in s.always && LoneOrClash(local, s, d, m))
  }

  predicate SteadyClash(local: LocalSnapshot, s: Standing<FillObs>, d: Discrepancy, m: FillObs) {
    d == ClashIssue(m) && (!Resolve(local.fills, m).OneFill? || Clashes(local, s.always, m))
  }

  predicate LoneOrClash(local: LocalSnapshot, s: Standing<FillObs>, d: Discrepancy, m: FillObs) {
    LoneIssue(local, m, d) && (d == ClashIssue(m) || forall n :: n in s.sometimes && Rivals(local, m, n) ==> d == ClashIssue(n))
  }

  lemma FillWitness(local: LocalSnapshot, s: Standing<FillObs>, d: Discrepancy) returns (usable: set<FillObs>)
    requires s.Valid()
    ensures s.Allows(usable)
    ensures FillMay(local, s, d) ==> FillsReport(local, s.all, usable, d)
  {
    usable := s.always;
    if FillMay(local, s, d) {
      var m :| m in s.all && FillMayOf(local, s, d, m);
      if m !in s.always && d == Unusable(m.instrumentId) {
        assert FillReported(local, m, usable, d);
      } else if d == ClashIssue(m) && !Resolve(local.fills, m).OneFill? {
        usable := s.always + {m};
        assert FillReported(local, m, usable, d);
      } else if d == ClashIssue(m) && Clashes(local, s.sometimes, m) {
        var n :| n in s.sometimes && Rivals(local, m, n);
        usable := s.always + {m, n};
        assert n in usable;
        assert FillReported(local, m, usable, d);
      } else {
        usable := s.always + {m};
        assert !Clashes(local, usable, m);
        assert FillReported(local, m, usable, d);
      }
    }
  }

  lemma FillBounds(local: LocalSnapshot, s: Standing<FillObs>, d: Discrepancy, usable: set<FillObs>)
    requires s.Valid() && s.Allows(usable)
    ensures FillMust(local, s, d) ==> FillsReport(local, s.all, usable, d)
    ensures FillsReport(local, s.all, usable, d) ==> FillMay(local, s, d)
  {
    if FillMust(local, s, d) {
      MustIsReported(local, s, d, usable);
    }
    if FillsReport(local, s.all, usable, d) {
      var m :| m in s.all && FillReported(local, m, usable, d);
      MoreClashes(local, usable, s.sometimes, m);
      MoreClashes(local, s.always, usable, m);
      assert FillMayOf(local, s, d, m);
    }
  }

  lemma MoreClashes(local: LocalSnapshot, fewer: set<FillObs>, more: set<FillObs>, m: FillObs)
    requires fewer <= more
    ensures Clashes(local, fewer, m) ==> Clashes(local, more, m)
  {
  }

  lemma MustIsReported(local: LocalSnapshot, s: Standing<FillObs>, d: Discrepancy, usable: set<FillObs>)
    requires s.Valid() && s.Allows(usable) && FillMust(local, s, d)
    ensures FillsReport(local, s.all, usable, d)
  {
    if exists m :: m in s.all && m !in s.sometimes && d == Unusable(m.instrumentId) {
      var m :| m in s.all && m !in s.sometimes && d == Unusable(m.instrumentId);
      assert FillReported(local, m, usable, d);
    } else if exists m :: m in s.always && SteadyClash(local, s, d, m) {
      var m :| m in s.always && SteadyClash(local, s, d, m);
      MoreClashes(local, s.always, usable, m);
      assert FillReported(local, m, usable, d);
    } else {
      var m :| m in s.always && LoneOrClash(local, s, d, m);
      if Clashes(local, usable, m) && d != ClashIssue(m) {
        var n :| n in usable && Rivals(local, m, n);
        assert m in usable && Rivals(local, n, m);
        assert FillReported(local, n, usable, d);
      } else {
        assert FillReported(local, m, usable, d);
      }
    }
  }

  // ---- Avoiding a fill discrepancy ------------------------------------------------------------

  /** A rival that turns the report of an always usable payload into another one, and does not report the discrepancy itself. */
  predicate Diverts(local: LocalSnapshot, s: Standing<FillObs>, d: Discrepancy, n: FillObs) {
    && n in s.sometimes && d != ClashIssue(n)
    && exists m :: m in s.always && Rivals(local, m, n) && LoneIssue(local, m, d)
  }

  /** A way to keep observations that avoids the discrepancy unless it must be reported. */
  lemma FillAvoidance(local: LocalSnapshot, s: Standing<FillObs>, d: Discrepancy) returns (usable: set<FillObs>)
    requires s.Valid()
    ensures s.Allows(usable)
    ensures !FillMust(local, s, d) ==> !FillsReport(local, s.all, usable, d)
  {
    if d.kind.CorrelationMissing? {
      usable := s.sometimes;
      forall m | m in s.all && FillReported(local, m, usable, d) ensures FillMust(local, s, d) {
        assert m !in s.sometimes;
      }
    } else {
      usable := set n | n in s.sometimes && (n in s.always || Diverts(local, s, d, n));
      forall m | m in s.all && FillReported(local, m, usable, d) ensures FillMust(local, s, d) {
        ReportedMust(local, s, d, usable, m);
      }
    }
  }

  /** With every diverting rival usable and nothing else that need not be, only what must be reported is. */
  lemma ReportedMust(local: LocalSnapshot, s: Standing<FillObs>, d: Discrepancy, usable: set<FillObs>, m: FillObs)
    requires s.Valid() && !d.kind.CorrelationMissing? && FillReported(local, m, usable, d)
    requires usable == set n | n in s.sometimes && (n in s.always || Diverts(local, s, d, n))
    ensures FillMust(local, s, d)
  {
    if !Resolve(local.fills, m).OneFill? {
      assert SteadyClash(local, s, d, m);
    } else if Clashes(local, usable, m) {
      ClashMust(local, s, d, usable, m);
    } else {
      LoneMust(local, s, d, usable, m);
    }
  }

  lemma ClashMust(local: LocalSnapshot, s: Standing<FillObs>, d: Discrepancy, usable: set<FillObs>, m: FillObs)
    requires s.Valid() && usable == set n | n in s.sometimes && (n in s.always || Diverts(local, s, d, n))
    requires m in usable && Clashes(local, usable, m) && d == ClashIssue(m)
    ensures FillMust(local, s, d)
  {
    var n :| n in usable && Rivals(local, m, n);
    if n in s.always {
      assert SteadyClash(local, s, d, m);
    } else {
      var other :| other in s.always && Rivals(local, other, n) && LoneIssue(local, other, d);
      if other == m {
        assert LoneOrClash(local, s, d, m);
      } else {
        assert Rivals(local, m, other);
        assert SteadyClash(local, s, d, m);
      }
    }
  }

  lemma LoneMust(local: LocalSnapshot, s: Standing<FillObs>, d: Discrepancy, usable: set<FillObs>, m: FillObs)
    requires s.Valid() && usable == set n | n in s.sometimes && (n in s.always || Diverts(local, s, d, n))
    requires m in usable && LoneIssue(local, m, d)
    ensures FillMust(local, s, d) || Clashes(local, usable, m)
  {
    if m in s.always {
      if !LoneOrClash(local, s, d, m) {
        var n :| n in s.sometimes && Rivals(local, m, n) && d != ClashIssue(n);
        assert Diverts(local, s, d, n);
        assert n in usable;
      }
    } else {
      var other :| other in s.always && Rivals(local, other, m) && LoneIssue(local, other, d);
      assert other in usable && Rivals(local, m, other);
    }
  }

  // ---- Both phases together ---------------------------------------------------------------------

  /** What is reported when these payloads are usable, on top of what is reported anyway. */
  predicate Reported(local: LocalSnapshot, fixed: set<Discrepancy>, open: Standing<OpenObs>, fills: Standing<FillObs>,
                     usableOpen: set<OpenObs>, usableFills: set<FillObs>, d: Discrepancy) {
    d in fixed || d in OpenReports(local, open.all, usableOpen) || FillsReport(local, fills.all, usableFills, d)
  }

  predicate May(local: LocalSnapshot, fixed: set<Discrepancy>, open: Standing<OpenObs>, fills: Standing<FillObs>, d: Discrepancy) {
    d in fixed || OpenMay(local, open, d) || FillMay(local, fills, d)
  }

  predicate Must(local: LocalSnapshot, fixed: set<Discrepancy>, open: Standing<OpenObs>, fills: Standing<FillObs>, d: Discrepancy) {
    d in fixed || OpenMust(local, open, d) || FillMust(local, fills, d)
  }

  lemma ReportedBounds(local: LocalSnapshot, fixed: set<Discrepancy>, open: Standing<OpenObs>, fills: Standing<FillObs>,
                       usableOpen: set<OpenObs>, usableFills: set<FillObs>, d: Discrepancy)
    requires open.Valid() && fills.Valid() && open.Allows(usableOpen) && fills.Allows(usableFills)
    ensures Must(local, fixed, open, fills, d) ==> Reported(local, fixed, open, fills, usableOpen, usableFills, d)
    ensures Reported(local, fixed, open, fills, usableOpen, usableFills, d) ==> May(local, fixed, open, fills, d)
  {
    OpenBounds(local, open, d, usableOpen);
    FillBounds(local, fills, d, usableFills);
  }

  /** Both bounds are reached: one way reports what may be reported, another leaves out what need not be. */
  lemma BoundsAreReached(local: LocalSnapshot, fixed: set<Discrepancy>, open: Standing<OpenObs>, fills: Standing<FillObs>, d: Discrepancy)
    returns (withOpen: set<OpenObs>, withFills: set<FillObs>, withoutOpen: set<OpenObs>, withoutFills: set<FillObs>)
    requires open.Valid() && fills.Valid()
    ensures open.Allows(withOpen) && fills.Allows(withFills) && open.Allows(withoutOpen) && fills.Allows(withoutFills)
    ensures May(local, fixed, open, fills, d) ==> Reported(local, fixed, open, fills, withOpen, withFills, d)
    ensures !Must(local, fixed, open, fills, d) ==> !Reported(local, fixed, open, fills, withoutOpen, withoutFills, d)
  {
    withOpen := OpenWitness(local, open, d);
    withFills := FillWitness(local, fills, d);
    withoutOpen := OpenAvoidance(local, open, d);
    withoutFills := FillAvoidance(local, fills, d);
  }
}
