/**
 * tx_trade/monitoring/health.py and metrics.py: health, per-session damage,
 * shutdown and counters, each an object whose methods change its fields.
 */
module Monitoring {
  import opened Wrappers
  import opened RecencyWindow

  type Id = string
  type Reason = string

  const OMITTED: Reason := "additional_reasons_omitted"

  /** A bounded reason list: once it is full, the last entry says that more were left out. */
  function AddReason(reasons: seq<Reason>, capacity: nat, reason: Reason): seq<Reason>
    requires capacity > 0
  {
    if reason in reasons then reasons
    else if |reasons| < capacity then reasons + [reason]
    else if OMITTED in reasons then reasons
    else reasons[|reasons| - 1 := OMITTED]
  }

  /** The list stays bounded and free of repetition, and a reason is never dropped without trace. */
  lemma ReasonIsKept(reasons: seq<Reason>, capacity: nat, reason: Reason)
    requires capacity > 0 && Distinct(reasons) && |reasons| <= capacity
    ensures var after := AddReason(reasons, capacity, reason);
            && Distinct(after) && |reasons| <= |after| <= capacity
            && (reason in after || OMITTED in after)
            && forall r :: r in reasons ==> r in after || (OMITTED in after && |after| == capacity)
  {
    var after := AddReason(reasons, capacity, reason);
    if reason !in reasons && |reasons| >= capacity && OMITTED !in reasons {
      assert after[|reasons| - 1] == OMITTED;
      forall r | r in reasons ensures r in after || (OMITTED in after && |after| == capacity) {
        var i :| 0 <= i < |reasons| && reasons[i] == r;
        assert OMITTED in after;
      }
    }
  }

  /** The list after some reasons, one after the other. */
  function Listed(reasons: seq<Reason>, capacity: nat): seq<Reason>
    requires capacity > 0
  {
    if reasons == [] then []
    else AddReason(Listed(reasons[..|reasons| - 1], capacity), capacity, reasons[|reasons| - 1])
  }

  /** The reasons without repetition, in the order in which they first came up. */
  function FirstUses(reasons: seq<Reason>): (uses: seq<Reason>)
    ensures forall r :: r in uses <==> r in reasons
  {
    if reasons == [] then []
    else
      var n := |reasons| - 1;
      var earlier := FirstUses(reasons[..n]);
      assert reasons == reasons[..n] + [reasons[n]];
      if reasons[n] in earlier then earlier else earlier + [reasons[n]]
  }

  /**
   * As long as they fit, exactly the reasons that came up are listed, in that
   * order; of more than that the first ones are, and the last place says that
   * others were left out.
   */
  lemma {:induction false} ListedExactly(reasons: seq<Reason>, capacity: nat)
    requires capacity > 0 && "additional_reasons_omitted" !in reasons
    ensures var uses := FirstUses(reasons);
            Listed(reasons, capacity)
            == if |uses| <= capacity then uses else uses[..capacity - 1] + ["additional_reasons_omitted"]
  {
    if reasons != [] {
      var n := |reasons| - 1;
      assert reasons == reasons[..n] + [reasons[n]];
      ListedExactly(reasons[..n], capacity);
      var earlier := FirstUses(reasons[..n]);
      if |earlier| > capacity {
        assert earlier[..capacity - 1] + [OMITTED] == Listed(reasons[..n], capacity);
        assert OMITTED in Listed(reasons[..n], capacity);
      }
    }
  }

  datatype HealthState = Healthy | Degraded | Failed
  {
    function Rank(): nat {
      match this
      case Healthy => 0
      case Degraded => 1
      case Failed => 2
    }
  }

  function Worse(a: HealthState, b: HealthState): (w: HealthState)
    ensures w == Failed <==> a == Failed || b == Failed
    ensures w == Healthy <==> a == Healthy && b == Healthy
  {
    if a.Rank() < b.Rank() then b else a
  }

  class PipelineHealth {
    const maxReasons: nat
    var state: HealthState
    var reasons: seq<Reason>
    var reasonSet: set<Reason>
    /** The reasons it was told, one after the other. */
    ghost var told: seq<Reason>

    ghost predicate Valid()
      reads this
    {
      && maxReasons > 0 && |reasons| <= maxReasons && Distinct(reasons) && reasonSet == Elements(reasons)
      && reasons == Listed(told, maxReasons)
    }

    constructor (maxReasons: nat)
      requires maxReasons > 0
      ensures Valid() && state.Healthy? && reasons == [] && told == [] && this.maxReasons == maxReasons
    {
      this.maxReasons := maxReasons;
      state, reasons, reasonSet, told := Healthy, [], {}, [];
    }

    /** In every reachable state: the reasons told, each once and in order, or the first of them and a mark that there were more. */
    lemma ReasonsExactly()
      requires Valid() && "additional_reasons_omitted" !in told
      ensures var uses := FirstUses(told);
              reasons == if |uses| <= maxReasons then uses else uses[..maxReasons - 1] + ["additional_reasons_omitted"]
    {
      ListedExactly(told, maxReasons);
    }

    method Degrade(reason: Reason)
      requires Valid()
      modifies this
      ensures Valid() && state == Worse(old(state), Degraded) && reasons == AddReason(old(reasons), maxReasons, reason)
      ensures told == old(told) + [reason]
    {
      Change(Degraded, reason);
    }

    method Fail(reason: Reason)
      requires Valid()
      modifies this
      ensures Valid() && state == Failed && reasons == AddReason(old(reasons), maxReasons, reason)
      ensures told == old(told) + [reason]
    {
      Change(Failed, reason);
    }

    method Change(next: HealthState, reason: Reason)
      requires Valid() && !next.Healthy?
      modifies this
      ensures Valid() && state == Worse(old(state), next) && reasons == AddReason(old(reasons), maxReasons, reason)
      ensures told == old(told) + [reason]
      ensures state == if old(state) == Failed then Failed else next
    {
      if next.Failed? || state.Healthy? {
        state := next;
      }
      ReasonIsKept(reasons, maxReasons, reason);
      told := told + [reason];
      assert told[..|told| - 1] == old(told);
      if reason in reasonSet {
        return;
      }
      if |reasons| < maxReasons {
        reasons, reasonSet := reasons + [reason], reasonSet + {reason};
      } else if OMITTED !in reasonSet {
        ReplaceLast(reasons, OMITTED);
        reasonSet := reasonSet - {reasons[|reasons| - 1]} + {OMITTED};
        reasons := reasons[|reasons| - 1 := OMITTED];
      }
    }
  }

  lemma ReplaceLast(reasons: seq<Reason>, last: Reason)
    requires reasons != [] && Distinct(reasons)
    ensures Elements(reasons[|reasons| - 1 := last]) == Elements(reasons) - {reasons[|reasons| - 1]} + {last}
  {
    var n := |reasons| - 1;
    var after := reasons[n := last];
    assert after == reasons[..n] + [last] && reasons == reasons[..n] + [reasons[n]];
  }

  class ControlledShutdown {
    var reason: Option<Reason>
    var requests: nat

    ghost predicate Valid()
      reads this
    {
      requests == if reason.Some? then 1 else 0
    }

    predicate Requested()
      reads this
    {
      reason.Some?
    }

    constructor ()
      ensures Valid() && !Requested()
    {
      reason, requests := None, 0;
    }

    /** Only the first request is kept. */
    method RequestShutdown(why: Reason) returns (first: bool)
      requires Valid()
      modifies this
      ensures Valid() && first == !old(Requested()) && Requested()
      ensures reason == if old(Requested()) then old(reason) else Some(why)
    {
      if reason.Some? {
        return false;
      }
      reason, requests := Some(why), 1;
      return true;
    }
  }

  // ---- Damage to recorded sessions --------------------------------------------------------

  datatype Impact = Impact(reasons: seq<Reason>, droppedTicks: nat, firstDropped: Option<nat>, lastDropped: Option<nat>)

  datatype DamageReport = DamageReport(sessions: map<Id, Impact>, exhausted: bool)
  {
    /** Whether the session's recording counts as incomplete. */
    predicate Incomplete(session: Id) {
      exhausted || session in sessions
    }

    function TerminalStatus(session: Id, requested: string): string {
      if Incomplete(session) then "incomplete" else requested
    }

    predicate HasRoom(session: Id, maxSessions: nat) {
      session in sessions || |sessions| < maxSessions
    }

    function Of(session: Id): Impact {
      if session in sessions then sessions[session] else Impact([], 0, None, None)
    }
  }

  datatype DamageOp = MarkIncomplete(session: Id, reason: Reason) | RecordDroppedTick(session: Id, sequence: nat) | Clear(session: Id)

  function Marked(impact: Impact, maxReasons: nat, reason: Reason): Impact
    requires maxReasons > 0
  {
    impact.(reasons := AddReason(impact.reasons, maxReasons, reason))
  }

  function TickDropped(impact: Impact, sequence: nat): Impact {
    impact.(droppedTicks := impact.droppedTicks + 1,
            firstDropped := if impact.firstDropped.None? then Some(sequence) else impact.firstDropped,
            lastDropped := Some(sequence))
  }

  function Damaged(d: DamageReport, maxSessions: nat, maxReasons: nat, op: DamageOp): DamageReport
    requires maxReasons > 0
  {
    match op
    case MarkIncomplete(session, reason) =>
      if d.HasRoom(session, maxSessions) then d.(sessions := d.sessions[session := Marked(d.Of(session), maxReasons, reason)])
      else d.(exhausted := true)
    case RecordDroppedTick(session, sequence) =>
      if d.HasRoom(session, maxSessions) then d.(sessions := d.sessions[session := TickDropped(d.Of(session), sequence)])
      else d.(exhausted := true)
    case Clear(session) => d.(sessions := d.sessions - {session})
  }

  function AfterDamage(d: DamageReport, maxSessions: nat, maxReasons: nat, ops: seq<DamageOp>): DamageReport
    requires maxReasons > 0
  {
    if ops == [] then d
    else Damaged(AfterDamage(d, maxSessions, maxReasons, ops[..|ops| - 1]), maxSessions, maxReasons, ops[|ops| - 1])
  }

  /** The session was damaged after it was last cleared. */
  predicate DamagedSinceClear(ops: seq<DamageOp>, session: Id) {
    if ops == [] then false
    else if ops[|ops| - 1].session == session then !ops[|ops| - 1].Clear?
    else DamagedSinceClear(ops[..|ops| - 1], session)
  }

  /** Some damage found no room for a new session. */
  predicate RanOutOfRoom(maxSessions: nat, maxReasons: nat, ops: seq<DamageOp>)
    requires maxReasons > 0
  {
    exists n :: 0 <= n < |ops| && Refused(maxSessions, maxReasons, ops, n)
  }

  predicate Refused(maxSessions: nat, maxReasons: nat, ops: seq<DamageOp>, n: nat)
    requires maxReasons > 0 && n < |ops|
  {
    !ops[n].Clear? && !AfterDamage(DamageReport(map[], false), maxSessions, maxReasons, ops[..n]).HasRoom(ops[n].session, maxSessions)
  }

  /**
   * Over all runs a session ends as incomplete exactly when it was damaged
   * after its last clearing, or when the tracker ever ran out of room.
   */
  lemma {:induction false} IncompleteExactly(maxSessions: nat, maxReasons: nat, ops: seq<DamageOp>, session: Id)
    requires maxReasons > 0
    ensures var end := AfterDamage(DamageReport(map[], false), maxSessions, maxReasons, ops);
            && (end.Incomplete(session) <==> DamagedSinceClear(ops, session) || RanOutOfRoom(maxSessions, maxReasons, ops))
            && (end.exhausted <==> RanOutOfRoom(maxSessions, maxReasons, ops))
            && (session in end.sessions ==> DamagedSinceClear(ops, session))
  {
    if ops != [] {
      var n := |ops| - 1;
      IncompleteExactly(maxSessions, maxReasons, ops[..n], session);
      RoomStep(maxSessions, maxReasons, ops);
    }
  }

  /** The damage to a session since it was last cleared that found room. */
  function KeptDamage(maxSessions: nat, maxReasons: nat, ops: seq<DamageOp>, session: Id): seq<DamageOp>
    requires maxReasons > 0
  {
    if ops == [] then []
    else
      var n := |ops| - 1;
      var earlier := KeptDamage(maxSessions, maxReasons, ops[..n], session);
      if ops[n].session != session then earlier
      else if ops[n].Clear? then []
      else if Refused(maxSessions, maxReasons, ops, n) then earlier
      else earlier + [ops[n]]
  }

  function MarksOf(kept: seq<DamageOp>): seq<Reason> {
    if kept == [] then []
    else
      var n := |kept| - 1;
      MarksOf(kept[..n]) + if kept[n].MarkIncomplete? then [kept[n].reason] else []
  }

  function DropsOf(kept: seq<DamageOp>): seq<nat> {
    if kept == [] then []
    else
      var n := |kept| - 1;
      DropsOf(kept[..n]) + if kept[n].RecordDroppedTick? then [kept[n].sequence] else []
  }

  /** What is known of a session: the reasons given, and how many ticks it lost, from which to which. */
  predicate Tells(impact: Impact, kept: seq<DamageOp>, maxReasons: nat)
    requires maxReasons > 0
  {
    TellsOf(impact, Listed(MarksOf(kept), maxReasons), DropsOf(kept))
  }

  predicate TellsOf(impact: Impact, reasons: seq<Reason>, drops: seq<nat>) {
    && impact.reasons == reasons
    && impact.droppedTicks == |drops|
    && impact.firstDropped == (if drops == [] then None else Some(drops[0]))
    && impact.lastDropped == (if drops == [] then None else Some(drops[|drops| - 1]))
  }

  /** Over all runs a session is on record exactly when some damage to it was kept, and the record tells exactly that damage. */
  lemma {:induction false} ImpactExactly(maxSessions: nat, maxReasons: nat, ops: seq<DamageOp>, session: Id)
    requires maxReasons > 0
    ensures var end := AfterDamage(DamageReport(map[], false), maxSessions, maxReasons, ops);
            var kept := KeptDamage(maxSessions, maxReasons, ops, session);
            && (session in end.sessions <==> kept != [])
            && (session in end.sessions ==> Tells(end.sessions[session], kept, maxReasons))
  {
    if ops != [] {
      var n := |ops| - 1;
      ImpactExactly(maxSessions, maxReasons, ops[..n], session);
      var d := AfterDamage(DamageReport(map[], false), maxSessions, maxReasons, ops[..n]);
      if ops[n].session == session && !ops[n].Clear? && !Refused(maxSessions, maxReasons, ops, n) {
        KeptTells(d.Of(session), KeptDamage(maxSessions, maxReasons, ops[..n], session), ops[n], maxReasons);
      }
      DamagedOnly(d, maxSessions, maxReasons, ops[n], session);
    }
  }

  /** One operation changes the record of its own session at most. */
  lemma DamagedOnly(d: DamageReport, maxSessions: nat, maxReasons: nat, op: DamageOp, session: Id)
    requires maxReasons > 0
    ensures var after := Damaged(d, maxSessions, maxReasons, op);
            var kept := op.session == session && !op.Clear? && d.HasRoom(session, maxSessions);
            && (session in after.sessions <==> kept || (session in d.sessions && !(op.session == session && op.Clear?)))
            && (session in after.sessions ==>
                  after.sessions[session] == if !kept then d.sessions[session]
                                             else if op.MarkIncomplete? then Marked(d.Of(session), maxReasons, op.reason)
                                             else TickDropped(d.Of(session), op.sequence))
  {
  }

  lemma KeptTells(impact: Impact, kept: seq<DamageOp>, op: DamageOp, maxReasons: nat)
    requires maxReasons > 0 && !op.Clear? && Tells(impact, kept, maxReasons)
    ensures Tells(if op.MarkIncomplete? then Marked(impact, maxReasons, op.reason) else TickDropped(impact, op.sequence),
                  kept + [op], maxReasons)
  {
    KeptNext(kept, op, maxReasons);
    if op.RecordDroppedTick? {
      OneMoreDrop(impact, impact.reasons, DropsOf(kept), op.sequence);
    }
  }

  lemma OneMoreDrop(impact: Impact, reasons: seq<Reason>, drops: seq<nat>, sequence: nat)
    requires TellsOf(impact, reasons, drops)
    ensures TellsOf(TickDropped(impact, sequence), reasons, drops + [sequence])
  {
  }

  lemma KeptNext(kept: seq<DamageOp>, op: DamageOp, maxReasons: nat)
    requires maxReasons > 0 && !op.Clear?
    ensures MarksOf(kept + [op]) == if op.MarkIncomplete? then MarksOf(kept) + [op.reason] else MarksOf(kept)
    ensures DropsOf(kept + [op]) == if op.RecordDroppedTick? then DropsOf(kept) + [op.sequence] else DropsOf(kept)
    ensures op.MarkIncomplete? ==>
              Listed(MarksOf(kept) + [op.reason], maxReasons) == AddReason(Listed(MarksOf(kept), maxReasons), maxReasons, op.reason)
  {
    assert (kept + [op])[..|kept|] == kept;
    if op.MarkIncomplete? {
      assert (MarksOf(kept) + [op.reason])[..|MarksOf(kept)|] == MarksOf(kept);
    }
  }

  function SessionsIn(ops: seq<DamageOp>): set<Id> {
    set op | op in ops :: op.session
  }

  /** Room never runs out while no more sessions are ever named than there is room for. */
  lemma RoomSuffices(maxSessions: nat, maxReasons: nat, ops: seq<DamageOp>)
    requires maxReasons > 0 && |SessionsIn(ops)| <= maxSessions
    ensures !RanOutOfRoom(maxSessions, maxReasons, ops)
  {
    forall n | 0 <= n < |ops| ensures !Refused(maxSessions, maxReasons, ops, n) {
      var sessions := AfterDamage(DamageReport(map[], false), maxSessions, maxReasons, ops[..n]).sessions;
      OnlyNamedSessions(maxSessions, maxReasons, ops[..n]);
      assert ops[n] in ops;
      if ops[n].session !in sessions {
        assert sessions.Keys + {ops[n].session} <= SessionsIn(ops);
        FewerElements(sessions.Keys + {ops[n].session}, SessionsIn(ops));
        assert |sessions| == |sessions.Keys|;
      }
    }
  }

  lemma FewerElements<T>(a: set<T>, b: set<T>)
    requires a <= b
    ensures |a| <= |b|
  {
    assert b == a + (b - a);
  }

  lemma {:induction false} OnlyNamedSessions(maxSessions: nat, maxReasons: nat, ops: seq<DamageOp>)
    requires maxReasons > 0
    ensures AfterDamage(DamageReport(map[], false), maxSessions, maxReasons, ops).sessions.Keys <= SessionsIn(ops)
  {
    if ops != [] {
      var n := |ops| - 1;
      OnlyNamedSessions(maxSessions, maxReasons, ops[..n]);
      assert SessionsIn(ops[..n]) <= SessionsIn(ops) by {
        assert forall op :: op in ops[..n] ==> op in ops;
      }
      assert ops[n] in ops;
    }
  }

  /** Damage sticks: whatever else happens, the session ends as incomplete until it is cleared. */
  lemma DamageSticks(maxSessions: nat, maxReasons: nat, ops: seq<DamageOp>, i: nat, requested: string)
    requires maxReasons > 0 && i < |ops| && !ops[i].Clear?
    requires forall j :: i < j < |ops| ==> ops[j] != Clear(ops[i].session)
    ensures AfterDamage(DamageReport(map[], false), maxSessions, maxReasons, ops).TerminalStatus(ops[i].session, requested)
            == "incomplete"
  {
    StillDamaged(ops, i);
    IncompleteExactly(maxSessions, maxReasons, ops, ops[i].session);
  }

  lemma {:induction false} StillDamaged(ops: seq<DamageOp>, i: nat)
    requires i < |ops| && !ops[i].Clear?
    requires forall j :: i < j < |ops| ==> ops[j] != Clear(ops[i].session)
    ensures DamagedSinceClear(ops, ops[i].session)
  {
    var n := |ops| - 1;
    if i < n && ops[n].session != ops[i].session {
      StillDamaged(ops[..n], i);
    }
  }

  lemma RoomStep(maxSessions: nat, maxReasons: nat, ops: seq<DamageOp>)
    requires maxReasons > 0 && ops != []
    ensures RanOutOfRoom(maxSessions, maxReasons, ops)
            <==> RanOutOfRoom(maxSessions, maxReasons, ops[..|ops| - 1]) || Refused(maxSessions, maxReasons, ops, |ops| - 1)
  {
    var n := |ops| - 1;
    forall m | 0 <= m < n ensures Refused(maxSessions, maxReasons, ops, m) <==> Refused(maxSessions, maxReasons, ops[..n], m) {
      assert ops[..n][..m] == ops[..m];
    }
    if RanOutOfRoom(maxSessions, maxReasons, ops[..n]) {
      var m :| 0 <= m < n && Refused(maxSessions, maxReasons, ops[..n], m);
      assert Refused(maxSessions, maxReasons, ops, m);
    }
  }

  lemma AfterOneMore(maxSessions: nat, maxReasons: nat, ops: seq<DamageOp>, op: DamageOp)
    requires maxReasons > 0
    ensures AfterDamage(DamageReport(map[], false), maxSessions, maxReasons, ops + [op])
            == Damaged(AfterDamage(DamageReport(map[], false), maxSessions, maxReasons, ops), maxSessions, maxReasons, op)
  {
    assert (ops + [op])[..|ops|] == ops;
  }

  // ---- Damage that is accounted for -----------------------------------------------------------

  /** Each damage due has been done, at its own place among the operations and in this order. */
  ghost predicate DoneAt(ops: seq<DamageOp>, places: seq<nat>, due: seq<DamageOp>) {
    && |places| == |due|
    && (forall k :: 0 <= k < |places| ==> places[k] < |ops| && ops[places[k]] == due[k] && !due[k].Clear?)
    && (forall j, k :: 0 <= j < k < |places| ==> places[j] < places[k])
  }

  /** What others do to the tracker does not undo it. */
  lemma StillDone(ops: seq<DamageOp>, later: seq<DamageOp>, places: seq<nat>, due: seq<DamageOp>)
    requires DoneAt(ops, places, due) && ops <= later
    ensures DoneAt(later, places, due)
  {
  }

  /** One more damage due, done right away. */
  lemma OneMoreDone(ops: seq<DamageOp>, more: seq<DamageOp>, places: seq<nat>, due: seq<DamageOp>)
    requires DoneAt(ops, places, due) && more != [] && !more[0].Clear?
    ensures DoneAt(ops + more, places + [|ops|], due + [more[0]])
  {
    assert (ops + more)[|ops|] == more[0];
  }

  class SessionImpactTracker {
    const maxSessions: nat
    const maxReasons: nat
    var sessions: map<Id, Impact>
    var exhausted: bool
    /** The operations so far, whoever called them. */
    ghost var ops: seq<DamageOp>

    ghost predicate Valid()
      reads this
    {
      && maxSessions > 0 && maxReasons > 0 && |sessions| <= maxSessions
      && Damage() == AfterDamage(DamageReport(map[], false), maxSessions, maxReasons, ops)
    }

    function Damage(): DamageReport
      reads this
    {
      DamageReport(sessions, exhausted)
    }

    constructor (maxSessions: nat, maxReasons: nat)
      requires maxSessions > 0 && maxReasons > 0
      ensures Valid() && Damage() == DamageReport(map[], false) && ops == []
      ensures this.maxSessions == maxSessions && this.maxReasons == maxReasons
    {
      this.maxSessions, this.maxReasons := maxSessions, maxReasons;
      sessions, exhausted, ops := map[], false, [];
    }

    /** In every reachable state: incomplete exactly when damaged since the last clearing, or when room ever ran out. */
    lemma StatusExactly(session: Id, requested: string)
      requires Valid()
      ensures Damage().TerminalStatus(session, requested)
              == if DamagedSinceClear(ops, session) || RanOutOfRoom(maxSessions, maxReasons, ops) then "incomplete" else requested
    {
      IncompleteExactly(maxSessions, maxReasons, ops, session);
    }

    /** In every reachable state: whatever was damaged and not cleared since is incomplete. */
    lemma DamageIsKept(i: nat, requested: string)
      requires Valid() && i < |ops| && !ops[i].Clear? && DamageOp.Clear(ops[i].session) !in ops[i + 1..]
      ensures Damage().TerminalStatus(ops[i].session, requested) == "incomplete"
    {
      forall j | i < j < |ops| ensures ops[j] != DamageOp.Clear(ops[i].session) {
        assert ops[i + 1..][j - i - 1] == ops[j];
      }
      DamageSticks(maxSessions, maxReasons, ops, i, requested);
    }

    /** Raises, as ok false, when a new session finds no room; the session is incomplete either way. */
    method MarkIncomplete(session: Id, reason: Reason) returns (ok: bool)
      requires Valid()
      modifies this
      ensures Valid() && Damage() == Damaged(old(Damage()), maxSessions, maxReasons, DamageOp.MarkIncomplete(session, reason))
      ensures ops == old(ops) + [DamageOp.MarkIncomplete(session, reason)]
      ensures ok == old(Damage().HasRoom(session, maxSessions)) && Damage().Incomplete(session)
      ensures ok == (session in old(sessions) || |old(sessions)| < maxSessions)
    {
      AfterOneMore(maxSessions, maxReasons, ops, DamageOp.MarkIncomplete(session, reason));
      ops := ops + [DamageOp.MarkIncomplete(session, reason)];
      if session !in sessions && |sessions| >= maxSessions {
        exhausted := true;
        return false;
      }
      RoomFor(sessions, session, Marked(Damage().Of(session), maxReasons, reason));
      sessions := sessions[session := Marked(Damage().Of(session), maxReasons, reason)];
      return true;
    }

    method RecordDroppedTick(session: Id, sequence: nat) returns (ok: bool)
      requires Valid()
      modifies this
      ensures Valid() && Damage() == Damaged(old(Damage()), maxSessions, maxReasons, DamageOp.RecordDroppedTick(session, sequence))
      ensures ops == old(ops) + [DamageOp.RecordDroppedTick(session, sequence)]
      ensures ok == old(Damage().HasRoom(session, maxSessions)) && Damage().Incomplete(session)
      ensures ok == (session in old(sessions) || |old(sessions)| < maxSessions)
    {
      AfterOneMore(maxSessions, maxReasons, ops, DamageOp.RecordDroppedTick(session, sequence));
      ops := ops + [DamageOp.RecordDroppedTick(session, sequence)];
      if session !in sessions && |sessions| >= maxSessions {
        exhausted := true;
        return false;
      }
      RoomFor(sessions, session, TickDropped(Damage().Of(session), sequence));
      sessions := sessions[session := TickDropped(Damage().Of(session), sequence)];
      return true;
    }

    method Clear(session: Id)
      requires Valid()
      modifies this
      ensures Valid() && Damage() == Damaged(old(Damage()), maxSessions, maxReasons, DamageOp.Clear(session))
      ensures ops == old(ops) + [DamageOp.Clear(session)]
    {
      AfterOneMore(maxSessions, maxReasons, ops, DamageOp.Clear(session));
      ops := ops + [DamageOp.Clear(session)];
      FewerSessions(sessions, session);
      sessions := sessions - {session};
    }

    method EffectiveTerminalStatus(session: Id, requested: string) returns (status: string)
      ensures status == Damage().TerminalStatus(session, requested)
      ensures status == if exhausted || session in sessions then "incomplete" else requested
    {
      status := if exhausted || session in sessions then "incomplete" else requested;
    }
  }

  lemma RoomFor(sessions: map<Id, Impact>, session: Id, impact: Impact)
    ensures |sessions[session := impact]| == |sessions| + if session in sessions then 0 else 1
  {
    var after := sessions[session := impact];
    assert after.Keys == sessions.Keys + {session};
    assert |after| == |after.Keys| && |sessions| == |sessions.Keys|;
  }

  lemma FewerSessions(sessions: map<Id, Impact>, session: Id)
    ensures |sessions - {session}| <= |sessions|
  {
    assert (sessions - {session}).Keys == sessions.Keys - {session};
    assert |sessions - {session}| == |(sessions - {session}).Keys| && |sessions| == |sessions.Keys|;
  }

  // ---- Health, damage and shutdown together ------------------------------------------------

  /** What the health was told, what the tracker was, and what was asked of the shutdown and counted. */
  datatype Alarm = Alarm(health: HealthState, told: seq<Reason>, damage: seq<DamageOp>, asked: Option<Reason>, requests: nat)

  const NO_ROOM: Reason := "session_impact_capacity_exhausted"

  function Worsened(a: Alarm, state: HealthState, reason: Reason): Alarm {
    a.(health := Worse(a.health, state), told := a.told + [reason])
  }

  /** Shutdown is asked for; only the first request counts and is counted. */
  function Asked(a: Alarm, reason: Reason): Alarm {
    a.(asked := if a.asked.Some? then a.asked else Some(reason), requests := a.requests + if a.asked.Some? then 0 else 1)
  }

  /** Damage is noted; without room for it health fails. */
  function Noted(a: Alarm, op: DamageOp, room: bool): Alarm {
    var noted := a.(damage := a.damage + [op]);
    if room then noted else Worsened(noted, Failed, NO_ROOM)
  }

  // ---- Counters --------------------------------------------------------------------------------

  datatype MetricLane = DiagnosticLane | ControlLane | QuoteLane | TickLane | StaQuoteLane

  datatype Outcome = AcceptedOutcome | CoalescedOutcome | DroppedOutcome | DuplicateOutcome

  datatype LaneCounters = LaneCounters(
    received: nat, accepted: nat, coalesced: nat, dropped: nat, duplicates: nat, overflow: nat, depth: nat, capacity: nat)

  function NoTraffic(): LaneCounters {
    LaneCounters(0, 0, 0, 0, 0, 0, 0, 0)
  }

  /** One result on one lane. */
  function Counted(c: LaneCounters, outcome: Outcome, overflow: bool, depth: nat): LaneCounters {
    var d := c.(received := c.received + 1, overflow := c.overflow + (if overflow then 1 else 0), depth := depth);
    match outcome
    case AcceptedOutcome => d.(accepted := c.accepted + 1)
    case CoalescedOutcome => d.(coalesced := c.coalesced + 1)
    case DroppedOutcome => d.(dropped := c.dropped + 1)
    case DuplicateOutcome => d.(duplicates := c.duplicates + 1)
  }

  function Once(counted: bool): nat {
    if counted then 1 else 0
  }

  /** One more result has come in, and one more of its kind. */
  predicate CountsOne(before: LaneCounters, after: LaneCounters, outcome: Outcome, overflow: bool, depth: nat) {
    && after.received == before.received + 1
    && after.accepted == before.accepted + Once(outcome == AcceptedOutcome)
    && after.coalesced == before.coalesced + Once(outcome == CoalescedOutcome)
    && after.dropped == before.dropped + Once(outcome == DroppedOutcome)
    && after.duplicates == before.duplicates + Once(outcome == DuplicateOutcome)
    && after.overflow == before.overflow + Once(overflow)
    && after.depth == depth && after.capacity == before.capacity
  }

  class IngressMetrics {
    var lanes: map<MetricLane, LaneCounters>
    var firstDroppedTick: Option<nat>
    var lastDroppedTick: Option<nat>
    var shutdownRequests: nat
    var processingFailures: nat
    var storageFailures: nat

    ghost predicate Valid()
      reads this`lanes
    {
      forall lane: MetricLane :: lane in lanes
    }

    function Lane(lane: MetricLane): LaneCounters
      reads this
      requires lane in lanes
    {
      lanes[lane]
    }

    constructor ()
      ensures Valid() && forall lane :: lane in lanes && lanes[lane] == NoTraffic()
      ensures firstDroppedTick.None? && lastDroppedTick.None?
      ensures shutdownRequests == processingFailures == storageFailures == 0
    {
      lanes := map[DiagnosticLane := NoTraffic(), ControlLane := NoTraffic(), QuoteLane := NoTraffic(),
                   TickLane := NoTraffic(), StaQuoteLane := NoTraffic()];
      firstDroppedTick, lastDroppedTick := None, None;
      shutdownRequests, processingFailures, storageFailures := 0, 0, 0;
      new;
      assert forall lane: MetricLane :: lane in lanes by {
        forall lane: MetricLane ensures lane in lanes {
          match lane case DiagnosticLane => case ControlLane => case QuoteLane => case TickLane => case StaQuoteLane =>
        }
      }
    }

    /** Raises, as ok false, when another capacity was set before. */
    method SetCapacity(lane: MetricLane, capacity: nat) returns (ok: bool)
      requires Valid() && capacity > 0
      modifies this`lanes
      ensures Valid() && ok == (old(lanes[lane].capacity) == 0 || old(lanes[lane].capacity) == capacity)
      ensures lanes == if ok then old(lanes)[lane := old(lanes[lane]).(capacity := capacity)] else old(lanes)
    {
      if lanes[lane].capacity != 0 && lanes[lane].capacity != capacity {
        return false;
      }
      lanes := lanes[lane := lanes[lane].(capacity := capacity)];
      return true;
    }

    /** Raises, as ok false, when the depth exceeds the lane's capacity; nothing is counted then. */
    method RecordResult(lane: MetricLane, outcome: Outcome, sequence: Option<nat>, overflow: bool, depth: nat) returns (ok: bool)
      requires Valid() && (lane.TickLane? && outcome.DroppedOutcome? ==> sequence.Some?)
      modifies this`lanes, this`firstDroppedTick, this`lastDroppedTick
      ensures Valid() && ok == (old(lanes[lane].capacity) == 0 || depth <= old(lanes[lane].capacity))
      ensures lanes == if ok then old(lanes)[lane := Counted(old(lanes[lane]), outcome, overflow, depth)] else old(lanes)
      ensures ok ==> CountsOne(old(lanes[lane]), lanes[lane], outcome, overflow, depth)
      ensures ok && lane.TickLane? && outcome.DroppedOutcome? ==>
                lastDroppedTick == sequence && firstDroppedTick == (if old(firstDroppedTick).None? then sequence else old(firstDroppedTick))
      ensures !(ok && lane.TickLane? && outcome.DroppedOutcome?) ==>
                lastDroppedTick == old(lastDroppedTick) && firstDroppedTick == old(firstDroppedTick)
    {
      if lanes[lane].capacity != 0 && depth > lanes[lane].capacity {
        return false;
      }
      lanes := lanes[lane := Counted(lanes[lane], outcome, overflow, depth)];
      if lane.TickLane? && outcome.DroppedOutcome? {
        if firstDroppedTick.None? {
          firstDroppedTick := sequence;
        }
        lastDroppedTick := sequence;
      }
      return true;
    }

    method UpdateDepth(lane: MetricLane, depth: nat) returns (ok: bool)
      requires Valid()
      modifies this`lanes
      ensures Valid() && ok == (old(lanes[lane].capacity) == 0 || depth <= old(lanes[lane].capacity))
      ensures lanes == if ok then old(lanes)[lane := old(lanes[lane]).(depth := depth)] else old(lanes)
    {
      if lanes[lane].capacity != 0 && depth > lanes[lane].capacity {
        return false;
      }
      lanes := lanes[lane := lanes[lane].(depth := depth)];
      return true;
    }

    method RecordShutdownRequest()
      modifies this`shutdownRequests
      ensures shutdownRequests == old(shutdownRequests) + 1
    {
      shutdownRequests := shutdownRequests + 1;
    }

    method RecordProcessingFailure()
      modifies this`processingFailures
      ensures processingFailures == old(processingFailures) + 1
    {
      processingFailures := processingFailures + 1;
    }

    method RecordStorageFailure()
      modifies this`storageFailures
      ensures storageFailures == old(storageFailures) + 1
    {
      storageFailures := storageFailures + 1;
    }
  }

  ghost function AlarmOf(health: PipelineHealth, impact: SessionImpactTracker, shutdown: ControlledShutdown, metrics: IngressMetrics): Alarm
    reads health, impact, shutdown, metrics`shutdownRequests
  {
    Alarm(health.state, health.told, impact.ops, shutdown.reason, metrics.shutdownRequests)
  }
}
