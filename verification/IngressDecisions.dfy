/**
 * Why each event was admitted, merged, dropped or taken for a duplicate, and why
 * each pop took what it took: all of it said on the log of what happened before.
 */
module IngressDecisions {
  import opened Wrappers
  import opened RecencyWindow
  import opened IngressQueues
  import opened IngressHistory

  // ---- Readings of the log, on what the events carry ------------------------------------

  /** The lane an event belongs to, by what it carries. */
  predicate On(lane: Lane, e: Event) {
    match lane
    case Diagnostic => e.payload.AdapterDiagnostic?
    case Quote => e.payload.QuoteSnapshot?
    case Tick => e.payload.TickNotification?
    case Control => e.payload.ConnectionNotification? || e.payload.ServerTimeNotification? || e.payload.StockListNotification?
  }

  /** Two quotes of one stock in one generation of one session. */
  predicate SameQuote(a: Event, b: Event) {
    && a.payload.QuoteSnapshot? && b.payload == a.payload
    && a.session == b.session && a.generation == b.generation
  }

  /** How many accepted events of a lane have not been popped. */
  function Waiting(log: Log, lane: Lane): int {
    if log == [] then 0
    else
      var n := |log| - 1;
      Waiting(log[..n], lane)
      + (if !On(lane, log[n].event) then 0
         else match log[n]
              case Published(_, decision, _) => if decision == Accepted then 1 else 0
              case Popped(_) => -1)
  }

  predicate Enters(r: Record) {
    r.Published? && (r.decision == Accepted || r.decision == Coalesced)
  }

  /** The j-th record let in the quote that now waits for its stock. */
  predicate Queued(log: Log, j: int) {
    && 0 <= j < |log| && log[j].event.payload.QuoteSnapshot? && Enters(log[j])
    && forall m :: j < m < |log| && SameQuote(log[m].event, log[j].event) ==> !Enters(log[m]) && !log[m].Popped?
  }

  function Candidate(e: Event): DedupeKey
    requires e.candidate.Some?
  {
    DedupeKey(e.session, e.generation, e.candidate.value)
  }

  /** The record put its candidate at the recent end of the cache. */
  predicate Stirs(r: Record) {
    r.Published? && r.event.candidate.Some? && (r.hit || Enters(r))
  }

  function StirredAfter(log: Log, j: int): set<DedupeKey>
    requires j >= -1
  {
    set m | j < m < |log| && Stirs(log[m]) :: Candidate(log[m].event)
  }

  /** The candidate was last stirred at j, and fewer others than the cache has room for were stirred since. */
  predicate RecentAt(log: Log, capacity: nat, k: DedupeKey, j: int) {
    LastStirred(log, k, j) && |StirredAfter(log, j)| < capacity
  }

  predicate LastStirred(log: Log, k: DedupeKey, j: int) {
    0 <= j < |log| && Stirs(log[j]) && Candidate(log[j].event) == k && k !in StirredAfter(log, j)
  }

  ghost predicate SeenRecently(log: Log, capacity: nat, e: Event) {
    e.candidate.Some? && exists j :: RecentAt(log, capacity, Candidate(e), j)
  }

  // ---- Why a decision is taken -------------------------------------------------------------

  /** A quote of the same stock waits that is at least as new. */
  ghost predicate Outdated(log: Log, e: Event) {
    exists j :: Queued(log, j) && SameQuote(log[j].event, e) && e.sequence <= log[j].event.sequence
  }

  /** An older quote of the same stock waits. */
  ghost predicate Supersedes(log: Log, e: Event) {
    exists j :: Queued(log, j) && SameQuote(log[j].event, e) && log[j].event.sequence < e.sequence
  }

  ghost predicate LaneFull(l: Limits, log: Log, e: Event) {
    exists lane :: On(lane, e) && Waiting(log, lane) == l.Capacity(lane)
  }

  /**
   * A candidate seen recently and an outdated quote are duplicates, a newer quote
   * replaces the one that waits, and anything else is accepted exactly when its
   * lane has room.
   */
  ghost predicate Decides(l: Limits, log: Log, e: Event, decision: Decision) {
    && (decision == Duplicate <==> SeenRecently(log, l.dedupe, e) || Outdated(log, e))
    && (decision == Coalesced <==> !SeenRecently(log, l.dedupe, e) && Supersedes(log, e))
    && (decision == Dropped <==> !SeenRecently(log, l.dedupe, e) && !Outdated(log, e) && !Supersedes(log, e) && LaneFull(l, log, e))
    && (decision == Accepted <==> !SeenRecently(log, l.dedupe, e) && !Outdated(log, e) && !Supersedes(log, e) && !LaneFull(l, log, e))
  }

  /** The one decision that the log leaves. */
  ghost function DecisionFor(l: Limits, log: Log, e: Event): (decision: Decision)
    ensures Decides(l, log, e, decision)
  {
    if SeenRecently(log, l.dedupe, e) || Outdated(log, e) then Duplicate
    else if Supersedes(log, e) then Coalesced
    else if LaneFull(l, log, e) then Dropped
    else Accepted
  }

  // ---- Why a pop takes what it takes -------------------------------------------------------

  predicate Waits(log: Log, lane: Lane) {
    Waiting(log, lane) > 0
  }

  predicate CriticalWaits(log: Log) {
    Waits(log, Diagnostic) || Waits(log, Control)
  }

  predicate MarketWaits(log: Log) {
    Waits(log, Quote) || Waits(log, Tick)
  }

  predicate TakesCritical(r: Record) {
    r.Popped? && (On(Diagnostic, r.event) || On(Control, r.event))
  }

  predicate TakesMarket(r: Record) {
    r.Popped? && (On(Quote, r.event) || On(Tick, r.event))
  }

  /** The pops from critical lanes since the last one from a market lane. */
  function Burst(log: Log): nat {
    if log == [] then 0
    else
      var n := |log| - 1;
      if TakesMarket(log[n]) then 0 else Burst(log[..n]) + if TakesCritical(log[n]) then 1 else 0
  }

  /** A pop that had to choose between two lanes. */
  predicate Chooses(log: Log, j: int, a: Lane, b: Lane) {
    && 0 <= j < |log| && log[j].Popped? && (On(a, log[j].event) || On(b, log[j].event))
    && Waits(log[..j], a) && Waits(log[..j], b)
  }

  /** The last pop that had to choose between the two lanes. */
  predicate LastChoice(log: Log, j: int, a: Lane, b: Lane) {
    Chooses(log, j, a, b) && forall m :: j < m < |log| ==> !Chooses(log, m, a, b)
  }

  /** Lane a is next: lane b was last chosen, or nothing was and a is the first. */
  ghost predicate ItsTurn(log: Log, first: Lane, a: Lane, b: Lane) {
    || (exists j :: LastChoice(log, j, a, b) && On(b, log[j].event))
    || (a == first && forall j :: !LastChoice(log, j, a, b))
  }

  /** Lane a is served before lane b: it alone waits, or both do and it is its turn. */
  ghost predicate Precedes(log: Log, first: Lane, a: Lane, b: Lane) {
    Waits(log, a) && (Waits(log, b) ==> ItsTurn(log, first, a, b))
  }

  /** A critical lane goes first, but not while market data waits after a full burst of critical events. */
  predicate CriticalFirst(l: Limits, log: Log) {
    CriticalWaits(log) && (MarketWaits(log) ==> Burst(log) < l.burst)
  }

  ghost predicate Serves(l: Limits, log: Log, e: Event) {
    && (On(Diagnostic, e) <==> CriticalFirst(l, log) && Precedes(log, Diagnostic, Diagnostic, Control))
    && (On(Control, e) <==> CriticalFirst(l, log) && Precedes(log, Diagnostic, Control, Diagnostic))
    && (On(Quote, e) <==> !CriticalFirst(l, log) && Precedes(log, Quote, Quote, Tick))
    && (On(Tick, e) <==> !CriticalFirst(l, log) && Precedes(log, Quote, Tick, Quote))
  }

  /** A pop takes what the log lets go first, and nothing exactly when nothing waits. */
  ghost predicate NextFollows(l: Limits, log: Log, taken: Option<Event>) {
    match taken
    case Some(e) => Serves(l, log, e)
    case None => forall lane: Lane :: !Waits(log, lane)
  }

  // ---- The readings, one record further ---------------------------------------------------

  lemma WaitingIsDepth(log: Log, lane: Lane)
    ensures Waiting(log, lane) == |AcceptedInto(log, lane)| - |PoppedFrom(log, lane)|
  {
    if log != [] {
      WaitingIsDepth(log[..|log| - 1], lane);
    }
  }

  lemma LaneFill(l: Limits, w: World, lane: Lane)
    requires Explained(l, w)
    ensures Waiting(w.log, lane) == |w.queues.Lane(lane)|
  {
    WaitingIsDepth(w.log, lane);
    if lane.Quote? {
      assert |Line(w, Quote)| == |PoppedFrom(w.log, Quote)| + |w.queues.quotes|;
    } else {
      assert FifoExplained(w, lane);
      assert |Line(w, lane)| == |PoppedFrom(w.log, lane)| + |w.queues.Lane(lane)|;
    }
  }

  lemma QueuedStays(log: Log, r: Record, j: nat)
    requires j < |log|
    ensures Queued(log + [r], j) <==> Queued(log, j) && !(SameQuote(r.event, log[j].event) && (Enters(r) || r.Popped?))
  {
    var next := log + [r];
    assert next[|log|] == r;
    forall m | j < m < |log| ensures next[m] == log[m] {
    }
    if Queued(next, j) {
      forall m | j < m < |log| && SameQuote(log[m].event, log[j].event) ensures !Enters(log[m]) && !log[m].Popped? {
        assert next[m] == log[m];
      }
    }
  }

  /** The quote that waits for a stock is the newest admitted since the stock was last popped. */
  ghost predicate NewestKnown(log: Log, e: Event)
    requires e.payload.QuoteSnapshot?
  {
    var admitted := AdmittedSincePop(log, KeyOf(e));
    && (forall j :: Queued(log, j) && SameQuote(log[j].event, e) ==> admitted != [] && log[j].event == admitted[|admitted| - 1])
    && (admitted != [] ==> exists j :: Queued(log, j) && SameQuote(log[j].event, e))
  }

  lemma {:induction false} QueuedIsNewest(log: Log, e: Event)
    requires e.payload.QuoteSnapshot?
    ensures NewestKnown(log, e)
  {
    if log != [] {
      var n := |log| - 1;
      assert log == log[..n] + [log[n]];
      QueuedIsNewest(log[..n], e);
      NewestNext(log[..n], log[n], e);
    }
  }

  lemma NewestNext(log: Log, r: Record, e: Event)
    requires e.payload.QuoteSnapshot? && NewestKnown(log, e)
    ensures NewestKnown(log + [r], e)
  {
    var next := log + [r];
    var before, admitted := AdmittedSincePop(log, KeyOf(e)), AdmittedSincePop(next, KeyOf(e));
    AdmittedStep(log, r, KeyOf(e));
    assert SameQuote(r.event, e) <==> LaneOf(r.event).Quote? && KeyOf(r.event) == KeyOf(e);
    forall j | Queued(next, j) && SameQuote(next[j].event, e)
      ensures admitted != [] && next[j].event == admitted[|admitted| - 1]
    {
      if j < |log| {
        QueuedStays(log, r, j);
      }
    }
    if admitted != [] {
      if SameQuote(r.event, e) && Enters(r) {
        assert Queued(next, |log|);
      } else {
        var j :| Queued(log, j) && SameQuote(log[j].event, e);
        QueuedStays(log, r, j);
        assert Queued(next, j);
      }
    }
  }

  lemma StirredNext(log: Log, r: Record, j: int)
    requires -1 <= j < |log|
    ensures StirredAfter(log + [r], j) == StirredAfter(log, j) + if Stirs(r) then {Candidate(r.event)} else {}
  {
    var next := log + [r];
    assert next[|log|] == r;
    forall k ensures k in StirredAfter(next, j) <==> k in StirredAfter(log, j) || (Stirs(r) && k == Candidate(r.event)) {
      if k in StirredAfter(log, j) {
        var m :| j < m < |log| && Stirs(log[m]) && Candidate(log[m].event) == k;
        assert next[m] == log[m];
      }
    }
  }

  /** The keys touched since the last touch of a key are those stirred after its last stir. */
  ghost predicate SinceKnown(log: Log, k: DedupeKey) {
    && (k in Touches(log) <==> exists j :: LastStirred(log, k, j))
    && (forall j :: LastStirred(log, k, j) ==> Since(Touches(log), k) == StirredAfter(log, j))
  }

  lemma {:induction false} SinceIsStirred(log: Log, k: DedupeKey)
    ensures SinceKnown(log, k)
  {
    if log != [] {
      var n := |log| - 1;
      assert log == log[..n] + [log[n]];
      SinceIsStirred(log[..n], k);
      SinceNext(log[..n], log[n], k);
    }
  }

  lemma SinceNext(log: Log, r: Record, k: DedupeKey)
    requires SinceKnown(log, k)
    ensures SinceKnown(log + [r], k)
  {
    var next := log + [r];
    ReadingsStep(log, r, Quote);
    assert Stirs(r) <==> Touching(r);
    forall j | 0 <= j < |log| ensures LastStirred(next, k, j) <==> LastStirred(log, k, j) && !(Stirs(r) && Candidate(r.event) == k) {
      StirredNext(log, r, j);
      assert next[j] == log[j];
    }
    if Stirs(r) {
      TouchesGrow(Touches(log), Candidate(r.event), k);
    }
    if Stirs(r) && Candidate(r.event) == k {
      assert LastStirred(next, k, |log|);
      assert StirredAfter(next, |log|) == {};
    } else {
      forall j | LastStirred(next, k, j) ensures Since(Touches(next), k) == StirredAfter(next, j) {
        StirredNext(log, r, j);
        assert LastStirred(log, k, j);
        assert !Stirs(r) ==> Touches(next) == Touches(log);
      }
    }
  }

  lemma TouchesGrow(touches: seq<DedupeKey>, last: DedupeKey, k: DedupeKey)
    ensures Since(touches + [last], k) == if last == k then {} else Since(touches, k) + {last}
  {
    assert (touches + [last])[..|touches|] == touches;
  }

  lemma HitMeans(l: Limits, w: World, e: Event)
    requires l.Valid() && WindowExplained(l, w)
    ensures CacheHit(w.queues, e) <==> SeenRecently(w.log, l.dedupe, e)
  {
    if e.candidate.Some? {
      RecentMeans(w.log, l.dedupe, Candidate(e));
    }
  }

  lemma RecentMeans(log: Log, capacity: nat, k: DedupeKey)
    requires capacity > 0
    ensures k in Window(Touches(log), capacity) <==> exists j :: RecentAt(log, capacity, k, j)
  {
    WindowMembership(Touches(log), capacity, k);
    SinceIsStirred(log, k);
    if k in Window(Touches(log), capacity) {
      var j :| LastStirred(log, k, j);
      assert RecentAt(log, capacity, k, j);
    }
  }

  // ---- Decisions --------------------------------------------------------------------------------

  lemma FullMeans(l: Limits, w: World, e: Event)
    requires Explained(l, w)
    ensures LaneFull(l, w.log, e) <==> |w.queues.Lane(LaneOf(e))| == l.Capacity(LaneOf(e))
  {
    LaneFill(l, w, LaneOf(e));
    assert On(LaneOf(e), e);
  }

  /** Which quote waits for a stock. */
  lemma HeldMeans(l: Limits, w: World, e: Event)
    requires Explained(l, w) && e.payload.QuoteSnapshot?
    ensures match Held(w.queues.quotes, KeyOf(e))
            case Some(q) => && (Outdated(w.log, e) <==> e.sequence <= q.sequence)
                            && (Supersedes(w.log, e) <==> q.sequence < e.sequence)
            case None => !Outdated(w.log, e) && !Supersedes(w.log, e)
  {
    NewestIsByKey(l, w);
    assert KeyExplained(w, KeyOf(e));
    QueuedIsNewest(w.log, e);
  }

  lemma OnlyQuotesMerge(log: Log, e: Event)
    requires !e.payload.QuoteSnapshot?
    ensures !Outdated(log, e) && !Supersedes(log, e)
  {
  }

  lemma DecisionMeans(l: Limits, w: World, e: Event)
    requires l.Valid() && Explained(l, w)
    ensures Admit(l, w.queues, e).decision == DecisionFor(l, w.log, e)
  {
    HitMeans(l, w, e);
    FullMeans(l, w, e);
    if e.payload.QuoteSnapshot? {
      HeldMeans(l, w, e);
    } else {
      OnlyQuotesMerge(w.log, e);
    }
  }

  // ---- Pops -----------------------------------------------------------------------------------------

  lemma ChoicesNext(log: Log, r: Record, j: int, a: Lane, b: Lane)
    ensures 0 <= j < |log| ==> (Chooses(log + [r], j, a, b) <==> Chooses(log, j, a, b))
    ensures Chooses(log + [r], |log|, a, b) <==> r.Popped? && (On(a, r.event) || On(b, r.event)) && Waits(log, a) && Waits(log, b)
  {
    var next := log + [r];
    LastRecord(log, r);
    if 0 <= j < |log| {
      assert next[..j] == log[..j];
    }
  }

  /** The turn of the queues is what the choices so far make it. */
  ghost predicate TurnKnown(log: Log, turn: Lane, a: Lane, b: Lane) {
    && (turn == a <==> ItsTurn(log, a, a, b))
    && (turn == b <==> ItsTurn(log, a, b, a))
  }

  lemma SameChoices(log: Log, r: Record, a: Lane, b: Lane)
    requires !Chooses(log + [r], |log|, a, b)
    ensures forall j :: LastChoice(log + [r], j, a, b) <==> LastChoice(log, j, a, b)
    ensures forall j :: LastChoice(log, j, a, b) ==> (log + [r])[j] == log[j]
  {
    forall j ensures 0 <= j < |log| ==> (Chooses(log + [r], j, a, b) <==> Chooses(log, j, a, b)) {
      ChoicesNext(log, r, j, a, b);
    }
  }

  lemma ChoiceIsSymmetric(log: Log, a: Lane, b: Lane)
    ensures forall j :: LastChoice(log, j, a, b) <==> LastChoice(log, j, b, a)
  {
    assert forall j :: Chooses(log, j, a, b) <==> Chooses(log, j, b, a);
  }

  lemma TurnStays(log: Log, r: Record, turn: Lane, a: Lane, b: Lane)
    requires TurnKnown(log, turn, a, b) && !Chooses(log + [r], |log|, a, b)
    ensures TurnKnown(log + [r], turn, a, b)
  {
    ChoiceIsSymmetric(log, a, b);
    ChoiceIsSymmetric(log + [r], a, b);
    SameChoices(log, r, a, b);
  }

  lemma TurnFlips(log: Log, r: Record, a: Lane, b: Lane)
    requires a != b && Chooses(log + [r], |log|, a, b)
    ensures TurnKnown(log + [r], if On(a, r.event) then b else a, a, b)
  {
    var next := log + [r];
    assert next[|log|] == r;
    ChoiceIsSymmetric(next, a, b);
    assert LastChoice(next, |log|, a, b);
    assert forall j :: LastChoice(next, j, a, b) ==> j == |log|;
    assert On(a, r.event) <==> !On(b, r.event);
  }

  ghost predicate RotationKnown(l: Limits, w: World) {
    && w.queues.burst == (if Burst(w.log) < l.burst then Burst(w.log) else l.burst)
    && TurnKnown(w.log, w.queues.criticalTurn, Diagnostic, Control)
    && TurnKnown(w.log, w.queues.marketTurn, Quote, Tick)
  }

  lemma BurstNext(log: Log, r: Record)
    ensures Burst(log + [r]) == if TakesMarket(r) then 0 else Burst(log) + if TakesCritical(r) then 1 else 0
  {
    LastRecord(log, r);
  }

  ghost predicate LanesKnown(l: Limits, w: World) {
    w.queues.Valid(l) && forall lane: Lane :: Waits(w.log, lane) <==> w.queues.Lane(lane) != []
  }

  lemma ExplainedLanes(l: Limits, w: World)
    requires Explained(l, w)
    ensures LanesKnown(l, w)
  {
    forall lane: Lane ensures Waits(w.log, lane) <==> w.queues.Lane(lane) != [] {
      LaneFill(l, w, lane);
    }
  }

  /** A pop takes from the lane that the log lets go first. */
  lemma ServedMeans(l: Limits, w: World, lane: Lane)
    requires LanesKnown(l, w) && RotationKnown(l, w) && NextLane(l, w.queues) == Some(lane)
    ensures w.queues.Lane(lane) != [] && On(lane, w.queues.Lane(lane)[0])
    ensures Serves(l, w.log, w.queues.Lane(lane)[0])
  {
    NextLaneWaits(l, w.queues);
    var log, s := w.log, w.queues;
    assert Waits(log, Diagnostic) <==> s.Lane(Diagnostic) != [];
    assert Waits(log, Control) <==> s.Lane(Control) != [];
    assert Waits(log, Quote) <==> s.Lane(Quote) != [];
    assert Waits(log, Tick) <==> s.Lane(Tick) != [];
    assert CriticalFirst(l, log) <==> s.CriticalWaiting() && (!s.MarketWaiting() || s.burst < l.burst);
  }

  lemma PublishRotation(l: Limits, w: World, e: Event)
    requires w.queues.Valid(l) && RotationKnown(l, w)
    ensures RotationKnown(l, Tell(l, w, Offer(e)))
  {
    var r := Published(e, Admit(l, w.queues, e).decision, CacheHit(w.queues, e));
    BurstNext(w.log, r);
    PublishKeepsTurn(w.log, r, w.queues.criticalTurn, Diagnostic, Control);
    PublishKeepsTurn(w.log, r, w.queues.marketTurn, Quote, Tick);
    PublishKeepsRotation(l, w.queues, e);
  }

  lemma PublishKeepsRotation(l: Limits, s: Queues, e: Event)
    requires s.Valid(l)
    ensures var next := Publish(l, s, e);
            next.burst == s.burst && next.criticalTurn == s.criticalTurn && next.marketTurn == s.marketTurn
  {
  }

  lemma PublishKeepsTurn(log: Log, r: Record, turn: Lane, a: Lane, b: Lane)
    requires r.Published? && TurnKnown(log, turn, a, b)
    ensures TurnKnown(log + [r], turn, a, b)
  {
    ChoicesNext(log, r, 0, a, b);
    TurnStays(log, r, turn, a, b);
  }

  lemma TurnAfterPop(log: Log, e: Event, turn: Lane, a: Lane, b: Lane, next: Lane)
    requires a != b && TurnKnown(log, turn, a, b)
    requires next == if (On(a, e) || On(b, e)) && Waits(log, a) && Waits(log, b) then (if On(a, e) then b else a) else turn
    ensures TurnKnown(log + [Popped(e)], next, a, b)
  {
    ChoicesNext(log, Popped(e), 0, a, b);
    if Chooses(log + [Popped(e)], |log|, a, b) {
      TurnFlips(log, Popped(e), a, b);
    } else {
      TurnStays(log, Popped(e), turn, a, b);
    }
  }

  lemma PopRotation(l: Limits, w: World, lane: Lane)
    requires LanesKnown(l, w) && RotationKnown(l, w) && NextLane(l, w.queues) == Some(lane)
    ensures RotationKnown(l, Tell(l, w, Take))
  {
    var log, s := w.log, w.queues;
    ServedMeans(l, w, lane);
    var e := s.Lane(lane)[0];
    BurstNext(log, Popped(e));
    assert Waits(log, Diagnostic) <==> s.Lane(Diagnostic) != [];
    assert Waits(log, Control) <==> s.Lane(Control) != [];
    assert Waits(log, Quote) <==> s.Lane(Quote) != [];
    assert Waits(log, Tick) <==> s.Lane(Tick) != [];
    var next := Pop(l, s).0;
    TurnAfterPop(log, e, s.criticalTurn, Diagnostic, Control, next.criticalTurn);
    TurnAfterPop(log, e, s.marketTurn, Quote, Tick, next.marketTurn);
  }

  // ---- Runs -----------------------------------------------------------------------------------------

  /** The record follows from the log before it. */
  ghost predicate Follows(l: Limits, log: Log, r: Record) {
    match r
    case Published(e, decision, hit) => Decides(l, log, e, decision) && (hit <==> SeenRecently(log, l.dedupe, e))
    case Popped(e) => Serves(l, log, e)
  }

  ghost predicate Told(l: Limits, log: Log) {
    forall i :: 0 <= i < |log| ==> Follows(l, log[..i], log[i])
  }

  lemma ToldNext(l: Limits, log: Log, r: Record)
    requires Told(l, log) && Follows(l, log, r)
    ensures Told(l, log + [r])
  {
    var next := log + [r];
    forall i | 0 <= i < |next| ensures Follows(l, next[..i], next[i]) {
      if i < |log| {
        assert next[..i] == log[..i] && next[i] == log[i];
      } else {
        assert next[..i] == log;
      }
    }
  }

  lemma OfferTold(l: Limits, w: World, e: Event)
    requires l.Valid() && Explained(l, w) && RotationKnown(l, w)
    ensures RotationKnown(l, Tell(l, w, Offer(e)))
    ensures Follows(l, w.log, Published(e, Admit(l, w.queues, e).decision, CacheHit(w.queues, e)))
  {
    DecisionMeans(l, w, e);
    HitMeans(l, w, e);
    PublishRotation(l, w, e);
  }

  lemma TakeTold(l: Limits, w: World)
    requires l.Valid() && Explained(l, w) && RotationKnown(l, w)
    ensures RotationKnown(l, Tell(l, w, Take))
    ensures NextFollows(l, w.log, Pop(l, w.queues).1)
  {
    ExplainedLanes(l, w);
    match NextLane(l, w.queues)
    case Some(lane) =>
      ServedMeans(l, w, lane);
      PopRotation(l, w, lane);
    case None =>
      assert w.log + [] == w.log;
      assert forall lane: Lane :: w.queues.Lane(lane) == [];
  }

  lemma {:induction false} RunsAreTold(l: Limits, w: World, actions: seq<Action>)
    requires l.Valid() && Explained(l, w) && RotationKnown(l, w) && Told(l, w.log)
    ensures var end := Run(l, w, actions);
            Explained(l, end) && RotationKnown(l, end) && Told(l, end.log)
    decreases |actions|
  {
    if actions != [] {
      var next := Tell(l, w, actions[0]);
      StepExplained(l, w, actions[0]);
      match actions[0] {
        case Offer(e) =>
          OfferTold(l, w, e);
          ToldNext(l, w.log, Published(e, Admit(l, w.queues, e).decision, CacheHit(w.queues, e)));
        case Take =>
          TakeTold(l, w);
          var popped := Pop(l, w.queues).1;
          if popped.Some? {
            ToldNext(l, w.log, Popped(popped.value));
          } else {
            assert next.log == w.log;
          }
      }
      RunsAreTold(l, next, actions[1..]);
    }
  }

  lemma StartIsTold(l: Limits)
    requires l.Valid()
    ensures Explained(l, Start()) && RotationKnown(l, Start()) && Told(l, Start().log)
  {
    StartIsExplained(l);
  }

  /**
   * In every run, whatever the interleaving: each publish was decided, and each
   * pop served, as the log before it demands.
   */
  lemma EveryRecordFollows(l: Limits, actions: seq<Action>, i: nat)
    requires l.Valid() && i < |Run(l, Start(), actions).log|
    ensures Follows(l, Run(l, Start(), actions).log[..i], Run(l, Start(), actions).log[i])
  {
    StartIsTold(l);
    RunsAreTold(l, Start(), actions);
  }

  /** What the next publish will be answered after a run. */
  lemma NextDecision(l: Limits, actions: seq<Action>, e: Event)
    requires l.Valid()
    ensures var w := Run(l, Start(), actions);
            && Admit(l, w.queues, e).decision == DecisionFor(l, w.log, e)
            && (CacheHit(w.queues, e) <==> SeenRecently(w.log, l.dedupe, e))
  {
    StartIsTold(l);
    RunsAreTold(l, Start(), actions);
    OfferTold(l, Run(l, Start(), actions), e);
  }

  /** What the next pop will take after a run: nothing exactly when nothing waits. */
  lemma NextServed(l: Limits, actions: seq<Action>)
    requires l.Valid()
    ensures var w := Run(l, Start(), actions);
            NextFollows(l, w.log, Pop(l, w.queues).1)
  {
    StartIsTold(l);
    RunsAreTold(l, Start(), actions);
    TakeTold(l, Run(l, Start(), actions));
  }
}
