/**
 * Bounded waiting: however publishers interleave, a queued event leaves its
 * lane within a number of pops fixed by its position.
 */
module IngressWaiting {
  import opened Wrappers
  import opened IngressQueues
  import opened IngressHistory

  function Takes(actions: seq<Action>): nat {
    if actions == [] then 0 else (if actions[0].Take? then 1 else 0) + Takes(actions[1..])
  }

  /** Services of the lane's pair that go by until position k is served. */
  function Rounds(s: Queues, lane: Lane, k: nat): nat {
    2 * k + if (if Critical(lane) then s.criticalTurn else s.marketTurn) == lane then 1 else 2
  }

  /** An upper bound on the pops until position k of a lane is served. */
  function Wait(l: Limits, s: Queues, lane: Lane, k: nat): int {
    if Critical(lane) then 2 * (Rounds(s, lane, k) - 1) + if s.burst == l.burst then 2 else 1
    else (Rounds(s, lane, k) - 1) * (l.burst + 1) + (l.burst - s.burst) + 1
  }

  /** The bound that depends on the position only. */
  function Bound(l: Limits, lane: Lane, k: nat): nat {
    if Critical(lane) then 4 * (k + 1) else 2 * (l.burst + 1) * (k + 1)
  }

  lemma WaitIsBounded(l: Limits, s: Queues, lane: Lane, k: nat)
    requires s.Valid(l)
    ensures 1 <= Wait(l, s, lane, k) <= Bound(l, lane, k)
  {
    if !Critical(lane) {
      var r := Rounds(s, lane, k);
      RoundsBound(r - 1, 2 * k + 1, l.burst + 1);
      EvenRounds(k, l.burst + 1);
    }
  }

  lemma EvenRounds(k: nat, c: nat)
    ensures (2 * k + 1) * c + c == 2 * c * (k + 1)
  {
  }

  lemma RoundsBound(a: nat, b: nat, c: nat)
    requires a <= b
    ensures a * c <= b * c
  {
  }

  // ---- One pop ---------------------------------------------------------------------------

  /** Where position k of a lane is once a lane has been served. */
  function Moved(served: Lane, lane: Lane, k: nat): int {
    if served == lane then k - 1 else k
  }

  /** Serving a lane of the pair uses up a round of its partner. */
  lemma RoundUsed(l: Limits, s: Queues, lane: Lane, k: nat)
    requires s.Valid(l) && k < |s.Lane(lane)| && NextLane(l, s).Some?
    requires Critical(NextLane(l, s).value) == Critical(lane)
    ensures var served := NextLane(l, s).value;
            Moved(served, lane, k) >= 0 ==> Rounds(Pop(l, s).0, lane, Moved(served, lane, k)) <= Rounds(s, lane, k) - 1
  {
    NextLaneWaits(l, s);
  }

  lemma CriticalWaitShrinks(l: Limits, s: Queues, lane: Lane, k: nat)
    requires l.Valid() && s.Valid(l) && k < |s.Lane(lane)| && Critical(lane)
    ensures NextLane(l, s).Some?
    ensures var k' := Moved(NextLane(l, s).value, lane, k);
            k' >= 0 ==> Wait(l, Pop(l, s).0, lane, k') < Wait(l, s, lane, k)
  {
    NextLaneWaits(l, s);
    if Critical(NextLane(l, s).value) {
      RoundUsed(l, s, lane, k);
    }
  }

  lemma MarketWaitShrinks(l: Limits, s: Queues, lane: Lane, k: nat)
    requires l.Valid() && s.Valid(l) && k < |s.Lane(lane)| && !Critical(lane)
    ensures NextLane(l, s).Some?
    ensures var k' := Moved(NextLane(l, s).value, lane, k);
            k' >= 0 ==> Wait(l, Pop(l, s).0, lane, k') < Wait(l, s, lane, k)
  {
    NextLaneWaits(l, s);
    var served := NextLane(l, s).value;
    if Critical(served) {
      assert s.burst < l.burst;
    } else if Moved(served, lane, k) >= 0 {
      RoundUsed(l, s, lane, k);
      var r, r' := Rounds(s, lane, k), Rounds(Pop(l, s).0, lane, Moved(served, lane, k));
      RoundsBound(r' - 1, r - 2, l.burst + 1);
      assert (r - 2) * (l.burst + 1) + l.burst + 1 == (r - 1) * (l.burst + 1);
    }
  }

  lemma WaitShrinks(l: Limits, s: Queues, lane: Lane, k: nat)
    requires l.Valid() && s.Valid(l) && k < |s.Lane(lane)|
    ensures NextLane(l, s).Some?
    ensures var k' := Moved(NextLane(l, s).value, lane, k);
            k' >= 0 ==> Wait(l, Pop(l, s).0, lane, k') < Wait(l, s, lane, k)
  {
    if Critical(lane) {
      CriticalWaitShrinks(l, s, lane, k);
    } else {
      MarketWaitShrinks(l, s, lane, k);
    }
  }

  // ---- Places in line ----------------------------------------------------------------------

  /** The event at a place of a line stays, or in the quote lane is replaced by its successor. */
  predicate Continues(lane: Lane, before: Event, after: Event) {
    if lane.Quote? then Renews(before, after) else before == after
  }

  ghost predicate LineContinues(lane: Lane, before: seq<Event>, after: seq<Event>) {
    |before| <= |after| && forall i :: 0 <= i < |before| ==> Continues(lane, before[i], after[i])
  }

  /** Publishing changes no place of any lane except by renewing it. */
  lemma PublishContinues(l: Limits, s: Queues, e: Event, lane: Lane)
    requires s.Valid(l)
    ensures LineContinues(lane, s.Lane(lane), Publish(l, s, e).Lane(lane))
    ensures Publish(l, s, e).burst == s.burst
    ensures Publish(l, s, e).marketTurn == s.marketTurn && Publish(l, s, e).criticalTurn == s.criticalTurn
  {
    if lane.Quote? {
      QuotePublish(l, s, e);
    } else {
      FifoPublish(l, s, e, lane);
    }
  }

  lemma {:induction false} PoppedStays(l: Limits, w: World, actions: seq<Action>, lane: Lane)
    requires w.queues.Valid(l)
    ensures PoppedFrom(w.log, lane) <= PoppedFrom(Run(l, w, actions).log, lane)
    decreases |actions|
  {
    if actions != [] {
      PoppedStep(l, w, actions[0], lane);
      PoppedStays(l, Tell(l, w, actions[0]), actions[1..], lane);
    }
  }

  lemma PoppedStep(l: Limits, w: World, a: Action, lane: Lane)
    requires w.queues.Valid(l)
    ensures PoppedFrom(w.log, lane) <= PoppedFrom(Tell(l, w, a).log, lane)
    ensures a.Offer? ==> PoppedFrom(Tell(l, w, a).log, lane) == PoppedFrom(w.log, lane)
    ensures a.Take? && NextLane(l, w.queues).Some? ==>
              PoppedFrom(Tell(l, w, a).log, lane)
              == PoppedFrom(w.log, lane) + if NextLane(l, w.queues).value == lane then [w.queues.Lane(lane)[0]] else []
  {
    match a
    case Offer(e) =>
      ReadingsStep(w.log, Published(e, Admit(l, w.queues, e).decision, CacheHit(w.queues, e)), lane);
    case Take =>
      if NextLane(l, w.queues).Some? {
        NextLaneWaits(l, w.queues);
        ReadingsStep(w.log, Popped(w.queues.Lane(NextLane(l, w.queues).value)[0]), lane);
      } else {
        assert w.log + [] == w.log;
      }
  }

  lemma ContinuesItself(l: Limits, s: Queues, lane: Lane, k: nat)
    requires s.Valid(l) && k < |s.Lane(lane)|
    ensures Continues(lane, s.Lane(lane)[k], s.Lane(lane)[k])
  {
    assert s.Lane(lane)[k] in s.Lane(lane);
  }

  // ---- The theorem ---------------------------------------------------------------------------

  /** The event that stood at a place of the line has been popped from there. */
  ghost predicate Reached(log: Log, lane: Lane, place: nat, e: Event) {
    place < |PoppedFrom(log, lane)| && Continues(lane, e, PoppedFrom(log, lane)[place])
  }

  function PlaceInLine(w: World, lane: Lane, k: nat): nat {
    |PoppedFrom(w.log, lane)| + k
  }

  lemma {:induction false} PoppedWithinWait(l: Limits, w: World, actions: seq<Action>, lane: Lane, k: nat)
    requires l.Valid() && w.queues.Valid(l) && k < |w.queues.Lane(lane)|
    requires Takes(actions) >= Wait(l, w.queues, lane, k)
    ensures Reached(Run(l, w, actions).log, lane, PlaceInLine(w, lane, k), w.queues.Lane(lane)[k])
    decreases |actions|, 1
  {
    WaitIsBounded(l, w.queues, lane, k);
    if actions[0].Offer? {
      PoppedAfterOffer(l, w, actions, lane, k);
    } else {
      PoppedAfterTake(l, w, actions, lane, k);
    }
  }

  lemma PoppedAfterOffer(l: Limits, w: World, actions: seq<Action>, lane: Lane, k: nat)
    requires l.Valid() && w.queues.Valid(l) && k < |w.queues.Lane(lane)| && actions != [] && actions[0].Offer?
    requires Takes(actions) >= Wait(l, w.queues, lane, k)
    ensures Reached(Run(l, w, actions).log, lane, PlaceInLine(w, lane, k), w.queues.Lane(lane)[k])
    decreases |actions|, 0
  {
    var next := Tell(l, w, actions[0]);
    OfferKeepsPlace(l, w, actions[0].event, lane, k);
    PoppedWithinWait(l, next, actions[1..], lane, k);
    ReachedBySuccessor(Run(l, w, actions).log, lane, PlaceInLine(w, lane, k), w.queues.Lane(lane)[k], next.queues.Lane(lane)[k]);
  }

  lemma PoppedAfterTake(l: Limits, w: World, actions: seq<Action>, lane: Lane, k: nat)
    requires l.Valid() && w.queues.Valid(l) && k < |w.queues.Lane(lane)| && actions != [] && actions[0].Take?
    requires Takes(actions) >= Wait(l, w.queues, lane, k)
    ensures Reached(Run(l, w, actions).log, lane, PlaceInLine(w, lane, k), w.queues.Lane(lane)[k])
    decreases |actions|, 0
  {
    var next := Tell(l, w, Take);
    WaitShrinks(l, w.queues, lane, k);
    var k' := Moved(NextLane(l, w.queues).value, lane, k);
    if k' < 0 {
      PoppedNow(l, w, lane);
      PoppedStays(l, next, actions[1..], lane);
    } else {
      TakeKeepsPlace(l, w, lane, k);
      WaitAfterTake(l, w, lane, k');
      PoppedWithinWait(l, next, actions[1..], lane, k');
    }
  }

  lemma WaitAfterTake(l: Limits, w: World, lane: Lane, k: nat)
    requires w.queues.Valid(l)
    ensures Tell(l, w, Take).queues == Pop(l, w.queues).0
  {
  }

  lemma ReachedBySuccessor(log: Log, lane: Lane, place: nat, e: Event, successor: Event)
    requires Continues(lane, e, successor) && Reached(log, lane, place, successor)
    ensures Reached(log, lane, place, e)
  {
  }

  lemma OfferKeepsPlace(l: Limits, w: World, e: Event, lane: Lane, k: nat)
    requires w.queues.Valid(l) && k < |w.queues.Lane(lane)|
    ensures var next := Tell(l, w, Offer(e));
            && k < |next.queues.Lane(lane)| && PlaceInLine(next, lane, k) == PlaceInLine(w, lane, k)
            && Continues(lane, w.queues.Lane(lane)[k], next.queues.Lane(lane)[k])
            && Wait(l, next.queues, lane, k) == Wait(l, w.queues, lane, k)
  {
    PublishContinues(l, w.queues, e, lane);
    SameTurnsSameWait(l, w.queues, Publish(l, w.queues, e), lane, k);
    PoppedStep(l, w, Offer(e), lane);
  }

  lemma SameTurnsSameWait(l: Limits, s: Queues, t: Queues, lane: Lane, k: nat)
    requires s.burst == t.burst && s.marketTurn == t.marketTurn && s.criticalTurn == t.criticalTurn
    ensures Wait(l, s, lane, k) == Wait(l, t, lane, k)
  {
  }

  lemma TakeKeepsPlace(l: Limits, w: World, lane: Lane, k: nat)
    requires w.queues.Valid(l) && k < |w.queues.Lane(lane)| && NextLane(l, w.queues).Some?
    requires Moved(NextLane(l, w.queues).value, lane, k) >= 0
    ensures var next, k' := Tell(l, w, Take), Moved(NextLane(l, w.queues).value, lane, k);
            && k' < |next.queues.Lane(lane)| && PlaceInLine(next, lane, k') == PlaceInLine(w, lane, k)
            && w.queues.Lane(lane)[k] == next.queues.Lane(lane)[k']
  {
    PoppedLane(l, w.queues, NextLane(l, w.queues).value, lane);
    PoppedStep(l, w, Take, lane);
  }

  lemma PoppedNow(l: Limits, w: World, lane: Lane)
    requires w.queues.Valid(l) && NextLane(l, w.queues) == Some(lane)
    ensures w.queues.Lane(lane) != []
    ensures Reached(Tell(l, w, Take).log, lane, PlaceInLine(w, lane, 0), w.queues.Lane(lane)[0])
  {
    NextLaneWaits(l, w.queues);
    PoppedStep(l, w, Take, lane);
    ContinuesItself(l, w.queues, lane, 0);
  }

  /**
   * The event at position k of the tick or quote lane is popped within
   * 2 (burst limit + 1) (k + 1) pops, and one at position k of the control or
   * diagnostic lane within 4 (k + 1); a quote may be popped as its successor.
   */
  lemma BoundedWaiting(l: Limits, w: World, actions: seq<Action>, lane: Lane, k: nat)
    requires l.Valid() && w.queues.Valid(l) && k < |w.queues.Lane(lane)|
    requires Takes(actions) >= if lane.Tick? || lane.Quote? then 2 * (l.burst + 1) * (k + 1) else 4 * (k + 1)
    ensures Reached(Run(l, w, actions).log, lane, PlaceInLine(w, lane, k), w.queues.Lane(lane)[k])
  {
    WaitIsBounded(l, w.queues, lane, k);
    PoppedWithinWait(l, w, actions, lane, k);
  }
}
