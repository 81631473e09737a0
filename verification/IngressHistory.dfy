/**
 * Whole runs of the ingress queues: publishers and the popper in any
 * interleaving, with a log of what happened, and what the queues hold in terms
 * of that log alone.
 */
module IngressHistory {
  import opened Wrappers
  import opened RecencyWindow
  import opened IngressQueues

  datatype Record =
    | Published(event: Event, decision: Decision, hit: bool)
    | Popped(event: Event)

  type Log = seq<Record>

  datatype World = World(queues: Queues, log: Log)

  datatype Action = Offer(event: Event) | Take

  function Tell(l: Limits, w: World, a: Action): (next: World)
    requires w.queues.Valid(l)
    ensures next.queues.Valid(l)
  {
    match a
    case Offer(e) =>
      PublishKeepsValid(l, w.queues, e);
      World(Publish(l, w.queues, e), w.log + [Published(e, Admit(l, w.queues, e).decision, CacheHit(w.queues, e))])
    case Take =>
      PopKeepsValid(l, w.queues);
      var (queues, event) := Pop(l, w.queues);
      World(queues, w.log + match event case Some(e) => [Popped(e)] case None => [])
  }

  function Run(l: Limits, w: World, actions: seq<Action>): (end: World)
    requires w.queues.Valid(l)
    ensures end.queues.Valid(l)
    decreases |actions|
  {
    if actions == [] then w else Run(l, Tell(l, w, actions[0]), actions[1..])
  }

  function Start(): World {
    World(Idle(), [])
  }

  // ---- Readings of a log -----------------------------------------------------------------

  function PoppedFrom(log: Log, lane: Lane): seq<Event> {
    if log == [] then []
    else
      var n := |log| - 1;
      PoppedFrom(log[..n], lane) + if log[n].Popped? && LaneOf(log[n].event) == lane then [log[n].event] else []
  }

  function AcceptedInto(log: Log, lane: Lane): seq<Event> {
    if log == [] then []
    else
      var n := |log| - 1;
      AcceptedInto(log[..n], lane)
      + if log[n].Published? && log[n].decision.Accepted? && LaneOf(log[n].event) == lane then [log[n].event] else []
  }

  /** The quotes admitted under a key since that key last left its queue. */
  function AdmittedSincePop(log: Log, key: QuoteKey): seq<Event> {
    if log == [] then []
    else
      var n := |log| - 1;
      var earlier := AdmittedSincePop(log[..n], key);
      if !LaneOf(log[n].event).Quote? || KeyOf(log[n].event) != key then earlier
      else if log[n].Popped? then []
      else if Admitted(log[n].decision) then earlier + [log[n].event]
      else earlier
  }

  predicate Touching(r: Record) {
    r.Published? && (r.hit || Admitted(r.decision)) && DedupeKeyOf(r.event).Some?
  }

  /** The dedupe keys touched, in order. */
  function Touches(log: Log): seq<DedupeKey> {
    if log == [] then []
    else
      var n := |log| - 1;
      Touches(log[..n]) + if Touching(log[n]) then [DedupeKeyOf(log[n].event).value] else []
  }

  function Count(log: Log, lane: Lane, decision: Decision): nat {
    if log == [] then 0
    else
      var n := |log| - 1;
      Count(log[..n], lane, decision)
      + if log[n].Published? && log[n].decision == decision && LaneOf(log[n].event) == lane then 1 else 0
  }

  function Received(log: Log, lane: Lane): nat {
    if log == [] then 0
    else
      var n := |log| - 1;
      Received(log[..n], lane) + if log[n].Published? && LaneOf(log[n].event) == lane then 1 else 0
  }

  // ---- What the log explains -------------------------------------------------------------

  /** Everything a lane has ever let through, then what it still holds. */
  function Line(w: World, lane: Lane): seq<Event> {
    PoppedFrom(w.log, lane) + w.queues.Lane(lane)
  }

  /** A first-in first-out lane passes on exactly what it accepted, in that order. */
  predicate FifoExplained(w: World, lane: Lane) {
    Line(w, lane) == AcceptedInto(w.log, lane)
  }

  /** The quote lane passes keys on in the order of their acceptance, each with an event no older than the accepted one. */
  ghost predicate QuotesExplained(w: World) {
    && |Line(w, Quote)| == |AcceptedInto(w.log, Quote)|
    && forall i :: 0 <= i < |Line(w, Quote)| ==> Renews(AcceptedInto(w.log, Quote)[i], Line(w, Quote)[i])
  }

  predicate Renews(earlier: Event, later: Event) {
    && LaneOf(earlier).Quote? && LaneOf(later).Quote?
    && KeyOf(earlier) == KeyOf(later) && earlier.sequence <= later.sequence
  }

  /** A queued quote is the highest-sequence event admitted for its key since the key last left the queue. */
  ghost predicate NewestExplained(w: World)
    requires forall q :: q in w.queues.quotes ==> LaneOf(q).Quote?
  {
    && (forall q :: q in w.queues.quotes ==> Newest(q, AdmittedSincePop(w.log, KeyOf(q))))
    && (forall key :: (forall q :: q in w.queues.quotes ==> KeyOf(q) != key) ==> AdmittedSincePop(w.log, key) == [])
  }

  predicate Newest(q: Event, admitted: seq<Event>) {
    admitted != [] && admitted[|admitted| - 1] == q && forall i :: 0 <= i < |admitted| - 1 ==> admitted[i].sequence < q.sequence
  }

  ghost predicate WindowExplained(l: Limits, w: World) {
    w.queues.recent == Window(Touches(w.log), l.dedupe)
  }

  /** Whoever was admitted was outside the dedupe window then, and only keys inside it were cache hits. */
  ghost predicate LogHonest(l: Limits, log: Log) {
    forall i :: 0 <= i < |log| && log[i].Published? && DedupeKeyOf(log[i].event).Some? ==>
      (log[i].hit <==> DedupeKeyOf(log[i].event).value in Window(Touches(log[..i]), l.dedupe))
      && (log[i].hit ==> log[i].decision.Duplicate?)
  }

  ghost predicate Explained(l: Limits, w: World) {
    && w.queues.Valid(l)
    && FifoExplained(w, Diagnostic) && FifoExplained(w, Control) && FifoExplained(w, Tick)
    && QuotesExplained(w)
    && NewestExplained(w)
    && WindowExplained(l, w)
    && LogHonest(l, w.log)
  }

  // ---- Every step keeps the log an explanation -----------------------------------------

  lemma LastRecord(log: Log, r: Record)
    ensures (log + [r])[..|log|] == log && (log + [r])[|log|] == r
  {
  }

  /** How a step reads off the log; each reading grows by at most the new record. */
  lemma ReadingsStep(log: Log, r: Record, lane: Lane)
    ensures PoppedFrom(log + [r], lane) == PoppedFrom(log, lane) + if r.Popped? && LaneOf(r.event) == lane then [r.event] else []
    ensures AcceptedInto(log + [r], lane)
            == AcceptedInto(log, lane) + if r.Published? && r.decision.Accepted? && LaneOf(r.event) == lane then [r.event] else []
    ensures Touches(log + [r]) == Touches(log) + if Touching(r) then [DedupeKeyOf(r.event).value] else []
  {
    LastRecord(log, r);
  }

  lemma FifoStep(l: Limits, w: World, a: Action, lane: Lane)
    requires w.queues.Valid(l) && !lane.Quote? && FifoExplained(w, lane)
    ensures FifoExplained(Tell(l, w, a), lane)
  {
    match a
    case Offer(e) => OfferStep(l, w, e, lane);
    case Take => TakeStep(l, w, lane);
  }

  lemma OfferStep(l: Limits, w: World, e: Event, lane: Lane)
    requires w.queues.Valid(l) && !lane.Quote?
    ensures var more := if Admit(l, w.queues, e).decision.Accepted? && LaneOf(e) == lane then [e] else [];
            && Line(Tell(l, w, Offer(e)), lane) == Line(w, lane) + more
            && AcceptedInto(Tell(l, w, Offer(e)).log, lane) == AcceptedInto(w.log, lane) + more
  {
    var r := Published(e, Admit(l, w.queues, e).decision, CacheHit(w.queues, e));
    ReadingsStep(w.log, r, lane);
    FifoPublish(l, w.queues, e, lane);
    var more := if r.decision.Accepted? && LaneOf(e) == lane then [e] else [];
    Reassociate(PoppedFrom(w.log, lane), w.queues.Lane(lane), more);
  }

  lemma Reassociate<T>(a: seq<T>, b: seq<T>, c: seq<T>)
    ensures (a + []) + (b + c) == (a + b) + c
  {
  }

  lemma FifoPublish(l: Limits, s: Queues, e: Event, lane: Lane)
    requires s.Valid(l) && !lane.Quote?
    ensures Publish(l, s, e).Lane(lane)
            == s.Lane(lane) + if Admit(l, s, e).decision.Accepted? && LaneOf(e) == lane then [e] else []
  {
  }

  /** A pop moves the head of one lane to the end of what was popped from it. */
  lemma TakeStep(l: Limits, w: World, lane: Lane)
    requires w.queues.Valid(l)
    ensures Line(Tell(l, w, Take), lane) == Line(w, lane)
    ensures AcceptedInto(Tell(l, w, Take).log, lane) == AcceptedInto(w.log, lane)
    ensures Touches(Tell(l, w, Take).log) == Touches(w.log)
  {
    match NextLane(l, w.queues)
    case None =>
      assert w.log + [] == w.log;
    case Some(served) =>
      NextLaneWaits(l, w.queues);
      ReadingsStep(w.log, Popped(w.queues.Lane(served)[0]), lane);
      PoppedLane(l, w.queues, served, lane);
      MoveHead(PoppedFrom(w.log, lane), w.queues.Lane(lane));
  }

  lemma PoppedLane(l: Limits, s: Queues, served: Lane, lane: Lane)
    requires s.Valid(l) && NextLane(l, s) == Some(served)
    ensures s.Lane(served) != []
    ensures Pop(l, s).0.Lane(lane) == if lane == served then s.Lane(lane)[1..] else s.Lane(lane)
    ensures Pop(l, s).1 == Some(s.Lane(served)[0])
    ensures Pop(l, s).0.recent == s.recent
  {
    NextLaneWaits(l, s);
  }

  lemma MoveHead<T>(popped: seq<T>, queue: seq<T>)
    ensures queue != [] ==> (popped + [queue[0]]) + queue[1..] == popped + queue
  {
  }

  // ---- The quote lane ------------------------------------------------------------------

  lemma QuotesStep(l: Limits, w: World, a: Action)
    requires w.queues.Valid(l) && QuotesExplained(w)
    ensures QuotesExplained(Tell(l, w, a))
  {
    match a
    case Offer(e) =>
      var r := Published(e, Admit(l, w.queues, e).decision, CacheHit(w.queues, e));
      ReadingsStep(w.log, r, Quote);
      QuotePublish(l, w.queues, e);
      var line := Line(Tell(l, w, a), Quote);
      RenewedLine(PoppedFrom(w.log, Quote), w.queues.quotes, Publish(l, w.queues, e).quotes,
                  AcceptedInto(w.log, Quote), AcceptedInto(w.log + [r], Quote));
    case Take =>
      TakeStep(l, w, Quote);
  }

  /** After a publish the quote lane holds renewed events at the old places and perhaps one more at the end. */
  predicate Grown(before: seq<Event>, after: seq<Event>, more: seq<Event>) {
    && |after| == |before| + |more| && after[|before|..] == more
    && forall i :: 0 <= i < |before| ==> Renews(before[i], after[i])
  }

  lemma QuotePublish(l: Limits, s: Queues, e: Event)
    requires s.Valid(l)
    ensures Grown(s.quotes, Publish(l, s, e).quotes,
                  if Admit(l, s, e).decision.Accepted? && LaneOf(e).Quote? then [e] else [])
  {
    forall i | 0 <= i < |s.quotes| ensures Renews(s.quotes[i], s.quotes[i]) {
      assert s.quotes[i] in s.quotes;
    }
  }

  lemma RenewedLine(popped: seq<Event>, before: seq<Event>, after: seq<Event>, accepted: seq<Event>, accepted': seq<Event>)
    requires |popped + before| == |accepted| && accepted <= accepted'
    requires forall i :: 0 <= i < |accepted| ==> Renews(accepted[i], (popped + before)[i])
    requires Grown(before, after, accepted'[|accepted|..])
    requires forall e :: e in accepted'[|accepted|..] ==> LaneOf(e).Quote?
    ensures |popped + after| == |accepted'|
    ensures forall i :: 0 <= i < |accepted'| ==> Renews(accepted'[i], (popped + after)[i])
  {
    forall i | 0 <= i < |accepted'| ensures Renews(accepted'[i], (popped + after)[i]) {
      if i < |popped| {
        assert (popped + before)[i] == popped[i] && (popped + after)[i] == popped[i];
      } else if i < |accepted| {
        assert (popped + before)[i] == before[i - |popped|] && (popped + after)[i] == after[i - |popped|];
      } else {
        assert after[i - |popped|] == accepted'[|accepted|..][i - |accepted|];
        assert accepted'[|accepted|..][i - |accepted|] in accepted'[|accepted|..];
      }
    }
  }

  // ---- Newest quotes ---------------------------------------------------------------------

  lemma AdmittedStep(log: Log, r: Record, key: QuoteKey)
    ensures AdmittedSincePop(log + [r], key)
            == if !LaneOf(r.event).Quote? || KeyOf(r.event) != key then AdmittedSincePop(log, key)
               else if r.Popped? then []
               else if Admitted(r.decision) then AdmittedSincePop(log, key) + [r.event]
               else AdmittedSincePop(log, key)
  {
    LastRecord(log, r);
  }

  /** The queued event of a key, if any. */
  ghost predicate HeldIs(quotes: seq<Event>, key: QuoteKey, held: Option<Event>)
    requires forall q :: q in quotes ==> LaneOf(q).Quote?
  {
    match held
    case Some(q) => q in quotes && KeyOf(q) == key
    case None => forall q :: q in quotes ==> KeyOf(q) != key
  }

  function Held(quotes: seq<Event>, key: QuoteKey): (held: Option<Event>)
    requires forall q :: q in quotes ==> LaneOf(q).Quote?
    ensures HeldIs(quotes, key, held)
  {
    var p := Place(quotes, key);
    if p < |quotes| then Some(quotes[p]) else None
  }

  lemma HeldIsUnique(quotes: seq<Event>, q: Event)
    requires forall x :: x in quotes ==> LaneOf(x).Quote?
    requires forall i, j :: 0 <= i < j < |quotes| ==> KeyOf(quotes[i]) != KeyOf(quotes[j])
    requires q in quotes
    ensures Held(quotes, KeyOf(q)) == Some(q)
  {
    var p := Place(quotes, KeyOf(q));
    var i :| 0 <= i < |quotes| && quotes[i] == q;
  }

  /** The same account, key by key. */
  ghost predicate KeyExplained(w: World, key: QuoteKey)
    requires forall q :: q in w.queues.quotes ==> LaneOf(q).Quote?
  {
    match Held(w.queues.quotes, key)
    case Some(q) => Newest(q, AdmittedSincePop(w.log, key))
    case None => AdmittedSincePop(w.log, key) == []
  }

  lemma NewestIsByKey(l: Limits, w: World)
    requires w.queues.Valid(l)
    ensures NewestExplained(w) <==> forall key :: KeyExplained(w, key)
  {
    forall q | q in w.queues.quotes ensures Held(w.queues.quotes, KeyOf(q)) == Some(q) {
      HeldIsUnique(w.queues.quotes, q);
    }
    if forall key :: KeyExplained(w, key) {
      forall q | q in w.queues.quotes ensures Newest(q, AdmittedSincePop(w.log, KeyOf(q))) {
        assert KeyExplained(w, KeyOf(q));
      }
      forall key | forall q :: q in w.queues.quotes ==> KeyOf(q) != key ensures AdmittedSincePop(w.log, key) == [] {
        assert KeyExplained(w, key);
      }
    }
  }

  lemma KeyStep(l: Limits, w: World, a: Action, key: QuoteKey)
    requires w.queues.Valid(l) && KeyExplained(w, key)
    ensures KeyExplained(Tell(l, w, a), key)
  {
    match a
    case Offer(e) =>
      AdmittedStep(w.log, Published(e, Admit(l, w.queues, e).decision, CacheHit(w.queues, e)), key);
      PublishHeld(l, w.queues, e, key);
    case Take =>
      if NextLane(l, w.queues).Some? {
        var lane := NextLane(l, w.queues).value;
        NextLaneWaits(l, w.queues);
        AdmittedStep(w.log, Popped(w.queues.Lane(lane)[0]), key);
        TakeHeld(l, w.queues, key);
      } else {
        assert w.log + [] == w.log;
      }
  }

  lemma AdmittedIsQueued(quotes: seq<Event>, capacity: nat, e: Event)
    requires LaneOf(e).Quote? && forall q :: q in quotes ==> LaneOf(q).Quote?
    requires Admitted(AdmitQuote(quotes, capacity, e).decision)
    ensures e in AdmitQuote(quotes, capacity, e).queue
  {
    assert AdmitQuote(quotes, capacity, e).queue[Place(quotes, KeyOf(e))] == e;
  }

  lemma PublishHeld(l: Limits, s: Queues, e: Event, key: QuoteKey)
    requires s.Valid(l)
    ensures Publish(l, s, e).Valid(l)
    ensures Held(Publish(l, s, e).quotes, key)
            == if LaneOf(e).Quote? && KeyOf(e) == key && Admitted(Admit(l, s, e).decision) then Some(e) else Held(s.quotes, key)
    ensures LaneOf(e).Quote? && KeyOf(e) == key && Admitted(Admit(l, s, e).decision) && Held(s.quotes, key).Some?
            ==> Held(s.quotes, key).value.sequence < e.sequence
  {
    PublishKeepsValid(l, s, e);
    if LaneOf(e).Quote? && !CacheHit(s, e) {
      AdmitHeld(s.quotes, l.quote, e, key);
    }
  }

  lemma AdmitHeld(quotes: seq<Event>, capacity: nat, e: Event, key: QuoteKey)
    requires LaneOf(e).Quote? && |quotes| <= capacity && forall q :: q in quotes ==> LaneOf(q).Quote?
    requires forall i, j :: 0 <= i < j < |quotes| ==> KeyOf(quotes[i]) != KeyOf(quotes[j])
    ensures var admission := AdmitQuote(quotes, capacity, e);
            && (forall q :: q in admission.queue ==> LaneOf(q).Quote?)
            && (Held(admission.queue, key) == if KeyOf(e) == key && Admitted(admission.decision) then Some(e) else Held(quotes, key))
            && (KeyOf(e) == key && Admitted(admission.decision) && Held(quotes, key).Some?
                ==> Held(quotes, key).value.sequence < e.sequence)
  {
    var admission := AdmitQuote(quotes, capacity, e);
    AdmitQuoteKeepsDistinct(quotes, capacity, e);
    if Admitted(admission.decision) {
      AdmittedIsQueued(quotes, capacity, e);
      HeldIsUnique(admission.queue, e);
      if KeyOf(e) != key {
        OthersStay(quotes, capacity, e, key);
      }
    }
  }

  lemma OthersStay(quotes: seq<Event>, capacity: nat, e: Event, key: QuoteKey)
    requires LaneOf(e).Quote? && KeyOf(e) != key && forall q :: q in quotes ==> LaneOf(q).Quote?
    requires forall q :: q in AdmitQuote(quotes, capacity, e).queue ==> LaneOf(q).Quote?
    ensures Held(AdmitQuote(quotes, capacity, e).queue, key) == Held(quotes, key)
  {
    var queue := AdmitQuote(quotes, capacity, e).queue;
    var p, p' := Place(quotes, key), Place(queue, key);
    assert |quotes| <= |queue| && forall i :: 0 <= i < |quotes| ==> queue[i] == quotes[i] || queue[i] == e;
    if p < |quotes| {
      assert queue[p] == quotes[p];
    }
    if p' < |queue| {
      assert queue[p'] != e;
    }
  }

  lemma TakeHeld(l: Limits, s: Queues, key: QuoteKey)
    requires s.Valid(l) && NextLane(l, s).Some?
    ensures Pop(l, s).0.Valid(l) && Pop(l, s).1.Some?
    ensures Held(Pop(l, s).0.quotes, key)
            == if LaneOf(Pop(l, s).1.value).Quote? && KeyOf(Pop(l, s).1.value) == key then None else Held(s.quotes, key)
  {
    PopKeepsValid(l, s);
    NextLaneWaits(l, s);
    var after := Pop(l, s).0;
    if NextLane(l, s) == Some(Quote) {
      assert s.quotes == [s.quotes[0]] + after.quotes;
      HeldIsUnique(s.quotes, s.quotes[0]);
      if Held(after.quotes, key).Some? {
        HeldIsUnique(s.quotes, Held(after.quotes, key).value);
      }
    }
  }

  lemma NewestStep(l: Limits, w: World, a: Action)
    requires w.queues.Valid(l) && NewestExplained(w)
    ensures NewestExplained(Tell(l, w, a))
  {
    NewestIsByKey(l, w);
    NewestIsByKey(l, Tell(l, w, a));
    forall key ensures KeyExplained(Tell(l, w, a), key) {
      KeyStep(l, w, a, key);
    }
  }

  // ---- The dedupe cache --------------------------------------------------------------------

  lemma WindowStep(l: Limits, w: World, a: Action)
    requires l.Valid() && w.queues.Valid(l) && WindowExplained(l, w)
    ensures WindowExplained(l, Tell(l, w, a))
  {
    match a
    case Take =>
      TakeStep(l, w, Quote);
    case Offer(e) =>
      var decision := Admit(l, w.queues, e).decision;
      ReadingsStep(w.log, Published(e, decision, CacheHit(w.queues, e)), Quote);
      RecentStep(l, w.queues, e, decision, Touches(w.log));
  }

  lemma RecentStep(l: Limits, s: Queues, e: Event, decision: Decision, touches: seq<DedupeKey>)
    requires l.Valid() && s.recent == Window(touches, l.dedupe)
    ensures RecentAfter(l, s, e, decision)
            == Window(touches + if Touching(Published(e, decision, CacheHit(s, e))) then [DedupeKeyOf(e).value] else [], l.dedupe)
  {
    assert touches + [] == touches;
    if DedupeKeyOf(e).Some? {
      WindowGrows(touches, DedupeKeyOf(e).value, l.dedupe);
    }
  }

  /** One more touch: a cached key moves to the end, a new one may push the oldest out. */
  lemma WindowGrows(touches: seq<DedupeKey>, k: DedupeKey, capacity: nat)
    requires capacity > 0
    ensures Window(touches + [k], capacity) == Remember(Window(touches, capacity), k, capacity)
    ensures k in Window(touches, capacity) ==> Window(touches + [k], capacity) == Touch(Window(touches, capacity), k)
  {
    assert (touches + [k])[..|touches|] == touches;
    WindowIsBounded(touches, capacity);
    RemoveKeepsDistinct(Window(touches, capacity), k);
  }

  lemma HonestStep(l: Limits, w: World, a: Action)
    requires l.Valid() && w.queues.Valid(l) && WindowExplained(l, w) && LogHonest(l, w.log)
    ensures LogHonest(l, Tell(l, w, a).log)
  {
    var next := Tell(l, w, a).log;
    forall i | 0 <= i < |next| && next[i].Published? && DedupeKeyOf(next[i].event).Some?
      ensures next[i].hit <==> DedupeKeyOf(next[i].event).value in Window(Touches(next[..i]), l.dedupe)
      ensures next[i].hit ==> next[i].decision.Duplicate?
    {
      if i < |w.log| {
        assert next[..i] == w.log[..i] && next[i] == w.log[i];
      } else {
        assert next[..i] == w.log;
      }
    }
  }

  // ---- Runs ----------------------------------------------------------------------------------

  lemma StartIsExplained(l: Limits)
    requires l.Valid()
    ensures Explained(l, Start())
  {
  }

  lemma StepExplained(l: Limits, w: World, a: Action)
    requires l.Valid() && Explained(l, w)
    ensures Explained(l, Tell(l, w, a))
  {
    FifoStep(l, w, a, Diagnostic);
    FifoStep(l, w, a, Control);
    FifoStep(l, w, a, Tick);
    QuotesStep(l, w, a);
    NewestStep(l, w, a);
    WindowStep(l, w, a);
    HonestStep(l, w, a);
  }

  /** In every reachable state the queues are what the log says they are. */
  lemma {:induction false} RunsAreExplained(l: Limits, w: World, actions: seq<Action>)
    requires l.Valid() && Explained(l, w)
    ensures Explained(l, Run(l, w, actions))
    decreases |actions|
  {
    if actions != [] {
      StepExplained(l, w, actions[0]);
      RunsAreExplained(l, Tell(l, w, actions[0]), actions[1..]);
    }
  }

  // ---- Conservation -------------------------------------------------------------------------

  lemma {:induction false} ReceivedIsDecided(log: Log, lane: Lane)
    ensures Received(log, lane)
            == Count(log, lane, Accepted) + Count(log, lane, Coalesced) + Count(log, lane, Dropped) + Count(log, lane, Duplicate)
    ensures Count(log, lane, Accepted) == |AcceptedInto(log, lane)|
  {
    if log != [] {
      ReceivedIsDecided(log[..|log| - 1], lane);
    }
  }

  /** Per lane: what was accepted has been popped or still waits, and every publish got one decision. */
  lemma LanesConserve(l: Limits, actions: seq<Action>, lane: Lane)
    requires l.Valid()
    ensures var end := Run(l, Start(), actions);
            && Count(end.log, lane, Accepted) == |PoppedFrom(end.log, lane)| + |end.queues.Lane(lane)|
            && |end.queues.Lane(lane)| <= l.Capacity(lane)
            && Received(end.log, lane) == Count(end.log, lane, Accepted) + Count(end.log, lane, Coalesced)
                                          + Count(end.log, lane, Dropped) + Count(end.log, lane, Duplicate)
  {
    StartIsExplained(l);
    RunsAreExplained(l, Start(), actions);
    ReceivedIsDecided(Run(l, Start(), actions).log, lane);
  }

  // ---- What the dedupe cache promises --------------------------------------------------------

  predicate AdmittedKey(r: Record, k: DedupeKey) {
    r.Published? && Admitted(r.decision) && DedupeKeyOf(r.event) == Some(k)
  }

  lemma {:induction false} TouchedWasAdmitted(l: Limits, log: Log, k: DedupeKey) returns (i: nat)
    requires l.Valid() && LogHonest(l, log) && k in Touches(log)
    ensures i < |log| && AdmittedKey(log[i], k)
  {
    var n := |log| - 1;
    var earlier := log[..n];
    assert LogHonest(l, earlier) by {
      assert forall j :: 0 <= j < n ==> earlier[j] == log[j] && earlier[..j] == log[..j];
    }
    if k in Touches(earlier) {
      i := TouchedWasAdmitted(l, earlier, k);
    } else {
      i := n;
      if log[n].hit {
        WindowMembership(Touches(earlier), l.dedupe, k);
      }
    }
  }

  /** A cache hit means the key was accepted or coalesced before. */
  lemma HitsWereAdmitted(l: Limits, actions: seq<Action>, i: nat) returns (j: nat)
    requires l.Valid() && i < |Run(l, Start(), actions).log|
    requires Run(l, Start(), actions).log[i].Published? && Run(l, Start(), actions).log[i].hit
    requires DedupeKeyOf(Run(l, Start(), actions).log[i].event).Some?
    ensures j < i && AdmittedKey(Run(l, Start(), actions).log[j], DedupeKeyOf(Run(l, Start(), actions).log[i].event).value)
  {
    StartIsExplained(l);
    RunsAreExplained(l, Start(), actions);
    j := HitWasAdmitted(l, Run(l, Start(), actions).log, i);
  }

  lemma HitWasAdmitted(l: Limits, log: Log, i: nat) returns (j: nat)
    requires l.Valid() && LogHonest(l, log) && i < |log|
    requires log[i].Published? && log[i].hit && DedupeKeyOf(log[i].event).Some?
    ensures j < i && AdmittedKey(log[j], DedupeKeyOf(log[i].event).value)
  {
    var earlier, k := log[..i], DedupeKeyOf(log[i].event).value;
    assert LogHonest(l, earlier) by {
      assert forall m :: 0 <= m < i ==> earlier[m] == log[m] && earlier[..m] == log[..m];
    }
    WindowMembership(Touches(earlier), l.dedupe, k);
    j := TouchedWasAdmitted(l, earlier, k);
  }

  /**
   * Two admissions of one key are kept apart: between them the key was touched
   * last before `dedupe_capacity` other keys were.
   */
  lemma AdmittedAgainOnlyOutsideWindow(l: Limits, actions: seq<Action>, i: nat, j: nat, k: DedupeKey)
    requires l.Valid() && i < j < |Run(l, Start(), actions).log|
    requires AdmittedKey(Run(l, Start(), actions).log[i], k) && AdmittedKey(Run(l, Start(), actions).log[j], k)
    ensures |Since(Touches(Run(l, Start(), actions).log[..j]), k)| >= l.dedupe
  {
    var log := Run(l, Start(), actions).log;
    StartIsExplained(l);
    RunsAreExplained(l, Start(), actions);
    AdmissionTouches(log[..j], i, k);
    WindowMembership(Touches(log[..j]), l.dedupe, k);
  }

  lemma {:induction false} AdmissionTouches(log: Log, i: nat, k: DedupeKey)
    requires i < |log| && AdmittedKey(log[i], k)
    ensures k in Touches(log)
  {
    if i < |log| - 1 {
      AdmissionTouches(log[..|log| - 1], i, k);
    }
  }
}
