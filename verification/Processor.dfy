/**
 * The objects that record captured events: the sequencer, the pipeline, the
 * fail-stop processor and the storage failure notifier.  Each method is proved
 * to take the step of Recording that its name says.
 */
module Processor {
  import opened Wrappers
  import opened IngressQueues
  import opened Ingress
  import opened Monitoring
  import opened Recording

  /** How the collaborators behind the pipeline behave during one call. */
  datatype Behaviour = Behaviour(
    validates: Event -> bool,
    build: (Event, nat) -> Option<Envelope>,
    sinkAccepts: Envelope -> bool,
    observerFails: Event -> bool)
  {
    function AttemptAt(e: Event, next: nat): Attempt {
      Attempt(e, validates(e), build(e, next), build(e, next).Some? && sinkAccepts(build(e, next).value), observerFails(e))
    }
  }

  function AttemptsFor(event: Option<Event>, last: map<Id, nat>, b: Behaviour): seq<Attempt> {
    match event
    case None => []
    case Some(e) => [b.AttemptAt(e, NextSequence(last, e.session))]
  }

  /**
   * Exactly what it takes for an event to be delivered, and when its session
   * uses up a sequence: the next one, from the moment the event is valid.
   */
  lemma AcceptsExactly(last: map<Id, nat>, e: Event, b: Behaviour)
    ensures var next := if e.session in last then last[e.session] + 1 else 0;
            var a := b.AttemptAt(e, NextSequence(last, e.session));
            var built := Envelope(e.session, e.generation, e.sequence, e.metadata, next);
            && (Delivers(last, a)
                <==> b.validates(e) && next <= 0x7FFF_FFFF_FFFF_FFFF && b.build(e, next) == Some(built) && b.sinkAccepts(built))
            && LastAfter(last, a) == (if b.validates(e) && next <= 0x7FFF_FFFF_FFFF_FFFF then last[e.session := next] else last)
  {
  }

  class IngestSequencer {
    var last: map<Id, nat>

    constructor ()
      ensures last == map[]
    {
      last := map[];
    }

    /** None stands for the OverflowError. */
    method Next(session: Id) returns (issued: Option<nat>)
      modifies this
      ensures var next := NextSequence(old(last), session);
              if next <= MAX_INGEST_SEQUENCE then issued == Some(next) && last == old(last)[session := next]
              else issued.None? && last == old(last)
    {
      var previous: int := if session in last then last[session] else -1;
      if previous >= MAX_INGEST_SEQUENCE {
        return None;
      }
      last := last[session := previous + 1];
      return Some(previous + 1);
    }
  }

  class MarketDataSink {
    var delivered: seq<Envelope>

    constructor ()
      ensures delivered == []
    {
      delivered := [];
    }

    method Publish(envelope: Envelope, accepts: bool)
      modifies this
      ensures delivered == if accepts then old(delivered) + [envelope] else old(delivered)
    {
      if accepts {
        delivered := delivered + [envelope];
      }
    }
  }

  class CapturedEventPipeline {
    const sequencer: IngestSequencer
    const sink: MarketDataSink

    constructor (sequencer: IngestSequencer, sink: MarketDataSink)
      ensures this.sequencer == sequencer && this.sink == sink
    {
      this.sequencer, this.sink := sequencer, sink;
    }

    /** Raises, as ok false, at the first stage that fails. */
    method Accept(e: Event, b: Behaviour) returns (ok: bool)
      modifies sequencer, sink
      ensures var a := b.AttemptAt(e, NextSequence(old(sequencer.last), e.session));
              && ok == Delivers(old(sequencer.last), a)
              && sequencer.last == LastAfter(old(sequencer.last), a)
              && sink.delivered == old(sink.delivered) + if ok then [a.envelope.value] else []
    {
      if !b.validates(e) {
        return false;
      }
      var issued := sequencer.Next(e.session);
      if issued.None? {
        return false;
      }
      var built := b.build(e, issued.value);
      if built.None? || built.value.ingestSequence != issued.value || !Copies(built.value, e) {
        return false;
      }
      ok := b.sinkAccepts(built.value);
      sink.Publish(built.value, ok);
    }
  }

  datatype Processed = HaltedError | NothingWaiting | Recorded | ProcessingFailed | ObserverFailed

  // ---- The damage a failed attempt does ------------------------------------------------------

  function FailureReason(delivered: bool): Reason {
    if delivered then "accepted_event_observer_failure" else "ingress_processing_failure"
  }

  function FailureDamage(r: Recorder, a: Attempt): seq<DamageOp> {
    if r.halted || (Delivers(r.last, a) && !a.observerFails) then []
    else [MarkIncomplete(a.event.session, FailureReason(Delivers(r.last, a)))]
  }

  /** An event that was not delivered and one whose observer failed are on record under different names. */
  lemma FailureIsNamed(r: Recorder, a: Attempt)
    requires !r.halted
    ensures var delivered := Process(r, a).delivered != r.delivered;
            FailureDamage(r, a)
            == if !delivered then [MarkIncomplete(a.event.session, "ingress_processing_failure")]
               else if a.observerFails then [MarkIncomplete(a.event.session, "accepted_event_observer_failure")]
               else []
  {
    if Delivers(r.last, a) {
      assert |Process(r, a).delivered| == |r.delivered| + 1;
    }
  }

  /** What a failure does to health, damage and shutdown, step by step. */
  function Stopped(a: Alarm, session: Id, reason: Reason, fatal: bool, room: bool): Alarm {
    Asked(Noted(Worsened(a, if fatal then Failed else Degraded, reason), MarkIncomplete(session, reason), room), reason)
  }

  /** A failure worsens health, marks the session and asks for shutdown; a mark without room fails health as well. */
  lemma StoppedMeans(a: Alarm, session: Id, reason: Reason, fatal: bool, room: bool)
    ensures var after := Stopped(a, session, reason, fatal, room);
            && after.damage == a.damage + [MarkIncomplete(session, reason)]
            && after.told == a.told + [reason] + (if room then [] else ["session_impact_capacity_exhausted"])
            && after.health == (if fatal || !room || a.health == Failed then Failed else Degraded)
            && after.asked == (if a.asked.Some? then a.asked else Some(reason))
            && after.requests == a.requests + (if a.asked.Some? then 0 else 1)
  {
  }

  /** An event that was not delivered fails health; one whose observer failed degrades it. */
  function AfterFailure(a: Alarm, session: Id, delivered: bool, room: bool): Alarm {
    if delivered then Stopped(a, session, "accepted_event_observer_failure", false, room)
    else Stopped(a, session, "ingress_processing_failure", true, room)
  }

  lemma OneAttempt(r: Recorder, a: Attempt)
    requires !r.halted
    ensures var ok := Delivers(r.last, a);
            && Process(r, a) == Recorder(LastAfter(r.last, a), r.delivered + (if ok then [a.envelope.value] else []),
                                         !ok || a.observerFails)
            && FailureDamage(r, a) == if ok && !a.observerFails then [] else [MarkIncomplete(a.event.session, FailureReason(ok))]
  {
  }

  datatype Account = Account(alarm: Alarm, failures: nat, delivered: nat, attempts: seq<Attempt>, failed: Option<Event>)

  /** How an attempt goes on record. */
  predicate Settles(outcome: Processed, before: Account, after: Account, a: Attempt, room: bool) {
    && outcome in {Recorded, ProcessingFailed, ObserverFailed}
    && after.attempts == before.attempts + [a]
    && after.failed == (if outcome.Recorded? then before.failed else Some(a.event))
    && after.failures == before.failures + (if outcome.Recorded? then 0 else 1)
    && after.delivered == before.delivered + (if outcome.ProcessingFailed? then 0 else 1)
    && after.alarm == (if outcome.Recorded? then before.alarm
                       else AfterFailure(before.alarm, a.event.session, outcome.ObserverFailed?, room))
    && after.alarm.damage == before.alarm.damage + FailureDamage(ProcessAll(before.attempts), a)
  }

  lemma FailureSettles(before: Account, a: Attempt, delivered: bool, room: bool)
    requires var r := ProcessAll(before.attempts); !r.halted && delivered == Delivers(r.last, a) && (delivered ==> a.observerFails)
    ensures var count := |ProcessAll(before.attempts).delivered|;
            Settles(if delivered then ObserverFailed else ProcessingFailed, before.(delivered := count),
                    Account(AfterFailure(before.alarm, a.event.session, delivered, room), before.failures + 1,
                            count + if delivered then 1 else 0, before.attempts + [a], Some(a.event)), a, room)
  {
  }

  lemma SuccessSettles(before: Account, a: Attempt, room: bool)
    requires var r := ProcessAll(before.attempts); Delivers(r.last, a) && !a.observerFails
    ensures var count := |ProcessAll(before.attempts).delivered|;
            Settles(Recorded, before.(delivered := count), before.(delivered := count + 1, attempts := before.attempts + [a]), a, room)
  {
  }

  /** Marks the session; without room for the mark, health fails. */
  method MarkOrFail(health: PipelineHealth, impact: SessionImpactTracker, shutdown: ControlledShutdown, metrics: IngressMetrics,
                    session: Id, reason: Reason)
    requires health.Valid() && impact.Valid()
    modifies health, impact
    ensures health.Valid() && impact.Valid() && impact.Damage().Incomplete(session)
    ensures impact.Damage() == Damaged(old(impact.Damage()), impact.maxSessions, impact.maxReasons, MarkIncomplete(session, reason))
    ensures AlarmOf(health, impact, shutdown, metrics)
            == Noted(old(AlarmOf(health, impact, shutdown, metrics)), MarkIncomplete(session, reason),
                     old(impact.Damage()).HasRoom(session, impact.maxSessions))
  {
    var marked := impact.MarkIncomplete(session, reason);
    if !marked {
      health.Fail(NO_ROOM);
    }
  }

  /** Asks for shutdown, and counts the first request. */
  method AskAndCount(health: PipelineHealth, impact: SessionImpactTracker, shutdown: ControlledShutdown, metrics: IngressMetrics,
                     reason: Reason)
    requires shutdown.Valid()
    modifies shutdown, metrics`shutdownRequests
    ensures shutdown.Valid() && shutdown.Requested()
    ensures AlarmOf(health, impact, shutdown, metrics) == Asked(old(AlarmOf(health, impact, shutdown, metrics)), reason)
  {
    var first := shutdown.RequestShutdown(reason);
    if first {
      metrics.RecordShutdownRequest();
    }
  }

  /** The marks that a run of attempts calls for: at most one, since the first failure halts. */
  function FailureMarks(attempts: seq<Attempt>): seq<DamageOp> {
    if attempts == [] then []
    else
      var n := |attempts| - 1;
      FailureMarks(attempts[..n]) + FailureDamage(ProcessAll(attempts[..n]), attempts[n])
  }

  lemma FailureNext(attempts: seq<Attempt>, a: Attempt)
    ensures ProcessAll(attempts + [a]) == Process(ProcessAll(attempts), a)
    ensures FailureMarks(attempts + [a]) == FailureMarks(attempts) + FailureDamage(ProcessAll(attempts), a)
  {
    assert (attempts + [a])[..|attempts|] == attempts;
  }

  /** How far a drain has come, given the attempts and the halt at its start and now. */
  predicate Drained(before: nat, wasHalted: bool, processed: nat, outcome: Processed, now: nat, halted: bool) {
    match outcome
    case Recorded => now == before + processed && halted == wasHalted && (processed > 0 ==> !halted)
    case NothingWaiting => now == before + processed && !halted && !wasHalted
    case HaltedError => now == before && halted && wasHalted && processed == 0
    case _ => now == before + processed + 1 && halted && !wasHalted
  }

  lemma DrainedNext(before: nat, wasHalted: bool, processed: nat, earlier: nat, halted: bool, outcome: Processed, now: nat, haltedNow: bool)
    requires Drained(before, wasHalted, processed, Recorded, earlier, halted)
    requires outcome.HaltedError? <==> halted
    requires halted ==> haltedNow
    requires outcome in {Recorded, NothingWaiting} ==> !haltedNow
    requires outcome in {ProcessingFailed, ObserverFailed} ==> haltedNow
    requires now == earlier + if outcome in {Recorded, ProcessingFailed, ObserverFailed} then 1 else 0
    ensures Drained(before, wasHalted, if outcome.Recorded? then processed + 1 else processed, outcome, now, haltedNow)
  {
  }

  class BoundedIngressProcessor {
    const ingress: BoundedIngress
    const pipeline: CapturedEventPipeline
    const health: PipelineHealth
    const metrics: IngressMetrics
    const impact: SessionImpactTracker
    const shutdown: ControlledShutdown
    var halted: bool
    var failedEvent: Option<Event>
    /** The events popped so far and how the collaborators answered each. */
    ghost var attempts: seq<Attempt>
    /** Where among the tracker's operations a failure has marked its session. */
    ghost var places: seq<nat>

    ghost predicate Valid()
      reads this, ingress, ingress.metrics`lanes, ingress.health, ingress.impact, ingress.shutdown
      reads health, impact, shutdown, pipeline.sequencer, pipeline.sink
    {
      && ingress.Valid() && health.Valid() && impact.Valid() && shutdown.Valid()
      && Recording() && FailuresMarked()
    }

    /** The event that halted the processor, if any, has marked its session incomplete. */
    ghost predicate FailuresMarked()
      reads this, impact
    {
      && DoneAt(impact.ops, places, FailureMarks(attempts))
      && |places| == (if failedEvent.Some? then 1 else 0)
      && (failedEvent.Some? ==> FailureMarks(attempts)[0].session == failedEvent.value.session)
    }

    /** The objects' state is the run of the recorder over the attempts. */
    ghost predicate Recording()
      reads this, pipeline.sequencer, pipeline.sink
    {
      && Recorder(pipeline.sequencer.last, pipeline.sink.delivered, halted) == ProcessAll(attempts)
      && (halted <==> failedEvent.Some?)
    }

    constructor (ingress: BoundedIngress, pipeline: CapturedEventPipeline, health: PipelineHealth, metrics: IngressMetrics,
                 impact: SessionImpactTracker, shutdown: ControlledShutdown)
      requires ingress.Valid() && health.Valid() && impact.Valid() && shutdown.Valid()
      requires pipeline.sequencer.last == map[] && pipeline.sink.delivered == []
      ensures Valid() && attempts == [] && !halted
    {
      this.ingress, this.pipeline := ingress, pipeline;
      this.health, this.metrics, this.impact, this.shutdown := health, metrics, impact, shutdown;
      halted, failedEvent, attempts, places := false, None, [], [];
    }

    ghost function Alarms(): Alarm
      reads health, impact, shutdown, metrics`shutdownRequests
    {
      AlarmOf(health, impact, shutdown, metrics)
    }

    /** What is on record about the attempts. */
    ghost function OnRecord(): Account
      reads `attempts, `failedEvent, health, impact, shutdown, metrics`shutdownRequests, metrics`processingFailures, pipeline.sink
    {
      Account(AlarmOf(health, impact, shutdown, metrics), metrics.processingFailures, |pipeline.sink.delivered|, attempts, failedEvent)
    }

    predicate RoomFor(session: Id)
      reads impact
    {
      impact.Damage().HasRoom(session, impact.maxSessions)
    }

    /** Takes one event through the pipeline; the first failure halts the processor for good. */
    method ProcessOne(b: Behaviour) returns (outcome: Processed)
      requires Valid()
      modifies this, ingress, ingress.metrics`lanes, pipeline.sequencer, pipeline.sink
      modifies health, impact, shutdown, metrics`processingFailures, metrics`shutdownRequests
      ensures Valid() && halted == (outcome !in {Recorded, NothingWaiting})
      ensures outcome.HaltedError? <==> old(halted)
      ensures |attempts| == |old(attempts)| + if outcome in {HaltedError, NothingWaiting} then 0 else 1
      ensures outcome in {HaltedError, NothingWaiting} ==>
                OnRecord() == old(OnRecord()) && pipeline.sink.delivered == old(pipeline.sink.delivered)
      ensures outcome.NothingWaiting? ==> ingress.Empty() && old(Pop(ingress.limits, ingress.State())).1.None?
      ensures outcome !in {HaltedError, NothingWaiting} ==>
                var popped := old(Pop(ingress.limits, ingress.State())).1;
                && popped.Some? && (!outcome.Recorded? ==> impact.Damage().Incomplete(popped.value.session))
                && Settles(outcome, old(OnRecord()), OnRecord(),
                           b.AttemptAt(popped.value, NextSequence(old(pipeline.sequencer.last), popped.value.session)),
                           old(impact.Damage()).HasRoom(popped.value.session, impact.maxSessions))
    {
      if halted {
        return HaltedError;
      }
      var event := TakeOne();
      if event.None? {
        return NothingWaiting;
      }
      outcome := HandlePopped(event.value, b);
    }

    method TakeOne() returns (event: Option<Event>)
      requires Valid()
      modifies ingress, ingress.metrics`lanes
      ensures Valid() && event == old(Pop(ingress.limits, ingress.State())).1
      ensures event.None? ==> ingress.Empty()
      ensures OnRecord() == old(OnRecord()) && unchanged(pipeline.sequencer) && unchanged(pipeline.sink) && unchanged(impact)
    {
      event := ingress.TryPop();
    }

    /** The ingress may share the tracker, the health and the shutdown with the processor. */
    method HandlePopped(e: Event, b: Behaviour) returns (outcome: Processed)
      requires Valid() && !halted
      modifies this, pipeline.sequencer, pipeline.sink
      modifies health, impact, shutdown, metrics`processingFailures, metrics`shutdownRequests
      ensures Valid() && halted == !outcome.Recorded?
      ensures !outcome.Recorded? ==> impact.Damage().Incomplete(e.session)
      ensures Settles(outcome, old(OnRecord()), OnRecord(), b.AttemptAt(e, NextSequence(old(pipeline.sequencer.last), e.session)),
                      old(RoomFor(e.session)))
    {
      outcome := HandleApart(e, b);
      IngressKeepsUp();
    }

    /** Nothing of the ingress is touched but what it shares with the processor. */
    twostate predicate Apart()
      reads ingress, ingress.metrics`lanes, ingress.health, ingress.impact, ingress.shutdown
    {
      && unchanged(ingress) && unchanged(ingress.metrics`lanes)
      && (ingress.health == health || unchanged(ingress.health))
      && (ingress.impact == impact || unchanged(ingress.impact))
      && (ingress.shutdown == shutdown || unchanged(ingress.shutdown))
    }

    twostate lemma IngressKeepsUp()
      requires old(ingress.Valid()) && Apart()
      requires health.Valid() && impact.Valid() && shutdown.Valid() && old(impact.ops) <= impact.ops
      ensures ingress.Valid()
    {
      ingress.OthersMayInterleave();
    }

    method HandleApart(e: Event, b: Behaviour) returns (outcome: Processed)
      requires health.Valid() && impact.Valid() && shutdown.Valid() && Recording() && FailuresMarked() && !halted
      modifies this, pipeline.sequencer, pipeline.sink
      modifies health, impact, shutdown, metrics`processingFailures, metrics`shutdownRequests
      ensures health.Valid() && impact.Valid() && shutdown.Valid() && Recording() && FailuresMarked()
      ensures halted == !outcome.Recorded? && old(impact.ops) <= impact.ops && Apart()
      ensures !outcome.Recorded? ==> impact.Damage().Incomplete(e.session)
      ensures Settles(outcome, old(OnRecord()), OnRecord(), b.AttemptAt(e, NextSequence(old(pipeline.sequencer.last), e.session)),
                      old(RoomFor(e.session)))
    {
      outcome := Handle(e, b);
    }

    method Handle(e: Event, b: Behaviour) returns (outcome: Processed)
      requires health.Valid() && impact.Valid() && shutdown.Valid() && Recording() && FailuresMarked() && !halted
      modifies this, pipeline.sequencer, pipeline.sink
      modifies health, impact, shutdown, metrics`processingFailures, metrics`shutdownRequests
      ensures health.Valid() && impact.Valid() && shutdown.Valid() && Recording() && FailuresMarked()
      ensures halted == !outcome.Recorded? && old(impact.ops) <= impact.ops
      ensures !outcome.Recorded? ==> impact.Damage().Incomplete(e.session)
      ensures Settles(outcome, old(OnRecord()), OnRecord(), b.AttemptAt(e, NextSequence(old(pipeline.sequencer.last), e.session)),
                      old(RoomFor(e.session)))
    {
      ghost var a := b.AttemptAt(e, NextSequence(pipeline.sequencer.last, e.session));
      var ok := pipeline.Accept(e, b);
      outcome := Conclude(e, ok, b.observerFails(e), a);
    }

    /** What follows once the pipeline has answered. */
    method Conclude(e: Event, delivered: bool, observerFails: bool, ghost a: Attempt) returns (outcome: Processed)
      requires health.Valid() && impact.Valid() && shutdown.Valid() && FailuresMarked() && !halted && failedEvent.None?
      requires var r := ProcessAll(attempts);
               && !r.halted && a.event == e && a.observerFails == observerFails && delivered == Delivers(r.last, a)
               && pipeline.sequencer.last == LastAfter(r.last, a)
               && pipeline.sink.delivered == r.delivered + if delivered then [a.envelope.value] else []
      modifies this, health, impact, shutdown, metrics`processingFailures, metrics`shutdownRequests
      ensures health.Valid() && impact.Valid() && shutdown.Valid() && Recording() && FailuresMarked()
      ensures halted == !outcome.Recorded? && old(impact.ops) <= impact.ops
      ensures !outcome.Recorded? ==> impact.Damage().Incomplete(e.session)
      ensures Settles(outcome, old(OnRecord().(delivered := |ProcessAll(attempts).delivered|)), OnRecord(), a, old(RoomFor(e.session)))
    {
      OneAttempt(ProcessAll(attempts), a);
      if delivered && !observerFails {
        SuccessSettles(OnRecord(), a, RoomFor(e.session));
        NoteSuccess(a);
        outcome := Recorded;
      } else {
        FailureSettles(OnRecord(), a, delivered, RoomFor(e.session));
        Halt(e, delivered, a);
        outcome := if delivered then ObserverFailed else ProcessingFailed;
      }
    }

    /** The attempt has failed: its event and its mark go on record, and processing stops for good. */
    method Halt(e: Event, delivered: bool, ghost a: Attempt)
      requires health.Valid() && impact.Valid() && shutdown.Valid() && DoneAt(impact.ops, places, FailureMarks(attempts))
      requires !halted && places == [] && a.event == e
      requires FailureDamage(ProcessAll(attempts), a) == [MarkIncomplete(e.session, FailureReason(delivered))]
      modifies this, health, impact, shutdown, metrics`processingFailures, metrics`shutdownRequests
      ensures health.Valid() && impact.Valid() && shutdown.Valid() && halted && FailuresMarked()
      ensures ProcessAll(attempts) == Process(ProcessAll(old(attempts)), a)
      ensures old(impact.ops) <= impact.ops && impact.Damage().Incomplete(e.session)
      ensures OnRecord() == Account(AfterFailure(old(AlarmOf(health, impact, shutdown, metrics)), e.session, delivered,
                                                 old(RoomFor(e.session))),
                                    old(metrics.processingFailures) + 1, old(|pipeline.sink.delivered|), old(attempts) + [a],
                                    Some(e))
    {
      PlaceMark(a);
      halted, failedEvent := true, Some(e);
      Stop(e.session, FailureReason(delivered), !delivered);
    }

    /** Notes an attempt that calls for no mark. */
    ghost method NoteSuccess(a: Attempt)
      requires FailureDamage(ProcessAll(attempts), a) == [] && FailuresMarked()
      modifies this`attempts
      ensures FailuresMarked()
      ensures attempts == old(attempts) + [a] && FailureMarks(attempts) == old(FailureMarks(attempts))
      ensures ProcessAll(attempts) == Process(ProcessAll(old(attempts)), a)
    {
      FailureNext(attempts, a);
      attempts := attempts + [a];
    }

    /** Notes the attempt, and where the mark of its failure is about to be put. */
    ghost method PlaceMark(a: Attempt)
      requires DoneAt(impact.ops, places, FailureMarks(attempts))
      requires FailureDamage(ProcessAll(attempts), a) != []
      modifies this`places, this`attempts
      ensures attempts == old(attempts) + [a] && |places| == old(|places|) + 1
      ensures ProcessAll(attempts) == Process(ProcessAll(old(attempts)), a)
      ensures DoneAt(impact.ops + FailureDamage(ProcessAll(old(attempts)), a), places, FailureMarks(attempts))
    {
      OneMoreDone(impact.ops, FailureDamage(ProcessAll(attempts), a), places, FailureMarks(attempts));
      FailureNext(attempts, a);
      attempts, places := attempts + [a], places + [|impact.ops|];
    }

    method Stop(session: Id, reason: Reason, fatal: bool)
      requires health.Valid() && impact.Valid() && shutdown.Valid()
      modifies health, impact, shutdown, metrics`processingFailures, metrics`shutdownRequests
      ensures health.Valid() && impact.Valid() && shutdown.Valid()
      ensures impact.Damage() == Damaged(old(impact.Damage()), impact.maxSessions, impact.maxReasons, MarkIncomplete(session, reason))
      ensures impact.ops == old(impact.ops) + [MarkIncomplete(session, reason)]
      ensures impact.Damage().Incomplete(session)
      ensures Alarms() == Stopped(old(Alarms()), session, reason, fatal, old(impact.Damage()).HasRoom(session, impact.maxSessions))
      ensures metrics.processingFailures == old(metrics.processingFailures) + 1
    {
      metrics.RecordProcessingFailure();
      if fatal {
        health.Fail(reason);
      } else {
        health.Degrade(reason);
      }
      MarkOrFail(health, impact, shutdown, metrics, session, reason);
      AskAndCount(health, impact, shutdown, metrics, reason);
    }

    /** Processes events until the limit, an empty ingress or a failure; the failure is reported. */
    method Drain(maxEvents: nat, b: Behaviour) returns (processed: nat, outcome: Processed)
      requires Valid() && maxEvents > 0
      modifies this, ingress, ingress.metrics`lanes, pipeline.sequencer, pipeline.sink
      modifies health, impact, shutdown, metrics`processingFailures, metrics`shutdownRequests
      ensures Valid() && processed <= maxEvents
      ensures Drained(|old(attempts)|, old(halted), processed, outcome, |attempts|, halted)
      ensures outcome.Recorded? ==> processed == maxEvents
      ensures outcome.NothingWaiting? ==> ingress.Empty()
    {
      processed, outcome := 0, Recorded;
      while processed < maxEvents && outcome.Recorded?
        invariant Valid() && processed <= maxEvents
        invariant Drained(|old(attempts)|, old(halted), processed, outcome, |attempts|, halted)
        invariant outcome.NothingWaiting? ==> ingress.Empty()
        decreases maxEvents - processed, if outcome.Recorded? then 1 else 0
      {
        ghost var earlier, wasHalted := |attempts|, halted;
        outcome := ProcessOne(b);
        DrainedNext(|old(attempts)|, old(halted), processed, earlier, wasHalted, outcome, |attempts|, halted);
        if outcome.Recorded? {
          processed := processed + 1;
        }
      }
    }

    /** In every reachable state: gap-free per session, and nothing popped is missing unless the processor halted. */
    lemma DeliveredIsGapFree(session: Id)
      requires Valid()
      ensures CountsUp(SequencesOf(pipeline.sink.delivered, session))
      ensures |pipeline.sink.delivered| < |attempts| ==> halted
      ensures forall i :: 0 <= i < |pipeline.sink.delivered| ==> i < |attempts| && Copies(pipeline.sink.delivered[i], attempts[i].event)
    {
      DeliveredWithoutGaps(attempts);
    }

    /**
     * In every reachable state, whoever else uses the tracker: the event that
     * halted the processor has its session incomplete unless cleared since.
     */
    lemma FailureIsIncomplete(requested: string)
      requires Valid() && failedEvent.Some?
      requires DamageOp.Clear(failedEvent.value.session) !in impact.ops[places[0] + 1..]
      ensures impact.Damage().TerminalStatus(failedEvent.value.session, requested) == "incomplete"
    {
      impact.DamageIsKept(places[0], requested);
    }

    /** Other objects may publish to the ingress and use the tracker, the health and the shutdown in between. */
    twostate lemma OthersMayInterleave()
      requires old(Valid()) && unchanged(this, pipeline.sequencer, pipeline.sink)
      requires ingress.Valid() && health.Valid() && impact.Valid() && shutdown.Valid() && old(impact.ops) <= impact.ops
      ensures Valid()
    {
      StillDone(old(impact.ops), impact.ops, places, FailureMarks(attempts));
    }
  }

  const STORAGE_FAILURE: Reason := "background_storage_failure"

  function StorageMarks(session: Id, failures: nat): seq<DamageOp> {
    seq(failures, i => MarkIncomplete(session, STORAGE_FAILURE))
  }

  class PipelineStorageFailureNotifier {
    const sessionId: Id
    const health: PipelineHealth
    const metrics: IngressMetrics
    const impact: SessionImpactTracker
    const shutdown: ControlledShutdown
    /** Where among the tracker's operations each storage failure has marked the session. */
    ghost var places: seq<nat>

    ghost predicate Valid()
      reads this, health, impact, shutdown
    {
      && health.Valid() && impact.Valid() && shutdown.Valid()
      && DoneAt(impact.ops, places, StorageMarks(sessionId, |places|))
    }

    constructor (sessionId: Id, health: PipelineHealth, metrics: IngressMetrics, impact: SessionImpactTracker,
                 shutdown: ControlledShutdown)
      requires health.Valid() && impact.Valid() && shutdown.Valid()
      ensures Valid() && places == []
      ensures this.sessionId == sessionId && this.health == health && this.metrics == metrics
      ensures this.impact == impact && this.shutdown == shutdown
    {
      this.sessionId, this.health, this.metrics, this.impact, this.shutdown := sessionId, health, metrics, impact, shutdown;
      places := [];
    }

    ghost function Alarms(): Alarm
      reads health, impact, shutdown, metrics`shutdownRequests
    {
      AlarmOf(health, impact, shutdown, metrics)
    }

    method NotifyStorageFailure()
      requires Valid()
      modifies this`places, health, impact, shutdown, metrics`storageFailures, metrics`shutdownRequests
      ensures Valid() && |places| == |old(places)| + 1
      ensures impact.Damage() == Damaged(old(impact.Damage()), impact.maxSessions, impact.maxReasons,
                                         MarkIncomplete(sessionId, STORAGE_FAILURE))
      ensures impact.ops == old(impact.ops) + [MarkIncomplete(sessionId, STORAGE_FAILURE)]
      ensures impact.Damage().Incomplete(sessionId) && health.state.Failed? && shutdown.Requested()
      ensures Alarms() == Stopped(old(Alarms()), sessionId, "background_storage_failure", true,
                                  old(impact.Damage()).HasRoom(sessionId, impact.maxSessions))
      ensures metrics.storageFailures == old(metrics.storageFailures) + 1
    {
      assert StorageMarks(sessionId, |places| + 1) == StorageMarks(sessionId, |places|) + [MarkIncomplete(sessionId, STORAGE_FAILURE)];
      OneMoreDone(impact.ops, [MarkIncomplete(sessionId, STORAGE_FAILURE)], places, StorageMarks(sessionId, |places|));
      places := places + [|impact.ops|];
      metrics.RecordStorageFailure();
      health.Fail(STORAGE_FAILURE);
      MarkOrFail(health, impact, shutdown, metrics, sessionId, STORAGE_FAILURE);
      AskAndCount(health, impact, shutdown, metrics, STORAGE_FAILURE);
    }

    /** In every reachable state: after the k-th storage failure the session is incomplete unless it was cleared since. */
    lemma FailuresAreIncomplete(k: nat, requested: string)
      requires Valid() && k < |places| && DamageOp.Clear(sessionId) !in impact.ops[places[k] + 1..]
      ensures impact.Damage().TerminalStatus(sessionId, requested) == "incomplete"
    {
      impact.DamageIsKept(places[k], requested);
    }
  }
}
