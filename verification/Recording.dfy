/**
 * Recording captured events: tx_trade/market_data/sequencer.py, pipeline.py and
 * the fail-stop processor of ingress.py, first as steps on a value.  What the
 * mapper, the sink and the observer do in one attempt is part of the attempt.
 */
module Recording {
  import opened Wrappers
  import opened IngressQueues

  const MAX_INGEST_SEQUENCE: nat := 0x7FFF_FFFF_FFFF_FFFF

  datatype Envelope = Envelope(session: Id, generation: nat, sequence: nat, metadata: Id, ingestSequence: int)

  /** One popped event and how the collaborators answer it; None of an envelope stands for a raising or ill-typed mapper. */
  datatype Attempt = Attempt(
    event: Event, validates: bool, envelope: Option<Envelope>, sinkAccepts: bool, observerFails: bool)

  /** The sequences handed out, the envelopes the sink has taken, and whether the processor has halted. */
  datatype Recorder = Recorder(last: map<Id, nat>, delivered: seq<Envelope>, halted: bool)

  function NextSequence(last: map<Id, nat>, session: Id): nat {
    if session in last then last[session] + 1 else 0
  }

  /** The mapper kept every field it had to copy. */
  predicate Copies(envelope: Envelope, e: Event) {
    && envelope.session == e.session && envelope.generation == e.generation
    && envelope.sequence == e.sequence && envelope.metadata == e.metadata
  }

  predicate Delivers(last: map<Id, nat>, a: Attempt) {
    && a.validates
    && NextSequence(last, a.event.session) <= MAX_INGEST_SEQUENCE
    && a.envelope.Some?
    && a.envelope.value.ingestSequence == NextSequence(last, a.event.session)
    && Copies(a.envelope.value, a.event)
    && a.sinkAccepts
  }

  /** The sequence counters after an attempt: a sequence is used up even when a later stage fails. */
  function LastAfter(last: map<Id, nat>, a: Attempt): map<Id, nat> {
    if a.validates && NextSequence(last, a.event.session) <= MAX_INGEST_SEQUENCE
    then last[a.event.session := NextSequence(last, a.event.session)] else last
  }

  /** `process_one` on a popped event; a halted processor refuses. */
  function Process(r: Recorder, a: Attempt): Recorder {
    if r.halted then r
    else if Delivers(r.last, a)
    then Recorder(LastAfter(r.last, a), r.delivered + [a.envelope.value], a.observerFails)
    else Recorder(LastAfter(r.last, a), r.delivered, true)
  }

  function ProcessAll(attempts: seq<Attempt>): Recorder {
    if attempts == [] then Recorder(map[], [], false)
    else Process(ProcessAll(attempts[..|attempts| - 1]), attempts[|attempts| - 1])
  }

  /** The ingest sequences delivered for a session, in order. */
  function SequencesOf(delivered: seq<Envelope>, session: Id): seq<int> {
    if delivered == [] then []
    else
      var n := |delivered| - 1;
      SequencesOf(delivered[..n], session) + if delivered[n].session == session then [delivered[n].ingestSequence] else []
  }

  predicate CountsUp(s: seq<int>) {
    forall i :: 0 <= i < |s| ==> s[i] == i
  }

  lemma SequencesStep(delivered: seq<Envelope>, envelope: Envelope, session: Id)
    ensures SequencesOf(delivered + [envelope], session)
            == SequencesOf(delivered, session) + if envelope.session == session then [envelope.ingestSequence] else []
  {
    assert (delivered + [envelope])[..|delivered|] == delivered;
  }

  /** What every reachable recorder satisfies, session by session. */
  ghost predicate GapFree(r: Recorder) {
    forall session :: CountsUp(SequencesOf(r.delivered, session))
      && (!r.halted ==> |SequencesOf(r.delivered, session)| == NextSequence(r.last, session))
  }

  lemma ProcessKeepsGapFree(r: Recorder, a: Attempt)
    requires GapFree(r)
    ensures GapFree(Process(r, a))
  {
    if !r.halted && Delivers(r.last, a) {
      forall session
        ensures CountsUp(SequencesOf(Process(r, a).delivered, session))
        ensures |SequencesOf(Process(r, a).delivered, session)| == NextSequence(Process(r, a).last, session)
      {
        SequencesStep(r.delivered, a.envelope.value, session);
        assert |SequencesOf(r.delivered, session)| == NextSequence(r.last, session);
      }
    }
  }

  /**
   * Over all runs the envelopes delivered for a session carry the sequences
   * 0, 1, 2, ... without a gap, and they are those of the first events popped:
   * an event is missing only when the processor has halted at or before it.
   */
  lemma {:induction false} DeliveredWithoutGaps(attempts: seq<Attempt>)
    ensures GapFree(ProcessAll(attempts))
    ensures |ProcessAll(attempts).delivered| <= |attempts|
    ensures forall i :: 0 <= i < |ProcessAll(attempts).delivered| ==> Copies(ProcessAll(attempts).delivered[i], attempts[i].event)
    ensures |ProcessAll(attempts).delivered| < |attempts| ==> ProcessAll(attempts).halted
  {
    if attempts != [] {
      var n := |attempts| - 1;
      DeliveredWithoutGaps(attempts[..n]);
      ProcessKeepsGapFree(ProcessAll(attempts[..n]), attempts[n]);
    }
  }

  /** The first failure is final: from then on nothing is delivered. */
  lemma {:induction false} HaltIsFinal(attempts: seq<Attempt>, more: seq<Attempt>)
    requires ProcessAll(attempts).halted
    ensures ProcessAll(attempts + more) == ProcessAll(attempts)
  {
    if more == [] {
      assert attempts + more == attempts;
    } else {
      var n := |more| - 1;
      assert (attempts + more)[..|attempts + more| - 1] == attempts + more[..n];
      HaltIsFinal(attempts, more[..n]);
    }
  }

  // ---- Which attempts deliver -------------------------------------------------------------

  /** How many of the first n attempts were for a session. */
  function Earlier(attempts: seq<Attempt>, n: nat, session: Id): nat
    requires n <= |attempts|
  {
    if n == 0 then 0 else Earlier(attempts, n - 1, session) + if attempts[n - 1].event.session == session then 1 else 0
  }

  /**
   * Nothing is wrong with the attempt itself: the event is valid, its session
   * still has a sequence, the mapper put exactly that one and the event's own
   * fields into an envelope, and the sink took it.
   */
  predicate Passes(attempts: seq<Attempt>, i: nat)
    requires i < |attempts|
  {
    var a, e := attempts[i], attempts[i].event;
    var next := Earlier(attempts, i, e.session);
    && a.validates && a.sinkAccepts && next <= 0x7FFF_FFFF_FFFF_FFFF
    && a.envelope == Some(Envelope(e.session, e.generation, e.sequence, e.metadata, next))
  }

  /** All of the first n attempts went well, and the observer took each. */
  predicate AllWell(attempts: seq<Attempt>, n: nat)
    requires n <= |attempts|
  {
    forall j :: 0 <= j < n ==> Passes(attempts, j) && !attempts[j].observerFails
  }

  /** The recorder after some attempts, in terms of these alone. */
  ghost predicate Recorded(attempts: seq<Attempt>, r: Recorder) {
    && (r.halted <==> !AllWell(attempts, |attempts|))
    && (forall i :: 0 <= i < |attempts| ==> (i < |r.delivered| <==> AllWell(attempts, i) && Passes(attempts, i)))
    && |r.delivered| <= |attempts|
    && (forall i :: 0 <= i < |r.delivered| ==> Some(r.delivered[i]) == attempts[i].envelope)
    && (!r.halted ==> forall session :: NextSequence(r.last, session) == Earlier(attempts, |attempts|, session))
  }

  lemma EarlierInPrefix(attempts: seq<Attempt>, n: nat, k: nat, session: Id)
    requires k <= n <= |attempts|
    ensures Earlier(attempts[..n], k, session) == Earlier(attempts, k, session)
  {
    if k > 0 {
      EarlierInPrefix(attempts, n, k - 1, session);
    }
  }

  lemma PassesInPrefix(attempts: seq<Attempt>, n: nat, i: nat)
    requires i < n <= |attempts|
    ensures Passes(attempts[..n], i) <==> Passes(attempts, i)
  {
    EarlierInPrefix(attempts, n, i, attempts[i].event.session);
  }

  /** The last attempt delivers, before a halt, exactly when it passes. */
  lemma DeliversExactly(attempts: seq<Attempt>, last: map<Id, nat>)
    requires attempts != []
    requires var n := |attempts| - 1;
             NextSequence(last, attempts[n].event.session) == Earlier(attempts, n, attempts[n].event.session)
    ensures Delivers(last, attempts[|attempts| - 1]) <==> Passes(attempts, |attempts| - 1)
  {
  }

  lemma OneMoreRecorded(attempts: seq<Attempt>, before: Recorder)
    requires attempts != [] && Recorded(attempts[..|attempts| - 1], before)
    ensures Recorded(attempts, Process(before, attempts[|attempts| - 1]))
  {
    var n := |attempts| - 1;
    var earlier, a := attempts[..n], attempts[n];
    forall i | 0 <= i < n ensures Passes(earlier, i) <==> Passes(attempts, i) {
      PassesInPrefix(attempts, n, i);
    }
    forall k | 0 <= k <= n ensures AllWell(earlier, k) <==> AllWell(attempts, k) {
    }
    forall session ensures Earlier(earlier, n, session) == Earlier(attempts, n, session) {
      EarlierInPrefix(attempts, n, n, session);
    }
    if before.halted {
      assert !AllWell(attempts, n);
    } else {
      if n > 0 {
        assert AllWell(earlier, n - 1) && Passes(earlier, n - 1);
      }
      RecordsOneMore(attempts, before);
    }
  }

  /** While nothing has failed every attempt has delivered, and so does the next one if it passes. */
  lemma RecordsOneMore(attempts: seq<Attempt>, before: Recorder)
    requires attempts != [] && !before.halted && |before.delivered| == |attempts| - 1 && AllWell(attempts, |attempts| - 1)
    requires DeliveredFirst(attempts, before.delivered)
    requires forall session :: NextSequence(before.last, session) == Earlier(attempts, |attempts| - 1, session)
    ensures Recorded(attempts, Process(before, attempts[|attempts| - 1]))
  {
    var n := |attempts| - 1;
    DeliversExactly(attempts, before.last);
    WellSoFar(attempts);
    if Passes(attempts, n) {
      NextCounters(attempts, before.last);
      PassIsRecorded(attempts, before.delivered, Process(before, attempts[n]));
    } else {
      FailureIsRecorded(attempts, Process(before, attempts[n]));
    }
  }

  /** The first attempts have all delivered what their mappers made. */
  predicate DeliveredFirst(attempts: seq<Attempt>, delivered: seq<Envelope>) {
    && |delivered| <= |attempts|
    && forall i :: 0 <= i < |delivered| ==> Some(delivered[i]) == attempts[i].envelope
  }

  lemma {:induction false} PassIsRecorded(attempts: seq<Attempt>, delivered: seq<Envelope>, r: Recorder)
    requires attempts != [] && Passes(attempts, |attempts| - 1) && DeliveredFirst(attempts, delivered) && |delivered| == |attempts| - 1
    requires forall i :: 0 <= i < |attempts| - 1 ==> AllWell(attempts, i) && Passes(attempts, i)
    requires AllWell(attempts, |attempts| - 1)
    requires r.halted <==> !AllWell(attempts, |attempts|)
    requires r.delivered == delivered + [attempts[|attempts| - 1].envelope.value]
    requires forall session :: NextSequence(r.last, session) == Earlier(attempts, |attempts|, session)
    ensures Recorded(attempts, r)
  {
  }

  lemma {:induction false} FailureIsRecorded(attempts: seq<Attempt>, r: Recorder)
    requires attempts != [] && !Passes(attempts, |attempts| - 1) && DeliveredFirst(attempts, r.delivered)
    requires |r.delivered| == |attempts| - 1 && r.halted
    requires forall i :: 0 <= i < |attempts| - 1 ==> AllWell(attempts, i) && Passes(attempts, i)
    requires !AllWell(attempts, |attempts|)
    ensures Recorded(attempts, r)
  {
  }

  lemma WellSoFar(attempts: seq<Attempt>)
    requires attempts != [] && AllWell(attempts, |attempts| - 1)
    ensures forall i :: 0 <= i < |attempts| - 1 ==> AllWell(attempts, i) && Passes(attempts, i)
    ensures AllWell(attempts, |attempts|) <==> Passes(attempts, |attempts| - 1) && !attempts[|attempts| - 1].observerFails
  {
  }

  lemma NextCounters(attempts: seq<Attempt>, last: map<Id, nat>)
    requires attempts != [] && Passes(attempts, |attempts| - 1)
    requires forall session :: NextSequence(last, session) == Earlier(attempts, |attempts| - 1, session)
    ensures forall session :: NextSequence(LastAfter(last, attempts[|attempts| - 1]), session) == Earlier(attempts, |attempts|, session)
  {
    var n := |attempts| - 1;
    var mine := attempts[n].event.session;
    assert NextSequence(last, mine) == Earlier(attempts, n, mine);
    forall session ensures NextSequence(LastAfter(last, attempts[n]), session) == Earlier(attempts, |attempts|, session) {
      assert NextSequence(last, session) == Earlier(attempts, n, session);
    }
  }

  /**
   * Over all runs: exactly the attempts up to the first one that does not pass
   * deliver, as far as no observer failed before, and each delivers the
   * envelope its mapper made; the recorder has halted exactly when one of them
   * did not go well.
   */
  lemma {:induction false} DeliveredExactly(attempts: seq<Attempt>)
    ensures Recorded(attempts, ProcessAll(attempts))
  {
    if attempts != [] {
      DeliveredExactly(attempts[..|attempts| - 1]);
      OneMoreRecorded(attempts, ProcessAll(attempts[..|attempts| - 1]));
    }
  }
}
