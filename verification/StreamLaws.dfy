/** When the streamer cancels its producer, and what it says when it has no answer
    (generation/streamer.py). */
module StreamLaws {
  import opened Options
  import opened Streamer
  import opened StreamRuns

  /** Which frame a returned send adds in which phase. */
  predicate SendsIn(phase: ConsumerPhase, kind: FrameKind) {
    || (phase.Sending? && kind == TokenFrame(phase.token))
    || (phase.Finishing? && kind == Done)
    || (phase.Attributing? && kind == Attribution)
    || (phase.FollowingUp? && kind == FollowUps)
    || ((phase.Refusing? || phase.Reporting?) && kind == ErrorFrame)
  }

  /** A step adds at most one frame, that of the consumer's phase; a mandatory send adds it exactly if it
      returns, and marks it as delivered exactly if nothing was dropped. */
  lemma SendLaw(s: State, e: Event)
    requires Enabled(s, e)
    ensures var before, after := s.consumer, Step(s, e).consumer;
            if e.Send? && e.outcome != Raised then
              |after.frames| == |before.frames| + 1 && before.frames <= after.frames
              && SendsIn(before.phase, after.frames[|before.frames|].kind)
              && (after.frames[|before.frames|].delivered <==> e.outcome == Delivered)
            else if e.Extra? && e.attempt.Some? && e.attempt.value != Raised then
              |after.frames| == |before.frames| + 1 && before.frames <= after.frames
              && SendsIn(before.phase, after.frames[|before.frames|].kind)
              && (after.frames[|before.frames|].delivered <==> e.attempt.value == Delivered)
            else after.frames == before.frames
  {
  }

  /** The consumer has given up on an answer. */
  predicate GaveUp(phase: ConsumerPhase) {
    phase.Reporting? || phase.ReturnedNone?
  }

  ghost predicate CancelOk(s: State) {
    && (GaveUp(s.consumer.phase) ==> (s.consumer.cancelled <==> !s.producer.phase.Idle? && !s.consumer.closed))
    && (s.consumer.cancelled ==> GaveUp(s.consumer.phase) || s.consumer.phase.Killed?)
  }

  lemma CancelStep(s: State, e: Event)
    requires Inv(s) && CancelOk(s) && Enabled(s, e)
    ensures CancelOk(Step(s, e))
  {
    hide PutOk, QueueOk, FramesOk;
  }

  lemma {:induction false} CancelRun(s: State, es: seq<Event>)
    requires Inv(s) && CancelOk(s) && Run(s, es)
    ensures CancelOk(After(s, es))
    decreases |es|
  {
    if es != [] {
      hide Inv, Enabled, Step, CancelOk;
      InvStep(s, es[0]);
      CancelStep(s, es[0]);
      CancelRun(Step(s, es[0]), es[1..]);
    }
  }

  /** Once the consumer has given up on an answer, the cancel flag is set if and only if the producer was
      started and the consumer loop had not come to its end: so a failure in the loop always stops the
      producer. Nothing else sets the flag. */
  lemma CancelledIff(es: seq<Event>)
    requires Run(Initial(), es)
    ensures var s := After(Initial(), es);
            && (GaveUp(s.consumer.phase) ==> (s.consumer.cancelled <==> !s.producer.phase.Idle? && !s.consumer.closed))
            && (s.consumer.cancelled ==> GaveUp(s.consumer.phase) || s.consumer.phase.Killed?)
  {
    InitialInv();
    CancelRun(Initial(), es);
  }

  ghost predicate ReportedOk(s: State, raised: bool) {
    s.consumer.phase.ReturnedNone? && !raised ==>
      s.consumer.frames != [] && s.consumer.frames[|s.consumer.frames| - 1].kind == ErrorFrame
  }

  lemma ReportedStep(s: State, e: Event, raised: bool)
    requires Enabled(s, e) && ReportedOk(s, raised)
    ensures ReportedOk(Step(s, e), raised || e == Send(Raised))
  {
  }

  lemma {:induction false} ReportedRun(s: State, es: seq<Event>, raised: bool)
    requires Run(s, es) && ReportedOk(s, raised)
    ensures ReportedOk(After(s, es), raised || Send(Raised) in es)
    decreases |es|
  {
    if es != [] {
      ReportedStep(s, es[0], raised);
      hide Enabled, Step, ReportedOk;
      assert es == [es[0]] + es[1..];
      ReportedRun(Step(s, es[0]), es[1..], raised || es[0] == Send(Raised));
    }
  }

  /** A request that ends without an answer ends with an error frame, unless a send raised. */
  lemma NoAnswerIsReported(es: seq<Event>)
    requires Run(Initial(), es) && After(Initial(), es).consumer.phase.ReturnedNone? && Send(Raised) !in es
    ensures var frames := After(Initial(), es).consumer.frames;
            frames != [] && frames[|frames| - 1].kind == ErrorFrame
  {
    ReportedRun(Initial(), es, false);
  }
}
