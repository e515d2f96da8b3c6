/** The bridge can always be brought to a drained exit, except when what it is sending cannot be sent. */
module BridgeProgress {
  import opened Bridge

  // ----- what else holds in every state

  /** Whoever waits for the writer is being written for. */
  predicate Attended(s: State) {
    && (s.forwarder.AwaitingWrite? && !s.forwarder.done ==>
          s.writer.Writing? && s.writer.entry == Forwarded(s.forwarder.out))
    && (s.reader.AwaitingReport? && !s.reader.done ==>
          s.writer.Writing? && s.writer.entry == Report(s.reader.frame))
  }

  predicate RejectionsFit(c: Config) {
    forall i :: 0 <= i < |c.script| && c.script[i].Rejection? ==> |c.script[i].frame| <= c.maximum
  }

  predicate ReportFits(c: Config, s: State) {
    s.reader.Reporting? ==> |s.reader.frame| <= c.maximum
  }

  lemma {:induction false} AttendedStep(c: Config, s: State, step: Step)
    requires Attended(s) && WriterHolds(s)
    ensures Attended(Apply(c, s, step))
  {
  }

  lemma {:induction false} ReportFitsStep(c: Config, s: State, step: Step)
    requires RejectionsFit(c) && ReportFits(c, s)
    ensures ReportFits(c, Apply(c, s, step))
  {
  }

  /** All that the schedule below relies on. */
  ghost predicate Lively(c: Config, s: State) {
    Counted(s) && Tracked(c, s) && Waits(c, s) && WriterHolds(s) && Attended(s) && ReportFits(c, s)
  }

  lemma {:induction false} LivelyStep(c: Config, s: State, step: Step)
    requires RejectionsFit(c) && Lively(c, s)
    ensures Lively(c, Apply(c, s, step))
  {
    hide Counted, Tracked, Waits, WriterHolds, Attended, ReportFits, Apply;
    CountedStep(c, s, step);
    TrackedStep(c, s, step);
    WaitsStep(c, s, step);
    WriterHoldsStep(c, s, step);
    AttendedStep(c, s, step);
    ReportFitsStep(c, s, step);
  }

  lemma {:induction false} LivelyRun(c: Config, steps: seq<Step>)
    requires RejectionsFit(c)
    ensures Lively(c, Run(c, steps))
  {
    if steps != [] {
      LivelyRun(c, steps[..|steps| - 1]);
      LivelyStep(c, Run(c, steps[..|steps| - 1]), steps[|steps| - 1]);
    }
  }

  // ----- what can stand in the way

  /** The forwarder holds a message above the limit, which the writer will refuse. */
  predicate Stuck(c: Config, s: State) {
    s.forwarder.Sending? && |s.forwarder.out.payload| > c.maximum
  }

  /** A response is outstanding, or will be. */
  predicate Owes(c: Config, s: State) {
    s.tracker.pending > 0 || exists i :: s.next <= i < |c.script| && c.script[i].Request?
  }

  predicate CanDrain(c: Config, s: State) {
    c.drain ==> !Stuck(c, s) || !Owes(c, s)
  }

  // ----- a schedule that gets there

  function FirstOpen(requests: seq<Status>): (id: nat)
    ensures id <= |requests| && (id < |requests| ==> requests[id] == Open)
    ensures forall j :: 0 <= j < id ==> requests[j] != Open
  {
    if requests == [] || requests[0] == Open then 0 else 1 + FirstOpen(requests[1..])
  }

  function NextStep(c: Config, s: State): Step
    requires WriterHolds(s)
  {
    if s.writer.Writing? then Write(|Frame(s.writer.entry)| - s.writer.offset)
    else if s.forwarder.AwaitingWrite? then ForwarderResumes
    else if s.reader.AwaitingReport? then ReaderResumes
    else if s.forwarder.Sending? && !Stuck(c, s) then TakeForwarded
    else if s.reader.Reporting? then TakeReport
    else if s.reader.Offering? then Receive
    else if s.forwarder.Receiving? && FirstOpen(s.requests) < |s.requests| then
      Send(Response(FirstOpen(s.requests), []))
    else if s.reader.Reading? then ReadNext
    else DrainObserved
  }

  function Unanswered(requests: seq<Status>): nat {
    if requests == [] then 0
    else Unanswered(requests[..|requests| - 1]) + if requests[|requests| - 1] in {Offered, Open} then 1 else 0
  }

  /** How far each coroutine is from resting. */
  function Phase(s: State): nat {
    (match s.reader
     case Reading => 2
     case Offering(_) => 3
     case Reporting(_) => 8
     case AwaitingReport(_, done) => if done then 4 else 5
     case AwaitingDrain(_) => 1
     case Exited(_) => 0)
    + (match s.forwarder
       case Receiving => 0
       case Sending(_) => 4
       case AwaitingWrite(_, done) => if done then 1 else 2)
    + if s.writer.Writing? then 1 else 0
  }

  lemma {:induction false} UnansweredUpdate(requests: seq<Status>, id: nat, status: Status)
    requires id < |requests|
    ensures Unanswered(requests[id := status])
            == Unanswered(requests) - (if requests[id] in {Offered, Open} then 1 else 0)
               + if status in {Offered, Open} then 1 else 0
  {
    var n := |requests| - 1;
    if id < n {
      UnansweredUpdate(requests[..n], id, status);
      assert requests[id := status][..n] == requests[..n][id := status];
    } else {
      assert requests[id := status][..n] == requests[..n];
    }
  }

  /** Earlier in the lexicographic order of input left, requests unanswered, and phase. */
  predicate Closer(c: Config, t: State, s: State) {
    && s.next <= t.next <= |c.script|
    && (s.next < t.next || Unanswered(t.requests) < Unanswered(s.requests)
        || (Unanswered(t.requests) == Unanswered(s.requests) && Phase(t) < Phase(s)))
  }

  /** The scheduled step is enabled, brings the exit closer, and breaks nothing. */
  lemma {:induction false} StepForward(c: Config, s: State)
    requires Lively(c, s) && c.ending.AtEof? && !s.failed && !s.reader.Exited? && CanDrain(c, s)
    ensures
      var t := Apply(c, s, NextStep(c, s));
      && !t.failed && (t.reader.Exited? ==> t.reader == Exited(Drained)) && CanDrain(c, t) && Closer(c, t, s)
  {
    match NextStep(c, s)
    case Write(_) => StepWrite(c, s);
    case ForwarderResumes => StepForwarder(c, s);
    case Receive => StepReceive(c, s);
    case Send(_) => StepSend(c, s);
    case ReadNext => StepRead(c, s);
    case DrainObserved => StepDrain(c, s);
    case _ => StepTake(c, s);
  }

  lemma {:induction false} StepWrite(c: Config, s: State)
    requires Lively(c, s) && !s.failed && !s.reader.Exited? && CanDrain(c, s) && NextStep(c, s).Write?
    ensures
      var t := Apply(c, s, NextStep(c, s));
      !t.failed && !t.reader.Exited? && CanDrain(c, t) && Closer(c, t, s)
  {
    hide Tracked, Unanswered;
    var out := s.writer.entry;
    if out.Forwarded? && out.out.Response? { UnansweredUpdate(s.requests, out.out.id, Written); }
  }

  lemma {:induction false} StepForwarder(c: Config, s: State)
    requires Lively(c, s) && !s.failed && !s.reader.Exited? && CanDrain(c, s) && NextStep(c, s).ForwarderResumes?
    ensures
      var t := Apply(c, s, NextStep(c, s));
      !t.failed && !t.reader.Exited? && CanDrain(c, t) && Closer(c, t, s)
  {
    hide Tracked, Unanswered;
    if s.forwarder.out.Response? { UnansweredUpdate(s.requests, s.forwarder.out.id, Acknowledged); }
  }

  lemma {:induction false} StepReceive(c: Config, s: State)
    requires Lively(c, s) && !s.failed && !s.reader.Exited? && CanDrain(c, s) && NextStep(c, s).Receive?
    ensures
      var t := Apply(c, s, NextStep(c, s));
      !t.failed && !t.reader.Exited? && CanDrain(c, t) && Closer(c, t, s)
  {
    hide Tracked, Unanswered;
    if s.reader.request.Some? { UnansweredUpdate(s.requests, s.reader.request.value, Open); }
  }

  lemma {:induction false} StepSend(c: Config, s: State)
    requires Lively(c, s) && !s.failed && !s.reader.Exited? && CanDrain(c, s) && NextStep(c, s).Send?
    ensures
      var t := Apply(c, s, NextStep(c, s));
      !t.failed && !t.reader.Exited? && CanDrain(c, t) && Closer(c, t, s)
  {
    hide Tracked, Unanswered;
    UnansweredUpdate(s.requests, FirstOpen(s.requests), InFlight);
  }

  lemma {:induction false} StepTake(c: Config, s: State)
    requires Lively(c, s) && !s.failed && !s.reader.Exited? && CanDrain(c, s)
    requires var step := NextStep(c, s); step.TakeForwarded? || step.TakeReport? || step.ReaderResumes?
    ensures
      var t := Apply(c, s, NextStep(c, s));
      !t.failed && !t.reader.Exited? && CanDrain(c, t) && Closer(c, t, s)
  {
    hide Counted, Tracked;
  }

  lemma {:induction false} StepRead(c: Config, s: State)
    requires Lively(c, s) && c.ending.AtEof? && !s.failed && CanDrain(c, s) && NextStep(c, s).ReadNext?
    ensures
      var t := Apply(c, s, NextStep(c, s));
      && !t.failed && (t.reader.Exited? ==> t.reader == Exited(Drained)) && CanDrain(c, t) && Closer(c, t, s)
  {
    hide Counted, Unanswered;
  }

  lemma {:induction false} StepDrain(c: Config, s: State)
    requires Lively(c, s) && !s.failed && !s.reader.Exited? && CanDrain(c, s) && NextStep(c, s).DrainObserved?
    ensures
      var t := Apply(c, s, NextStep(c, s));
      !t.failed && t.reader == Exited(Drained) && CanDrain(c, t) && Closer(c, t, s)
  {
    if !Stuck(c, s) {
      forall id | 0 <= id < |s.requests| ensures s.requests[id] == Acknowledged {
        assert Holds(s, id, s.requests[id]);
      }
    }
    NoneUnacknowledged(s.requests);
  }

  // ----- the main results

  ghost predicate ReachesDrained(c: Config, steps: seq<Step>) {
    exists more: seq<Step> :: !Run(c, steps + more).failed && Run(c, steps + more).reader == Exited(Drained)
  }

  lemma {:induction false} ReachesBefore(c: Config, steps: seq<Step>, step: Step)
    requires ReachesDrained(c, steps + [step])
    ensures ReachesDrained(c, steps)
  {
    hide Run;
    var next := steps + [step];
    var more: seq<Step> :| !Run(c, next + more).failed && Run(c, next + more).reader == Exited(Drained);
    assert next + more == steps + ([step] + more);
  }

  lemma {:induction false} ReachedNow(c: Config, steps: seq<Step>)
    requires !Run(c, steps).failed && Run(c, steps).reader == Exited(Drained)
    ensures ReachesDrained(c, steps)
  {
    assert steps + [] == steps;
  }

  lemma {:induction false} RunForward(c: Config, steps: seq<Step>) returns (step: Step)
    requires RejectionsFit(c) && c.ending.AtEof?
    requires !Run(c, steps).failed && !Run(c, steps).reader.Exited? && CanDrain(c, Run(c, steps))
    ensures
      var t := Run(c, steps + [step]);
      !t.failed && (t.reader.Exited? ==> t.reader == Exited(Drained)) && CanDrain(c, t) && Closer(c, t, Run(c, steps))
  {
    LivelyRun(c, steps);
    var s := Run(c, steps);
    assert WriterHolds(s);
    hide *;
    step := NextStep(c, s);
    StepForward(c, s);
    OneMoreStep(c, steps, step);
  }

  lemma {:induction false} DrainReachable(c: Config, steps: seq<Step>)
    requires RejectionsFit(c) && c.ending.AtEof?
    requires !Run(c, steps).failed && !Run(c, steps).reader.Exited? && CanDrain(c, Run(c, steps))
    ensures ReachesDrained(c, steps)
    decreases |c.script| - Run(c, steps).next, Unanswered(Run(c, steps).requests), Phase(Run(c, steps))
  {
    var step := RunForward(c, steps);
    hide CanDrain, Unanswered, Phase, Run, ReachesDrained;
    var next := steps + [step];
    if Run(c, next).reader.Exited? {
      ReachedNow(c, next);
    } else {
      DrainReachable(c, next);
    }
    ReachesBefore(c, steps, step);
  }

  lemma {:induction false} StuckStep(c: Config, s: State, step: Step)
    requires c.drain && Lively(c, s) && (s.failed || (Stuck(c, s) && Owes(c, s)))
    ensures
      var t := Apply(c, s, step);
      t.failed || (Stuck(c, t) && Owes(c, t))
  {
    hide Counted;
    if !s.failed && s.tracker.pending == 0 {
      var i :| s.next <= i < |c.script| && c.script[i].Request?;
      assert s.next < i ==> s.next + 1 <= i < |c.script| && c.script[i].Request?;
    }
  }

  /** Once stuck with something owed, the bridge stays so until it fails. */
  lemma {:induction false} StaysStuck(c: Config, steps: seq<Step>, more: seq<Step>)
    requires c.drain && RejectionsFit(c) && Stuck(c, Run(c, steps)) && Owes(c, Run(c, steps))
    ensures
      var t := Run(c, steps + more);
      t.failed || (Stuck(c, t) && Owes(c, t))
  {
    hide *;
    if more == [] {
      assert steps + more == steps;
    } else {
      var n := |more| - 1;
      StaysStuck(c, steps, more[..n]);
      assert steps + more == (steps + more[..n]) + [more[n]];
      OneMoreStep(c, steps + more[..n], more[n]);
      LivelyRun(c, steps + more[..n]);
      StuckStep(c, Run(c, steps + more[..n]), more[n]);
    }
  }

  /**
   * From any state a run has reached, unfailed and before the exit, some continuation ends in the drained exit if and
   * only if the forwarder does not hold an oversized message while a response is owed.
   */
  lemma {:induction false} DrainReachableIff(c: Config, steps: seq<Step>)
    requires RejectionsFit(c) && c.ending.AtEof?
    requires !Run(c, steps).failed && !Run(c, steps).reader.Exited?
    ensures ReachesDrained(c, steps) <==> CanDrain(c, Run(c, steps))
  {
    if CanDrain(c, Run(c, steps)) {
      DrainReachable(c, steps);
    } else if more: seq<Step> :| !Run(c, steps + more).failed && Run(c, steps + more).reader == Exited(Drained) {
      StaysStuck(c, steps, more);
      LivelyRun(c, steps + more);
    }
  }
}
