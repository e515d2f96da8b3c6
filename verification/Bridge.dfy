/** The bridge while it runs: reader, application, forwarder and writer, interleaved step by step. */
module Bridge {
  import opened Common
  import opened Frames
  import opened ErrorFrames
  import opened Lines
  import opened DrainTracker
  import StdioReader

  // ---- State ----------------------------------------------------------------------------------

  /** What the reader will do with the input, in order: the events its framing yields. */
  datatype Item = Request | Notification | Rejection(frame: bytes)

  /** What the application sends. Requests are named by the order in which they were counted. */
  datatype Out = Response(id: nat, payload: bytes) | Notice(payload: bytes)

  datatype Entry = Report(payload: bytes) | Forwarded(out: Out)

  datatype Exit = Drained | TimedOut | Oversized

  datatype ReaderState =
    | Reading
    | Offering(request: Option<nat>)
    | Reporting(frame: bytes)
    | AwaitingReport(frame: bytes, done: bool)
    | AwaitingDrain(serial: nat)
    | Exited(exit: Exit)

  datatype ForwarderState = Receiving | Sending(out: Out) | AwaitingWrite(out: Out, done: bool)

  datatype WriterState = Free | Writing(entry: Entry, offset: nat)

  /** Where one counted request stands. */
  datatype Status = Offered | Open | InFlight | Written | Acknowledged

  datatype Config = Config(script: seq<Item>, ending: StdioReader.Ending, maximum: nat, drain: bool)

  datatype State = State(
    next: nat,
    reader: ReaderState,
    tracker: Tracking,
    requests: seq<Status>,
    forwarder: ForwarderState,
    writer: WriterState,
    stdout: bytes,
    log: seq<Entry>,
    accepted: seq<Out>,
    failed: bool)

  function Start(c: Config): State {
    State(0, Reading, Fresh(c.drain), [], Receiving, Free, [], [], [], false)
  }

  function Payload(e: Entry): bytes {
    match e
    case Report(payload) => payload
    case Forwarded(out) => out.payload
  }

  function Frame(e: Entry): bytes {
    Payload(e) + [LF]
  }

  // ---- Steps ----------------------------------------------------------------------------------

  /** One task runs up to its next suspension point, or one system call moves some bytes. */
  datatype Step =
    | ReadNext
    | Receive
    | Send(out: Out)
    | TakeForwarded
    | TakeReport
    | Write(count: nat)
    | ForwarderResumes
    | ReaderResumes
    | DrainObserved
    | DrainTimeout
    | Failure

  predicate Enabled(c: Config, s: State, step: Step) {
    !s.failed && match step
    case ReadNext => s.reader.Reading?
    case Receive => s.reader.Offering?
    case Send(out) => s.forwarder.Receiving? && (out.Response? ==> out.id < |s.requests| && s.requests[out.id] == Open)
    case TakeForwarded => s.writer.Free? && s.forwarder.Sending?
    case TakeReport => s.writer.Free? && s.reader.Reporting?
    case Write(count) => s.writer.Writing? && 0 < count && s.writer.offset + count <= |Frame(s.writer.entry)|
    case ForwarderResumes => s.forwarder.AwaitingWrite? && s.forwarder.done
    case ReaderResumes => s.reader.AwaitingReport? && s.reader.done
    case DrainObserved => s.reader.AwaitingDrain? && s.tracker.drained == Event(s.reader.serial, true)
    case DrainTimeout => s.reader.AwaitingDrain?
    case Failure => true
  }

  function ReadStep(c: Config, s: State): State
    requires s.reader.Reading?
  {
    if s.next < |c.script| then
      var s1 := s.(next := s.next + 1);
      match c.script[s.next]
      case Request =>
        s1.(tracker := Started(s.tracker), requests := s.requests + [Offered], reader := Offering(Some(|s.requests|)))
      case Notification => s1.(reader := Offering(None))
      case Rejection(frame) => s1.(reader := Reporting(frame))
    else match c.ending
      case AtEof => s.(reader := if MustWait(s.tracker) then AwaitingDrain(s.tracker.drained.serial)
          else Exited(Drained))
      case TooLarge => s.(reader := Exited(Oversized))
      case Failed(_) => s.(failed := true)
  }

  function Mark(s: State, id: nat, status: Status): State {
    if id < |s.requests| then s.(requests := s.requests[id := status]) else s
  }

  function SendStep(s: State, out: Out): State {
    if LF in out.payload || CR in out.payload then s.(failed := true)
    else
      var s1 := if out.Response? then Mark(s, out.id, InFlight) else s;
      s1.(forwarder := Sending(out), accepted := s.accepted + [out])
  }

  /** The writer moves bytes; the last byte of a frame completes the item and wakes its owner. */
  function WriteStep(s: State, count: nat): State
    requires s.writer.Writing? && s.writer.offset + count <= |Frame(s.writer.entry)|
  {
    var entry, frame, end := s.writer.entry, Frame(s.writer.entry), s.writer.offset + count;
    var s1 := s.(stdout := s.stdout + frame[s.writer.offset..end]);
    if end < |frame| then s1.(writer := Writing(entry, end))
    else
      var s2 := s1.(writer := Free, log := s.log + [entry]);
      if entry.Report? then
        if s.reader.AwaitingReport? then s2.(reader := s.reader.(done := true)) else s2
      else
        var s3 := if entry.out.Response? then Mark(s2, entry.out.id, Written) else s2;
        if s.forwarder.AwaitingWrite? then s3.(forwarder := s.forwarder.(done := true)) else s3
  }

  function Apply(c: Config, s: State, step: Step): State {
    if !Enabled(c, s, step) then s
    else match step
    case ReadNext => ReadStep(c, s)
    case Receive =>
      var s1 := s.(reader := Reading);
      if s.reader.request.Some? then Mark(s1, s.reader.request.value, Open) else s1
    case Send(out) => SendStep(s, out)
    case TakeForwarded =>
      if |s.forwarder.out.payload| > c.maximum then s.(failed := true)
      else s.(writer := Writing(Forwarded(s.forwarder.out), 0), forwarder := AwaitingWrite(s.forwarder.out, false))
    case TakeReport =>
      if |s.reader.frame| > c.maximum then s.(failed := true)
      else s.(writer := Writing(Report(s.reader.frame), 0), reader := AwaitingReport(s.reader.frame, false))
    case Write(count) => WriteStep(s, count)
    case ForwarderResumes =>
      var s1 := s.(forwarder := Receiving);
      if s.forwarder.out.Response?
      then Mark(s1.(tracker := Finished(s.tracker)), s.forwarder.out.id, Acknowledged) else s1
    case ReaderResumes => s.(reader := Reading)
    case DrainObserved => s.(reader := Exited(Drained))
    case DrainTimeout => s.(reader := Exited(TimedOut))
    case Failure => s.(failed := true)
  }

  function Run(c: Config, steps: seq<Step>): State {
    if steps == [] then Start(c) else Apply(c, Run(c, steps[..|steps| - 1]), steps[|steps| - 1])
  }

  // ---- What holds in every state ----------------------------------------------------------------

  function Unacknowledged(requests: seq<Status>): nat {
    if requests == [] then 0
    else Unacknowledged(requests[..|requests| - 1]) + if requests[|requests| - 1] == Acknowledged then 0 else 1
  }

  /** A request is offered, in flight or written only while the coroutine that made it so is holding it. */
  predicate Holds(s: State, id: nat, status: Status) {
    match status
    case Offered => s.reader == Offering(Some(id))
    case Open => true
    case InFlight =>
      || (s.forwarder.Sending? && s.forwarder.out.Response? && s.forwarder.out.id == id)
      || (s.forwarder.AwaitingWrite? && !s.forwarder.done && s.forwarder.out.Response? && s.forwarder.out.id == id)
    case Written => s.forwarder.AwaitingWrite? && s.forwarder.done && s.forwarder.out.Response?
        && s.forwarder.out.id == id
    case Acknowledged => true
  }

  predicate Counted(s: State) {
    && (forall id :: 0 <= id < |s.requests| ==> Holds(s, id, s.requests[id]))
    && (s.reader.Offering? && s.reader.request.Some? ==>
         s.reader.request.value < |s.requests| && s.requests[s.reader.request.value] == Offered)
    && (s.forwarder.Sending? && s.forwarder.out.Response? ==>
         s.forwarder.out.id < |s.requests| && s.requests[s.forwarder.out.id] == InFlight)
    && (s.forwarder.AwaitingWrite? && s.forwarder.out.Response? ==>
         && s.forwarder.out.id < |s.requests|
         && s.requests[s.forwarder.out.id] == if s.forwarder.done then Written else InFlight)
  }

  /** The counter and the event agree with the requests. */
  predicate Tracked(c: Config, s: State) {
    && s.tracker.enabled == c.drain && (!c.drain ==> s.tracker == Fresh(false))
    && (c.drain ==>
         && s.tracker.pending == Unacknowledged(s.requests)
         && (s.tracker.drained.NoEvent? ==> s.requests == [])
         && (s.tracker.drained.Event? ==> (s.tracker.drained.isSet <==> s.tracker.pending == 0)))
  }

  /** A reader at end of input waits on the live event, and leaves drained only when nothing is pending. */
  predicate Waits(c: Config, s: State) {
    && (s.reader.AwaitingDrain? ==> c.drain && s.tracker.drained.Event? && s.tracker.drained.serial == s.reader.serial)
    && (s.reader == Exited(Drained) && c.drain ==> s.tracker.pending == 0)
    && (s.reader.AwaitingDrain? || s.reader.Exited? ==> s.next == |c.script|)
    && s.next <= |c.script|
  }

  lemma {:induction false} UnacknowledgedUpdate(requests: seq<Status>, id: nat, status: Status)
    requires id < |requests|
    ensures Unacknowledged(requests[id := status]) ==
      Unacknowledged(requests) - (if requests[id] == Acknowledged then 0 else 1)
          + (if status == Acknowledged then 0 else 1)
  {
    var n := |requests| - 1;
    if id < n {
      UnacknowledgedUpdate(requests[..n], id, status);
      assert requests[id := status][..n] == requests[..n][id := status];
    } else {
      assert requests[id := status][..n] == requests[..n];
    }
  }

  lemma {:induction false} NoneUnacknowledged(requests: seq<Status>)
    ensures Unacknowledged(requests) == 0 <==> forall id :: 0 <= id < |requests| ==> requests[id] == Acknowledged
  {
    if requests != [] {
      NoneUnacknowledged(requests[..|requests| - 1]);
    }
  }

  /** The item being written belongs to the coroutine that is waiting for it. */
  predicate WriterHolds(s: State) {
    s.writer.Writing? ==>
      && s.writer.offset < |Frame(s.writer.entry)|
      && match s.writer.entry
         case Report(frame) => s.reader == AwaitingReport(frame, false)
         case Forwarded(out) => s.forwarder == AwaitingWrite(out, false)
  }

  lemma {:induction false} WriterHoldsStep(c: Config, s: State, step: Step)
    requires WriterHolds(s)
    ensures WriterHolds(Apply(c, s, step))
  {
  }

  lemma {:induction false} CountedRead(c: Config, s: State)
    requires Counted(s) && s.reader.Reading?
    ensures Counted(ReadStep(c, s))
  {
  }

  lemma {:induction false} CountedSend(s: State, out: Out)
    requires Counted(s) && s.forwarder.Receiving?
    requires out.Response? ==> out.id < |s.requests| && s.requests[out.id] == Open
    ensures Counted(SendStep(s, out))
  {
  }

  lemma {:induction false} CountedWrite(c: Config, s: State, count: nat)
    requires Counted(s) && WriterHolds(s) && Enabled(c, s, Write(count))
    ensures Counted(WriteStep(s, count))
  {
  }

  lemma {:induction false} CountedStep(c: Config, s: State, step: Step)
    requires Counted(s) && WriterHolds(s)
    ensures Counted(Apply(c, s, step))
  {
    if Enabled(c, s, step) {
      match step
      case ReadNext => CountedRead(c, s);
      case Send(out) => CountedSend(s, out);
      case Write(count) => CountedWrite(c, s, count);
      case _ =>
    }
  }

  /** Reading a request adds one to what is owed, acknowledging a response takes one away. */
  lemma {:induction false} OwedStep(c: Config, s: State, step: Step)
    requires Counted(s) && WriterHolds(s)
    ensures var s' := Apply(c, s, step);
      Unacknowledged(s'.requests) == Unacknowledged(s.requests)
        + (if Enabled(c, s, step) && step.ReadNext? && s.next < |c.script| && c.script[s.next].Request? then 1 else 0)
        - (if Enabled(c, s, step) && step.ForwarderResumes? && s.forwarder.out.Response? then 1 else 0)
  {
    if Enabled(c, s, step) {
      match step
      case ReadNext =>
        assert (s.requests + [Offered])[..|s.requests|] == s.requests;
      case Receive =>
        if s.reader.request.Some? { UnacknowledgedUpdate(s.requests, s.reader.request.value, Open); }
      case Send(out) =>
        if out.Response? { UnacknowledgedUpdate(s.requests, out.id, InFlight); }
      case Write(count) =>
        if s.writer.entry.Forwarded? && s.writer.entry.out.Response? {
          UnacknowledgedUpdate(s.requests, s.writer.entry.out.id, Written);
        }
      case ForwarderResumes =>
        if s.forwarder.out.Response? { UnacknowledgedUpdate(s.requests, s.forwarder.out.id, Acknowledged); }
      case _ =>
    }
  }

  lemma {:induction false} TrackedStep(c: Config, s: State, step: Step)
    requires Counted(s) && Tracked(c, s) && WriterHolds(s)
    ensures Tracked(c, Apply(c, s, step))
  {
    OwedStep(c, s, step);
    if Enabled(c, s, step) && step.ForwarderResumes? && s.forwarder.out.Response? {
      UnacknowledgedUpdate(s.requests, s.forwarder.out.id, Acknowledged);
    }
  }

  lemma {:induction false} WaitsStep(c: Config, s: State, step: Step)
    requires Tracked(c, s) && Waits(c, s)
    ensures Waits(c, Apply(c, s, step))
  {
  }

  // ---- What is on stdout ------------------------------------------------------------------------

  function Payloads(log: seq<Entry>): seq<bytes> {
    if log == [] then [] else Payloads(log[..|log| - 1]) + [Payload(log[|log| - 1])]
  }

  function Partial(s: State): bytes
    requires s.writer.Writing? ==> s.writer.offset < |Frame(s.writer.entry)|
  {
    if s.writer.Writing? then Frame(s.writer.entry)[..s.writer.offset] else []
  }

  /** One line, whichever of the two line breaks the peer splits at. */
  predicate Clean(payload: bytes) {
    LF !in payload && CR !in payload
  }

  predicate CleanScript(c: Config) {
    forall i :: 0 <= i < |c.script| && c.script[i].Rejection? ==> Clean(c.script[i].frame)
  }

  /** Whatever a task holds for the writer is one line, and the writer's item fits the limit. */
  predicate HeldClean(c: Config, s: State) {
    && (s.reader.Reporting? ==> Clean(s.reader.frame))
    && (s.forwarder.Sending? ==> Clean(s.forwarder.out.payload))
    && (s.writer.Writing? ==> Clean(Payload(s.writer.entry)) && |Payload(s.writer.entry)| <= c.maximum)
  }

  predicate GoodLines(lines: seq<bytes>, maximum: nat) {
    forall line :: line in lines ==> Clean(line) && |line| <= maximum
  }

  /** stdout is the completed frames and the part of the current one that has been taken so far. */
  predicate Emitted(c: Config, s: State) {
    && WriterHolds(s)
    && (if s.writer.Writing? then s.stdout == Join(Payloads(s.log)) + Frame(s.writer.entry)[..s.writer.offset]
        else s.stdout == Join(Payloads(s.log)))
    && GoodLines(Payloads(s.log), c.maximum)
  }

  lemma {:induction false} PayloadsAppend(log: seq<Entry>, e: Entry)
    ensures Payloads(log + [e]) == Payloads(log) + [Payload(e)]
  {
    assert (log + [e])[..|log|] == log;
  }

  lemma {:induction false} HeldCleanStep(c: Config, s: State, step: Step)
    requires CleanScript(c) && HeldClean(c, s)
    ensures HeldClean(c, Apply(c, s, step))
  {
  }

  lemma {:induction false} ExtendPart(done: bytes, frame: bytes, from: nat, end: nat)
    requires from <= end <= |frame|
    ensures done + frame[..from] + frame[from..end] == done + frame[..end]
  {
    assert frame[..from] + frame[from..end] == frame[..end];
  }

  lemma {:induction false} CompleteFrame(log: seq<Entry>, e: Entry)
    ensures Join(Payloads(log)) + Frame(e) == Join(Payloads(log + [e]))
  {
    PayloadsAppend(log, e);
    JoinAppend(Payloads(log), Payload(e));
    assert Join(Payloads(log)) + Frame(e) == Join(Payloads(log)) + Payload(e) + [LF];
  }

  lemma {:induction false} EmittedWrite(c: Config, s: State, count: nat)
    requires Emitted(c, s) && HeldClean(c, s) && Enabled(c, s, Write(count))
    ensures Emitted(c, WriteStep(s, count))
  {
    hide Join, Payloads, Frame, Payload;
    var entry, end := s.writer.entry, s.writer.offset + count;
    var frame := Frame(entry);
    ExtendPart(Join(Payloads(s.log)), frame, s.writer.offset, end);
    WriterHoldsStep(c, s, Write(count));
    var s' := WriteStep(s, count);
    if end == |frame| {
      assert frame[..end] == frame;
      CompleteFrame(s.log, entry);
      PayloadsAppend(s.log, entry);
      assert s'.log == s.log + [entry] && s'.writer == Free;
    } else {
      assert s'.log == s.log && s'.writer == Writing(entry, end);
    }
  }

  lemma {:induction false} EmittedStep(c: Config, s: State, step: Step)
    requires Emitted(c, s) && HeldClean(c, s)
    ensures Emitted(c, Apply(c, s, step))
  {
    hide Join, Payloads, Frame, Payload;
    if step.Write? && Enabled(c, s, step) {
      EmittedWrite(c, s, step.count);
    } else {
      WriterHoldsStep(c, s, step);
      var s', done := Apply(c, s, step), Join(Payloads(s.log));
      assert s'.stdout == s.stdout && s'.log == s.log;
      if s'.writer.Writing? && s.writer.Free? {
        assert done + Frame(s'.writer.entry)[..0] == done;
      }
    }
  }

  // ---- Order and number of what each task had written -------------------------------------------

  function ForwardedOf(log: seq<Entry>): seq<Out> {
    if log == [] then []
    else ForwardedOf(log[..|log| - 1]) + match log[|log| - 1] case Forwarded(out) => [out] case Report(_) => []
  }

  function ReportsOf(log: seq<Entry>): seq<bytes> {
    if log == [] then []
    else ReportsOf(log[..|log| - 1]) + match log[|log| - 1] case Forwarded(_) => [] case Report(frame) => [frame]
  }

  function RejectionsOf(script: seq<Item>): seq<bytes> {
    if script == [] then []
    else RejectionsOf(script[..|script| - 1]) + if script[|script| - 1].Rejection? then [script[|script| - 1].frame]
        else []
  }

  function RequestsOf(script: seq<Item>): nat {
    if script == [] then 0
    else RequestsOf(script[..|script| - 1]) + if script[|script| - 1].Request? then 1 else 0
  }

  predicate AnswersRequest(e: Entry, id: nat) {
    e.Forwarded? && e.out.Response? && e.out.id == id
  }

  function Answers(log: seq<Entry>, id: nat): nat {
    if log == [] then 0
    else Answers(log[..|log| - 1], id) + if AnswersRequest(log[|log| - 1], id) then 1 else 0
  }

  /** The message the forwarder has taken from the application and the writer has not finished. */
  predicate Forwarding(s: State) {
    s.forwarder.Sending? || (s.forwarder.AwaitingWrite? && !s.forwarder.done)
  }

  predicate BeingReported(s: State) {
    s.reader.Reporting? || (s.reader.AwaitingReport? && !s.reader.done)
  }

  /** The application's frames reach stdout in the order it sent them, the last one perhaps still held. */
  predicate ForwardedInOrder(s: State) {
    if Forwarding(s) then s.accepted == ForwardedOf(s.log) + [s.forwarder.out] else s.accepted == ForwardedOf(s.log)
  }

  /** The reader's error frames reach stdout in the order of the rejections. */
  predicate ReportsInOrder(c: Config, s: State) {
    && s.next <= |c.script|
    && |s.requests| == RequestsOf(c.script[..s.next])
    && if BeingReported(s) then RejectionsOf(c.script[..s.next]) == ReportsOf(s.log) + [s.reader.frame]
       else RejectionsOf(c.script[..s.next]) == ReportsOf(s.log)
  }

  /** A request has exactly one response on stdout once it is written, and none before. */
  ghost predicate Answered(s: State) {
    forall id: nat :: Answers(s.log, id) ==
      if id < |s.requests| && OnStdout(s.requests[id]) then 1 else 0
  }

  lemma {:induction false} LogAppend(log: seq<Entry>, e: Entry)
    ensures e.Forwarded? ==>
          ForwardedOf(log + [e]) == ForwardedOf(log) + [e.out] && ReportsOf(log + [e]) == ReportsOf(log)
    ensures e.Report? ==>
          ReportsOf(log + [e]) == ReportsOf(log) + [e.payload] && ForwardedOf(log + [e]) == ForwardedOf(log)
  {
    assert (log + [e])[..|log|] == log;
    assert ForwardedOf(log) + [] == ForwardedOf(log) && ReportsOf(log) + [] == ReportsOf(log);
  }

  lemma {:induction false} AnswersAppend(log: seq<Entry>, e: Entry)
    ensures forall id :: Answers(log + [e], id) == Answers(log, id) + if AnswersRequest(e, id) then 1 else 0
  {
    assert (log + [e])[..|log|] == log;
  }

  lemma {:induction false} ScriptTake(script: seq<Item>, n: nat)
    requires n < |script|
    ensures script[n].Rejection? ==> RejectionsOf(script[..n + 1]) == RejectionsOf(script[..n]) + [script[n].frame]
    ensures !script[n].Rejection? ==> RejectionsOf(script[..n + 1]) == RejectionsOf(script[..n])
    ensures RequestsOf(script[..n + 1]) == RequestsOf(script[..n]) + if script[n].Request? then 1 else 0
  {
    assert script[..n + 1][..n] == script[..n];
    assert RejectionsOf(script[..n]) + [] == RejectionsOf(script[..n]);
  }

  lemma {:induction false} ForwardedInOrderStep(c: Config, s: State, step: Step)
    requires WriterHolds(s) && ForwardedInOrder(s)
    ensures ForwardedInOrder(Apply(c, s, step))
  {
    hide ForwardedOf, ReportsOf;
    if Enabled(c, s, step) {
      if step.Write? {
        LogAppend(s.log, s.writer.entry);
      } else {
        assert Apply(c, s, step).log == s.log;
      }
    }
  }

  lemma {:induction false} ReportsInOrderStep(c: Config, s: State, step: Step)
    requires WriterHolds(s) && ReportsInOrder(c, s)
    ensures ReportsInOrder(c, Apply(c, s, step))
  {
    hide ForwardedOf, ReportsOf, RejectionsOf, RequestsOf, Started, Finished;
    if Enabled(c, s, step) {
      if step.ReadNext? {
        if s.next < |c.script| { ScriptTake(c.script, s.next); }
      } else if step.Write? {
        LogAppend(s.log, s.writer.entry);
      } else {
        assert Apply(c, s, step).next == s.next && Apply(c, s, step).log == s.log;
      }
    }
  }

  lemma {:induction false} AnsweredStep(c: Config, s: State, step: Step)
    requires WriterHolds(s) && Counted(s) && Answered(s)
    ensures Answered(Apply(c, s, step))
  {
    hide Answers, Started, Finished;
    if Enabled(c, s, step) {
      if step.Write? {
        AnswersAppend(s.log, s.writer.entry);
      } else {
        assert Apply(c, s, step).log == s.log;
      }
    }
  }

  // ---- All of it, over every run -----------------------------------------------------------------

  ghost predicate Invariant(c: Config, s: State) {
    && Counted(s) && Tracked(c, s) && Waits(c, s)
    && Emitted(c, s) && HeldClean(c, s)
    && ForwardedInOrder(s) && ReportsInOrder(c, s) && Answered(s)
  }

  lemma {:induction false} InvariantStarts(c: Config)
    ensures Invariant(c, Start(c))
  {
    assert c.script[..0] == [];
  }

  lemma {:induction false} InvariantStep(c: Config, s: State, step: Step)
    requires CleanScript(c) && Invariant(c, s)
    ensures Invariant(c, Apply(c, s, step))
  {
    CountedStep(c, s, step);
    TrackedStep(c, s, step);
    WaitsStep(c, s, step);
    EmittedStep(c, s, step);
    HeldCleanStep(c, s, step);
    ForwardedInOrderStep(c, s, step);
    ReportsInOrderStep(c, s, step);
    AnsweredStep(c, s, step);
  }

  lemma {:induction false} InvariantHolds(c: Config, steps: seq<Step>)
    requires CleanScript(c)
    ensures Invariant(c, Run(c, steps))
  {
    if steps == [] {
      InvariantStarts(c);
    } else {
      InvariantHolds(c, steps[..|steps| - 1]);
      InvariantStep(c, Run(c, steps[..|steps| - 1]), steps[|steps| - 1]);
    }
  }

  predicate OnStdout(status: Status) {
    status == Written || status == Acknowledged
  }

  /** Requests with a response on stdout. */
  function WrittenCount(requests: seq<Status>): nat {
    if requests == [] then 0
    else WrittenCount(requests[..|requests| - 1]) + if OnStdout(requests[|requests| - 1]) then 1 else 0
  }

  lemma {:induction false} WrittenLag(requests: seq<Status>, lag: Option<nat>)
    requires forall id :: 0 <= id < |requests| ==> (requests[id] == Written <==> lag == Some(id))
    ensures Unacknowledged(requests) ==
      |requests| - WrittenCount(requests) + if lag.Some? && lag.value < |requests| then 1 else 0
  {
    if requests != [] {
      WrittenLag(requests[..|requests| - 1], lag);
    }
  }

  /** In every state the counter is the number of requests counted minus the responses fully written,
      plus one exactly while the forwarder has not yet been told of a response that is written. */
  lemma {:induction false} PendingIs(c: Config, steps: seq<Step>)
    requires CleanScript(c) && c.drain
    ensures var s := Run(c, steps);
      s.tracker.pending == |s.requests| - WrittenCount(s.requests)
        + if s.forwarder.AwaitingWrite? && s.forwarder.done && s.forwarder.out.Response? then 1 else 0
    ensures var s := Run(c, steps);
      s.tracker.drained.Event? ==> (s.tracker.drained.isSet <==> s.tracker.pending == 0)
  {
    var s := Run(c, steps);
    InvariantHolds(c, steps);
    var lag := if s.forwarder.AwaitingWrite? && s.forwarder.done && s.forwarder.out.Response?
               then Some(s.forwarder.out.id) else None;
    assert forall id :: 0 <= id < |s.requests| ==> Holds(s, id, s.requests[id]);
    WrittenLag(s.requests, lag);
  }

  /** The lag is real: whatever the one response says, once it is written the counter still stands at one. */
  lemma {:induction false} PendingCanLag(c: Config, payload: bytes)
    requires c.script == [Request] && c.drain && Clean(payload) && |payload| <= c.maximum
    ensures
      var s := Run(c, [ReadNext, Receive, Send(Response(0, payload)), TakeForwarded, Write(|payload| + 1)]);
      !s.failed && s.tracker.pending == 1 && |s.requests| == 1 && WrittenCount(s.requests) == 1
  {
    hide Run, Apply, Start;
    var answer := Response(0, payload);
    var read, offered := [ReadNext], [ReadNext, Receive];
    var sent := offered + [Send(answer)];
    var taken := sent + [TakeForwarded];
    assert [] + [ReadNext] == read && read + [Receive] == offered;
    OneMoreStep(c, [], ReadNext);
    OneMoreStep(c, read, Receive);
    OneMoreStep(c, offered, Send(answer));
    OneMoreStep(c, sent, TakeForwarded);
    OneMoreStep(c, taken, Write(|payload| + 1));
    RequestRead(c);
    AnswerTaken(c, Apply(c, Run(c, []), ReadNext), answer);
    AnswerWritten(c, Run(c, taken), answer);
    assert taken + [Write(|payload| + 1)] == [ReadNext, Receive, Send(answer), TakeForwarded, Write(|payload| + 1)];
  }

  lemma {:induction false} OneMoreStep(c: Config, steps: seq<Step>, step: Step)
    ensures Run(c, steps + [step]) == Apply(c, Run(c, steps), step)
  {
    assert (steps + [step])[..|steps|] == steps;
  }

  lemma {:induction false} RequestRead(c: Config)
    requires c.script == [Request] && c.drain
    ensures
      var s := Apply(c, Run(c, []), ReadNext);
      !s.failed && s.tracker.pending == 1 && s.requests == [Offered] && s.reader == Offering(Some(0))
      && s.forwarder.Receiving? && s.writer.Free?
  {
  }

  lemma {:induction false} AnswerTaken(c: Config, s: State, answer: Out)
    requires answer.Response? && answer.id == 0 && Clean(answer.payload)
    requires |answer.payload| <= c.maximum && !s.failed && s.requests == [Offered] && s.reader == Offering(Some(0))
    requires s.forwarder.Receiving? && s.writer.Free?
    ensures
      var t := Apply(c, Apply(c, Apply(c, s, Receive), Send(answer)), TakeForwarded);
      !t.failed && t.tracker == s.tracker && t.requests == [InFlight] && t.writer == Writing(Forwarded(answer), 0)
  {
  }

  lemma {:induction false} AnswerWritten(c: Config, s: State, answer: Out)
    requires answer.Response? && answer.id == 0
    requires !s.failed && s.requests == [InFlight] && s.writer == Writing(Forwarded(answer), 0)
    ensures
      var t := Apply(c, s, Write(|answer.payload| + 1));
      !t.failed && t.tracker == s.tracker && t.requests == [Written] && WrittenCount(t.requests) == 1
  {
    assert |Frame(Forwarded(answer))| == |answer.payload| + 1;
    assert [Written][..0] == [];
  }

  /** No wake-up is lost: a waiting reader can leave drained exactly when nothing is pending any more,
      and then nothing is offered, open or in flight. */
  lemma {:induction false} WakesExactlyWhenDrained(c: Config, steps: seq<Step>)
    requires CleanScript(c) && c.drain
    ensures var s := Run(c, steps);
      Enabled(c, s, DrainObserved) <==> !s.failed && s.reader.AwaitingDrain? && s.tracker.pending == 0
    ensures var s := Run(c, steps);
      s.tracker.pending == 0 <==> forall id :: 0 <= id < |s.requests| ==> s.requests[id] == Acknowledged
  {
    InvariantHolds(c, steps);
    NoneUnacknowledged(Run(c, steps).requests);
  }

  /**
   * At the end of the input the reader reports an oversized frame by leaving, fails when the input did, waits while a
   * request is unanswered and the bridge is to drain, and otherwise leaves.
   */
  lemma {:induction false} EndOfInput(c: Config, steps: seq<Step>)
    requires CleanScript(c) && !Run(c, steps).failed
    requires Run(c, steps).reader.Reading? && Run(c, steps).next == |c.script|
    ensures
      var s, t := Run(c, steps), Run(c, steps + [ReadNext]);
      match c.ending
      case TooLarge => !t.failed && t.reader == Exited(Oversized)
      case Failed(_) => t.failed
      case AtEof =>
        && !t.failed
        && if c.drain && exists id :: 0 <= id < |s.requests| && s.requests[id] != Acknowledged
           then t.reader.AwaitingDrain? else t.reader == Exited(Drained)
  {
    InvariantHolds(c, steps);
    OneMoreStep(c, steps, ReadNext);
    AtEnd(c, Run(c, steps));
    hide *;
  }

  lemma {:induction false} AtEnd(c: Config, s: State)
    requires Tracked(c, s) && !s.failed && s.reader.Reading? && s.next == |c.script|
    ensures
      var t := Apply(c, s, ReadNext);
      match c.ending
      case TooLarge => !t.failed && t.reader == Exited(Oversized)
      case Failed(_) => t.failed
      case AtEof =>
        && !t.failed
        && if c.drain && exists id :: 0 <= id < |s.requests| && s.requests[id] != Acknowledged
           then t.reader.AwaitingDrain? else t.reader == Exited(Drained)
  {
    NoneUnacknowledged(s.requests);
    hide Unacknowledged;
  }

  /** A reader that waits may time out at any moment, and anything may fail. */
  lemma {:induction false} MayStop(c: Config, steps: seq<Step>)
    requires !Run(c, steps).failed
    ensures Run(c, steps).reader.AwaitingDrain? ==>
              Run(c, steps + [DrainTimeout]) == Run(c, steps).(reader := Exited(TimedOut))
    ensures Run(c, steps + [Failure]) == Run(c, steps).(failed := true)
  {
    OneMoreStep(c, steps, DrainTimeout);
    OneMoreStep(c, steps, Failure);
    hide Run;
  }

  /** A bridge that has failed does nothing more. */
  lemma {:induction false} FailedStays(c: Config, steps: seq<Step>, step: Step)
    requires Run(c, steps).failed
    ensures Run(c, steps + [step]) == Run(c, steps)
  {
    OneMoreStep(c, steps, step);
  }

  /** Drain safety: a reader that left without timing out has every request of the input answered by
      exactly one complete frame on stdout, whatever the interleaving was. */
  lemma {:induction false} DrainSafety(c: Config, steps: seq<Step>)
    requires CleanScript(c) && c.drain
    requires Run(c, steps).reader == Exited(Drained)
    ensures var s := Run(c, steps);
      && |s.requests| == RequestsOf(c.script)
      && Closed(s.stdout) == Payloads(s.log)
      && forall id: nat :: id < RequestsOf(c.script) ==> Answers(s.log, id) == 1
  {
    var s := Run(c, steps);
    InvariantHolds(c, steps);
    NoneUnacknowledged(s.requests);
    assert c.script[..s.next] == c.script;
    StdoutIsFrames(c, steps);
  }

  /** At every moment stdout is whole frames followed by a proper part of at most one, each producer's
      frames are in its order, and a peer with the same limit recovers exactly the payloads. */
  lemma {:induction false} StdoutIsFrames(c: Config, steps: seq<Step>)
    requires CleanScript(c)
    ensures var s := Run(c, steps);
      && |Closed(s.stdout)| == |s.log|
      && forall k :: 0 <= k < |s.log| ==>
           Closed(s.stdout)[k] == match s.log[k] case Report(frame) => frame case Forwarded(out) => out.payload
    ensures CR !in Run(c, steps).stdout
    ensures var s := Run(c, steps);
      && Closed(s.stdout) == Payloads(s.log)
      && FittingPrefix(Closed(s.stdout), c.maximum) == Payloads(s.log)
      && WriterHolds(s) && Tail(s.stdout) == Partial(s) && |Tail(s.stdout)| <= c.maximum
      && ForwardedOf(s.log) <= s.accepted
      && ReportsOf(s.log) <= RejectionsOf(c.script)
  {
    var s := Run(c, steps);
    InvariantHolds(c, steps);
    if s.writer.Writing? {
      assert Partial(s) == Payload(s.writer.entry)[..s.writer.offset];
    } else {
      assert Join(Payloads(s.log)) + [] == s.stdout;
    }
    JoinSplit(Payloads(s.log), Partial(s));
    StdioReader.FittingPrefixOfFits(Payloads(s.log), c.maximum);
    RejectionsPrefix(c.script, s.next);
    PayloadsAre(s.log);
    NoReturn(Payloads(s.log));
  }

  /** What is on stdout stays there, and every write puts something more behind it. */
  lemma {:induction false} StdoutGrows(c: Config, steps: seq<Step>, step: Step)
    ensures Run(c, steps).stdout <= Run(c, steps + [step]).stdout
    ensures step.Write? && Enabled(c, Run(c, steps), step) ==>
              |Run(c, steps + [step]).stdout| == |Run(c, steps).stdout| + step.count > |Run(c, steps).stdout|
  {
    hide Run;
    OneMoreStep(c, steps, step);
  }

  lemma {:induction false} PayloadsAre(log: seq<Entry>)
    ensures |Payloads(log)| == |log|
    ensures forall k :: 0 <= k < |log| ==>
              Payloads(log)[k] == match log[k] case Report(frame) => frame case Forwarded(out) => out.payload
  {
    if log != [] { PayloadsAre(log[..|log| - 1]); }
  }

  lemma {:induction false} NoReturn(lines: seq<bytes>)
    requires forall line :: line in lines ==> CR !in line
    ensures CR !in Join(lines)
  {
    if lines != [] { NoReturn(lines[1..]); }
  }

  lemma {:induction false} RejectionsPrefix(script: seq<Item>, n: nat)
    requires n <= |script|
    ensures RejectionsOf(script[..n]) <= RejectionsOf(script)
    decreases |script|
  {
    if n == |script| {
      assert script[..n] == script;
    } else {
      var shorter := script[..|script| - 1];
      RejectionsPrefix(shorter, n);
      assert shorter[..n] == script[..n];
    }
  }

  // ---- The whole bridge on a stream of input -----------------------------------------------------

  predicate AllReported<M>(events: seq<StdioReader.Event<M>>) {
    forall i :: 0 <= i < |events| && events[i].Rejected? ==> Reported(events[i].reason)
  }

  /** The reader's work list for a stream: a request, another message, or an error frame per event. */
  function ScriptOf<M>(events: seq<StdioReader.Event<M>>, isRequest: M -> bool): (script: seq<Item>)
    requires AllReported(events)
    ensures |script| == |events|
  {
    seq(|events|, i requires 0 <= i < |events| =>
      match events[i]
      case Message(m) => if isRequest(m) then Request else Notification
      case Rejected(reason) => Rejection(ErrorFrame(reason).value))
  }

  ghost predicate ParserReasons<M(!new)>(parse: StdioReader.Parser<M>) {
    forall line :: parse(line).Err? ==> ParseReason(parse(line).error)
  }

  ghost function BridgeFor<M(!new)>(parse: StdioReader.Parser<M>, isRequest: M -> bool, stream: bytes,
      maximum: nat): Config
    requires ParserReasons(parse)
  {
    EventsAreReported(parse, stream, maximum);
    Config(ScriptOf(StdioReader.StreamEvents(parse, stream, maximum), isRequest),
           StdioReader.StreamEnding(stream, maximum), maximum, true)
  }

  lemma {:induction false} EventsAreReported<M(!new)>(parse: StdioReader.Parser<M>, stream: bytes, maximum: nat)
    requires ParserReasons(parse)
    ensures AllReported(StdioReader.StreamEvents(parse, stream, maximum))
  {
  }

  /** Every error frame the reader sends is one line that an admitted limit lets through. */
  lemma {:induction false} RejectionsAreFrames<M(!new)>(
      parse: StdioReader.Parser<M>, isRequest: M -> bool, stream: bytes, maximum: nat)
    requires ParserReasons(parse) && AdmittedLimit(maximum)
    ensures var c := BridgeFor(parse, isRequest, stream, maximum);
      CleanScript(c) && forall i :: 0 <= i < |c.script| && c.script[i].Rejection? ==> |c.script[i].frame| <= maximum
  {
    var c := BridgeFor(parse, isRequest, stream, maximum);
    var events := StdioReader.StreamEvents(parse, stream, maximum);
    forall i | 0 <= i < |c.script| && c.script[i].Rejection?
      ensures Clean(c.script[i].frame) && |c.script[i].frame| <= maximum
    {
      assert events[i] in events;
      EveryRejectionFits(events[i].reason, maximum);
    }
  }

  /** The number of lines that are requests. */
  function RequestLines<M>(parse: StdioReader.Parser<M>, isRequest: M -> bool, lines: seq<bytes>): nat {
    if lines == [] then 0
    else
      var last := parse(lines[|lines| - 1]);
      RequestLines(parse, isRequest, lines[..|lines| - 1]) + if last.Ok? && isRequest(last.value) then 1 else 0
  }

  /** Why lines are refused, for those that are, in order. */
  function Refusals<M>(parse: StdioReader.Parser<M>, lines: seq<bytes>): seq<Reason> {
    if lines == [] then []
    else
      var last := parse(lines[|lines| - 1]);
      Refusals(parse, lines[..|lines| - 1]) + if last.Err? then [last.error] else []
  }

  ghost predicate FramesOf(frames: seq<bytes>, reasons: seq<Reason>) {
    |frames| == |reasons| && forall k :: 0 <= k < |frames| ==> Some(frames[k]) == ErrorFrame(reasons[k])
  }

  /** The work list has a request for every line that is one, and the error frame of every line that is refused. */
  lemma {:induction false} ScriptCounts<M(!new)>(
      parse: StdioReader.Parser<M>, isRequest: M -> bool, lines: seq<bytes>, events: seq<StdioReader.Event<M>>)
    requires events == StdioReader.EventsOf(parse, lines) && AllReported(events)
    ensures RequestsOf(ScriptOf(events, isRequest)) == RequestLines(parse, isRequest, lines)
    ensures FramesOf(RejectionsOf(ScriptOf(events, isRequest)), Refusals(parse, lines))
  {
    if lines != [] {
      var n := |lines| - 1;
      assert StdioReader.EventsOf(parse, lines[..n]) == events[..n];
      ScriptCounts(parse, isRequest, lines[..n], events[..n]);
      assert ScriptOf(events, isRequest)[..n] == ScriptOf(events[..n], isRequest);
      assert Reported(FrameTooLarge);
    }
  }

  /**
   * For every input stream, admitted limit and interleaving: a reader that leaves drained has had the whole stream as
   * lines within the limit, each of those that is a request answered by exactly one line of stdout and nothing else
   * answered, and the error frames of those that are refused written in their order.
   */
  lemma {:induction false} DrainedBridge<M(!new)>(
      parse: StdioReader.Parser<M>, isRequest: M -> bool, stream: bytes, maximum: nat, steps: seq<Step>)
    requires ParserReasons(parse) && AdmittedLimit(maximum)
    requires Run(BridgeFor(parse, isRequest, stream, maximum), steps).reader == Exited(Drained)
    ensures Join(Closed(stream)) == stream && forall line :: line in Closed(stream) ==> |line| <= maximum
    ensures var s := Run(BridgeFor(parse, isRequest, stream, maximum), steps);
      && Closed(s.stdout) == Payloads(s.log)
      && |s.requests| == RequestLines(parse, isRequest, Closed(stream))
      && (forall id: nat :: Answers(s.log, id) == if id < RequestLines(parse, isRequest, Closed(stream)) then 1 else 0)
      && FramesOf(ReportsOf(s.log), Refusals(parse, Closed(stream)))
  {
    var c := BridgeFor(parse, isRequest, stream, maximum);
    RejectionsAreFrames(parse, isRequest, stream, maximum);
    InvariantHolds(c, steps);
    DrainedAtEof(c, steps);
    assert c.ending == StdioReader.StreamEnding(stream, maximum) && c.drain;
    StdioReader.FittingPrefixOfFits(Closed(stream), maximum);
    var events := StdioReader.EventsOf(parse, Closed(stream));
    assert events + [] == events;
    assert c.script == ScriptOf(events, isRequest);
    ScriptCounts(parse, isRequest, Closed(stream), events);
    SplitJoin(stream);
    assert Join(Closed(stream)) + [] == Join(Closed(stream));
    hide BridgeFor, CleanScript;
    DrainSafety(c, steps);
    assert c.script[..Run(c, steps).next] == c.script;
  }

  /** Only a clean end of input lets the reader leave drained. */
  lemma {:induction false} DrainedAtEof(c: Config, steps: seq<Step>)
    ensures Run(c, steps).reader.AwaitingDrain? || Run(c, steps).reader == Exited(Drained) ==>
          c.ending == StdioReader.AtEof
  {
    if steps != [] {
      DrainedAtEof(c, steps[..|steps| - 1]);
    }
  }
}
