/** The capture tool's framer: the same lines, under a budget of bytes, messages and message length. */
module CaptureFramer {
  import opened Common
  import opened Lines
  import opened Pipe

  datatype Failure = ByteBudget | MessageBudget | LengthBudget

  datatype Item = Message(data: bytes) | Error(failure: Failure) | End

  datatype Budget = Budget(total: nat, messages: nat, length: nat)

  const READ_CHUNK_BYTES := 65_536

  // ---- Verdict on the whole stream ------------------------------------------------------------

  /** Lines that carry a message; empty ones are passed over. */
  function NonEmpty(lines: seq<bytes>): seq<bytes> {
    if lines == [] then []
    else (if lines[0] == [] then [] else [lines[0]]) + NonEmpty(lines[1..])
  }

  lemma {:induction false} NonEmptyHas(lines: seq<bytes>, m: bytes)
    requires m in lines && m != []
    ensures m in NonEmpty(lines)
  {
    if lines[0] != m { NonEmptyHas(lines[1..], m); }
  }

  lemma {:induction false} NonEmptyConcat(a: seq<bytes>, b: seq<bytes>)
    ensures NonEmpty(a + b) == NonEmpty(a) + NonEmpty(b)
  {
    if a == [] {
      assert a + b == b;
    } else {
      assert (a + b)[1..] == a[1..] + b;
      NonEmptyConcat(a[1..], b);
    }
  }

  /** Every message of the stream, the unterminated last one included. */
  function Messages(stream: bytes): seq<bytes> {
    NonEmpty(Closed(stream) + [Tail(stream)])
  }

  predicate WithinBudget(stream: bytes, budget: Budget) {
    |stream| <= budget.total && |Messages(stream)| <= budget.messages && Within(Messages(stream), budget.length)
  }

  /** The budget that a failure names is one the stream breaks. */
  predicate Exceeded(stream: bytes, budget: Budget, failure: Failure) {
    match failure
    case ByteBudget => |stream| > budget.total
    case MessageBudget => |Messages(stream)| > budget.messages
    case LengthBudget => exists m :: m in Messages(stream) && |m| > budget.length
  }

  function Items(messages: seq<bytes>): (r: seq<Item>)
    ensures |r| == |messages| && forall i :: 0 <= i < |r| ==> r[i] == Message(messages[i])
  {
    seq(|messages|, i requires 0 <= i < |messages| => Message(messages[i]))
  }

  /** What the queue holds in the end, for a stream of known content. */
  predicate Delivered(stream: bytes, budget: Budget, items: seq<Item>) {
    if WithinBudget(stream, budget) then items == Items(Messages(stream)) + [End]
    else exists k, f ::
      && 0 <= k <= |Messages(stream)| && items == Items(Messages(stream)[..k]) + [Error(f), End]
      && Exceeded(stream, budget, f)
  }

  /** Messages taken from the start of the stream only grow with the stream. */
  lemma {:induction false} MessagesGrow(seen: bytes, unread: bytes)
    ensures NonEmpty(Closed(seen)) <= Messages(seen + unread)
  {
    SplitAppend(seen, unread);
    var rest := Closed(Tail(seen) + unread) + [Tail(seen + unread)];
    assert Closed(seen + unread) + [Tail(seen + unread)] == Closed(seen) + rest;
    NonEmptyConcat(Closed(seen), rest);
  }

  /** A held run longer than the length budget is part of an overlong message. */
  lemma {:induction false} HeldTooLong(seen: bytes, unread: bytes, budget: Budget)
    requires |Tail(seen)| > budget.length
    ensures Exceeded(seen + unread, budget, LengthBudget)
  {
    var held := Tail(seen);
    SplitJoin(seen);
    SplitAppend(seen, unread);
    Overlong(held, unread, budget.length);
    var rest := Closed(held + unread);
    var long := if rest != [] then rest[0] else Tail(held + unread);
    assert long in Closed(seen + unread) + [Tail(seen + unread)] by {
      if rest != [] { assert Closed(seen + unread)[|Closed(seen)|] == long; }
    }
    NonEmptyHas(Closed(seen + unread) + [Tail(seen + unread)], long);
  }

  // ---- The framer -----------------------------------------------------------------------------

  /** The one line more that breaks the budget, and how. */
  predicate BreaksWith(budget: Budget, taken: seq<bytes>, line: bytes, failure: Failure) {
    match failure
    case ByteBudget => false
    case MessageBudget => |NonEmpty(taken)| == budget.messages
    case LengthBudget => |line| > budget.length
  }

  class Framer {
    const budget: Budget
    var pending: bytes
    var count: nat
    var total: nat
    var sink: seq<Item>
    ghost var seen: bytes
    ghost var taken: seq<bytes>

    constructor (budget: Budget)
      ensures this.budget == budget && seen == [] && taken == [] && sink == [] && pending == [] && Valid()
      ensures fresh(this)
    {
      this.budget := budget;
      pending, count, total, sink, seen, taken := [], 0, 0, [], [], [];
    }

    /** The lines taken so far are within budget and their messages are on the queue. */
    ghost predicate Taken()
      reads this
    {
      && sink == Items(NonEmpty(taken)) && count == |NonEmpty(taken)|
      && count <= budget.messages && Within(NonEmpty(taken), budget.length)
    }

    ghost predicate Valid()
      reads this
    {
      Taken() && taken == Closed(seen) && pending == Tail(seen) && total == |seen| <= budget.total
      && |pending| <= budget.length
    }

    /** Put one line on the queue unless it is empty or breaks the budget. */
    method PutMessage(message: bytes) returns (failure: Option<Failure>)
      requires Taken()
      modifies this`count, this`sink, this`taken
      ensures Taken() && taken == if failure.None? then old(taken) + [message] else old(taken)
      ensures failure.Some? ==> message != [] && BreaksWith(budget, taken, message, failure.value)
    {
      NonEmptyConcat(taken, [message]);
      assert NonEmpty([message]) == if message == [] then [] else [message];
      if message == [] {
        taken := taken + [message];
        return None;
      }
      if count + 1 > budget.messages {
        return Some(MessageBudget);
      }
      if |message| > budget.length {
        return Some(LengthBudget);
      }
      count := count + 1;
      sink := sink + [Message(message)];
      taken := taken + [message];
      return None;
    }

    /** The next line of the stream seen so far is one the budget refuses. */
    ghost predicate Refused(line: bytes, failure: Failure)
      reads this
    {
      Taken() && taken + [line] <= Closed(seen) && line != [] && BreaksWith(budget, taken, line, failure)
    }

    /** Take every complete line out of the pending bytes. */
    method TakeLines() returns (failure: Option<Failure>, ghost refused: bytes)
      requires Taken() && Closed(seen) == taken + Closed(pending) && Tail(seen) == Tail(pending)
      modifies this
      ensures seen == old(seen) && total == old(total)
      ensures failure.None? ==> Taken() && taken == Closed(seen) && pending == Tail(seen)
      ensures failure.Some? ==> Refused(refused, failure.value)
    {
      hide Closed, Tail, NonEmpty;
      failure, refused := None, [];
      while true
        invariant Taken() && seen == old(seen) && total == old(total)
        invariant Closed(seen) == taken + Closed(pending) && Tail(seen) == Tail(pending)
        invariant failure == None
        decreases |pending|
      {
        var newline := FirstLF(pending);
        if newline == |pending| {
          OnlyTail(pending);
          assert taken + [] == taken;
          break;
        }
        var message := pending[..newline];
        TakeFirst(taken, pending, newline);
        pending := pending[newline + 1..];
        failure := PutMessage(message);
        if failure.Some? {
          return failure, message;
        }
      }
    }

    /** One chunk: count it, frame it, and check what is left over. */
    method Take(chunk: bytes, ghost unread: bytes) returns (failure: Option<Failure>)
      requires Valid()
      modifies this
      ensures seen == old(seen) + chunk
      ensures failure.None? ==> Valid()
      ensures failure.Some? ==> Exceeded(seen + unread, budget, failure.value) && Partial(seen + unread, sink)
    {
      hide Closed, Tail, NonEmpty, Partial, Exceeded;
      ghost var was := seen;
      SplitAppend(was, chunk);
      seen := seen + chunk;
      total := total + |chunk|;
      if total > budget.total {
        assert seen + unread == was + (chunk + unread);
        TakenIsPartial(was, chunk + unread, taken);
        TooManyBytes(seen + unread, budget);
        return Some(ByteBudget);
      }
      pending := pending + chunk;
      ghost var refused;
      failure, refused := TakeLines();
      if failure.Some? {
        RefusedIsOverBudget(seen, unread, budget, taken, refused, failure.value);
      } else if |pending| > budget.length {
        HeldTooLong(seen, unread, budget);
        TakenIsPartial(seen, unread, taken);
        failure := Some(LengthBudget);
      }
    }

    /** Success exactly when the whole stream is within budget, however the reads cut it. */
    method DrainStdout(source: Source) returns (broken: bool)
      requires Valid() && seen == []
      modifies this, source
      ensures !broken ==> Delivered(old(source.unread), budget, sink)
      ensures broken ==> source.faulty && |sink| > 0 && sink[|sink| - 1] == End
      ensures broken ==> sink[..|sink| - 1] <= Items(Messages(old(source.unread)))
    {
      hide Closed, Tail, NonEmpty, Partial, WithinBudget, Exceeded, Delivered, Messages;
      ghost var stream := source.unread;
      while true
        invariant Valid() && stream == seen + source.unread
        decreases |source.unread|, source.interruptions
      {
        var result := source.Read(READ_CHUNK_BYTES);
        match result
        case Interrupted =>
        case Broken =>
          MessagesGrow(seen, source.unread);
          sink := sink + [End];
          return true;
        case Chunk(data) =>
          if data == [] {
            break;
          }
          assert seen + (data + source.unread) == seen + data + source.unread;
          var failure := Take(data, source.unread);
          if failure.Some? {
            FailedRun(stream, budget, sink, failure.value);
            sink := sink + [Error(failure.value), End];
            return false;
          }
      }
      assert stream == seen;
      ghost var before := taken;
      var failure := PutMessage(pending);
      if failure.Some? {
        LastRefused(stream, budget, pending, failure.value);
        FailedRun(stream, budget, sink, failure.value);
        sink := sink + [Error(failure.value), End];
      } else {
        PassedRun(stream, budget, sink);
        sink := sink + [End];
      }
      return false;
    }
  }

  /** The queue holds the first messages of the stream and nothing else. */
  predicate Partial(stream: bytes, sink: seq<Item>) {
    exists k: nat :: k <= |Messages(stream)| && sink == Items(Messages(stream)[..k])
  }

  lemma {:induction false} TakenIsPartial(seen: bytes, unread: bytes, taken: seq<bytes>)
    requires taken <= Closed(seen)
    ensures NonEmpty(taken) <= Messages(seen + unread)
    ensures Partial(seen + unread, Items(NonEmpty(taken)))
  {
    var k := |NonEmpty(taken)|;
    MessagesGrow(seen, unread);
    NonEmptyConcat(taken, Closed(seen)[|taken|..]);
    assert Closed(seen) == taken + Closed(seen)[|taken|..];
    assert Items(NonEmpty(taken)) == Items(Messages(seen + unread)[..k]);
  }

  lemma {:induction false} TooManyBytes(stream: bytes, budget: Budget)
    requires |stream| > budget.total
    ensures Exceeded(stream, budget, ByteBudget)
  {
  }

  lemma {:induction false} RefusedIsOverBudget(seen: bytes, unread: bytes, budget: Budget, taken: seq<bytes>,
        line: bytes, failure: Failure)
    requires taken + [line] <= Closed(seen) && line != [] && BreaksWith(budget, taken, line, failure)
    ensures Exceeded(seen + unread, budget, failure)
    ensures Partial(seen + unread, Items(NonEmpty(taken)))
  {
    TakenIsPartial(seen, unread, taken + [line]);
    TakenIsPartial(seen, unread, taken);
    NonEmptyConcat(taken, [line]);
    assert NonEmpty([line]) == [line];
    assert NonEmpty(taken + [line])[|NonEmpty(taken)|] == line;
    assert line in Messages(seen + unread);
  }

  /** The unterminated rest of the input is the line that is refused. */
  lemma {:induction false} LastRefused(stream: bytes, budget: Budget, pending: bytes, failure: Failure)
    requires pending == Tail(stream) != [] && BreaksWith(budget, Closed(stream), pending, failure)
    ensures Exceeded(stream, budget, failure) && Partial(stream, Items(NonEmpty(Closed(stream))))
  {
    var lines := Closed(stream);
    NonEmptyConcat(lines, [pending]);
    NonEmptyHas(lines + [pending], pending);
    assert stream + [] == stream;
    TakenIsPartial(stream, [], lines);
  }

  lemma {:induction false} PassedRun(stream: bytes, budget: Budget, sink: seq<Item>)
    requires |stream| <= budget.total
    requires var all := NonEmpty(Closed(stream) + [Tail(stream)]);
      |all| <= budget.messages && Within(all, budget.length) && sink == Items(all)
    ensures Delivered(stream, budget, sink + [End])
  {
  }

  lemma {:induction false} FailedRun(stream: bytes, budget: Budget, sink: seq<Item>, failure: Failure)
    requires Exceeded(stream, budget, failure) && Partial(stream, sink)
    ensures Delivered(stream, budget, sink + [Error(failure), End])
  {
  }
}
