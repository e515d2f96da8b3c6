/** The reader task: re-frames whatever chunks the descriptor yields into bounded lines. */
module StdioReader {
  import opened Common
  import opened Frames
  import opened Lines
  import opened Pipe

  /** What the reader does with a line: hand a message on, or answer with an error frame. */
  datatype Event<+M> = Message(message: M) | Rejected(reason: Reason)

  /** How the reader stops: at end of input with nothing pending, after an oversized frame, or failing. */
  datatype Ending = AtEof | TooLarge | Failed(reason: Reason)

  // ---- What splitting the whole stream at newlines would give ----------------------------------

  /** The reader's treatment of one line, given what the parser makes of it. */
  function EventOf<M>(parsed: Result<M, Reason>): Event<M> {
    match parsed
    case Ok(m) => Message(m)
    case Err(reason) => Rejected(reason)
  }

  /** The parser as the reader sees it: a verdict for every line. */
  type Parser<!M> = bytes -> Result<M, Reason>

  function EventsOf<M>(parse: Parser<M>, lines: seq<bytes>): (r: seq<Event<M>>)
    ensures |r| == |lines|
    ensures forall i :: 0 <= i < |lines| ==>
              && (parse(lines[i]).Ok? ==> r[i] == Message(parse(lines[i]).value))
              && (parse(lines[i]).Err? ==> r[i] == Rejected(parse(lines[i]).error))
  {
    seq(|lines|, i requires 0 <= i < |lines| => EventOf(parse(lines[i])))
  }

  predicate TooLong(stream: bytes, maximum: nat) {
    !Within(Closed(stream), maximum) || |Tail(stream)| > maximum
  }

  function StreamEnding(stream: bytes, maximum: nat): Ending {
    if TooLong(stream, maximum) then TooLarge
    else if Tail(stream) != [] then Failed(PartialEof)
    else AtEof
  }

  function StreamEvents<M>(parse: Parser<M>, stream: bytes, maximum: nat): seq<Event<M>> {
    EventsOf(parse, FittingPrefix(Closed(stream), maximum))
    + if TooLong(stream, maximum) then [Rejected(FrameTooLarge)] else []
  }

  lemma {:induction false} FittingPrefixOfFits(lines: seq<bytes>, maximum: nat)
    requires Within(lines, maximum)
    ensures FittingPrefix(lines, maximum) == lines
  {
    FittingPrefixSplits(lines, [], maximum);
    assert lines + [] == lines;
  }

  /** The reader's run is that of the whole stream, or a part of it when reading failed. */
  predicate Agrees<M(==)>(parse: Parser<M>, stream: bytes, maximum: nat, events: seq<Event<M>>, ending: Ending) {
    if ending == Failed(ReadFailed) then events <= StreamEvents(parse, stream, maximum)
    else ending == StreamEnding(stream, maximum) && events == StreamEvents(parse, stream, maximum)
  }

  const MAX_READ_CHUNK := 65_536

  /** The running state: bytes held back for the current line, and everything handed on so far. */
  class Reader<!M> {
    const parse: Parser<M>
    const maximum: nat
    var buffer: bytes
    var events: seq<Event<M>>
    ghost var seen: bytes

    constructor (parse: Parser<M>, maximum: nat)
      ensures buffer == [] && events == [] && seen == []
      ensures this.parse == parse && this.maximum == maximum
    {
      this.parse, this.maximum := parse, maximum;
      buffer, events, seen := [], [], [];
    }

    /** Between reads: the lines seen are handled, and the unfinished one is held within the limit. */
    ghost predicate Valid()
      reads this
    {
      && buffer == Tail(seen) && |buffer| <= maximum
      && Within(Closed(seen), maximum)
      && events == EventsOf(parse, Closed(seen))
    }

    /** Take in one chunk and handle every line it completes. Reports a rest too long to keep. */
    method Accept(chunk: bytes) returns (overlong: bool)
      requires Valid() && |buffer| + |chunk| <= maximum + 1
      modifies this
      ensures seen == old(seen) + chunk
      ensures !overlong ==> Valid()
      ensures overlong ==> Within(Closed(seen), maximum) && |Tail(seen)| > maximum
      ensures overlong ==> events == EventsOf(parse, Closed(seen)) + [Rejected(FrameTooLarge)]
    {
      hide Closed, Tail;
      ghost var handled := Closed(seen);
      SplitAppend(seen, chunk);
      buffer := buffer + chunk;
      seen := seen + chunk;
      while true
        invariant seen == old(seen) + chunk
        invariant |buffer| <= maximum + 1
        invariant Closed(seen) == handled + Closed(buffer) && Tail(seen) == Tail(buffer)
        invariant Within(handled, maximum) && events == EventsOf(parse, handled)
        decreases |buffer|
      {
        var delimiter := FirstLF(buffer);
        if delimiter == |buffer| {
          OnlyTail(buffer);
          assert handled + [] == handled;
          if |buffer| > maximum {
            events := events + [Rejected(FrameTooLarge)];
            return true;
          }
          return false;
        }
        var frame := buffer[..delimiter];
        TakeFirst(handled, buffer, delimiter);
        buffer := buffer[delimiter + 1..];
        events := events + [EventOf(parse(frame))];
        handled := handled + [frame];
      }
    }

    /** One turn of the read loop: a read, then every line it completes. */
    method Turn(source: Source) returns (ending: Option<Ending>)
      requires Valid()
      modifies this, source
      ensures ending.None? ==> Valid() && seen + source.unread == old(seen + source.unread)
      ensures ending.None? ==> source.unread == old(source.unread) || |source.unread| < old(|source.unread|)
      ensures ending.None? && source.unread == old(source.unread) ==> source.interruptions < old(source.interruptions)
      ensures ending.Some? ==> Agrees(parse, old(seen + source.unread), maximum, events, ending.value)
      ensures ending == Some(Failed(ReadFailed)) ==> source.faulty
    {
      hide Closed, Tail, Agrees;
      var remaining := maximum + 1 - |buffer|;
      assert remaining > 0;  // the guard for a full buffer at the top of the loop never fires
      var result := source.Read(if MAX_READ_CHUNK < remaining then MAX_READ_CHUNK else remaining);
      match result
      case Interrupted =>
        ending := None;
      case Broken =>
        HandledSoFar(parse, seen, source.unread, maximum);
        ending := Some(Failed(ReadFailed));
      case Chunk(data) =>
        if data == [] {
          assert seen + [] == seen;
          CompleteStream(parse, seen, maximum, events);
          return Some(if buffer != [] then Failed(PartialEof) else AtEof);
        }
        var overlong := Accept(data);
        assert old(seen) + (data + source.unread) == seen + source.unread;
        if overlong {
          OverlongStream(parse, seen, source.unread, maximum, events);
          ending := Some(TooLarge);
        } else {
          ending := None;
        }
    }

    /** The read loop. However the descriptor cuts the stream, the result is that of the whole stream. */
    method Run(source: Source) returns (ending: Ending)
      requires Valid() && seen == []
      modifies this, source
      ensures Agrees(parse, old(source.unread), maximum, events, ending)
      ensures ending == Failed(ReadFailed) ==> source.faulty
    {
      assert seen + source.unread == source.unread;
      while true
        invariant Valid() && seen + source.unread == old(source.unread)
        decreases |source.unread|, source.interruptions
      {
        var stop := Turn(source);
        if stop.Some? {
          return stop.value;
        }
      }
    }
  }

  lemma {:induction false} HandledSoFar<M>(parse: Parser<M>, seen: bytes, unread: bytes, maximum: nat)
    requires Within(Closed(seen), maximum)
    ensures Agrees(parse, seen + unread, maximum, EventsOf(parse, Closed(seen)), Failed(ReadFailed))
  {
    SplitAppend(seen, unread);
    FittingPrefixSplits(Closed(seen), Closed(Tail(seen) + unread), maximum);
  }

  lemma {:induction false} CompleteStream<M>(parse: Parser<M>, stream: bytes, maximum: nat, events: seq<Event<M>>)
    requires Within(Closed(stream), maximum) && |Tail(stream)| <= maximum
    requires events == EventsOf(parse, Closed(stream))
    ensures Agrees(parse, stream, maximum, events, if Tail(stream) != [] then Failed(PartialEof) else AtEof)
  {
    FittingPrefixOfFits(Closed(stream), maximum);
  }

  /** A peer that wrote whole lines within the limit gets one event for each and a clean end, and
      only such a peer does. */
  lemma {:induction false} CleanEndIff<M>(parse: Parser<M>, stream: bytes, maximum: nat)
    ensures StreamEnding(stream, maximum) == AtEof <==>
      exists lines :: stream == Join(lines) && Within(lines, maximum) && forall l :: l in lines ==> LF !in l
    ensures forall lines :: stream == Join(lines) && Within(lines, maximum) && (forall l :: l in lines ==> LF !in l) ==>
      StreamEvents(parse, stream, maximum) == EventsOf(parse, lines)
  {
    SplitJoin(stream);
    assert Tail(stream) == [] ==> Join(Closed(stream)) + [] == Join(Closed(stream));
    forall lines | stream == Join(lines) && Within(lines, maximum) && forall l :: l in lines ==> LF !in l
      ensures Closed(stream) == lines && Tail(stream) == []
      ensures StreamEvents(parse, stream, maximum) == EventsOf(parse, lines)
    {
      JoinSplit(lines, []);
      assert Join(lines) + [] == stream;
      FittingPrefixOfFits(lines, maximum);
    }
  }

  /** The number of lines handed on: those before the first overlong one. */
  function HandedOn<M>(events: seq<Event<M>>, ending: Ending): int {
    if ending == TooLarge then |events| - 1 else |events|
  }

  /**
   * Read off the lines themselves: the reader hands on each line before the first overlong one as the parser takes it,
   * then reports that one, and ends by what is wrong with the rest of the stream, if anything is.
   */
  lemma {:induction false} ReadingIs<M>(parse: Parser<M>, stream: bytes, maximum: nat, events: seq<Event<M>>,
                                        ending: Ending)
    requires Agrees(parse, stream, maximum, events, ending) && ending != Failed(ReadFailed)
    ensures ending == AtEof <==> Tail(stream) == [] && forall line :: line in Closed(stream) ==> |line| <= maximum
    ensures ending == Failed(PartialEof) <==>
              0 < |Tail(stream)| <= maximum && forall line :: line in Closed(stream) ==> |line| <= maximum
    ensures ending == TooLarge <==>
              |Tail(stream)| > maximum || exists line :: line in Closed(stream) && |line| > maximum
    ensures ending == TooLarge ==> events != [] && events[|events| - 1] == Rejected(FrameTooLarge)
    ensures 0 <= HandedOn(events, ending) <= |Closed(stream)|
    ensures HandedOn(events, ending) < |Closed(stream)| ==> |Closed(stream)[HandedOn(events, ending)]| > maximum
    ensures forall i :: 0 <= i < HandedOn(events, ending) ==>
              var line := Closed(stream)[i];
              && |line| <= maximum
              && (parse(line).Ok? ==> events[i] == Message(parse(line).value))
              && (parse(line).Err? ==> events[i] == Rejected(parse(line).error))
  {
    var lines, fitting := Closed(stream), FittingPrefix(Closed(stream), maximum);
    if !TooLong(stream, maximum) { FittingPrefixOfFits(lines, maximum); }
    var handed := EventsOf(parse, fitting);
    assert events == handed + if ending == TooLarge then [Rejected(FrameTooLarge)] else [];
    hide Closed, Tail, FittingPrefix, StreamEvents;
    forall i | 0 <= i < |fitting| ensures fitting[i] == lines[i] && |fitting[i]| <= maximum && events[i] == handed[i] {
      assert fitting[i] in fitting;
    }
  }

  /** A held run longer than the limit decides the rest of the stream, whatever it is. */
  lemma {:induction false} OverlongStream<M>(parse: Parser<M>, seen: bytes, unread: bytes, maximum: nat,
        events: seq<Event<M>>)
    requires Within(Closed(seen), maximum) && |Tail(seen)| > maximum
    requires events == EventsOf(parse, Closed(seen)) + [Rejected(FrameTooLarge)]
    ensures Agrees(parse, seen + unread, maximum, events, TooLarge)
  {
    var held, rest := Tail(seen), Closed(Tail(seen) + unread);
    SplitAppend(seen, unread);
    SplitJoin(seen);
    Overlong(held, unread, maximum);
    FittingPrefixSplits(Closed(seen), rest, maximum);
    assert Closed(seen) + [] == Closed(seen);
    if rest != [] {
      assert |rest[0]| > maximum;
      assert Closed(seen + unread)[|Closed(seen)|] == rest[0];
      assert rest[0] in Closed(seen + unread);
    }
  }
}
