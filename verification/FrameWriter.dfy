/** Writing one frame through a descriptor that may take any part of it at a time. */
module FrameWriter {
  import opened Common
  import opened Frames
  import opened Pipe

  /** On success the whole frame and its newline are written; on failure a part of them, never more. */
  method WriteAll(sink: Sink, payload: bytes) returns (failure: Option<Reason>)
    modifies sink
    ensures failure.None? ==> sink.written == old(sink.written) + payload + [LF]
    ensures failure.Some? ==> (failure.value.BrokenPipe? || failure.value.WriteFailed?)
    ensures failure.Some? ==>
          exists n :: 0 <= n <= |payload| && sink.written == old(sink.written) + (payload + [LF])[..n]
  {
    var frame := payload + [LF];
    var offset := 0;
    assert old(sink.written) + frame[..0] == old(sink.written);
    while offset < |frame|
      invariant 0 <= offset <= |frame|
      invariant sink.written == old(sink.written) + frame[..offset]
      decreases |frame| - offset, sink.interruptions
    {
      var result := sink.Write(frame[offset..]);
      if result.Retry? {
        continue;
      }
      if result.NoReader? {
        return Some(BrokenPipe);
      }
      if result.WriteError? || result.count <= 0 {
        return Some(WriteFailed);
      }
      assert frame[..offset] + frame[offset..][..result.count] == frame[..offset + result.count];
      offset := offset + result.count;
    }
    assert frame[..offset] == frame;
    failure := None;
  }
}
