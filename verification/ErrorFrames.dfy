/** The frame that reports a rejection, and the parser whose every rejection has one. */
module ErrorFrames {
  import opened Common
  import opened Frames

  function AsciiByte(c: char): byte
    requires c < 128 as char
  {
    c as int
  }

  /** ASCII text as bytes. */
  function Ascii(s: string): (b: bytes)
    requires forall i :: 0 <= i < |s| ==> s[i] < 128 as char
    ensures |b| == |s| && forall i :: 0 <= i < |s| ==> b[i] == s[i] as int
  {
    seq(|s|, i requires 0 <= i < |s| => AsciiByte(s[i]))
  }

  /** Reasons that are answered on the wire; every other reason ends the bridge. */
  predicate Reported(r: Reason) {
    ParseReason(r) || r.FrameTooLarge?
  }

  function Name(r: Reason): string
    requires Reported(r)
  {
    match r
    case BomRejected => "bom_rejected"
    case DuplicateObjectKey => "duplicate_object_key"
    case EmptyFrame => "empty_frame"
    case InvalidJson => "invalid_json"
    case InvalidUtf8 => "invalid_utf8"
    case NotJsonrpc => "not_jsonrpc"
    case NulRejected => "nul_rejected"
    case FrameTooLarge => "frame_too_large"
  }

  const PREFIX := "{\"jsonrpc\":\"2.0\",\"id\":null,\"error\":{\"code\":"

  const MIDDLE := ",\"data\":{\"reason\":\""

  const SUFFIX := "\"}}}"

  /** Code and message: invalid request for an oversized frame, parse error for every other reason. */
  function Body(r: Reason): string {
    if r.FrameTooLarge? then "-32600,\"message\":\"Frame exceeds maximum size\""
    else "-32700,\"message\":\"Parse error\""
  }

  function Document(r: Reason): string
    requires Reported(r)
  {
    PREFIX + Body(r) + MIDDLE + Name(r) + SUFFIX
  }

  /** ASCII without a line break of either kind. */
  predicate Plain(s: string) {
    forall i :: 0 <= i < |s| ==> s[i] < 128 as char && s[i] != '\n' && s[i] != '\r'
  }

  lemma {:induction false} PlainConcat(a: string, b: string)
    requires Plain(a) && Plain(b)
    ensures Plain(a + b)
  {
  }

  lemma {:induction false} NameIsPlain(r: Reason)
    requires Reported(r)
    ensures Plain(Name(r))
  {
  }

  lemma {:induction false} DocumentIsPlain(r: Reason)
    requires Reported(r)
    ensures Plain(Document(r))
  {
    var body := Body(r);
    NameIsPlain(r);
    FixedPartsArePlain(r);
    PlainConcat(PREFIX, body);
    PlainConcat(PREFIX + body, MIDDLE);
    PlainConcat(PREFIX + body + MIDDLE, Name(r));
    PlainConcat(PREFIX + body + MIDDLE + Name(r), SUFFIX);
  }

  lemma {:induction false} FixedPartsArePlain(r: Reason)
    ensures Plain(PREFIX) && Plain(Body(r)) && Plain(MIDDLE) && Plain(SUFFIX)
  {
    PrefixIsPlain();
    BodyIsPlain(r);
    MiddleIsPlain();
  }

  lemma {:induction false} PrefixIsPlain()
    ensures Plain(PREFIX)
  {
  }

  lemma {:induction false} BodyIsPlain(r: Reason)
    ensures Plain(Body(r))
  {
  }

  lemma {:induction false} MiddleIsPlain()
    ensures Plain(MIDDLE) && Plain(SUFFIX)
  {
  }

  function ErrorFrame(r: Reason): (f: Option<bytes>)
    ensures f.Some? <==> Reported(r)
  {
    if Reported(r) then
      DocumentIsPlain(r);
      Some(Ascii(Document(r)))
    else None
  }

  /** The reasons the bridge measures its smallest admissible limit over. */
  const REPORTED := [BomRejected, DuplicateObjectKey, EmptyFrame, InvalidJson, InvalidUtf8, NotJsonrpc, NulRejected,
      FrameTooLarge]

  const MAX_JSON_FRAME_BYTES := 1_048_576

  lemma {:induction false} ReportedIsListed(r: Reason)
    ensures Reported(r) <==> r in REPORTED
  {
  }

  method Longest(frames: seq<bytes>) returns (longest: nat)
    requires frames != []
    ensures forall f :: f in frames ==> |f| <= longest
    ensures exists f :: f in frames && |f| == longest
  {
    longest := |frames[0]|;
    for i := 1 to |frames|
      invariant forall j :: 0 <= j < i ==> |frames[j]| <= longest
      invariant exists j :: 0 <= j < i && |frames[j]| == longest
    {
      longest := if |frames[i]| > longest then |frames[i]| else longest;
    }
  }

  predicate AdmittedLimit(limit: int) {
    (forall r :: Reported(r) ==> |ErrorFrame(r).value| <= limit) && limit <= MAX_JSON_FRAME_BYTES
  }

  /** Start-up accepts a limit exactly when every error frame fits it and it is not above the cap. */
  method CheckLimit(limit: int) returns (r: Option<Reason>)
    ensures r == None <==> AdmittedLimit(limit)
    ensures r == None ==> limit <= 1_048_576
    ensures r.Some? ==> r.value == InvalidLimit
  {
    hide ErrorFrame, Document;
    forall r: Reason ensures Reported(r) <==> r in REPORTED { ReportedIsListed(r); }
    var frames := seq(|REPORTED|, i requires 0 <= i < |REPORTED| =>
      assert REPORTED[i] in REPORTED; ErrorFrame(REPORTED[i]).value);
    forall r | Reported(r) ensures ErrorFrame(r).value in frames {
      var i :| 0 <= i < |REPORTED| && REPORTED[i] == r;
      assert frames[i] == ErrorFrame(r).value;
    }
    assert forall f :: f in frames ==> exists r :: Reported(r) && f == ErrorFrame(r).value;
    var minimum := Longest(frames);
    if !(minimum <= limit <= MAX_JSON_FRAME_BYTES) {
      return Some(InvalidLimit);
    }
    r := None;
  }

  /** Under an admitted limit every rejection can be written as one frame of the stream. */
  lemma {:induction false} EveryRejectionFits(r: Reason, limit: int)
    requires Reported(r) && AdmittedLimit(limit)
    ensures ErrorFrame(r).Some? && |ErrorFrame(r).value| <= limit
    ensures LF !in ErrorFrame(r).value && CR !in ErrorFrame(r).value
  {
    DocumentIsPlain(r);
    var f := ErrorFrame(r).value;
    assert f == Ascii(Document(r));
    hide Document;
    assert forall i :: 0 <= i < |f| ==> f[i] == Document(r)[i] as int;
  }

  const CODE_AT := |PREFIX|

  /** Only an oversized frame is an invalid request; the client can tell every two reasons apart by their frames. */
  lemma {:induction false} FramesTell(r: Reason, q: Reason)
    requires Reported(r) && Reported(q)
    ensures Document(r)[CODE_AT..CODE_AT + 6] == if r.FrameTooLarge? then "-32600" else "-32700"
    ensures ErrorFrame(r) == ErrorFrame(q) ==> r == q
  {
    CodeIs(r);
    CodeIs(q);
    hide Document, Name, PREFIX, MIDDLE, SUFFIX;
    if ErrorFrame(r) == ErrorFrame(q) {
      DocumentIsPlain(r);
      DocumentIsPlain(q);
      SameText(Document(r), Document(q));
      assert Body(r) == Body(q) by { assert "-32600"[3] != "-32700"[3]; }
      NameWithin(r);
      NameWithin(q);
      NamesDiffer(r, q);
    }
  }

  lemma {:induction false} CodeIs(r: Reason)
    requires Reported(r)
    ensures Document(r)[CODE_AT..CODE_AT + 6] == if r.FrameTooLarge? then "-32600" else "-32700"
  {
    BodyCode(r);
    hide PREFIX, Name, MIDDLE, SUFFIX, Body;
    Window(PREFIX, Body(r), MIDDLE + Name(r) + SUFFIX, 6);
    assert Document(r) == PREFIX + Body(r) + (MIDDLE + Name(r) + SUFFIX);
  }

  lemma {:induction false} BodyCode(r: Reason)
    ensures |Body(r)| >= 6 && Body(r)[..6] == if r.FrameTooLarge? then "-32600" else "-32700"
  {
  }

  lemma {:induction false} Window(a: string, b: string, c: string, n: nat)
    requires n <= |b|
    ensures (a + b + c)[|a|..|a| + n] == b[..n]
  {
  }

  lemma {:induction false} SameText(a: string, b: string)
    requires Plain(a) && Plain(b) && Ascii(a) == Ascii(b)
    ensures a == b
  {
    forall i | 0 <= i < |a| ensures a[i] == b[i] {
      assert Ascii(a)[i] == a[i] as int && Ascii(b)[i] == b[i] as int;
    }
  }

  lemma {:induction false} NameWithin(r: Reason)
    requires Reported(r)
    ensures
      var from := |PREFIX| + |Body(r)| + |MIDDLE|;
      Document(r)[from..|Document(r)| - |SUFFIX|] == Name(r)
  {
    hide PREFIX, Body, MIDDLE, SUFFIX, Name;
    Window(PREFIX + Body(r) + MIDDLE, Name(r), SUFFIX, |Name(r)|);
  }

  lemma {:induction false} NamesDiffer(r: Reason, q: Reason)
    requires Reported(r) && Reported(q) && Name(r) == Name(q)
    ensures r == q
  {
    assert "bom_rejected"[0] == 'b' && "nul_rejected"[0] == 'n';
    assert "invalid_json"[8] == 'j';
  }

  // ---- Parsing --------------------------------------------------------------------------------

  /** Library decoding the bridge relies on. */
  datatype Decoded = Tree(value: Value) | Duplicate | Malformed

  datatype Decoder<!M> = Decoder(utf8: bytes -> Option<Text>, json: Text -> Decoded, message: Value -> Option<M>)

  const BOM: bytes := [0xEF, 0xBB, 0xBF]

  /** Nothing in the raw bytes stands against the frame. */
  predicate Sound(frame: bytes) {
    frame != [] && !(BOM <= frame) && 0 !in frame
  }

  /** What a sound frame decodes to, when it is UTF-8. */
  function Decoding<M>(d: Decoder<M>, frame: bytes): Option<Decoded> {
    if d.utf8(frame).Some? then Some(d.json(d.utf8(frame).value)) else None
  }

  /** Each reason is given exactly in its own case, and a message exactly when everything about the frame is right. */
  method ParseFrame<M>(d: Decoder<M>, bound: nat, frame: bytes) returns (r: Result<M, Reason>)
    ensures r == Err(EmptyFrame) <==> frame == []
    ensures r == Err(BomRejected) <==> BOM <= frame
    ensures r == Err(NulRejected) <==> 0 in frame && !(BOM <= frame)
    ensures r == Err(InvalidUtf8) <==> Sound(frame) && d.utf8(frame).None?
    ensures r == Err(DuplicateObjectKey) <==> Sound(frame) && Decoding(d, frame) == Some(Duplicate)
    ensures r == Err(InvalidJson) <==>
              && Sound(frame) && Decoding(d, frame).Some?
              && match Decoding(d, frame).value
                 case Malformed => true
                 case Duplicate => false
                 case Tree(v) => v.Dict? && (Height(v) > bound || !AllEncodable(v))
    ensures r == Err(NotJsonrpc) <==>
              && Sound(frame) && Decoding(d, frame).Some? && Decoding(d, frame).value.Tree?
              && var v := Decoding(d, frame).value.value;
                 v.Dict? ==> Height(v) <= bound && AllEncodable(v) && d.message(v).None?
    ensures r.Ok? <==>
              && Sound(frame) && Decoding(d, frame).Some? && Decoding(d, frame).value.Tree?
              && var v := Decoding(d, frame).value.value;
                 v.Dict? && Height(v) <= bound && AllEncodable(v) && d.message(v).Some?
    ensures r.Ok? ==> d.message(Decoding(d, frame).value.value) == Some(r.value)
    ensures r.Err? ==> ParseReason(r.error)
  {
    hide Height, AllEncodable;
    if frame == [] { return Err(EmptyFrame); }
    if BOM <= frame { return Err(BomRejected); }
    if 0 in frame { return Err(NulRejected); }
    var text := d.utf8(frame);
    if text.None? { return Err(InvalidUtf8); }
    var decoded := d.json(text.value);
    if decoded.Duplicate? { return Err(DuplicateObjectKey); }
    if decoded.Malformed? { return Err(InvalidJson); }
    if !decoded.value.Dict? { return Err(NotJsonrpc); }
    var ok := ValidateTree(decoded.value, bound);
    if !ok { return Err(InvalidJson); }
    var m := d.message(decoded.value);
    r := if m.None? then Err(NotJsonrpc) else Ok(m.value);
  }

  /** The decoder's hook keeps the members in order and refuses a repeated name. */
  method ObjectPairs(pairs: seq<(Text, Value)>) returns (r: Option<seq<(Text, Value)>>)
    ensures r.Some? <==> forall i, j :: 0 <= i < j < |pairs| ==> pairs[i].0 != pairs[j].0
    ensures r.Some? ==> r.value == pairs
  {
    var members: seq<(Text, Value)> := [];
    for i := 0 to |pairs|
      invariant members == pairs[..i]
      invariant forall j, k :: 0 <= j < k < i ==> pairs[j].0 != pairs[k].0
    {
      if exists j :: 0 <= j < |members| && members[j].0 == pairs[i].0 {
        return None;
      }
      members := members + [pairs[i]];
    }
    r := Some(members);
  }
}
