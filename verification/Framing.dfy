/** Messages on a byte stream: frames with a routing header, and envelopes that carry a group id. */
module Framing {
  import opened Common
  import opened Bytes
  import opened Codec
  import opened CodecBuffers

  // ----- Frames --------------------------------------------------------------------------------

  /** The routing fields of a frame; the encoder always writes request id 0 and the decoder skips all three. */
  datatype Route = Route(from: U64, to: U64, requestId: U64)

  function PrintFrame(route: Route, t: MessageType, payload: seq<Byte>, rest: seq<Byte>): seq<Byte> {
    Little(4, CODEC_MAGIC) + (Little(4, CODEC_VERSION) + (Little(8, route.from) + (Little(8, route.to)
      + (Little(8, route.requestId) + ([TypeByte(t)] + (Little(4, |payload|) + (payload + rest)))))))
  }

  predicate FitsFrame(m: Message) { Fits(m) && Short32(Encode(m)) }

  function Frame(m: Message, from: U64, to: U64): seq<Byte>
    requires FitsFrame(m)
  {
    PrintFrame(Route(from, to, 0), m.msgType, Encode(m), [])
  }

  /** The fixed part of a frame: the message type and the payload length. */
  datatype FrameHead = FrameHead(msgType: MessageType, length: U32)

  function ReadFrameHead(d: seq<Byte>): Read<FrameHead> {
    match ReadU32(d) case Fail(e) => Fail(e) case Done(magic, d1) =>
    if magic != CODEC_MAGIC then Fail(InvalidMagic) else
    match ReadU32(d1) case Fail(e) => Fail(e) case Done(version, d2) =>
    if version != CODEC_VERSION then Fail(InvalidVersion) else
    match ReadU64(d2) case Fail(e) => Fail(e) case Done(_, d3) =>
    match ReadU64(d3) case Fail(e) => Fail(e) case Done(_, d4) =>
    match ReadU64(d4) case Fail(e) => Fail(e) case Done(_, d5) =>
    match ReadByte(d5) case Fail(e) => Fail(e) case Done(t, d6) =>
    if t >= 19 then Fail(InvalidMessageType) else
    match ReadU32(d6) case Fail(e) => Fail(e) case Done(n, d7) =>
    Done(FrameHead(MESSAGE_TYPES[t], n), d7)
  }

  function ReadFrame(d: seq<Byte>): Read<Message> {
    match ReadFrameHead(d) case Fail(e) => Fail(e) case Done(head, d1) =>
    match Take(head.length, d1) case Short => Fail(TruncatedMessage) case Parsed(payload, rest) =>
    match Decode(payload) case Err(e) => Fail(e) case Ok(m) =>
    if m.msgType != head.msgType then Fail(MessageTypeMismatch) else Done(m, rest)
  }

  /** Where everything stands in a frame; the request id is written as zero. */
  lemma FrameLayout(m: Message, from: U64, to: U64)
    requires FitsFrame(m)
    ensures var d := Frame(m, from, to);
      && |d| == 37 + |Encode(m)|
      && At(d, 0, Little(4, CODEC_MAGIC)) && At(d, 4, Little(4, CODEC_VERSION))
      && At(d, 8, Little(8, from)) && At(d, 16, Little(8, to)) && At(d, 24, Little(8, 0))
      && d[32] == TypeByte(m.msgType) && At(d, 33, Little(4, |Encode(m)|)) && At(d, 37, Encode(m))
  {
    hide Little, Encode;
    var d, payload := Frame(m, from, to), Encode(m);
    var r6 := Little(4, |payload|) + (payload + []);
    var r5 := [TypeByte(m.msgType)] + r6;
    var r4 := Little(8, 0) + r5;
    var r3 := Little(8, to) + r4;
    var r2 := Little(8, from) + r3;
    var r1 := Little(4, CODEC_VERSION) + r2;
    assert d[0..] == Little(4, CODEC_MAGIC) + r1;
    Next(d, 0, Little(4, CODEC_MAGIC), r1);
    Next(d, 4, Little(4, CODEC_VERSION), r2);
    Next(d, 8, Little(8, from), r3);
    Next(d, 16, Little(8, to), r4);
    Next(d, 24, Little(8, 0), r5);
    LastByte(d, 32, TypeByte(m.msgType), r6);
    Next(d, 33, Little(4, |payload|), payload + []);
    Next(d, 37, payload, []);
  }

  lemma FrameHeadPrinted(route: Route, t: MessageType, payload: seq<Byte>, rest: seq<Byte>)
    requires Short32(payload)
    ensures ReadFrameHead(PrintFrame(route, t, payload, rest)) == Done(FrameHead(t, |payload|), payload + rest)
  {
    hide ReadU32, ReadU64, ReadByte, Little;
    var r7 := payload + rest;
    var r6 := Little(4, |payload|) + r7;
    var r5 := [TypeByte(t)] + r6;
    var r4 := Little(8, route.requestId) + r5;
    var r3 := Little(8, route.to) + r4;
    var r2 := Little(8, route.from) + r3;
    U32Printed(CODEC_MAGIC, Little(4, CODEC_VERSION) + r2);
    U32Printed(CODEC_VERSION, r2);
    U64Printed(route.from, r3);
    U64Printed(route.to, r4);
    U64Printed(route.requestId, r5);
    BytePrinted(TypeByte(t), r6);
    U32Printed(|payload|, r7);
  }

  /** A frame on a stream gives its message back and is consumed exactly, whatever follows it. */
  lemma FrameRoundTrip(m: Message, from: U64, to: U64, rest: seq<Byte>)
    requires FitsFrame(m)
    ensures ReadFrame(Frame(m, from, to) + rest) == Done(m, rest)
  {
    hide ReadFrameHead, PrintFrame, Encode, Decode;
    var payload := Encode(m);
    assert Frame(m, from, to) + rest == PrintFrame(Route(from, to, 0), m.msgType, payload, rest) by {
      FrameEnds(Route(from, to, 0), m.msgType, payload, rest);
    }
    FrameHeadPrinted(Route(from, to, 0), m.msgType, payload, rest);
    assert (payload + rest)[..|payload|] == payload && (payload + rest)[|payload|..] == rest;
    RoundTrip(m);
  }

  lemma FrameEnds(route: Route, t: MessageType, payload: seq<Byte>, rest: seq<Byte>)
    ensures PrintFrame(route, t, payload, rest) == PrintFrame(route, t, payload, []) + rest
  {
    hide Little;
    var a, b := Little(4, |payload|) + (payload + rest), Little(4, |payload|) + (payload + []);
    assert a == b + rest;
    assert [TypeByte(t)] + a == ([TypeByte(t)] + b) + rest;
  }

  lemma FrameHeadStable(d: seq<Byte>, more: seq<Byte>)
    ensures Settled(ReadFrameHead(d)) ==> ReadFrameHead(d + more) == Extended(ReadFrameHead(d), more)
  {
    hide ReadU32, ReadU64, ReadByte;
    if Settled(ReadFrameHead(d)) {
      U32Stable(d, more);
      if ReadU32(d).value == CODEC_MAGIC {
        var d1 := ReadU32(d).rest;
        U32Stable(d1, more);
        if ReadU32(d1).value == CODEC_VERSION {
          var d2 := ReadU32(d1).rest;
          U64Stable(d2, more);
          var d3 := ReadU64(d2).rest;
          U64Stable(d3, more);
          var d4 := ReadU64(d3).rest;
          U64Stable(d4, more);
          var d5 := ReadU64(d4).rest;
          ByteStable(d5, more);
          if ReadByte(d5).value < 19 { U32Stable(ReadByte(d5).rest, more); }
        }
      }
    }
  }

  lemma FrameStable(d: seq<Byte>, more: seq<Byte>)
    ensures Settled(ReadFrame(d)) ==> ReadFrame(d + more) == Extended(ReadFrame(d), more)
  {
    hide ReadFrameHead, Decode;
    if Settled(ReadFrame(d)) {
      FrameHeadStable(d, more);
      if ReadFrameHead(d).Done? { TakeStable(ReadFrameHead(d).value.length, ReadFrameHead(d).rest, more); }
    }
  }

  /** Every strict prefix of a frame is rejected as truncated, so a reader knows to wait for more. */
  lemma FramePrefixIsTruncated(m: Message, from: U64, to: U64, k: nat)
    requires FitsFrame(m) && k < |Frame(m, from, to)|
    ensures ReadFrame(Frame(m, from, to)[..k]) == Fail(TruncatedMessage)
  {
    hide ReadFrame, Frame, FitsFrame;
    var f := Frame(m, from, to);
    var prefix, more := f[..k], f[k..];
    assert prefix + more == f && f + [] == f;
    FrameRoundTrip(m, from, to, []);
    FrameStable(prefix, more);
    assert more != [];
  }

  /** What is accepted is a frame: some route, the type of the message, and a payload that is one whole message. */
  lemma FrameExact(d: seq<Byte>) returns (route: Route, payload: seq<Byte>)
    requires ReadFrame(d).Done?
    ensures Short32(payload) && Decode(payload) == Ok(ReadFrame(d).value)
    ensures d == PrintFrame(route, ReadFrame(d).value.msgType, payload, ReadFrame(d).rest)
  {
    hide ReadU32, ReadU64, Decode, Little;
    U32Exact(d);
    var d1 := ReadU32(d).rest;
    U32Exact(d1);
    var d2 := ReadU32(d1).rest;
    U64Exact(d2);
    var d3 := ReadU64(d2).rest;
    U64Exact(d3);
    var d4 := ReadU64(d3).rest;
    U64Exact(d4);
    var d5 := ReadU64(d4).rest;
    ByteExact(d5);
    var d6 := ReadByte(d5).rest;
    U32Exact(d6);
    var d7 := ReadU32(d6).rest;
    route := Route(ReadU64(d2).value, ReadU64(d3).value, ReadU64(d4).value);
    payload := d7[..ReadU32(d6).value];
    assert d7 == payload + ReadFrame(d).rest;
    assert TypeByte(MESSAGE_TYPES[ReadByte(d5).value]) == ReadByte(d5).value;
  }

  /** Which fault in the fixed part is reported, told by what stands where. */
  lemma FrameHeadRefused(d: seq<Byte>)
    ensures var magicOk, versionOk := At(d, 0, Little(4, CODEC_MAGIC)), At(d, 4, Little(4, CODEC_VERSION));
      var h := ReadFrameHead(d);
      && (h == Fail(InvalidMagic) <==> |d| >= 4 && !magicOk)
      && (h == Fail(InvalidVersion) <==> |d| >= 8 && magicOk && !versionOk)
      && (h == Fail(InvalidMessageType) <==> |d| >= 33 && magicOk && versionOk && d[32] >= 19)
      && (h.Done? <==> |d| >= 37 && magicOk && versionOk && d[32] < 19)
      && (h.Fail? ==> h.error in {InvalidMagic, InvalidVersion, InvalidMessageType, TruncatedMessage})
      && (h.Done? ==> d[32] == TypeByte(h.value.msgType) && At(d, 33, Little(4, h.value.length)) && h.rest == d[37..])
  {
    hide Little, Value, TypeByte;
    Limits();
    if |d| >= 4 { ValueIs(d[..4], CODEC_MAGIC); }
    if |d| >= 8 { ValueIs(d[4..][..4], CODEC_VERSION); }
    assert |d| >= 8 ==> d[4..8] == d[4..][..4];
    if |d| >= 33 {
      assert d[4..][4..] == d[8..] && d[8..][8..] == d[16..] && d[16..][8..] == d[24..] && d[24..][8..] == d[32..];
      assert d[32..][0] == d[32] && d[32..][1..] == d[33..];
      if d[32] < 19 { TypeOfByte(d[32]); }
      if |d| >= 37 {
        assert d[33..][..4] == d[33..37] && d[33..][4..] == d[37..];
        LittleOfValue(d[33..37]);
      }
    }
  }

  lemma TypeOfByte(b: Byte)
    requires b < 19
    ensures TypeByte(MESSAGE_TYPES[b]) == b
  {
  }

  /** A mismatch is reported exactly when the payload is a whole message of another type than the header names. */
  lemma MismatchExactly(d: seq<Byte>)
    requires |d| >= 37 && At(d, 0, Little(4, CODEC_MAGIC)) && At(d, 4, Little(4, CODEC_VERSION)) && d[32] < 19
    ensures var end := 37 + Value(d[33..37]);
      ReadFrame(d) == Fail(MessageTypeMismatch) <==>
        end <= |d| && Decode(d[37..end]).Ok? && TypeByte(Decode(d[37..end]).value.msgType) != d[32]
  {
    hide Little, Value, Decode, ReadFrameHead;
    FrameHeadRefused(d);
    var h := ReadFrameHead(d);
    Limits();
    ValueIs(d[33..37], h.value.length);
    var end := 37 + h.value.length;
    if end <= |d| {
      assert d[37..][..h.value.length] == d[37..end];
      DecodeErrors(d[37..end]);
    }
  }

  // ----- A stream of frames --------------------------------------------------------------------

  datatype Sent = Sent(message: Message, from: U64, to: U64)

  predicate CanSend(sent: seq<Sent>) { forall i :: 0 <= i < |sent| ==> FitsFrame(sent[i].message) }

  function Messages(sent: seq<Sent>): seq<Message> {
    seq(|sent|, i requires 0 <= i < |sent| => sent[i].message)
  }

  /** The bytes of frames written one behind the other. */
  function Stream(sent: seq<Sent>): seq<Byte>
    requires CanSend(sent)
  {
    if sent == [] then [] else Frame(sent[0].message, sent[0].from, sent[0].to) + Stream(sent[1..])
  }

  /** A reader that decodes frames until the bytes it has no longer hold a whole one. */
  function Received(d: seq<Byte>): (r: (seq<Message>, Read<Message>))
    decreases |d|
  {
    var f := ReadFrame(d);
    if f.Fail? || |f.rest| >= |d| then ([], f)
    else
      var (ms, end) := Received(f.rest);
      ([f.value] + ms, end)
  }

  lemma FrameIsNotEmpty(m: Message, from: U64, to: U64)
    requires FitsFrame(m)
    ensures Frame(m, from, to) != []
  {
  }

  /** However far the stream was cut into its last frame, exactly the messages of the whole frames are received. */
  lemma {:induction false} StreamIsReceived(sent: seq<Sent>, next: Sent, k: nat)
    requires CanSend(sent) && FitsFrame(next.message) && k < |Frame(next.message, next.from, next.to)|
    ensures Received(Stream(sent) + Frame(next.message, next.from, next.to)[..k])
      == (Messages(sent), Fail(TruncatedMessage))
  {
    hide ReadFrame, Frame, FitsFrame;
    var part := Frame(next.message, next.from, next.to)[..k];
    if sent == [] {
      assert [] + part == part && Messages([]) == [];
      FramePrefixIsTruncated(next.message, next.from, next.to, k);
    } else {
      var first := sent[0];
      var tail := Stream(sent[1..]) + part;
      Regroup(Frame(first.message, first.from, first.to), Stream(sent[1..]), part);
      FrameRoundTrip(first.message, first.from, first.to, tail);
      FrameIsNotEmpty(first.message, first.from, first.to);
      StreamIsReceived(sent[1..], next, k);
      assert Messages(sent) == [first.message] + Messages(sent[1..]);
    }
  }

  // ----- Envelopes -----------------------------------------------------------------------------

  function PrintEnvelope(group: U64, payload: seq<Byte>): (r: seq<Byte>)
    ensures |r| == ENVELOPE_HEADER_SIZE + |payload|
  {
    Little(4, ENVELOPE_MAGIC) + (Little(4, ENVELOPE_VERSION) + (Little(8, group) + (Little(4, |payload|) + payload)))
  }

  /** Where everything stands in an envelope. */
  lemma EnvelopeLayout(group: U64, payload: seq<Byte>)
    ensures var d := PrintEnvelope(group, payload);
      && |d| == 20 + |payload|
      && At(d, 0, Little(4, ENVELOPE_MAGIC)) && At(d, 4, Little(4, ENVELOPE_VERSION))
      && At(d, 8, Little(8, group)) && At(d, 16, Little(4, |payload|)) && At(d, 20, payload)
  {
    hide Little;
    var d := PrintEnvelope(group, payload);
    var r3 := Little(4, |payload|) + payload;
    var r2 := Little(8, group) + r3;
    var r1 := Little(4, ENVELOPE_VERSION) + r2;
    assert d[0..] == Little(4, ENVELOPE_MAGIC) + r1;
    Next(d, 0, Little(4, ENVELOPE_MAGIC), r1);
    Next(d, 4, Little(4, ENVELOPE_VERSION), r2);
    Next(d, 8, Little(8, group), r3);
    Next(d, 16, Little(4, |payload|), payload);
    assert d[20..] == payload + [];
    Next(d, 20, payload, []);
  }

  datatype EnvelopeHead = EnvelopeHead(group: U64, length: U32)

  function ReadEnvelopeHead(d: seq<Byte>): Read<EnvelopeHead> {
    match ReadU32(d) case Fail(e) => Fail(e) case Done(magic, d1) =>
    if magic != ENVELOPE_MAGIC then Fail(InvalidMagic) else
    match ReadU32(d1) case Fail(e) => Fail(e) case Done(version, d2) =>
    if version != ENVELOPE_VERSION then Fail(InvalidVersion) else
    match ReadU64(d2) case Fail(e) => Fail(e) case Done(group, d3) =>
    if group == 0 then Fail(DecodeError.InvalidGroupId) else
    match ReadU32(d3) case Fail(e) => Fail(e) case Done(n, d4) => Done(EnvelopeHead(group, n), d4)
  }

  datatype Envelope = Envelope(groupId: U64, message: Message)

  /** An envelope fills its buffer: a longer buffer has trailing data, a shorter one is truncated. */
  function ReadEnvelope(d: seq<Byte>): Result<Envelope, DecodeError> {
    if |d| < ENVELOPE_HEADER_SIZE then Err(TruncatedMessage) else
    match ReadEnvelopeHead(d) case Fail(e) => Err(e) case Done(head, payload) =>
    if head.length < |payload| then Err(TrailingData) else
    if head.length > |payload| then Err(TruncatedMessage) else
    match Decode(payload) case Err(e) => Err(e) case Ok(m) => Ok(Envelope(head.group, m))
  }

  lemma EnvelopeHeadPrinted(group: U64, n: U32, rest: seq<Byte>)
    requires group != 0
    ensures ReadEnvelopeHead(Little(4, ENVELOPE_MAGIC) + (Little(4, ENVELOPE_VERSION) + (Little(8, group)
      + (Little(4, n) + rest)))) == Done(EnvelopeHead(group, n), rest)
  {
    hide ReadU32, ReadU64, Little;
    U32Printed(ENVELOPE_MAGIC, Little(4, ENVELOPE_VERSION) + (Little(8, group) + (Little(4, n) + rest)));
    U32Printed(ENVELOPE_VERSION, Little(8, group) + (Little(4, n) + rest));
    U64Printed(group, Little(4, n) + rest);
    U32Printed(n, rest);
  }

  /** Envelopes come back whole; cut short they are truncated, and with anything added they have trailing data. */
  lemma EnvelopeRoundTrip(group: U64, m: Message)
    requires group != 0 && FitsFrame(m)
    ensures ReadEnvelope(PrintEnvelope(group, Encode(m))) == Ok(Envelope(group, m))
    ensures forall k :: 0 <= k < |PrintEnvelope(group, Encode(m))| ==>
      ReadEnvelope(PrintEnvelope(group, Encode(m))[..k]) == Err(TruncatedMessage)
    ensures forall more: seq<Byte> :: more != [] ==>
      ReadEnvelope(PrintEnvelope(group, Encode(m)) + more) == Err(TrailingData)
  {
    hide ReadEnvelopeHead, Decode, Encode, Little;
    var payload := Encode(m);
    var whole := PrintEnvelope(group, payload);
    EnvelopeHeadPrinted(group, |payload|, payload);
    RoundTrip(m);
    forall k | 0 <= k < |whole| ensures ReadEnvelope(whole[..k]) == Err(TruncatedMessage) {
      if k >= ENVELOPE_HEADER_SIZE {
        var part := payload[..k - ENVELOPE_HEADER_SIZE];
        EnvelopeHeadPrinted(group, |payload|, part);
        EnvelopePart(group, payload, k);
      }
    }
    forall more: seq<Byte> | more != [] ensures ReadEnvelope(whole + more) == Err(TrailingData) {
      EnvelopeHeadPrinted(group, |payload|, payload + more);
      EnvelopeMore(group, payload, more);
    }
  }

  lemma EnvelopePart(group: U64, payload: seq<Byte>, k: nat)
    requires ENVELOPE_HEADER_SIZE <= k <= ENVELOPE_HEADER_SIZE + |payload|
    ensures PrintEnvelope(group, payload)[..k] == Little(4, ENVELOPE_MAGIC) + (Little(4, ENVELOPE_VERSION)
      + (Little(8, group) + (Little(4, |payload|) + payload[..k - ENVELOPE_HEADER_SIZE])))
  {
    hide Little;
    var part, left := payload[..k - ENVELOPE_HEADER_SIZE], payload[k - ENVELOPE_HEADER_SIZE..];
    assert payload == part + left;
    var d := Little(4, |payload|) + part;
    assert Little(4, |payload|) + payload == d + left;
    var c := Little(8, group) + d;
    Regroup(Little(8, group), d, left);
    var b := Little(4, ENVELOPE_VERSION) + c;
    Regroup(Little(4, ENVELOPE_VERSION), c, left);
    Regroup(Little(4, ENVELOPE_MAGIC), b, left);
    assert PrintEnvelope(group, payload) == (Little(4, ENVELOPE_MAGIC) + b) + left;
  }

  lemma EnvelopeMore(group: U64, payload: seq<Byte>, more: seq<Byte>)
    ensures PrintEnvelope(group, payload) + more == Little(4, ENVELOPE_MAGIC) + (Little(4, ENVELOPE_VERSION)
      + (Little(8, group) + (Little(4, |payload|) + (payload + more))))
  {
    hide Little;
    var d := Little(4, |payload|) + payload;
    Regroup(Little(4, |payload|), payload, more);
    var c := Little(8, group) + d;
    Regroup(Little(8, group), d, more);
    Regroup(Little(4, ENVELOPE_VERSION), c, more);
    Regroup(Little(4, ENVELOPE_MAGIC), Little(4, ENVELOPE_VERSION) + c, more);
  }

  /** Group 0 is never accepted, and every accepted envelope is the printing of its group and payload. */
  lemma EnvelopeExact(d: seq<Byte>) returns (payload: seq<Byte>)
    requires ReadEnvelope(d).Ok?
    ensures ReadEnvelope(d).value.groupId != 0
    ensures Decode(payload) == Ok(ReadEnvelope(d).value.message)
    ensures d == PrintEnvelope(ReadEnvelope(d).value.groupId, payload)
  {
    hide ReadU32, ReadU64, Decode, Little;
    U32Exact(d);
    var d1 := ReadU32(d).rest;
    U32Exact(d1);
    var d2 := ReadU32(d1).rest;
    U64Exact(d2);
    var d3 := ReadU64(d2).rest;
    U32Exact(d3);
    payload := ReadU32(d3).rest;
  }

  /** Which fault of an envelope is reported, told by what stands where. */
  lemma EnvelopeRefused(d: seq<Byte>)
    ensures var e := ReadEnvelope(d);
      var magicOk, versionOk := At(d, 0, Little(4, ENVELOPE_MAGIC)), At(d, 4, Little(4, ENVELOPE_VERSION));
      && (|d| < 20 ==> e == Err(TruncatedMessage))
      && (|d| >= 20 ==>
            var grouped := magicOk && versionOk && !At(d, 8, Little(8, 0));
            var n := Value(d[16..20]);
            && (!magicOk ==> e == Err(InvalidMagic))
            && (magicOk && !versionOk ==> e == Err(InvalidVersion))
            && (magicOk && versionOk && At(d, 8, Little(8, 0)) ==> e == Err(DecodeError.InvalidGroupId))
            && (grouped && n < |d| - 20 ==> e == Err(TrailingData))
            && (grouped && n > |d| - 20 ==> e == Err(TruncatedMessage))
            && (grouped && n == |d| - 20 ==>
                  && (Decode(d[20..]).Err? <==> e.Err?)
                  && (e.Err? ==> e.error == Decode(d[20..]).error)))
  {
    hide Little, Value, Decode;
    Limits();
    if |d| >= 20 {
      ValueIs(d[..4], ENVELOPE_MAGIC);
      ValueIs(d[4..][..4], ENVELOPE_VERSION);
      assert d[4..8] == d[4..][..4] && d[4..][4..] == d[8..] && d[8..][..8] == d[8..16] && d[8..][8..] == d[16..];
      ValueIs(d[8..16], 0);
      assert d[16..][..4] == d[16..20] && d[16..][4..] == d[20..];
    }
  }

  // ----- As they run ---------------------------------------------------------------------------

  method EncodeFramed(m: Message, from: U64, to: U64) returns (r: Result<seq<Byte>, EncodeError>)
    ensures r == if FitsFrame(m) then Ok(Frame(m, from, to)) else Err(MessageTooLarge)
  {
    hide Encode, Fits, Little;
    var payload := EncodeMessage(m);
    if payload.Err? { return payload; }
    if |payload.value| >= 0x1_0000_0000 { return Err(MessageTooLarge); }
    var frame := Little(4, CODEC_MAGIC) + Little(4, CODEC_VERSION);
    frame := frame + Little(8, from) + Little(8, to) + Little(8, 0);
    frame := frame + [TypeByte(m.msgType)] + Little(4, |payload.value|);
    frame := frame + payload.value;
    FrameInOrder(Route(from, to, 0), m.msgType, payload.value);
    return Ok(frame);
  }

  lemma FrameInOrder(route: Route, t: MessageType, payload: seq<Byte>)
    ensures PrintFrame(route, t, payload, []) == Little(4, CODEC_MAGIC) + Little(4, CODEC_VERSION)
      + Little(8, route.from) + Little(8, route.to) + Little(8, route.requestId)
      + [TypeByte(t)] + Little(4, |payload|) + payload
  {
    hide Little;
    var r7 := Little(4, |payload|) + payload;
    var r6 := [TypeByte(t)] + r7;
    var r5 := Little(8, route.requestId) + r6;
    var r4 := Little(8, route.to) + r5;
    var h2 := Little(4, CODEC_MAGIC) + Little(4, CODEC_VERSION);
    var h3 := h2 + Little(8, route.from);
    var h4 := h3 + Little(8, route.to);
    var h5 := h4 + Little(8, route.requestId);
    assert payload + [] == payload;
    Regroup(Little(4, CODEC_MAGIC), Little(4, CODEC_VERSION), Little(8, route.from) + r4);
    Regroup(h2, Little(8, route.from), r4);
    Regroup(h3, Little(8, route.to), r5);
    Regroup(h4, Little(8, route.requestId), r6);
    Regroup(h5, [TypeByte(t)], r7);
    Regroup(h5 + [TypeByte(t)], Little(4, |payload|), payload);
  }

  datatype FramedDecodeResult = FramedDecodeResult(message: Message, bytesConsumed: nat)

  /** The bytes consumed are those before what `ReadFrame` leaves. */
  method DecodeFramed(data: seq<Byte>) returns (r: Result<FramedDecodeResult, DecodeError>)
    ensures match ReadFrame(data)
      case Fail(e) => r == Err(e)
      case Done(m, rest) =>
        && r.Ok? && r.value.message == m
        && r.value.bytesConsumed <= |data| && data[r.value.bytesConsumed..] == rest
  {
    hide ReadU32, ReadU64, ReadByte, Decode;
    var d := new Decoder(data);
    assert d.Rest() == data;
    var magic := ReadU32At(d);
    if magic.Err? { return Err(magic.error); }
    if magic.value != CODEC_MAGIC { return Err(InvalidMagic); }
    var version := ReadU32At(d);
    if version.Err? { return Err(version.error); }
    if version.value != CODEC_VERSION { return Err(InvalidVersion); }
    var from := ReadU64At(d);
    if from.Err? { return Err(from.error); }
    var to := ReadU64At(d);
    if to.Err? { return Err(to.error); }
    var requestId := ReadU64At(d);
    if requestId.Err? { return Err(requestId.error); }
    var t := ReadByteAt(d);
    if t.Err? { return Err(t.error); }
    if t.value >= 19 { return Err(InvalidMessageType); }
    var n := ReadU32At(d);
    if n.Err? { return Err(n.error); }
    var payload := d.TakeBytes(n.value);
    if payload.None? { return Err(TruncatedMessage); }
    var m := DecodeMessage(payload.value);
    if m.Err? { return Err(m.error); }
    if m.value.msgType != MESSAGE_TYPES[t.value] { return Err(MessageTypeMismatch); }
    return Ok(FramedDecodeResult(m.value, d.pos));
  }

  method EncodeEnvelope(e: Envelope) returns (r: Result<seq<Byte>, EncodeError>)
    ensures r == if e.groupId == 0 then Err(EncodeError.InvalidGroupId)
                 else if FitsFrame(e.message) then Ok(PrintEnvelope(e.groupId, Encode(e.message)))
                 else Err(MessageTooLarge)
  {
    hide Encode, Fits, Little;
    if e.groupId == 0 { return Err(EncodeError.InvalidGroupId); }
    var payload := EncodeMessage(e.message);
    if payload.Err? { return payload; }
    if |payload.value| >= 0x1_0000_0000 { return Err(MessageTooLarge); }
    var frame := Little(4, ENVELOPE_MAGIC) + Little(4, ENVELOPE_VERSION);
    frame := frame + Little(8, e.groupId);
    frame := frame + Little(4, |payload.value|);
    frame := frame + payload.value;
    assert frame == PrintEnvelope(e.groupId, payload.value);
    return Ok(frame);
  }

  method DecodeEnvelope(data: seq<Byte>) returns (r: Result<Envelope, DecodeError>)
    ensures r == ReadEnvelope(data)
  {
    hide ReadU32, ReadU64, Decode;
    if |data| < ENVELOPE_HEADER_SIZE { return Err(TruncatedMessage); }
    var d := new Decoder(data);
    assert d.Rest() == data;
    var magic := ReadU32At(d);
    if magic.Err? { return Err(magic.error); }
    if magic.value != ENVELOPE_MAGIC { return Err(InvalidMagic); }
    var version := ReadU32At(d);
    if version.Err? { return Err(version.error); }
    if version.value != ENVELOPE_VERSION { return Err(InvalidVersion); }
    var group := ReadU64At(d);
    if group.Err? { return Err(group.error); }
    if group.value == 0 { return Err(DecodeError.InvalidGroupId); }
    var n: Result<U32, DecodeError> := ReadU32At(d);
    if n.Err? { return Err(n.error); }
    var left := d.Remaining();
    if n.value < left { return Err(TrailingData); }
    if n.value > left { return Err(TruncatedMessage); }
    var m := DecodeMessage(data[d.pos..]);
    if m.Err? { return Err(m.error); }
    return Ok(Envelope(group.value, m.value));
  }
}
