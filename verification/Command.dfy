/** The five commands: request payloads, the local size check, and what a caller reads out of its
    terminal frame. */
module Command {
  import opened LittleEndian
  import opened Wrappers
  import opened EntryRegion
  import opened Protocol
  import opened Codec
  import opened Dispatch
  import opened Correlation
  import opened Driver

  datatype Request = Ping | Get(key: seq<Byte>) | Set(key: seq<Byte>, value: seq<Byte>)
                   | Del(key: seq<Byte>) | Exists(key: seq<Byte>)
  {
    function Opcode(): U16 {
      match this
      case Ping => PING_OPCODE
      case Get(_) => GET_OPCODE
      case Set(_, _) => SET_OPCODE
      case Del(_) => DEL_OPCODE
      case Exists(_) => EXISTS_OPCODE
    }
  }

  datatype SetEncodeError = KeyTooLong(length: nat) | PayloadTooLarge

  function EncodeSet(key: seq<Byte>, value: seq<Byte>): Result<seq<Byte>, SetEncodeError> {
    if |key| >= 0x1_0000_0000 then Err(KeyTooLong(|key|))
    else if 4 + |key| + |value| > 0xFFFF_FFFF then Err(PayloadTooLarge)
    else Ok(Le32(|key|) + key + value)
  }

  /** Splits a `SET` payload into its key and value. */
  function SplitSet(payload: seq<Byte>): Option<(seq<Byte>, seq<Byte>)> {
    if |payload| < 4 then None
    else
      var end := 4 + U32At(payload, 0);
      if end > |payload| then None else Some((payload[4..end], payload[end..]))
  }

  function RequestPayload(r: Request): Result<seq<Byte>, SetEncodeError> {
    match r
    case Ping => Ok([])
    case Get(key) => Ok(key)
    case Set(key, value) => EncodeSet(key, value)
    case Del(key) => Ok(key)
    case Exists(key) => Ok(key)
  }

  // ---------------------------------------------------------------- outcomes

  datatype GetOutcome = Present(value: seq<Byte>) | Missing | HeldOutsideMemory(logicalLength: U64)

  function ErrorOfFrame(f: Frame): ErrorClass {
    match ErrorClassFromWire(f.header.code)
    case None => ProtocolViolation
    case Some(cls) => cls
  }

  function InterpretGet(f: Frame): Result<GetOutcome, ErrorClass> {
    match f.header.kind
    case Request => Err(ProtocolViolation)
    case Error => Err(ErrorOfFrame(f))
    case Response =>
      match ResultCodeFromWire(f.header.code)
      case None => Err(ProtocolViolation)
      case Some(Success) => if f.payload.Opaque? then Ok(Present(f.payload.bytes)) else Err(ProtocolViolation)
      case Some(Absent) => Ok(Missing)
      case Some(ValueHeldOutsideMemory) =>
        if f.payload.Warm? then Ok(HeldOutsideMemory(f.payload.logicalLength)) else Err(ProtocolViolation)
  }

  /** `PING` and `SET`: done, or the class of the refusal. */
  function InterpretDone(f: Frame): Result<(), ErrorClass> {
    match f.header.kind
    case Request => Err(ProtocolViolation)
    case Error => Err(ErrorOfFrame(f))
    case Response => if ResultCodeFromWire(f.header.code) == Some(Success) then Ok(()) else Err(ProtocolViolation)
  }

  /** `DEL` and `EXISTS`: whether the key was there. */
  function InterpretFlag(f: Frame): Result<bool, ErrorClass> {
    match f.header.kind
    case Request => Err(ProtocolViolation)
    case Error => Err(ErrorOfFrame(f))
    case Response =>
      match ResultCodeFromWire(f.header.code)
      case Some(Success) => Ok(true)
      case Some(Absent) => Ok(false)
      case _ => Err(ProtocolViolation)
  }

  datatype CommandError =
    | LocalLimitExceeded(requested: nat, limit: U64)
    | InvalidRequest
    | OfClass(cls: ErrorClass)
    | TransportLost
    | ConnectionClosed
    | ConnectionUnusable
  {
    /** Whether the mutation may have taken effect. */
    predicate IsAmbiguous() {
      this == OfClass(InternalError) || TransportLost? || ConnectionClosed? || ConnectionUnusable?
    }
  }

  function FromDriver(error: DriverError): CommandError {
    match error
    case RequestFailed(failure) => OfClass(failure.cls)
    case SessionFatal(failure) => OfClass(failure.cls)
    case TransportError => TransportLost
    case SessionClosed => ConnectionClosed
    case SessionUnusable => ConnectionUnusable
  }

  /** A caller re-reads the terminal frame the driver attributed to it. */
  function DecodeOwn(bytes: seq<Byte>, limits: Limits): Result<Frame, CommandError> {
    var id := if |bytes| < 20 then 0 else U64At(bytes, 12);
    match Decode(bytes, OwnAdmission(id, limits))
    case Admitted(frame) => Ok(frame)
    case Refused(failure, _) => Err(OfClass(failure.cls))
    case Need(_) => Err(OfClass(ProtocolViolation))
  }

  // ---------------------------------------------------------------- the request path

  /** The size of a request on the wire, with an empty metadata region; it saturates at 64 bits. */
  function WireSize(length: nat): U64 {
    if HEADER_LENGTH + length < 0x1_0000_0000_0000_0000 then HEADER_LENGTH + length else 0xFFFF_FFFF_FFFF_FFFF
  }

  function EncodeCommand(opcode: U16, payload: seq<Byte>, id: U64, limits: Limits): Result<seq<Byte>, CommandError> {
    match EncodeWithMax(Outgoing(Kind.Request, opcode, id, [], Opaque(payload)), limits.frameSize, limits.metadataSize)
    case Ok(bytes) => Ok(bytes)
    case Err(MetadataNotAscending) => Err(InvalidRequest)
    case Err(_) => Err(LocalLimitExceeded(WireSize(|payload|), limits.frameSize))
  }

  /** The command passes the checks made before it is given a permit. */
  predicate Fits(r: Request, limits: Limits) {
    RequestPayload(r).Ok? && WireSize(|RequestPayload(r).value|) <= limits.frameSize
  }

  function EncodeRequest(r: Request, id: U64, limits: Limits): Result<seq<Byte>, CommandError>
    requires Fits(r, limits)
  {
    EncodeCommand(r.Opcode(), RequestPayload(r).value, id, limits)
  }

  /** The local size check is exact: under any negotiated frame size, a request is encoded if and
      only if the check passes, and is otherwise refused with its own size and the limit. */
  lemma SizeCheckExact(opcode: U16, payload: seq<Byte>, id: U64, limits: Limits)
    requires limits.frameSize < 0x1_0000_0000
    ensures EncodeCommand(opcode, payload, id, limits).Ok? <==> WireSize(|payload|) <= limits.frameSize
    ensures WireSize(|payload|) > limits.frameSize ==>
              EncodeCommand(opcode, payload, id, limits)
              == Err(LocalLimitExceeded(WireSize(|payload|), limits.frameSize))
  {
    var o := Outgoing(Kind.Request, opcode, id, [], Opaque(payload));
    if WireSize(|payload|) <= limits.frameSize {
      EncodeSucceeds(o, payload, limits.frameSize, limits.metadataSize);
    }
    if EncodeCommand(opcode, payload, id, limits).Ok? {
      EncodedParts(o, limits.frameSize, limits.metadataSize);
    }
    EncodeFails(o, limits.frameSize, limits.metadataSize);
  }

  /** The check made before a permit is asked for lets through exactly the commands that can be sent. */
  lemma FitsExactly(r: Request, id: U64, limits: Limits)
    requires limits.frameSize < 0x1_0000_0000
    ensures Fits(r, limits)
            <==> RequestPayload(r).Ok? && EncodeCommand(r.Opcode(), RequestPayload(r).value, id, limits).Ok?
  {
    if RequestPayload(r).Ok? { SizeCheckExact(r.Opcode(), RequestPayload(r).value, id, limits); }
  }

  /** The operation's wire number and payload. */
  function Operation(r: Request): (Byte, seq<Byte>)
    requires r.Set? ==> |r.key| < 0x1_0000_0000
  {
    match r
    case Ping => (2, [])
    case Get(key) => (3, key)
    case Set(key, value) => (4, Le32(|key|) + key + value)
    case Del(key) => (5, key)
    case Exists(key) => (6, key)
  }

  /** The bytes of every command: version 0, a request, no flags, the operation's own number, no
      metadata, the payload's length, the id, and the payload. */
  lemma CommandOnWire(r: Request, id: U64, limits: Limits)
    requires Fits(r, limits) && limits.frameSize < 0x1_0000_0000
    ensures r.Set? ==> |r.key| < 0x1_0000_0000
    ensures |Operation(r).1| < 0x1_0000_0000
    ensures EncodeRequest(r, id, limits)
            == Ok([0, 1, 0, 0, Operation(r).0, 0, 0, 0] + Le32(|Operation(r).1|) + Le64(id) + Operation(r).1)
  {
    var payload := RequestPayload(r).value;
    var o := Outgoing(Kind.Request, r.Opcode(), id, [], Opaque(payload));
    SizeCheckExact(r.Opcode(), payload, id, limits);
    EncodeSucceeds(o, payload, limits.frameSize, limits.metadataSize);
    SmallField(0);
    SmallField(r.Opcode());
    RequestHeader(r.Opcode(), |payload|, id);
    assert payload == Operation(r).1 && r.Opcode() == Operation(r).0;
    var header := HeaderBytes(RawHeader(0, 1, 0, r.Opcode(), 0, |payload|, id));
    assert header + Print(o.metadata) == header;
  }

  lemma SmallField(n: Byte)
    ensures Le16(n) == [n, 0]
  {
    BoundValues();
    ByteAt(n, 2, 0);
    ByteAt(n, 2, 1);
  }

  lemma RequestHeader(code: Byte, length: U32, id: U64)
    requires Le16(code) == [code, 0] && Le16(0) == [0, 0]
    ensures HeaderBytes(RawHeader(0, 1, 0, code, 0, length, id))
            == [0, 1, 0, 0, code, 0, 0, 0] + Le32(length) + Le64(id)
  {
  }

  /** A `SET` is refused exactly when its key cannot be counted or its payload cannot. */
  lemma SetFails(key: seq<Byte>, value: seq<Byte>)
    ensures EncodeSet(key, value).Ok? <==> 4 + |key| + |value| < 0x1_0000_0000
    ensures EncodeSet(key, value) == Err(KeyTooLong(|key|)) <==> |key| >= 0x1_0000_0000
  {
  }

  lemma SetPayload(key: seq<Byte>, value: seq<Byte>)
    requires EncodeSet(key, value).Ok?
    ensures var p := EncodeSet(key, value).value;
            && SplitSet(p) == Some((key, value))
            && |p| >= 4 && 4 + U32At(p, 0) <= |p|
  {
    var p := EncodeSet(key, value).value;
    assert p[0..4] == Le32(|key|);
    Field32(p, 0, |key|);
  }

  /** Whatever a `SET` payload splits into is what it was encoded from. */
  lemma SetCanonical(payload: seq<Byte>)
    requires SplitSet(payload).Some? && |payload| < 0x1_0000_0000
    ensures EncodeSet(SplitSet(payload).value.0, SplitSet(payload).value.1) == Ok(payload)
  {
    FieldBytes(payload, 0);
    var end := 4 + U32At(payload, 0);
    assert payload == payload[0..4] + payload[4..end] + payload[end..];
  }

  /** Every frame the five commands send is admitted by a negotiated server under the same limits
      with the id not in flight, and carries the command's own opcode, id and payload; a `SET`
      payload splits back into its key and value. */
  lemma ServerAdmits(r: Request, id: U64, limits: Limits, inFlight: seq<U64>, rest: seq<Byte>)
    requires limits.frameSize < 0x1_0000_0000 && id != 0 && id !in inFlight
    requires RequestPayload(r).Ok? && WireSize(|RequestPayload(r).value|) <= limits.frameSize
    ensures var payload := RequestPayload(r).value;
            var sent := EncodeCommand(r.Opcode(), payload, id, limits);
            && sent.Ok?
            && Decode(sent.value + rest, Admission(Server, Negotiated, limits, inFlight))
               == Admitted(Frame(Header(0, Kind.Request, 0, r.Opcode(), 0, |payload|, id), [], Opaque(payload), 0))
            && (r.Set? ==> SplitSet(payload) == Some((r.key, r.value)))
  {
    var payload := RequestPayload(r).value;
    var o := Outgoing(Kind.Request, r.Opcode(), id, [], Opaque(payload));
    SizeCheckExact(r.Opcode(), payload, id, limits);
    if r.Set? { SetPayload(r.key, r.value); }
    CommandReceivable(o, payload, limits, inFlight);
    EncodeDecode(o, limits.frameSize, limits.metadataSize, Admission(Server, Negotiated, limits, inFlight), rest);
  }

  lemma CommandReceivable(o: Outgoing, payload: seq<Byte>, limits: Limits, inFlight: seq<U64>)
    requires o == Outgoing(Kind.Request, o.code, o.requestId, [], Opaque(payload))
    requires o.code in {PING_OPCODE, GET_OPCODE, SET_OPCODE, DEL_OPCODE, EXISTS_OPCODE}
    requires o.requestId != 0 && o.requestId !in inFlight
    requires PayloadFits(OperationRequest(o.code), Opaque(payload))
    requires EncodeWithMax(o, limits.frameSize, limits.metadataSize).Ok?
    ensures Receivable(o, |EncodeWithMax(o, limits.frameSize, limits.metadataSize).value|,
                       Admission(Server, Negotiated, limits, inFlight))
    ensures RetiresOf(o) == 0
  {
    EncodedParts(o, limits.frameSize, limits.metadataSize);
    assert Correlate(o.kind, o.code, o.requestId, inFlight) == Ok(OperationRequest(o.code));
  }

  // ---------------------------------------------------------------- the reply path

  /** A caller's frame is always readable, and the interpreters' shape-mismatch branches never run:
      for `GET` a success carries its bytes and a held value its length, for `PING` and `SET` only a
      success is done, for `DEL` and `EXISTS` a success and an absence tell the key apart, and for all
      of them a refusal carries its own class. */
  lemma OwnFrameInterpreted(bytes: seq<Byte>, id: U64, limits: Limits)
    requires Decode(bytes, OwnAdmission(id, limits)).Admitted? && |bytes| >= HEADER_LENGTH && HeadId(bytes) == id
    ensures var f := Decode(bytes, OwnAdmission(id, limits)).frame;
            var start := HEADER_LENGTH + f.header.metadataLength;
            && DecodeOwn(bytes, limits) == Ok(f)
            && !f.header.kind.Request?
            && (f.header.kind.Response? ==>
                  && ResultCodeFromWire(f.header.code).Some?
                  && InterpretGet(f) == (match ResultCodeFromWire(f.header.code).value
                                         case Success => Ok(Present(bytes[start..HeadTotal(bytes)]))
                                         case Absent => Ok(Missing)
                                         case ValueHeldOutsideMemory => Ok(HeldOutsideMemory(U64At(bytes, start))))
                  && InterpretDone(f) == (match ResultCodeFromWire(f.header.code).value
                                          case Success => Ok(())
                                          case _ => Err(ProtocolViolation))
                  && InterpretFlag(f) == match ResultCodeFromWire(f.header.code).value
                                         case Success => Ok(true)
                                         case Absent => Ok(false)
                                         case ValueHeldOutsideMemory => Err(ProtocolViolation))
            && (f.header.kind.Error? ==>
                  && ErrorClassFromWire(f.header.code).Some?
                  && InterpretGet(f) == Err(ErrorClassFromWire(f.header.code).value)
                  && InterpretDone(f) == Err(ErrorClassFromWire(f.header.code).value)
                  && InterpretFlag(f) == Err(ErrorClassFromWire(f.header.code).value))
  {
    AdmittedParts(bytes, OwnAdmission(id, limits));
    var raw, f := ParseHeader(bytes).value, Decode(bytes, OwnAdmission(id, limits)).frame;
    var end, total := HEADER_LENGTH + raw.metadataLength, raw.TotalLength();
    if raw.payloadLength >= 8 { FirstField(bytes, end, total); }
    FrameInterpreted(f, bytes[end..total], [id]);
  }

  /** Whichever command reads its own terminal frame as a failure, it is told that the command may have
      taken effect if and only if the frame is an error with the internal error's code; every error
      frame is read as the failure its code stands for. */
  lemma FrameToldExactly(bytes: seq<Byte>, id: U64, limits: Limits)
    requires Decode(bytes, OwnAdmission(id, limits)).Admitted? && |bytes| >= HEADER_LENGTH && HeadId(bytes) == id
    ensures DecodeOwn(bytes, limits).Ok?
    ensures var f := DecodeOwn(bytes, limits).value;
            var internal := bytes[1] == 3 && U16At(bytes, 4) == 0x000B;
            && (InterpretGet(f).Err? ==> (OfClass(InterpretGet(f).error).IsAmbiguous() <==> internal))
            && (InterpretDone(f).Err? ==> (OfClass(InterpretDone(f).error).IsAmbiguous() <==> internal))
            && (InterpretFlag(f).Err? ==> (OfClass(InterpretFlag(f).error).IsAmbiguous() <==> internal))
            && (bytes[1] == 3 ==>
                  exists cls: ErrorClass :: cls.Wire() == U16At(bytes, 4) && InterpretGet(f) == Err(cls)
                                            && InterpretDone(f) == Err(cls) && InterpretFlag(f) == Err(cls))
  {
    OwnFrameInterpreted(bytes, id, limits);
    AdmittedParts(bytes, OwnAdmission(id, limits));
    WireTables(U16At(bytes, 4));
  }

  lemma FirstField(bytes: seq<Byte>, start: nat, end: nat)
    requires start + 8 <= end <= |bytes|
    ensures U64At(bytes[start..end], 0) == U64At(bytes, start)
  {
    assert bytes[start..end][0..8] == bytes[start..start + 8];
  }

  /** The outcomes of a correlated frame whose payload was read as its code says. */
  lemma FrameInterpreted(f: Frame, payload: seq<Byte>, inFlight: seq<U64>)
    requires f.header.kind.Sender() == Server
    requires var c := Correlate(f.header.kind, f.header.code, f.header.requestId, inFlight);
             c.Ok? && ReadPayload(c.value, payload) == Ok(f.payload)
    ensures f.header.kind.Response? ==>
              && ResultCodeFromWire(f.header.code).Some?
              && var code := ResultCodeFromWire(f.header.code).value;
              && (code.ValueHeldOutsideMemory? ==> |payload| == 8)
              && InterpretGet(f) == (match code
                                     case Success => Ok(Present(payload))
                                     case Absent => Ok(Missing)
                                     case ValueHeldOutsideMemory => Ok(HeldOutsideMemory(U64At(payload, 0))))
              && InterpretDone(f) == (if code.Success? then Ok(()) else Err(ProtocolViolation))
              && InterpretFlag(f) == (match code
                                      case Success => Ok(true)
                                      case Absent => Ok(false)
                                      case ValueHeldOutsideMemory => Err(ProtocolViolation))
    ensures f.header.kind.Error? ==>
              && ErrorClassFromWire(f.header.code).Some?
              && var cls := ErrorClassFromWire(f.header.code).value;
              InterpretGet(f) == Err(cls) && InterpretDone(f) == Err(cls) && InterpretFlag(f) == Err(cls)
  {
  }

  /** What a reply is to the waiter that receives its bytes. */
  lemma ReplyReads(o: Outgoing, limits: Limits)
    requires Deliverable(o, limits)
    ensures RegionLength(o.metadata) < 0x1_0000
    ensures EncodePayload(o.payload).Ok? && |EncodePayload(o.payload).value| < 0x1_0000_0000
    ensures DecodeOwn(Wire(o, limits), limits) == Ok(FrameOf(o))
  {
    EncodeDecode(o, limits.frameSize, limits.metadataSize, OwnAdmission(o.requestId, limits), []);
    ReplyHead(o, [], limits);
    assert Wire(o, limits) + [] == Wire(o, limits);
  }

  function ValueReply(id: U64, value: seq<Byte>): Outgoing {
    Outgoing(Kind.Response, 0, id, [], Opaque(value))
  }

  /** A value fits a reply exactly when the frame limit holds it beside a header. */
  lemma ValueFits(id: U64, value: seq<Byte>, limits: Limits)
    requires limits.frameSize < 0x1_0000_0000
    ensures Deliverable(ValueReply(id, value), limits) <==> id != 0 && HEADER_LENGTH + |value| <= limits.frameSize
  {
    var o := ValueReply(id, value);
    if HEADER_LENGTH + |value| <= limits.frameSize {
      EncodeSucceeds(o, value, limits.frameSize, limits.metadataSize);
    }
    if EncodeWithMax(o, limits.frameSize, limits.metadataSize).Ok? {
      EncodedParts(o, limits.frameSize, limits.metadataSize);
      assert id != 0 ==> Correlate(Kind.Response, 0, id, [id]) == Ok(ResponseOf(Success));
    }
  }

  /** Over every run of the driver, every success sent to a submission is a frame of the stream that
      its caller can read and that names the caller's own request id. The caller reads the very frame
      that the driver read there: the one any receiver reads that has the id in flight, whatever other
      ids `ids` lists and whatever bytes follow. */
  lemma EverySuccessReadable(
    trace: seq<State>, events: seq<Event>, limits: Limits, n: nat, k: nat, ids: seq<U64>, rest: seq<Byte>)
    requires IsRun(trace, events, limits) && n < |trace| && k < |trace[n].session.log|
    requires trace[n].session.log[k].outcome.Ok?
    ensures var sent := trace[n].session.log[k];
            && sent.ticket < |trace[n].accepted|
            && k < |trace[n].session.frames| && sent.outcome.value == trace[n].session.frames[k]
            && DecodeOwn(sent.outcome.value, limits).Ok?
            && var id, own := trace[n].accepted[sent.ticket], DecodeOwn(sent.outcome.value, limits).value;
            && own.header.requestId == id
            && (id in ids ==> Decode(trace[n].session.frames[k] + rest, ClientAdmission(limits, ids)) == Admitted(own))
  {
    RightWaiter(trace, events, limits, n, k);
    var sent := trace[n].session.log[k];
    ReadAlike(sent.outcome.value, trace[n].accepted[sent.ticket], limits, ids, rest);
  }

  lemma ReadAlike(bytes: seq<Byte>, id: U64, limits: Limits, ids: seq<U64>, rest: seq<Byte>)
    requires |bytes| >= HEADER_LENGTH && HeadId(bytes) == id && Decode(bytes, OwnAdmission(id, limits)).Admitted?
    ensures DecodeOwn(bytes, limits) == Ok(Decode(bytes, OwnAdmission(id, limits)).frame)
    ensures DecodeOwn(bytes, limits).value.header.requestId == id
    ensures id in ids ==>
              Decode(bytes + rest, ClientAdmission(limits, ids)) == Admitted(DecodeOwn(bytes, limits).value)
  {
    AdmittedParts(bytes, OwnAdmission(id, limits));
    PrefixStable(bytes, rest, OwnAdmission(id, limits));
    HeaderStable(bytes, rest);
    if id in ids { OrderBlind(bytes + rest, OwnAdmission(id, limits), ids); }
  }

  /** A fatal failure of the stream reaches its waiters as a class that is not ambiguous, although no
      terminal response told them whether their mutation took effect. */
  lemma {:induction false} FatalNotAmbiguous(s: Session, limits: Limits)
    ensures Drain(s, limits).fatal.Some? ==>
              !FromDriver(SessionFatal(Drain(s, limits).fatal.value)).IsAmbiguous()
    decreases |s.buffer|
  {
    TurnProgress(s, limits);
    match Turned(s, limits)
    case Handled(next) => FatalNotAmbiguous(next, limits);
    case _ => FatalTurn(s, limits);
  }

  lemma FatalTurn(s: Session, limits: Limits)
    ensures Turned(s, limits).Fatal? ==> !FromDriver(SessionFatal(Turned(s, limits).failure)).IsAmbiguous()
  {
    TurnView(s, limits);
    RefusalClasses(s.buffer, ClientAdmission(limits, Listing(s.live)));
  }

  /** The decoder refuses with one of six failures, of which none is an internal error. */
  lemma RefusalClasses(input: seq<Byte>, admission: Admission)
    ensures Decode(input, admission).Refused? ==>
              Decode(input, admission).failure
              in {MALFORMED, UNSUPPORTED_VERSION, UNSUPPORTED_OPERATION, INVALID_ARGUMENT, RESOURCE_LIMIT, VIOLATION}
  {
  }
}
