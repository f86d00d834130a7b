/** The frame codec: wire types, the admission order of the decoder, and the encoder. */
module Protocol {
  import opened Sequences
  import opened LittleEndian
  import opened Wrappers
  import opened EntryRegion

  const HEADER_LENGTH: nat := 20
  const MAX_FRAME_SIZE: U64 := 65_536
  const MAX_METADATA_SIZE: U16 := 4_096

  const HANDSHAKE_OPCODE: U16 := 1
  const PING_OPCODE: U16 := 2
  const GET_OPCODE: U16 := 3
  const SET_OPCODE: U16 := 4
  const DEL_OPCODE: U16 := 5
  const EXISTS_OPCODE: U16 := 6

  datatype Role = Client | Server

  /** The connection state a receiver decodes under. */
  datatype Phase = PreNegotiation | Negotiated | Terminal

  datatype Limits = Limits(frameSize: U64, metadataSize: U16)

  const PRE_NEGOTIATION := Limits(MAX_FRAME_SIZE, MAX_METADATA_SIZE)

  datatype Admission = Admission(role: Role, phase: Phase, limits: Limits, inFlight: seq<U64>)

  // ---------------------------------------------------------------- wire tables

  datatype Kind = Request | Response | Error {
    function Wire(): Byte {
      match this
      case Request => 1
      case Response => 2
      case Error => 3
    }

    function Sender(): Role {
      if Request? then Client else Server
    }
  }

  function KindFromWire(value: Byte): Option<Kind> {
    match value
    case 1 => Some(Request)
    case 2 => Some(Response)
    case 3 => Some(Error)
    case _ => None
  }

  datatype ResultCode = Success | Absent | ValueHeldOutsideMemory {
    function Wire(): U16 {
      match this
      case Success => 0x0000
      case Absent => 0x0001
      case ValueHeldOutsideMemory => 0x0004
    }
  }

  function ResultCodeFromWire(value: U16): Option<ResultCode> {
    match value
    case 0x0000 => Some(Success)
    case 0x0001 => Some(Absent)
    case 0x0004 => Some(ValueHeldOutsideMemory)
    case _ => None
  }

  datatype Scope = RequestScoped | ConnectionFatal

  datatype ErrorClass =
    | MalformedRequest
    | UnsupportedProtocolVersion
    | UnsupportedOperation
    | InvalidArgument
    | ResourceLimit
    | Overloaded
    | InternalError
    | ProtocolViolation
    | WrongType
  {
    function Wire(): U16 {
      match this
      case MalformedRequest => 0x0001
      case UnsupportedProtocolVersion => 0x0002
      case UnsupportedOperation => 0x0003
      case InvalidArgument => 0x0004
      case ResourceLimit => 0x0005
      case Overloaded => 0x0008
      case InternalError => 0x000B
      case ProtocolViolation => 0x000C
      case WrongType => 0x000E
    }

    function FailureScope(): Scope {
      match this
      case MalformedRequest | UnsupportedProtocolVersion | ResourceLimit | ProtocolViolation => ConnectionFatal
      case UnsupportedOperation | InvalidArgument | Overloaded | InternalError | WrongType => RequestScoped
    }
  }

  function ErrorClassFromWire(value: U16): Option<ErrorClass> {
    match value
    case 0x0001 => Some(MalformedRequest)
    case 0x0002 => Some(UnsupportedProtocolVersion)
    case 0x0003 => Some(UnsupportedOperation)
    case 0x0004 => Some(InvalidArgument)
    case 0x0005 => Some(ResourceLimit)
    case 0x0008 => Some(Overloaded)
    case 0x000B => Some(InternalError)
    case 0x000C => Some(ProtocolViolation)
    case 0x000E => Some(WrongType)
    case _ => None
  }

  /** Reading a wire value and writing it are inverse on all three tables, so no value means two things. */
  lemma WireTables(value: U16)
    ensures forall kind: Kind :: value < 0x100 ==> (KindFromWire(value) == Some(kind) <==> kind.Wire() == value)
    ensures forall code: ResultCode :: ResultCodeFromWire(value) == Some(code) <==> code.Wire() == value
    ensures forall cls: ErrorClass :: ErrorClassFromWire(value) == Some(cls) <==> cls.Wire() == value
  {
  }

  datatype Failure = Failure(cls: ErrorClass, scope: Scope)

  const MALFORMED := Failure(MalformedRequest, ConnectionFatal)
  const UNSUPPORTED_VERSION := Failure(UnsupportedProtocolVersion, ConnectionFatal)
  const UNSUPPORTED_OPERATION := Failure(UnsupportedOperation, RequestScoped)
  const INVALID_ARGUMENT := Failure(InvalidArgument, RequestScoped)
  const RESOURCE_LIMIT := Failure(ResourceLimit, ConnectionFatal)
  const VIOLATION := Failure(ProtocolViolation, ConnectionFatal)

  // ---------------------------------------------------------------- frames

  datatype Payload =
    | Opaque(bytes: seq<Byte>)
    | Warm(logicalLength: U64)
    | Detailed(detail: seq<Byte>, text: seq<Byte>)

  datatype Header = Header(
    version: Byte, kind: Kind, flags: U16, code: U16,
    metadataLength: U16, payloadLength: U32, requestId: U64)

  datatype Frame = Frame(header: Header, metadata: seq<Entry>, payload: Payload, retires: U64)

  /** What decoding at the head of a buffer answers. */
  datatype Step =
    | Need(required: nat)
    | Admitted(frame: Frame)
    | Refused(failure: Failure, consumed: nat)

  datatype RawHeader = RawHeader(
    version: Byte, kind: Byte, flags: U16, code: U16,
    metadataLength: U16, payloadLength: U32, requestId: U64)
  {
    function TotalLength(): nat {
      HEADER_LENGTH + metadataLength + payloadLength
    }
  }

  function ParseHeader(input: seq<Byte>): Option<RawHeader> {
    if |input| < HEADER_LENGTH then None
    else Some(RawHeader(input[0], input[1], U16At(input, 2), U16At(input, 4),
                        U16At(input, 6), U32At(input, 8), U64At(input, 12)))
  }

  function HeaderBytes(raw: RawHeader): (bytes: seq<Byte>)
    ensures |bytes| == HEADER_LENGTH
  {
    [raw.version, raw.kind] + Le16(raw.flags) + Le16(raw.code) + Le16(raw.metadataLength)
    + Le32(raw.payloadLength) + Le64(raw.requestId)
  }

  // ---------------------------------------------------------------- the decoder

  /** The fields an admitted frame carries past the header checks. */
  datatype Admittance =
    | Pass(raw: RawHeader, kind: Kind, metadata: seq<Entry>, total: nat)
    | Stop(step: Step)

  /** The checks that read the header alone, in their fixed order. */
  function CheckHeader(raw: RawHeader, limits: Limits): Option<Failure> {
    if raw.version != 0 then Some(UNSUPPORTED_VERSION)
    else if KindFromWire(raw.kind).None? then Some(VIOLATION)
    else if raw.TotalLength() > limits.frameSize then Some(RESOURCE_LIMIT)
    else if raw.flags != 0 then Some(VIOLATION)
    else if raw.metadataLength > limits.metadataSize then Some(MALFORMED)
    else None
  }

  function Admit(input: seq<Byte>, role: Role, limits: Limits): Admittance {
    match ParseHeader(input)
    case None => Stop(Need(HEADER_LENGTH))
    case Some(raw) => AdmitRaw(input, raw, role, limits)
  }

  /** The admission checks once the header has been read. */
  function AdmitRaw(input: seq<Byte>, raw: RawHeader, role: Role, limits: Limits): Admittance {
    match CheckHeader(raw, limits)
    case Some(failure) => Stop(Refused(failure, |input|))
    case None =>
      var total := raw.TotalLength();
      if |input| < total then Stop(Need(total))
      else
        match Parse(input[HEADER_LENGTH..HEADER_LENGTH + raw.metadataLength])
        case None => Stop(Refused(MALFORMED, |input|))
        case Some(metadata) =>
          var kind := KindFromWire(raw.kind).value;
          if kind.Sender() == role then Stop(Refused(VIOLATION, |input|))
          else Pass(raw, kind, metadata, total)
  }

  function CheckPhase(phase: Phase, kind: Kind, code: U16): Option<Failure> {
    var isHandshake := kind.Request? && code == HANDSHAKE_OPCODE;
    match phase
    case PreNegotiation =>
      var responderTerminal := (kind.Response? && code == 0) || kind.Error?;
      if isHandshake || responderTerminal then None else Some(VIOLATION)
    case Negotiated =>
      if isHandshake then Some(VIOLATION) else None
    case Terminal =>
      Some(VIOLATION)
  }

  datatype Correlation =
    | HandshakeRequest
    | OperationRequest(opcode: U16)
    | ResponseOf(code: ResultCode)
    | ErrorOf(scope: Scope)

  predicate IsAssigned(opcode: U16) {
    opcode in {HANDSHAKE_OPCODE, PING_OPCODE, GET_OPCODE, SET_OPCODE, DEL_OPCODE, EXISTS_OPCODE}
  }

  function Correlate(kind: Kind, code: U16, requestId: U64, inFlight: seq<U64>): Result<Correlation, Failure> {
    match kind
    case Request =>
      if requestId == 0 then Err(VIOLATION)
      else if requestId in inFlight then Err(VIOLATION)
      else if code == HANDSHAKE_OPCODE then Ok(HandshakeRequest)
      else if IsAssigned(code) then Ok(OperationRequest(code))
      else Err(UNSUPPORTED_OPERATION)
    case Response =>
      if requestId == 0 then Err(VIOLATION)
      else if requestId !in inFlight then Err(VIOLATION)
      else (
        match ResultCodeFromWire(code)
        case None => Err(VIOLATION)
        case Some(result) => Ok(ResponseOf(result))
      )
    case Error =>
      match ErrorClassFromWire(code)
      case None => Err(VIOLATION)
      case Some(cls) =>
        if cls.FailureScope().RequestScoped? && (requestId == 0 || requestId !in inFlight) then Err(VIOLATION)
        else Ok(ErrorOf(cls.FailureScope()))
  }

  function CheckOperationRequest(opcode: U16, payload: seq<Byte>): Result<Payload, Failure> {
    if opcode == PING_OPCODE then
      if |payload| != 0 then Err(MALFORMED) else Ok(Opaque([]))
    else if opcode == SET_OPCODE then
      if |payload| < 4 then Err(MALFORMED)
      else if 4 + U32At(payload, 0) > |payload| then Err(MALFORMED)
      else Ok(Opaque(payload))
    else
      Ok(Opaque(payload))
  }

  function ReadPayload(correlation: Correlation, payload: seq<Byte>): Result<Payload, Failure> {
    match correlation
    case HandshakeRequest => Ok(Opaque(payload))
    case ResponseOf(Success) => Ok(Opaque(payload))
    case OperationRequest(opcode) => CheckOperationRequest(opcode, payload)
    case ResponseOf(Absent) =>
      if |payload| != 0 then Err(MALFORMED) else Ok(Opaque([]))
    case ResponseOf(ValueHeldOutsideMemory) =>
      if |payload| != 8 then Err(MALFORMED) else Ok(Warm(U64At(payload, 0)))
    case ErrorOf(_) =>
      if |payload| < 2 then Err(MALFORMED)
      else
        var detailEnd := U16At(payload, 0) + 2;
        if detailEnd > |payload| then Err(MALFORMED)
        else Ok(Detailed(payload[2..detailEnd], payload[detailEnd..]))
  }

  /** The request id an admitted frame retires, or the reserved 0 when it retires none. */
  function RetiresFor(correlation: Correlation, requestId: U64): U64 {
    match correlation
    case ResponseOf(_) => requestId
    case ErrorOf(RequestScoped) => requestId
    case ErrorOf(ConnectionFatal) => 0
    case HandshakeRequest => 0
    case OperationRequest(_) => 0
  }

  /** The bytes a refused frame occupies: all held bytes when the session cannot go on. */
  function StepFor(failure: Failure, total: nat, held: nat): Step {
    Refused(failure, if failure.scope.RequestScoped? then total else held)
  }

  function HeaderOf(raw: RawHeader, kind: Kind): Header {
    Header(raw.version, kind, raw.flags, raw.code, raw.metadataLength, raw.payloadLength, raw.requestId)
  }

  /** The checks that follow header admission, on a frame whose bytes are all present. */
  function Classify(a: Admittance, phase: Phase, inFlight: seq<U64>, payload: seq<Byte>): Result<Frame, Failure>
    requires a.Pass?
  {
    match CheckPhase(phase, a.kind, a.raw.code)
    case Some(failure) => Err(failure)
    case None =>
      match Correlate(a.kind, a.raw.code, a.raw.requestId, inFlight)
      case Err(failure) => Err(failure)
      case Ok(correlation) =>
        if !(StrictlyAscending(a.metadata) && AllOptional(a.metadata)) then Err(INVALID_ARGUMENT)
        else
          match ReadPayload(correlation, payload)
          case Err(failure) => Err(failure)
          case Ok(body) =>
            Ok(Frame(HeaderOf(a.raw, a.kind), a.metadata, body, RetiresFor(correlation, a.raw.requestId)))
  }

  /** Decodes one frame from the head of `input`. */
  function Decode(input: seq<Byte>, admission: Admission): Step {
    match Admit(input, admission.role, admission.limits)
    case Stop(step) => step
    case Pass(raw, kind, metadata, total) =>
      var a := Pass(raw, kind, metadata, total);
      assert HEADER_LENGTH + raw.metadataLength <= total <= |input|;
      match Classify(a, admission.phase, admission.inFlight, input[HEADER_LENGTH + raw.metadataLength..total])
      case Err(failure) => StepFor(failure, total, |input|)
      case Ok(frame) => Admitted(frame)
  }

  // ---------------------------------------------------------------- the encoder

  datatype Outgoing = Outgoing(kind: Kind, code: U16, requestId: U64, metadata: seq<Entry>, payload: Payload)

  datatype EncodeError = MetadataNotAscending | FrameTooLarge | MetadataTooLarge

  /** The length of the printed region. */
  function RegionLength(entries: seq<Entry>): nat {
    if entries == [] then 0 else 4 + |entries[0].value| + RegionLength(entries[1..])
  }

  /** The running sum over the metadata, refusing at the first entry out of order and at a
      sum past the 64-bit width. */
  function SumMetadata(entries: seq<Entry>, previous: Option<U16>, length: U64): Result<U64, EncodeError>
    decreases |entries|
  {
    if entries == [] then Ok(length)
    else if previous.Some? && entries[0].identifier <= previous.value then Err(MetadataNotAscending)
    else if length + 4 + |entries[0].value| >= 0x1_0000_0000_0000_0000 then Err(MetadataTooLarge)
    else SumMetadata(entries[1..], Some(entries[0].identifier), length + 4 + |entries[0].value|)
  }

  function CheckedMetadataLength(metadata: seq<Entry>, max: U16): Result<U64, EncodeError> {
    match SumMetadata(metadata, None, 0)
    case Err(error) => Err(error)
    case Ok(length) => if length > max then Err(MetadataTooLarge) else Ok(length)
  }

  function EncodePayload(payload: Payload): Result<seq<Byte>, EncodeError> {
    match payload
    case Opaque(bytes) => Ok(bytes)
    case Warm(n) => Ok(Le64(n))
    case Detailed(detail, text) =>
      if |detail| >= 0x1_0000 then Err(FrameTooLarge) else Ok(Le16(|detail|) + detail + text)
  }

  function EncodeWithMax(o: Outgoing, maxFrame: U64, maxMetadata: U16): Result<seq<Byte>, EncodeError> {
    match CheckedMetadataLength(o.metadata, maxMetadata)
    case Err(error) => Err(error)
    case Ok(metadataLength) =>
      match EncodePayload(o.payload)
      case Err(error) => Err(error)
      case Ok(payload) =>
        if |payload| >= 0x1_0000_0000 then Err(FrameTooLarge)
        else if HEADER_LENGTH + metadataLength + |payload| > maxFrame then Err(FrameTooLarge)
        else Ok(HeaderBytes(RawHeader(0, o.kind.Wire(), 0, o.code, metadataLength, |payload|, o.requestId))
                + Print(o.metadata) + payload)
  }

  /** The metadata sum as the encoder runs it. */
  method SumMetadataLoop(metadata: seq<Entry>, max: U16) returns (result: Result<U64, EncodeError>)
    ensures result == CheckedMetadataLength(metadata, max)
  {
    var previous: Option<U16> := None;
    var length: U64 := 0;
    for k := 0 to |metadata|
      invariant SumMetadata(metadata, None, 0) == SumMetadata(metadata[k..], previous, length)
    {
      assert metadata[k..][1..] == metadata[k + 1..];
      if previous.Some? && metadata[k].identifier <= previous.value { return Err(MetadataNotAscending); }
      var next := length + 4 + |metadata[k].value|;
      if next >= 0x1_0000_0000_0000_0000 { return Err(MetadataTooLarge); }
      length := next;
      previous := Some(metadata[k].identifier);
    }
    return if length > max then Err(MetadataTooLarge) else Ok(length);
  }

  /** The encoder, which appends the header fields, the entries and the payload to one buffer. */
  method Encode(o: Outgoing, maxFrame: U64, maxMetadata: U16) returns (result: Result<seq<Byte>, EncodeError>)
    ensures result == EncodeWithMax(o, maxFrame, maxMetadata)
  {
    var checked := SumMetadataLoop(o.metadata, maxMetadata);
    if checked.Err? { return Err(checked.error); }
    var metadataLength := checked.value;
    var encoded := EncodePayload(o.payload);
    if encoded.Err? { return Err(encoded.error); }
    var payload := encoded.value;
    if |payload| >= 0x1_0000_0000 { return Err(FrameTooLarge); }
    if HEADER_LENGTH + metadataLength + |payload| > maxFrame { return Err(FrameTooLarge); }
    var out: seq<Byte> := [0];
    out := out + [o.kind.Wire()];
    out := out + Le16(0);
    out := out + Le16(o.code);
    out := out + Le16(metadataLength);
    out := out + Le32(|payload|);
    out := out + Le64(o.requestId);
    ghost var header := HeaderBytes(RawHeader(0, o.kind.Wire(), 0, o.code, metadataLength, |payload|, o.requestId));
    assert out == header;
    out := PrintLoop(out, o.metadata);
    out := out + payload;
    return Ok(out);
  }

  /** Appends every entry to `prefix`. */
  method PrintLoop(prefix: seq<Byte>, entries: seq<Entry>) returns (out: seq<Byte>)
    ensures out == prefix + Print(entries)
  {
    out := prefix;
    for k := 0 to |entries|
      invariant out + Print(entries[k..]) == prefix + Print(entries)
    {
      assert entries[k..][0] == entries[k] && entries[k..][1..] == entries[k + 1..];
      Associate(out, EntryBytes(entries[k]), Print(entries[k + 1..]));
      out := out + EntryBytes(entries[k]);
    }
    assert out + Print(entries[|entries|..]) == out;
  }
}
