/** The version 0 handshake: its two payload codecs, the bounded read loop, and what an
    established connection knows. */
module Handshake {
  import opened Sequences
  import opened LittleEndian
  import opened Wrappers
  import opened EntryRegion
  import opened Protocol
  import opened Codec

  const HEAD_LENGTH: nat := 10
  const FRAME_FLOOR: U64 := 65_536
  const METADATA_FLOOR: U16 := 4_096
  const HIGHEST_HEADER_VERSION: U16 := 255

  /** The entry count as its field states it; it saturates at the field width. */
  function CountField(entries: seq<Entry>): U16 {
    if |entries| < 0x1_0000 then |entries| else 0xFFFF
  }

  // ---------------------------------------------------------------- the request payload

  datatype RequestPayload = RequestPayload(
    maximumVersion: U16, minimumVersion: U16, desiredFrameSize: U32, count: U16, entries: seq<Entry>)

  function NewRequest(maximum: U16, minimum: U16, desired: U32, entries: seq<Entry>): RequestPayload {
    RequestPayload(maximum, minimum, desired, CountField(entries), entries)
  }

  function EncodeRequest(r: RequestPayload): seq<Byte> {
    Le16(r.maximumVersion) + Le16(r.minimumVersion) + Le32(r.desiredFrameSize) + Le16(CountField(r.entries))
    + Print(r.entries)
  }

  function DecodeRequest(payload: seq<Byte>): Result<RequestPayload, Failure> {
    if |payload| < HEAD_LENGTH then Err(MALFORMED)
    else if U16At(payload, 0) < U16At(payload, 2) then Err(MALFORMED)
    else
      match Parse(payload[HEAD_LENGTH..])
      case None => Err(MALFORMED)
      case Some(entries) =>
        if !StrictlyAscending(entries) then Err(MALFORMED)
        else if U16At(payload, 8) != |entries| then Err(MALFORMED)
        else Ok(RequestPayload(U16At(payload, 0), U16At(payload, 2), U32At(payload, 4), U16At(payload, 8), entries))
  }

  lemma RequestHead(r: RequestPayload)
    ensures var p := EncodeRequest(r);
            && |p| >= HEAD_LENGTH && U16At(p, 0) == r.maximumVersion && U16At(p, 2) == r.minimumVersion
            && U32At(p, 4) == r.desiredFrameSize && U16At(p, 8) == CountField(r.entries)
            && p[HEAD_LENGTH..] == Print(r.entries)
  {
    var p := EncodeRequest(r);
    assert p[0..2] == Le16(r.maximumVersion);
    Field16(p, 0, r.maximumVersion);
    assert p[2..4] == Le16(r.minimumVersion);
    Field16(p, 2, r.minimumVersion);
    assert p[4..8] == Le32(r.desiredFrameSize);
    Field32(p, 4, r.desiredFrameSize);
    assert p[8..10] == Le16(CountField(r.entries));
    Field16(p, 8, CountField(r.entries));
  }

  /** A built request is read back as itself exactly when its version range is not inverted, its
      ids ascend, and both its count and its values fit their fields. */
  lemma RequestRoundTrip(maximum: U16, minimum: U16, desired: U32, entries: seq<Entry>)
    ensures var r := NewRequest(maximum, minimum, desired, entries);
            DecodeRequest(EncodeRequest(r)) == Ok(r)
            <==> minimum <= maximum && StrictlyAscending(entries) && |entries| < 0x1_0000 && Representable(entries)
  {
    var r := NewRequest(maximum, minimum, desired, entries);
    RequestHead(r);
    if Representable(entries) { ParsePrint(entries); }
    if Parse(Print(entries)).Some? { PrintParse(Print(entries)); }
  }

  /** One entry too many: 65536 ascending entries are more than the count can state. */
  lemma SaturatedCount(maximum: U16, minimum: U16, desired: U32) returns (entries: seq<Entry>)
    ensures |entries| == 0x1_0000 && StrictlyAscending(entries) && Representable(entries)
    ensures var r := NewRequest(maximum, minimum, desired, entries);
            DecodeRequest(EncodeRequest(r)) != Ok(r)
  {
    entries := seq(0x1_0000, i requires 0 <= i < 0x1_0000 => Entry(i, []));
    RequestRoundTrip(maximum, minimum, desired, entries);
  }

  /** An accepted request payload is the encoding of what was read. */
  lemma RequestCanonical(payload: seq<Byte>)
    requires DecodeRequest(payload).Ok?
    ensures EncodeRequest(DecodeRequest(payload).value) == payload
  {
    PrintParse(payload[HEAD_LENGTH..]);
    FieldBytes(payload, 0);
    FieldBytes(payload, 2);
    FieldBytes(payload, 4);
    FieldBytes(payload, 8);
    FiveParts(payload, 2, 4, 8);
  }

  /** A request whose range is not inverted and whose entries are in order and counted. */
  predicate Requestable(r: RequestPayload) {
    && r.minimumVersion <= r.maximumVersion
    && StrictlyAscending(r.entries) && Representable(r.entries) && r.count == |r.entries|
  }

  /** A payload is read as a request exactly when it encodes such a request, and every other payload is
      malformed. */
  lemma RequestVerdict(payload: seq<Byte>)
    ensures DecodeRequest(payload).Ok? <==> exists r: RequestPayload :: EncodeRequest(r) == payload && Requestable(r)
    ensures DecodeRequest(payload).Ok? || DecodeRequest(payload) == Err(MALFORMED)
  {
    if DecodeRequest(payload).Ok? {
      RequestCanonical(payload);
      PrintParse(payload[HEAD_LENGTH..]);
      var r := DecodeRequest(payload).value;
      assert EncodeRequest(r) == payload;
    }
    if r: RequestPayload :| EncodeRequest(r) == payload && Requestable(r) {
      RequestHead(r);
      ParsePrint(r.entries);
    }
  }

  /** The request encoder as it runs. */
  method EncodeRequestLoop(r: RequestPayload) returns (out: seq<Byte>)
    ensures out == EncodeRequest(r)
  {
    out := Le16(r.maximumVersion);
    out := out + Le16(r.minimumVersion);
    out := out + Le32(r.desiredFrameSize);
    out := out + Le16(CountField(r.entries));
    out := PrintLoop(out, r.entries);
  }

  // ---------------------------------------------------------------- the response payload

  datatype Offer = Offer(minimumVersion: U16, maximumVersion: U16, capabilities: seq<U16>)

  datatype ResponsePayload = ResponsePayload(
    version: U16, frameSize: U32, metadataSize: U16, count: U16, entries: seq<Entry>)

  function EncodeResponse(r: ResponsePayload): seq<Byte> {
    Le16(r.version) + Le32(r.frameSize) + Le16(r.metadataSize) + Le16(CountField(r.entries)) + Print(r.entries)
  }

  predicate AllOffered(entries: seq<Entry>, offer: Offer) {
    forall i | 0 <= i < |entries| :: entries[i].identifier in offer.capabilities
  }

  function DecodeResponse(payload: seq<Byte>, offer: Offer): Result<ResponsePayload, Failure> {
    if |payload| < HEAD_LENGTH then Err(MALFORMED)
    else
      var version, frameSize, metadataSize, count :=
        U16At(payload, 0), U32At(payload, 2), U16At(payload, 6), U16At(payload, 8);
      match Parse(payload[HEAD_LENGTH..])
      case None => Err(MALFORMED)
      case Some(entries) =>
        if !StrictlyAscending(entries) then Err(MALFORMED)
        else if count != |entries| then Err(MALFORMED)
        else if version > HIGHEST_HEADER_VERSION then Err(MALFORMED)
        else if !(offer.minimumVersion <= version <= offer.maximumVersion) then Err(MALFORMED)
        else if frameSize < FRAME_FLOOR then Err(MALFORMED)
        else if metadataSize < METADATA_FLOOR then Err(MALFORMED)
        else if !AllOffered(entries, offer) then Err(VIOLATION)
        else Ok(ResponsePayload(version, frameSize, metadataSize, count, entries))
  }

  lemma ResponseHead(r: ResponsePayload)
    ensures var p := EncodeResponse(r);
            && |p| >= HEAD_LENGTH && U16At(p, 0) == r.version && U32At(p, 2) == r.frameSize
            && U16At(p, 6) == r.metadataSize && U16At(p, 8) == CountField(r.entries)
            && p[HEAD_LENGTH..] == Print(r.entries)
  {
    var p := EncodeResponse(r);
    assert p[0..2] == Le16(r.version);
    Field16(p, 0, r.version);
    assert p[2..6] == Le32(r.frameSize);
    Field32(p, 2, r.frameSize);
    assert p[6..8] == Le16(r.metadataSize);
    Field16(p, 6, r.metadataSize);
    assert p[8..10] == Le16(CountField(r.entries));
    Field16(p, 8, CountField(r.entries));
  }

  /** A response that answers the offer's versions within the floors, whatever it accepts. */
  predicate WellFormed(r: ResponsePayload, offer: Offer) {
    && StrictlyAscending(r.entries) && r.count == |r.entries| && Representable(r.entries)
    && r.version <= 255 && offer.minimumVersion <= r.version <= offer.maximumVersion
    && r.frameSize >= 65_536 && r.metadataSize >= 4_096
  }

  /** A response the offerer accepts. */
  predicate Acceptable(r: ResponsePayload, offer: Offer) {
    WellFormed(r, offer) && AllOffered(r.entries, offer)
  }

  /** A response is read back as itself exactly when it answers the offer within the floors. */
  lemma ResponseRoundTrip(r: ResponsePayload, offer: Offer)
    ensures DecodeResponse(EncodeResponse(r), offer) == Ok(r) <==> Acceptable(r, offer)
  {
    ResponseHead(r);
    if Representable(r.entries) { ParsePrint(r.entries); }
    if Parse(Print(r.entries)).Some? { PrintParse(Print(r.entries)); }
  }

  /** A payload that is the encoding of some well-formed response. */
  ghost predicate Responds(payload: seq<Byte>, offer: Offer, offered: bool) {
    exists r: ResponsePayload ::
      EncodeResponse(r) == payload && WellFormed(r, offer) && AllOffered(r.entries, offer) == offered
  }

  lemma WellFormedReads(r: ResponsePayload, offer: Offer)
    requires WellFormed(r, offer)
    ensures DecodeResponse(EncodeResponse(r), offer) == if AllOffered(r.entries, offer) then Ok(r) else Err(VIOLATION)
  {
    ResponseHead(r);
    ParsePrint(r.entries);
  }

  /** Every payload has one of three fates: it is accepted exactly when it encodes a well-formed response
      that accepts only what was offered, it is a violation exactly when it encodes one that accepts
      something else, and it is malformed in every other case. */
  lemma ResponseVerdict(payload: seq<Byte>, offer: Offer)
    ensures DecodeResponse(payload, offer).Ok? <==> Responds(payload, offer, true)
    ensures DecodeResponse(payload, offer) == Err(VIOLATION) <==> Responds(payload, offer, false)
    ensures DecodeResponse(payload, offer) in {Err(VIOLATION), Err(MALFORMED)} || DecodeResponse(payload, offer).Ok?
  {
    if Responds(payload, offer, true) { RespondsReads(payload, offer, true); }
    if Responds(payload, offer, false) { RespondsReads(payload, offer, false); }
    if DecodeResponse(payload, offer).Ok? || DecodeResponse(payload, offer) == Err(VIOLATION) {
      var r := ReadResponse(payload, offer);
      assert Responds(payload, offer, AllOffered(r.entries, offer));
    }
  }

  lemma RespondsReads(payload: seq<Byte>, offer: Offer, offered: bool)
    requires Responds(payload, offer, offered)
    ensures if offered then DecodeResponse(payload, offer).Ok? else DecodeResponse(payload, offer) == Err(VIOLATION)
  {
    var r: ResponsePayload :|
      EncodeResponse(r) == payload && WellFormed(r, offer) && AllOffered(r.entries, offer) == offered;
    WellFormedReads(r, offer);
  }

  lemma ReadResponse(payload: seq<Byte>, offer: Offer) returns (r: ResponsePayload)
    requires DecodeResponse(payload, offer).Ok? || DecodeResponse(payload, offer) == Err(VIOLATION)
    ensures EncodeResponse(r) == payload && WellFormed(r, offer)
    ensures AllOffered(r.entries, offer) <==> DecodeResponse(payload, offer).Ok?
  {
    var tail := payload[HEAD_LENGTH..];
    PrintParse(tail);
    r := ResponsePayload(U16At(payload, 0), U32At(payload, 2), U16At(payload, 6), U16At(payload, 8), Parse(tail).value);
    FieldBytes(payload, 0);
    FieldBytes(payload, 2);
    FieldBytes(payload, 6);
    FieldBytes(payload, 8);
    FiveParts(payload, 2, 6, 8);
  }

  /** An accepted response payload is the encoding of what was read. */
  lemma ResponseCanonical(payload: seq<Byte>, offer: Offer)
    requires DecodeResponse(payload, offer).Ok?
    ensures EncodeResponse(DecodeResponse(payload, offer).value) == payload
  {
    PrintParse(payload[HEAD_LENGTH..]);
    FieldBytes(payload, 0);
    FieldBytes(payload, 2);
    FieldBytes(payload, 6);
    FieldBytes(payload, 8);
    FiveParts(payload, 2, 6, 8);
  }

  lemma FiveParts(payload: seq<Byte>, a: nat, b: nat, c: nat)
    requires a <= b <= c <= HEAD_LENGTH <= |payload|
    ensures payload == payload[0..a] + payload[a..b] + payload[b..c] + payload[c..HEAD_LENGTH] + payload[HEAD_LENGTH..]
  {
  }

  // ---------------------------------------------------------------- establishment

  datatype Config = Config(desiredFrameSize: U32, localFrameSize: U64, localMetadataSize: U16, maximumInFlight: nat)

  predicate Validated(c: Config) {
    && c.desiredFrameSize >= FRAME_FLOOR && c.localFrameSize >= FRAME_FLOOR
    && c.localMetadataSize >= METADATA_FLOOR && c.maximumInFlight >= 1
  }

  datatype NegotiatedSession = NegotiatedSession(
    version: U16, frameSize: U64, metadataSize: U16, capabilities: seq<U16>,
    localFrameSize: U64, localMetadataSize: U16)
  {
    /** The stricter of the negotiated bounds and the local caps. */
    function Effective(): Limits {
      Limits(if frameSize < localFrameSize then frameSize else localFrameSize,
             if metadataSize < localMetadataSize then metadataSize else localMetadataSize)
    }
  }

  datatype ConnectError =
    | TransportFailed
    | HandshakeFailure(failure: Failure)
    | ClosedDuringHandshake
    | FrameSizeAboveLocal(negotiated: U64, local: U64)
    | MetadataSizeAboveLocal(negotiatedMetadata: U16, localMetadata: U16)
    | UnexpectedFrame

  /** The most bytes one read may move. */
  const READ_CHUNK: nat := 4_096

  const HANDSHAKE_ID: U64 := 1
  const OFFER := Offer(0, 0, [])
  const HANDSHAKE_ADMISSION := Admission(Client, PreNegotiation, PRE_NEGOTIATION, [HANDSHAKE_ID])

  function InterpretResponse(f: Frame, config: Config): Result<NegotiatedSession, ConnectError> {
    match f.header.kind
    case Request => Err(UnexpectedFrame)
    case Response =>
      if f.header.code != 0 || !f.payload.Opaque? then Err(UnexpectedFrame)
      else (
        match DecodeResponse(f.payload.bytes, OFFER)
        case Err(failure) => Err(HandshakeFailure(failure))
        case Ok(r) =>
          Ok(NegotiatedSession(r.version, r.frameSize, r.metadataSize,
                               seq(|r.entries|, i requires 0 <= i < |r.entries| => r.entries[i].identifier),
                               config.localFrameSize, config.localMetadataSize))
      )
    case Error =>
      match ErrorClassFromWire(f.header.code)
      case None => Err(HandshakeFailure(VIOLATION))
      case Some(cls) => Err(HandshakeFailure(Failure(cls, cls.FailureScope())))
  }

  /** The answer the bytes held so far decide, if they decide one. */
  function Verdict(buffer: seq<Byte>, config: Config): Option<Result<NegotiatedSession, ConnectError>> {
    match Decode(buffer, HANDSHAKE_ADMISSION)
    case Need(_) => None
    case Admitted(f) => Some(InterpretResponse(f, config))
    case Refused(failure, _) => Some(Err(HandshakeFailure(failure)))
  }

  /** The read buffer's cap: the stricter of the pre-negotiation bound and the local cap. */
  function BufferCap(config: Config): U64 {
    if config.localFrameSize < MAX_FRAME_SIZE then config.localFrameSize else MAX_FRAME_SIZE
  }

  /** From a validated configuration the loop's own size refusal is never taken: a reader that
      needs bytes has room for them. */
  lemma LocalBoundUnreachable(buffer: seq<Byte>, config: Config)
    requires Validated(config)
    ensures Decode(buffer, HANDSHAKE_ADMISSION).Need? ==>
              |buffer| < Decode(buffer, HANDSHAKE_ADMISSION).required <= BufferCap(config) == 65_536
  {
    NeedBounded(buffer, HANDSHAKE_ADMISSION);
  }

  /** Where the frame at the head of an answered buffer ends. */
  function AnswerEnd(buffer: seq<Byte>): nat {
    if |buffer| < HEADER_LENGTH then 0 else ParseHeader(buffer).value.TotalLength()
  }

  lemma AnswerEnds(buffer: seq<Byte>)
    requires Decode(buffer, HANDSHAKE_ADMISSION).Admitted?
    ensures HEADER_LENGTH <= AnswerEnd(buffer) <= |buffer|
    ensures Decode(buffer[..AnswerEnd(buffer)], HANDSHAKE_ADMISSION) == Decode(buffer, HANDSHAKE_ADMISSION)
  {
    Truncate(buffer, HANDSHAKE_ADMISSION);
  }

  /** The handshake read loop over a transport that yields `chunks` and then ends. From a
      validated configuration the result is the verdict on the whole stream, however it was cut,
      and it is reached within 65536 reads. The loop reads only while it has no answer, its buffer
      never holds more than 4095 bytes past the cap, and what it held behind an accepted response is
      `dropped`. */
  method ReadHandshakeResponse(config: Config, chunks: seq<seq<Byte>>, broken: bool)
    returns (result: Result<NegotiatedSession, ConnectError>, used: nat, ghost dropped: seq<Byte>)
    requires forall i | 0 <= i < |chunks| :: 1 <= |chunks[i]| <= READ_CHUNK
    ensures used <= |chunks| && |Flatten(chunks[..used])| <= BufferCap(config) + (READ_CHUNK - 1)
    ensures forall u | 0 <= u < used :: Unanswered(chunks, u)
    ensures result.Ok? ==>
              var held := Flatten(chunks[..used]);
              Decode(held, HANDSHAKE_ADMISSION).Admitted? && AnswerEnd(held) <= |held|
              && dropped == held[AnswerEnd(held)..]
    ensures Validated(config) ==>
              && used <= 65_536
              && result == match Verdict(Flatten(chunks), config)
                           case Some(verdict) => verdict
                           case None => Err(if broken then TransportFailed else ClosedDuringHandshake)
  {
    var cap := BufferCap(config);
    var buffer: seq<Byte> := [];
    used, dropped := 0, [];
    while true
      invariant 0 <= used <= |chunks| && used <= |buffer|
      invariant buffer == Flatten(chunks[..used]) && |buffer| <= cap + (READ_CHUNK - 1)
      invariant forall u | 0 <= u < used :: Unanswered(chunks, u)
      invariant Validated(config) ==> used <= 65_536
      decreases |chunks| - used
    {
      FlattenCut(chunks, used);
      PrefixStable(buffer, Flatten(chunks[used..]), HANDSHAKE_ADMISSION);
      match Decode(buffer, HANDSHAKE_ADMISSION) {
        case Admitted(f) =>
          AnswerEnds(buffer);
          dropped := buffer[AnswerEnd(buffer)..];
          return InterpretResponse(f, config), used, dropped;
        case Refused(failure, _) => return Err(HandshakeFailure(failure)), used, dropped;
        case Need(required) =>
          if Validated(config) { LocalBoundUnreachable(buffer, config); }
          if required > cap || |buffer| >= cap { return Err(HandshakeFailure(RESOURCE_LIMIT)), used, dropped; }
          if used == |chunks| {
            assert buffer + Flatten(chunks[used..]) == buffer;
            return Err(if broken then TransportFailed else ClosedDuringHandshake), used, dropped;
          }
          FlattenNext(chunks, used);
          buffer := buffer + chunks[used];
          used := used + 1;
      }
    }
  }

  /** The first `u` chunks hold no answer yet. */
  predicate Unanswered(chunks: seq<seq<Byte>>, u: nat)
    requires u <= |chunks|
  {
    Decode(Flatten(chunks[..u]), HANDSHAKE_ADMISSION).Need?
  }

  /** Refuses a handshake that negotiates above a local cap. */
  function Establish(n: NegotiatedSession): Result<NegotiatedSession, ConnectError> {
    if n.frameSize > n.localFrameSize then Err(FrameSizeAboveLocal(n.frameSize, n.localFrameSize))
    else if n.metadataSize > n.localMetadataSize then Err(MetadataSizeAboveLocal(n.metadataSize, n.localMetadataSize))
    else Ok(n)
  }

  /** The session a usable connection may hold. */
  predicate Established(n: NegotiatedSession, config: Config) {
    && n.version == 0 && n.capabilities == []
    && n.localFrameSize == config.localFrameSize && n.localMetadataSize == config.localMetadataSize
    && n.Effective() == Limits(n.frameSize, n.metadataSize)
    && FRAME_FLOOR <= n.frameSize <= config.localFrameSize && n.frameSize < 0x1_0000_0000
    && METADATA_FLOOR <= n.metadataSize <= config.localMetadataSize
  }

  /** Whatever the peer sends, an established connection runs version 0 without capabilities,
      between the floors and the local caps, and its effective bounds are the negotiated ones. */
  lemma EstablishedBounds(stream: seq<Byte>, config: Config)
    ensures match Verdict(stream, config)
            case Some(Ok(n)) => Establish(n).Ok? ==> Established(n, config)
            case _ => true
  {
    match Verdict(stream, config)
    case Some(Ok(n)) =>
      var f := Decode(stream, HANDSHAKE_ADMISSION).frame;
      NothingOffered(DecodeResponse(f.payload.bytes, OFFER).value.entries, OFFER);
    case _ =>
  }

  lemma NothingOffered(entries: seq<Entry>, offer: Offer)
    requires AllOffered(entries, offer)
    ensures offer.capabilities == [] ==> entries == []
  {
    if entries != [] { assert entries[0].identifier in offer.capabilities; }
  }

  /** What a response without capabilities negotiates. */
  function Terms(r: ResponsePayload, config: Config): NegotiatedSession {
    NegotiatedSession(0, r.frameSize, r.metadataSize, [], config.localFrameSize, config.localMetadataSize)
  }

  /** A server's answer reaches the client intact: any acceptable response, framed under the
      pre-negotiation limits, gives exactly its terms; they establish the connection exactly when they
      stay within the local caps, and the first cap they pass is told otherwise. */
  lemma HandshakeReaches(r: ResponsePayload, config: Config, rest: seq<Byte>)
    requires Acceptable(r, OFFER)
    ensures var o := Outgoing(Response, 0, HANDSHAKE_ID, [], Opaque(EncodeResponse(r)));
            var n := Terms(r, config);
            && EncodeWithMax(o, MAX_FRAME_SIZE, MAX_METADATA_SIZE).Ok?
            && Verdict(EncodeWithMax(o, MAX_FRAME_SIZE, MAX_METADATA_SIZE).value + rest, config) == Some(Ok(n))
            && Establish(n) == if r.frameSize > config.localFrameSize
                               then Err(FrameSizeAboveLocal(r.frameSize, config.localFrameSize))
                               else if r.metadataSize > config.localMetadataSize
                               then Err(MetadataSizeAboveLocal(r.metadataSize, config.localMetadataSize))
                               else Ok(n)
  {
    var o := Outgoing(Response, 0, HANDSHAKE_ID, [], Opaque(EncodeResponse(r)));
    NothingOffered(r.entries, OFFER);
    AnswerDecodes(EncodeResponse(r), rest);
    ResponseRoundTrip(r, OFFER);
    AnswerInterpreted(r, FrameOf(o), config);
  }

  lemma AnswerInterpreted(r: ResponsePayload, f: Frame, config: Config)
    requires DecodeResponse(EncodeResponse(r), OFFER) == Ok(r) && r.entries == []
    requires f.header.kind == Response && f.header.code == 0 && f.payload == Opaque(EncodeResponse(r))
    ensures InterpretResponse(f, config)
            == Ok(Terms(r, config))
  {
    assert InterpretResponse(f, config).value.capabilities == [];
  }

  lemma AnswerDecodes(payload: seq<Byte>, rest: seq<Byte>)
    requires |payload| == HEAD_LENGTH
    ensures var o := Outgoing(Response, 0, HANDSHAKE_ID, [], Opaque(payload));
            && EncodeWithMax(o, MAX_FRAME_SIZE, MAX_METADATA_SIZE).Ok?
            && Decode(EncodeWithMax(o, MAX_FRAME_SIZE, MAX_METADATA_SIZE).value + rest, HANDSHAKE_ADMISSION)
               == Admitted(FrameOf(o))
  {
    var o := Outgoing(Response, 0, HANDSHAKE_ID, [], Opaque(payload));
    EncodeSucceeds(o, payload, MAX_FRAME_SIZE, MAX_METADATA_SIZE);
    EncodedParts(o, MAX_FRAME_SIZE, MAX_METADATA_SIZE);
    EncodeDecode(o, MAX_FRAME_SIZE, MAX_METADATA_SIZE, HANDSHAKE_ADMISSION, rest);
    var size := |EncodeWithMax(o, MAX_FRAME_SIZE, MAX_METADATA_SIZE).value|;
    assert Receivable(o, size, HANDSHAKE_ADMISSION);
  }

  /** A server's refusal reaches the client as what it is: an error frame of any class, with any detail
      and text that fit the pre-negotiation limits and whatever follows, fails the handshake with that
      class and its scope. */
  lemma HandshakeRefused(cls: ErrorClass, detail: seq<Byte>, text: seq<Byte>, config: Config, rest: seq<Byte>)
    requires HEADER_LENGTH + 2 + |detail| + |text| <= MAX_FRAME_SIZE
    ensures var o := Outgoing(Error, cls.Wire(), HANDSHAKE_ID, [], Detailed(detail, text));
            && EncodeWithMax(o, MAX_FRAME_SIZE, MAX_METADATA_SIZE).Ok?
            && Verdict(EncodeWithMax(o, MAX_FRAME_SIZE, MAX_METADATA_SIZE).value + rest, config)
               == Some(Err(HandshakeFailure(Failure(cls, cls.FailureScope()))))
  {
    var o := Outgoing(Error, cls.Wire(), HANDSHAKE_ID, [], Detailed(detail, text));
    WireTables(cls.Wire());
    RefusalDecodes(o, rest);
  }

  lemma RefusalDecodes(o: Outgoing, rest: seq<Byte>)
    requires o == Outgoing(Error, o.code, HANDSHAKE_ID, [], o.payload) && o.payload.Detailed?
    requires ErrorClassFromWire(o.code).Some?
    requires HEADER_LENGTH + 2 + |o.payload.detail| + |o.payload.text| <= MAX_FRAME_SIZE
    ensures EncodeWithMax(o, MAX_FRAME_SIZE, MAX_METADATA_SIZE).Ok?
    ensures EncodePayload(o.payload).Ok? && |EncodePayload(o.payload).value| < 0x1_0000_0000
    ensures RegionLength(o.metadata) == 0
    ensures Decode(EncodeWithMax(o, MAX_FRAME_SIZE, MAX_METADATA_SIZE).value + rest, HANDSHAKE_ADMISSION)
            == Admitted(FrameOf(o))
  {
    var payload := EncodePayload(o.payload).value;
    EncodeSucceeds(o, payload, MAX_FRAME_SIZE, MAX_METADATA_SIZE);
    EncodedParts(o, MAX_FRAME_SIZE, MAX_METADATA_SIZE);
    EncodeDecode(o, MAX_FRAME_SIZE, MAX_METADATA_SIZE, HANDSHAKE_ADMISSION, rest);
    assert Correlate(Error, o.code, HANDSHAKE_ID, [HANDSHAKE_ID]).Ok?;
  }

  /** Whatever the peer sends, the reader's verdict is never that a frame was unexpected: the decoder has
      already refused every frame that the handshake does not wait for. */
  lemma NeverUnexpected(stream: seq<Byte>, config: Config)
    ensures Verdict(stream, config) != Some(Err(UnexpectedFrame))
  {
  }

  // ---------------------------------------------------------------- the client's own request

  /** The frame a client sends first: version 0 alone, its desired frame size, no capabilities. */
  function Hello(config: Config): Outgoing {
    Outgoing(Request, HANDSHAKE_OPCODE, HANDSHAKE_ID, [],
             Opaque(EncodeRequest(NewRequest(0, 0, config.desiredFrameSize, []))))
  }

  function BuildHandshakeRequest(config: Config): Result<seq<Byte>, ConnectError> {
    match EncodeWithMax(Hello(config), MAX_FRAME_SIZE, MAX_METADATA_SIZE)
    case Err(_) => Err(HandshakeFailure(RESOURCE_LIMIT))
    case Ok(bytes) => Ok(bytes)
  }

  /** Under every configuration the handshake request can be built, and a server that has not negotiated
      reads it, whatever follows, as the handshake of request 1 with exactly what the client asked for. */
  lemma HelloReaches(config: Config, inFlight: seq<U64>, rest: seq<Byte>)
    requires HANDSHAKE_ID !in inFlight
    ensures BuildHandshakeRequest(config).Ok?
    ensures match Decode(BuildHandshakeRequest(config).value + rest,
                         Admission(Server, PreNegotiation, PRE_NEGOTIATION, inFlight))
            case Admitted(f) =>
              && f.header.kind == Request && f.header.code == 1 && f.header.requestId == 1 && f.metadata == []
              && f.payload.Opaque?
              && DecodeRequest(f.payload.bytes) == Ok(RequestPayload(0, 0, config.desiredFrameSize, 0, []))
            case _ => false
  {
    var o := Hello(config);
    RequestHead(NewRequest(0, 0, config.desiredFrameSize, []));
    RequestRoundTrip(0, 0, config.desiredFrameSize, []);
    HelloDecodes(o, inFlight, rest);
  }

  lemma HelloDecodes(o: Outgoing, inFlight: seq<U64>, rest: seq<Byte>)
    requires o == Outgoing(Request, HANDSHAKE_OPCODE, HANDSHAKE_ID, [], o.payload) && o.payload.Opaque?
    requires |o.payload.bytes| == HEAD_LENGTH && HANDSHAKE_ID !in inFlight
    ensures EncodeWithMax(o, MAX_FRAME_SIZE, MAX_METADATA_SIZE).Ok?
    ensures Decode(EncodeWithMax(o, MAX_FRAME_SIZE, MAX_METADATA_SIZE).value + rest,
                   Admission(Server, PreNegotiation, PRE_NEGOTIATION, inFlight))
            == Admitted(FrameOf(o))
  {
    EncodeSucceeds(o, o.payload.bytes, MAX_FRAME_SIZE, MAX_METADATA_SIZE);
    EncodedParts(o, MAX_FRAME_SIZE, MAX_METADATA_SIZE);
    EncodeDecode(o, MAX_FRAME_SIZE, MAX_METADATA_SIZE, Admission(Server, PreNegotiation, PRE_NEGOTIATION, inFlight),
                 rest);
    assert Correlate(Request, HANDSHAKE_OPCODE, HANDSHAKE_ID, inFlight) == Ok(HandshakeRequest);
  }
}
