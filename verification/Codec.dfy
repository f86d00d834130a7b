/** What the frame codec guarantees: a canonical form in both directions, and answers that do
    not depend on how the stream was cut or how the in-flight ids were listed. */
module Codec {
  import opened LittleEndian
  import opened Wrappers
  import opened EntryRegion
  import opened Protocol

  // ---------------------------------------------------------------- header

  lemma HeaderRoundTrip(raw: RawHeader, rest: seq<Byte>)
    ensures ParseHeader(HeaderBytes(raw) + rest) == Some(raw)
  {
    var b := HeaderBytes(raw) + rest;
    assert b[0] == raw.version && b[1] == raw.kind;
    assert b[2..4] == Le16(raw.flags);
    Field16(b, 2, raw.flags);
    assert b[4..6] == Le16(raw.code);
    Field16(b, 4, raw.code);
    assert b[6..8] == Le16(raw.metadataLength);
    Field16(b, 6, raw.metadataLength);
    assert b[8..12] == Le32(raw.payloadLength);
    Field32(b, 8, raw.payloadLength);
    assert b[12..20] == Le64(raw.requestId);
    Field64(b, 12, raw.requestId);
  }

  lemma HeaderCanonical(input: seq<Byte>)
    requires |input| >= HEADER_LENGTH
    ensures HeaderBytes(ParseHeader(input).value) == input[..HEADER_LENGTH]
  {
    FieldBytes(input, 2);
    FieldBytes(input, 4);
    FieldBytes(input, 6);
    FieldBytes(input, 8);
    FieldBytes(input, 12);
    assert input[..20] == [input[0], input[1]] + input[2..4] + input[4..6] + input[6..8] + input[8..12] + input[12..20];
  }

  /** The header reads the same off every buffer that agrees on its first 20 bytes. */
  lemma HeaderStable(input: seq<Byte>, more: seq<Byte>)
    requires |input| >= HEADER_LENGTH
    ensures ParseHeader(input + more) == ParseHeader(input)
  {
    var b := input + more;
    assert b[2..4] == input[2..4] && b[4..6] == input[4..6] && b[6..8] == input[6..8];
    assert b[8..12] == input[8..12] && b[12..20] == input[12..20];
  }

  // ---------------------------------------------------------------- prefix stability

  lemma AdmitExtend(input: seq<Byte>, more: seq<Byte>, role: Role, limits: Limits)
    ensures match Admit(input, role, limits)
            case Pass(_, _, _, _) => Admit(input + more, role, limits) == Admit(input, role, limits)
            case Stop(Need(n)) =>
              |input| < n && (|input + more| < n ==> Admit(input + more, role, limits) == Stop(Need(n)))
            case Stop(Refused(failure, consumed)) =>
              && failure.scope.ConnectionFatal? && consumed == |input|
              && Admit(input + more, role, limits) == Stop(Refused(failure, |input + more|))
            case Stop(Admitted(_)) => false
  {
    if |input| >= HEADER_LENGTH {
      HeaderStable(input, more);
      var raw := ParseHeader(input).value;
      if raw.TotalLength() <= |input| { RegionStable(input, more, HEADER_LENGTH + raw.metadataLength); }
      AdmitAgrees(input, input + more, raw, role, limits);
    }
  }

  /** Two buffers with one header, and one metadata region when both hold the frame, are admitted alike. */
  lemma AdmitAgrees(input: seq<Byte>, longer: seq<Byte>, raw: RawHeader, role: Role, limits: Limits)
    requires |input| <= |longer|
    requires raw.TotalLength() <= |input| ==>
               longer[HEADER_LENGTH..HEADER_LENGTH + raw.metadataLength]
               == input[HEADER_LENGTH..HEADER_LENGTH + raw.metadataLength]
    ensures match AdmitRaw(input, raw, role, limits)
            case Pass(_, _, _, _) => AdmitRaw(longer, raw, role, limits) == AdmitRaw(input, raw, role, limits)
            case Stop(Need(n)) =>
              |input| < n && (|longer| < n ==> AdmitRaw(longer, raw, role, limits) == Stop(Need(n)))
            case Stop(Refused(failure, consumed)) =>
              && failure.scope.ConnectionFatal? && consumed == |input|
              && AdmitRaw(longer, raw, role, limits) == Stop(Refused(failure, |longer|))
            case Stop(Admitted(_)) => false
  {
  }

  lemma RegionStable(input: seq<Byte>, more: seq<Byte>, end: nat)
    requires HEADER_LENGTH <= end <= |input|
    ensures (input + more)[HEADER_LENGTH..end] == input[HEADER_LENGTH..end]
  {
  }

  /** The decoder answers for a prefix what it answers for the whole: `Need` names a length not
      yet held and stays the answer until it is, an admitted frame or a request-scoped refusal
      is final, and a fatal refusal keeps its class and scope. */
  lemma PrefixStable(input: seq<Byte>, more: seq<Byte>, admission: Admission)
    ensures match Decode(input, admission)
            case Need(n) =>
              |input| < n && (|input + more| < n ==> Decode(input + more, admission) == Need(n))
            case Admitted(frame) => Decode(input + more, admission) == Admitted(frame)
            case Refused(failure, consumed) =>
              Decode(input + more, admission)
              == Refused(failure, if failure.scope.RequestScoped? then consumed else |input + more|)
  {
    AdmitExtend(input, more, admission.role, admission.limits);
    var a := Admit(input, admission.role, admission.limits);
    if a.Pass? {
      var start := HEADER_LENGTH + a.raw.metadataLength;
      assert (input + more)[start..a.total] == input[start..a.total];
    }
  }

  /** A `Need` asks for a header or for a frame within the limit. */
  lemma NeedBounded(input: seq<Byte>, admission: Admission)
    ensures Decode(input, admission).Need? ==>
              |input| < Decode(input, admission).required
              && (Decode(input, admission).required == HEADER_LENGTH
                  || Decode(input, admission).required <= admission.limits.frameSize)
  {
  }

  /** An answered frame occupies a length its header states and the buffer holds; cutting the
      buffer there changes nothing. */
  lemma Truncate(input: seq<Byte>, admission: Admission)
    ensures var step := Decode(input, admission);
            (step.Admitted? || (step.Refused? && step.failure.scope.RequestScoped?)) ==>
              && |input| >= HEADER_LENGTH
              && var total := ParseHeader(input).value.TotalLength();
              && HEADER_LENGTH <= total <= |input|
              && Decode(input[..total], admission) == step
              && (step.Admitted? ==> step.frame.header.requestId == ParseHeader(input).value.requestId)
              && (step.Refused? ==> step.consumed == total)
  {
    var step := Decode(input, admission);
    AdmitExtend(input, [], admission.role, admission.limits);
    if step.Admitted? || (step.Refused? && step.failure.scope.RequestScoped?) {
      var total := ParseHeader(input).value.TotalLength();
      var cut := input[..total];
      assert input == cut + input[total..];
      HeaderStable(cut, input[total..]);
      PrefixStable(cut, input[total..], admission);
    }
  }

  /** The decoder reads the in-flight ids only as a set, and only at the id the header names. */
  lemma OrderBlind(input: seq<Byte>, admission: Admission, other: seq<U64>)
    requires |input| >= HEADER_LENGTH ==>
               (U64At(input, 12) in admission.inFlight <==> U64At(input, 12) in other)
    ensures Decode(input, admission) == Decode(input, admission.(inFlight := other))
  {
  }

  /** The bytes of an answered frame read the same to a receiver that knows only its id. */
  lemma Reread(input: seq<Byte>, admission: Admission)
    requires var step := Decode(input, admission);
             step.Admitted? || (step.Refused? && step.failure.scope.RequestScoped?)
    requires |input| >= HEADER_LENGTH && ParseHeader(input).value.requestId in admission.inFlight
    ensures var raw := ParseHeader(input).value;
            && HEADER_LENGTH <= raw.TotalLength() <= |input|
            && ParseHeader(input[..raw.TotalLength()]) == Some(raw)
            && Decode(input[..raw.TotalLength()], admission.(inFlight := [raw.requestId])) == Decode(input, admission)
  {
    Truncate(input, admission);
    var raw := ParseHeader(input).value;
    var cut := input[..raw.TotalLength()];
    assert input == cut + input[raw.TotalLength()..];
    HeaderStable(cut, input[raw.TotalLength()..]);
    assert U64At(cut, 12) == raw.requestId;
    OrderBlind(cut, admission, [raw.requestId]);
  }

  /** Two receivers that hold a prefix and the whole of one stream, and list the same in-flight
      ids in any order, reach the same answer. */
  lemma AnswerStable(input: seq<Byte>, more: seq<Byte>, admission: Admission, other: seq<U64>)
    requires forall id :: id in admission.inFlight <==> id in other
    ensures var whole := Decode(input + more, admission.(inFlight := other));
            match Decode(input, admission)
            case Need(n) => |input| < n && (|input + more| < n ==> whole == Need(n))
            case Admitted(frame) => whole == Admitted(frame)
            case Refused(failure, consumed) =>
              whole == Refused(failure, if failure.scope.RequestScoped? then consumed else |input + more|)
  {
    PrefixStable(input, more, admission);
    OrderBlind(input + more, admission, other);
  }

  // ---------------------------------------------------------------- metadata lengths

  lemma {:induction false} PrintLength(entries: seq<Entry>)
    ensures |Print(entries)| == RegionLength(entries)
  {
    if entries != [] { PrintLength(entries[1..]); }
  }

  predicate Follows(previous: Option<U16>, entries: seq<Entry>) {
    previous.Some? && entries != [] ==> previous.value < entries[0].identifier
  }

  lemma AscendingTail(entries: seq<Entry>)
    requires entries != []
    ensures StrictlyAscending(entries)
            <==> StrictlyAscending(entries[1..]) && Follows(Some(entries[0].identifier), entries[1..])
  {
    var tail := entries[1..];
    assert entries == [entries[0]] + tail;
    if StrictlyAscending(entries) {
      forall i, j | 0 <= i < j < |tail| ensures tail[i].identifier < tail[j].identifier {
        assert entries[i + 1].identifier < entries[j + 1].identifier;
      }
    }
  }

  /** The sum succeeds exactly on ascending metadata that fits the width, with the printed length. */
  lemma {:induction false} SumExact(entries: seq<Entry>, previous: Option<U16>, length: U64)
    ensures var ok := StrictlyAscending(entries) && Follows(previous, entries)
                      && length + RegionLength(entries) < 0x1_0000_0000_0000_0000;
            && (SumMetadata(entries, previous, length).Ok? <==> ok)
            && (ok ==> SumMetadata(entries, previous, length) == Ok(length + RegionLength(entries)))
    decreases |entries|
  {
    if entries != [] {
      AscendingTail(entries);
      if Follows(previous, entries) && length + 4 + |entries[0].value| < 0x1_0000_0000_0000_0000 {
        SumExact(entries[1..], Some(entries[0].identifier), length + 4 + |entries[0].value|);
      }
    }
  }

  // ---------------------------------------------------------------- why an encoding fails

  /** Entry `k` does not follow the one before it. */
  predicate Breaks(entries: seq<Entry>, previous: Option<U16>, k: int) {
    && 0 <= k < |entries|
    && if k == 0 then previous.Some? && entries[0].identifier <= previous.value
       else entries[k].identifier <= entries[k - 1].identifier
  }

  /** Entry `k` is the first out of order, and the lengths before it fit the 64-bit sum. */
  predicate FirstBreak(entries: seq<Entry>, previous: Option<U16>, length: nat, k: int) {
    && Breaks(entries, previous, k) && (forall j | 0 <= j < k :: !Breaks(entries, previous, j))
    && length + RegionLength(entries[..k]) < 0x1_0000_0000_0000_0000
  }

  predicate OutOfOrder(entries: seq<Entry>, previous: Option<U16>, length: nat) {
    exists k | 0 <= k < |entries| :: FirstBreak(entries, previous, length, k)
  }

  lemma BreakShifts(entries: seq<Entry>, previous: Option<U16>, length: nat)
    requires entries != [] && !Breaks(entries, previous, 0)
    ensures var e := entries[0];
            OutOfOrder(entries, previous, length)
            <==> OutOfOrder(entries[1..], Some(e.identifier), length + 4 + |e.value|)
  {
    var e, tail := entries[0], entries[1..];
    var first, more := Some(e.identifier), length + 4 + |e.value|;
    forall k | 0 <= k < |tail|
      ensures FirstBreak(tail, first, more, k) <==> FirstBreak(entries, previous, length, k + 1)
    {
      assert entries[..k + 1][0] == e && entries[..k + 1][1..] == tail[..k];
      assert forall j | 0 <= j <= k :: Breaks(tail, first, j) <==> Breaks(entries, previous, j + 1);
      assert forall j | 0 < j <= k :: Breaks(entries, previous, j) <==> Breaks(tail, first, j - 1);
    }
    if k :| 0 <= k < |entries| && FirstBreak(entries, previous, length, k) {
      assert FirstBreak(tail, first, more, k - 1);
    }
    if k :| 0 <= k < |tail| && FirstBreak(tail, first, more, k) { assert FirstBreak(entries, previous, length, k + 1); }
  }

  lemma NoBreakPast(entries: seq<Entry>, previous: Option<U16>, length: nat)
    requires entries != [] && !Breaks(entries, previous, 0)
    requires length + 4 + |entries[0].value| >= 0x1_0000_0000_0000_0000
    ensures !OutOfOrder(entries, previous, length)
  {
    forall k | 0 < k < |entries| ensures !FirstBreak(entries, previous, length, k) {
      assert entries[..k][0] == entries[0];
    }
  }

  /** The sum fails for its order exactly at a first entry out of order that it reaches, and for its
      length in every other case. */
  lemma {:induction false} SumFails(entries: seq<Entry>, previous: Option<U16>, length: U64)
    ensures SumMetadata(entries, previous, length) == Err(MetadataNotAscending)
            <==> OutOfOrder(entries, previous, length)
    ensures SumMetadata(entries, previous, length) in {Err(MetadataNotAscending), Err(MetadataTooLarge)}
            || SumMetadata(entries, previous, length).Ok?
    decreases |entries|
  {
    if entries != [] {
      if Breaks(entries, previous, 0) {
        assert FirstBreak(entries, previous, length, 0);
      } else if length + 4 + |entries[0].value| >= 0x1_0000_0000_0000_0000 {
        NoBreakPast(entries, previous, length);
      } else {
        BreakShifts(entries, previous, length);
        SumFails(entries[1..], Some(entries[0].identifier), length + 4 + |entries[0].value|);
      }
    }
  }

  /** The bytes a payload takes. */
  function PayloadSize(payload: Payload): nat {
    match payload
    case Opaque(bytes) => |bytes|
    case Warm(_) => 8
    case Detailed(detail, text) => 2 + |detail| + |text|
  }

  /** Why a frame cannot be encoded, for every frame and every limit: metadata out of order, else
      metadata past its limit, else a detail, a payload or a frame past its own. */
  lemma EncodeFails(o: Outgoing, maxFrame: U64, maxMetadata: U16)
    ensures var result, disordered := EncodeWithMax(o, maxFrame, maxMetadata), OutOfOrder(o.metadata, None, 0);
            && (result == Err(MetadataNotAscending) <==> disordered)
            && (result == Err(MetadataTooLarge) <==> !disordered && RegionLength(o.metadata) > maxMetadata)
            && (result == Err(FrameTooLarge) <==>
                  && !disordered && RegionLength(o.metadata) <= maxMetadata
                  && ((o.payload.Detailed? && |o.payload.detail| >= 0x1_0000)
                      || PayloadSize(o.payload) >= 0x1_0000_0000
                      || HEADER_LENGTH + RegionLength(o.metadata) + PayloadSize(o.payload) > maxFrame))
  {
    MetadataFails(o.metadata, maxMetadata);
  }

  lemma MetadataFails(metadata: seq<Entry>, max: U16)
    ensures CheckedMetadataLength(metadata, max)
            == if OutOfOrder(metadata, None, 0) then Err(MetadataNotAscending)
               else if RegionLength(metadata) > max then Err(MetadataTooLarge)
               else Ok(RegionLength(metadata))
  {
    SumFails(metadata, None, 0);
    SumExact(metadata, None, 0);
    if RegionLength(metadata) < 0x1_0000_0000_0000_0000 { OrderedAscends(metadata, None, 0); }
  }

  /** Without a break that the sum reaches, metadata whose length fits is in order. */
  lemma {:induction false} OrderedAscends(entries: seq<Entry>, previous: Option<U16>, length: nat)
    requires length + RegionLength(entries) < 0x1_0000_0000_0000_0000
    ensures OutOfOrder(entries, previous, length) <==> !(StrictlyAscending(entries) && Follows(previous, entries))
    decreases |entries|
  {
    if entries != [] {
      AscendingTail(entries);
      if Breaks(entries, previous, 0) {
        assert FirstBreak(entries, previous, length, 0);
      } else {
        BreakShifts(entries, previous, length);
        OrderedAscends(entries[1..], Some(entries[0].identifier), length + 4 + |entries[0].value|);
      }
    }
  }

  // ---------------------------------------------------------------- payloads

  /** The payload shapes each correlated code carries. */
  predicate PayloadFits(c: Correlation, body: Payload) {
    match c
    case HandshakeRequest => body.Opaque?
    case ResponseOf(Success) => body.Opaque?
    case ResponseOf(Absent) => body == Opaque([])
    case ResponseOf(ValueHeldOutsideMemory) => body.Warm?
    case ErrorOf(_) => body.Detailed?
    case OperationRequest(opcode) =>
      && body.Opaque?
      && (opcode == PING_OPCODE ==> body.bytes == [])
      && (opcode == SET_OPCODE ==> |body.bytes| >= 4 && 4 + U32At(body.bytes, 0) <= |body.bytes|)
  }

  lemma PayloadRoundTrip(c: Correlation, body: Payload)
    requires EncodePayload(body).Ok?
    ensures ReadPayload(c, EncodePayload(body).value) == Ok(body) <==> PayloadFits(c, body)
  {
    var bytes := EncodePayload(body).value;
    match body
    case Opaque(_) =>
    case Warm(n) =>
      assert bytes[0..8] == Le64(n);
      Field64(bytes, 0, n);
    case Detailed(detail, text) =>
      assert bytes[0..2] == Le16(|detail|);
      Field16(bytes, 0, |detail|);
      assert bytes[2..2 + |detail|] == detail && bytes[2 + |detail|..] == text;
  }

  lemma PayloadCanonical(c: Correlation, payload: seq<Byte>)
    requires ReadPayload(c, payload).Ok?
    ensures EncodePayload(ReadPayload(c, payload).value) == Ok(payload)
  {
    match c
    case ResponseOf(ValueHeldOutsideMemory) => WarmCanonical(payload);
    case ErrorOf(_) => DetailCanonical(payload);
    case _ =>
  }

  lemma WarmCanonical(payload: seq<Byte>)
    requires |payload| == 8
    ensures Le64(U64At(payload, 0)) == payload
  {
    FieldBytes(payload, 0);
    assert payload[0..8] == payload;
  }

  lemma DetailCanonical(payload: seq<Byte>)
    requires |payload| >= 2 && 2 + U16At(payload, 0) <= |payload|
    ensures var end := 2 + U16At(payload, 0);
            Le16(U16At(payload, 0)) + payload[2..end] + payload[end..] == payload
  {
    FieldBytes(payload, 0);
    var end := 2 + U16At(payload, 0);
    assert payload == payload[0..2] + payload[2..end] + payload[end..];
  }

  // ---------------------------------------------------------------- the codec is canonical

  function OutgoingOf(f: Frame): Outgoing {
    Outgoing(f.header.kind, f.header.code, f.header.requestId, f.metadata, f.payload)
  }

  lemma EncodeSucceeds(o: Outgoing, payload: seq<Byte>, maxFrame: U64, maxMetadata: U16)
    requires StrictlyAscending(o.metadata) && RegionLength(o.metadata) <= maxMetadata
    requires EncodePayload(o.payload) == Ok(payload) && |payload| < 0x1_0000_0000
    requires HEADER_LENGTH + RegionLength(o.metadata) + |payload| <= maxFrame
    ensures EncodeWithMax(o, maxFrame, maxMetadata)
            == Ok(HeaderBytes(RawHeader(0, o.kind.Wire(), 0, o.code, RegionLength(o.metadata), |payload|, o.requestId))
                  + Print(o.metadata) + payload)
  {
    SumExact(o.metadata, None, 0);
  }

  /** An admitted frame split into the three parts the encoder writes. */
  lemma AdmittedParts(input: seq<Byte>, admission: Admission)
    requires Decode(input, admission).Admitted?
    ensures |input| >= HEADER_LENGTH
    ensures var raw, f := ParseHeader(input).value, Decode(input, admission).frame;
            var end, total := HEADER_LENGTH + raw.metadataLength, raw.TotalLength();
            && end <= total <= |input| && total <= admission.limits.frameSize
            && raw.metadataLength <= admission.limits.metadataSize
            && raw == RawHeader(0, f.header.kind.Wire(), 0, f.header.code, raw.metadataLength, raw.payloadLength,
                                f.header.requestId)
            && f.header == HeaderOf(raw, f.header.kind)
            && Parse(input[HEADER_LENGTH..end]) == Some(f.metadata)
            && StrictlyAscending(f.metadata) && AllOptional(f.metadata)
            && f.header.kind.Sender() != admission.role
            && CheckPhase(admission.phase, f.header.kind, f.header.code).None?
            && var c := Correlate(f.header.kind, f.header.code, f.header.requestId, admission.inFlight);
            && c.Ok? && ReadPayload(c.value, input[end..total]) == Ok(f.payload)
            && f.retires == RetiresFor(c.value, f.header.requestId)
  {
  }

  lemma PartsEncode(input: seq<Byte>, raw: RawHeader, o: Outgoing, c: Correlation, maxFrame: U64, maxMetadata: U16)
    requires ParseHeader(input) == Some(raw)
    requires raw.TotalLength() <= |input| && raw.TotalLength() <= maxFrame && raw.metadataLength <= maxMetadata
    requires raw == RawHeader(0, o.kind.Wire(), 0, o.code, raw.metadataLength, raw.payloadLength, o.requestId)
    requires Parse(input[HEADER_LENGTH..HEADER_LENGTH + raw.metadataLength]) == Some(o.metadata)
    requires StrictlyAscending(o.metadata)
    requires ReadPayload(c, input[HEADER_LENGTH + raw.metadataLength..raw.TotalLength()]) == Ok(o.payload)
    ensures EncodeWithMax(o, maxFrame, maxMetadata) == Ok(input[..raw.TotalLength()])
  {
    var end, total := HEADER_LENGTH + raw.metadataLength, raw.TotalLength();
    var region, payload := input[HEADER_LENGTH..end], input[end..total];
    PrintParse(region);
    PrintLength(o.metadata);
    PayloadCanonical(c, payload);
    EncodeSucceeds(o, payload, maxFrame, maxMetadata);
    HeaderCanonical(input);
    ThreeParts(input, end, total);
  }

  lemma ThreeParts(input: seq<Byte>, end: nat, total: nat)
    requires HEADER_LENGTH <= end <= total <= |input|
    ensures input[..total] == input[..HEADER_LENGTH] + input[HEADER_LENGTH..end] + input[end..total]
  {
  }

  /** Writing an admitted frame again gives exactly the bytes it occupied. */
  lemma DecodeEncode(input: seq<Byte>, admission: Admission)
    requires Decode(input, admission).Admitted?
    ensures |input| >= HEADER_LENGTH && ParseHeader(input).value.TotalLength() <= |input|
    ensures EncodeWithMax(OutgoingOf(Decode(input, admission).frame),
                          admission.limits.frameSize, admission.limits.metadataSize)
            == Ok(input[..ParseHeader(input).value.TotalLength()])
  {
    AdmittedParts(input, admission);
    var f := Decode(input, admission).frame;
    var c := Correlate(f.header.kind, f.header.code, f.header.requestId, admission.inFlight).value;
    PartsEncode(input, ParseHeader(input).value, OutgoingOf(f), c,
                admission.limits.frameSize, admission.limits.metadataSize);
  }

  function RetiresOf(o: Outgoing): U64 {
    if o.kind.Response? then o.requestId
    else if o.kind.Error? && ErrorClassFromWire(o.code).Some?
            && ErrorClassFromWire(o.code).value.FailureScope().RequestScoped? then o.requestId
    else 0
  }

  /** The frame a receiver reads off an encoded `o`. */
  function FrameOf(o: Outgoing): Frame
    requires RegionLength(o.metadata) < 0x1_0000
    requires EncodePayload(o.payload).Ok? && |EncodePayload(o.payload).value| < 0x1_0000_0000
  {
    Frame(Header(0, o.kind, 0, o.code, RegionLength(o.metadata), |EncodePayload(o.payload).value|, o.requestId),
          o.metadata, o.payload, RetiresOf(o))
  }

  /** What the receiver must accept for an encoded frame to be read back. */
  predicate Receivable(o: Outgoing, size: nat, admission: Admission) {
    && size <= admission.limits.frameSize
    && RegionLength(o.metadata) <= admission.limits.metadataSize
    && o.kind.Sender() != admission.role
    && CheckPhase(admission.phase, o.kind, o.code).None?
    && AllOptional(o.metadata)
    && var c := Correlate(o.kind, o.code, o.requestId, admission.inFlight);
       c.Ok? && PayloadFits(c.value, o.payload)
  }

  lemma EncodedParts(o: Outgoing, maxFrame: U64, maxMetadata: U16)
    requires EncodeWithMax(o, maxFrame, maxMetadata).Ok?
    ensures StrictlyAscending(o.metadata) && RegionLength(o.metadata) <= maxMetadata
    ensures EncodePayload(o.payload).Ok? && |EncodePayload(o.payload).value| < 0x1_0000_0000
    ensures |EncodeWithMax(o, maxFrame, maxMetadata).value|
            == HEADER_LENGTH + RegionLength(o.metadata) + |EncodePayload(o.payload).value| <= maxFrame
    ensures EncodeWithMax(o, maxFrame, maxMetadata).value
            == HeaderBytes(RawHeader(0, o.kind.Wire(), 0, o.code, RegionLength(o.metadata),
                                     |EncodePayload(o.payload).value|, o.requestId))
               + Print(o.metadata) + EncodePayload(o.payload).value
  {
    SumExact(o.metadata, None, 0);
    PrintLength(o.metadata);
  }

  lemma {:induction false} FitsRepresentable(entries: seq<Entry>)
    requires RegionLength(entries) < 0x1_0000
    ensures Representable(entries)
  {
    if entries != [] {
      FitsRepresentable(entries[1..]);
      assert entries == [entries[0]] + entries[1..];
    }
  }

  /** The checks past the header accept an encoded frame exactly when it is receivable. */
  lemma ClassifyEncoded(o: Outgoing, raw: RawHeader, phase: Phase, inFlight: seq<U64>)
    requires RegionLength(o.metadata) < 0x1_0000 && StrictlyAscending(o.metadata)
    requires EncodePayload(o.payload).Ok? && |EncodePayload(o.payload).value| < 0x1_0000_0000
    requires raw == RawHeader(0, o.kind.Wire(), 0, o.code, RegionLength(o.metadata),
                              |EncodePayload(o.payload).value|, o.requestId)
    ensures var a := Pass(raw, o.kind, o.metadata, raw.TotalLength());
            var c := Correlate(o.kind, o.code, o.requestId, inFlight);
            Classify(a, phase, inFlight, EncodePayload(o.payload).value) == Ok(FrameOf(o))
            <==> CheckPhase(phase, o.kind, o.code).None? && AllOptional(o.metadata)
                 && c.Ok? && PayloadFits(c.value, o.payload)
  {
    var c := Correlate(o.kind, o.code, o.requestId, inFlight);
    if c.Ok? { PayloadRoundTrip(c.value, o.payload); }
  }

  /** An encoded frame, with any bytes after it, is read back as itself exactly when the
      receiver's limits, role, phase and in-flight ids allow it and its payload fits its code. */
  lemma EncodeDecode(o: Outgoing, maxFrame: U64, maxMetadata: U16, admission: Admission, rest: seq<Byte>)
    requires EncodeWithMax(o, maxFrame, maxMetadata).Ok?
    ensures RegionLength(o.metadata) < 0x1_0000
    ensures EncodePayload(o.payload).Ok? && |EncodePayload(o.payload).value| < 0x1_0000_0000
    ensures var bytes := EncodeWithMax(o, maxFrame, maxMetadata).value;
            Decode(bytes + rest, admission) == Admitted(FrameOf(o)) <==> Receivable(o, |bytes|, admission)
  {
    EncodedParts(o, maxFrame, maxMetadata);
    var payload := EncodePayload(o.payload).value;
    var raw := RawHeader(0, o.kind.Wire(), 0, o.code, RegionLength(o.metadata), |payload|, o.requestId);
    PartsDecode(o, raw, payload, admission, HeaderBytes(raw) + Print(o.metadata) + payload, rest);
  }

  lemma PartsDecode(
    o: Outgoing, raw: RawHeader, payload: seq<Byte>, admission: Admission, bytes: seq<Byte>, rest: seq<Byte>)
    requires RegionLength(o.metadata) < 0x1_0000 && StrictlyAscending(o.metadata)
    requires EncodePayload(o.payload) == Ok(payload) && |payload| < 0x1_0000_0000
    requires raw == RawHeader(0, o.kind.Wire(), 0, o.code, RegionLength(o.metadata), |payload|, o.requestId)
    requires bytes == HeaderBytes(raw) + Print(o.metadata) + payload && |bytes| == raw.TotalLength()
    ensures Decode(bytes + rest, admission) == Admitted(FrameOf(o)) <==> Receivable(o, |bytes|, admission)
  {
    EncodedAdmittance(o, raw, payload, admission, bytes, rest);
    ClassifyEncoded(o, raw, admission.phase, admission.inFlight);
  }

  lemma EncodedAdmittance(
    o: Outgoing, raw: RawHeader, payload: seq<Byte>, admission: Admission, bytes: seq<Byte>, rest: seq<Byte>)
    requires RegionLength(o.metadata) < 0x1_0000 && |payload| < 0x1_0000_0000
    requires raw == RawHeader(0, o.kind.Wire(), 0, o.code, RegionLength(o.metadata), |payload|, o.requestId)
    requires bytes == HeaderBytes(raw) + Print(o.metadata) + payload && |bytes| == raw.TotalLength()
    ensures var input := bytes + rest;
            && input[HEADER_LENGTH + raw.metadataLength..raw.TotalLength()] == payload
            && Admit(input, admission.role, admission.limits).Pass? ==
               (raw.TotalLength() <= admission.limits.frameSize
                && raw.metadataLength <= admission.limits.metadataSize
                && o.kind.Sender() != admission.role)
            && (Admit(input, admission.role, admission.limits).Pass? ==>
                  Admit(input, admission.role, admission.limits)
                  == Pass(raw, o.kind, o.metadata, raw.TotalLength()))
            && !(Admit(input, admission.role, admission.limits).Stop?
                 && Admit(input, admission.role, admission.limits).step.Admitted?)
  {
    PrintLength(o.metadata);
    FitsRepresentable(o.metadata);
    ParsePrint(o.metadata);
    EncodedSlices(raw, Print(o.metadata), payload, bytes, rest);
    AdmitWhole(bytes + rest, raw, o.kind, o.metadata, admission.role, admission.limits);
  }

  /** A whole frame with a readable region passes the header checks exactly within the limits and from
      the other side. */
  lemma AdmitWhole(
    input: seq<Byte>, raw: RawHeader, kind: Kind, metadata: seq<Entry>, role: Role, limits: Limits)
    requires ParseHeader(input) == Some(raw) && raw.version == 0 && raw.flags == 0 && raw.kind == kind.Wire()
    requires raw.TotalLength() <= |input|
    requires Parse(input[HEADER_LENGTH..HEADER_LENGTH + raw.metadataLength]) == Some(metadata)
    ensures Admit(input, role, limits)
            == if raw.TotalLength() > limits.frameSize then Stop(Refused(RESOURCE_LIMIT, |input|))
               else if raw.metadataLength > limits.metadataSize then Stop(Refused(MALFORMED, |input|))
               else if kind.Sender() == role then Stop(Refused(VIOLATION, |input|))
               else Pass(raw, kind, metadata, raw.TotalLength())
  {
  }

  lemma EncodedSlices(raw: RawHeader, region: seq<Byte>, payload: seq<Byte>, bytes: seq<Byte>, rest: seq<Byte>)
    requires |region| == raw.metadataLength && |payload| == raw.payloadLength
    requires bytes == HeaderBytes(raw) + region + payload
    ensures var input := bytes + rest;
            && ParseHeader(input) == Some(raw) && raw.TotalLength() <= |input|
            && input[HEADER_LENGTH..HEADER_LENGTH + raw.metadataLength] == region
            && input[HEADER_LENGTH + raw.metadataLength..raw.TotalLength()] == payload
  {
    var header, input := HeaderBytes(raw), bytes + rest;
    assert input == header + (region + payload + rest);
    HeaderRoundTrip(raw, region + payload + rest);
  }
}
