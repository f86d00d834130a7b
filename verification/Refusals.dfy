/** What the decoder refuses and with which failure, read off the bytes of the frame alone: codes,
    lengths and ids as the wire states them. */
module Refusals {
  import opened Sequences
  import opened LittleEndian
  import opened Wrappers
  import opened EntryRegion
  import opened Protocol
  import opened Codec
  import opened Dispatch
  import opened Correlation

  const REQUEST: Byte := 1
  const RESPONSE: Byte := 2
  const ERROR: Byte := 3

  const OPCODES: set<int> := {1, 2, 3, 4, 5, 6}
  const RESULT_CODES: set<int> := {0, 1, 4}
  const SCOPED_CODES: set<int> := {3, 4, 8, 0xB, 0xE}
  const FATAL_CODES: set<int> := {1, 2, 5, 0xC}

  // ---------------------------------------------------------------- frames in plain words

  /** The header of the frame at the head of a buffer. */
  function Head(input: seq<Byte>): RawHeader
    requires |input| >= 20
  {
    ParseHeader(input).value
  }

  /** A version 0 header of a known kind. */
  predicate Known(input: seq<Byte>) {
    |input| >= 20 && Head(input).version == 0 && Head(input).kind in {REQUEST, RESPONSE, ERROR}
  }

  /** A known header with no flag set, for a frame within the frame limit. */
  predicate Sized(input: seq<Byte>, limits: Limits) {
    Known(input) && Head(input).TotalLength() <= limits.frameSize && Head(input).flags == 0
  }

  /** A header that passes every check a header alone can fail. */
  predicate Sound(input: seq<Byte>, limits: Limits) {
    Sized(input, limits) && Head(input).metadataLength <= limits.metadataSize
  }

  /** The bytes of the metadata region. */
  function Region(input: seq<Byte>): seq<Byte>
    requires |input| >= 20 && |input| >= Head(input).TotalLength()
  {
    input[20..20 + Head(input).metadataLength]
  }

  function Body(input: seq<Byte>): seq<Byte>
    requires |input| >= 20 && |input| >= Head(input).TotalLength()
  {
    input[20 + Head(input).metadataLength..Head(input).TotalLength()]
  }

  /** A sound frame of which every byte is there. */
  predicate Present(input: seq<Byte>, limits: Limits) {
    Sound(input, limits) && |input| >= Head(input).TotalLength()
  }

  /** A frame that is all there and whose metadata region holds whole entries. */
  predicate Whole(input: seq<Byte>, limits: Limits) {
    Present(input, limits) && Parse(Region(input)).Some?
  }

  /** Who may send the kind, and what the connection's phase lets through. */
  predicate Timely(h: RawHeader, role: Role, phase: Phase) {
    && (h.kind == REQUEST <==> role == Server)
    && match phase
       case PreNegotiation =>
         (h.kind == REQUEST && h.code == 1) || (h.kind == RESPONSE && h.code == 0) || h.kind == ERROR
       case Negotiated => !(h.kind == REQUEST && h.code == 1)
       case Terminal => false
  }

  /** The id fits the requests in flight, and an answer carries an assigned code. */
  predicate Correlates(h: RawHeader, inFlight: seq<U64>) {
    if h.kind == REQUEST then h.requestId != 0 && h.requestId !in inFlight
    else if h.kind == RESPONSE then h.requestId != 0 && h.requestId in inFlight && h.code in RESULT_CODES
    else h.code in FATAL_CODES || (h.code in SCOPED_CODES && h.requestId != 0 && h.requestId in inFlight)
  }

  /** A whole frame of the right kind at the right time for the right id. */
  predicate Due(input: seq<Byte>, admission: Admission) {
    && Whole(input, admission.limits)
    && Timely(Head(input), admission.role, admission.phase)
    && Correlates(Head(input), admission.inFlight)
  }

  /** The operation a request names is assigned. */
  predicate Assigned(h: RawHeader) {
    h.kind == REQUEST ==> h.code in OPCODES
  }

  /** Identifiers ascend and none is one a receiver must understand. */
  predicate Readable(entries: seq<Entry>) {
    StrictlyAscending(entries) && AllOptional(entries)
  }

  /** The payload has the layout its kind and code call for. */
  predicate Shaped(h: RawHeader, payload: seq<Byte>) {
    if h.kind == REQUEST then
      && (h.code == 2 ==> payload == [])
      && (h.code == 4 ==> |payload| >= 4 && 4 + U32At(payload, 0) <= |payload|)
    else if h.kind == RESPONSE then
      (h.code == 1 ==> payload == []) && (h.code == 4 ==> |payload| == 8)
    else
      |payload| >= 2 && 2 + U16At(payload, 0) <= |payload|
  }

  /** What a shaped payload is read as. */
  function Meaning(h: RawHeader, payload: seq<Byte>): Payload
    requires Shaped(h, payload)
  {
    if h.kind == ERROR then Detailed(payload[2..2 + U16At(payload, 0)], payload[2 + U16At(payload, 0)..])
    else if h.kind == RESPONSE && h.code == 4 then Warm(U64At(payload, 0))
    else Opaque(payload)
  }

  /** The metadata of a whole frame is readable. */
  predicate Clean(input: seq<Byte>, limits: Limits) {
    Whole(input, limits) && Readable(Parse(Region(input)).value)
  }

  // ---------------------------------------------------------------- one condition per verdict

  /** More bytes are needed. */
  predicate Short(input: seq<Byte>, limits: Limits) {
    |input| < 20 || (Sound(input, limits) && |input| < Head(input).TotalLength())
  }

  predicate OtherVersion(input: seq<Byte>) {
    |input| >= 20 && input[0] != 0
  }

  predicate Oversized(input: seq<Byte>, limits: Limits) {
    Known(input) && Head(input).TotalLength() > limits.frameSize
  }

  /** The lengths inside the frame do not add up. */
  predicate Misshapen(input: seq<Byte>, admission: Admission) {
    || (Sized(input, admission.limits) && Head(input).metadataLength > admission.limits.metadataSize)
    || (Present(input, admission.limits) && Parse(Region(input)).None?)
    || (Due(input, admission) && Assigned(Head(input)) && Clean(input, admission.limits)
        && !Shaped(Head(input), Body(input)))
  }

  /** The frame breaks a rule of the exchange. */
  predicate Violates(input: seq<Byte>, admission: Admission) {
    || (|input| >= 20 && input[0] == 0 && !Known(input))
    || (Known(input) && Head(input).TotalLength() <= admission.limits.frameSize && Head(input).flags != 0)
    || (Whole(input, admission.limits) && !Due(input, admission))
  }

  /** A due request for an operation nobody assigned. */
  predicate Unassigned(input: seq<Byte>, admission: Admission) {
    Due(input, admission) && !Assigned(Head(input))
  }

  /** A due frame whose metadata a receiver may not read past. */
  predicate Unreadable(input: seq<Byte>, admission: Admission) {
    Due(input, admission) && Assigned(Head(input)) && !Clean(input, admission.limits)
  }

  predicate Acceptable(input: seq<Byte>, admission: Admission) {
    && Due(input, admission) && Assigned(Head(input)) && Clean(input, admission.limits)
    && Shaped(Head(input), Body(input))
  }

  /** What the header alone decides. */
  lemma HeaderVerdict(input: seq<Byte>, limits: Limits)
    requires |input| >= 20
    ensures CheckHeader(Head(input), limits)
            == if OtherVersion(input) then Some(UNSUPPORTED_VERSION)
               else if Oversized(input, limits) then Some(RESOURCE_LIMIT)
               else if Sound(input, limits) then None
               else if Sized(input, limits) then Some(MALFORMED)
               else Some(VIOLATION)
    ensures KindFromWire(Head(input).kind).Some? <==> Head(input).kind in {REQUEST, RESPONSE, ERROR}
  {
  }

  /** What the header and the region alone let through. */
  lemma AdmitPasses(input: seq<Byte>, role: Role, limits: Limits)
    ensures var a := Admit(input, role, limits);
            && (a.Pass? <==> Whole(input, limits) && (Head(input).kind == REQUEST <==> role == Server))
            && (a.Pass? ==> a.raw == Head(input) && a.kind.Wire() == Head(input).kind
                            && a.metadata == Parse(Region(input)).value && a.total == Head(input).TotalLength())
  {
    if |input| >= 20 { HeaderVerdict(input, limits); }
  }

  /** What they stop. */
  lemma AdmitStops(input: seq<Byte>, role: Role, limits: Limits)
    ensures var a := Admit(input, role, limits);
            a.Stop? ==>
              a.step == if |input| < 20 then Need(20)
                        else if OtherVersion(input) then Refused(UNSUPPORTED_VERSION, |input|)
                        else if Oversized(input, limits) then Refused(RESOURCE_LIMIT, |input|)
                        else if Sound(input, limits) && |input| < Head(input).TotalLength()
                        then Need(Head(input).TotalLength())
                        else if (Sized(input, limits) && Head(input).metadataLength > limits.metadataSize)
                             || (Present(input, limits) && Parse(Region(input)).None?)
                        then Refused(MALFORMED, |input|)
                        else Refused(VIOLATION, |input|)
  {
    if |input| >= 20 { HeaderVerdict(input, limits); }
  }

  /** What the checks behind the header decide about a frame that is all there. */
  lemma ClassifyVerdict(a: Admittance, role: Role, phase: Phase, inFlight: seq<U64>, payload: seq<Byte>)
    requires a.Pass? && a.kind.Wire() == a.raw.kind && (a.kind.Request? <==> role == Server)
    ensures var due := Timely(a.raw, role, phase) && Correlates(a.raw, inFlight);
            match Classify(a, phase, inFlight, payload)
            case Err(failure) =>
              failure == if !due then VIOLATION
                         else if !Assigned(a.raw) then UNSUPPORTED_OPERATION
                         else if !Readable(a.metadata) then INVALID_ARGUMENT
                         else MALFORMED
            case Ok(frame) => due
    ensures Classify(a, phase, inFlight, payload).Ok?
            <==> Timely(a.raw, role, phase) && Correlates(a.raw, inFlight) && Assigned(a.raw) && Readable(a.metadata)
                 && Shaped(a.raw, payload)
  {
  }

  /** Every answer of the decoder, each with the exact frames that get it. */
  lemma DecodeVerdict(input: seq<Byte>, admission: Admission)
    ensures var step := Decode(input, admission);
            && (step.Need? <==> Short(input, admission.limits))
            && (step == Refused(UNSUPPORTED_VERSION, |input|) <==> OtherVersion(input))
            && (step == Refused(RESOURCE_LIMIT, |input|) <==> Oversized(input, admission.limits))
            && (step == Refused(MALFORMED, |input|) <==> Misshapen(input, admission))
            && (step == Refused(VIOLATION, |input|) <==> Violates(input, admission))
            && (step.Admitted? <==> Acceptable(input, admission))
    ensures Unassigned(input, admission) <==>
              |input| >= 20 && Decode(input, admission) == Refused(UNSUPPORTED_OPERATION, Head(input).TotalLength())
    ensures Unreadable(input, admission) <==>
              |input| >= 20 && Decode(input, admission) == Refused(INVALID_ARGUMENT, Head(input).TotalLength())
  {
    AdmitPasses(input, admission.role, admission.limits);
    AdmitStops(input, admission.role, admission.limits);
    var a := Admit(input, admission.role, admission.limits);
    if a.Pass? {
      ClassifyVerdict(a, admission.role, admission.phase, admission.inFlight, Body(input));
    }
  }

  /** An admitted frame holds the fields and slices its bytes state; it retires the id it names
      unless it is an error of a fatal class or a request. */
  lemma AdmittedFrame(input: seq<Byte>, admission: Admission)
    requires Acceptable(input, admission)
    ensures match Decode(input, admission)
            case Admitted(frame) =>
              var h := Head(input);
              && frame.header.kind.Wire() == h.kind
              && frame.header == Header(0, frame.header.kind, 0, h.code, h.metadataLength, h.payloadLength, h.requestId)
              && Print(frame.metadata) == Region(input) && frame.payload == Meaning(h, Body(input))
              && frame.retires
                 == (if h.kind == RESPONSE || (h.kind == ERROR && h.code in SCOPED_CODES) then h.requestId else 0)
            case _ => false
  {
    AdmitPasses(input, admission.role, admission.limits);
    AdmitStops(input, admission.role, admission.limits);
    var a := Admit(input, admission.role, admission.limits);
    ClassifyVerdict(a, admission.role, admission.phase, admission.inFlight, Body(input));
    ClassifiedFrame(a, admission.phase, admission.inFlight, Body(input));
    PrintParse(Region(input));
  }

  lemma ClassifiedFrame(a: Admittance, phase: Phase, inFlight: seq<U64>, payload: seq<Byte>)
    requires a.Pass? && a.kind.Wire() == a.raw.kind && Classify(a, phase, inFlight, payload).Ok?
    requires Shaped(a.raw, payload)
    ensures var frame := Classify(a, phase, inFlight, payload).value;
            && frame.header == HeaderOf(a.raw, a.kind) && frame.metadata == a.metadata
            && frame.payload == Meaning(a.raw, payload)
            && frame.retires
               == if a.raw.kind == RESPONSE || (a.raw.kind == ERROR && a.raw.code in SCOPED_CODES) then a.raw.requestId
                  else 0
  {
  }

  /** A negotiated client answers for one request alone, and keeps its session, exactly when a whole
      frame with an assigned code names an id that is in flight, or carries a fatal class, and its
      metadata is out of order or holds an identifier a receiver must understand. */
  lemma RequestScopedExactly(input: seq<Byte>, limits: Limits, inFlight: seq<U64>)
    ensures var step := Decode(input, ClientAdmission(limits, inFlight));
            step.Refused? && step.failure.scope.RequestScoped?
            <==> && Whole(input, limits)
                 && var h := Head(input);
                 && ((h.kind == RESPONSE && h.code in RESULT_CODES)
                     || (h.kind == ERROR && h.code in SCOPED_CODES + FATAL_CODES))
                 && (h.kind == RESPONSE || h.code in SCOPED_CODES ==> h.requestId != 0 && h.requestId in inFlight)
                 && !Readable(Parse(Region(input)).value)
    ensures var step := Decode(input, ClientAdmission(limits, inFlight));
            step.Refused? && step.failure.scope.RequestScoped? ==>
              step == Refused(INVALID_ARGUMENT, Head(input).TotalLength())
  {
    DecodeVerdict(input, ClientAdmission(limits, inFlight));
    AdmitPasses(input, Client, limits);
    AdmitStops(input, Client, limits);
    var a := Admit(input, Client, limits);
    if a.Pass? { ClassifyVerdict(a, Client, Negotiated, inFlight, Body(input)); }
  }

  /** A settled frame reaches its waiter as its own bytes exactly when its metadata is readable, and as
      an invalid argument otherwise. */
  lemma SettledExactly(d: Delivery, bytes: seq<Byte>, id: U64, limits: Limits)
    requires Settles(d, bytes, id, limits)
    ensures d.outcome == if Clean(bytes, limits) then Ok(bytes) else Err(RequestFailed(INVALID_ARGUMENT))
  {
    DecodeVerdict(bytes, OwnAdmission(id, limits));
    RequestScopedExactly(bytes, limits, [id]);
  }

  // ---------------------------------------------------------------- what ends a session

  ghost function Held(s: Session, limits: Limits): Admission {
    ClientAdmission(limits, Listing(s.live))
  }

  /** An error of a fatal class that the decoder lets through although nobody waits on its id. */
  ghost predicate Stray(s: Session, limits: Limits) {
    && Due(s.buffer, Held(s, limits))
    && Head(s.buffer).kind == ERROR && Head(s.buffer).code in FATAL_CODES && Head(s.buffer).requestId !in s.live
    && (Clean(s.buffer, limits) ==> Shaped(Head(s.buffer), Body(s.buffer)))
  }

  /** The head of the buffer ends the session with `failure`. */
  ghost predicate Condemns(s: Session, limits: Limits, failure: Failure) {
    || (failure == UNSUPPORTED_VERSION && OtherVersion(s.buffer))
    || (failure == RESOURCE_LIMIT && Oversized(s.buffer, limits))
    || (failure == MALFORMED && Misshapen(s.buffer, Held(s, limits)))
    || (failure == VIOLATION && (Violates(s.buffer, Held(s, limits)) || Stray(s, limits)))
  }

  /** With every live id waited on, one turn of the drain loop ends the session with a given failure
      exactly on the frames that call for that failure. */
  lemma TurnVerdict(s: Session, limits: Limits, failure: Failure)
    requires s.live == s.waiters.Keys
    ensures Turned(s, limits).Fatal? && Turned(s, limits).failure == failure <==> Condemns(s, limits, failure)
  {
    TurnView(s, limits);
    DecodeVerdict(s.buffer, Held(s, limits));
    RequestScopedExactly(s.buffer, limits, Listing(s.live));
  }

  /** A drain that ends the session stops at a frame that calls for that failure, behind the frames it
      settled; one that does not leaves nothing at the head that would. */
  lemma {:induction false} DrainVerdict(s: Session, limits: Limits)
    requires s.live == s.waiters.Keys
    ensures var r := Drain(s, limits);
            match r.fatal
            case None => Short(r.session.buffer, limits)
            case Some(failure) => CondemnedBehind(r.session, Flatten(s.frames) + s.buffer, limits, failure)
    decreases |s.buffer|
  {
    TurnProgress(s, limits);
    match Turned(s, limits)
    case Idle => IdleIsShort(s, limits);
    case Fatal(_, _) => FatalCondemned(s, limits);
    case Handled(next) =>
      HandledKeepsStream(s, limits);
      DrainVerdict(next, limits);
  }

  /** The stream is the frames `t` settled and then a frame that ends the session with `failure`. */
  ghost predicate CondemnedBehind(t: Session, stream: seq<Byte>, limits: Limits, failure: Failure) {
    exists rest :: Flatten(t.frames) + rest == stream && Condemns(t.(buffer := rest), limits, failure)
  }

  lemma IdleIsShort(s: Session, limits: Limits)
    requires Turned(s, limits).Idle?
    ensures Short(s.buffer, limits)
  {
    TurnView(s, limits);
    DecodeVerdict(s.buffer, Held(s, limits));
  }

  lemma FatalCondemned(s: Session, limits: Limits)
    requires s.live == s.waiters.Keys && Turned(s, limits).Fatal?
    ensures var t := Turned(s, limits);
            CondemnedBehind(t.last, Flatten(s.frames) + s.buffer, limits, t.failure)
  {
    TurnView(s, limits);
    var t := Turned(s, limits);
    TurnVerdict(s, limits, t.failure);
    assert t.last.(buffer := s.buffer) == s;
  }

  lemma HandledKeepsStream(s: Session, limits: Limits)
    requires s.live == s.waiters.Keys && Turned(s, limits).Handled?
    ensures var next := Turned(s, limits).next;
            next.live == next.waiters.Keys && Flatten(next.frames) + next.buffer == Flatten(s.frames) + s.buffer
  {
    TurnSettles(s, limits);
    HeadMoves(s.frames, s.buffer[..HeadTotal(s.buffer)], s.buffer);
  }

  /** A frame whose lengths do not add up ends the session at once: a whole due frame with readable
      metadata that is an absence with a payload, a length notice that is not 8 bytes, or an error
      whose detail is missing or overruns its payload. */
  lemma MalformedEndsSession(s: Session, limits: Limits)
    requires s.live == s.waiters.Keys && Due(s.buffer, Held(s, limits)) && Clean(s.buffer, limits)
    requires var h := Head(s.buffer);
             || (h.kind == RESPONSE && h.code == 1 && h.payloadLength != 0)
             || (h.kind == RESPONSE && h.code == 4 && h.payloadLength != 8)
             || (h.kind == ERROR && h.payloadLength < 2)
             || (h.kind == ERROR && 2 + U16At(Body(s.buffer), 0) > h.payloadLength)
    ensures Drain(s, limits) == Drained(s, Some(MALFORMED))
  {
    TurnVerdict(s, limits, MALFORMED);
    TurnView(s, limits);
    DecodeVerdict(s.buffer, Held(s, limits));
  }
}
