/** Whether a failed waiter is told that its request may have taken effect: exactly when the failure
    was not read off the stream. */
module Ambiguity {
  import opened LittleEndian
  import opened Wrappers
  import opened EntryRegion
  import opened Protocol
  import opened Codec
  import opened Dispatch
  import opened Correlation
  import opened Refusals
  import opened Driver
  import opened Stops
  import opened Command
  import opened Exchange

  // ---------------------------------------------------------------- every failed send

  /** A step that fails waiters without having read their answer: a shutdown, the end of the stream,
      a write that fell short, or a submission whose id cannot be taken. */
  predicate Interrupts(d: State, e: Event) {
    e.Shutdown? || e.StreamEnd? || BadId(d, e) || CutShort(d, e)
  }

  /** What such a step tells the waiters it fails. */
  function Reason(d: State, e: Event): CommandError
    requires Interrupts(d, e)
  {
    if e.Shutdown? then ConnectionClosed
    else if BadId(d, e) then ConnectionUnusable
    else TransportLost
  }

  predicate Ambiguous(d: Delivery) {
    d.outcome.Err? && FromDriver(d.outcome.error).IsAmbiguous()
  }

  lemma FailedTail(s: Session, t: Session, error: DriverError, k: nat)
    requires FailedAll(s, t, error) && |s.log| <= k < |t.log|
    ensures t.log[k].outcome == Err(error)
  {
    var order :| Enumerates(order, s.waiters.Keys) && t.log == s.log + FailLog(order, s.waiters, error);
  }

  /** A failed send made by a read is never ambiguous: it is a refused frame or a fatal one. */
  lemma ReadSends(d: State, bytes: seq<Byte>, d': State, limits: Limits, k: nat)
    requires Inv(d, limits) && Next(d, Chunk(bytes), d', limits)
    requires k < |d'.session.log| && d'.session.log[k].outcome.Err?
    ensures !Ambiguous(d'.session.log[k])
  {
    var s := Extend(d.session, bytes);
    DrainKeeps(s, d.accepted, limits);
    FatalNotAmbiguous(s, limits);
    ReadLeaves(d, bytes, d', limits);
    LeftUnambiguous(Drain(s, limits), d', d.accepted, limits, k);
  }

  lemma LeftUnambiguous(r: Drained, d: State, accepted: seq<U64>, limits: Limits, k: nat)
    requires FramesInv(r.session, accepted, limits) && |r.session.log| == |r.session.frames| && Leaves(r, d)
    requires r.fatal.Some? ==> !FromDriver(SessionFatal(r.fatal.value)).IsAmbiguous()
    requires k < |d.session.log| && d.session.log[k].outcome.Err?
    ensures !Ambiguous(d.session.log[k])
  {
    if r.fatal.None? {
      SettledUnambiguous(r.session, accepted, limits, k);
    } else {
      EndedUnambiguous(r.session, d.session, r.fatal.value, accepted, limits, k);
    }
  }

  lemma SettledUnambiguous(s: Session, accepted: seq<U64>, limits: Limits, k: nat)
    requires FramesInv(s, accepted, limits) && |s.log| == |s.frames| && k < |s.log| && s.log[k].outcome.Err?
    ensures !Ambiguous(s.log[k])
  {
    RefusalClasses(s.frames[k], OwnAdmission(accepted[s.log[k].ticket], limits));
  }

  lemma EndedUnambiguous(s: Session, t: Session, fatal: Failure, accepted: seq<U64>, limits: Limits, k: nat)
    requires FramesInv(s, accepted, limits) && |s.log| == |s.frames| && FailedAll(s, t, SessionFatal(fatal))
    requires !FromDriver(SessionFatal(fatal)).IsAmbiguous() && k < |t.log| && t.log[k].outcome.Err?
    ensures !Ambiguous(t.log[k])
  {
    FailedAllReaches(s, t, SessionFatal(fatal));
    if k < |s.log| {
      SettledUnambiguous(s, accepted, limits, k);
    } else {
      FailedTail(s, t, SessionFatal(fatal), k);
    }
  }

  /** What a read tells the waiter of its `k`-th send: an invalid argument for a frame whose metadata it
      may not read past, or the class of the frame that ended the session. */
  ghost predicate ReadReason(d: State, k: nat, limits: Limits, told: CommandError) {
    if k < |d.session.frames| then !Clean(d.session.frames[k], limits) && told == OfClass(InvalidArgument)
    else exists t: Session, failure: Failure ::
           && CondemnedBehind(t, d.received, limits, failure) && t.frames == d.session.frames
           && told == OfClass(failure.cls)
  }

  lemma ReadTells(d: State, bytes: seq<Byte>, d': State, limits: Limits, k: nat)
    requires Inv(d, limits) && Next(d, Chunk(bytes), d', limits)
    requires k < |d'.session.log| && d'.session.log[k].outcome.Err?
    ensures ReadReason(d', k, limits, FromDriver(d'.session.log[k].outcome.error))
  {
    StepKeeps(d, Chunk(bytes), d', limits);
    ReadStops(d, bytes, d', limits);
    if k < |d'.session.frames| {
      RefusedTells(d', limits, k);
    } else {
      CondemnedTells(d', limits, k);
    }
  }

  lemma RefusedTells(d: State, limits: Limits, k: nat)
    requires FramesInv(d.session, d.accepted, limits) && k < |d.session.frames| && d.session.log[k].outcome.Err?
    ensures ReadReason(d, k, limits, FromDriver(d.session.log[k].outcome.error))
  {
    SettledExactly(d.session.log[k], d.session.frames[k], d.accepted[d.session.log[k].ticket], limits);
  }

  lemma CondemnedTells(d: State, limits: Limits, k: nat)
    requires |d.session.frames| <= k < |d.session.log|
    requires exists t: Session, failure: Failure ::
               && CondemnedBehind(t, d.received, limits, failure)
               && t.frames == d.session.frames && |t.log| == |t.frames|
               && FailedAll(t, d.session, SessionFatal(failure))
    ensures d.session.log[k].outcome.Err? && ReadReason(d, k, limits, FromDriver(d.session.log[k].outcome.error))
  {
    var t: Session, failure: Failure :| CondemnedBehind(t, d.received, limits, failure)
      && t.frames == d.session.frames && |t.log| == |t.frames| && FailedAll(t, d.session, SessionFatal(failure));
    FailedTail(t, d.session, SessionFatal(failure), k);
  }

  /** A failed send of the step from `d` to `d'`, its `k`-th: it is ambiguous exactly if the step
      interrupts, and then tells why; otherwise the step is a read, and it tells what was read. */
  ghost predicate ToldBy(d: State, e: Event, d': State, limits: Limits, sent: Delivery, k: nat) {
    && sent.outcome.Err?
    && (Ambiguous(sent) <==> Interrupts(d, e)) && (!Ambiguous(sent) <==> e.Chunk?)
    && (Interrupts(d, e) ==> FromDriver(sent.outcome.error) == Reason(d, e))
    && (e.Chunk? ==> ReadReason(d', k, limits, FromDriver(sent.outcome.error)))
  }

  lemma StepSends(d: State, e: Event, d': State, limits: Limits, k: nat)
    requires Inv(d, limits) && Next(d, e, d', limits)
    requires |d.session.log| <= k < |d'.session.log| && d'.session.log[k].outcome.Err?
    ensures ToldBy(d, e, d', limits, d'.session.log[k], k)
  {
    match e
    case Chunk(bytes) => ReadToldBy(d, bytes, d', limits, k);
    case Accept(id, frame, writes) => AcceptSends(d, id, frame, writes, d', limits, k);
    case _ => EndSends(d, e, d', limits, k);
  }

  lemma ReadToldBy(d: State, bytes: seq<Byte>, d': State, limits: Limits, k: nat)
    requires Inv(d, limits) && Next(d, Chunk(bytes), d', limits)
    requires k < |d'.session.log| && d'.session.log[k].outcome.Err?
    ensures ToldBy(d, Chunk(bytes), d', limits, d'.session.log[k], k)
  {
    ReadSends(d, bytes, d', limits, k);
    ReadTells(d, bytes, d', limits, k);
  }

  lemma EndSends(d: State, e: Event, d': State, limits: Limits, k: nat)
    requires Next(d, e, d', limits) && !e.Chunk? && !e.Accept? && |d.session.log| <= k < |d'.session.log|
    ensures ToldBy(d, e, d', limits, d'.session.log[k], k)
  {
    if e.Shutdown? { FailedTail(d.session, d'.session, SessionClosed, k); }
    if e.StreamEnd? { FailedTail(d.session, d'.session, TransportError, k); }
  }

  lemma AcceptSends(d: State, id: U64, frame: seq<Byte>, writes: seq<Write>, d': State, limits: Limits, k: nat)
    requires Next(d, Accept(id, frame, writes), d', limits) && |d.session.log| <= k < |d'.session.log|
    ensures ToldBy(d, Accept(id, frame, writes), d', limits, d'.session.log[k], k)
  {
    var s, ticket := d.session, |d.accepted|;
    if id == 0 || id in s.live {
      var before := TurnedAway(s, ticket);
      FailedAllReaches(before, d'.session, SessionUnusable);
      if k >= |before.log| { FailedTail(before, d'.session, SessionUnusable, k); }
    } else {
      FailedTail(AfterAccept(s, id, ticket), d'.session, TransportError, k);
    }
  }

  /** Over every run, each failed send was made by one step of it, and is ambiguous if and only if
      that step is a shutdown, a transport failure or a refused id, of which it then tells; a send made
      by a read is not, and tells the class of the refused frame or of the one that ended the session. */
  lemma {:induction false} AmbiguousExactly(
    trace: seq<State>, events: seq<Event>, limits: Limits, n: nat, k: nat) returns (at: nat)
    requires IsRun(trace, events, limits) && n < |trace| && k < |trace[n].session.log|
    requires trace[n].session.log[k].outcome.Err?
    ensures at < n && |trace[at].session.log| <= k < |trace[at + 1].session.log|
    ensures ToldBy(trace[at], events[at], trace[at + 1], limits, trace[n].session.log[k], k)
    decreases n
  {
    assert n > 0;
    LogKept(trace, events, limits, n - 1);
    if k < |trace[n - 1].session.log| {
      at := AmbiguousExactly(trace, events, limits, n - 1, k);
    } else {
      at := n - 1;
      SentByStep(trace, events, limits, at, k);
    }
  }

  lemma LogKept(trace: seq<State>, events: seq<Event>, limits: Limits, n: nat)
    requires IsRun(trace, events, limits) && n < |events|
    ensures trace[n].session.log <= trace[n + 1].session.log
  {
    RunKeeps(trace, events, limits, n);
    assert StepOf(trace, events, limits, n);
    StepKeeps(trace[n], events[n], trace[n + 1], limits);
  }

  lemma SentByStep(trace: seq<State>, events: seq<Event>, limits: Limits, n: nat, k: nat)
    requires IsRun(trace, events, limits) && n < |events|
    requires |trace[n].session.log| <= k < |trace[n + 1].session.log| && trace[n + 1].session.log[k].outcome.Err?
    ensures ToldBy(trace[n], events[n], trace[n + 1], limits, trace[n + 1].session.log[k], k)
  {
    RunKeeps(trace, events, limits, n);
    assert StepOf(trace, events, limits, n);
    StepSends(trace[n], events[n], trace[n + 1], limits, k);
  }

  // ---------------------------------------------------------------- two failures that are not ambiguous

  /** The driver with one request written whole and nothing read. */
  function Waiting(id: U64, frame: seq<Byte>): State {
    State(Session([], {id}, map[id := 0], [], []), false, Running, Usable, false, [id], [], [frame])
  }

  function Taking(id: U64, frame: seq<Byte>): Event {
    Accept(id, frame, [Wrote(|frame|)])
  }

  lemma TakesOne(id: U64, frame: seq<Byte>, d: State, limits: Limits)
    requires id != 0 && Initial(d)
    ensures Next(d, Taking(id, frame), Waiting(id, frame), limits)
  {
    assert Carried([Wrote(|frame|)]) == |frame| by { assert Carried([]) == 0; }
    assert AfterAccept(EMPTY_SESSION, id, 0) == Waiting(id, frame).session;
  }

  lemma TwoSteps(d0: State, e0: Event, d1: State, e1: Event, d2: State, limits: Limits)
    returns (trace: seq<State>, events: seq<Event>)
    requires Initial(d0) && Next(d0, e0, d1, limits) && Next(d1, e1, d2, limits)
    ensures trace == [d0, d1, d2] && events == [e0, e1] && IsRun(trace, events, limits)
  {
    trace, events := [d0, d1, d2], [e0, e1];
    assert StepOf(trace, events, limits, 0) && StepOf(trace, events, limits, 1);
  }

  lemma FailsOne(s: Session, id: U64, error: DriverError)
    requires s.live == {id} && s.waiters == map[id := 0] && s.log == []
    ensures FailedAll(s, Session(s.buffer, {}, map[], [Delivery(0, Err(error))], s.frames), error)
  {
    var order := [id];
    assert Enumerates(order, s.waiters.Keys);
    assert s.log + FailLog(order, s.waiters, error) == [Delivery(0, Err(error))];
  }

  /** A request is written whole, and then a frame of an unknown version arrives: its waiter is failed
      with a class that says the request did not take effect. */
  lemma FatalFrameWitness(limits: Limits, id: U64, frame: seq<Byte>, bytes: seq<Byte>)
    returns (trace: seq<State>, events: seq<Event>)
    requires id != 0 && |bytes| == HEADER_LENGTH && bytes[0] != 0
    ensures IsRun(trace, events, limits) && |trace| == 3 && trace[2].wrote == [frame] && trace[2].accepted == [id]
    ensures trace[2].session.log == [Delivery(0, Err(SessionFatal(UNSUPPORTED_VERSION)))]
    ensures !Ambiguous(trace[2].session.log[0])
  {
    var d0 := State(EMPTY_SESSION, false, Running, Usable, false, [], [], []);
    var d1 := Waiting(id, frame);
    var s := Extend(d1.session, bytes);
    TakesOne(id, frame, d0, limits);
    BadVersionEndsSession(s, limits);
    FailsOne(s, id, SessionFatal(UNSUPPORTED_VERSION));
    var t := Session(bytes, {}, map[], [Delivery(0, Err(SessionFatal(UNSUPPORTED_VERSION)))], []);
    var d2 := State(t, false, Marking(Unusable, ExitUnusable), Usable, false, [id], bytes, [frame]);
    assert s.buffer == bytes && d1.received + bytes == bytes;
    assert Next(d1, Chunk(bytes), d2, limits);
    trace, events := TwoSteps(d0, Taking(id, frame), d1, Chunk(bytes), d2, limits);
  }

  /** A success response that carries a metadata entry of the required range. */
  function RequiredEntryReply(id: U64): Outgoing {
    Outgoing(Response, 0, id, [Entry(0x8000, [])], Opaque([]))
  }

  /** A whole success response with such metadata is refused for its own request alone. */
  lemma RequiredEntryRefused(s: Session, id: U64, limits: Limits)
    requires limits.frameSize >= 24 && limits.metadataSize >= 4 && id != 0 && id in s.live
    requires EncodeWithMax(RequiredEntryReply(id), limits.frameSize, limits.metadataSize) == Ok(s.buffer)
    ensures |s.buffer| == 24
    ensures Answer(s, limits) == Refused(INVALID_ARGUMENT, 24) && HeadId(s.buffer) == id && HeadTotal(s.buffer) == 24
  {
    var o := RequiredEntryReply(id);
    RequiredEntryEncodes(id, limits);
    EncodedParts(o, limits.frameSize, limits.metadataSize);
    var raw := RawHeader(0, 2, 0, 0, 4, 0, id);
    var admission := ClientAdmission(limits, Listing(s.live));
    EncodedAdmittance(o, raw, [], admission, s.buffer, []);
    assert s.buffer + [] == s.buffer;
    RequiredEntryClassified(Pass(raw, Kind.Response, o.metadata, 24), id, admission.inFlight);
  }

  lemma RequiredEntryClassified(a: Admittance, id: U64, inFlight: seq<U64>)
    requires a.Pass? && a.raw == RawHeader(0, 2, 0, 0, 4, 0, id) && a.kind == Kind.Response
    requires a.metadata == RequiredEntryReply(id).metadata && id != 0 && id in inFlight
    ensures Classify(a, Negotiated, inFlight, []) == Err(INVALID_ARGUMENT)
  {
    assert !AllOptional(a.metadata) by { assert a.metadata[0].identifier >= 0x8000; }
  }

  /** The waiter is answered with the refusal and nothing is left over. */
  lemma RequiredEntrySettles(s: Session, id: U64, limits: Limits)
    requires s.live == {id} && s.waiters == map[id := 0] && s.log == [] && s.frames == [] && |s.buffer| == 24
    requires Answer(s, limits) == Refused(INVALID_ARGUMENT, 24) && HeadId(s.buffer) == id && HeadTotal(s.buffer) == 24
    ensures Drain(s, limits)
            == Drained(Session([], {}, map[], [Delivery(0, Err(RequestFailed(INVALID_ARGUMENT)))], [s.buffer]), None)
  {
    TurnView(s, limits);
    TurnProgress(s, limits);
    var next := Session([], {}, map[], [Delivery(0, Err(RequestFailed(INVALID_ARGUMENT)))], [s.buffer]);
    assert s.buffer[24..] == [] && s.buffer[..24] == s.buffer;
    assert s.live - {id} == {} && s.waiters - {id} == map[];
    assert Turned(s, limits) == Handled(next);
    TurnView(next, limits);
  }

  /** A request is written whole, and its success arrives with a metadata entry of the required range:
      the request took effect, and its waiter is failed with a class that says it did not. */
  lemma RefusedFrameWitness(limits: Limits, id: U64, frame: seq<Byte>)
    returns (trace: seq<State>, events: seq<Event>)
    requires limits.frameSize >= 24 && limits.metadataSize >= 4 && id != 0
    ensures IsRun(trace, events, limits) && |trace| == 3 && trace[2].wrote == [frame] && trace[2].accepted == [id]
    ensures EncodeWithMax(RequiredEntryReply(id), limits.frameSize, limits.metadataSize) == Ok(trace[2].received)
    ensures trace[2].session.log == [Delivery(0, Err(RequestFailed(INVALID_ARGUMENT)))]
    ensures !Ambiguous(trace[2].session.log[0])
  {
    RequiredEntryEncodes(id, limits);
    var bytes := EncodeWithMax(RequiredEntryReply(id), limits.frameSize, limits.metadataSize).value;
    var d0 := State(EMPTY_SESSION, false, Running, Usable, false, [], [], []);
    TakesOne(id, frame, d0, limits);
    RefusedRead(limits, id, frame, bytes);
    trace, events :=
      TwoSteps(d0, Taking(id, frame), Waiting(id, frame), Chunk(bytes), Refusal(id, frame, bytes), limits);
  }

  /** The driver once that reply has been read. */
  function Refusal(id: U64, frame: seq<Byte>, bytes: seq<Byte>): State {
    State(Session([], {}, map[], [Delivery(0, Err(RequestFailed(INVALID_ARGUMENT)))], [bytes]), false, Running,
          Usable, false, [id], bytes, [frame])
  }

  lemma RefusedRead(limits: Limits, id: U64, frame: seq<Byte>, bytes: seq<Byte>)
    requires limits.frameSize >= 24 && limits.metadataSize >= 4 && id != 0
    requires EncodeWithMax(RequiredEntryReply(id), limits.frameSize, limits.metadataSize) == Ok(bytes)
    ensures Next(Waiting(id, frame), Chunk(bytes), Refusal(id, frame, bytes), limits)
  {
    var s := Extend(Waiting(id, frame).session, bytes);
    assert s.buffer == bytes && [] + bytes == bytes;
    RequiredEntryRefused(s, id, limits);
    RequiredEntrySettles(s, id, limits);
  }

  lemma RequiredEntryEncodes(id: U64, limits: Limits)
    requires limits.frameSize >= 24 && limits.metadataSize >= 4
    ensures RegionLength(RequiredEntryReply(id).metadata) == 4
    ensures EncodeWithMax(RequiredEntryReply(id), limits.frameSize, limits.metadataSize).Ok?
  {
    var o := RequiredEntryReply(id);
    assert RegionLength(o.metadata) == 4 by { assert o.metadata[1..] == [] && RegionLength([]) == 0; }
    EncodeSucceeds(o, [], limits.frameSize, limits.metadataSize);
  }
}
