/** Which waiter a frame reaches: every settled frame carries its waiter's id and reads the same
    to that waiter alone, in any arrival order and under any fragmentation. */
module Correlation {
  import opened Sequences
  import opened LittleEndian
  import opened Wrappers
  import opened EntryRegion
  import opened Protocol
  import opened Codec
  import opened Dispatch

  /** The context a caller re-reads its own terminal frame under. */
  function OwnAdmission(id: U64, limits: Limits): Admission {
    ClientAdmission(limits, [id])
  }

  /** A send that answers exactly the frame `bytes` for the request `id`. */
  predicate Settles(d: Delivery, bytes: seq<Byte>, id: U64, limits: Limits) {
    && |bytes| >= HEADER_LENGTH
    && HeadId(bytes) == id && HeadTotal(bytes) == |bytes|
    && match d.outcome
       case Ok(sent) => sent == bytes && Decode(bytes, OwnAdmission(id, limits)).Admitted?
       case Err(RequestFailed(failure)) =>
         failure.scope.RequestScoped? && Decode(bytes, OwnAdmission(id, limits)) == Refused(failure, |bytes|)
       case Err(_) => false
  }

  /** Re-reading loses nothing: the bytes a waiter receives decode, under that waiter's id alone,
      to the very frame or refusal the driver read off its stream. */
  lemma OwnDecode(s: Session, limits: Limits)
    requires |s.buffer| >= HEADER_LENGTH && HeadId(s.buffer) in s.live
    requires var step := Answer(s, limits);
             step.Admitted? || (step.Refused? && step.failure.scope.RequestScoped?)
    ensures HEADER_LENGTH <= HeadTotal(s.buffer) <= |s.buffer|
    ensures HeadId(s.buffer[..HeadTotal(s.buffer)]) == HeadId(s.buffer)
    ensures HeadTotal(s.buffer[..HeadTotal(s.buffer)]) == HeadTotal(s.buffer)
    ensures Decode(s.buffer[..HeadTotal(s.buffer)], OwnAdmission(HeadId(s.buffer), limits)) == Answer(s, limits)
    ensures Answer(s, limits).Refused? ==> Answer(s, limits).consumed == HeadTotal(s.buffer)
  {
    var admission := ClientAdmission(limits, Listing(s.live));
    Reread(s.buffer, admission);
    Truncate(s.buffer, admission);
  }

  /** A handled turn sends one answer, to the waiter on the frame's own id, and forgets that id. */
  lemma TurnSettles(s: Session, limits: Limits)
    requires s.live == s.waiters.Keys && Turned(s, limits).Handled?
    ensures var next := Turned(s, limits).next;
            && |s.buffer| >= HEADER_LENGTH && HEADER_LENGTH <= HeadTotal(s.buffer) <= |s.buffer|
            && var id, bytes := HeadId(s.buffer), s.buffer[..HeadTotal(s.buffer)];
            && id in s.waiters
            && next.buffer == s.buffer[|bytes|..] && next.frames == s.frames + [bytes]
            && next.live == s.live - {id} && next.waiters == s.waiters - {id}
            && |next.log| == |s.log| + 1 && next.log[..|s.log|] == s.log
            && next.log[|s.log|].ticket == s.waiters[id]
            && Settles(next.log[|s.log|], bytes, id, limits)
  {
    TurnView(s, limits);
    OwnDecode(s, limits);
  }

  // ---------------------------------------------------------------- what ends a session

  /** The head of the buffer is an error frame whose class is fatal to the connection. */
  predicate FatalClassAtHead(buffer: seq<Byte>) {
    && |buffer| >= HEADER_LENGTH
    && var raw := ParseHeader(buffer).value;
       KindFromWire(raw.kind) == Some(Error) && ErrorClassFromWire(raw.code).Some?
       && ErrorClassFromWire(raw.code).value.FailureScope().ConnectionFatal?
  }

  /** A settled answer names a live id unless it is an error frame of a fatal class. */
  lemma SettledNamesLive(s: Session, limits: Limits)
    requires var step := Answer(s, limits);
             step.Admitted? || (step.Refused? && step.failure.scope.RequestScoped?)
    ensures |s.buffer| >= HEADER_LENGTH
    ensures HeadId(s.buffer) in s.live || FatalClassAtHead(s.buffer)
  {
  }

  /** With every live id waited on, a turn is fatal exactly when the decoder refuses fatally or an
      error frame of a fatal class names no live id. */
  lemma FatalExactly(s: Session, limits: Limits)
    requires s.live == s.waiters.Keys
    ensures var step := Answer(s, limits);
            Turned(s, limits).Fatal?
            <==> (step.Refused? && step.failure.scope.ConnectionFatal?)
                 || (!step.Need? && FatalClassAtHead(s.buffer) && HeadId(s.buffer) !in s.live)
  {
    TurnView(s, limits);
    var step := Answer(s, limits);
    if step.Admitted? || (step.Refused? && step.failure.scope.RequestScoped?) { SettledNamesLive(s, limits); }
  }

  /** A whole terminal frame for an id that is not in flight ends the session at once, with a
      protocol violation and no further send. */
  lemma UnknownIdEndsSession(s: Session, limits: Limits)
    requires var a := Admit(s.buffer, Client, limits);
             a.Pass? && (a.kind.Response? || !FatalClassAtHead(s.buffer))
    requires HeadId(s.buffer) !in s.live
    ensures Drain(s, limits) == Drained(s, Some(VIOLATION))
  {
    TurnView(s, limits);
  }

  /** A header of another version ends the session at once. */
  lemma BadVersionEndsSession(s: Session, limits: Limits)
    requires |s.buffer| >= HEADER_LENGTH && s.buffer[0] != 0
    ensures Drain(s, limits) == Drained(s, Some(UNSUPPORTED_VERSION))
  {
    TurnView(s, limits);
  }

  /** The id the driver retires is the one the header names. The decoder's own `retires` agrees for a
      live id exactly on responses and on errors that are not fatal to the connection, and for every
      admitted frame exactly on those and on errors that name no request. */
  lemma RetiresAgree(s: Session, limits: Limits)
    requires Answer(s, limits).Admitted? && 0 !in s.live && s.live == s.waiters.Keys
    ensures |s.buffer| >= HEADER_LENGTH
    ensures HeadId(s.buffer) in s.live ==> Turned(s, limits).Handled?
    ensures HeadId(s.buffer) in s.live ==>
              (Answer(s, limits).frame.retires == HeadId(s.buffer) <==> !FatalClassAtHead(s.buffer))
    ensures Answer(s, limits).frame.retires == HeadId(s.buffer)
            <==> !FatalClassAtHead(s.buffer) || HeadId(s.buffer) == 0
  {
    if HeadId(s.buffer) in s.live { LiveHandled(s, limits); }
    AdmittedRetires(s.buffer, ClientAdmission(limits, Listing(s.live)));
  }

  lemma LiveHandled(s: Session, limits: Limits)
    requires Answer(s, limits).Admitted? && s.live == s.waiters.Keys
    requires |s.buffer| >= HEADER_LENGTH && HeadId(s.buffer) in s.live
    ensures Turned(s, limits).Handled?
  {
    TurnView(s, limits);
  }

  /** What the decoder says a frame retires: the id it names, or 0 for an error of a fatal class. */
  lemma AdmittedRetires(buffer: seq<Byte>, admission: Admission)
    requires admission.role == Client && Decode(buffer, admission).Admitted?
    ensures |buffer| >= HEADER_LENGTH
    ensures Decode(buffer, admission).frame.retires == if FatalClassAtHead(buffer) then 0 else HeadId(buffer)
  {
    AdmittedParts(buffer, admission);
  }

  // ---------------------------------------------------------------- all arrival orders

  /** A frame a server may send to answer its request id. */
  predicate Deliverable(o: Outgoing, limits: Limits) {
    && EncodeWithMax(o, limits.frameSize, limits.metadataSize).Ok?
    && Receivable(o, |EncodeWithMax(o, limits.frameSize, limits.metadataSize).value|,
                  OwnAdmission(o.requestId, limits))
  }

  function Wire(o: Outgoing, limits: Limits): seq<Byte>
    requires Deliverable(o, limits)
  {
    EncodeWithMax(o, limits.frameSize, limits.metadataSize).value
  }

  predicate AllDeliverable(replies: seq<Outgoing>, limits: Limits) {
    forall i | 0 <= i < |replies| :: Deliverable(replies[i], limits)
  }

  predicate DistinctIds(replies: seq<Outgoing>) {
    forall i, j | 0 <= i < j < |replies| :: replies[i].requestId != replies[j].requestId
  }

  function Ids(replies: seq<Outgoing>): set<U64> {
    set o | o in replies :: o.requestId
  }

  function Wires(replies: seq<Outgoing>, limits: Limits): seq<seq<Byte>>
    requires AllDeliverable(replies, limits)
  {
    seq(|replies|, i requires 0 <= i < |replies| => Wire(replies[i], limits))
  }

  /** What each reply sends: its own bytes, to the waiter on its own id. */
  function Sends(replies: seq<Outgoing>, waiters: map<U64, nat>, limits: Limits): seq<Delivery>
    requires AllDeliverable(replies, limits) && Ids(replies) <= waiters.Keys
  {
    seq(|replies|, i requires 0 <= i < |replies| =>
      assert replies[i] in replies; Delivery(waiters[replies[i].requestId], Ok(Wire(replies[i], limits))))
  }

  /** One reply at the head of the buffer is delivered whole to its waiter. */
  lemma ReplyTurn(s: Session, o: Outgoing, rest: seq<Byte>, limits: Limits)
    requires Deliverable(o, limits) && o.requestId in s.waiters && s.live == s.waiters.Keys
    requires s.buffer == Wire(o, limits) + rest
    ensures Turned(s, limits)
            == Handled(Session(rest, s.live - {o.requestId}, s.waiters - {o.requestId},
                               s.log + [Delivery(s.waiters[o.requestId], Ok(Wire(o, limits)))],
                               s.frames + [Wire(o, limits)]))
  {
    var bytes := Wire(o, limits);
    ReplyHead(o, rest, limits);
    EncodeDecode(o, limits.frameSize, limits.metadataSize, OwnAdmission(o.requestId, limits), rest);
    OrderBlind(s.buffer, OwnAdmission(o.requestId, limits), Listing(s.live));
    TurnView(s, limits);
    assert s.buffer[..|bytes|] == bytes && s.buffer[|bytes|..] == rest;
  }

  lemma ReplyHead(o: Outgoing, rest: seq<Byte>, limits: Limits)
    requires Deliverable(o, limits)
    ensures var b := Wire(o, limits) + rest;
            |b| >= HEADER_LENGTH && HeadId(b) == o.requestId && HeadTotal(b) == |Wire(o, limits)|
  {
    EncodedParts(o, limits.frameSize, limits.metadataSize);
    PrintLength(o.metadata);
    var payload := EncodePayload(o.payload).value;
    var raw := RawHeader(0, o.kind.Wire(), 0, o.code, RegionLength(o.metadata), |payload|, o.requestId);
    EncodedSlices(raw, Print(o.metadata), payload, Wire(o, limits), rest);
  }

  /** An error frame of a fatal class that names `id`, with no detail. */
  function FatalError(code: U16, id: U64): Outgoing {
    Outgoing(Error, code, id, [], Detailed([], []))
  }

  /** Whatever fatal class an error frame carries, it is delivered to the waiter on the live id it
      names and the session goes on, although the decoder says that the frame retires no id. */
  lemma FatalErrorDelivered(s: Session, code: U16, id: U64, rest: seq<Byte>, limits: Limits)
    requires ErrorClassFromWire(code).Some? && ErrorClassFromWire(code).value.FailureScope().ConnectionFatal?
    requires limits.frameSize >= 22 && id in s.waiters && s.live == s.waiters.Keys && 0 !in s.live
    ensures Deliverable(FatalError(code, id), limits)
    ensures s.buffer == Wire(FatalError(code, id), limits) + rest ==>
              && Answer(s, limits).Admitted? && Answer(s, limits).frame.retires == 0 != id
              && Turned(s, limits).Handled?
              && Turned(s, limits).next.log
                 == s.log + [Delivery(s.waiters[id], Ok(Wire(FatalError(code, id), limits)))]
  {
    var o := FatalError(code, id);
    EncodeSucceeds(o, Le16(0) + [] + [], limits.frameSize, limits.metadataSize);
    assert Correlate(Error, code, id, [id]) == Ok(ErrorOf(ConnectionFatal));
    if s.buffer == Wire(o, limits) + rest {
      ReplyTurn(s, o, rest, limits);
      EncodeDecode(o, limits.frameSize, limits.metadataSize, OwnAdmission(id, limits), rest);
      ReplyHead(o, rest, limits);
      OrderBlind(s.buffer, OwnAdmission(id, limits), Listing(s.live));
    }
  }

  /** The session after `replies` have all been delivered. */
  function Delivered(s: Session, replies: seq<Outgoing>, limits: Limits): Session
    requires AllDeliverable(replies, limits) && Ids(replies) <= s.waiters.Keys
  {
    Session([], s.live - Ids(replies), s.waiters - Ids(replies),
            s.log + Sends(replies, s.waiters, limits), s.frames + Wires(replies, limits))
  }

  lemma IdsSplit(replies: seq<Outgoing>)
    requires replies != []
    ensures Ids(replies) == {replies[0].requestId} + Ids(replies[1..])
    ensures DistinctIds(replies) ==> replies[0].requestId !in Ids(replies[1..])
  {
    var o, rest := replies[0], replies[1..];
    assert replies == [o] + rest;
    forall id | id in Ids(rest) ensures id in Ids(replies) && (DistinctIds(replies) ==> id != o.requestId) {
      var i :| 0 <= i < |rest| && rest[i].requestId == id;
      assert replies[i + 1] == rest[i] && rest[i] in replies;
    }
    assert o in replies;
  }

  lemma SendsSplit(replies: seq<Outgoing>, waiters: map<U64, nat>, limits: Limits)
    requires replies != [] && AllDeliverable(replies, limits) && DistinctIds(replies) && Ids(replies) <= waiters.Keys
    ensures var o, rest := replies[0], replies[1..];
            && Ids(rest) <= (waiters - {o.requestId}).Keys
            && o.requestId in waiters
            && Wires(replies, limits) == [Wire(o, limits)] + Wires(rest, limits)
            && Sends(replies, waiters, limits)
               == [Delivery(waiters[o.requestId], Ok(Wire(o, limits)))] + Sends(rest, waiters - {o.requestId}, limits)
  {
    IdsSplit(replies);
    WiresSplit(replies, limits);
    SendAt(replies, waiters, limits, 0);
    SendsTail(replies, waiters, limits);
    var left := Sends(replies, waiters, limits);
    assert left == [left[0]] + left[1..];
  }

  /** The sends behind the first are those of the replies behind the first. */
  lemma SendsTail(replies: seq<Outgoing>, waiters: map<U64, nat>, limits: Limits)
    requires replies != [] && AllDeliverable(replies, limits) && Ids(replies) <= waiters.Keys
    requires Ids(replies[1..]) <= (waiters - {replies[0].requestId}).Keys
    ensures Sends(replies, waiters, limits)[1..]
            == Sends(replies[1..], waiters - {replies[0].requestId}, limits)
  {
    var rest, less := replies[1..], waiters - {replies[0].requestId};
    forall i | 0 <= i < |rest| ensures Sends(replies, waiters, limits)[1..][i] == Sends(rest, less, limits)[i] {
      SendAt(replies, waiters, limits, i + 1);
      SendAt(rest, less, limits, i);
    }
  }

  lemma SendAt(replies: seq<Outgoing>, waiters: map<U64, nat>, limits: Limits, i: nat)
    requires AllDeliverable(replies, limits) && Ids(replies) <= waiters.Keys && i < |replies|
    ensures replies[i].requestId in waiters
    ensures Sends(replies, waiters, limits)[i]
            == Delivery(waiters[replies[i].requestId], Ok(Wire(replies[i], limits)))
  {
    assert replies[i] in replies;
  }

  lemma WiresSplit(replies: seq<Outgoing>, limits: Limits)
    requires replies != [] && AllDeliverable(replies, limits)
    ensures Wires(replies, limits) == [Wire(replies[0], limits)] + Wires(replies[1..], limits)
  {
    var left, right := Wires(replies, limits), Wires(replies[1..], limits);
    forall i | 0 < i < |replies| ensures left[i] == right[i - 1] {
      assert replies[i] == replies[1..][i - 1];
    }
  }

  lemma DeliveredStep(s: Session, next: Session, replies: seq<Outgoing>, limits: Limits)
    requires replies != [] && AllDeliverable(replies, limits) && DistinctIds(replies) && Ids(replies) <= s.waiters.Keys
    requires replies[0].requestId in s.waiters
    requires var o := replies[0];
             next == Session(next.buffer, s.live - {o.requestId}, s.waiters - {o.requestId},
                             s.log + [Delivery(s.waiters[o.requestId], Ok(Wire(o, limits)))],
                             s.frames + [Wire(o, limits)])
    ensures AllDeliverable(replies[1..], limits) && DistinctIds(replies[1..]) && Ids(replies[1..]) <= next.waiters.Keys
    ensures Delivered(next, replies[1..], limits) == Delivered(s, replies, limits)
  {
    IdsSplit(replies);
    SendsSplit(replies, s.waiters, limits);
    var o, rest := replies[0], replies[1..];
    assert s.waiters - Ids(replies) == next.waiters - Ids(rest);
    Associate(s.log, [Delivery(s.waiters[o.requestId], Ok(Wire(o, limits)))], Sends(rest, next.waiters, limits));
    Associate(s.frames, [Wire(o, limits)], Wires(rest, limits));
  }

  lemma EmptyBufferQuiet(s: Session, limits: Limits)
    requires s.buffer == []
    ensures Drain(s, limits) == Drained(s, None)
  {
    assert Answer(s, limits) == Need(HEADER_LENGTH);
  }

  lemma {:induction false} DrainReplies(s: Session, replies: seq<Outgoing>, limits: Limits)
    requires AllDeliverable(replies, limits) && DistinctIds(replies)
    requires s.live == s.waiters.Keys && Ids(replies) <= s.waiters.Keys
    requires s.buffer == Flatten(Wires(replies, limits))
    ensures Drain(s, limits) == Drained(Delivered(s, replies, limits), None)
    decreases |replies|
  {
    if replies == [] {
      assert s.live - Ids(replies) == s.live && s.waiters - Ids(replies) == s.waiters;
    } else {
      var o := replies[0];
      assert o in replies;
      assert Wires(replies, limits)[1..] == Wires(replies[1..], limits);
      var rest := Flatten(Wires(replies[1..], limits));
      ReplyTurn(s, o, rest, limits);
      TurnProgress(s, limits);
      var next := Turned(s, limits).next;
      DeliveredStep(s, next, replies, limits);
      DrainReplies(next, replies[1..], limits);
    }
  }

  /** For every set of live ids, every arrival order of one reply per id, and every cut of the
      stream into reads, each waiter is sent exactly the bytes of its own reply, in arrival order,
      and nothing is left over; with a reply for every live id, no id stays live. */
  lemma EveryOrderEveryCut(s: Session, replies: seq<Outgoing>, chunks: seq<seq<Byte>>, limits: Limits)
    requires s.buffer == [] && s.live == s.waiters.Keys
    requires AllDeliverable(replies, limits) && DistinctIds(replies) && Ids(replies) <= s.live
    requires Flatten(chunks) == Flatten(Wires(replies, limits))
    ensures Feed(s, chunks, limits) == Drained(Delivered(s, replies, limits), None)
    ensures Ids(replies) == s.live ==>
              Delivered(s, replies, limits).live == {} && Delivered(s, replies, limits).waiters == map[]
  {
    EmptyBufferQuiet(s, limits);
    FeedIsDrain(s, chunks, limits);
    DrainAll(s, replies, limits);
    if Ids(replies) == s.live { assert s.live - Ids(replies) == {} && s.waiters - Ids(replies) == map[]; }
  }

  /** One drain over replies delivers them all. */
  lemma DrainAll(s: Session, replies: seq<Outgoing>, limits: Limits)
    requires s.buffer == [] && s.live == s.waiters.Keys
    requires AllDeliverable(replies, limits) && DistinctIds(replies) && Ids(replies) <= s.live
    ensures Drain(Extend(s, Flatten(Wires(replies, limits))), limits) == Drained(Delivered(s, replies, limits), None)
  {
    var all := Extend(s, Flatten(Wires(replies, limits)));
    assert all == s.(buffer := Flatten(Wires(replies, limits)));
    DrainReplies(all, replies, limits);
    assert Delivered(all, replies, limits) == Delivered(s, replies, limits);
  }

  /** Any replies, then a whole terminal frame for an id that is unknown or already retired, however
      the stream is cut: the replies are delivered first, and then the session ends with a protocol
      violation for everyone still waiting. */
  lemma UnknownIdAfterReplies(
    s: Session, replies: seq<Outgoing>, tail: seq<Byte>, chunks: seq<seq<Byte>>, limits: Limits)
    requires s.buffer == [] && s.live == s.waiters.Keys
    requires AllDeliverable(replies, limits) && DistinctIds(replies) && Ids(replies) <= s.live
    requires var a := Admit(tail, Client, limits);
             a.Pass? && (a.kind.Response? || !FatalClassAtHead(tail))
    requires HeadId(tail) !in s.live - Ids(replies)
    requires Flatten(chunks) == Flatten(Wires(replies, limits)) + tail
    ensures var fed, done := Feed(s, chunks, limits), Delivered(s, replies, limits);
            fed.fatal == Some(VIOLATION) && fed.session == done.(buffer := fed.session.buffer)
  {
    EmptyBufferQuiet(s, limits);
    FeedIsDrain(s, chunks, limits);
    DrainToUnknown(s, replies, tail, limits);
  }

  /** One drain over replies and then such a frame. */
  lemma DrainToUnknown(s: Session, replies: seq<Outgoing>, tail: seq<Byte>, limits: Limits)
    requires s.buffer == [] && s.live == s.waiters.Keys
    requires AllDeliverable(replies, limits) && DistinctIds(replies) && Ids(replies) <= s.live
    requires var a := Admit(tail, Client, limits);
             a.Pass? && (a.kind.Response? || !FatalClassAtHead(tail))
    requires HeadId(tail) !in s.live - Ids(replies)
    ensures Drain(Extend(s, Flatten(Wires(replies, limits)) + tail), limits)
            == Drained(Delivered(s, replies, limits).(buffer := tail), Some(VIOLATION))
  {
    DrainAll(s, replies, limits);
    ThenUnknown(s, Flatten(Wires(replies, limits)), Delivered(s, replies, limits), tail, limits);
  }

  lemma ThenUnknown(s: Session, wires: seq<Byte>, done: Session, tail: seq<Byte>, limits: Limits)
    requires Drain(Extend(s, wires), limits) == Drained(done, None) && done.buffer == []
    requires var a := Admit(tail, Client, limits);
             a.Pass? && (a.kind.Response? || !FatalClassAtHead(tail))
    requires HeadId(tail) !in done.live
    ensures Drain(Extend(s, wires + tail), limits) == Drained(done.(buffer := tail), Some(VIOLATION))
  {
    DrainExtend(Extend(s, wires), tail, limits);
    Associate(s.buffer, wires, tail);
    assert Extend(done, tail) == done.(buffer := tail);
    UnknownIdEndsSession(done.(buffer := tail), limits);
  }
}
