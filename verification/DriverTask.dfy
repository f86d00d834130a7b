/** The driver task as it runs: fields updated in place, proved to take only the steps of the relation. */
module DriverTask {
  import opened LittleEndian
  import opened Wrappers
  import opened Protocol
  import opened Codec
  import opened Identity
  import opened Dispatch
  import opened Driver

  /** Writes every byte, tolerating short writes. It succeeds exactly when the transport takes enough
      before it fails, and the sink holds what was taken, in order and once. */
  method WriteAll(bytes: seq<Byte>, writes: seq<Write>) returns (ok: bool, sink: seq<Byte>)
    ensures ok <==> |bytes| <= Carried(writes)
    ensures sink == Taken(bytes, writes)
  {
    sink := [];
    var offset, k := 0, 0;
    while offset < |bytes|
      invariant 0 <= offset <= |bytes| && 0 <= k <= |writes| && sink == bytes[..offset]
      invariant if offset < |bytes| then Carried(writes) == offset + Carried(writes[k..])
                else |bytes| <= Carried(writes)
      decreases |writes| - k
    {
      assert k < |writes| ==> writes[k..][1..] == writes[k + 1..];
      if k == |writes| || writes[k].WriteFailed? { return false, sink; }
      var remaining := bytes[offset..];
      var written := if writes[k].count <= |remaining| then writes[k].count else |remaining|;
      if written == 0 { return false, sink; }
      sink := sink + remaining[..written];
      offset := offset + written;
      k := k + 1;
    }
    return true, sink;
  }

  class DriverTask {
    const limits: Limits
    const live: InFlightRegistry
    var buffer: seq<Byte>
    var completions: map<U64, nat>
    var sent: seq<Delivery>
    var submitClosed: bool
    var progress: Progress
    var lifecycle: Lifecycle
    var admissionClosed: bool
    ghost var frames: seq<seq<Byte>>
    ghost var received: seq<Byte>
    var accepted: seq<U64>
    var wrote: seq<seq<Byte>>

    ghost function View(): Session
      reads this, live
    {
      Session(buffer, live.live, completions, sent, frames)
    }

    ghost function Abstract(): State
      reads this, live
    {
      State(View(), submitClosed, progress, lifecycle, admissionClosed, accepted, received, wrote)
    }

    constructor (limits: Limits)
      ensures this.limits == limits && Initial(Abstract()) && fresh(live)
    {
      this.limits := limits;
      live := new InFlightRegistry();
      buffer, completions, sent := [], map[], [];
      submitClosed, progress, lifecycle, admissionClosed := false, Running, Usable, false;
      frames, received, accepted, wrote := [], [], [], [];
    }

    /** Takes the head frame off the buffer and answers the waiter on `id`, if there is one. */
    method SettleHead(id: U64, total: nat, outcome: Result<seq<Byte>, DriverError>) returns (found: bool)
      requires total <= |buffer|
      modifies this`buffer, this`completions, this`sent, this`frames, live
      ensures Settle(old(View()), id, total, outcome)
              == if found then Handled(View()) else Fatal(View(), VIOLATION)
    {
      ghost var bytes := buffer[..total];
      buffer := buffer[total..];
      if id in completions {
        var ticket := completions[id];
        completions := completions - {id};
        var _ := live.Retire(id);
        sent := sent + [Delivery(ticket, outcome)];
        frames := frames + [bytes];
        return true;
      }
      return false;
    }

    /** The drain loop does what `Drain` says, however the live ids were listed. */
    method DrainFrames() returns (fatal: Option<Failure>)
      modifies this`buffer, this`completions, this`sent, this`frames, live
      ensures Drain(old(View()), limits) == Drained(View(), fatal)
    {
      while true
        invariant Drain(old(View()), limits) == Drain(View(), limits)
        decreases |buffer|
      {
        TurnProgress(View(), limits);
        var ids := live.LiveIds();
        OrderBlind(buffer, ClientAdmission(limits, Listing(live.live)), ids);
        match Decode(buffer, ClientAdmission(limits, ids)) {
          case Need(_) => return None;
          case Admitted(frame) =>
            var total := FrameTotalLen(buffer);
            if total.None? { return Some(VIOLATION); }
            var bytes := if total.value <= |buffer| then buffer[..total.value] else [];
            var found := SettleHead(frame.header.requestId, Min(total.value, |buffer|), Ok(bytes));
            if !found { return Some(VIOLATION); }
          case Refused(failure, consumed) =>
            if failure.scope.ConnectionFatal? { return Some(failure); }
            var id := HeaderRequestId(buffer);
            if id.None? { return Some(VIOLATION); }
            var found := SettleHead(id.value, Min(consumed, |buffer|), Err(RequestFailed(failure)));
            if !found { return Some(VIOLATION); }
        }
      }
    }

    /** The waited-on ids in some order. */
    method WaitingIds() returns (ids: seq<U64>)
      ensures Enumerates(ids, completions.Keys)
    {
      ids := [];
      var rest := completions.Keys;
      while rest != {}
        invariant rest <= completions.Keys
        invariant Enumerates(ids, completions.Keys - rest)
        decreases |rest|
      {
        var id :| id in rest;
        rest := rest - {id};
        ids := ids + [id];
      }
      assert completions.Keys - rest == completions.Keys;
    }

    /** Sends `error` to every waiter, once, and releases every waited-on id. */
    method FailAll(error: DriverError)
      modifies this`completions, this`sent, live
      ensures FailedAll(old(View()), View(), error)
    {
      var ids := WaitingIds();
      ghost var was := View();
      FailedFirstEnds(was, ids, error);
      for k := 0 to |ids|
        invariant View() == FailedFirst(was, ids, k, error)
      {
        FailedFirstStep(was, ids, k, error);
        var id := ids[k];
        var ticket := completions[id];
        completions := completions - {id};
        sent := sent + [Delivery(ticket, Err(error))];
        var _ := live.Retire(id);
      }
    }

    /** Fails every waiter and turns to ending. */
    method End(error: DriverError, target: Lifecycle, exit: DriverExit)
      modifies this`completions, this`sent, this`progress, live
      ensures Ends(old(Abstract()), Abstract(), old(View()), error, target, exit)
    {
      FailAll(error);
      progress := Marking(target, exit);
    }

    /** Stops when the submit channel is gone and nothing is in flight. */
    method StopIfIdle()
      modifies this`progress
      ensures Abstract() == Idled(old(Abstract()))
    {
      if submitClosed && completions == map[] { progress := RanDry; }
    }

    /** Takes one submission off the channel and writes it. */
    method OnSubmit(id: U64, frame: seq<Byte>, writes: seq<Write>)
      requires Enabled(Abstract(), Accept(id, frame, writes))
      modifies this, live
      ensures Next(old(Abstract()), Accept(id, frame, writes), Abstract(), limits)
    {
      var ticket := |accepted|;
      accepted := accepted + [id];
      var refused := live.Insert(id);
      if refused.Some? {
        wrote := wrote + [[]];
        sent := sent + [Delivery(ticket, Err(SessionUnusable))];
        End(SessionUnusable, Unusable, ExitUnusable);
        return;
      }
      completions := completions[id := ticket];
      var ok, taken := WriteAll(frame, writes);
      wrote := wrote + [taken];
      if !ok { End(TransportError, Failed, ExitFailed); }
    }

    /** Appends one read to the buffer and drains it. */
    method OnChunk(bytes: seq<Byte>)
      requires Enabled(Abstract(), Chunk(bytes))
      modifies this, live
      ensures Next(old(Abstract()), Chunk(bytes), Abstract(), limits)
    {
      var fatal := Receive(bytes);
      ghost var mid := Abstract();
      AfterDrain(fatal);
      ChunkStep(old(Abstract()), bytes, mid, fatal, Abstract(), limits);
    }

    /** Keeps the bytes read and drains the buffer. */
    method Receive(bytes: seq<Byte>) returns (fatal: Option<Failure>)
      modifies this`buffer, this`received, this`completions, this`sent, this`frames, live
      ensures Drain(Extend(old(View()), bytes), limits) == Drained(View(), fatal)
      ensures received == old(received) + bytes
    {
      buffer := buffer + bytes;
      received := received + bytes;
      assert View() == Extend(old(View()), bytes);
      fatal := DrainFrames();
    }

    /** Ends the session on a fatal failure, and otherwise stops if it is idle. */
    method AfterDrain(fatal: Option<Failure>)
      modifies this`completions, this`sent, this`progress, live
      ensures match fatal
              case Some(failure) =>
                Ends(old(Abstract()), Abstract(), old(View()), SessionFatal(failure), Unusable, ExitUnusable)
              case None => Abstract() == Idled(old(Abstract()))
    {
      if fatal.Some? {
        End(SessionFatal(fatal.value), Unusable, ExitUnusable);
      } else {
        StopIfIdle();
      }
    }

    /** One turn of the driver's select loop, or of the steps that end it. */
    method Handle(e: Event)
      requires Enabled(Abstract(), e)
      modifies this, live
      ensures Next(old(Abstract()), e, Abstract(), limits)
    {
      match e
      case Shutdown => End(SessionClosed, Closed, ExitClosed);
      case Accept(id, frame, writes) => OnSubmit(id, frame, writes);
      case ChannelClosed =>
        submitClosed := true;
        StopIfIdle();
      case StreamEnd =>
        if completions == map[] { StopIfIdle(); } else { End(TransportError, Failed, ExitFailed); }
      case Chunk(bytes) => OnChunk(bytes);
      case Mark =>
        lifecycle := Marked(lifecycle, progress.target);
        progress := Sealing(progress.exit);
      case Seal =>
        admissionClosed := true;
        progress := if progress.pending.ExitClosed? then ShuttingTransport else Ended(progress.pending);
      case TransportShut(ok) =>
        if !ok { lifecycle := Marked(lifecycle, Failed); }
        progress := Ended(if ok then ExitClosed else ExitFailed);
      case Outside(next, closes) =>
        lifecycle := next;
        admissionClosed := admissionClosed || closes;
    }
  }
}
