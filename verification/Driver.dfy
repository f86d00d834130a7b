/** The driver as a step relation, and what every run of it keeps. */
module Driver {
  import opened Sequences
  import opened LittleEndian
  import opened Wrappers
  import opened Protocol
  import opened Codec
  import opened Dispatch
  import opened Correlation

  /** The shared lifecycle state of a connection. */
  datatype Lifecycle = Usable | Closing | Closed | Failed | Unusable

  datatype DriverExit = ExitClosed | ExitFailed | ExitUnusable

  /** How far the driver has come. `Marking` and `Sealing` are the two writes that follow failing every
      waiter; `ShuttingTransport` awaits the transport on an explicit shutdown; `RanDry` is the exit
      taken when the submit channel is gone and nothing is in flight. */
  datatype Progress =
    | Running
    | Marking(target: Lifecycle, exit: DriverExit)
    | Sealing(pending: DriverExit)
    | ShuttingTransport
    | Ended(final: DriverExit)
    | RanDry

  /** The driver, the state it shares, and the history a run leaves: the ids accepted from the
      submit channel (a ticket is an index into it), every byte received, and what was written for
      each accepted submission. */
  datatype State = State(
    session: Session, submitClosed: bool, progress: Progress,
    lifecycle: Lifecycle, admissionClosed: bool,
    accepted: seq<U64>, received: seq<Byte>, wrote: seq<seq<Byte>>)

  /** One write to the transport, which may be short. */
  datatype Write = Wrote(count: nat) | WriteFailed

  /** The bytes a transport takes before its first failed or empty write. */
  function Carried(writes: seq<Write>): nat {
    if writes == [] || writes[0].WriteFailed? || writes[0].count == 0 then 0
    else writes[0].count + Carried(writes[1..])
  }

  /** The bytes of writes that all succeed. */
  function Summed(writes: seq<Write>): nat {
    if writes == [] || writes[0].WriteFailed? then 0 else writes[0].count + Summed(writes[1..])
  }

  /** A transport carries what it takes in the writes before the first that fails or takes nothing. */
  lemma {:induction false} CarriedStops(writes: seq<Write>, k: nat)
    requires k <= |writes| && forall i | 0 <= i < k :: writes[i].Wrote? && writes[i].count > 0
    requires k < |writes| ==> writes[k].WriteFailed? || writes[k].count == 0
    ensures Carried(writes) == Summed(writes[..k])
  {
    if k > 0 {
      CarriedStops(writes[1..], k - 1);
      assert writes[..k][1..] == writes[1..][..k - 1];
    }
  }

  /** What of `bytes` reaches the transport. */
  function Taken(bytes: seq<Byte>, writes: seq<Write>): seq<Byte> {
    if |bytes| <= Carried(writes) then bytes else bytes[..Carried(writes)]
  }

  datatype Event =
    | Shutdown
    | Accept(id: U64, frame: seq<Byte>, writes: seq<Write>)
    | ChannelClosed
    | StreamEnd
    | Chunk(bytes: seq<Byte>)
    | Mark
    | Seal
    | TransportShut(ok: bool)
    | Outside(next: Lifecycle, closesAdmission: bool)

  const READ_CHUNK: nat := 4_096

  const EMPTY_SESSION := Session([], {}, map[], [], [])

  predicate Initial(d: State) {
    d == State(EMPTY_SESSION, false, Running, Usable, false, [], [], [])
  }

  /** The first terminal outcome is kept; later signals change nothing. */
  function Marked(current: Lifecycle, next: Lifecycle): Lifecycle {
    if current.Usable? || current.Closing? then next else current
  }

  /** `order` lists every key once. */
  ghost predicate Enumerates(order: seq<U64>, keys: set<U64>) {
    && (forall i, j | 0 <= i < j < |order| :: order[i] != order[j])
    && (forall id :: id in order <==> id in keys)
  }

  function FailLog(order: seq<U64>, waiters: map<U64, nat>, error: DriverError): seq<Delivery>
    requires forall id | id in order :: id in waiters
  {
    seq(|order|, i requires 0 <= i < |order| => assert order[i] in order; Delivery(waiters[order[i]], Err(error)))
  }

  /** Every waiter has been sent `error`, in some order, and its id released. */
  ghost predicate FailedAll(s: Session, t: Session, error: DriverError) {
    && t.buffer == s.buffer && t.frames == s.frames
    && t.live == s.live - s.waiters.Keys && t.waiters == map[]
    && exists order :: Enumerates(order, s.waiters.Keys) && t.log == s.log + FailLog(order, s.waiters, error)
  }

  /** The driver fails every waiter and turns to ending as `target` and `exit`. */
  ghost predicate Ends(d: State, d': State, before: Session, error: DriverError, target: Lifecycle, exit: DriverExit) {
    FailedAll(before, d'.session, error)
    && d' == d.(session := d'.session, progress := Marking(target, exit))
  }

  function AfterAccept(s: Session, id: U64, ticket: nat): Session {
    s.(live := s.live + {id}, waiters := s.waiters[id := ticket])
  }

  /** The driver once it has taken a submission of which `taken` was written. */
  function Submitted(d: State, id: U64, taken: seq<Byte>): State {
    d.(accepted := d.accepted + [id], wrote := d.wrote + [taken])
  }

  /** The session when the received id cannot be admitted: its own waiter is told at once. */
  function TurnedAway(s: Session, ticket: nat): Session {
    s.(log := s.log + [Delivery(ticket, Err(SessionUnusable))])
  }

  function Idled(d: State): State {
    if d.submitClosed && d.session.waiters == map[] then d.(progress := RanDry) else d
  }

  /** One step of the driver, or of those it shares state with. */
  ghost predicate Next(d: State, e: Event, d': State, limits: Limits) {
    match e
    case Shutdown =>
      d.progress.Running? && Ends(d, d', d.session, SessionClosed, Closed, ExitClosed)
    case Accept(id, frame, writes) =>
      && d.progress.Running? && !d.submitClosed
      && var ticket, s := |d.accepted|, d.session;
         if id == 0 || id in s.live then
           Ends(Submitted(d, id, []), d', TurnedAway(s, ticket), SessionUnusable, Unusable, ExitUnusable)
         else
           var sent := Submitted(d, id, Taken(frame, writes));
           if |frame| <= Carried(writes) then d' == sent.(session := AfterAccept(s, id, ticket))
           else Ends(sent, d', AfterAccept(s, id, ticket), TransportError, Failed, ExitFailed)
    case ChannelClosed =>
      d.progress.Running? && !d.submitClosed && d' == Idled(d.(submitClosed := true))
    case StreamEnd =>
      && d.progress.Running?
      && if d.session.waiters == map[] then d' == Idled(d)
         else Ends(d, d', d.session, TransportError, Failed, ExitFailed)
    case Chunk(bytes) =>
      && d.progress.Running? && 1 <= |bytes| <= READ_CHUNK
      && var r := Drain(Extend(d.session, bytes), limits);
         var read := d.(received := d.received + bytes);
         if r.fatal.Some? then Ends(read, d', r.session, SessionFatal(r.fatal.value), Unusable, ExitUnusable)
         else d' == Idled(read.(session := r.session))
    case Mark =>
      && d.progress.Marking?
      && d' == d.(lifecycle := Marked(d.lifecycle, d.progress.target), progress := Sealing(d.progress.exit))
    case Seal =>
      && d.progress.Sealing?
      && d' == d.(admissionClosed := true,
                  progress := if d.progress.pending.ExitClosed? then ShuttingTransport else Ended(d.progress.pending))
    case TransportShut(ok) =>
      && d.progress.ShuttingTransport?
      && d' == if ok then d.(progress := Ended(ExitClosed))
               else d.(lifecycle := Marked(d.lifecycle, Failed), progress := Ended(ExitFailed))
    case Outside(next, closes) =>
      && (next.Usable? ==> d.lifecycle.Usable?)
      && d' == d.(lifecycle := next, admissionClosed := d.admissionClosed || closes)
  }

  // ---------------------------------------------------------------- the invariant

  predicate Resolved(log: seq<Delivery>, ticket: nat) {
    exists i :: 0 <= i < |log| && log[i].ticket == ticket
  }

  predicate NoDoubleSend(log: seq<Delivery>) {
    forall i, j | 0 <= i < j < |log| :: log[i].ticket != log[j].ticket
  }

  predicate Pending(waiters: map<U64, nat>, accepted: seq<U64>, ticket: nat)
    requires ticket < |accepted|
  {
    accepted[ticket] in waiters && waiters[accepted[ticket]] == ticket
  }

  /** Every accepted ticket is either waited on under its own id or resolved, never both, and no
      ticket is sent to twice. */
  ghost predicate TicketsInv(s: Session, accepted: seq<U64>) {
    && NoDoubleSend(s.log)
    && (forall i | 0 <= i < |s.log| :: s.log[i].ticket < |accepted|)
    && (forall id | id in s.waiters :: s.waiters[id] < |accepted| && accepted[s.waiters[id]] == id)
    && (forall id | id in s.waiters :: !Resolved(s.log, s.waiters[id]))
    && (forall t: nat | t < |accepted| :: Resolved(s.log, t) || Pending(s.waiters, accepted, t))
  }

  /** The sends that consumed frames come first, one per frame, each to the request its frame names. */
  predicate FramesInv(s: Session, accepted: seq<U64>, limits: Limits) {
    && |s.frames| <= |s.log|
    && (forall i | 0 <= i < |s.frames| ::
          s.log[i].ticket < |accepted| && Settles(s.log[i], s.frames[i], accepted[s.log[i].ticket], limits))
    && (forall i | |s.frames| <= i < |s.log| :: s.log[i].outcome.Err?)
  }

  ghost predicate SessionInv(s: Session, accepted: seq<U64>, limits: Limits) {
    && s.live == s.waiters.Keys && 0 !in s.live
    && TicketsInv(s, accepted) && FramesInv(s, accepted, limits)
  }

  function BufferBound(limits: Limits): nat {
    if limits.frameSize < HEADER_LENGTH then HEADER_LENGTH else limits.frameSize
  }

  ghost predicate Inv(d: State, limits: Limits) {
    && SessionInv(d.session, d.accepted, limits) && |d.wrote| == |d.accepted|
    && (d.progress.Running? ==>
          && |d.session.log| == |d.session.frames|
          && d.received == Flatten(d.session.frames) + d.session.buffer
          && |d.session.buffer| < BufferBound(limits)
          && Drain(d.session, limits) == Drained(d.session, None))
    && (!d.progress.Running? ==> d.session.waiters == map[])
    && (d.progress.Marking? ==> !d.progress.target.Usable?)
    && (d.progress.Sealing? || d.progress.ShuttingTransport? || d.progress.Ended? ==> !d.lifecycle.Usable?)
    && (d.progress.ShuttingTransport? || d.progress.Ended? ==> d.admissionClosed)
  }

  // ---------------------------------------------------------------- what a drain keeps

  lemma ResolvedAppend(log: seq<Delivery>, d: Delivery, t: nat)
    ensures Resolved(log + [d], t) <==> Resolved(log, t) || d.ticket == t
  {
    if Resolved(log, t) {
      var i :| 0 <= i < |log| && log[i].ticket == t;
      assert (log + [d])[i].ticket == t;
    }
    if d.ticket == t { assert (log + [d])[|log|].ticket == t; }
  }

  /** Settling one waiter keeps the tickets in order. */
  lemma SettleTickets(s: Session, next: Session, id: U64, d: Delivery, accepted: seq<U64>)
    requires TicketsInv(s, accepted) && id in s.waiters && d.ticket == s.waiters[id]
    requires next.waiters == s.waiters - {id} && next.log == s.log + [d]
    ensures TicketsInv(next, accepted)
  {
    forall t: nat ensures Resolved(next.log, t) <==> Resolved(s.log, t) || t == d.ticket {
      ResolvedAppend(s.log, d, t);
    }
    assert NoDoubleSend(next.log) by {
      forall i, j | 0 <= i < j < |next.log| ensures next.log[i].ticket != next.log[j].ticket {
        if j == |s.log| { assert s.log[i].ticket != d.ticket; }
      }
    }
  }

  lemma TurnKeeps(s: Session, accepted: seq<U64>, limits: Limits)
    requires SessionInv(s, accepted, limits) && |s.log| == |s.frames| && Turned(s, limits).Handled?
    ensures var next := Turned(s, limits).next;
            && SessionInv(next, accepted, limits) && |next.log| == |next.frames|
            && Flatten(next.frames) + next.buffer == Flatten(s.frames) + s.buffer
  {
    TurnSettles(s, limits);
    SettledKeeps(s, Turned(s, limits).next, HeadId(s.buffer), s.buffer[..HeadTotal(s.buffer)], accepted, limits);
  }

  lemma SettledKeeps(s: Session, next: Session, id: U64, bytes: seq<Byte>, accepted: seq<U64>, limits: Limits)
    requires SessionInv(s, accepted, limits) && |s.log| == |s.frames|
    requires id in s.waiters && bytes <= s.buffer
    requires next.buffer == s.buffer[|bytes|..] && next.frames == s.frames + [bytes]
    requires next.live == s.live - {id} && next.waiters == s.waiters - {id}
    requires |next.log| == |s.log| + 1 && next.log[..|s.log|] == s.log
    requires next.log[|s.log|].ticket == s.waiters[id] && Settles(next.log[|s.log|], bytes, id, limits)
    ensures SessionInv(next, accepted, limits)
    ensures Flatten(next.frames) + next.buffer == Flatten(s.frames) + s.buffer
  {
    LastOf(s.log, next.log);
    SettleTickets(s, next, id, next.log[|s.log|], accepted);
    SettleFrames(s, next, bytes, accepted, limits);
    HeadMoves(s.frames, bytes, s.buffer);
  }

  lemma LastOf(before: seq<Delivery>, after: seq<Delivery>)
    requires |after| == |before| + 1 && after[..|before|] == before
    ensures after == before + [after[|before|]]
  {
  }

  lemma SettleFrames(s: Session, next: Session, bytes: seq<Byte>, accepted: seq<U64>, limits: Limits)
    requires FramesInv(s, accepted, limits) && |s.log| == |s.frames|
    requires |next.log| == |s.log| + 1 && next.log[..|s.log|] == s.log && next.frames == s.frames + [bytes]
    requires var d := next.log[|s.log|];
             d.ticket < |accepted| && Settles(d, bytes, accepted[d.ticket], limits)
    ensures FramesInv(next, accepted, limits)
  {
    forall i | 0 <= i < |next.frames|
      ensures next.log[i].ticket < |accepted|
              && Settles(next.log[i], next.frames[i], accepted[next.log[i].ticket], limits)
    {
      if i < |s.frames| { assert next.log[i] == next.log[..|s.log|][i]; }
    }
  }

  /** A drain keeps the session invariant and loses no byte: what it consumed is the frames it
      settled. Only a fatal end may drop the last frame's bytes. */
  lemma {:induction false} DrainKeeps(s: Session, accepted: seq<U64>, limits: Limits)
    requires SessionInv(s, accepted, limits) && |s.log| == |s.frames|
    ensures var r := Drain(s, limits);
            && SessionInv(r.session, accepted, limits) && |r.session.log| == |r.session.frames|
            && (r.fatal.None? ==> Flatten(r.session.frames) + r.session.buffer == Flatten(s.frames) + s.buffer)
    decreases |s.buffer|
  {
    TurnProgress(s, limits);
    match Turned(s, limits)
    case Idle =>
    case Fatal(last, _) => FatalKeeps(s, limits);
    case Handled(next) =>
      TurnKeeps(s, accepted, limits);
      DrainKeeps(next, accepted, limits);
  }

  lemma FatalKeeps(s: Session, limits: Limits)
    requires Turned(s, limits).Fatal?
    ensures Turned(s, limits).last == s.(buffer := Turned(s, limits).last.buffer)
  {
    TurnView(s, limits);
  }

  /** After a quiet drain the buffer is shorter than the frame limit. */
  lemma QuietBound(s: Session, limits: Limits)
    requires Drain(s, limits).fatal.None?
    ensures |Drain(s, limits).session.buffer| < BufferBound(limits)
    ensures Drain(Drain(s, limits).session, limits) == Drained(Drain(s, limits).session, None)
  {
    DrainQuiet(s, limits);
    var last := Drain(s, limits).session;
    NeedBounded(last.buffer, ClientAdmission(limits, Listing(last.live)));
  }

  // ---------------------------------------------------------------- what failing everyone keeps

  /** The session once the first `n` ids of `order` have been failed. */
  ghost function FailedFirst(s: Session, order: seq<U64>, n: nat, error: DriverError): Session
    requires Enumerates(order, s.waiters.Keys) && n <= |order|
  {
    Session(s.buffer, s.live - (set id | id in order[..n]),
            map id | id in s.waiters && id !in order[..n] :: s.waiters[id],
            s.log + FailLog(order[..n], s.waiters, error), s.frames)
  }

  lemma FailedFirstStep(s: Session, order: seq<U64>, n: nat, error: DriverError)
    requires Enumerates(order, s.waiters.Keys) && n < |order|
    ensures var id, now, next := order[n], FailedFirst(s, order, n, error), FailedFirst(s, order, n + 1, error);
            && id in now.waiters && now.waiters[id] == s.waiters[id]
            && next == Session(s.buffer, now.live - {id}, now.waiters - {id},
                               now.log + [Delivery(s.waiters[id], Err(error))], s.frames)
  {
    var id := order[n];
    assert order[..n + 1] == order[..n] + [id];
    assert id in order && id !in order[..n];
    Associate(s.log, FailLog(order[..n], s.waiters, error), [Delivery(s.waiters[id], Err(error))]);
    assert FailLog(order[..n + 1], s.waiters, error)
        == FailLog(order[..n], s.waiters, error) + [Delivery(s.waiters[id], Err(error))];
  }

  lemma FailedFirstEnds(s: Session, order: seq<U64>, error: DriverError)
    requires Enumerates(order, s.waiters.Keys)
    ensures FailedFirst(s, order, 0, error) == s
    ensures FailedAll(s, FailedFirst(s, order, |order|, error), error)
  {
    assert order[..|order|] == order;
    assert (set id | id in order) == s.waiters.Keys;
    assert FailedFirst(s, order, 0, error).waiters == s.waiters;
    assert FailedFirst(s, order, |order|, error).waiters == map[];
  }

  lemma {:induction false} FailTickets(s: Session, order: seq<U64>, error: DriverError, accepted: seq<U64>, n: nat)
    requires TicketsInv(s, accepted) && Enumerates(order, s.waiters.Keys) && n <= |order|
    ensures TicketsInv(FailedFirst(s, order, n, error), accepted)
    decreases n
  {
    if n == 0 {
      FailedFirstEnds(s, order, error);
    } else {
      FailTickets(s, order, error, accepted, n - 1);
      FailedFirstStep(s, order, n - 1, error);
      SettleTickets(FailedFirst(s, order, n - 1, error), FailedFirst(s, order, n, error), order[n - 1],
                    Delivery(s.waiters[order[n - 1]], Err(error)), accepted);
    }
  }

  /** Failing every waiter resolves each of them, once, and leaves earlier sends as they were. */
  lemma FailedAllKeeps(s: Session, t: Session, error: DriverError, accepted: seq<U64>, limits: Limits)
    requires SessionInv(s, accepted, limits) && FailedAll(s, t, error)
    ensures SessionInv(t, accepted, limits) && t.waiters == map[] && t.live == {}
    ensures s.log <= t.log
  {
    var order :| Enumerates(order, s.waiters.Keys) && t.log == s.log + FailLog(order, s.waiters, error);
    FailTickets(s, order, error, accepted, |order|);
    FailedFirstEnds(s, order, error);
    assert order[..|order|] == order;
    assert TicketsInv(t, accepted) by { assert FailedFirst(s, order, |order|, error).log == t.log; }
    FailFrames(s, t, order, error, accepted, limits);
  }

  lemma FailFrames(s: Session, t: Session, order: seq<U64>, error: DriverError, accepted: seq<U64>, limits: Limits)
    requires FramesInv(s, accepted, limits) && Enumerates(order, s.waiters.Keys)
    requires t.frames == s.frames && t.log == s.log + FailLog(order, s.waiters, error)
    ensures FramesInv(t, accepted, limits)
  {
    forall i | 0 <= i < |t.frames|
      ensures t.log[i].ticket < |accepted| && Settles(t.log[i], t.frames[i], accepted[t.log[i].ticket], limits)
    {
      assert t.log[i] == s.log[i];
    }
  }

  // ---------------------------------------------------------------- what accepting keeps

  lemma AcceptKeeps(s: Session, accepted: seq<U64>, id: U64, limits: Limits)
    requires SessionInv(s, accepted, limits) && id != 0 && id !in s.live
    ensures SessionInv(AfterAccept(s, id, |accepted|), accepted + [id], limits)
  {
    var t, more := AfterAccept(s, id, |accepted|), accepted + [id];
    assert !Resolved(s.log, |accepted|);
    forall u: nat | u < |more| ensures Resolved(t.log, u) || Pending(t.waiters, more, u) {
      if u < |accepted| && !Resolved(s.log, u) { assert Pending(s.waiters, accepted, u); }
    }
  }

  lemma TurnawayKeeps(s: Session, accepted: seq<U64>, id: U64, limits: Limits)
    requires SessionInv(s, accepted, limits)
    ensures SessionInv(TurnedAway(s, |accepted|), accepted + [id], limits)
  {
    var t, more := TurnedAway(s, |accepted|), accepted + [id];
    forall u: nat ensures Resolved(t.log, u) <==> Resolved(s.log, u) || u == |accepted| {
      ResolvedAppend(s.log, Delivery(|accepted|, Err(SessionUnusable)), u);
    }
    forall u: nat | u < |more| ensures Resolved(t.log, u) || Pending(t.waiters, more, u) {
      if u < |accepted| && !Resolved(s.log, u) { assert Pending(s.waiters, accepted, u); }
    }
  }

  // ---------------------------------------------------------------- every step, every run

  lemma EndsKeeps(
    d: State, d': State, before: Session, error: DriverError, target: Lifecycle, exit: DriverExit, limits: Limits)
    requires SessionInv(before, d.accepted, limits) && |d.wrote| == |d.accepted|
    requires Ends(d, d', before, error, target, exit) && !target.Usable?
    ensures Inv(d', limits) && before.log <= d'.session.log
  {
    FailedAllKeeps(before, d'.session, error, d.accepted, limits);
  }

  lemma ChunkKeeps(d: State, bytes: seq<Byte>, d': State, limits: Limits)
    requires Inv(d, limits) && Next(d, Chunk(bytes), d', limits)
    ensures Inv(d', limits) && d.session.log <= d'.session.log
  {
    var s := Extend(d.session, bytes);
    DrainKeeps(s, d.accepted, limits);
    DrainLogGrows(s, limits);
    var r := Drain(s, limits);
    if r.fatal.Some? {
      EndsKeeps(d.(received := d.received + bytes), d', r.session, SessionFatal(r.fatal.value), Unusable, ExitUnusable,
                limits);
    } else {
      QuietBound(s, limits);
      QuietKeeps(d, bytes, r.session, limits);
    }
  }

  lemma QuietKeeps(d: State, bytes: seq<Byte>, t: Session, limits: Limits)
    requires Inv(d, limits) && d.progress.Running?
    requires SessionInv(t, d.accepted, limits) && |t.log| == |t.frames| && |t.buffer| < BufferBound(limits)
    requires Drain(t, limits) == Drained(t, None)
    requires Flatten(t.frames) + t.buffer == Flatten(d.session.frames) + (d.session.buffer + bytes)
    ensures Inv(Idled(d.(received := d.received + bytes, session := t)), limits)
  {
    Associate(Flatten(d.session.frames), d.session.buffer, bytes);
  }

  lemma {:induction false} DrainLogGrows(s: Session, limits: Limits)
    ensures s.log <= Drain(s, limits).session.log
    decreases |s.buffer|
  {
    TurnProgress(s, limits);
    TurnView(s, limits);
    match Turned(s, limits)
    case Handled(next) => DrainLogGrows(next, limits);
    case _ =>
  }

  lemma AcceptStepKeeps(d: State, id: U64, frame: seq<Byte>, writes: seq<Write>, d': State, limits: Limits)
    requires Inv(d, limits) && Next(d, Accept(id, frame, writes), d', limits)
    ensures Inv(d', limits) && d.session.log <= d'.session.log
  {
    var s, ticket := d.session, |d.accepted|;
    if id == 0 || id in s.live {
      TurnawayKeeps(s, d.accepted, id, limits);
      EndsKeeps(Submitted(d, id, []), d', TurnedAway(s, ticket), SessionUnusable, Unusable, ExitUnusable, limits);
    } else {
      AcceptKeeps(s, d.accepted, id, limits);
      if |frame| <= Carried(writes) {
        QuietAfterAccept(s, id, ticket, limits);
      } else {
        EndsKeeps(Submitted(d, id, Taken(frame, writes)), d', AfterAccept(s, id, ticket), TransportError, Failed,
                  ExitFailed, limits);
      }
    }
  }

  /** A buffer that waits for bytes waits for the same bytes whatever ids become live. */
  lemma QuietAfterAccept(s: Session, id: U64, ticket: nat, limits: Limits)
    requires Drain(s, limits) == Drained(s, None)
    ensures Drain(AfterAccept(s, id, ticket), limits) == Drained(AfterAccept(s, id, ticket), None)
  {
    TurnProgress(s, limits);
    TurnView(s, limits);
    assert Answer(s, limits).Need? by { if Turned(s, limits).Handled? { DrainGrows(s, limits); } }
  }

  lemma DrainGrows(s: Session, limits: Limits)
    requires Turned(s, limits).Handled?
    ensures |s.log| < |Drain(s, limits).session.log|
  {
    TurnProgress(s, limits);
    TurnView(s, limits);
    DrainLogGrows(Turned(s, limits).next, limits);
  }

  /** Every step keeps the invariant, and no step takes back a send. */
  lemma StepKeeps(d: State, e: Event, d': State, limits: Limits)
    requires Inv(d, limits) && Next(d, e, d', limits)
    ensures Inv(d', limits) && d.session.log <= d'.session.log
  {
    match e
    case Shutdown => EndsKeeps(d, d', d.session, SessionClosed, Closed, ExitClosed, limits);
    case Accept(id, frame, writes) => AcceptStepKeeps(d, id, frame, writes, d', limits);
    case StreamEnd =>
      if d.session.waiters != map[] { EndsKeeps(d, d', d.session, TransportError, Failed, ExitFailed, limits); }
    case Chunk(bytes) => ChunkKeeps(d, bytes, d', limits);
    case _ =>
  }

  /** A run: states joined by steps from the initial one. */
  ghost predicate IsRun(trace: seq<State>, events: seq<Event>, limits: Limits) {
    && |trace| == |events| + 1 && Initial(trace[0])
    && forall i | 0 <= i < |events| :: StepOf(trace, events, limits, i)
  }

  ghost predicate StepOf(trace: seq<State>, events: seq<Event>, limits: Limits, i: nat)
    requires i < |events| && |trace| == |events| + 1
  {
    Next(trace[i], events[i], trace[i + 1], limits)
  }

  lemma InitialInv(d: State, limits: Limits)
    requires Initial(d)
    ensures Inv(d, limits)
  {
    EmptyBufferQuiet(EMPTY_SESSION, limits);
    EmptySession(limits);
    var none: seq<seq<Byte>> := [];
    assert Flatten(none) + [] == [];
  }

  lemma EmptySession(limits: Limits)
    ensures SessionInv(EMPTY_SESSION, [], limits)
  {
  }

  lemma {:induction false} RunKeeps(trace: seq<State>, events: seq<Event>, limits: Limits, n: nat)
    requires IsRun(trace, events, limits) && n < |trace|
    ensures Inv(trace[n], limits)
    decreases n
  {
    if n == 0 {
      InitialInv(trace[0], limits);
    } else {
      RunKeeps(trace, events, limits, n - 1);
      assert StepOf(trace, events, limits, n - 1);
      StepKeeps(trace[n - 1], events[n - 1], trace[n], limits);
    }
  }

  /** Exactly one send has gone to `ticket`. */
  predicate ResolvedOnce(log: seq<Delivery>, ticket: nat) {
    exists i :: 0 <= i < |log| && log[i].ticket == ticket
                && forall j | 0 <= j < |log| && log[j].ticket == ticket :: j == i
  }

  /** Over every run: the live ids are the waited-on ids; each accepted submission is either waited
      on under its own id or resolved by exactly one send; once the driver stops running none is
      waited on, so all are resolved once; and it returns, except by running dry, with the lifecycle
      out of Usable and admission closed. */
  lemma ExactlyOnce(trace: seq<State>, events: seq<Event>, limits: Limits, n: nat)
    requires IsRun(trace, events, limits) && n < |trace|
    ensures var d := trace[n];
            && d.session.live == d.session.waiters.Keys
            && (forall ticket: nat | ticket < |d.accepted| ::
                  ResolvedOnce(d.session.log, ticket) <==> !Pending(d.session.waiters, d.accepted, ticket))
            && (!d.progress.Running? ==>
                  && d.session.live == {} && d.session.waiters == map[]
                  && forall ticket: nat | ticket < |d.accepted| :: ResolvedOnce(d.session.log, ticket))
            && (d.progress.Ended? ==> !d.lifecycle.Usable? && d.admissionClosed)
  {
    RunKeeps(trace, events, limits, n);
    var d := trace[n];
    forall ticket: nat | ticket < |d.accepted|
      ensures ResolvedOnce(d.session.log, ticket) <==> !Pending(d.session.waiters, d.accepted, ticket)
    {
      OncePerTicket(d, ticket);
    }
  }

  lemma OncePerTicket(d: State, ticket: nat)
    requires TicketsInv(d.session, d.accepted) && ticket < |d.accepted|
    ensures ResolvedOnce(d.session.log, ticket) <==> !Pending(d.session.waiters, d.accepted, ticket)
  {
    if Resolved(d.session.log, ticket) {
      var i :| 0 <= i < |d.session.log| && d.session.log[i].ticket == ticket;
      assert forall j | 0 <= j < |d.session.log| && d.session.log[j].ticket == ticket :: j == i;
      assert ResolvedOnce(d.session.log, ticket);
    }
  }

  // ---------------------------------------------------------------- what is written

  /** The frames of the submissions taken by `events`, in order. */
  function Offered(events: seq<Event>): seq<seq<Byte>> {
    if events == [] then []
    else
      var last := events[|events| - 1];
      Offered(events[..|events| - 1]) + if last.Accept? then [last.frame] else []
  }

  /** `wrote` is `offered`, but that the last one may be cut short when `whole` is false. */
  predicate InOrder(wrote: seq<seq<Byte>>, offered: seq<seq<Byte>>, whole: bool) {
    && |wrote| == |offered|
    && (forall t | 0 <= t < |wrote| :: wrote[t] <= offered[t])
    && (forall t | 0 <= t < |wrote| && (whole || t < |wrote| - 1) :: wrote[t] == offered[t])
  }

  /** Over every run, the bytes written are the accepted frames in order, each once and whole, but
      that the last may be cut short once the driver has stopped. */
  lemma {:induction false} WrittenInOrder(trace: seq<State>, events: seq<Event>, limits: Limits, n: nat)
    requires IsRun(trace, events, limits) && n < |trace|
    ensures InOrder(trace[n].wrote, Offered(events[..n]), trace[n].progress.Running?)
  {
    if n > 0 {
      WrittenInOrder(trace, events, limits, n - 1);
      assert events[..n][..n - 1] == events[..n - 1];
      assert StepOf(trace, events, limits, n - 1);
      WriteStep(trace[n - 1], events[n - 1], trace[n], Offered(events[..n - 1]), limits);
    }
  }

  lemma WriteStep(d: State, e: Event, d': State, offered: seq<seq<Byte>>, limits: Limits)
    requires Next(d, e, d', limits) && InOrder(d.wrote, offered, d.progress.Running?)
    ensures InOrder(d'.wrote, offered + (if e.Accept? then [e.frame] else []), d'.progress.Running?)
  {
  }

  /** Byte conservation and bounded memory: while the driver runs, the bytes received are the settled
      frames followed by the buffer, the buffer is shorter than the frame limit, and a read adds at
      most 4096 bytes to it. */
  lemma BytesConserved(trace: seq<State>, events: seq<Event>, limits: Limits, n: nat)
    requires IsRun(trace, events, limits) && n < |trace| && trace[n].progress.Running?
    ensures trace[n].received == Flatten(trace[n].session.frames) + trace[n].session.buffer
    ensures |trace[n].session.buffer| < BufferBound(limits)
    ensures n < |events| && events[n].Chunk? ==>
              |trace[n].session.buffer + events[n].bytes| < BufferBound(limits) + READ_CHUNK
  {
    RunKeeps(trace, events, limits, n);
    if n < |events| { assert StepOf(trace, events, limits, n); }
  }

  /** Over every run, a success is only ever sent for a frame the stream carried, as the bytes of
      that frame, to the submission whose id the frame names. */
  lemma RightWaiter(trace: seq<State>, events: seq<Event>, limits: Limits, n: nat, k: nat)
    requires IsRun(trace, events, limits) && n < |trace| && k < |trace[n].session.log|
    ensures var s, sent := trace[n].session, trace[n].session.log[k];
            && sent.ticket < |trace[n].accepted|
            && (sent.outcome.Ok? || trace[n].progress.Running? ==>
                  k < |s.frames| && Settles(sent, s.frames[k], trace[n].accepted[sent.ticket], limits))
  {
    RunKeeps(trace, events, limits, n);
  }

  /** A read that ends the session: whatever it settled first stands, and every waiter left is sent
      the fatal failure. */
  lemma FatalReachesAll(d: State, bytes: seq<Byte>, d': State, limits: Limits)
    requires Inv(d, limits) && Next(d, Chunk(bytes), d', limits)
    requires Drain(Extend(d.session, bytes), limits).fatal.Some?
    ensures var r := Drain(Extend(d.session, bytes), limits);
            && d.session.log <= r.session.log <= d'.session.log
            && d'.session.waiters == map[]
            && forall id | id in r.session.waiters ::
                 Delivery(r.session.waiters[id], Err(SessionFatal(r.fatal.value))) in d'.session.log
  {
    DrainLogGrows(Extend(d.session, bytes), limits);
    var r := Drain(Extend(d.session, bytes), limits);
    FailedAllReaches(r.session, d'.session, SessionFatal(r.fatal.value));
  }

  lemma FailedAllReaches(s: Session, t: Session, error: DriverError)
    requires FailedAll(s, t, error)
    ensures s.log <= t.log
    ensures forall id | id in s.waiters :: Delivery(s.waiters[id], Err(error)) in t.log
  {
    var order :| Enumerates(order, s.waiters.Keys) && t.log == s.log + FailLog(order, s.waiters, error);
    var tail := FailLog(order, s.waiters, error);
    forall id | id in s.waiters ensures Delivery(s.waiters[id], Err(error)) in t.log {
      assert id in order;
      var i :| 0 <= i < |order| && order[i] == id;
      assert t.log[|s.log| + i] == tail[i];
    }
  }

  /** A read step put together from its parts: the bytes kept, the drain, and what follows it. */
  lemma ChunkStep(d: State, bytes: seq<Byte>, mid: State, fatal: Option<Failure>, d': State, limits: Limits)
    requires Enabled(d, Chunk(bytes))
    requires mid == d.(received := d.received + bytes, session := mid.session)
    requires Drain(Extend(d.session, bytes), limits) == Drained(mid.session, fatal)
    requires match fatal
             case Some(failure) => Ends(mid, d', mid.session, SessionFatal(failure), Unusable, ExitUnusable)
             case None => d' == Idled(mid)
    ensures Next(d, Chunk(bytes), d', limits)
  {
  }

  /** The driver's own steps write the lifecycle only by marking: a terminal state is kept, and Usable
      is never restored. */
  lemma LifecycleStep(d: State, e: Event, d': State, limits: Limits)
    requires Next(d, e, d', limits) && !e.Outside?
    ensures d.lifecycle.Closed? || d.lifecycle.Failed? || d.lifecycle.Unusable? ==> d'.lifecycle == d.lifecycle
    ensures (d.progress.Marking? ==> !d.progress.target.Usable?) && !d.lifecycle.Usable? ==> !d'.lifecycle.Usable?
  {
  }

  /** When the next event may be taken. */
  predicate Enabled(d: State, e: Event) {
    match e
    case Shutdown => d.progress.Running?
    case Accept(_, _, _) => d.progress.Running? && !d.submitClosed
    case ChannelClosed => d.progress.Running? && !d.submitClosed
    case StreamEnd => d.progress.Running?
    case Chunk(bytes) => d.progress.Running? && 1 <= |bytes| <= READ_CHUNK
    case Mark => d.progress.Marking?
    case Seal => d.progress.Sealing?
    case TransportShut(_) => d.progress.ShuttingTransport?
    case Outside(next, _) => next.Usable? ==> d.lifecycle.Usable?
  }
}
