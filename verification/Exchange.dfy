/** Whole exchanges over runs of the driver: what the stream carried is what its waiters were sent,
    and how a failed waiter learns whether its request may have taken effect. */
module Exchange {
  import opened Sequences
  import opened LittleEndian
  import opened Wrappers
  import opened Protocol
  import opened Codec
  import opened Dispatch
  import opened Correlation
  import opened Driver
  import opened Command

  // ---------------------------------------------------------------- reads of a run

  /** Steps `i` up to `j` are all reads. */
  predicate AllReads(events: seq<Event>, i: nat, j: nat) {
    i <= j <= |events| && forall k | i <= k < j :: events[k].Chunk?
  }

  function ChunksOf(events: seq<Event>, i: nat, j: nat): seq<seq<Byte>>
    requires AllReads(events, i, j)
    decreases j - i
  {
    if i == j then [] else [events[i].bytes] + ChunksOf(events, i + 1, j)
  }

  /** What a drain leaves of the driver: without a fatal failure it holds the drained session, and
      runs on unless it ran dry; with one, every waiter left has been sent it. */
  ghost predicate Leaves(r: Drained, d: State) {
    match r.fatal
    case None => d.session == r.session && (d.progress.Running? || d.progress.RanDry?)
    case Some(failure) =>
      FailedAll(r.session, d.session, SessionFatal(failure)) && d.progress == Marking(Unusable, ExitUnusable)
  }

  lemma ReadLeaves(d: State, bytes: seq<Byte>, d': State, limits: Limits)
    requires Next(d, Chunk(bytes), d', limits)
    ensures Leaves(Drain(Extend(d.session, bytes), limits), d')
  {
  }

  lemma FeedSplit(s: Session, bytes: seq<Byte>, more: seq<seq<Byte>>, limits: Limits)
    ensures var r := Drain(Extend(s, bytes), limits);
            Feed(s, [bytes] + more, limits) == if r.fatal.Some? then r else Feed(r.session, more, limits)
  {
    assert ([bytes] + more)[1..] == more;
  }

  /** Reads of a run do what `Feed` says of their chunks. */
  lemma {:induction false} ReadsFeed(trace: seq<State>, events: seq<Event>, limits: Limits, i: nat, j: nat)
    requires IsRun(trace, events, limits) && AllReads(events, i, j) && trace[i].progress.Running?
    ensures Leaves(Feed(trace[i].session, ChunksOf(events, i, j), limits), trace[j])
    decreases j - i
  {
    if i < j {
      ReadStep(trace, events, limits, i);
      ReadLeaves(trace[i], events[i].bytes, trace[i + 1], limits);
      FeedSplit(trace[i].session, events[i].bytes, ChunksOf(events, i + 1, j), limits);
      if i + 1 < j {
        ReadStep(trace, events, limits, i + 1);
        ReadsFeed(trace, events, limits, i + 1, j);
      }
    }
  }

  lemma ReadStep(trace: seq<State>, events: seq<Event>, limits: Limits, n: nat)
    requires IsRun(trace, events, limits) && n < |events| && events[n].Chunk?
    ensures Next(trace[n], events[n], trace[n + 1], limits) && trace[n].progress.Running?
  {
    assert StepOf(trace, events, limits, n);
  }

  /** Over every run: from a state with an empty buffer, reads that carry replies to live ids, in any
      order and any cut, send each waiter exactly the bytes of its own reply in arrival order, leave
      nothing over and end no session; replies to all live ids leave none live. */
  lemma EveryOrderInRun(
    trace: seq<State>, events: seq<Event>, limits: Limits, i: nat, j: nat, replies: seq<Outgoing>)
    requires IsRun(trace, events, limits) && AllReads(events, i, j)
    requires trace[i].progress.Running? && trace[i].session.buffer == []
    requires AllDeliverable(replies, limits) && DistinctIds(replies) && Ids(replies) <= trace[i].session.live
    requires Flatten(ChunksOf(events, i, j)) == Flatten(Wires(replies, limits))
    ensures Ids(replies) <= trace[i].session.waiters.Keys
    ensures trace[j].session == Delivered(trace[i].session, replies, limits)
    ensures trace[j].progress.Running? || trace[j].progress.RanDry?
    ensures Ids(replies) == trace[i].session.live ==> trace[j].session.live == {} && trace[j].session.waiters == map[]
  {
    RunKeeps(trace, events, limits, i);
    ReadsFeed(trace, events, limits, i, j);
    EveryOrderEveryCut(trace[i].session, replies, ChunksOf(events, i, j), limits);
  }

  /** Over every run: when reads carry any replies and then a whole terminal frame for an id that is
      unknown or already retired, the replies are delivered, and then every waiter left is sent the
      protocol violation and the session ends. */
  lemma UnknownIdInRun(
    trace: seq<State>, events: seq<Event>, limits: Limits, i: nat, j: nat, replies: seq<Outgoing>, tail: seq<Byte>)
    requires IsRun(trace, events, limits) && AllReads(events, i, j)
    requires trace[i].progress.Running? && trace[i].session.buffer == []
    requires AllDeliverable(replies, limits) && DistinctIds(replies) && Ids(replies) <= trace[i].session.live
    requires var a := Admit(tail, Client, limits);
             a.Pass? && (a.kind.Response? || !FatalClassAtHead(tail))
    requires HeadId(tail) !in trace[i].session.live - Ids(replies)
    requires Flatten(ChunksOf(events, i, j)) == Flatten(Wires(replies, limits)) + tail
    ensures Ids(replies) <= trace[i].session.waiters.Keys
    ensures Delivered(trace[i].session, replies, limits).log <= trace[j].session.log
    ensures forall id | id in trace[i].session.waiters && id !in Ids(replies) ::
              Delivery(trace[i].session.waiters[id], Err(SessionFatal(VIOLATION))) in trace[j].session.log
    ensures trace[j].session.waiters == map[] && trace[j].progress == Marking(Unusable, ExitUnusable)
  {
    RunKeeps(trace, events, limits, i);
    ReadsFeed(trace, events, limits, i, j);
    var s := trace[i].session;
    UnknownIdAfterReplies(s, replies, tail, ChunksOf(events, i, j), limits);
    ViolationReaches(s, replies, Feed(s, ChunksOf(events, i, j), limits).session, trace[j].session, limits);
  }

  lemma ViolationReaches(s: Session, replies: seq<Outgoing>, fed: Session, t: Session, limits: Limits)
    requires AllDeliverable(replies, limits) && Ids(replies) <= s.waiters.Keys
    requires fed == Delivered(s, replies, limits).(buffer := fed.buffer)
    requires FailedAll(fed, t, SessionFatal(VIOLATION))
    ensures Delivered(s, replies, limits).log <= t.log && t.waiters == map[]
    ensures forall id | id in s.waiters && id !in Ids(replies) ::
              Delivery(s.waiters[id], Err(SessionFatal(VIOLATION))) in t.log
  {
    FailedAllReaches(fed, t, SessionFatal(VIOLATION));
    forall id | id in s.waiters && id !in Ids(replies)
      ensures Delivery(s.waiters[id], Err(SessionFatal(VIOLATION))) in t.log
    {
      assert id in fed.waiters && fed.waiters[id] == s.waiters[id];
    }
  }

  // ---------------------------------------------------------------- streams of replies

  /** Frames that state their own length split a stream in one way. */
  lemma {:induction false} SplitsOneWay(s: Session, frames: seq<seq<Byte>>, replies: seq<Outgoing>, limits: Limits)
    requires AllDeliverable(replies, limits) && Answer(s, limits).Need?
    requires forall k | 0 <= k < |frames| :: |frames[k]| >= HEADER_LENGTH && HeadTotal(frames[k]) == |frames[k]|
    requires Flatten(frames) + s.buffer == Flatten(Wires(replies, limits))
    ensures frames == Wires(replies, limits) && s.buffer == []
    decreases |frames|
  {
    if replies == [] {
      FirstFits(frames);
    } else {
      WiresSplit(replies, limits);
      var rest := Flatten(Wires(replies[1..], limits));
      assert Wires(replies, limits)[1..] == Wires(replies[1..], limits);
      if frames == [] {
        assert s.buffer == Wire(replies[0], limits) + rest;
        ReplyAnswered(s, replies[0], rest, limits);
      } else {
        var after := Flatten(frames[1..]) + s.buffer;
        Associate(frames[0], Flatten(frames[1..]), s.buffer);
        HeadsAgree(frames[0], after, replies[0], rest, limits);
        SplitsOneWay(s, frames[1..], replies[1..], limits);
        assert frames == [frames[0]] + frames[1..];
      }
    }
  }

  lemma FirstFits(frames: seq<seq<Byte>>)
    ensures frames == [] || |frames[0]| <= |Flatten(frames)|
  {
  }

  /** A whole reply at the head of the buffer is never waited for, whatever ids are live. */
  lemma ReplyAnswered(s: Session, o: Outgoing, rest: seq<Byte>, limits: Limits)
    requires Deliverable(o, limits) && s.buffer == Wire(o, limits) + rest
    ensures !Answer(s, limits).Need?
  {
    EncodedParts(o, limits.frameSize, limits.metadataSize);
    var payload := EncodePayload(o.payload).value;
    var raw := RawHeader(0, o.kind.Wire(), 0, o.code, RegionLength(o.metadata), |payload|, o.requestId);
    EncodedAdmittance(o, raw, payload, ClientAdmission(limits, Listing(s.live)), Wire(o, limits), rest);
  }

  lemma HeadsAgree(frame: seq<Byte>, after: seq<Byte>, o: Outgoing, rest: seq<Byte>, limits: Limits)
    requires |frame| >= HEADER_LENGTH && HeadTotal(frame) == |frame| && Deliverable(o, limits)
    requires frame + after == Wire(o, limits) + rest
    ensures frame == Wire(o, limits) && after == rest
  {
    HeaderStable(frame, after);
    ReplyHead(o, rest, limits);
    var stream := frame + after;
    assert frame == stream[..|frame|] && after == stream[|frame|..];
    assert Wire(o, limits) == stream[..|frame|] && rest == stream[|frame|..];
  }

  /** Over every run, with submissions taken at any time between the reads: while the driver runs and
      the bytes received are a sequence of replies, the sends so far are those replies, whole and in
      order, each to a submission whose id is the one the reply names, and nothing is left over. */
  lemma StreamDelivered(trace: seq<State>, events: seq<Event>, limits: Limits, n: nat, replies: seq<Outgoing>)
    requires IsRun(trace, events, limits) && n < |trace| && trace[n].progress.Running?
    requires AllDeliverable(replies, limits) && trace[n].received == Flatten(Wires(replies, limits))
    ensures var s := trace[n].session;
            && s.buffer == [] && s.frames == Wires(replies, limits) && |s.log| == |replies|
            && forall k | 0 <= k < |replies| ::
                 && s.log[k].outcome == Ok(Wire(replies[k], limits))
                 && s.log[k].ticket < |trace[n].accepted|
                 && trace[n].accepted[s.log[k].ticket] == replies[k].requestId
  {
    RunKeeps(trace, events, limits, n);
    var s := trace[n].session;
    assert Answer(s, limits).Need? by { DrainQuiet(s, limits); }
    SplitsOneWay(s, s.frames, replies, limits);
    forall k | 0 <= k < |replies|
      ensures s.log[k].outcome == Ok(Wire(replies[k], limits)) && s.log[k].ticket < |trace[n].accepted|
              && trace[n].accepted[s.log[k].ticket] == replies[k].requestId
    {
      assert Settles(s.log[k], s.frames[k], trace[n].accepted[s.log[k].ticket], limits);
      ReplySettled(s.log[k], replies[k], trace[n].accepted[s.log[k].ticket], limits);
    }
  }

  lemma ReplySettled(d: Delivery, o: Outgoing, id: U64, limits: Limits)
    requires Deliverable(o, limits) && Settles(d, Wire(o, limits), id, limits)
    ensures d.outcome == Ok(Wire(o, limits)) && id == o.requestId
  {
    ReplyHead(o, [], limits);
    assert Wire(o, limits) + [] == Wire(o, limits);
    EncodeDecode(o, limits.frameSize, limits.metadataSize, OwnAdmission(o.requestId, limits), []);
  }

  /** Over every run: when the `k`-th reply of the stream answers with `value`, the `k`-th send goes to
      the submission with that reply's id, and its caller reads exactly that value. */
  lemma GetInRun(
    trace: seq<State>, events: seq<Event>, limits: Limits, n: nat, replies: seq<Outgoing>, k: nat, value: seq<Byte>)
    requires IsRun(trace, events, limits) && n < |trace| && trace[n].progress.Running?
    requires AllDeliverable(replies, limits) && trace[n].received == Flatten(Wires(replies, limits))
    requires k < |replies| && replies[k] == ValueReply(replies[k].requestId, value)
    ensures k < |trace[n].session.log|
    ensures var sent := trace[n].session.log[k];
            && sent.ticket < |trace[n].accepted| && trace[n].accepted[sent.ticket] == replies[k].requestId
            && sent.outcome.Ok? && DecodeOwn(sent.outcome.value, limits).Ok?
            && InterpretGet(DecodeOwn(sent.outcome.value, limits).value) == Ok(Present(value))
  {
    StreamDelivered(trace, events, limits, n, replies);
    ReplyReads(replies[k], limits);
  }
}
