/** How a running driver stops, and what each way of stopping leaves behind, told by the events alone. */
module Stops {
  import opened LittleEndian
  import opened Sequences
  import opened Wrappers
  import opened Protocol
  import opened Codec
  import opened Dispatch
  import opened Correlation
  import opened Refusals
  import opened Driver

  // ---------------------------------------------------------------- the ways to stop

  /** A submission whose id cannot be taken. */
  predicate BadId(d: State, e: Event) {
    e.Accept? && (e.id == 0 || e.id in d.session.live)
  }

  /** A submission whose frame the transport did not take whole. */
  predicate CutShort(d: State, e: Event) {
    e.Accept? && !BadId(d, e) && Carried(e.writes) < |e.frame|
  }

  /** The state the session is left in by the step that stops it. */
  function StopState(d: State, e: Event): Lifecycle {
    if e.Shutdown? then Closed
    else if e.StreamEnd? || CutShort(d, e) then Failed
    else Unusable
  }

  /** What the driver returns with, unless shutting its transport down fails. */
  function StopExit(d: State, e: Event): DriverExit {
    if e.Shutdown? then ExitClosed
    else if e.StreamEnd? || CutShort(d, e) then ExitFailed
    else ExitUnusable
  }

  predicate Stopped(d: State) {
    !d.progress.Running? && !d.progress.RanDry?
  }

  lemma ReadStops(d: State, bytes: seq<Byte>, d': State, limits: Limits)
    requires Inv(d, limits) && Next(d, Chunk(bytes), d', limits)
    ensures Stopped(d') ==> exists t: Session, failure: Failure ::
              && CondemnedBehind(t, d'.received, limits, failure)
              && t.frames == d'.session.frames && |t.log| == |t.frames|
              && FailedAll(t, d'.session, SessionFatal(failure))
    ensures !Stopped(d') ==> Short(d'.session.buffer, limits) && |d'.session.log| == |d'.session.frames|
  {
    var s := Extend(d.session, bytes);
    DrainKeeps(s, d.accepted, limits);
    DrainVerdict(s, limits);
    Associate(Flatten(d.session.frames), d.session.buffer, bytes);
    var r := Drain(s, limits);
    if r.fatal.Some? { ReadEnds(d, bytes, d', r, limits); }
  }

  lemma ReadEnds(d: State, bytes: seq<Byte>, d': State, r: Drained, limits: Limits)
    requires Next(d, Chunk(bytes), d', limits) && r == Drain(Extend(d.session, bytes), limits) && r.fatal.Some?
    ensures Stopped(d') && FailedAll(r.session, d'.session, SessionFatal(r.fatal.value))
    ensures d'.received == d.received + bytes && d'.session.frames == r.session.frames
  {
  }

  /** Over every run, a read that stops the driver has, behind the frames settled so far, a frame that
      calls for the very failure every waiter is then sent; one that does not leaves less than a frame. */
  lemma ReadStopsExactly(trace: seq<State>, events: seq<Event>, limits: Limits, n: nat)
    requires IsRun(trace, events, limits) && n < |events| && events[n].Chunk?
    ensures var after := trace[n + 1];
            && (Stopped(after) ==> exists t: Session, failure: Failure ::
                  && CondemnedBehind(t, after.received, limits, failure) && t.frames == after.session.frames
                  && FailedAll(t, after.session, SessionFatal(failure)))
            && (!Stopped(after) ==> Short(after.session.buffer, limits))
  {
    RunKeeps(trace, events, limits, n);
    assert StepOf(trace, events, limits, n);
    ReadStops(trace[n], events[n].bytes, trace[n + 1], limits);
  }

  /** One step of a running driver: it stops on a shutdown, a submission it cannot take or write, the
      end of the stream while requests wait, and a read that ends the session, and in no other way;
      what it is then to mark and return with follows from the event. */
  lemma StopStep(d: State, e: Event, d': State, limits: Limits)
    requires d.progress.Running? && Next(d, e, d', limits)
    ensures !e.Chunk? ==>
              (Stopped(d') <==> || e.Shutdown? || BadId(d, e) || CutShort(d, e)
                                || (e.StreamEnd? && d.session.waiters != map[]))
    ensures Stopped(d') ==> d'.progress == Marking(StopState(d, e), StopExit(d, e))
    ensures Stopped(d') ==> d'.lifecycle == d.lifecycle && d'.admissionClosed == d.admissionClosed
    ensures Stopped(d') ==> e.Shutdown? || e.StreamEnd? || e.Accept? || e.Chunk?
    ensures BadId(d, e) ==> d'.wrote == d.wrote + [[]]
    ensures CutShort(d, e) ==> d'.wrote == d.wrote + [e.frame[..Carried(e.writes)]]
  {
  }

  // ---------------------------------------------------------------- running dry

  /** A driver with no submit channel and nothing in flight has run dry. */
  predicate DryInv(d: State) {
    && (d.progress.Running? ==> !(d.submitClosed && d.session.waiters == map[]))
    && (d.progress.RanDry? ==> d.submitClosed && d.session.waiters == map[])
  }

  lemma DryStep(d: State, e: Event, d': State, limits: Limits)
    requires DryInv(d) && Next(d, e, d', limits)
    ensures DryInv(d') && (d'.submitClosed <==> d.submitClosed || e.ChannelClosed?)
  {
  }

  /** Over every run, a driver that has neither stopped nor run dry still has a submit channel or a
      request in flight; one that ran dry has neither; and the channel is gone exactly once it closed. */
  lemma {:induction false} RunsDryExactly(trace: seq<State>, events: seq<Event>, limits: Limits, n: nat)
    requires IsRun(trace, events, limits) && n < |trace|
    ensures DryInv(trace[n]) && (trace[n].submitClosed <==> ChannelClosed in events[..n])
    decreases n
  {
    if n > 0 {
      RunsDryExactly(trace, events, limits, n - 1);
      assert StepOf(trace, events, limits, n - 1);
      DryStep(trace[n - 1], events[n - 1], trace[n], limits);
      assert events[..n] == events[..n - 1] + [events[n - 1]];
    }
  }

  // ---------------------------------------------------------------- from the stop to the end

  /** The step that stops the driver, if it has stopped. */
  lemma {:induction false} StoppedAt(trace: seq<State>, events: seq<Event>, limits: Limits, n: nat) returns (at: nat)
    requires IsRun(trace, events, limits) && n < |trace| && Stopped(trace[n])
    ensures at < n && trace[at].progress.Running? && Stopped(trace[at + 1])
    decreases n
  {
    assert n > 0;
    if Stopped(trace[n - 1]) {
      at := StoppedAt(trace, events, limits, n - 1);
    } else {
      at := n - 1;
      assert StepOf(trace, events, limits, at);
    }
  }

  /** Where a driver that is to mark `target` and return `exit` may be; `broke` says that shutting its
      transport down failed. */
  predicate Onward(p: Progress, target: Lifecycle, exit: DriverExit, broke: bool) {
    match p
    case Marking(t, x) => t == target && x == exit && !broke
    case Sealing(x) => x == exit && !broke
    case ShuttingTransport => exit.ExitClosed? && !broke
    case Ended(final) => if exit.ExitClosed? then final == (if broke then ExitFailed else ExitClosed) else final == exit
    case _ => false
  }

  lemma OnwardStep(d: State, e: Event, d': State, target: Lifecycle, exit: DriverExit, broke: bool, limits: Limits)
    requires Onward(d.progress, target, exit, broke) && Next(d, e, d', limits)
    ensures Onward(d'.progress, target, exit, broke || e == TransportShut(false))
  {
  }

  lemma {:induction false} StopLeads(trace: seq<State>, events: seq<Event>, limits: Limits, at: nat, n: nat)
    requires IsRun(trace, events, limits) && at < n < |trace|
    requires trace[at].progress.Running? && Stopped(trace[at + 1])
    ensures Onward(trace[n].progress, StopState(trace[at], events[at]), StopExit(trace[at], events[at]),
                   TransportShut(false) in events[at + 1..n])
    decreases n
  {
    assert StepOf(trace, events, limits, n - 1);
    if n == at + 1 {
      StopStep(trace[at], events[at], trace[n], limits);
    } else {
      StopLeads(trace, events, limits, at, n - 1);
      OnwardStep(trace[n - 1], events[n - 1], trace[n], StopState(trace[at], events[at]),
                 StopExit(trace[at], events[at]), TransportShut(false) in events[at + 1..n - 1], limits);
      assert events[at + 1..n] == events[at + 1..n - 1] + [events[n - 1]];
    }
  }

  /** Over every run, the step that stops the driver decides what it marks: taken over Usable or Closing,
      the mark that follows leaves Closed after a shutdown, Failed after the end of the stream or a write
      that fell short, and Unusable after an id that cannot be taken or a read; another terminal state
      is kept. */
  lemma MarksByCause(trace: seq<State>, events: seq<Event>, limits: Limits, at: nat, m: nat)
    requires IsRun(trace, events, limits) && at < m < |events| && events[m].Mark?
    requires trace[at].progress.Running? && Stopped(trace[at + 1])
    ensures var before, after := trace[m].lifecycle, trace[m + 1].lifecycle;
            && (before.Usable? || before.Closing? ==>
                  match events[at]
                  case Shutdown => after.Closed?
                  case StreamEnd => after.Failed?
                  case Accept(id, _, _) =>
                    if id == 0 || id in trace[at].session.live then after.Unusable? else after.Failed?
                  case Chunk(_) => after.Unusable?
                  case _ => false)
            && (!before.Usable? && !before.Closing? ==> after == before)
  {
    StopLeads(trace, events, limits, at, m);
    assert StepOf(trace, events, limits, at) && StepOf(trace, events, limits, m);
    StopStep(trace[at], events[at], trace[at + 1], limits);
  }

  /** Over every run, a driver that has returned by stopping returned Failed if the stream ended or a
      write fell short, Unusable if an id could not be taken or a read ended the session, and after a
      shutdown Closed or Failed as its transport was shut down or not. */
  lemma ReturnsByCause(trace: seq<State>, events: seq<Event>, limits: Limits, n: nat) returns (at: nat)
    requires IsRun(trace, events, limits) && n < |trace| && trace[n].progress.Ended?
    ensures at < n && trace[at].progress.Running? && Stopped(trace[at + 1])
    ensures var final := trace[n].progress.final;
            match events[at]
            case Shutdown => final == if TransportShut(false) in events[at + 1..n] then ExitFailed else ExitClosed
            case StreamEnd => final.ExitFailed?
            case Accept(id, _, _) =>
              if id == 0 || id in trace[at].session.live then final.ExitUnusable? else final.ExitFailed?
            case Chunk(_) => final.ExitUnusable?
            case _ => false
  {
    at := StoppedAt(trace, events, limits, n);
    assert StepOf(trace, events, limits, at);
    StopStep(trace[at], events[at], trace[at + 1], limits);
    StopLeads(trace, events, limits, at, n);
  }

  // ---------------------------------------------------------------- what the answered are sent

  /** Over every run, the sends that settled a frame are those of the frames, in order: each the bytes of
      its frame if the metadata is readable, and an invalid argument if it is not. */
  lemma SettledInOrder(trace: seq<State>, events: seq<Event>, limits: Limits, n: nat, k: nat)
    requires IsRun(trace, events, limits) && n < |trace| && k < |trace[n].session.frames|
    ensures var s := trace[n].session;
            k < |s.log|
            && s.log[k].outcome
               == if Clean(s.frames[k], limits) then Ok(s.frames[k]) else Err(RequestFailed(INVALID_ARGUMENT))
  {
    RunKeeps(trace, events, limits, n);
    var s := trace[n].session;
    SettledExactly(s.log[k], s.frames[k], trace[n].accepted[s.log[k].ticket], limits);
  }
}
