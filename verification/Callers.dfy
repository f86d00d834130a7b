/** From runs of the driver to whole connections: the driver of every interleaving makes a run, so what
    holds of runs holds of it, and a caller reads what the stream carried for it. */
module Callers {
  import opened LittleEndian
  import opened Wrappers
  import opened Protocol
  import opened Codec
  import opened Identity
  import opened Sequences
  import opened Dispatch
  import opened Correlation
  import opened Driver
  import opened Command
  import opened Exchange
  import opened Ambiguity
  import opened Connection
  import opened Interleaving
  import opened Requests

  // ---------------------------------------------------------------- the run inside a history

  /** The states of the driver over the first `n` steps; a command's step leaves it alone. */
  function StatesOf(worlds: seq<World>, actions: seq<Action>, n: nat): seq<State>
    requires n < |worlds| == |actions| + 1
  {
    if n == 0 then [worlds[0].driver]
    else if actions[n - 1].Call? then StatesOf(worlds, actions, n - 1)
    else StatesOf(worlds, actions, n - 1) + [worlds[n].driver]
  }

  /** What moved it: its own events, and the closers' writes as seen from outside. */
  function EventsOf(worlds: seq<World>, actions: seq<Action>, n: nat): seq<Event>
    requires n < |worlds| == |actions| + 1
  {
    if n == 0 then []
    else
      var before := EventsOf(worlds, actions, n - 1);
      match actions[n - 1]
      case Call(_) => before
      case Drive(event) => before + [event]
      case Close(_) => before + [Outside(worlds[n].driver.lifecycle, worlds[n].driver.admissionClosed)]
  }

  lemma CloserEvent(w: World, a: CloserAction, w': World, limits: Limits)
    requires CloserMove(w, a, w')
    ensures Next(w.driver, Outside(w'.driver.lifecycle, w'.driver.admissionClosed), w'.driver, limits)
  {
  }

  lemma RunExtends(trace: seq<State>, events: seq<Event>, e: Event, d: State, limits: Limits)
    requires IsRun(trace, events, limits) && Next(trace[|events|], e, d, limits)
    ensures IsRun(trace + [d], events + [e], limits)
  {
    var more, acts := trace + [d], events + [e];
    forall i | 0 <= i < |acts| ensures StepOf(more, acts, limits, i) {
      if i < |events| { assert StepOf(trace, events, limits, i); }
    }
  }

  /** The driver of every history is the last state of a run, made of the driver's own events and of
      the closers' writes. */
  lemma {:induction false} DriverRuns(
    worlds: seq<World>, actions: seq<Action>, limits: Limits, maximum: nat, n: nat)
    requires IsHistory(worlds, actions, limits, maximum) && n < |worlds|
    ensures var trace, events := StatesOf(worlds, actions, n), EventsOf(worlds, actions, n);
            IsRun(trace, events, limits) && trace[|events|] == worlds[n].driver
    decreases n
  {
    if n > 0 {
      DriverRuns(worlds, actions, limits, maximum, n - 1);
      HistoryMove(worlds, actions, limits, maximum, n);
      var w, w' := worlds[n - 1], worlds[n];
      var trace, events := StatesOf(worlds, actions, n - 1), EventsOf(worlds, actions, n - 1);
      match actions[n - 1]
      case Call(caller) => CallerApart(w, caller, w', limits);
      case Drive(event) => RunExtends(trace, events, event, w'.driver, limits);
      case Close(closer) =>
        CloserEvent(w, closer, w', limits);
        RunExtends(trace, events, Outside(w'.driver.lifecycle, w'.driver.admissionClosed), w'.driver, limits);
    }
  }

  // ---------------------------------------------------------------- what later worlds keep

  /** Nothing sent or accepted is taken back. */
  predicate Keeps(d: State, d': State) {
    d.session.log <= d'.session.log && d.accepted <= d'.accepted
  }

  lemma KeepsStep(w: World, a: Action, w': World, limits: Limits)
    requires Inv(w.driver, limits) && Move(w, a, w', limits)
    ensures Keeps(w.driver, w'.driver)
  {
    match a
    case Call(caller) => CallerApart(w, caller, w', limits);
    case Drive(event) =>
      StepKeeps(w.driver, event, w'.driver, limits);
      if event.Accept? {
        AcceptWithin(w.driver, event, w'.driver, limits);
      } else {
        NextWithin(w.driver, event, w'.driver, limits);
      }
    case Close(closer) => CloserApart(w, closer, w');
  }

  lemma {:induction false} KeepsHistory(
    worlds: seq<World>, actions: seq<Action>, limits: Limits, maximum: nat, n: nat, m: nat)
    requires IsHistory(worlds, actions, limits, maximum) && n <= m < |worlds|
    ensures Keeps(worlds[n].driver, worlds[m].driver)
    decreases m
  {
    if n < m {
      KeepsHistory(worlds, actions, limits, maximum, n, m - 1);
      KeepsNext(worlds, actions, limits, maximum, m - 1);
      KeepsOn(worlds[n].driver, worlds[m - 1].driver, worlds[m].driver);
    }
  }

  lemma KeepsOn(a: State, b: State, c: State)
    requires Keeps(a, b) && Keeps(b, c)
    ensures Keeps(a, c)
  {
  }

  lemma KeepsNext(worlds: seq<World>, actions: seq<Action>, limits: Limits, maximum: nat, n: nat)
    requires IsHistory(worlds, actions, limits, maximum) && n < |actions|
    ensures Keeps(worlds[n].driver, worlds[n + 1].driver)
  {
    DriverInv(worlds, actions, limits, maximum, n);
    HistoryMove(worlds, actions, limits, maximum, n + 1);
    KeepsStep(worlds[n], actions[n], worlds[n + 1], limits);
  }

  // ---------------------------------------------------------------- what a caller reads

  /** The send a caller's answer came from, to the ticket with the caller's own id. */
  lemma AnswerSent(worlds: seq<World>, actions: seq<Action>, limits: Limits, maximum: nat, n: nat, c: nat)
    returns (i: nat)
    requires IsHistory(worlds, actions, limits, maximum) && n < |worlds|
    requires c in worlds[n].callers && worlds[n].callers[c].Answered?
    ensures var d := worlds[n].driver;
            && i < |d.session.log| && d.session.log[i].outcome == worlds[n].callers[c].outcome
            && d.session.log[i].ticket < |d.accepted|
            && d.accepted[d.session.log[i].ticket] == Nth(FIRST_ID, worlds[n].callers[c].k)
  {
    HistoryKeeps(worlds, actions, limits, maximum, n);
    i := SentOf(worlds[n], c);
  }

  /** Two sends to one id are one send, while ids do not repeat. */
  lemma SameSend(worlds: seq<World>, actions: seq<Action>, limits: Limits, maximum: nat, n: nat, i: nat, j: nat)
    requires IsHistory(worlds, actions, limits, maximum) && n < |worlds| && worlds[n].minted <= IDS
    requires i < |worlds[n].driver.session.log| && j < |worlds[n].driver.session.log|
    requires var d := worlds[n].driver;
             && d.session.log[i].ticket < |d.accepted| && d.session.log[j].ticket < |d.accepted|
             && d.accepted[d.session.log[i].ticket] == d.accepted[d.session.log[j].ticket]
    ensures i == j
  {
    var log := worlds[n].driver.session.log;
    var t, u := log[i].ticket, log[j].ticket;
    if t < u { AcceptedIdsDiffer(worlds, actions, limits, maximum, n, t, u); }
    if u < t { AcceptedIdsDiffer(worlds, actions, limits, maximum, n, u, t); }
    DriverInv(worlds, actions, limits, maximum, n);
    NoneTwice(worlds[n].driver, limits);
  }

  lemma NoneTwice(d: State, limits: Limits)
    requires Inv(d, limits)
    ensures NoDoubleSend(d.session.log)
  {
  }

  /** The sends of a running driver whose stream so far is a sequence of replies. */
  lemma StreamSent(
    worlds: seq<World>, actions: seq<Action>, limits: Limits, maximum: nat, n: nat, replies: seq<Outgoing>, k: nat)
    requires IsHistory(worlds, actions, limits, maximum) && n < |worlds| && worlds[n].driver.progress.Running?
    requires AllDeliverable(replies, limits) && worlds[n].driver.received == Flatten(Wires(replies, limits))
    requires k < |replies|
    ensures var d := worlds[n].driver;
            && k < |d.session.log| && d.session.log[k].outcome == Ok(Wire(replies[k], limits))
            && d.session.log[k].ticket < |d.accepted|
            && d.accepted[d.session.log[k].ticket] == replies[k].requestId
  {
    DriverRuns(worlds, actions, limits, maximum, n);
    var events := EventsOf(worlds, actions, n);
    StreamDelivered(StatesOf(worlds, actions, n), events, limits, |events|, replies);
  }

  /** In every history of at most 2^64 - 1 allocations: once the stream received by the running driver
      is a sequence of replies, a command whose id the `k`-th reply names and that is answered, then or
      at any later time, holds exactly that reply and reads it back as the frame the server sent. */
  lemma CallerReads(
    worlds: seq<World>, actions: seq<Action>, limits: Limits, maximum: nat, n: nat, m: nat,
    replies: seq<Outgoing>, k: nat, c: nat)
    requires IsHistory(worlds, actions, limits, maximum) && n <= m < |worlds| && worlds[m].minted <= IDS
    requires worlds[n].driver.progress.Running? && AllDeliverable(replies, limits)
    requires worlds[n].driver.received == Flatten(Wires(replies, limits)) && k < |replies|
    requires c in worlds[m].callers && worlds[m].callers[c].Answered?
    requires replies[k].requestId == Nth(FIRST_ID, worlds[m].callers[c].k)
    ensures worlds[m].callers[c].outcome == Ok(Wire(replies[k], limits))
    ensures RegionLength(replies[k].metadata) < 0x1_0000
    ensures EncodePayload(replies[k].payload).Ok? && |EncodePayload(replies[k].payload).value| < 0x1_0000_0000
    ensures DecodeOwn(Wire(replies[k], limits), limits) == Ok(FrameOf(replies[k]))
  {
    StreamSent(worlds, actions, limits, maximum, n, replies, k);
    KeepsHistory(worlds, actions, limits, maximum, n, m);
    var i := AnswerSent(worlds, actions, limits, maximum, m, c);
    SameSend(worlds, actions, limits, maximum, m, i, k);
    ReplyReads(replies[k], limits);
  }

  /** In every such history a `GET` answered with a value reads exactly that value. */
  lemma CallerGets(
    worlds: seq<World>, actions: seq<Action>, limits: Limits, maximum: nat, n: nat, m: nat,
    replies: seq<Outgoing>, k: nat, c: nat, value: seq<Byte>)
    requires IsHistory(worlds, actions, limits, maximum) && n <= m < |worlds| && worlds[m].minted <= IDS
    requires worlds[n].driver.progress.Running? && AllDeliverable(replies, limits)
    requires worlds[n].driver.received == Flatten(Wires(replies, limits)) && k < |replies|
    requires c in worlds[m].callers && worlds[m].callers[c].Answered?
    requires replies[k] == ValueReply(Nth(FIRST_ID, worlds[m].callers[c].k), value)
    ensures worlds[m].callers[c].outcome.Ok?
    ensures var own := DecodeOwn(worlds[m].callers[c].outcome.value, limits);
            own.Ok? && InterpretGet(own.value) == Ok(Present(value))
  {
    CallerReads(worlds, actions, limits, maximum, n, m, replies, k, c);
  }

  /** In every history, a command answered with a frame reads its own frame; whichever command it is, if
      it reads a failure it is told that it may have taken effect if and only if the frame is an error
      with the internal error's code. */
  lemma AnsweredToldExactly(worlds: seq<World>, actions: seq<Action>, limits: Limits, maximum: nat, n: nat, c: nat)
    requires IsHistory(worlds, actions, limits, maximum) && n < |worlds|
    requires c in worlds[n].callers && worlds[n].callers[c].Answered? && worlds[n].callers[c].outcome.Ok?
    ensures var bytes := worlds[n].callers[c].outcome.value;
            && |bytes| >= HEADER_LENGTH && HeadId(bytes) == Nth(FIRST_ID, worlds[n].callers[c].k)
            && DecodeOwn(bytes, limits).Ok?
            && var f, internal := DecodeOwn(bytes, limits).value, bytes[1] == 3 && U16At(bytes, 4) == 0x000B;
            && (InterpretGet(f).Err? ==> (OfClass(InterpretGet(f).error).IsAmbiguous() <==> internal))
            && (InterpretDone(f).Err? ==> (OfClass(InterpretDone(f).error).IsAmbiguous() <==> internal))
            && (InterpretFlag(f).Err? ==> (OfClass(InterpretFlag(f).error).IsAmbiguous() <==> internal))
  {
    var i := AnswerSent(worlds, actions, limits, maximum, n, c);
    DriverInv(worlds, actions, limits, maximum, n);
    SuccessSettles(worlds[n].driver, limits, i);
    FrameToldExactly(worlds[n].callers[c].outcome.value, Nth(FIRST_ID, worlds[n].callers[c].k), limits);
  }

  // ---------------------------------------------------------------- what a failed caller is told

  lemma FailedBy(w: World, a: Action, w': World, limits: Limits, k: nat)
    requires Inv(w.driver, limits) && Move(w, a, w', limits)
    requires |w.driver.session.log| <= k < |w'.driver.session.log| && w'.driver.session.log[k].outcome.Err?
    ensures a.Drive?
    ensures ToldBy(w.driver, a.event, w'.driver, limits, w'.driver.session.log[k], k)
  {
    match a
    case Call(caller) => CallerApart(w, caller, w', limits);
    case Drive(event) => StepSends(w.driver, event, w'.driver, limits, k);
    case Close(closer) => CloserApart(w, closer, w');
  }

  /** The step of a history that made a failed send. */
  lemma {:induction false} FailedAt(
    worlds: seq<World>, actions: seq<Action>, limits: Limits, maximum: nat, n: nat, k: nat) returns (at: nat)
    requires IsHistory(worlds, actions, limits, maximum) && n < |worlds|
    requires k < |worlds[n].driver.session.log| && worlds[n].driver.session.log[k].outcome.Err?
    ensures at < n && actions[at].Drive?
    ensures |worlds[at].driver.session.log| <= k < |worlds[at + 1].driver.session.log|
    ensures ToldBy(worlds[at].driver, actions[at].event, worlds[at + 1].driver, limits,
                   worlds[n].driver.session.log[k], k)
    decreases n
  {
    assert n > 0;
    KeepsNext(worlds, actions, limits, maximum, n - 1);
    if k < |worlds[n - 1].driver.session.log| {
      at := FailedAt(worlds, actions, limits, maximum, n - 1, k);
    } else {
      at := n - 1;
      DriverInv(worlds, actions, limits, maximum, at);
      HistoryMove(worlds, actions, limits, maximum, n);
      FailedBy(worlds[at], actions[at], worlds[n], limits, k);
    }
  }

  /** In every history, a command answered with an error owes it to one step of the driver, which sent it
      to the command's own id. The command is told that it may have taken effect if and
      only if the driver's step that failed it was a shutdown, a transport failure or a refused id, and
      then it is told which; it is told otherwise if and only if that step was a read, and then it is told
      the class of its refused frame or of the frame that ended the session. */
  lemma CallerToldExactly(
    worlds: seq<World>, actions: seq<Action>, limits: Limits, maximum: nat, n: nat, c: nat) returns (at: nat, k: nat)
    requires IsHistory(worlds, actions, limits, maximum) && n < |worlds|
    requires c in worlds[n].callers && worlds[n].callers[c].Answered? && worlds[n].callers[c].outcome.Err?
    ensures at < n && actions[at].Drive?
    ensures |worlds[at].driver.session.log| <= k < |worlds[at + 1].driver.session.log|
    ensures var d := worlds[n].driver;
            k < |d.session.log| && d.session.log[k].ticket < |d.accepted|
            && d.accepted[d.session.log[k].ticket] == Nth(FIRST_ID, worlds[n].callers[c].k)
    ensures FromDriver(worlds[n].callers[c].outcome.error).IsAmbiguous()
            <==> Interrupts(worlds[at].driver, actions[at].event)
    ensures !FromDriver(worlds[n].callers[c].outcome.error).IsAmbiguous() <==> actions[at].event.Chunk?
    ensures Interrupts(worlds[at].driver, actions[at].event) ==>
              FromDriver(worlds[n].callers[c].outcome.error) == Reason(worlds[at].driver, actions[at].event)
    ensures actions[at].event.Chunk? ==>
              ReadReason(worlds[at + 1].driver, k, limits, FromDriver(worlds[n].callers[c].outcome.error))
  {
    k := AnswerSent(worlds, actions, limits, maximum, n, c);
    at := FailedAt(worlds, actions, limits, maximum, n, k);
  }
}
