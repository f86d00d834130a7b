/** The outgoing stream: in every interleaving it is the requests of the accepted commands, which a
    server reads one by one. */
module Requests {
  import opened LittleEndian
  import opened Wrappers
  import opened Protocol
  import opened Codec
  import opened Identity
  import opened Sequences
  import opened Dispatch
  import opened Driver
  import opened Connection
  import opened Interleaving
  import Command
  import Handshake

  /** The handshake's id is not handed to a command before every other id has been. */
  lemma HandshakeIdApart(k: nat)
    ensures Nth(FIRST_ID, k) == Handshake.HANDSHAKE_ID <==> (k + 1) % IDS == 0
  {
    ClosedForm(FIRST_ID, k);
  }

  /** `frame` is what `r` sends under `id`. */
  predicate Says(frame: seq<Byte>, r: Command.Request, id: U64, limits: Limits) {
    Command.Fits(r, limits) && Command.EncodeRequest(r, id, limits) == Ok(frame)
  }

  /** `frame` is the whole of some request under `id`. */
  ghost predicate Speaks(frame: seq<Byte>, id: U64, limits: Limits) {
    exists r :: Says(frame, r, id, limits)
  }

  /** What is queued and what was written whole are requests under their own ids. */
  ghost predicate SpeechInv(w: World, limits: Limits) {
    && |w.driver.wrote| == |w.driver.accepted|
    && (forall i | 0 <= i < |w.queue| :: Speaks(w.queue[i].frame, w.queue[i].id, limits))
    && (forall t | 0 <= t < |w.driver.wrote| && Whole(w.driver, t) ::
          Speaks(w.driver.wrote[t], w.driver.accepted[t], limits))
  }

  /** Submission `t` was written whole: only the last can be cut short, and then the driver stops. */
  predicate Whole(d: State, t: nat) {
    t < |d.wrote| && (t < |d.wrote| - 1 || d.progress.Running?)
  }

  lemma SpeechCaller(w: World, a: CallerAction, w': World, limits: Limits)
    requires SpeechInv(w, limits) && CallerMove(w, a, w', limits)
    ensures SpeechInv(w', limits)
  {
    forall i | 0 <= i < |w'.queue| ensures Speaks(w'.queue[i].frame, w'.queue[i].id, limits) {
      if i == |w.queue| { assert Says(w'.queue[i].frame, a.request, w'.queue[i].id, limits); }
    }
  }

  lemma SpeechDriver(w: World, e: Event, w': World, limits: Limits)
    requires SpeechInv(w, limits) && DriverMove(w, e, w', limits)
    ensures SpeechInv(w', limits)
  {
    WroteStep(w.driver, e, w'.driver, limits);
    forall t | 0 <= t < |w'.driver.wrote| && Whole(w'.driver, t)
      ensures Speaks(w'.driver.wrote[t], w'.driver.accepted[t], limits)
    {
      if t < |w.driver.wrote| {
        assert Whole(w.driver, t);
      } else {
        assert Speaks(w.queue[0].frame, w.queue[0].id, limits);
      }
    }
  }

  /** A step of the driver writes one submission, whole if it goes on running, or nothing. */
  lemma WroteStep(d: State, e: Event, d': State, limits: Limits)
    requires Next(d, e, d', limits) && |d.wrote| == |d.accepted|
    ensures e.Accept? ==> d.progress.Running? && d'.accepted == d.accepted + [e.id]
                          && |d'.wrote| == |d.wrote| + 1 && d'.wrote[..|d.wrote|] == d.wrote
                          && (d'.progress.Running? ==> d'.wrote[|d.wrote|] == e.frame)
    ensures !e.Accept? ==> d'.accepted == d.accepted && d'.wrote == d.wrote
                           && (d'.progress.Running? ==> d.progress.Running?)
  {
  }

  lemma SpeechMove(w: World, a: Action, w': World, limits: Limits)
    requires SpeechInv(w, limits) && Move(w, a, w', limits)
    ensures SpeechInv(w', limits)
  {
    match a
    case Call(caller) => SpeechCaller(w, caller, w', limits);
    case Drive(event) => SpeechDriver(w, event, w', limits);
    case Close(closer) => SpeechCloser(w, closer, w', limits);
  }

  lemma SpeechCloser(w: World, a: CloserAction, w': World, limits: Limits)
    requires SpeechInv(w, limits) && CloserMove(w, a, w')
    ensures SpeechInv(w', limits)
  {
    assert w'.queue == w.queue && w'.driver.wrote == w.driver.wrote && w'.driver.accepted == w.driver.accepted
        && w'.driver.progress == w.driver.progress;
  }

  lemma {:induction false} SpeechHistory(
    worlds: seq<World>, actions: seq<Action>, limits: Limits, maximum: nat, n: nat)
    requires IsHistory(worlds, actions, limits, maximum) && n < |worlds|
    ensures SpeechInv(worlds[n], limits)
    decreases n
  {
    if n > 0 {
      SpeechHistory(worlds, actions, limits, maximum, n - 1);
      HistoryMove(worlds, actions, limits, maximum, n);
      SpeechMove(worlds[n - 1], actions[n - 1], worlds[n], limits);
    }
  }

  /** The frame a server reads of request `r`. */
  function Heard(r: Command.Request, id: U64, limits: Limits): Frame
    requires Command.Fits(r, limits) && limits.frameSize < 0x1_0000_0000
  {
    var payload := Command.RequestPayload(r).value;
    Frame(Header(0, Kind.Request, 0, r.Opcode(), 0, |payload|, id), [], Opaque(payload), 0)
  }

  /** In every interleaving, from the place in the outgoing stream where submission `k` begins, a
      server that does not have its id in flight reads exactly the request of that submission, and
      the next submission begins right behind it. */
  lemma ServerReads(
    worlds: seq<World>, actions: seq<Action>, limits: Limits, maximum: nat, n: nat, k: nat, inFlight: seq<U64>,
    rest: seq<Byte>)
    returns (r: Command.Request)
    requires IsHistory(worlds, actions, limits, maximum) && n < |worlds| && limits.frameSize < 0x1_0000_0000
    requires Whole(worlds[n].driver, k)
    ensures k < |worlds[n].driver.accepted| && Says(worlds[n].driver.wrote[k], r, worlds[n].driver.accepted[k], limits)
    ensures var d, stream := worlds[n].driver, Flatten(worlds[n].driver.wrote[k..]) + rest;
            && |stream| >= HEADER_LENGTH && HeadTotal(stream) == |d.wrote[k]|
            && stream[HeadTotal(stream)..] == Flatten(d.wrote[k + 1..]) + rest
            && (d.accepted[k] !in inFlight ==>
                  Decode(stream, Admission(Server, Negotiated, limits, inFlight))
                  == Admitted(Heard(r, d.accepted[k], limits)))
  {
    SpeechHistory(worlds, actions, limits, maximum, n);
    NonzeroIds(worlds, actions, limits, maximum, n, k);
    var d := worlds[n].driver;
    assert Speaks(d.wrote[k], d.accepted[k], limits);
    r :| Says(d.wrote[k], r, d.accepted[k], limits);
    var after := Flatten(d.wrote[k + 1..]) + rest;
    assert d.wrote[k..][0] == d.wrote[k] && d.wrote[k..][1..] == d.wrote[k + 1..];
    assert Flatten(d.wrote[k..]) + rest == d.wrote[k] + after;
    RequestHead(d.wrote[k], r, d.accepted[k], limits, after);
    if d.accepted[k] !in inFlight { Command.ServerAdmits(r, d.accepted[k], limits, inFlight, after); }
  }

  lemma NonzeroIds(worlds: seq<World>, actions: seq<Action>, limits: Limits, maximum: nat, n: nat, k: nat)
    requires IsHistory(worlds, actions, limits, maximum) && n < |worlds| && k < |worlds[n].driver.accepted|
    ensures worlds[n].driver.accepted[k] != 0
  {
    HistoryKeeps(worlds, actions, limits, maximum, n);
    var w := worlds[n];
    NeverRepeats(FIRST_ID, w.callers[w.owner[k]].k, w.callers[w.owner[k]].k + 1);
  }

  lemma RequestHead(frame: seq<Byte>, r: Command.Request, id: U64, limits: Limits, after: seq<Byte>)
    requires Says(frame, r, id, limits)
    ensures var stream := frame + after;
            |stream| >= HEADER_LENGTH && HeadTotal(stream) == |frame| && stream[|frame|..] == after
  {
    var payload := Command.RequestPayload(r).value;
    var o := Outgoing(Kind.Request, r.Opcode(), id, [], Opaque(payload));
    EncodedParts(o, limits.frameSize, limits.metadataSize);
    EncodedSlices(RawHeader(0, 1, 0, r.Opcode(), 0, |payload|, id), [], payload, frame, after);
  }

  /** In every interleaving with at most 2^64 - 1 allocations the accepted ids differ, so a server that
      has some of the earlier ones in flight never has the next one. */
  lemma AcceptedIdsDiffer(
    worlds: seq<World>, actions: seq<Action>, limits: Limits, maximum: nat, n: nat, t: nat, u: nat)
    requires IsHistory(worlds, actions, limits, maximum) && n < |worlds| && worlds[n].minted <= IDS
    requires t < u < |worlds[n].driver.accepted|
    ensures worlds[n].driver.accepted[t] != worlds[n].driver.accepted[u]
  {
    HistoryKeeps(worlds, actions, limits, maximum, n);
    var w := worlds[n];
    var j, k := w.callers[w.owner[t]].k, w.callers[w.owner[u]].k;
    if j < k { NeverRepeats(FIRST_ID, j, k); } else { NeverRepeats(FIRST_ID, k, j); }
  }
}
