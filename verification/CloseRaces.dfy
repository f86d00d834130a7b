/** Interleavings in which a close does not end as documented. */
module CloseRaces {
  import opened LittleEndian
  import opened Protocol
  import opened Dispatch
  import opened Correlation
  import opened Driver
  import opened Connection
  import opened Interleaving

  lemma HistoryExtend(
    worlds: seq<World>, actions: seq<Action>, a: Action, w': World, limits: Limits, maximum: nat)
    requires IsHistory(worlds, actions, limits, maximum) && Move(worlds[|actions|], a, w', limits)
    ensures IsHistory(worlds + [w'], actions + [a], limits, maximum)
  {
    var more, acts := worlds + [w'], actions + [a];
    forall i | 0 <= i < |acts| ensures MoveOf(more, acts, limits, i) {
      if i < |actions| { assert MoveOf(worlds, actions, limits, i); }
    }
  }

  /** A driver that has accepted nothing and read `bytes`. */
  function Bare(progress: Progress, lifecycle: Lifecycle, sealed: bool, bytes: seq<Byte>): State {
    State(EMPTY_SESSION.(buffer := bytes), false, progress, lifecycle, sealed, [], bytes, [])
  }

  /** A connection without commands. */
  function Idle(driver: State, maximum: nat, closers: map<nat, CloserStage>, handle: bool): World {
    World(driver, maximum, 0, [], [], map[], closers, handle)
  }

  lemma FailsNone(s: Session, error: DriverError)
    requires s.waiters == map[] && s.live == {}
    ensures FailedAll(s, s, error)
  {
    var order: seq<U64> := [];
    assert Enumerates(order, s.waiters.Keys);
    assert s.log == s.log + FailLog(order, s.waiters, error);
  }

  lemma FatalRead(bytes: seq<Byte>, limits: Limits)
    requires |bytes| == HEADER_LENGTH && bytes[0] != 0
    ensures Next(Bare(Running, Usable, false, []), Chunk(bytes),
                 Bare(Marking(Unusable, ExitUnusable), Usable, false, bytes), limits)
  {
    var s := EMPTY_SESSION.(buffer := bytes);
    assert Extend(Bare(Running, Usable, false, []).session, bytes) == s by { assert [] + bytes == bytes; }
    BadVersionEndsSession(s, limits);
    FailsNone(s, SessionFatal(UNSUPPORTED_VERSION));
  }

  lemma ShutdownStep(lifecycle: Lifecycle, sealed: bool, limits: Limits)
    ensures Next(Bare(Running, lifecycle, sealed, []), Shutdown,
                 Bare(Marking(Closed, ExitClosed), lifecycle, sealed, []), limits)
  {
    FailsNone(EMPTY_SESSION, SessionClosed);
  }

  lemma MarkStep(
    target: Lifecycle, exit: DriverExit, lifecycle: Lifecycle, sealed: bool, bytes: seq<Byte>, limits: Limits)
    requires lifecycle.Usable? || lifecycle.Closing?
    ensures Next(Bare(Marking(target, exit), lifecycle, sealed, bytes), Mark,
                 Bare(Sealing(exit), target, sealed, bytes), limits)
  {
  }

  lemma SealStep(exit: DriverExit, lifecycle: Lifecycle, sealed: bool, bytes: seq<Byte>, limits: Limits)
    ensures Next(Bare(Sealing(exit), lifecycle, sealed, bytes), Seal,
                 Bare(if exit.ExitClosed? then ShuttingTransport else Ended(exit), lifecycle, true, bytes), limits)
  {
  }

  lemma FailedShutStep(lifecycle: Lifecycle, limits: Limits)
    requires !lifecycle.Usable?
    ensures Next(Bare(ShuttingTransport, lifecycle, true, []), TransportShut(false),
                 Bare(Ended(ExitFailed), if lifecycle.Closing? then Failed else lifecycle, true, []), limits)
  {
  }

  /** A step of the driver is a step of a connection without commands. */
  lemma Drives(
    d: State, e: Event, d': State, maximum: nat, closers: map<nat, CloserStage>, handle: bool, limits: Limits)
    requires Next(d, e, d', limits) && !e.Accept? && !e.Outside?
    ensures Move(Idle(d, maximum, closers, handle), Drive(e), Idle(d', maximum, closers, handle), limits)
  {
  }

  /** Joins one step of the driver to a history. */
  lemma DriveOn(
    worlds: seq<World>, actions: seq<Action>, d: State, e: Event, d': State, limits: Limits, maximum: nat,
    closers: map<nat, CloserStage>)
    returns (more: seq<World>, acts: seq<Action>)
    requires IsHistory(worlds, actions, limits, maximum) && worlds[|actions|] == Idle(d, maximum, closers, true)
    requires Next(d, e, d', limits) && !e.Accept? && !e.Outside?
    ensures IsHistory(more, acts, limits, maximum)
    ensures more == worlds + [Idle(d', maximum, closers, true)] && acts == actions + [Drive(e)]
  {
    Drives(d, e, d', maximum, closers, true, limits);
    more, acts := Then(worlds, actions, Drive(e), Idle(d', maximum, closers, true), limits, maximum);
  }

  /** The driver's two writes once it has failed every waiter. */
  lemma MarksAndSeals(
    worlds: seq<World>, actions: seq<Action>, target: Lifecycle, exit: DriverExit, lifecycle: Lifecycle, sealed: bool,
    bytes: seq<Byte>, limits: Limits, maximum: nat, closers: map<nat, CloserStage>)
    returns (more: seq<World>, acts: seq<Action>)
    requires IsHistory(worlds, actions, limits, maximum) && (lifecycle.Usable? || lifecycle.Closing?)
    requires worlds[|actions|] == Idle(Bare(Marking(target, exit), lifecycle, sealed, bytes), maximum, closers, true)
    ensures IsHistory(more, acts, limits, maximum) && |more| == |worlds| + 2
    ensures more[|worlds|].driver.lifecycle == target
    ensures more[|worlds| + 1]
            == Idle(Bare(if exit.ExitClosed? then ShuttingTransport else Ended(exit), target, true, bytes), maximum,
                    closers, true)
  {
    var d0, d1 := Bare(Marking(target, exit), lifecycle, sealed, bytes), Bare(Sealing(exit), target, sealed, bytes);
    var d2 := Bare(if exit.ExitClosed? then ShuttingTransport else Ended(exit), target, true, bytes);
    MarkStep(target, exit, lifecycle, sealed, bytes, limits);
    SealStep(exit, target, sealed, bytes, limits);
    more, acts := DriveOn(worlds, actions, d0, Mark, d1, limits, maximum, closers);
    more, acts := DriveOn(more, acts, d1, Seal, d2, limits, maximum, closers);
  }

  /** A shutdown request up to the shutdown of the transport. */
  lemma ShutsDown(
    worlds: seq<World>, actions: seq<Action>, sealed: bool, limits: Limits, maximum: nat,
    closers: map<nat, CloserStage>)
    returns (more: seq<World>, acts: seq<Action>)
    requires IsHistory(worlds, actions, limits, maximum)
    requires worlds[|actions|] == Idle(Bare(Running, Closing, sealed, []), maximum, closers, true)
    ensures IsHistory(more, acts, limits, maximum) && |more| == |worlds| + 3
    ensures more[|worlds| + 1].driver.lifecycle == Closed
    ensures more[|worlds| + 2] == Idle(Bare(ShuttingTransport, Closed, true, []), maximum, closers, true)
  {
    var d0, d1 := Bare(Running, Closing, sealed, []), Bare(Marking(Closed, ExitClosed), Closing, sealed, []);
    ShutdownStep(Closing, sealed, limits);
    more, acts := DriveOn(worlds, actions, d0, Shutdown, d1, limits, maximum, closers);
    more, acts := MarksAndSeals(more, acts, Closed, ExitClosed, Closing, sealed, [], limits, maximum, closers);
  }

  /** A fatal frame up to the driver's return. */
  lemma EndsUnusable(
    worlds: seq<World>, actions: seq<Action>, bytes: seq<Byte>, limits: Limits, maximum: nat,
    closers: map<nat, CloserStage>)
    returns (more: seq<World>, acts: seq<Action>)
    requires IsHistory(worlds, actions, limits, maximum) && |bytes| == HEADER_LENGTH && bytes[0] != 0
    requires worlds[|actions|] == Idle(Bare(Running, Usable, false, []), maximum, closers, true)
    ensures IsHistory(more, acts, limits, maximum) && |more| == |worlds| + 3
    ensures more[|worlds| + 2] == Idle(Bare(Ended(ExitUnusable), Unusable, true, bytes), maximum, closers, true)
  {
    var d0, d1 := Bare(Running, Usable, false, []), Bare(Marking(Unusable, ExitUnusable), Usable, false, bytes);
    FatalRead(bytes, limits);
    more, acts := DriveOn(worlds, actions, d0, Chunk(bytes), d1, limits, maximum, closers);
    more, acts := MarksAndSeals(more, acts, Unusable, ExitUnusable, Usable, false, bytes, limits, maximum, closers);
  }

  /** Joins one step to a history. */
  lemma Then(
    worlds: seq<World>, actions: seq<Action>, a: Action, w: World, limits: Limits, maximum: nat)
    returns (more: seq<World>, acts: seq<Action>)
    requires IsHistory(worlds, actions, limits, maximum) && Move(worlds[|actions|], a, w, limits)
    ensures IsHistory(more, acts, limits, maximum) && more == worlds + [w] && acts == actions + [a]
  {
    HistoryExtend(worlds, actions, a, w, limits, maximum);
    more, acts := worlds + [w], actions + [a];
  }

  lemma Opens(limits: Limits, maximum: nat) returns (worlds: seq<World>, actions: seq<Action>)
    ensures IsHistory(worlds, actions, limits, maximum) && actions == []
    ensures worlds == [Idle(Bare(Running, Usable, false, []), maximum, map[], true)]
  {
    worlds, actions := [Idle(Bare(Running, Usable, false, []), maximum, map[], true)], [];
  }

  /** A closer joins a driver whose return leaves the state as it is. */
  lemma Finishes(worlds: seq<World>, actions: seq<Action>, d: State, limits: Limits, maximum: nat)
    returns (more: seq<World>, acts: seq<Action>)
    requires IsHistory(worlds, actions, limits, maximum)
    requires worlds[|actions|] == Idle(d, maximum, map[0 := WithDriver], true)
    requires d.progress.Ended? && (!d.lifecycle.Closing? || d.progress.final.ExitUnusable?)
    ensures IsHistory(more, acts, limits, maximum) && |more| == |worlds| + 2
    ensures more[..|worlds|] == worlds && acts[..|actions|] == actions
    ensures more[|worlds| + 1] == Idle(d, maximum, map[0 := Done], false)
  {
    more, acts := Then(worlds, actions, Close(TakeHandle(0)), Idle(d, maximum, map[0 := Joining], false),
                       limits, maximum);
    more, acts := Then(more, acts, Close(FinishClose(0)), Idle(d, maximum, map[0 := Done], false), limits, maximum);
  }

  /** A closer passes its check, and then the driver meets a fatal frame and returns. */
  lemma FatalAfterCheck(limits: Limits, maximum: nat, bytes: seq<Byte>)
    returns (worlds: seq<World>, actions: seq<Action>)
    requires |bytes| == HEADER_LENGTH && bytes[0] != 0
    ensures IsHistory(worlds, actions, limits, maximum) && |worlds| == 5
    ensures worlds[4] == Idle(Bare(Ended(ExitUnusable), Unusable, true, bytes), maximum, map[0 := Passed], true)
  {
    worlds, actions := Opens(limits, maximum);
    worlds, actions := Then(worlds, actions, Close(CheckClosed(0)),
                            Idle(Bare(Running, Usable, false, []), maximum, map[0 := Passed], true), limits, maximum);
    worlds, actions := EndsUnusable(worlds, actions, bytes, limits, maximum, map[0 := Passed]);
  }

  /** Terminal states do not absorb: a closer that passes its check before a fatal frame, and begins
      after it, takes the connection from Unusable back to Closing, where it stays although the
      driver has returned and the close has finished. */
  lemma TerminalStateLost(limits: Limits, maximum: nat, bytes: seq<Byte>)
    returns (worlds: seq<World>, actions: seq<Action>)
    requires |bytes| == HEADER_LENGTH && bytes[0] != 0
    ensures IsHistory(worlds, actions, limits, maximum) && |worlds| == 10
    ensures worlds[4].driver.progress.Ended? && worlds[4].driver.lifecycle == Unusable
    ensures worlds[9].closers == map[0 := Done] && worlds[9].driver.lifecycle == Closing
  {
    worlds, actions := FatalAfterCheck(limits, maximum, bytes);
    var d := Bare(Ended(ExitUnusable), Closing, true, bytes);
    worlds, actions := Then(worlds, actions, Close(BeginClosing(0)),
                            Idle(d, maximum, map[0 := Begun], true), limits, maximum);
    worlds, actions := Then(worlds, actions, Close(SealAdmission(0)),
                            Idle(d, maximum, map[0 := Sealed], true), limits, maximum);
    worlds, actions := Then(worlds, actions, Close(Route(0)),
                            Idle(d, maximum, map[0 := WithDriver], true), limits, maximum);
    worlds, actions := Finishes(worlds, actions, d, limits, maximum);
  }

  // ---------------------------------------------------------------- a shutdown that fails

  /** A lone closer reaches the driver. */
  lemma LoneCloser(limits: Limits, maximum: nat) returns (worlds: seq<World>, actions: seq<Action>)
    ensures IsHistory(worlds, actions, limits, maximum) && |worlds| == 5
    ensures worlds[4] == Idle(Bare(Running, Closing, true, []), maximum, map[0 := WithDriver], true)
  {
    worlds, actions := Opens(limits, maximum);
    worlds, actions := Then(worlds, actions, Close(CheckClosed(0)),
                            Idle(Bare(Running, Usable, false, []), maximum, map[0 := Passed], true), limits, maximum);
    worlds, actions := Then(worlds, actions, Close(BeginClosing(0)),
                            Idle(Bare(Running, Closing, false, []), maximum, map[0 := Begun], true), limits, maximum);
    worlds, actions := Then(worlds, actions, Close(SealAdmission(0)),
                            Idle(Bare(Running, Closing, true, []), maximum, map[0 := Sealed], true), limits, maximum);
    worlds, actions := Then(worlds, actions, Close(Route(0)),
                            Idle(Bare(Running, Closing, true, []), maximum, map[0 := WithDriver], true),
                            limits, maximum);
  }

  /** One closer, and a transport whose shutdown fails: the driver reports the failure, the close
      finishes, and the connection is left Closed. */
  lemma FailureUnseen(limits: Limits, maximum: nat) returns (worlds: seq<World>, actions: seq<Action>)
    ensures IsHistory(worlds, actions, limits, maximum) && |worlds| == 11
    ensures actions[7] == Drive(TransportShut(false)) && worlds[8].driver.progress == Ended(ExitFailed)
    ensures worlds[10].closers == map[0 := Done] && worlds[10].driver.lifecycle == Closed
  {
    var closers, d := map[0 := WithDriver], Bare(Ended(ExitFailed), Closed, true, []);
    worlds, actions := LoneCloser(limits, maximum);
    worlds, actions := ShutsDown(worlds, actions, true, limits, maximum, closers);
    FailedShutStep(Closed, limits);
    worlds, actions := DriveOn(worlds, actions, Bare(ShuttingTransport, Closed, true, []), TransportShut(false), d,
                               limits, maximum, closers);
    worlds, actions := Finishes(worlds, actions, d, limits, maximum);
  }

  /** Two closers pass their check, and one of them begins. */
  lemma TwoClosers(limits: Limits, maximum: nat) returns (worlds: seq<World>, actions: seq<Action>)
    ensures IsHistory(worlds, actions, limits, maximum) && |worlds| == 4
    ensures worlds[3] == Idle(Bare(Running, Closing, false, []), maximum, map[0 := Begun, 1 := Passed], true)
  {
    worlds, actions := Opens(limits, maximum);
    var d := Bare(Running, Usable, false, []);
    worlds, actions := Then(worlds, actions, Close(CheckClosed(0)), Idle(d, maximum, map[0 := Passed], true),
                            limits, maximum);
    worlds, actions := Then(worlds, actions, Close(CheckClosed(1)),
                            Idle(d, maximum, map[0 := Passed, 1 := Passed], true), limits, maximum);
    worlds, actions := Then(worlds, actions, Close(BeginClosing(0)),
                            Idle(Bare(Running, Closing, false, []), maximum, map[0 := Begun, 1 := Passed], true),
                            limits, maximum);
  }

  /** The closer that began reaches the driver; the other one has still to begin. */
  lemma OneBehind(limits: Limits, maximum: nat) returns (worlds: seq<World>, actions: seq<Action>)
    ensures IsHistory(worlds, actions, limits, maximum) && |worlds| == 6
    ensures worlds[5] == Idle(Bare(Running, Closing, true, []), maximum, map[0 := WithDriver, 1 := Passed], true)
  {
    worlds, actions := TwoClosers(limits, maximum);
    var d := Bare(Running, Closing, true, []);
    worlds, actions := Then(worlds, actions, Close(SealAdmission(0)),
                            Idle(d, maximum, map[0 := Sealed, 1 := Passed], true), limits, maximum);
    worlds, actions := Then(worlds, actions, Close(Route(0)),
                            Idle(d, maximum, map[0 := WithDriver, 1 := Passed], true), limits, maximum);
  }

  /** The driver is shut down while the other closer has still to begin. */
  lemma ShutOneBehind(limits: Limits, maximum: nat) returns (worlds: seq<World>, actions: seq<Action>)
    ensures IsHistory(worlds, actions, limits, maximum) && |worlds| == 9
    ensures worlds[8]
            == Idle(Bare(ShuttingTransport, Closed, true, []), maximum, map[0 := WithDriver, 1 := Passed], true)
  {
    worlds, actions := OneBehind(limits, maximum);
    worlds, actions := ShutsDown(worlds, actions, true, limits, maximum, map[0 := WithDriver, 1 := Passed]);
  }

  /** The other closer begins, and then the transport shutdown fails. */
  lemma EndedBothBegun(limits: Limits, maximum: nat) returns (worlds: seq<World>, actions: seq<Action>)
    ensures IsHistory(worlds, actions, limits, maximum) && |worlds| == 11
    ensures worlds[8].driver.lifecycle == Closed && actions[8] == Close(BeginClosing(1))
    ensures actions[9] == Drive(TransportShut(false))
    ensures worlds[10]
            == Idle(Bare(Ended(ExitFailed), Failed, true, []), maximum, map[0 := WithDriver, 1 := Begun], true)
  {
    worlds, actions := ShutOneBehind(limits, maximum);
    var both, d := map[0 := WithDriver, 1 := Begun], Bare(ShuttingTransport, Closing, true, []);
    worlds, actions := Then(worlds, actions, Close(BeginClosing(1)), Idle(d, maximum, both, true), limits, maximum);
    FailedShutStep(Closing, limits);
    worlds, actions := DriveOn(worlds, actions, d, TransportShut(false), Bare(Ended(ExitFailed), Failed, true, []),
                               limits, maximum, both);
  }

  /** The second closer begins after the driver has marked the session Closed and before the transport
      shutdown fails: the finished close leaves Failed. */
  lemma FailureSeen(limits: Limits, maximum: nat) returns (worlds: seq<World>, actions: seq<Action>)
    ensures IsHistory(worlds, actions, limits, maximum) && |worlds| == 13
    ensures worlds[8].driver.lifecycle == Closed && actions[8] == Close(BeginClosing(1))
    ensures actions[9] == Drive(TransportShut(false)) && actions[11] == Close(FinishClose(0))
    ensures worlds[12].closers == map[0 := Done, 1 := Begun] && worlds[12].driver.lifecycle == Failed
  {
    worlds, actions := EndedBothBegun(limits, maximum);
    var ended := Bare(Ended(ExitFailed), Failed, true, []);
    worlds, actions := Then(worlds, actions, Close(TakeHandle(0)),
                            Idle(ended, maximum, map[0 := Joining, 1 := Begun], false), limits, maximum);
    worlds, actions := Then(worlds, actions, Close(FinishClose(0)),
                            Idle(ended, maximum, map[0 := Done, 1 := Begun], false), limits, maximum);
  }

  /** The transport shutdown fails, and the closer joins the driver, while the other has still to begin. */
  lemma EndedOneBehind(limits: Limits, maximum: nat) returns (worlds: seq<World>, actions: seq<Action>)
    ensures IsHistory(worlds, actions, limits, maximum) && |worlds| == 11
    ensures worlds[8].driver.lifecycle == Closed && actions[8] == Drive(TransportShut(false))
    ensures worlds[9].driver.lifecycle == Closed
    ensures worlds[10]
            == Idle(Bare(Ended(ExitFailed), Closed, true, []), maximum, map[0 := Joining, 1 := Passed], false)
  {
    worlds, actions := ShutOneBehind(limits, maximum);
    var ended := Bare(Ended(ExitFailed), Closed, true, []);
    FailedShutStep(Closed, limits);
    worlds, actions := DriveOn(worlds, actions, Bare(ShuttingTransport, Closed, true, []), TransportShut(false), ended,
                               limits, maximum, map[0 := WithDriver, 1 := Passed]);
    worlds, actions := Then(worlds, actions, Close(TakeHandle(0)),
                            Idle(ended, maximum, map[0 := Joining, 1 := Passed], false), limits, maximum);
  }

  /** The second closer begins only after the transport shutdown has failed: the driver leaves Closed,
      and the finished close leaves Failed all the same. */
  lemma FailureSeenLate(limits: Limits, maximum: nat) returns (worlds: seq<World>, actions: seq<Action>)
    ensures IsHistory(worlds, actions, limits, maximum) && |worlds| == 13
    ensures worlds[8].driver.lifecycle == worlds[9].driver.lifecycle == Closed
    ensures actions[8] == Drive(TransportShut(false)) && actions[10] == Close(BeginClosing(1))
    ensures actions[11] == Close(FinishClose(0))
    ensures worlds[12].closers == map[0 := Done, 1 := Begun] && worlds[12].driver.lifecycle == Failed
  {
    worlds, actions := EndedOneBehind(limits, maximum);
    worlds, actions := Then(worlds, actions, Close(BeginClosing(1)),
                            Idle(Bare(Ended(ExitFailed), Closing, true, []), maximum,
                                 map[0 := Joining, 1 := Begun], false), limits, maximum);
    worlds, actions := Then(worlds, actions, Close(FinishClose(0)),
                            Idle(Bare(Ended(ExitFailed), Failed, true, []), maximum,
                                 map[0 := Done, 1 := Begun], false), limits, maximum);
  }
}
