/** What becomes of every command: no request is lost, none is stuck once the driver has returned, and
    one that is turned away is told why the connection ended. */
module Fates {
  import opened Protocol
  import opened Driver
  import opened Stops
  import opened Connection
  import opened Interleaving
  import opened Terminal
  import Command

  // ---------------------------------------------------------------- no request is lost

  predicate Queued(w: World, c: nat) {
    exists i :: 0 <= i < |w.queue| && w.queue[i].caller == c
  }

  /** A waiting command's request is in the queue, was taken by the driver, or went with it. */
  predicate Held(w: World, c: nat) {
    Queued(w, c) || c in w.owner || Returned(w.driver)
  }

  predicate NoneLost(w: World) {
    && |w.queue| <= 64
    && forall c | c in w.callers && w.callers[c].Waiting? :: Held(w, c)
  }

  lemma NoneLostCaller(w: World, a: CallerAction, w': World, limits: Limits)
    requires NoneLost(w) && CallerMove(w, a, w', limits)
    ensures NoneLost(w')
  {
    forall c | c in w'.callers && w'.callers[c].Waiting? ensures Held(w', c) {
      if c != a.c || !a.Send? {
        assert c in w.callers && w.callers[c].Waiting?;
        if i :| 0 <= i < |w.queue| && w.queue[i].caller == c { assert w'.queue[i] == w.queue[i]; }
      } else {
        assert w'.queue[|w.queue|].caller == c;
      }
    }
  }

  lemma NoneLostDriver(w: World, e: Event, w': World, limits: Limits)
    requires NoneLost(w) && DriverMove(w, e, w', limits)
    ensures NoneLost(w')
  {
    forall c | c in w'.callers && w'.callers[c].Waiting? ensures Held(w', c) {
      assert Held(w, c);
      if i :| 0 <= i < |w.queue| && w.queue[i].caller == c {
        if !Returned(w'.driver) { QueueMoves(w, e, w', i); }
      }
    }
  }

  lemma QueueMoves(w: World, e: Event, w': World, i: nat)
    requires i < |w.queue| && w'.queue == (if e.Accept? then w.queue[1..] else w.queue)
    requires w'.owner == if e.Accept? then w.owner + [w.queue[0].caller] else w.owner
    ensures Queued(w', w.queue[i].caller) || w.queue[i].caller in w'.owner
  {
    if !e.Accept? {
      assert w'.queue[i] == w.queue[i];
    } else if i > 0 {
      assert w'.queue[i - 1] == w.queue[i];
    }
  }

  lemma NoneLostMove(w: World, a: Action, w': World, limits: Limits)
    requires NoneLost(w) && Move(w, a, w', limits)
    ensures NoneLost(w')
  {
    match a
    case Call(caller) => NoneLostCaller(w, caller, w', limits);
    case Drive(event) => NoneLostDriver(w, event, w', limits);
    case Close(closer) => NoneLostCloser(w, closer, w');
  }

  lemma NoneLostCloser(w: World, a: CloserAction, w': World)
    requires NoneLost(w) && CloserMove(w, a, w')
    ensures NoneLost(w')
  {
    CloserApart(w, a, w');
    assert w'.queue == w.queue && w'.owner == w.owner && Returned(w'.driver) == Returned(w.driver);
    forall c | c in w'.callers && w'.callers[c].Waiting? ensures Held(w', c) { assert Held(w, c); }
  }

  /** In every history the channel holds at most 64 submissions, and every waiting command's request is in
      it, was taken by the driver, or was dropped with it. */
  lemma {:induction false} NoRequestLost(
    worlds: seq<World>, actions: seq<Action>, limits: Limits, maximum: nat, n: nat)
    requires IsHistory(worlds, actions, limits, maximum) && n < |worlds|
    ensures NoneLost(worlds[n])
    decreases n
  {
    if n > 0 {
      NoRequestLost(worlds, actions, limits, maximum, n - 1);
      HistoryMove(worlds, actions, limits, maximum, n);
      NoneLostMove(worlds[n - 1], actions[n - 1], worlds[n], limits);
    }
  }

  // ---------------------------------------------------------------- none is stuck

  lemma TakenResolved(d: State, limits: Limits, t: nat)
    requires Inv(d, limits) && Returned(d) && t < |d.accepted|
    ensures Resolved(d.session.log, t)
  {
    OncePerTicket(d, t);
  }

  lemma TakenIsSent(w: World, limits: Limits, maximum: nat, c: nat) returns (at: nat)
    requires WorldInv(w, limits, maximum) && Returned(w.driver) && c in w.owner
    ensures var log := w.driver.session.log;
            at < |log| && log[at].ticket < |w.owner| && w.owner[log[at].ticket] == c
  {
    var t :| 0 <= t < |w.owner| && w.owner[t] == c;
    var s := w.driver.session;
    assert Resolved(s.log, t) by { TakenResolved(w.driver, limits, t); }
    at :| 0 <= at < |s.log| && s.log[at].ticket == t;
  }

  /** In every history, once the driver has returned, every command that still waits can stop waiting at
      once: with the answer sent to its own request if the driver took it, and with the error of the
      connection's state if it did not. */
  lemma NoneStuck(worlds: seq<World>, actions: seq<Action>, limits: Limits, maximum: nat, n: nat, c: nat)
    returns (a: CallerAction, next: World)
    requires IsHistory(worlds, actions, limits, maximum) && n < |worlds| && Returned(worlds[n].driver)
    requires c in worlds[n].callers && worlds[n].callers[c].Waiting?
    ensures CallerMove(worlds[n], a, next, limits) && c in next.callers
    ensures c in worlds[n].owner <==> next.callers[c].Answered?
    ensures c !in worlds[n].owner <==> next.callers[c].Rejected?
  {
    HistoryKeeps(worlds, actions, limits, maximum, n);
    var w := worlds[n];
    if c in w.owner {
      var at := TakenIsSent(w, limits, maximum, c);
      a := Receive(c, at);
      next := Put(w, c, Answered(w.callers[c].k, w.driver.session.log[at].outcome)).(available := w.available + 1);
    } else {
      a := NoAnswer(c);
      next := Put(w, c, Rejected(StateError(w.driver.lifecycle))).(available := w.available + 1);
    }
  }

  // ---------------------------------------------------------------- the gate

  /** Admission is closed only once the connection has left Usable, and a closer that has passed a point
      has left its mark. */
  predicate Gate(w: World) {
    && (w.driver.admissionClosed ==> !w.driver.lifecycle.Usable?)
    && (forall q | q in w.closers && w.closers[q].Begun? :: !w.driver.lifecycle.Usable?)
    && (forall q | q in w.closers && w.closers[q] in {Sealed, WithDriver, Joining, Driverless} ::
          w.driver.admissionClosed)
  }

  lemma GateDriver(w: World, e: Event, w': World, limits: Limits)
    requires Gate(w) && Inv(w.driver, limits) && DriverMove(w, e, w', limits)
    ensures Gate(w') && (w.driver.admissionClosed ==> w'.driver.admissionClosed)
  {
    LifecycleStep(w.driver, e, w'.driver, limits);
  }

  lemma GateCloser(w: World, a: CloserAction, w': World)
    requires Gate(w) && CloserMove(w, a, w')
    ensures Gate(w') && (w.driver.admissionClosed ==> w'.driver.admissionClosed)
  {
  }

  lemma GateMove(w: World, a: Action, w': World, limits: Limits)
    requires Gate(w) && Inv(w.driver, limits) && Move(w, a, w', limits)
    ensures Gate(w') && (w.driver.admissionClosed ==> w'.driver.admissionClosed)
  {
    match a
    case Call(caller) => CallerApart(w, caller, w', limits);
    case Drive(event) => GateDriver(w, event, w', limits);
    case Close(closer) => GateCloser(w, closer, w');
  }

  lemma {:induction false} GateHistory(
    worlds: seq<World>, actions: seq<Action>, limits: Limits, maximum: nat, n: nat)
    requires IsHistory(worlds, actions, limits, maximum) && n < |worlds|
    ensures Gate(worlds[n])
    decreases n
  {
    if n > 0 {
      GateHistory(worlds, actions, limits, maximum, n - 1);
      DriverInv(worlds, actions, limits, maximum, n - 1);
      HistoryMove(worlds, actions, limits, maximum, n);
      GateMove(worlds[n - 1], actions[n - 1], worlds[n], limits);
    }
  }

  /** In every history, from the step on which a closer or the driver closes admission, admission stays
      closed, the connection stays out of Usable, and no command is given a permit: one that holds a
      permit and no id held it before. */
  lemma {:induction false} NoPermitAfter(
    worlds: seq<World>, actions: seq<Action>, limits: Limits, maximum: nat, i: nat, n: nat)
    requires IsHistory(worlds, actions, limits, maximum) && i < n < |worlds|
    requires actions[i] == Drive(Seal) || (actions[i].Close? && actions[i].closer.SealAdmission?)
    ensures worlds[n].driver.admissionClosed && !worlds[n].driver.lifecycle.Usable?
    ensures NoneGranted(worlds[i], worlds[n])
    decreases n
  {
    if n == i + 1 {
      HistoryMove(worlds, actions, limits, maximum, n);
      SealCloses(worlds[i], actions[i], worlds[n], limits);
    } else {
      NoPermitAfter(worlds, actions, limits, maximum, i, n - 1);
      StaysShut(worlds, actions, limits, maximum, n - 1);
      GrantsNone(worlds[i], worlds[n - 1], worlds[n]);
    }
    ShutIsOut(worlds, actions, limits, maximum, n);
  }

  lemma ShutIsOut(worlds: seq<World>, actions: seq<Action>, limits: Limits, maximum: nat, n: nat)
    requires IsHistory(worlds, actions, limits, maximum) && n < |worlds|
    ensures worlds[n].driver.admissionClosed ==> !worlds[n].driver.lifecycle.Usable?
  {
    GateHistory(worlds, actions, limits, maximum, n);
  }

  lemma StaysShut(worlds: seq<World>, actions: seq<Action>, limits: Limits, maximum: nat, n: nat)
    requires IsHistory(worlds, actions, limits, maximum) && n < |actions| && worlds[n].driver.admissionClosed
    ensures worlds[n + 1].driver.admissionClosed && NoneGranted(worlds[n], worlds[n + 1])
  {
    GateHistory(worlds, actions, limits, maximum, n);
    DriverInv(worlds, actions, limits, maximum, n);
    HistoryMove(worlds, actions, limits, maximum, n + 1);
    GateMove(worlds[n], actions[n], worlds[n + 1], limits);
    ShutGrantsNone(worlds[n], actions[n], worlds[n + 1], limits);
  }

  /** Who holds a permit and no id held it before. */
  predicate NoneGranted(w: World, w': World) {
    forall c | c in w'.callers && w'.callers[c].Holding? :: c in w.callers && w.callers[c].Holding?
  }

  lemma GrantsNone(a: World, b: World, c: World)
    requires NoneGranted(a, b) && NoneGranted(b, c)
    ensures NoneGranted(a, c)
  {
  }

  lemma SealCloses(w: World, a: Action, w': World, limits: Limits)
    requires Move(w, a, w', limits)
    requires a == Drive(Seal) || (a.Close? && a.closer.SealAdmission?)
    ensures w'.driver.admissionClosed && NoneGranted(w, w')
  {
  }

  lemma ShutGrantsNone(w: World, a: Action, w': World, limits: Limits)
    requires w.driver.admissionClosed && Move(w, a, w', limits)
    ensures NoneGranted(w, w')
  {
    match a
    case Call(caller) => ShutCaller(w, caller, w', limits);
    case _ => OthersKeepCallers(w, a, w', limits);
  }

  lemma ShutCaller(w: World, a: CallerAction, w': World, limits: Limits)
    requires w.driver.admissionClosed && CallerMove(w, a, w', limits)
    ensures NoneGranted(w, w')
  {
  }

  // ---------------------------------------------------------------- a close that has nothing to do

  lemma StageKept(w: World, a: Action, w': World, limits: Limits, q: nat)
    requires Move(w, a, w', limits) && q in w.closers && (w.closers[q].Done? || w.closers[q].Passed?)
    ensures q in w'.closers && (a != Close(BeginClosing(q)) ==> w'.closers[q] == w.closers[q])
  {
    match a
    case Call(caller) => CallerApart(w, caller, w', limits);
    case Drive(_) =>
    case Close(closer) => CloserStageKept(w, closer, w', q);
  }

  lemma CloserStageKept(w: World, a: CloserAction, w': World, q: nat)
    requires CloserMove(w, a, w') && q in w.closers && (w.closers[q].Done? || w.closers[q].Passed?)
    ensures q in w'.closers && (a != BeginClosing(q) ==> w'.closers[q] == w.closers[q])
  {
  }

  /** In every history, a close that has made its check and not begun has returned if the connection was
      Closed, Failed or Unusable at the check, and will go on, also over Closing, if it was not. */
  lemma {:induction false} ReturnsAtOnceExactly(
    worlds: seq<World>, actions: seq<Action>, limits: Limits, maximum: nat, i: nat, n: nat, q: nat)
    requires IsHistory(worlds, actions, limits, maximum) && i < n < |worlds|
    requires actions[i] == Close(CheckClosed(q)) && Close(BeginClosing(q)) !in actions[i..n]
    ensures q in worlds[n].closers
    ensures var l := worlds[i].driver.lifecycle;
            worlds[n].closers[q] == if l.Closed? || l.Failed? || l.Unusable? then Done else Passed
    decreases n
  {
    HistoryMove(worlds, actions, limits, maximum, n);
    if n > i + 1 {
      assert actions[i..n] == actions[i..n - 1] + [actions[n - 1]];
      ReturnsAtOnceExactly(worlds, actions, limits, maximum, i, n - 1, q);
      StageKept(worlds[n - 1], actions[n - 1], worlds[n], limits, q);
    }
  }

  // ---------------------------------------------------------------- what a command turned away is told

  /** Command `c` is turned away by this step. */
  predicate TurnsAway(w: World, w': World, c: nat) {
    c in w'.callers && w'.callers[c].Rejected? && (c in w.callers ==> !w.callers[c].Rejected?)
  }

  lemma TurnedAwayBy(w: World, a: Action, w': World, limits: Limits, c: nat)
    requires Move(w, a, w', limits) && TurnsAway(w, w', c)
    ensures w'.callers[c] == Rejected(StateError(w.driver.lifecycle))
    ensures w.driver.lifecycle.Usable? ==> w.driver.admissionClosed || Returned(w.driver)
  {
    match a
    case Call(caller) => CallerTurned(w, caller, w', limits, c);
    case _ => OthersKeepCallers(w, a, w', limits);
  }

  lemma CallerTurned(w: World, a: CallerAction, w': World, limits: Limits, c: nat)
    requires CallerMove(w, a, w', limits) && TurnsAway(w, w', c)
    ensures w'.callers[c] == Rejected(StateError(w.driver.lifecycle))
    ensures w.driver.lifecycle.Usable? ==> w.driver.admissionClosed || Returned(w.driver)
  {
    CallerIndex(w, a, w', limits);
    assert c == a.c;
  }

  /** Only a command's own steps change where commands stand. */
  lemma OthersKeepCallers(w: World, a: Action, w': World, limits: Limits)
    requires Move(w, a, w', limits) && !a.Call?
    ensures w'.callers == w.callers
  {
  }

  /** In every history, a command that is turned away is told that the connection is closed exactly when
      it is Closing or Closed, that the transport was lost exactly when it has Failed, and that it is
      unusable otherwise; it is still Usable only if its driver ran dry. */
  lemma TurnedAwayExactly(worlds: seq<World>, actions: seq<Action>, limits: Limits, maximum: nat, n: nat, c: nat)
    requires IsHistory(worlds, actions, limits, maximum) && n < |actions| && TurnsAway(worlds[n], worlds[n + 1], c)
    ensures var l, told := worlds[n].driver.lifecycle, worlds[n + 1].callers[c].error;
            && (told == Command.ConnectionClosed <==> l.Closing? || l.Closed?)
            && (told == Command.TransportLost <==> l.Failed?)
            && (told == Command.ConnectionUnusable <==> l.Unusable? || l.Usable?)
            && (l.Usable? ==> worlds[n].driver.progress.RanDry?)
  {
    HistoryMove(worlds, actions, limits, maximum, n + 1);
    TurnedAwayBy(worlds[n], actions[n], worlds[n + 1], limits, c);
    GateHistory(worlds, actions, limits, maximum, n);
    DriverInv(worlds, actions, limits, maximum, n);
  }

  // ---------------------------------------------------------------- from the stop to what later commands hear

  lemma OnwardMove(
    w: World, a: Action, w': World, target: Lifecycle, exit: DriverExit, broke: bool, limits: Limits)
    requires Onward(w.driver.progress, target, exit, broke) && Move(w, a, w', limits)
    ensures Onward(w'.driver.progress, target, exit, broke || a == Drive(TransportShut(false)))
  {
    match a
    case Call(caller) => CallerApart(w, caller, w', limits);
    case Drive(event) => OnwardStep(w.driver, event, w'.driver, target, exit, broke, limits);
    case Close(closer) =>
  }

  /** The step of a history that stops a running driver. */
  ghost predicate StopsAt(worlds: seq<World>, actions: seq<Action>, at: nat)
    requires |worlds| == |actions| + 1
  {
    && at < |actions| && actions[at].Drive?
    && worlds[at].driver.progress.Running? && Stopped(worlds[at + 1].driver)
  }

  lemma {:induction false} StopLeadsOn(
    worlds: seq<World>, actions: seq<Action>, limits: Limits, maximum: nat, at: nat, n: nat)
    requires IsHistory(worlds, actions, limits, maximum) && at < n < |worlds| && StopsAt(worlds, actions, at)
    ensures var d, e := worlds[at].driver, actions[at].event;
            Onward(worlds[n].driver.progress, StopState(d, e), StopExit(d, e),
                   Drive(TransportShut(false)) in actions[at + 1..n])
    decreases n
  {
    HistoryMove(worlds, actions, limits, maximum, n);
    var d, e := worlds[at].driver, actions[at].event;
    if n == at + 1 {
      StopStep(d, e, worlds[n].driver, limits);
    } else {
      StopLeadsOn(worlds, actions, limits, maximum, at, n - 1);
      OnwardMove(worlds[n - 1], actions[n - 1], worlds[n], StopState(d, e), StopExit(d, e),
                 Drive(TransportShut(false)) in actions[at + 1..n - 1], limits);
      assert actions[at + 1..n] == actions[at + 1..n - 1] + [actions[n - 1]];
    }
  }

  /** In every history in which the driver stops at `at` and marks the connection at `m`, over Usable or
      Closing and with no closer left that can overwrite the mark, every command turned away later is
      told the same: that the connection is closed after a shutdown, that the transport was lost after
      the end of the stream or a write that fell short, and that the connection is unusable after an id
      that could not be taken or a frame that ended the session. */
  lemma ToldByCause(
    worlds: seq<World>, actions: seq<Action>, limits: Limits, maximum: nat, at: nat, m: nat, n: nat, c: nat)
    requires IsHistory(worlds, actions, limits, maximum) && at < m < n < |actions| && StopsAt(worlds, actions, at)
    requires actions[m] == Drive(Mark) && !CanLose(worlds[m + 1])
    requires worlds[m].driver.lifecycle.Usable? || worlds[m].driver.lifecycle.Closing?
    requires TurnsAway(worlds[n], worlds[n + 1], c)
    ensures worlds[n + 1].callers[c].error
            == match actions[at].event
               case Shutdown => Command.ConnectionClosed
               case StreamEnd => Command.TransportLost
               case Accept(id, _, _) =>
                 if id == 0 || id in worlds[at].driver.session.live then Command.ConnectionUnusable
                 else Command.TransportLost
               case _ => Command.ConnectionUnusable
  {
    MarkedByCause(worlds, actions, limits, maximum, at, m);
    KeptPath(worlds, actions, limits, m + 1, n);
    HistoryMove(worlds, actions, limits, maximum, n + 1);
    TurnedAwayBy(worlds[n], actions[n], worlds[n + 1], limits, c);
    assert worlds[n + 1].callers[c].error == StateError(StopState(worlds[at].driver, actions[at].event));
    StopIsOne(worlds, actions, limits, maximum, at);
  }

  lemma StopIsOne(worlds: seq<World>, actions: seq<Action>, limits: Limits, maximum: nat, at: nat)
    requires IsHistory(worlds, actions, limits, maximum) && StopsAt(worlds, actions, at)
    ensures var e := actions[at].event;
            || e.Shutdown? || e.StreamEnd? || e.Chunk?
            || (e.Accept? && (BadId(worlds[at].driver, e) || CutShort(worlds[at].driver, e)))
  {
    HistoryMove(worlds, actions, limits, maximum, at + 1);
    StopStep(worlds[at].driver, actions[at].event, worlds[at + 1].driver, limits);
  }

  lemma MarkedByCause(worlds: seq<World>, actions: seq<Action>, limits: Limits, maximum: nat, at: nat, m: nat)
    requires IsHistory(worlds, actions, limits, maximum) && at < m < |actions| && StopsAt(worlds, actions, at)
    requires actions[m] == Drive(Mark)
    requires worlds[m].driver.lifecycle.Usable? || worlds[m].driver.lifecycle.Closing?
    ensures worlds[m + 1].driver.lifecycle == StopState(worlds[at].driver, actions[at].event)
  {
    StopLeadsOn(worlds, actions, limits, maximum, at, m);
    HistoryMove(worlds, actions, limits, maximum, m + 1);
  }
}
