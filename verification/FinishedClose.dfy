/** What a finished close leaves behind, however its driver ended, and when a failed shutdown shows. */
module FinishedClose {
  import opened Protocol
  import opened Driver
  import opened Stops
  import opened Connection
  import opened Interleaving
  import opened Fates

  // ---------------------------------------------------------------- before the transport is shut down

  /** Until the driver has marked another outcome, the lifecycle is Usable or a closer wrote it, and a
      driver that is to shut its transport down has left Usable. */
  predicate Unmarked(w: World) {
    var l := w.driver.lifecycle;
    match w.driver.progress
    case Running => l.Usable? || l.Closing? || l.Closed?
    case Marking(target, exit) => (l.Usable? || l.Closing? || l.Closed?) && (exit.ExitClosed? ==> target.Closed?)
    case Sealing(exit) => exit.ExitClosed? ==> l.Closing? || l.Closed?
    case ShuttingTransport => l.Closing? || l.Closed?
    case RanDry => l.Usable? || l.Closing? || l.Closed?
    case Ended(_) => true
  }

  lemma UnmarkedDriver(w: World, e: Event, w': World, limits: Limits)
    requires Unmarked(w) && Next(w.driver, e, w'.driver, limits) && !e.Outside?
    ensures Unmarked(w')
  {
  }

  lemma UnmarkedCloser(w: World, a: CloserAction, w': World)
    requires Unmarked(w) && CloserMove(w, a, w')
    ensures Unmarked(w')
  {
  }

  lemma UnmarkedMove(w: World, a: Action, w': World, limits: Limits)
    requires Unmarked(w) && Move(w, a, w', limits)
    ensures Unmarked(w')
  {
    match a
    case Call(caller) => CallerApart(w, caller, w', limits);
    case Drive(event) => UnmarkedDriver(w, event, w', limits);
    case Close(closer) => UnmarkedCloser(w, closer, w');
  }

  lemma {:induction false} UnmarkedHistory(
    worlds: seq<World>, actions: seq<Action>, limits: Limits, maximum: nat, n: nat)
    requires IsHistory(worlds, actions, limits, maximum) && n < |worlds|
    ensures Unmarked(worlds[n])
    decreases n
  {
    if n > 0 {
      UnmarkedHistory(worlds, actions, limits, maximum, n - 1);
      HistoryMove(worlds, actions, limits, maximum, n);
      UnmarkedMove(worlds[n - 1], actions[n - 1], worlds[n], limits);
    }
  }

  /** Over every history, the lifecycle is Closing or Closed when the transport is shut down. A shutdown
      that succeeds leaves it as it is; after one that fails it is Failed if and only if it was Closing. */
  lemma TransportShutExactly(
    worlds: seq<World>, actions: seq<Action>, limits: Limits, maximum: nat, n: nat, ok: bool)
    requires IsHistory(worlds, actions, limits, maximum) && n < |actions| && actions[n] == Drive(TransportShut(ok))
    ensures var before, after := worlds[n].driver.lifecycle, worlds[n + 1].driver.lifecycle;
            && (before.Closing? || before.Closed?)
            && after == if before.Closing? && !ok then Failed else before
  {
    UnmarkedHistory(worlds, actions, limits, maximum, n);
    HistoryMove(worlds, actions, limits, maximum, n + 1);
    ShutStep(worlds[n].driver, worlds[n + 1].driver, limits, ok);
  }

  lemma ShutStep(d: State, d': State, limits: Limits, ok: bool)
    requires Next(d, TransportShut(ok), d', limits) && (d.lifecycle.Closing? || d.lifecycle.Closed?)
    ensures d.progress.ShuttingTransport?
    ensures d'.lifecycle == if d.lifecycle.Closing? && !ok then Failed else d.lifecycle
  {
  }

  // ---------------------------------------------------------------- what the finished close leaves

  /** The last write of the closers once `a` has been taken. */
  function Overwritten(last: Lifecycle, a: Action): Lifecycle {
    if a.Close? && a.closer.BeginClosing? then Closing
    else if a.Close? && a.closer.CloseDriverless? then Closed
    else last
  }

  /** The last write of the closers to the lifecycle in steps `i` up to `n`, or the state `marked` by the
      driver if they wrote nothing. */
  function LastWrite(marked: Lifecycle, actions: seq<Action>, i: nat, n: nat): Lifecycle
    requires i <= n <= |actions|
    decreases n
  {
    if i == n then marked else Overwritten(LastWrite(marked, actions, i, n - 1), actions[n - 1])
  }

  /** How far a shut-down driver and the last write of the closers decide the lifecycle. */
  predicate ShutDown(w: World, last: Lifecycle) {
    var l := w.driver.lifecycle;
    && (last.Closing? || last.Closed?)
    && match w.driver.progress
       case Sealing(exit) => exit.ExitClosed? && l == last
       case ShuttingTransport => l == last
       case Ended(ExitFailed) => if last.Closing? then l.Closing? || l.Failed? else l.Closed?
       case Ended(ExitClosed) => l.Closing? || l.Closed?
       case _ => false
  }

  lemma ShutDownDriver(w: World, e: Event, w': World, last: Lifecycle, limits: Limits)
    requires ShutDown(w, last) && Next(w.driver, e, w'.driver, limits) && !e.Outside?
    ensures ShutDown(w', last)
  {
  }

  lemma ShutDownCloser(w: World, a: CloserAction, w': World, last: Lifecycle)
    requires ShutDown(w, last) && CloserMove(w, a, w')
    ensures ShutDown(w', Overwritten(last, Close(a)))
  {
  }

  lemma ShutDownMove(w: World, a: Action, w': World, last: Lifecycle, limits: Limits)
    requires ShutDown(w, last) && Move(w, a, w', limits)
    ensures ShutDown(w', Overwritten(last, a))
  {
    match a
    case Call(caller) => CallerApart(w, caller, w', limits);
    case Drive(event) => ShutDownDriver(w, event, w', last, limits);
    case Close(closer) => ShutDownCloser(w, closer, w', last);
  }

  /** The driver's mark of a shutdown leaves Closed, whatever the closers wrote before. */
  lemma MarkShuts(w: World, w': World, limits: Limits)
    requires Unmarked(w) && w.driver.progress == Marking(Closed, ExitClosed) && Move(w, Drive(Mark), w', limits)
    ensures ShutDown(w', Closed)
  {
  }

  lemma {:induction false} ShutDownHistory(
    worlds: seq<World>, actions: seq<Action>, limits: Limits, maximum: nat, i: nat, n: nat)
    requires IsHistory(worlds, actions, limits, maximum) && i < n < |worlds|
    requires actions[i] == Drive(Mark) && worlds[i].driver.progress == Marking(Closed, ExitClosed)
    ensures ShutDown(worlds[n], LastWrite(Closed, actions, i + 1, n))
    decreases n
  {
    HistoryMove(worlds, actions, limits, maximum, n);
    if n == i + 1 {
      UnmarkedHistory(worlds, actions, limits, maximum, i);
      MarkShuts(worlds[i], worlds[n], limits);
    } else {
      ShutDownHistory(worlds, actions, limits, maximum, i, n - 1);
      ShutDownMove(worlds[n - 1], actions[n - 1], worlds[n], LastWrite(Closed, actions, i + 1, n - 1), limits);
    }
  }

  lemma FinishStep(w: World, a: CloserAction, w': World, last: Lifecycle)
    requires ShutDown(w, last) && a.FinishClose? && CloserMove(w, a, w')
    ensures w.driver.progress.Ended?
    ensures w'.driver.lifecycle == if w.driver.progress.final.ExitFailed? && last.Closing? then Failed else Closed
  {
  }

  /** Over every history in which the driver marks a shutdown at `i` and a close finishes at `j`, the
      finished close leaves Failed if and only if the transport shutdown failed and the closers' last
      write to the lifecycle since the mark is Closing; in every other case it leaves Closed. */
  lemma FinishedCloseExactly(
    worlds: seq<World>, actions: seq<Action>, limits: Limits, maximum: nat, i: nat, j: nat)
    requires IsHistory(worlds, actions, limits, maximum) && i < j < |actions|
    requires actions[i] == Drive(Mark) && worlds[i].driver.progress == Marking(Closed, ExitClosed)
    requires actions[j].Close? && actions[j].closer.FinishClose?
    ensures worlds[j].driver.progress.Ended?
    ensures worlds[j + 1].driver.lifecycle
            == if worlds[j].driver.progress.final.ExitFailed? && LastWrite(Closed, actions, i + 1, j).Closing?
               then Failed
               else Closed
  {
    ShutDownHistory(worlds, actions, limits, maximum, i, j);
    HistoryMove(worlds, actions, limits, maximum, j + 1);
    FinishStep(worlds[j], actions[j].closer, worlds[j + 1], LastWrite(Closed, actions, i + 1, j));
  }

  // ---------------------------------------------------------------- when the driver failed or ran dry

  /** How far a driver that ended with `exit` and the last write of the closers decide the lifecycle. */
  predicate FellOut(w: World, exit: DriverExit, last: Lifecycle) {
    var l := w.driver.lifecycle;
    match w.driver.progress
    case Sealing(x) => x == exit && l == last
    case Ended(x) => x == exit && (l == last || (exit.ExitFailed? && last.Closing? && l.Failed?))
    case _ => false
  }

  lemma FellOutDriver(w: World, e: Event, w': World, exit: DriverExit, last: Lifecycle, limits: Limits)
    requires FellOut(w, exit, last) && !exit.ExitClosed? && Next(w.driver, e, w'.driver, limits) && !e.Outside?
    ensures FellOut(w', exit, last)
  {
  }

  lemma FellOutCloser(w: World, a: CloserAction, w': World, exit: DriverExit, last: Lifecycle)
    requires FellOut(w, exit, last) && !exit.ExitClosed? && CloserMove(w, a, w')
    ensures FellOut(w', exit, Overwritten(last, Close(a)))
  {
  }

  lemma FellOutMove(w: World, a: Action, w': World, exit: DriverExit, last: Lifecycle, limits: Limits)
    requires FellOut(w, exit, last) && !exit.ExitClosed? && Move(w, a, w', limits)
    ensures FellOut(w', exit, Overwritten(last, a))
  {
    match a
    case Call(caller) => CallerApart(w, caller, w', limits);
    case Drive(event) => FellOutDriver(w, event, w', exit, last, limits);
    case Close(closer) => FellOutCloser(w, closer, w', exit, last);
  }

  lemma {:induction false} FellOutHistory(
    worlds: seq<World>, actions: seq<Action>, limits: Limits, maximum: nat, i: nat, n: nat)
    requires IsHistory(worlds, actions, limits, maximum) && i < n < |worlds| && actions[i] == Drive(Mark)
    requires worlds[i].driver.progress.Marking? && !worlds[i].driver.progress.exit.ExitClosed?
    ensures FellOut(worlds[n], worlds[i].driver.progress.exit,
                    LastWrite(worlds[i + 1].driver.lifecycle, actions, i + 1, n))
    decreases n
  {
    HistoryMove(worlds, actions, limits, maximum, n);
    if n > i + 1 {
      FellOutHistory(worlds, actions, limits, maximum, i, n - 1);
      FellOutMove(worlds[n - 1], actions[n - 1], worlds[n], worlds[i].driver.progress.exit,
                  LastWrite(worlds[i + 1].driver.lifecycle, actions, i + 1, n - 1), limits);
    }
  }

  lemma FellOutFinish(w: World, a: CloserAction, w': World, exit: DriverExit, last: Lifecycle)
    requires FellOut(w, exit, last) && !exit.ExitClosed? && a.FinishClose? && CloserMove(w, a, w')
    ensures w'.driver.lifecycle == if exit.ExitFailed? && last.Closing? then Failed else last
  {
  }

  /** Over every history in which the driver stops at `at` for any reason but a shutdown, marks it at `i`
      and a close finishes at `j`: the close leaves what the closers wrote last since the mark, or the
      mark itself if they wrote nothing; only, a Closing that follows a lost transport becomes Failed. So
      it leaves Closing exactly when the session became unusable and the last write is Closing. */
  lemma FinishedAfterFailure(
    worlds: seq<World>, actions: seq<Action>, limits: Limits, maximum: nat, at: nat, i: nat, j: nat)
    requires IsHistory(worlds, actions, limits, maximum) && at < i < j < |actions| && StopsAt(worlds, actions, at)
    requires !actions[at].event.Shutdown? && actions[i] == Drive(Mark)
    requires actions[j].Close? && actions[j].closer.FinishClose?
    ensures var e, last := actions[at].event, LastWrite(worlds[i + 1].driver.lifecycle, actions, i + 1, j);
            var lost := e.StreamEnd? || CutShort(worlds[at].driver, e);
            worlds[j + 1].driver.lifecycle == if lost && last.Closing? then Failed else last
  {
    StopLeadsOn(worlds, actions, limits, maximum, at, i);
    HistoryMove(worlds, actions, limits, maximum, i + 1);
    FellOutHistory(worlds, actions, limits, maximum, i, j);
    HistoryMove(worlds, actions, limits, maximum, j + 1);
    FellOutFinish(worlds[j], actions[j].closer, worlds[j + 1], worlds[i].driver.progress.exit,
                  LastWrite(worlds[i + 1].driver.lifecycle, actions, i + 1, j));
  }

  /** Over every history, a close that finishes over a driver that ran dry leaves Closed. */
  lemma FinishedDry(worlds: seq<World>, actions: seq<Action>, limits: Limits, maximum: nat, j: nat)
    requires IsHistory(worlds, actions, limits, maximum) && j < |actions| && worlds[j].driver.progress.RanDry?
    requires actions[j].Close? && actions[j].closer.FinishClose?
    ensures worlds[j + 1].driver.lifecycle.Closed?
  {
    UnmarkedHistory(worlds, actions, limits, maximum, j);
    GateHistory(worlds, actions, limits, maximum, j);
    HistoryMove(worlds, actions, limits, maximum, j + 1);
    DryFinish(worlds[j], actions[j].closer, worlds[j + 1]);
  }

  lemma DryFinish(w: World, a: CloserAction, w': World)
    requires Unmarked(w) && Gate(w) && w.driver.progress.RanDry? && a.FinishClose? && CloserMove(w, a, w')
    ensures w'.driver.lifecycle.Closed?
  {
  }
}
