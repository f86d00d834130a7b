/** How a terminal lifecycle state may be lost, exactly when, and what a failed shutdown leaves. */
module Terminal {
  import opened Protocol
  import opened Driver
  import opened Connection
  import opened Interleaving

  // ---------------------------------------------------------------- when a terminal state is kept

  /** A closer that has begun closing and has not yet looked for the driver. */
  predicate Undecided(s: CloserStage) {
    s.Begun? || s.Sealed?
  }

  /** Some closer may still find that another one took the driver. */
  predicate MayFindNone(w: World, q: nat)
    requires q in w.closers
  {
    || w.closers[q].Driverless?
    || (Undecided(w.closers[q])
        && (!w.handle || exists p | p in w.closers && p != q :: Undecided(w.closers[p]) || w.closers[p].WithDriver?))
  }

  /** The closers under way can still overwrite a terminal state: one has passed its check and not yet
      begun, or the state is not Closed and one may find no driver. */
  predicate CanLose(w: World) {
    || (exists q | q in w.closers :: w.closers[q].Passed?)
    || (!w.driver.lifecycle.Closed? && exists q | q in w.closers :: MayFindNone(w, q))
  }

  lemma KeptStep(w: World, a: Action, w': World, limits: Limits)
    requires IsTerminal(w.driver.lifecycle) && !CanLose(w) && Move(w, a, w', limits)
    ensures w'.driver.lifecycle == w.driver.lifecycle && !CanLose(w')
  {
    match a
    case Call(caller) => CallerApart(w, caller, w', limits);
    case Drive(event) => LifecycleStep(w.driver, event, w'.driver, limits);
    case Close(closer) => KeptCloser(w, closer, w');
  }

  lemma KeptCloser(w: World, a: CloserAction, w': World)
    requires IsTerminal(w.driver.lifecycle) && !CanLose(w) && CloserMove(w, a, w')
    ensures w'.driver.lifecycle == w.driver.lifecycle && !CanLose(w')
  {
    forall q | q in w'.closers
      ensures !w'.closers[q].Passed?
      ensures w.driver.lifecycle.Closed? || !MayFindNone(w', q)
    {
      if q in w.closers && !w.driver.lifecycle.Closed? { assert !MayFindNone(w, q); }
    }
  }

  lemma {:induction false} KeptPath(worlds: seq<World>, actions: seq<Action>, limits: Limits, i: nat, j: nat)
    requires IsPath(worlds, actions, limits) && i <= j < |worlds|
    requires IsTerminal(worlds[i].driver.lifecycle) && !CanLose(worlds[i])
    ensures worlds[j].driver.lifecycle == worlds[i].driver.lifecycle && !CanLose(worlds[j])
    decreases j
  {
    if i < j {
      KeptPath(worlds, actions, limits, i, j - 1);
      PathMove(worlds, actions, limits, j);
      KeptStep(worlds[j - 1], actions[j - 1], worlds[j], limits);
    }
  }

  lemma PathMove(worlds: seq<World>, actions: seq<Action>, limits: Limits, n: nat)
    requires IsPath(worlds, actions, limits) && 0 < n < |worlds|
    ensures Move(worlds[n - 1], actions[n - 1], worlds[n], limits)
  {
    assert MoveOf(worlds, actions, limits, n - 1);
  }

  // ---------------------------------------------------------------- when it can be lost

  /** Some continuation from `w` changes its lifecycle state. */
  ghost predicate Loses(w: World, limits: Limits) {
    exists worlds: seq<World>, actions: seq<Action> ::
      && IsPath(worlds, actions, limits) && worlds[0] == w
      && worlds[|actions|].driver.lifecycle != w.driver.lifecycle
  }

  lemma LosesNow(w: World, a: Action, w': World, limits: Limits)
    requires Move(w, a, w', limits) && w'.driver.lifecycle != w.driver.lifecycle
    ensures Loses(w, limits)
  {
    var worlds, actions := [w, w'], [a];
    assert MoveOf(worlds, actions, limits, 0);
    assert IsPath(worlds, actions, limits);
    assert worlds[0] == w && worlds[|actions|].driver.lifecycle != w.driver.lifecycle;
  }

  lemma LosesLater(w: World, a: Action, w': World, limits: Limits)
    requires Move(w, a, w', limits) && w'.driver.lifecycle == w.driver.lifecycle && Loses(w', limits)
    ensures Loses(w, limits)
  {
    var rest: seq<World>, more: seq<Action> :| IsPath(rest, more, limits) && rest[0] == w'
                      && rest[|more|].driver.lifecycle != w'.driver.lifecycle;
    var worlds, actions := [w] + rest, [a] + more;
    PathPrepend(w, a, rest, more, limits);
    assert worlds[0] == w && worlds[|actions|] == rest[|more|];
  }

  lemma PathPrepend(w: World, a: Action, rest: seq<World>, more: seq<Action>, limits: Limits)
    requires IsPath(rest, more, limits) && Move(w, a, rest[0], limits)
    ensures IsPath([w] + rest, [a] + more, limits)
  {
    var worlds, actions := [w] + rest, [a] + more;
    forall i | 0 <= i < |actions| ensures MoveOf(worlds, actions, limits, i) {
      if i > 0 { assert MoveOf(rest, more, limits, i - 1); }
    }
  }

  lemma LosesDriverless(w: World, q: nat, limits: Limits)
    requires q in w.closers && w.closers[q].Driverless? && !w.driver.lifecycle.Closed?
    ensures Loses(w, limits)
  {
    LosesNow(w, Close(CloseDriverless(q)), Written(w, q, Done, Closed), limits);
  }

  /** The world once closer `q` is at stage `s`. */
  function At(w: World, q: nat, s: CloserStage): World {
    w.(closers := w.closers[q := s])
  }

  lemma LosesSealed(w: World, q: nat, limits: Limits)
    requires q in w.closers && w.closers[q].Sealed? && !w.handle && !w.driver.lifecycle.Closed?
    ensures Loses(w, limits)
  {
    var routed := At(w, q, Driverless);
    LosesDriverless(routed, q, limits);
    LosesLater(w, Close(Route(q)), routed, limits);
  }

  /** The world once closer `q` has closed admission. */
  function AdmissionShut(w: World, q: nat): World {
    w.(driver := w.driver.(admissionClosed := true), closers := w.closers[q := Sealed])
  }

  lemma LosesUndecided(w: World, q: nat, limits: Limits)
    requires q in w.closers && Undecided(w.closers[q]) && !w.handle && !w.driver.lifecycle.Closed?
    ensures Loses(w, limits)
  {
    if w.closers[q].Sealed? {
      LosesSealed(w, q, limits);
    } else {
      LosesSealed(AdmissionShut(w, q), q, limits);
      LosesLater(w, Close(SealAdmission(q)), AdmissionShut(w, q), limits);
    }
  }

  lemma LosesTaken(w: World, q: nat, p: nat, limits: Limits)
    requires q in w.closers && p in w.closers && p != q && !w.driver.lifecycle.Closed?
    requires Undecided(w.closers[q]) && w.closers[p].WithDriver?
    ensures Loses(w, limits)
  {
    var taken := At(w, p, if w.handle then Joining else Done).(handle := false);
    LosesUndecided(taken, q, limits);
    LosesLater(w, Close(TakeHandle(p)), taken, limits);
  }

  lemma LosesBoth(w: World, q: nat, p: nat, limits: Limits)
    requires q in w.closers && p in w.closers && p != q && !w.driver.lifecycle.Closed? && w.handle
    requires Undecided(w.closers[q]) && w.closers[p].Sealed?
    ensures Loses(w, limits)
  {
    LosesTaken(At(w, p, WithDriver), q, p, limits);
    LosesLater(w, Close(Route(p)), At(w, p, WithDriver), limits);
  }

  lemma LosesRace(w: World, q: nat, p: nat, limits: Limits)
    requires q in w.closers && p in w.closers && p != q && !w.driver.lifecycle.Closed? && w.handle
    requires Undecided(w.closers[q]) && (Undecided(w.closers[p]) || w.closers[p].WithDriver?)
    ensures Loses(w, limits)
  {
    match w.closers[p]
    case WithDriver => LosesTaken(w, q, p, limits);
    case Sealed => LosesBoth(w, q, p, limits);
    case Begun =>
      LosesBoth(AdmissionShut(w, p), q, p, limits);
      LosesLater(w, Close(SealAdmission(p)), AdmissionShut(w, p), limits);
  }

  lemma LosesFound(w: World, q: nat, limits: Limits)
    requires q in w.closers && MayFindNone(w, q) && !w.driver.lifecycle.Closed?
    ensures Loses(w, limits)
  {
    if w.closers[q].Driverless? {
      LosesDriverless(w, q, limits);
    } else if !w.handle {
      LosesUndecided(w, q, limits);
    } else {
      var p :| p in w.closers && p != q && (Undecided(w.closers[p]) || w.closers[p].WithDriver?);
      LosesRace(w, q, p, limits);
    }
  }

  lemma LosesPassed(w: World, q: nat, limits: Limits)
    requires q in w.closers && w.closers[q].Passed? && !w.driver.lifecycle.Closing?
    ensures Loses(w, limits)
  {
    LosesNow(w, Close(BeginClosing(q)), Written(w, q, Begun, Closing), limits);
  }

  lemma LostExactly(w: World, limits: Limits)
    requires IsTerminal(w.driver.lifecycle)
    ensures Loses(w, limits) <==> CanLose(w)
  {
    if CanLose(w) {
      if q :| q in w.closers && w.closers[q].Passed? {
        LosesPassed(w, q, limits);
      } else {
        var q :| q in w.closers && MayFindNone(w, q);
        LosesFound(w, q, limits);
      }
    } else {
      NotLost(w, limits);
    }
  }

  lemma NotLost(w: World, limits: Limits)
    requires IsTerminal(w.driver.lifecycle) && !CanLose(w)
    ensures !Loses(w, limits)
  {
    forall worlds: seq<World>, actions: seq<Action> | IsPath(worlds, actions, limits) && worlds[0] == w
      ensures worlds[|actions|].driver.lifecycle == w.driver.lifecycle
    {
      KeptPath(worlds, actions, limits, 0, |actions|);
    }
  }

  // ---------------------------------------------------------------- over histories

  /** A history goes on to one that ends in another lifecycle state. */
  ghost predicate GoesOnToLose(worlds: seq<World>, actions: seq<Action>, limits: Limits, maximum: nat)
    requires |worlds| == |actions| + 1
  {
    exists more: seq<World>, acts: seq<Action> ::
      && IsHistory(worlds + more, actions + acts, limits, maximum)
      && (worlds + more)[|actions + acts|].driver.lifecycle != worlds[|actions|].driver.lifecycle
  }

  /** After every history that ends in a terminal state, the state is lost in some longer history if
      and only if a closer has passed its check and not yet begun, or the state is not Closed and a
      closer may still find that it has no driver. */
  lemma TerminalLostExactly(worlds: seq<World>, actions: seq<Action>, limits: Limits, maximum: nat)
    requires IsHistory(worlds, actions, limits, maximum) && IsTerminal(worlds[|actions|].driver.lifecycle)
    ensures GoesOnToLose(worlds, actions, limits, maximum) <==> CanLose(worlds[|actions|])
  {
    var w := worlds[|actions|];
    LostExactly(w, limits);
    if Loses(w, limits) {
      var rest: seq<World>, acts: seq<Action> :|
        IsPath(rest, acts, limits) && rest[0] == w && rest[|acts|].driver.lifecycle != w.driver.lifecycle;
      HistoryJoin(worlds, actions, rest, acts, limits, maximum);
      assert (worlds + rest[1..])[|actions + acts|] == rest[|acts|];
    }
    if GoesOnToLose(worlds, actions, limits, maximum) {
      var more: seq<World>, acts: seq<Action> :|
        && IsHistory(worlds + more, actions + acts, limits, maximum)
        && (worlds + more)[|actions + acts|].driver.lifecycle != worlds[|actions|].driver.lifecycle;
      assert (worlds + more)[|actions|] == w;
      if !CanLose(w) { KeptPath(worlds + more, actions + acts, limits, |actions|, |actions + acts|); }
    }
  }

  lemma HistoryJoin(
    worlds: seq<World>, actions: seq<Action>, rest: seq<World>, acts: seq<Action>, limits: Limits, maximum: nat)
    requires IsHistory(worlds, actions, limits, maximum) && IsPath(rest, acts, limits) && rest[0] == worlds[|actions|]
    ensures IsHistory(worlds + rest[1..], actions + acts, limits, maximum)
  {
    var all, steps := worlds + rest[1..], actions + acts;
    forall i | 0 <= i < |steps| ensures MoveOf(all, steps, limits, i) {
      if i < |actions| {
        assert MoveOf(worlds, actions, limits, i);
      } else {
        var k := i - |actions|;
        assert MoveOf(rest, acts, limits, k);
        assert all[i] == rest[k] && all[i + 1] == rest[k + 1];
      }
    }
  }

  /** Once the driver has marked the session Closed and no closer is left between its check and its
      write, the failure of the transport never shows: the state is Closed in every later world. */
  lemma FailureHidden(worlds: seq<World>, actions: seq<Action>, limits: Limits, maximum: nat, i: nat, j: nat)
    requires IsHistory(worlds, actions, limits, maximum) && i <= j < |worlds|
    requires worlds[i].driver.lifecycle.Closed?
    requires forall q | q in worlds[i].closers :: !worlds[i].closers[q].Passed?
    ensures worlds[j].driver.lifecycle.Closed?
  {
    KeptPath(worlds, actions, limits, i, j);
  }
}
