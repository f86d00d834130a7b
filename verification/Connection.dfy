/** One connection shared by callers, closers and the driver: every interleaving of their steps. */
module Connection {
  import opened LittleEndian
  import opened Wrappers
  import opened Protocol
  import opened Identity
  import opened Dispatch
  import opened Driver
  import Command

  /** The first id handed to a command; the handshake used 1. */
  const FIRST_ID: U64 := 2

  const CHANNEL_CAPACITY: nat := 64

  /** Where one command stands. An index counts allocations; the id is the one that allocation handed
      out. `Gone` is a caller dropped while its request was outstanding. */
  datatype Stage =
    | Checked
    | Holding
    | Named(k: nat)
    | Waiting(k: nat)
    | Answered(k: nat, outcome: Result<seq<Byte>, DriverError>)
    | Gone(k: nat)
    | Rejected(error: Command.CommandError)
    | Left

  datatype CloserStage = Passed | Begun | Sealed | WithDriver | Joining | Driverless | Done

  datatype Submission = Submission(caller: nat, id: U64, frame: seq<Byte>)

  datatype World = World(
    driver: State, available: nat, minted: nat, queue: seq<Submission>, owner: seq<nat>,
    callers: map<nat, Stage>, closers: map<nat, CloserStage>, handle: bool)

  datatype CallerAction =
    | Begin(c: nat) | Acquire(c: nat) | Allocate(c: nat) | Send(c: nat, request: Command.Request)
    | Receive(c: nat, at: nat) | NoAnswer(c: nat) | Abandon(c: nat)

  datatype CloserAction =
    | CheckClosed(q: nat) | BeginClosing(q: nat) | SealAdmission(q: nat) | Route(q: nat)
    | TakeHandle(q: nat) | FinishClose(q: nat) | CloseDriverless(q: nat)

  datatype Action = Call(caller: CallerAction) | Drive(event: Event) | Close(closer: CloserAction)

  predicate IsTerminal(l: Lifecycle) {
    l.Closed? || l.Failed? || l.Unusable?
  }

  predicate Returned(d: State) {
    d.progress.Ended? || d.progress.RanDry?
  }

  /** The error a lifecycle state gives a caller it turns away. */
  function StateError(l: Lifecycle): Command.CommandError {
    match l
    case Closed | Closing => Command.ConnectionClosed
    case Failed => Command.TransportLost
    case Usable | Unusable => Command.ConnectionUnusable
  }

  ghost predicate Fresh(w: World, maximum: nat) {
    && Initial(w.driver)
    && w == World(w.driver, maximum, 0, [], [], map[], map[], true)
  }

  function Put(w: World, c: nat, s: Stage): World {
    w.(callers := w.callers[c := s])
  }

  predicate Holds(s: Stage) {
    s.Holding? || s.Named? || s.Waiting?
  }

  /** A step of the command path. */
  predicate CallerMove(w: World, a: CallerAction, w': World, limits: Limits) {
    match a
    case Begin(c) =>
      && c !in w.callers
      && w' == Put(w, c, if w.driver.lifecycle.Usable? then Checked else Rejected(StateError(w.driver.lifecycle)))
    case Acquire(c) =>
      && c in w.callers && w.callers[c].Checked?
      && if w.driver.admissionClosed then w' == Put(w, c, Rejected(StateError(w.driver.lifecycle)))
         else w.available > 0 && w' == Put(w, c, Holding).(available := w.available - 1)
    case Allocate(c) =>
      && c in w.callers && w.callers[c].Holding?
      && w' == Put(w, c, Named(w.minted)).(minted := w.minted + 1)
    case Send(c, request) =>
      && c in w.callers && w.callers[c].Named? && Command.Fits(request, limits)
      && var k := w.callers[c].k;
         if Returned(w.driver) then
           w' == Put(w, c, Rejected(StateError(w.driver.lifecycle))).(available := w.available + 1)
         else
           var id := Nth(FIRST_ID, k);
           var encoded := Command.EncodeRequest(request, id, limits);
           && |w.queue| < CHANNEL_CAPACITY && encoded.Ok?
           && w' == Put(w, c, Waiting(k)).(queue := w.queue + [Submission(c, id, encoded.value)])
    case Receive(c, at) =>
      && c in w.callers && w.callers[c].Waiting?
      && at < |w.driver.session.log| && w.driver.session.log[at].ticket < |w.owner|
      && w.owner[w.driver.session.log[at].ticket] == c
      && w' == Put(w, c, Answered(w.callers[c].k, w.driver.session.log[at].outcome)).(available := w.available + 1)
    case NoAnswer(c) =>
      && c in w.callers && w.callers[c].Waiting? && Returned(w.driver) && c !in w.owner
      && w' == Put(w, c, Rejected(StateError(w.driver.lifecycle))).(available := w.available + 1)
    case Abandon(c) =>
      && c in w.callers && (w.callers[c].Checked? || Holds(w.callers[c]))
      && w' == Put(w, c, if w.callers[c].Waiting? then Gone(w.callers[c].k) else Left)
               .(available := w.available + if Holds(w.callers[c]) then 1 else 0)
  }

  /** A step of the driver. It takes submissions off the queue in order, and drops the queue when it
      returns. */
  ghost predicate DriverMove(w: World, e: Event, w': World, limits: Limits) {
    && !e.Outside? && Next(w.driver, e, w'.driver, limits)
    && (e.Accept? ==> w.queue != [] && w.queue[0].id == e.id && w.queue[0].frame == e.frame)
    && w' == w.(driver := w'.driver,
                queue := if Returned(w'.driver) then [] else if e.Accept? then w.queue[1..] else w.queue,
                owner := if e.Accept? then w.owner + [w.queue[0].caller] else w.owner)
  }

  /** A closer's step on the shared lifecycle and admission. */
  function Written(w: World, q: nat, s: CloserStage, next: Lifecycle): World {
    w.(driver := w.driver.(lifecycle := next), closers := w.closers[q := s])
  }

  /** A step of the close path. */
  predicate CloserMove(w: World, a: CloserAction, w': World) {
    match a
    case CheckClosed(q) =>
      q !in w.closers
      && w' == w.(closers := w.closers[q := if IsTerminal(w.driver.lifecycle) then Done else Passed])
    case BeginClosing(q) =>
      q in w.closers && w.closers[q].Passed? && w' == Written(w, q, Begun, Closing)
    case SealAdmission(q) =>
      q in w.closers && w.closers[q].Begun?
      && w' == w.(driver := w.driver.(admissionClosed := true), closers := w.closers[q := Sealed])
    case Route(q) =>
      q in w.closers && w.closers[q].Sealed?
      && w' == w.(closers := w.closers[q := if w.handle then WithDriver else Driverless])
    case TakeHandle(q) =>
      q in w.closers && w.closers[q].WithDriver?
      && w' == w.(handle := false, closers := w.closers[q := if w.handle then Joining else Done])
    case FinishClose(q) =>
      && q in w.closers && w.closers[q].Joining? && Returned(w.driver)
      && var exit := if w.driver.progress.RanDry? then ExitClosed else w.driver.progress.final;
         w' == if w.driver.lifecycle.Closing? && !exit.ExitUnusable?
               then Written(w, q, Done, if exit.ExitClosed? then Closed else Failed)
               else w.(closers := w.closers[q := Done])
    case CloseDriverless(q) =>
      q in w.closers && w.closers[q].Driverless? && w' == Written(w, q, Done, Closed)
  }

  /** One step of one participant. */
  ghost predicate Move(w: World, a: Action, w': World, limits: Limits) {
    match a
    case Call(caller) => CallerMove(w, caller, w', limits)
    case Drive(event) => DriverMove(w, event, w', limits)
    case Close(closer) => CloserMove(w, closer, w')
  }

  /** Worlds joined by steps of any participants in any order. */
  ghost predicate IsPath(worlds: seq<World>, actions: seq<Action>, limits: Limits) {
    && |worlds| == |actions| + 1
    && forall i | 0 <= i < |actions| :: MoveOf(worlds, actions, limits, i)
  }

  ghost predicate MoveOf(worlds: seq<World>, actions: seq<Action>, limits: Limits, i: nat)
    requires i < |actions| && |worlds| == |actions| + 1
  {
    Move(worlds[i], actions[i], worlds[i + 1], limits)
  }

  // ---------------------------------------------------------------- permits

  function Holders(callers: map<nat, Stage>): set<nat> {
    set c | c in callers && Holds(callers[c])
  }

  function Dropped(callers: map<nat, Stage>): set<nat> {
    set c | c in callers && callers[c].Gone?
  }

  predicate PermitInv(w: World, maximum: nat) {
    w.available + |Holders(w.callers)| == maximum
  }

  lemma HoldersPut(callers: map<nat, Stage>, c: nat, s: Stage)
    ensures Holders(callers[c := s]) == if Holds(s) then Holders(callers) + {c} else Holders(callers) - {c}
  {
  }

  lemma PermitCaller(w: World, a: CallerAction, w': World, limits: Limits, maximum: nat)
    requires PermitInv(w, maximum) && CallerMove(w, a, w', limits)
    ensures PermitInv(w', maximum)
  {
    CallerPermits(w, a, w', limits);
    HoldersCount(w.callers, a.c, w'.callers[a.c]);
  }

  /** One more holder for a stage that holds a permit, one less for the stage it replaces. */
  function HeldBy(callers: map<nat, Stage>, c: nat): nat {
    if c in callers && Holds(callers[c]) then 1 else 0
  }

  lemma HoldersCount(callers: map<nat, Stage>, c: nat, s: Stage)
    ensures |Holders(callers[c := s])| == |Holders(callers)| - HeldBy(callers, c) + (if Holds(s) then 1 else 0)
  {
    HoldersPut(callers, c, s);
    assert c in Holders(callers) <==> c in callers && Holds(callers[c]);
  }

  /** A command's step changes its own stage, and moves a permit exactly when that starts or ends its hold. */
  lemma CallerPermits(w: World, a: CallerAction, w': World, limits: Limits)
    requires CallerMove(w, a, w', limits)
    ensures a.c in w'.callers && w'.callers == w.callers[a.c := w'.callers[a.c]]
    ensures w'.available + HeldBy(w'.callers, a.c) == w.available + HeldBy(w.callers, a.c)
  {
  }

  // ---------------------------------------------------------------- lifecycle

  /** A command's step leaves the closers and the driver as they were. */
  lemma CallerApart(w: World, a: CallerAction, w': World, limits: Limits)
    requires CallerMove(w, a, w', limits)
    ensures w'.driver == w.driver && w'.closers == w.closers && w'.handle == w.handle
  {
  }

  /** A closer's step is one the driver's invariant allows of others. */
  lemma CloserIsOutside(w: World, a: CloserAction, w': World, limits: Limits)
    requires CloserMove(w, a, w') && Inv(w.driver, limits)
    ensures Inv(w'.driver, limits) && w'.driver.session == w.driver.session
    ensures !w.driver.lifecycle.Usable? ==> !w'.driver.lifecycle.Usable?
  {
  }
}
