/** What every interleaving of callers, closers and the driver keeps: permits, outstanding ids,
    fresh identity, and answers that reach only their own caller. */
module Interleaving {
  import opened LittleEndian
  import opened Wrappers
  import opened Protocol
  import opened Codec
  import opened Identity
  import opened Dispatch
  import opened Correlation
  import opened Driver
  import opened Connection
  import Command

  /** A stage that carries an allocation. */
  predicate Indexed(s: Stage) {
    s.Named? || s.Waiting? || s.Answered? || s.Gone?
  }

  predicate Outstanding(s: Stage) {
    s.Waiting? || s.Gone?
  }

  /** Every allocation belongs to one caller. */
  predicate IndexInv(w: World) {
    && (forall c | c in w.callers && Indexed(w.callers[c]) :: w.callers[c].k < w.minted)
    && (forall a, b | a in w.callers && b in w.callers && Indexed(w.callers[a]) && Indexed(w.callers[b])
                      && w.callers[a].k == w.callers[b].k :: a == b)
  }

  /** A queued submission is outstanding and carries its caller's id. */
  predicate QueueInv(w: World) {
    && (Returned(w.driver) ==> w.queue == [])
    && (forall i | 0 <= i < |w.queue| ::
          && w.queue[i].caller in w.callers && Outstanding(w.callers[w.queue[i].caller])
          && w.queue[i].id == Nth(FIRST_ID, w.callers[w.queue[i].caller].k)
          && w.queue[i].caller !in w.owner)
    && (forall i, j | 0 <= i < j < |w.queue| :: w.queue[i].caller != w.queue[j].caller)
  }

  /** An accepted ticket belongs to one caller, carries its id, and is outstanding while pending. */
  predicate OwnerInv(w: World) {
    && |w.owner| == |w.driver.accepted|
    && (forall t | 0 <= t < |w.owner| ::
          && w.owner[t] in w.callers && Indexed(w.callers[w.owner[t]]) && !w.callers[w.owner[t]].Named?
          && w.driver.accepted[t] == Nth(FIRST_ID, w.callers[w.owner[t]].k)
          && (Pending(w.driver.session.waiters, w.driver.accepted, t) ==> Outstanding(w.callers[w.owner[t]])))
    && (forall t, u | 0 <= t < u < |w.owner| :: w.owner[t] != w.owner[u])
  }

  /** The driver has sent `outcome` to a ticket of caller `c`. */
  predicate SentTo(log: seq<Delivery>, owner: seq<nat>, c: nat, outcome: Result<seq<Byte>, DriverError>) {
    exists i :: 0 <= i < |log| && log[i].ticket < |owner| && owner[log[i].ticket] == c && log[i].outcome == outcome
  }

  /** An answer a caller holds was sent to a ticket of its own. */
  predicate AnswerInv(w: World) {
    forall c | c in w.callers && w.callers[c].Answered? ::
      SentTo(w.driver.session.log, w.owner, c, w.callers[c].outcome)
  }

  ghost predicate WorldInv(w: World, limits: Limits, maximum: nat) {
    Inv(w.driver, limits) && PermitInv(w, maximum) && IndexInv(w) && QueueInv(w) && OwnerInv(w) && AnswerInv(w)
  }

  // ---------------------------------------------------------------- caller steps

  lemma IndexCaller(w: World, a: CallerAction, w': World, limits: Limits)
    requires IndexInv(w) && CallerMove(w, a, w', limits)
    ensures IndexInv(w')
  {
    CallerIndex(w, a, w', limits);
    IndexPut(w, a.c, w');
  }

  /** A command's step changes its own stage, and gives it an allocation only when it makes one. */
  lemma CallerIndex(w: World, a: CallerAction, w': World, limits: Limits)
    requires CallerMove(w, a, w', limits)
    ensures a.c in w'.callers && w'.callers == w.callers[a.c := w'.callers[a.c]] && w'.minted >= w.minted
    ensures Indexed(w'.callers[a.c]) ==>
              var k := w'.callers[a.c].k;
              || (a.c in w.callers && Indexed(w.callers[a.c]) && w.callers[a.c].k == k)
              || (k == w.minted && w'.minted == k + 1)
  {
  }

  lemma IndexPut(w: World, c: nat, w': World)
    requires IndexInv(w) && c in w'.callers && w'.callers == w.callers[c := w'.callers[c]] && w'.minted >= w.minted
    requires Indexed(w'.callers[c]) ==>
               var k := w'.callers[c].k;
               || (c in w.callers && Indexed(w.callers[c]) && w.callers[c].k == k)
               || (k == w.minted && w'.minted == k + 1)
    ensures IndexInv(w')
  {
  }

  lemma QueueCaller(w: World, a: CallerAction, w': World, limits: Limits)
    requires QueueInv(w) && OwnerInv(w) && CallerMove(w, a, w', limits)
    ensures QueueInv(w')
  {
    if a.Send? { QueueSend(w, a, w', limits); } else { QueueStays(w, a, w', limits); }
  }

  lemma QueueSend(w: World, a: CallerAction, w': World, limits: Limits)
    requires QueueInv(w) && OwnerInv(w) && a.Send? && CallerMove(w, a, w', limits)
    ensures QueueInv(w')
  {
  }

  lemma QueueStays(w: World, a: CallerAction, w': World, limits: Limits)
    requires QueueInv(w) && OwnerInv(w) && !a.Send? && CallerMove(w, a, w', limits)
    ensures QueueInv(w')
  {
  }

  lemma OwnerCaller(w: World, a: CallerAction, w': World, limits: Limits)
    requires OwnerInv(w) && TicketsInv(w.driver.session, w.driver.accepted) && CallerMove(w, a, w', limits)
    ensures OwnerInv(w')
  {
    if a.Receive? {
      var t := w.driver.session.log[a.at].ticket;
      assert Resolved(w.driver.session.log, t);
    }
  }

  lemma AnswerCaller(w: World, a: CallerAction, w': World, limits: Limits)
    requires AnswerInv(w) && CallerMove(w, a, w', limits)
    ensures AnswerInv(w')
  {
    if a.Receive? {
      var sent := w.driver.session.log[a.at];
      assert w'.driver.session.log[a.at] == sent && w'.owner[sent.ticket] == a.c;
      assert SentTo(w'.driver.session.log, w'.owner, a.c, sent.outcome);
    }
  }

  lemma CallerKeeps(w: World, a: CallerAction, w': World, limits: Limits, maximum: nat)
    requires WorldInv(w, limits, maximum) && CallerMove(w, a, w', limits)
    ensures WorldInv(w', limits, maximum)
  {
    PermitCaller(w, a, w', limits, maximum);
    IndexCaller(w, a, w', limits);
    QueueCaller(w, a, w', limits);
    OwnerCaller(w, a, w', limits);
    AnswerCaller(w, a, w', limits);
  }

  // ---------------------------------------------------------------- driver steps

  /** `after` holds only waiters that `before` held. */
  predicate Within(after: map<U64, nat>, before: map<U64, nat>) {
    forall id | id in after :: id in before && after[id] == before[id]
  }

  lemma {:induction false} DrainWithin(s: Session, limits: Limits)
    ensures Within(Drain(s, limits).session.waiters, s.waiters)
    decreases |s.buffer|
  {
    TurnProgress(s, limits);
    TurnView(s, limits);
    match Turned(s, limits)
    case Handled(next) => DrainWithin(next, limits);
    case _ =>
  }

  /** A driver step that accepts nothing adds no ticket and no waiter. */
  lemma NextWithin(d: State, e: Event, d': State, limits: Limits)
    requires Next(d, e, d', limits) && !e.Accept?
    ensures d'.accepted == d.accepted && Within(d'.session.waiters, d.session.waiters)
  {
    if e.Chunk? { DrainWithin(Extend(d.session, e.bytes), limits); }
  }

  lemma AcceptWithin(d: State, e: Event, d': State, limits: Limits)
    requires e.Accept? && Next(d, e, d', limits) && d.session.live == d.session.waiters.Keys
    ensures d'.accepted == d.accepted + [e.id]
    ensures Within(d'.session.waiters, d.session.waiters[e.id := |d.accepted|])
  {
  }

  lemma AnswerDriver(w: World, e: Event, w': World, limits: Limits)
    requires AnswerInv(w) && DriverMove(w, e, w', limits) && w.driver.session.log <= w'.driver.session.log
    ensures AnswerInv(w')
  {
    var log, log' := w.driver.session.log, w'.driver.session.log;
    forall c | c in w'.callers && w'.callers[c].Answered? ensures SentTo(log', w'.owner, c, w'.callers[c].outcome) {
      assert SentTo(log, w.owner, c, w.callers[c].outcome);
      var i :| 0 <= i < |log| && log[i].ticket < |w.owner| && w.owner[log[i].ticket] == c
               && log[i].outcome == w.callers[c].outcome;
      assert log'[i] == log[i] && w'.owner[log'[i].ticket] == c;
    }
  }

  lemma OwnerStays(w: World, e: Event, w': World, limits: Limits)
    requires OwnerInv(w) && DriverMove(w, e, w', limits) && !e.Accept?
    ensures OwnerInv(w')
  {
    NextWithin(w.driver, e, w'.driver, limits);
    forall t: nat | t < |w.owner| && Pending(w'.driver.session.waiters, w'.driver.accepted, t)
      ensures Pending(w.driver.session.waiters, w.driver.accepted, t) {}
  }

  lemma OwnerAccepts(w: World, e: Event, w': World, limits: Limits)
    requires OwnerInv(w) && QueueInv(w) && Inv(w.driver, limits) && DriverMove(w, e, w', limits) && e.Accept?
    ensures OwnerInv(w')
  {
    AcceptWithin(w.driver, e, w'.driver, limits);
    OwnerExtend(w, w', w.queue[0].caller, e.id);
  }

  lemma OwnerExtend(w: World, w': World, c: nat, id: U64)
    requires OwnerInv(w) && w'.callers == w.callers && c !in w.owner
    requires c in w.callers && Outstanding(w.callers[c]) && id == Nth(FIRST_ID, w.callers[c].k)
    requires w'.driver.accepted == w.driver.accepted + [id] && w'.owner == w.owner + [c]
    requires Within(w'.driver.session.waiters, w.driver.session.waiters[id := |w.driver.accepted|])
    ensures OwnerInv(w')
  {
    var waiters', accepted' := w'.driver.session.waiters, w'.driver.accepted;
    forall t | 0 <= t < |w.owner| && Pending(waiters', accepted', t)
      ensures Pending(w.driver.session.waiters, w.driver.accepted, t)
    {
      assert accepted'[t] == w.driver.accepted[t];
    }
  }

  lemma QueueDriver(w: World, e: Event, w': World, limits: Limits)
    requires QueueInv(w) && DriverMove(w, e, w', limits)
    ensures QueueInv(w')
  {
    if e.Accept? && w'.queue != [] {
      assert forall i | 0 <= i < |w'.queue| ::
          w'.queue[i] == w.queue[i + 1] && w.queue[0].caller != w.queue[i + 1].caller;
    }
  }

  lemma DriverKeeps(w: World, e: Event, w': World, limits: Limits, maximum: nat)
    requires WorldInv(w, limits, maximum) && DriverMove(w, e, w', limits)
    ensures WorldInv(w', limits, maximum)
  {
    StepKeeps(w.driver, e, w'.driver, limits);
    AnswerDriver(w, e, w', limits);
    QueueDriver(w, e, w', limits);
    if e.Accept? { OwnerAccepts(w, e, w', limits); } else { OwnerStays(w, e, w', limits); }
  }

  // ---------------------------------------------------------------- every run

  lemma MoveKeeps(w: World, a: Action, w': World, limits: Limits, maximum: nat)
    requires WorldInv(w, limits, maximum) && Move(w, a, w', limits)
    ensures WorldInv(w', limits, maximum)
    ensures !w.driver.lifecycle.Usable? ==> !w'.driver.lifecycle.Usable?
  {
    match a
    case Call(caller) => CallerKeeps(w, caller, w', limits, maximum);
    case Drive(event) =>
      DriverKeeps(w, event, w', limits, maximum);
      LifecycleStep(w.driver, event, w'.driver, limits);
    case Close(closer) => CloserKeeps(w, closer, w', limits, maximum);
  }

  lemma CloserKeeps(w: World, a: CloserAction, w': World, limits: Limits, maximum: nat)
    requires WorldInv(w, limits, maximum) && CloserMove(w, a, w')
    ensures WorldInv(w', limits, maximum)
    ensures !w.driver.lifecycle.Usable? ==> !w'.driver.lifecycle.Usable?
  {
    CloserIsOutside(w, a, w', limits);
    CloserApart(w, a, w');
    ApartKeeps(w, w', maximum);
  }

  /** A closer's step leaves the commands and what the driver has sent as they were. */
  predicate Apart(w: World, w': World) {
    && w'.callers == w.callers && w'.available == w.available && w'.minted == w.minted && w'.queue == w.queue
    && w'.owner == w.owner && w'.driver.session == w.driver.session && w'.driver.accepted == w.driver.accepted
    && w'.driver.progress == w.driver.progress
  }

  lemma CloserApart(w: World, a: CloserAction, w': World)
    requires CloserMove(w, a, w')
    ensures Apart(w, w')
  {
  }

  lemma ApartKeeps(w: World, w': World, maximum: nat)
    requires PermitInv(w, maximum) && IndexInv(w) && QueueInv(w) && OwnerInv(w) && AnswerInv(w) && Apart(w, w')
    ensures PermitInv(w', maximum) && IndexInv(w') && QueueInv(w') && OwnerInv(w') && AnswerInv(w')
  {
  }

  /** An interleaving: a path from a fresh connection. */
  ghost predicate IsHistory(worlds: seq<World>, actions: seq<Action>, limits: Limits, maximum: nat) {
    IsPath(worlds, actions, limits) && Fresh(worlds[0], maximum)
  }

  /** The invariant holds in every world up to the `n`-th. */
  ghost predicate KeptUpTo(worlds: seq<World>, limits: Limits, maximum: nat, n: nat)
    requires n < |worlds|
  {
    WorldInv(worlds[n], limits, maximum) && (n > 0 ==> KeptUpTo(worlds, limits, maximum, n - 1))
  }

  lemma {:induction false} HistoryKept(worlds: seq<World>, actions: seq<Action>, limits: Limits, maximum: nat, n: nat)
    requires IsHistory(worlds, actions, limits, maximum) && n < |worlds|
    ensures KeptUpTo(worlds, limits, maximum, n)
    decreases n
  {
    if n == 0 {
      FreshInv(worlds[0], limits, maximum);
    } else {
      HistoryKept(worlds, actions, limits, maximum, n - 1);
      StepKept(worlds, actions, limits, maximum, n);
    }
  }

  lemma HistoryKeeps(worlds: seq<World>, actions: seq<Action>, limits: Limits, maximum: nat, n: nat)
    requires IsHistory(worlds, actions, limits, maximum) && n < |worlds|
    ensures WorldInv(worlds[n], limits, maximum)
  {
    HistoryKept(worlds, actions, limits, maximum, n);
  }

  lemma DriverInv(worlds: seq<World>, actions: seq<Action>, limits: Limits, maximum: nat, n: nat)
    requires IsHistory(worlds, actions, limits, maximum) && n < |worlds|
    ensures Inv(worlds[n].driver, limits)
  {
    HistoryKeeps(worlds, actions, limits, maximum, n);
  }

  lemma FreshInv(w: World, limits: Limits, maximum: nat)
    requires Fresh(w, maximum)
    ensures WorldInv(w, limits, maximum)
  {
    InitialInv(w.driver, limits);
  }

  lemma StepKept(worlds: seq<World>, actions: seq<Action>, limits: Limits, maximum: nat, n: nat)
    requires IsHistory(worlds, actions, limits, maximum) && 0 < n < |worlds|
    requires KeptUpTo(worlds, limits, maximum, n - 1)
    ensures KeptUpTo(worlds, limits, maximum, n)
  {
    HistoryMove(worlds, actions, limits, maximum, n);
    MoveKeeps(worlds[n - 1], actions[n - 1], worlds[n], limits, maximum);
  }

  lemma HistoryMove(worlds: seq<World>, actions: seq<Action>, limits: Limits, maximum: nat, n: nat)
    requires IsHistory(worlds, actions, limits, maximum) && 0 < n < |worlds|
    ensures Move(worlds[n - 1], actions[n - 1], worlds[n], limits)
  {
    assert MoveOf(worlds, actions, limits, n - 1);
  }

  // ---------------------------------------------------------------- permits and outstanding ids

  function QueueCallers(queue: seq<Submission>): set<nat> {
    set s | s in queue :: s.caller
  }

  lemma {:induction false} QueueSize(queue: seq<Submission>)
    requires forall i, j | 0 <= i < j < |queue| :: queue[i].caller != queue[j].caller
    ensures |QueueCallers(queue)| == |queue|
  {
    if queue != [] {
      var init, last := queue[..|queue| - 1], queue[|queue| - 1];
      QueueSize(init);
      assert queue == init + [last];
      assert QueueCallers(queue) == QueueCallers(init) + {last.caller};
    }
  }

  /** The callers waiting on `ids`. */
  function PendingCallers(w: World, ids: set<U64>): set<nat>
    requires forall id | id in ids :: id in w.driver.session.waiters && w.driver.session.waiters[id] < |w.owner|
  {
    set id | id in ids :: w.owner[w.driver.session.waiters[id]]
  }

  lemma {:induction false} PendingSize(w: World, ids: set<U64>)
    requires OwnerInv(w) && TicketsInv(w.driver.session, w.driver.accepted) && ids <= w.driver.session.waiters.Keys
    ensures |PendingCallers(w, ids)| == |ids|
    decreases |ids|
  {
    if ids != {} {
      var id :| id in ids;
      var rest := ids - {id};
      PendingSize(w, rest);
      var waiters := w.driver.session.waiters;
      assert PendingCallers(w, ids) == PendingCallers(w, rest) + {w.owner[waiters[id]]};
      forall other | other in rest ensures w.owner[waiters[other]] != w.owner[waiters[id]] {
        assert w.driver.accepted[waiters[other]] == other && w.driver.accepted[waiters[id]] == id;
      }
    }
  }

  lemma OutstandingCallers(w: World)
    requires QueueInv(w) && OwnerInv(w) && TicketsInv(w.driver.session, w.driver.accepted)
    ensures var queued, pending := QueueCallers(w.queue), PendingCallers(w, w.driver.session.waiters.Keys);
            queued + pending <= Holders(w.callers) + Dropped(w.callers) && queued !! pending
  {
    var waiters := w.driver.session.waiters;
    forall id | id in waiters
      ensures w.owner[waiters[id]] in w.callers && Outstanding(w.callers[w.owner[waiters[id]]])
              && w.owner[waiters[id]] in w.owner
    {
      assert Pending(waiters, w.driver.accepted, waiters[id]);
    }
  }

  /** In every interleaving, available and held permits add up to the configured bound, and the ids
      queued or live never exceed it by more than the callers dropped while outstanding. */
  lemma PermitsBoundOutstanding(worlds: seq<World>, actions: seq<Action>, limits: Limits, maximum: nat, n: nat)
    requires IsHistory(worlds, actions, limits, maximum) && n < |worlds|
    ensures var w := worlds[n];
            && w.available + |Holders(w.callers)| == maximum
            && |w.queue| + |w.driver.session.live| <= maximum + |Dropped(w.callers)|
  {
    HistoryKeeps(worlds, actions, limits, maximum, n);
    var w := worlds[n];
    OutstandingBound(w, maximum);
  }

  lemma OutstandingBound(w: World, maximum: nat)
    requires PermitInv(w, maximum) && QueueInv(w) && OwnerInv(w) && TicketsInv(w.driver.session, w.driver.accepted)
    ensures |w.queue| + |w.driver.session.waiters.Keys| <= maximum + |Dropped(w.callers)|
  {
    OutstandingCallers(w);
    QueueSize(w.queue);
    PendingSize(w, w.driver.session.waiters.Keys);
    var queued, pending := QueueCallers(w.queue), PendingCallers(w, w.driver.session.waiters.Keys);
    Smaller(queued + pending, Holders(w.callers) + Dropped(w.callers));
  }

  lemma {:induction false} Smaller(a: set<nat>, b: set<nat>)
    requires a <= b
    ensures |a| <= |b|
    decreases |a|
  {
    if a != {} {
      var x :| x in a;
      Smaller(a - {x}, b - {x});
    }
  }

  // ---------------------------------------------------------------- identity

  /** No outstanding request has seen `IDS` further allocations. */
  predicate Window(w: World) {
    forall c | c in w.callers && Outstanding(w.callers[c]) :: w.minted <= w.callers[c].k + IDS
  }

  /** The driver never meets the reserved id, nor a live one in any interleaving where no request
      stays outstanding across 2^64 - 1 further allocations. */
  lemma ReuseUnreachable(worlds: seq<World>, actions: seq<Action>, limits: Limits, maximum: nat, n: nat)
    requires IsHistory(worlds, actions, limits, maximum) && n < |worlds| && worlds[n].queue != []
    ensures worlds[n].queue[0].id != 0
    ensures Window(worlds[n]) ==> worlds[n].queue[0].id !in worlds[n].driver.session.live
  {
    HistoryKeeps(worlds, actions, limits, maximum, n);
    HeadFresh(worlds[n]);
  }

  /** Ticket `t` waits on an allocation a multiple of `IDS` away from the one at the head of the queue. */
  predicate Collides(w: World, t: nat)
    requires w.queue != [] && w.queue[0].caller in w.callers && Indexed(w.callers[w.queue[0].caller])
    requires t < |w.owner| && w.owner[t] in w.callers && Indexed(w.callers[w.owner[t]])
  {
    var j, k := w.callers[w.owner[t]].k, w.callers[w.queue[0].caller].k;
    (if j <= k then k - j else j - k) % IDS == 0
  }

  /** In every interleaving the driver meets a live id if and only if some request still waits whose
      allocation lies a multiple of 2^64 - 1 away from the one it meets. */
  lemma ReuseExactly(worlds: seq<World>, actions: seq<Action>, limits: Limits, maximum: nat, n: nat)
    requires IsHistory(worlds, actions, limits, maximum) && n < |worlds| && worlds[n].queue != []
    ensures WorldInv(worlds[n], limits, maximum)
    ensures var w := worlds[n];
            w.queue[0].id in w.driver.session.live
            <==> exists t: nat :: t < |w.owner| && Pending(w.driver.session.waiters, w.driver.accepted, t)
                                  && Collides(w, t)
  {
    HistoryKeeps(worlds, actions, limits, maximum, n);
    HeadCollides(worlds[n]);
  }

  lemma HeadCollides(w: World)
    requires QueueInv(w) && OwnerInv(w) && TicketsInv(w.driver.session, w.driver.accepted) && w.queue != []
    ensures w.queue[0].id in w.driver.session.waiters
            <==> exists t: nat :: t < |w.owner| && Pending(w.driver.session.waiters, w.driver.accepted, t)
                                  && Collides(w, t)
  {
    var id, waiters := w.queue[0].id, w.driver.session.waiters;
    if id in waiters {
      var t := waiters[id];
      assert Pending(waiters, w.driver.accepted, t);
      CollideExactly(w, t);
    }
    if t: nat :| t < |w.owner| && Pending(waiters, w.driver.accepted, t) && Collides(w, t) { CollideExactly(w, t); }
  }

  lemma CollideExactly(w: World, t: nat)
    requires QueueInv(w) && OwnerInv(w) && w.queue != [] && t < |w.owner|
    ensures Collides(w, t) <==> w.driver.accepted[t] == w.queue[0].id
  {
    var j, k := w.callers[w.owner[t]].k, w.callers[w.queue[0].caller].k;
    if j <= k { SameIdExactly(FIRST_ID, j, k); } else { SameIdExactly(FIRST_ID, k, j); }
  }

  lemma HeadFresh(w: World)
    requires IndexInv(w) && QueueInv(w) && OwnerInv(w) && TicketsInv(w.driver.session, w.driver.accepted)
    requires w.queue != []
    ensures w.queue[0].id != 0
    ensures Window(w) ==> w.queue[0].id !in w.driver.session.waiters
  {
    var c, id := w.queue[0].caller, w.queue[0].id;
    var k := w.callers[c].k;
    NeverRepeats(FIRST_ID, k, k + 1);
    if Window(w) && id in w.driver.session.waiters {
      var t := w.driver.session.waiters[id];
      assert Pending(w.driver.session.waiters, w.driver.accepted, t);
      var other := w.owner[t];
      assert other in w.owner && other != c;
      var j := w.callers[other].k;
      if j < k { NeverRepeats(FIRST_ID, j, k); } else { NeverRepeats(FIRST_ID, k, j); }
    }
  }

  // ---------------------------------------------------------------- answers

  /** In every interleaving, a command that succeeds holds a readable frame that names the id
      allocated to that command, and no other command was allocated that index. */
  lemma AnswerIsOwn(worlds: seq<World>, actions: seq<Action>, limits: Limits, maximum: nat, n: nat, c: nat)
    requires IsHistory(worlds, actions, limits, maximum) && n < |worlds| && c in worlds[n].callers
    requires worlds[n].callers[c].Answered? && worlds[n].callers[c].outcome.Ok?
    ensures var own, k := Command.DecodeOwn(worlds[n].callers[c].outcome.value, limits), worlds[n].callers[c].k;
            && own.Ok? && own.value.header.requestId == Nth(FIRST_ID, k)
            && forall b | b in worlds[n].callers && Indexed(worlds[n].callers[b]) && worlds[n].callers[b].k == k ::
                 b == c
  {
    HistoryKeeps(worlds, actions, limits, maximum, n);
    AnswerOwned(worlds[n], limits, c);
  }

  /** The send an answer came from, to the ticket with the caller's own id. */
  lemma SentOf(w: World, c: nat) returns (i: nat)
    requires OwnerInv(w) && AnswerInv(w) && c in w.callers && w.callers[c].Answered?
    ensures i < |w.driver.session.log| && w.driver.session.log[i].outcome == w.callers[c].outcome
    ensures w.driver.session.log[i].ticket < |w.driver.accepted|
    ensures w.driver.accepted[w.driver.session.log[i].ticket] == Nth(FIRST_ID, w.callers[c].k)
  {
    var log := w.driver.session.log;
    assert SentTo(log, w.owner, c, w.callers[c].outcome);
    i :| 0 <= i < |log| && log[i].ticket < |w.owner| && w.owner[log[i].ticket] == c
         && log[i].outcome == w.callers[c].outcome;
  }

  lemma AnswerOwned(w: World, limits: Limits, c: nat)
    requires Inv(w.driver, limits) && IndexInv(w) && OwnerInv(w) && AnswerInv(w)
    requires c in w.callers && w.callers[c].Answered? && w.callers[c].outcome.Ok?
    ensures var own, k := Command.DecodeOwn(w.callers[c].outcome.value, limits), w.callers[c].k;
            && own.Ok? && own.value.header.requestId == Nth(FIRST_ID, k)
            && forall b | b in w.callers && Indexed(w.callers[b]) && w.callers[b].k == k :: b == c
  {
    var log := w.driver.session.log;
    var i := SentOf(w, c);
    SuccessSettles(w.driver, limits, i);
    AdmittedParts(log[i].outcome.value, OwnAdmission(w.driver.accepted[log[i].ticket], limits));
  }

  lemma SuccessSettles(d: State, limits: Limits, i: nat)
    requires Inv(d, limits) && i < |d.session.log| && d.session.log[i].outcome.Ok?
    ensures d.session.log[i].ticket < |d.accepted|
    ensures var bytes, id := d.session.log[i].outcome.value, d.accepted[d.session.log[i].ticket];
            |bytes| >= HEADER_LENGTH && HeadId(bytes) == id && Decode(bytes, OwnAdmission(id, limits)).Admitted?
  {
  }

  /** The part of a world that a returned driver has fixed for good. */
  predicate Settled(w: World, later: World) {
    && later.driver.session == w.driver.session && later.owner == w.owner && later.driver.progress == w.driver.progress
    && !later.driver.lifecycle.Usable? && later.driver.admissionClosed
    && (forall c | c in later.callers && c !in w.callers :: later.callers[c].Rejected?)
    && (forall c | c in w.callers && w.callers[c].Checked? && c in later.callers ::
          later.callers[c].Checked? || later.callers[c].Rejected? || later.callers[c].Left?)
  }

  lemma SettledStep(w: World, later: World, a: Action, next: World, limits: Limits)
    requires w.driver.progress.Ended? && Settled(w, later) && Move(later, a, next, limits)
    ensures Settled(w, next)
  {
    match a
    case Call(caller) => SettledCaller(w, later, caller, next, limits);
    case Drive(event) => assert false;
    case Close(closer) => SettledCloser(w, later, closer, next);
  }

  lemma SettledCaller(w: World, later: World, a: CallerAction, next: World, limits: Limits)
    requires w.driver.progress.Ended? && Settled(w, later) && CallerMove(later, a, next, limits)
    ensures Settled(w, next)
  {
  }

  lemma SettledCloser(w: World, later: World, a: CloserAction, next: World)
    requires w.driver.progress.Ended? && Settled(w, later) && CloserMove(later, a, next)
    ensures Settled(w, next)
  {
  }

  lemma SettledSelf(w: World, limits: Limits)
    requires Inv(w.driver, limits) && w.driver.progress.Ended?
    ensures Settled(w, w)
  {
  }

  lemma {:induction false} SettledRun(
    worlds: seq<World>, actions: seq<Action>, limits: Limits, maximum: nat, i: nat, j: nat)
    requires IsHistory(worlds, actions, limits, maximum) && i <= j < |worlds|
    requires Settled(worlds[i], worlds[i]) && worlds[i].driver.progress.Ended?
    ensures Settled(worlds[i], worlds[j])
    decreases j
  {
    if i < j {
      SettledRun(worlds, actions, limits, maximum, i, j - 1);
      HistoryMove(worlds, actions, limits, maximum, j);
      SettledStep(worlds[i], worlds[j - 1], actions[j - 1], worlds[j], limits);
    }
  }

  /** Once the driver has returned other than by running dry, the connection stays out of Usable, no
      new command gets past its check, none waiting for a permit gets one, and a command that
      succeeds does so with a frame that was already sent to it when the driver returned. */
  lemma NothingAfterReturn(worlds: seq<World>, actions: seq<Action>, limits: Limits, maximum: nat, i: nat, j: nat)
    requires IsHistory(worlds, actions, limits, maximum) && i <= j < |worlds|
    requires worlds[i].driver.progress.Ended?
    ensures Settled(worlds[i], worlds[j])
    ensures forall c | c in worlds[j].callers && worlds[j].callers[c].Answered? ::
              SentTo(worlds[i].driver.session.log, worlds[i].owner, c, worlds[j].callers[c].outcome)
  {
    HistoryKeeps(worlds, actions, limits, maximum, i);
    SettledSelf(worlds[i], limits);
    SettledRun(worlds, actions, limits, maximum, i, j);
    HistoryKeeps(worlds, actions, limits, maximum, j);
  }

  /** In every interleaving a connection that has left Usable never returns to it. */
  lemma {:induction false} NeverUsableAgain(
    worlds: seq<World>, actions: seq<Action>, limits: Limits, maximum: nat, i: nat, j: nat)
    requires IsHistory(worlds, actions, limits, maximum) && i <= j < |worlds|
    requires !worlds[i].driver.lifecycle.Usable?
    ensures !worlds[j].driver.lifecycle.Usable?
    decreases j
  {
    if i < j {
      NeverUsableAgain(worlds, actions, limits, maximum, i, j - 1);
      StaysOut(worlds, actions, limits, maximum, j);
    }
  }

  lemma StaysOut(worlds: seq<World>, actions: seq<Action>, limits: Limits, maximum: nat, n: nat)
    requires IsHistory(worlds, actions, limits, maximum) && 0 < n < |worlds|
    ensures !worlds[n - 1].driver.lifecycle.Usable? ==> !worlds[n].driver.lifecycle.Usable?
  {
    MarksAway(worlds, actions, limits, maximum, n - 1);
    HistoryMove(worlds, actions, limits, maximum, n);
    OutStep(worlds[n - 1], actions[n - 1], worlds[n], limits);
  }

  /** The driver never means to mark the connection Usable. */
  lemma MarksAway(worlds: seq<World>, actions: seq<Action>, limits: Limits, maximum: nat, n: nat)
    requires IsHistory(worlds, actions, limits, maximum) && n < |worlds|
    ensures worlds[n].driver.progress.Marking? ==> !worlds[n].driver.progress.target.Usable?
  {
    DriverInv(worlds, actions, limits, maximum, n);
  }

  lemma OutStep(w: World, a: Action, w': World, limits: Limits)
    requires w.driver.progress.Marking? ==> !w.driver.progress.target.Usable?
    requires Move(w, a, w', limits)
    ensures !w.driver.lifecycle.Usable? ==> !w'.driver.lifecycle.Usable?
  {
    if a.Drive? { LifecycleStep(w.driver, a.event, w'.driver, limits); }
  }
}
