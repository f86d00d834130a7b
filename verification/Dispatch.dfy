/** Draining received bytes: each complete frame settles the one waiter its request id names. */
module Dispatch {
  import opened Sequences
  import opened LittleEndian
  import opened Wrappers
  import opened Protocol
  import opened Codec

  /** Why the driver failed a request or the whole session. */
  datatype DriverError =
    | RequestFailed(failure: Failure)
    | SessionFatal(fatal: Failure)
    | TransportError
    | SessionClosed
    | SessionUnusable

  /** One use of a completion channel; a ticket names the submission that owns it. */
  datatype Delivery = Delivery(ticket: nat, outcome: Result<seq<Byte>, DriverError>)

  /** What the driver holds: unread bytes, live ids, who waits on each id, everything sent so far
      in order, and the frames those sends consumed. */
  datatype Session = Session(
    buffer: seq<Byte>, live: set<U64>, waiters: map<U64, nat>, log: seq<Delivery>, frames: seq<seq<Byte>>)

  /** Some listing of a set of ids. */
  ghost function Listing(ids: set<U64>): (list: seq<U64>)
    ensures forall id :: id in list <==> id in ids
  {
    if ids == {} then []
    else
      var id :| id in ids;
      [id] + Listing(ids - {id})
  }

  function ClientAdmission(limits: Limits, inFlight: seq<U64>): Admission {
    Admission(Client, Negotiated, limits, inFlight)
  }

  ghost function Answer(s: Session, limits: Limits): Step {
    Decode(s.buffer, ClientAdmission(limits, Listing(s.live)))
  }

  function FrameTotalLen(buffer: seq<Byte>): Option<nat> {
    if |buffer| < HEADER_LENGTH then None
    else Some(HEADER_LENGTH + U16At(buffer, 6) + U32At(buffer, 8))
  }

  function HeaderRequestId(buffer: seq<Byte>): Option<U64> {
    if |buffer| < 20 then None else Some(U64At(buffer, 12))
  }

  datatype Turn =
    | Idle
    | Handled(next: Session)
    | Fatal(last: Session, failure: Failure)

  /** Takes `total` bytes off the buffer and settles the waiter on `id` with them. */
  function Settle(s: Session, id: U64, total: nat, outcome: Result<seq<Byte>, DriverError>): Turn
    requires total <= |s.buffer|
  {
    var rest := s.(buffer := s.buffer[total..]);
    if id in s.waiters then
      Handled(rest.(live := s.live - {id}, waiters := s.waiters - {id},
                    log := s.log + [Delivery(s.waiters[id], outcome)], frames := s.frames + [s.buffer[..total]]))
    else Fatal(rest, VIOLATION)
  }

  function Min(a: nat, b: nat): nat {
    if a <= b then a else b
  }

  /** One turn of the drain loop, on what the decoder answered. */
  function TurnOn(s: Session, step: Step): Turn {
    match step
    case Need(_) => Idle
    case Admitted(frame) => (
      match FrameTotalLen(s.buffer)
      case None => Fatal(s, VIOLATION)
      case Some(total) =>
        var bytes := if total <= |s.buffer| then s.buffer[..total] else [];
        Settle(s, frame.header.requestId, Min(total, |s.buffer|), Ok(bytes))
    )
    case Refused(failure, consumed) =>
      if failure.scope.RequestScoped? then (
        match HeaderRequestId(s.buffer)
        case None => Fatal(s, VIOLATION)
        case Some(id) => Settle(s, id, Min(consumed, |s.buffer|), Err(RequestFailed(failure)))
      )
      else Fatal(s, failure)
  }

  ghost function Turned(s: Session, limits: Limits): Turn {
    TurnOn(s, Answer(s, limits))
  }

  /** The length and id of the frame at the head of a buffer that holds a header. */
  function HeadTotal(buffer: seq<Byte>): nat
    requires |buffer| >= HEADER_LENGTH
  {
    ParseHeader(buffer).value.TotalLength()
  }

  function HeadId(buffer: seq<Byte>): U64
    requires |buffer| >= HEADER_LENGTH
  {
    ParseHeader(buffer).value.requestId
  }

  /** A turn in plain words: the missing-header branches never run, and every settled frame is
      whole and at least a header long. */
  lemma TurnView(s: Session, limits: Limits)
    ensures match Answer(s, limits)
            case Need(_) => Turned(s, limits) == Idle
            case Admitted(frame) =>
              && |s.buffer| >= HEADER_LENGTH && HEADER_LENGTH <= HeadTotal(s.buffer) <= |s.buffer|
              && frame.header.requestId == HeadId(s.buffer)
              && Turned(s, limits)
                 == Settle(s, HeadId(s.buffer), HeadTotal(s.buffer), Ok(s.buffer[..HeadTotal(s.buffer)]))
            case Refused(failure, consumed) =>
              if failure.scope.RequestScoped? then
                && |s.buffer| >= HEADER_LENGTH && HEADER_LENGTH <= HeadTotal(s.buffer) <= |s.buffer|
                && consumed == HeadTotal(s.buffer)
                && Turned(s, limits)
                   == Settle(s, HeadId(s.buffer), HeadTotal(s.buffer), Err(RequestFailed(failure)))
              else Turned(s, limits) == Fatal(s, failure)
  {
    Truncate(s.buffer, ClientAdmission(limits, Listing(s.live)));
    SettlingTurn(s, Answer(s, limits));
  }

  lemma SettlingTurn(s: Session, step: Step)
    ensures |s.buffer| >= HEADER_LENGTH && HeadTotal(s.buffer) <= |s.buffer| ==>
              var id, total := HeadId(s.buffer), HeadTotal(s.buffer);
              && (step.Admitted? && step.frame.header.requestId == id ==>
                    TurnOn(s, step) == Settle(s, id, total, Ok(s.buffer[..total])))
              && (step.Refused? && step.failure.scope.RequestScoped? && step.consumed == total ==>
                    TurnOn(s, step) == Settle(s, id, total, Err(RequestFailed(step.failure))))
  {
  }

  /** Every handled turn takes at least a header off the buffer. */
  lemma TurnProgress(s: Session, limits: Limits)
    ensures Turned(s, limits).Handled? ==> |Turned(s, limits).next.buffer| + HEADER_LENGTH <= |s.buffer|
  {
    TurnView(s, limits);
  }

  datatype Drained = Drained(session: Session, fatal: Option<Failure>)

  /** The drain loop: turns until one is idle or fatal. */
  ghost function Drain(s: Session, limits: Limits): Drained
    decreases |s.buffer|
  {
    TurnProgress(s, limits);
    match Turned(s, limits)
    case Idle => Drained(s, None)
    case Fatal(last, failure) => Drained(last, Some(failure))
    case Handled(next) => Drain(next, limits)
  }

  // ---------------------------------------------------------------- cutting the stream

  function Extend(s: Session, more: seq<Byte>): Session {
    s.(buffer := s.buffer + more)
  }

  lemma SettleExtend(s: Session, more: seq<Byte>, id: U64, total: nat, outcome: Result<seq<Byte>, DriverError>)
    requires total <= |s.buffer|
    ensures Settle(Extend(s, more), id, total, outcome)
            == match Settle(s, id, total, outcome)
               case Idle => Idle
               case Handled(next) => Handled(Extend(next, more))
               case Fatal(last, failure) => Fatal(Extend(last, more), failure)
  {
    assert (s.buffer + more)[..total] == s.buffer[..total];
    assert (s.buffer + more)[total..] == s.buffer[total..] + more;
  }

  /** A turn that acts does the same with more bytes behind it. */
  lemma TurnExtend(s: Session, more: seq<Byte>, limits: Limits)
    ensures match Turned(s, limits)
            case Idle => true
            case Handled(next) => Turned(Extend(s, more), limits) == Handled(Extend(next, more))
            case Fatal(last, failure) => Turned(Extend(s, more), limits) == Fatal(Extend(last, more), failure)
  {
    TurnView(s, limits);
    TurnView(Extend(s, more), limits);
    PrefixStable(s.buffer, more, ClientAdmission(limits, Listing(s.live)));
    if |s.buffer| >= HEADER_LENGTH && HeadTotal(s.buffer) <= |s.buffer| {
      HeaderStable(s.buffer, more);
      var total := HeadTotal(s.buffer);
      assert (s.buffer + more)[..total] == s.buffer[..total];
      match Answer(s, limits)
      case Admitted(_) => SettleExtend(s, more, HeadId(s.buffer), total, Ok(s.buffer[..total]));
      case Refused(failure, _) => SettleExtend(s, more, HeadId(s.buffer), total, Err(RequestFailed(failure)));
      case Need(_) =>
    }
  }

  /** Draining what has arrived and then the rest equals draining it all. */
  lemma {:induction false} DrainExtend(s: Session, more: seq<Byte>, limits: Limits)
    ensures var first := Drain(s, limits);
            Drain(Extend(s, more), limits)
            == if first.fatal.Some? then Drained(Extend(first.session, more), first.fatal)
               else Drain(Extend(first.session, more), limits)
    decreases |s.buffer|
  {
    TurnProgress(s, limits);
    TurnExtend(s, more, limits);
    match Turned(s, limits)
    case Handled(next) => DrainExtend(next, more, limits);
    case _ =>
  }

  /** Reads chunks one at a time, draining after each and stopping at a fatal failure. */
  ghost function Feed(s: Session, chunks: seq<seq<Byte>>, limits: Limits): Drained
    decreases |chunks|
  {
    if chunks == [] then Drained(s, None)
    else
      var r := Drain(Extend(s, chunks[0]), limits);
      if r.fatal.Some? then r else Feed(r.session, chunks[1..], limits)
  }

  lemma {:induction false} DrainQuiet(s: Session, limits: Limits)
    ensures Drain(s, limits).fatal.None? ==>
              Drain(Drain(s, limits).session, limits) == Drain(s, limits)
              && Answer(Drain(s, limits).session, limits).Need?
    decreases |s.buffer|
  {
    TurnProgress(s, limits);
    TurnView(s, limits);
    match Turned(s, limits)
    case Handled(next) => DrainQuiet(next, limits);
    case _ =>
  }

  /** Chunked draining refines whole-stream draining: for every stream and every cut of it, the
      sends in order, the ids still live, the waiters and any fatal failure are those of one drain
      over the whole stream, and so is the leftover buffer unless the session ended. */
  lemma {:induction false} FeedIsDrain(s: Session, chunks: seq<seq<Byte>>, limits: Limits)
    requires Drain(s, limits) == Drained(s, None)
    ensures var fed, whole := Feed(s, chunks, limits), Drain(Extend(s, Flatten(chunks)), limits);
            && fed.fatal == whole.fatal
            && fed.session.buffer <= whole.session.buffer
            && fed.session == whole.session.(buffer := fed.session.buffer)
            && (fed.fatal.None? ==> fed == whole)
    decreases |chunks|
  {
    if chunks == [] {
      assert Extend(s, []) == s;
    } else {
      var rest := Flatten(chunks[1..]);
      var first := Extend(s, chunks[0]);
      DrainExtend(first, rest, limits);
      assert Extend(first, rest) == Extend(s, Flatten(chunks)) by { Associate(s.buffer, chunks[0], rest); }
      var r := Drain(first, limits);
      if r.fatal.None? {
        DrainQuiet(first, limits);
        FeedIsDrain(r.session, chunks[1..], limits);
      }
    }
  }
}
