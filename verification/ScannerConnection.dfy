/**
 The asynchronous connection: one reader dispatches events to callbacks and hands everything else to
 whoever is waiting in `recv`, while `send_request` lets one request at a time be outstanding.
 Threads are interleaved at the granularity of the mutexes and of one received message.
 */
module ScannerConnection {
  import opened Bytes

  /** A response by its `data_case`; an event response may itself carry no event data. */
  datatype Response = NotSet | Error | EmptyEvent | Event(kind: nat, body: nat) | Answer(body: nat)

  type Callback = nat

  type Client = nat

  /** What `recv` can hand to its caller. */
  predicate Plain(r: Response) {
    r.Answer? || r.EmptyEvent?
  }

  // ----- the connection object

  datatype Conn = Conn(slot: Response, callbacks: map<nat, seq<Callback>>, calls: seq<(Callback, Response)>)

  function CallbacksFor(c: Conn, kind: nat): seq<Callback> {
    if kind in c.callbacks then c.callbacks[kind] else []
  }

  function CallEach(cbs: seq<Callback>, r: Response): (calls: seq<(Callback, Response)>)
    ensures |calls| == |cbs| && forall i :: 0 <= i < |cbs| ==> calls[i] == (cbs[i], r)
  {
    seq(|cbs|, i requires 0 <= i < |cbs| => (cbs[i], r))
  }

  /** `parse_response` while asynchronous reading is active; an error response throws. */
  function Parsed(c: Conn, r: Response): Conn {
    match r
    case Error => c
    case Event(kind, _) => c.(calls := c.calls + CallEach(CallbacksFor(c, kind), r))
    case _ => c.(slot := r)
  }

  function Subscribed(c: Conn, kind: nat, cb: Callback): Conn {
    c.(callbacks := c.callbacks[kind := CallbacksFor(c, kind) + [cb]])
  }

  class ScannerConnection {
    var asyncReadActive: bool
    var asyncResp: Response
    var asyncReceived: Response
    var eventCallbacks: map<nat, seq<Callback>>
    ghost var calls: seq<(Callback, Response)>   // the callback invocations so far

    ghost function State(): Conn
      reads this
    {
      Conn(asyncReceived, eventCallbacks, calls)
    }

    constructor ()
      ensures !asyncReadActive && State() == Conn(NotSet, map[], [])
    {
      asyncReadActive, asyncResp, asyncReceived, eventCallbacks := false, NotSet, NotSet, map[];
      calls := [];
    }

    method AsyncRun()
      modifies `asyncReadActive
      ensures asyncReadActive
    {
      if asyncReadActive {
        return;
      }
      asyncReadActive := true;
    }

    method Subscribe(kind: nat, cb: Callback)
      modifies `eventCallbacks
      ensures State() == Subscribed(old(State()), kind, cb)
    {
      var cbs := if kind in eventCallbacks then eventCallbacks[kind] else [];
      eventCallbacks := eventCallbacks[kind := cbs + [cb]];
    }

    /** `parse_response(stream, async_resp)`. */
    method ParseResponse(message: Response) returns (threw: bool)
      requires asyncReadActive
      modifies `asyncResp, `asyncReceived, `calls
      ensures threw == message.Error?
      ensures State() == Parsed(old(State()), message)
    {
      asyncResp := message;
      if asyncResp.Error? {
        return true;
      }
      if asyncResp.Event? {
        var cbs := if asyncResp.kind in eventCallbacks then eventCallbacks[asyncResp.kind] else [];
        for i := 0 to |cbs|
          invariant calls == old(calls) + CallEach(cbs, message)[..i]
        {
          calls := calls + [(cbs[i], asyncResp)];
        }
        return false;
      }
      if asyncReadActive {
        asyncReceived := asyncResp;
      }
      threw := false;
    }

    /** The critical section of the waiting loop in `recv`. */
    method TakeReceived() returns (r: Option<Response>)
      modifies `asyncReceived
      ensures r == if old(asyncReceived).NotSet? then None else Some(old(asyncReceived))
      ensures State() == old(State()).(slot := NotSet)
    {
      r := None;
      if asyncReceived != NotSet {
        r := Some(asyncReceived);
        asyncReceived := NotSet;
      }
    }
  }

  // ----- the whole system

  /** A registered callback, and how many events had been dispatched when it was registered. */
  datatype Registration = Registration(kind: nat, cb: Callback, from: nat)

  datatype System = System(
    conn: Conn,
    reading: bool,                            // the read chain is still alive
    holder: Option<Client>,                   // who holds the request mutex
    sent: seq<Client>, replies: seq<Response>,
    wire: seq<Response>,                      // sent by the server, not yet read
    finished: seq<(Client, Response)>,        // what `send_request` returned, or the error it threw, in order
    regs: seq<Registration>, emitted: seq<Response>, dispatched: seq<Response>)

  const START := System(Conn(NotSet, map[], []), true, None, [], [], [], [], [], [], [])

  /** Read handlers run in whoever runs the io_context: the caller that waits in `recv`, or a thread of
      its own. */
  datatype Runner = Caller | Background

  datatype Step =
    | Send(client: Client)
    | Reply(resp: Response)
    | Push(kind: nat, body: nat)
    | ReadOne(runner: Runner)
    | Take
    | Register(kind: nat, cb: Callback)

  predicate Enabled(s: System, step: Step) {
    match step
    case Send(_) => s.holder.None?
    case Reply(_) => |s.replies| < |s.sent|
    case ReadOne(runner) => s.reading && s.wire != [] && (runner == Caller ==> s.holder.Some?)
    case Take => s.holder.Some? && !s.conn.slot.NotSet?
    case _ => true
  }

  /** The handler of one received message. An error skips the next `async_recv`, and leaves through
      `run_one`: when the waiting caller ran it, through `recv` and `send_request`, releasing the mutex. */
  function Handled(s: System, runner: Runner): System
    requires Enabled(s, ReadOne(runner))
  {
    var r := s.wire[0];
    var t := s.(conn := Parsed(s.conn, r), wire := s.wire[1..],
                dispatched := if r.Event? then s.dispatched + [r] else s.dispatched);
    if !r.Error? then t
    else if runner == Background then t.(reading := false)
    else t.(reading := false, holder := None, finished := s.finished + [(s.holder.value, r)])
  }

  function Next(s: System, step: Step): System
    requires Enabled(s, step)
  {
    match step
    case Send(c) => s.(holder := Some(c), sent := s.sent + [c])
    case Reply(r) =>
      s.(replies := s.replies + [r], wire := s.wire + [r], emitted := if r.Event? then s.emitted + [r] else s.emitted)
    case Push(kind, body) =>
      s.(wire := s.wire + [Event(kind, body)], emitted := s.emitted + [Event(kind, body)])
    case ReadOne(runner) => Handled(s, runner)
    case Take =>
      s.(conn := s.conn.(slot := NotSet), holder := None, finished := s.finished + [(s.holder.value, s.conn.slot)])
    case Register(kind, cb) =>
      s.(conn := Subscribed(s.conn, kind, cb), regs := s.regs + [Registration(kind, cb, |s.dispatched|)])
  }

  /** All steps can be taken, one after the other. */
  predicate Runs(s: System, steps: seq<Step>)
    decreases |steps|
  {
    steps == [] || (Enabled(s, steps[0]) && Runs(Next(s, steps[0]), steps[1..]))
  }

  function After(s: System, steps: seq<Step>): System
    requires Runs(s, steps)
    decreases |steps|
  {
    if steps == [] then s else After(Next(s, steps[0]), steps[1..])
  }

  /** A reply that can end a request, by returning it or by throwing it. */
  predicate Settling(r: Response) {
    Plain(r) || r.Error?
  }

  predicate SettlingReplies(steps: seq<Step>) {
    forall i :: 0 <= i < |steps| && steps[i].Reply? ==> Settling(steps[i].resp)
  }

  // ----- requests and replies

  /** What is on its way to the waiting client: the responses on the wire that are not events, after the
      one already in the slot. */
  function Pending(s: System): seq<Response> {
    (if s.conn.slot.NotSet? then [] else [s.conn.slot]) + NonEvents(s.wire)
  }

  function NonEvents(rs: seq<Response>): seq<Response> {
    if rs == [] then []
    else NonEvents(rs[..|rs| - 1]) + if rs[|rs| - 1].Event? then [] else [rs[|rs| - 1]]
  }

  lemma {:induction false} NonEventsHead(rs: seq<Response>)
    requires rs != []
    ensures NonEvents(rs) == (if rs[0].Event? then [] else [rs[0]]) + NonEvents(rs[1..])
    decreases |rs|
  {
    if |rs| > 1 {
      NonEventsHead(rs[..|rs| - 1]);
      assert rs[1..][..|rs[1..]| - 1] == rs[..|rs| - 1][1..];
    }
  }

  lemma NonEventsSnoc(rs: seq<Response>, r: Response)
    ensures NonEvents(rs + [r]) == NonEvents(rs) + if r.Event? then [] else [r]
  {
    assert (rs + [r])[..|rs + [r]| - 1] == rs;
  }

  /** At most one request is outstanding, and every finished one got its own reply or its own error. */
  ghost predicate OwnOutcomes(s: System) {
    && |s.sent| == |s.finished| + (if s.holder.Some? then 1 else 0)
    && |s.finished| <= |s.replies| <= |s.sent|
    && (s.holder.Some? ==> s.sent[|s.finished|] == s.holder.value)
    && (forall i :: 0 <= i < |s.replies| ==> Settling(s.replies[i]))
    && (forall i :: 0 <= i < |s.finished| ==> s.finished[i] == (s.sent[i], s.replies[i]))
  }

  /** While reading goes on, no request has ended in an error, and what is pending is the reply to the
      outstanding request, if the server has sent it. Once it has stopped nothing more can be taken, and
      only the last finished request can have ended in an error. */
  ghost predicate Correlated(s: System) {
    OwnOutcomes(s) && ErrorIsLast(s) && PendingIsOwn(s)
  }

  ghost predicate ErrorIsLast(s: System)
    requires OwnOutcomes(s)
  {
    forall i :: 0 <= i < |s.finished| && s.replies[i].Error? ==> !s.reading && i == |s.finished| - 1
  }

  ghost predicate PendingIsOwn(s: System)
    requires OwnOutcomes(s)
  {
    && !s.conn.slot.Error?
    && if s.reading then Pending(s) == s.replies[|s.finished|..] else s.conn.slot.NotSet?
  }

  lemma ReplyOwnOutcomes(s: System, r: Response)
    requires OwnOutcomes(s) && Enabled(s, Reply(r)) && Settling(r)
    ensures OwnOutcomes(Next(s, Reply(r)))
  {
  }

  lemma ReplyPending(s: System, r: Response)
    requires OwnOutcomes(s) && PendingIsOwn(s) && Enabled(s, Reply(r)) && Settling(r)
    requires OwnOutcomes(Next(s, Reply(r)))
    ensures PendingIsOwn(Next(s, Reply(r)))
  {
    hide NonEvents;
    NonEventsSnoc(s.wire, r);
    assert (s.replies + [r])[|s.finished|..] == s.replies[|s.finished|..] + [r];
  }

  lemma ReplyCorrelated(s: System, r: Response)
    requires Correlated(s) && Enabled(s, Reply(r)) && Settling(r)
    ensures Correlated(Next(s, Reply(r)))
  {
    hide PendingIsOwn;
    ReplyOwnOutcomes(s, r);
    ReplyPending(s, r);
  }

  lemma TakeCorrelated(s: System)
    requires Correlated(s) && Enabled(s, Take)
    ensures Correlated(Next(s, Take))
  {
    hide NonEvents;
    var rest := s.replies[|s.finished|..];
    assert |rest| <= 1 && rest[0] == s.conn.slot;
    assert s.replies[|s.finished| + 1..] == rest[1..] == [];
  }

  lemma StepCorrelated(s: System, step: Step)
    requires Correlated(s) && Enabled(s, step) && (step.Reply? ==> Settling(step.resp))
    ensures Correlated(Next(s, step))
  {
    hide NonEvents, Handled;
    match step {
      case Reply(r) => ReplyCorrelated(s, r);
      case Push(kind, body) => NonEventsSnoc(s.wire, Event(kind, body));
      case ReadOne(runner) => ReadCorrelated(s, runner);
      case Take => TakeCorrelated(s);
      case _ =>
    }
  }

  lemma ReadCorrelated(s: System, runner: Runner)
    requires Correlated(s) && Enabled(s, ReadOne(runner))
    ensures Correlated(Handled(s, runner))
  {
    hide NonEvents, Correlated, Handled;
    if s.wire[0].Event? {
      EventCorrelated(s, runner);
    } else if s.wire[0].Error? {
      ErrorCorrelated(s, runner);
    } else {
      PlainCorrelated(s, runner);
    }
  }

  lemma EventCorrelated(s: System, runner: Runner)
    requires Correlated(s) && Enabled(s, ReadOne(runner)) && s.wire[0].Event?
    ensures Correlated(Handled(s, runner))
  {
    hide NonEvents;
    NonEventsHead(s.wire);
  }

  lemma ErrorCorrelated(s: System, runner: Runner)
    requires Correlated(s) && Enabled(s, ReadOne(runner)) && s.wire[0].Error?
    ensures Correlated(Handled(s, runner))
  {
    hide NonEvents, Pending;
    OnlyPending(s);
  }

  lemma PlainCorrelated(s: System, runner: Runner)
    requires Correlated(s) && Enabled(s, ReadOne(runner)) && !s.wire[0].Event? && !s.wire[0].Error?
    ensures Correlated(Handled(s, runner))
  {
    hide NonEvents;
    OnlyPending(s);
    assert s.replies[|s.finished|..] == [s.wire[0]];
  }

  /** A reply at the head of the wire is all there is, and belongs to the outstanding request. */
  lemma OnlyPending(s: System)
    requires Correlated(s) && s.reading && s.wire != [] && !s.wire[0].Event?
    ensures s.conn.slot.NotSet? && NonEvents(s.wire[1..]) == [] && s.holder.Some?
    ensures |s.replies| == |s.finished| + 1 && s.replies[|s.finished|] == s.wire[0]
  {
    hide NonEvents;
    NonEventsHead(s.wire);
    assert |Pending(s)| <= 1;
    assert s.wire[0] in Pending(s);
    assert s.replies[|s.finished|..][0] == s.replies[|s.finished|];
  }

  /** Main result: in every interleaving in which each request gets a reply or an error, at most one
      request is outstanding, and every finished one ended with its own reply or its own error; no event
      was taken for either. */
  lemma {:induction false} RunsCorrelated(s: System, steps: seq<Step>)
    requires Correlated(s) && Runs(s, steps) && SettlingReplies(steps)
    ensures Correlated(After(s, steps))
    decreases |steps|
  {
    hide Correlated;
    if steps != [] {
      StepCorrelated(s, steps[0]);
      RunsCorrelated(Next(s, steps[0]), steps[1..]);
    }
  }

  /** The slot is empty whenever a request is about to be sent, and nothing the reader could still take
      for its reply is on its way. */
  lemma SlotEmptyWhenSending(steps: seq<Step>, client: Client)
    requires Runs(START, steps) && SettlingReplies(steps) && Enabled(After(START, steps), Send(client))
    ensures var s := After(START, steps);
            s.conn.slot == NotSet && (s.reading ==> NonEvents(s.wire) == [])
  {
    RunsCorrelated(START, steps);
  }

  /** Each caller gets the reply to its own request, or the error it was answered with. */
  lemma CallersGetTheirReplies(steps: seq<Step>, i: nat)
    requires Runs(START, steps) && SettlingReplies(steps) && i < |After(START, steps).finished|
    ensures var s := After(START, steps);
            && i < |s.sent| && i < |s.replies| && s.finished[i] == (s.sent[i], s.replies[i])
            && !s.finished[i].1.Event? && !s.finished[i].1.NotSet?
  {
    RunsCorrelated(START, steps);
  }

  // ----- errors

  /** Nobody reads any more, and there is nothing left to take. */
  predicate Deaf(s: System) {
    !s.reading && s.conn.slot.NotSet?
  }

  lemma {:induction false} DeafForEver(s: System, steps: seq<Step>)
    requires Deaf(s) && Runs(s, steps)
    ensures Deaf(After(s, steps)) && After(s, steps).finished == s.finished
    decreases |steps|
  {
    if steps != [] {
      DeafForEver(Next(s, steps[0]), steps[1..]);
    }
  }

  /** Reading an error reply ends the reading, whoever reads it. The caller that reads its own error gets
      it and releases the mutex, so that others can still send; read in the background, the error reaches
      nobody, and the caller keeps the mutex. Either way no later request is ever answered. */
  lemma ErrorEndsReading(s: System, runner: Runner, steps: seq<Step>)
    requires Correlated(s) && Enabled(s, ReadOne(runner)) && s.wire[0].Error?
    requires Runs(Next(s, ReadOne(runner)), steps)
    ensures s.holder.Some?
    ensures var t := Next(s, ReadOne(runner));
            && t.holder == (if runner == Caller then None else s.holder)
            && t.finished == (if runner == Caller then s.finished + [(s.holder.value, Error)] else s.finished)
            && After(t, steps).finished == t.finished
  {
    hide Correlated, NonEvents;
    OnlyPending(s);
    assert Deaf(Next(s, ReadOne(runner)));
    DeafForEver(Next(s, ReadOne(runner)), steps);
  }

  /** An error on the wire is one of the replies, and nothing else ends the reading. */
  predicate ErrorsAreReplies(s: System) {
    (Error in s.wire ==> Error in s.replies) && (!s.reading ==> Error in s.replies)
  }

  lemma {:induction false} RunErrors(s: System, steps: seq<Step>)
    requires ErrorsAreReplies(s) && Runs(s, steps)
    ensures ErrorsAreReplies(After(s, steps))
    decreases |steps|
  {
    if steps != [] {
      var t := Next(s, steps[0]);
      if steps[0].Reply? {
        assert steps[0].resp in t.replies && forall r :: r in s.replies ==> r in t.replies;
      }
      RunErrors(t, steps[1..]);
    }
  }

  /** In every run, whatever the replies, reading stops only after an error reply. */
  lemma OnlyErrorsEndReading(steps: seq<Step>)
    requires Runs(START, steps) && !After(START, steps).reading
    ensures Error in After(START, steps).replies
  {
    RunErrors(START, steps);
  }

  /** In every run an error is the last outcome: the requests after the one it answers never finish. */
  lemma NothingAfterError(steps: seq<Step>, i: nat)
    requires Runs(START, steps) && SettlingReplies(steps)
    requires i < |After(START, steps).replies| && After(START, steps).replies[i].Error?
    ensures |After(START, steps).finished| <= i + 1
  {
    RunsCorrelated(START, steps);
  }

  // ----- who can be served at all

  /** The client holding the mutex waits for a reply that will never reach it. */
  ghost predicate Stuck(s: System) {
    && s.holder.Some? && |s.replies| == |s.sent| && s.conn.slot.NotSet?
    && (s.reading ==> forall i :: 0 <= i < |s.wire| ==> !Settling(s.wire[i]))
  }

  lemma {:induction false} StuckForEver(s: System, steps: seq<Step>)
    requires Stuck(s) && Runs(s, steps)
    ensures After(s, steps).finished == s.finished && After(s, steps).sent == s.sent
    decreases |steps|
  {
    if steps != [] {
      StuckForEver(Next(s, steps[0]), steps[1..]);
    }
  }

  /** The waiting caller, on its own, reads on until its reply is there and takes it. */
  lemma {:induction false} ReadToReply(s: System) returns (steps: seq<Step>)
    requires Correlated(s) && s.reading && s.holder.Some? && |s.replies| == |s.sent|
    ensures Runs(s, steps) && forall i :: 0 <= i < |steps| ==> steps[i] in {ReadOne(Caller), Take}
    ensures After(s, steps).finished == s.finished + [(s.holder.value, s.replies[|s.finished|])]
    decreases |s.wire|
  {
    hide NonEvents;
    if s.conn.slot != NotSet {
      steps := [Take];
      assert steps[1..] == [];
      assert s.replies[|s.finished|..][0] == s.conn.slot;
    } else {
      assert |Pending(s)| == 1;
      assert s.wire != [] by { NothingOnEmptyWire(); }
      ReadCorrelated(s, Caller);
      var t := Next(s, ReadOne(Caller));
      var rest := [];
      if s.wire[0].Error? {
        OnlyPending(s);
      } else {
        rest := ReadToReply(t);
      }
      steps := [ReadOne(Caller)] + rest;
      assert steps[1..] == rest;
    }
  }

  lemma NothingOnEmptyWire()
    ensures NonEvents([]) == []
  {
  }

  /** A waiting caller can be served exactly when somebody still reads and the reply is plain or an error:
      then it finishes with that reply by reading on. The reply to a subscribe request is an event, so a
      subscription made after asynchronous reading has started never returns, and keeps the request mutex. */
  lemma ServedIffSettling(s: System, r: Response)
    requires Correlated(s) && s.holder.Some? && Enabled(s, Reply(r))
    ensures (exists steps :: CanFinish(s, r, steps)) <==> s.reading && Settling(r)
    ensures !(s.reading && Settling(r)) ==>
              forall steps :: Runs(Next(s, Reply(r)), steps) ==> After(Next(s, Reply(r)), steps).sent == s.sent
  {
    hide Correlated, Runs, After, Next;
    if s.reading && Settling(r) {
      var steps := WayToFinish(s, r);
    } else {
      NeverServed(s, r);
    }
  }

  /** After the reply, these steps finish the outstanding request with it. */
  predicate CanFinish(s: System, r: Response, steps: seq<Step>)
    requires s.holder.Some? && Enabled(s, Reply(r))
  {
    Runs(Next(s, Reply(r)), steps) && After(Next(s, Reply(r)), steps).finished == s.finished + [(s.holder.value, r)]
  }

  lemma WayToFinish(s: System, r: Response) returns (steps: seq<Step>)
    requires Correlated(s) && s.reading && s.holder.Some? && Enabled(s, Reply(r)) && Settling(r)
    ensures CanFinish(s, r, steps)
  {
    hide Pending;
    ReplyCorrelated(s, r);
    steps := ReadToReply(Next(s, Reply(r)));
  }

  lemma NeverServed(s: System, r: Response)
    requires Correlated(s) && s.holder.Some? && Enabled(s, Reply(r)) && !(s.reading && Settling(r))
    ensures forall steps :: Runs(Next(s, Reply(r)), steps) ==>
              After(Next(s, Reply(r)), steps).finished == s.finished && After(Next(s, Reply(r)), steps).sent == s.sent
  {
    hide NonEvents;
    var t := Next(s, Reply(r));
    if s.reading {
      assert Pending(s) == [];
      OnlyEvents(s.wire);
    }
    assert Stuck(t);
    forall steps | Runs(t, steps)
      ensures After(t, steps).finished == s.finished && After(t, steps).sent == s.sent
    {
      StuckForEver(t, steps);
    }
  }

  lemma {:induction false} OnlyEvents(rs: seq<Response>)
    requires NonEvents(rs) == []
    ensures forall i :: 0 <= i < |rs| ==> rs[i].Event?
    decreases |rs|
  {
    if rs != [] {
      OnlyEvents(rs[..|rs| - 1]);
    }
  }

  // ----- events

  function EventsOn(rs: seq<Response>): seq<Response> {
    if rs == [] then []
    else EventsOn(rs[..|rs| - 1]) + if rs[|rs| - 1].Event? then [rs[|rs| - 1]] else []
  }

  lemma {:induction false} EventsOnHead(rs: seq<Response>)
    requires rs != []
    ensures EventsOn(rs) == (if rs[0].Event? then [rs[0]] else []) + EventsOn(rs[1..])
    decreases |rs|
  {
    if |rs| > 1 {
      EventsOnHead(rs[..|rs| - 1]);
      assert rs[1..][..|rs[1..]| - 1] == rs[..|rs| - 1][1..];
    }
  }

  /** The callbacks registered for a kind before the n-th event was dispatched, in order. */
  function Listening(regs: seq<Registration>, kind: nat, n: nat): seq<Callback> {
    if regs == [] then []
    else
      var last := regs[|regs| - 1];
      Listening(regs[..|regs| - 1], kind, n) + if last.kind == kind && last.from <= n then [last.cb] else []
  }

  /** Every dispatched event, in order, to every callback then registered for it, in order. */
  function Deliveries(regs: seq<Registration>, events: seq<Response>): seq<(Callback, Response)>
    requires forall i :: 0 <= i < |events| ==> events[i].Event?
  {
    if events == [] then []
    else
      var n := |events| - 1;
      Deliveries(regs, events[..n]) + CallEach(Listening(regs, events[n].kind, n), events[n])
  }

  ghost predicate EventsInOrder(s: System) {
    && (forall i :: 0 <= i < |s.dispatched| ==> s.dispatched[i].Event?)
    && (forall i :: 0 <= i < |s.regs| ==> s.regs[i].from <= |s.dispatched|)
    && s.emitted == s.dispatched + EventsOn(s.wire)
    && (forall kind :: CallbacksFor(s.conn, kind) == Listening(s.regs, kind, |s.dispatched|))
    && s.conn.calls == Deliveries(s.regs, s.dispatched)
  }

  lemma {:induction false} ListeningSettled(regs: seq<Registration>, kind: nat, n: nat, m: nat)
    requires n <= m && forall i :: 0 <= i < |regs| ==> regs[i].from <= n
    ensures Listening(regs, kind, n) == Listening(regs, kind, m)
    decreases |regs|
  {
    if regs != [] {
      ListeningSettled(regs[..|regs| - 1], kind, n, m);
    }
  }

  lemma ListeningSnoc(regs: seq<Registration>, r: Registration, kind: nat, n: nat)
    ensures Listening(regs + [r], kind, n) ==
              Listening(regs, kind, n) + if r.kind == kind && r.from <= n then [r.cb] else []
  {
    assert (regs + [r])[..|regs + [r]| - 1] == regs;
  }

  /** A later registration does not change what earlier events were delivered to. */
  lemma {:induction false} DeliveriesSettled(regs: seq<Registration>, r: Registration, events: seq<Response>)
    requires forall i :: 0 <= i < |events| ==> events[i].Event?
    requires r.from >= |events|
    ensures Deliveries(regs + [r], events) == Deliveries(regs, events)
    decreases |events|
  {
    if events != [] {
      var n := |events| - 1;
      DeliveriesSettled(regs, r, events[..n]);
      ListeningSnoc(regs, r, events[n].kind, n);
    }
  }

  lemma EventsOnSnoc(rs: seq<Response>, r: Response)
    ensures EventsOn(rs + [r]) == EventsOn(rs) + if r.Event? then [r] else []
  {
    assert (rs + [r])[..|rs + [r]| - 1] == rs;
  }

  lemma StepEvents(s: System, step: Step)
    requires EventsInOrder(s) && Enabled(s, step)
    ensures EventsInOrder(Next(s, step))
  {
    hide Listening, EventsOn, Deliveries, Handled, Subscribed;
    match step {
      case Reply(r) => EventsOnSnoc(s.wire, r);
      case Push(kind, body) => EventsOnSnoc(s.wire, Event(kind, body));
      case ReadOne(runner) => ReadEvents(s, runner);
      case Register(kind, cb) => RegisterEvents(s, kind, cb);
      case _ =>
        assert forall k :: CallbacksFor(Next(s, step).conn, k) == CallbacksFor(s.conn, k);
    }
  }

  lemma RegisterEvents(s: System, kind: nat, cb: Callback)
    requires EventsInOrder(s)
    ensures EventsInOrder(Next(s, Register(kind, cb)))
  {
    hide Listening, EventsOn, Deliveries;
    var t, r := Next(s, Register(kind, cb)), Registration(kind, cb, |s.dispatched|);
    DeliveriesSettled(s.regs, r, s.dispatched);
    forall k: nat
      ensures CallbacksFor(t.conn, k) == Listening(t.regs, k, |t.dispatched|)
    {
      ListeningSnoc(s.regs, r, k, |s.dispatched|);
    }
  }

  lemma ReadEvents(s: System, runner: Runner)
    requires EventsInOrder(s) && Enabled(s, ReadOne(runner))
    ensures EventsInOrder(Handled(s, runner))
  {
    hide Listening, EventsOn, Deliveries;
    var t, r := Handled(s, runner), s.wire[0];
    EventsOnHead(s.wire);
    assert t.conn.callbacks == s.conn.callbacks;
    forall k: nat
      ensures CallbacksFor(t.conn, k) == Listening(t.regs, k, |t.dispatched|)
    {
      ListeningSettled(s.regs, k, |s.dispatched|, |t.dispatched|);
    }
    if r.Event? {
      DeliveriesSnoc(s.regs, s.dispatched, r);
    }
  }

  lemma DeliveriesSnoc(regs: seq<Registration>, events: seq<Response>, r: Response)
    requires r.Event? && forall i :: 0 <= i < |events| ==> events[i].Event?
    ensures Deliveries(regs, events + [r]) ==
              Deliveries(regs, events) + CallEach(Listening(regs, r.kind, |events|), r)
  {
    hide Listening;
    assert (events + [r])[..|events|] == events;
  }

  /** Main result for events, in every interleaving whatever the replies: the events read so far are a
      prefix of those the server emitted, and each went once, in order, to every callback registered
      for it by then. */
  lemma {:induction false} EventsReachCallbacks(s: System, steps: seq<Step>)
    requires EventsInOrder(s) && Runs(s, steps)
    ensures EventsInOrder(After(s, steps))
    decreases |steps|
  {
    hide EventsInOrder;
    if steps != [] {
      StepEvents(s, steps[0]);
      EventsReachCallbacks(Next(s, steps[0]), steps[1..]);
    }
  }

  lemma StartsInOrder()
    ensures EventsInOrder(START)
  {
  }

  /** So in every run: the callback invocations are exactly the deliveries of the events read so far, and
      those are the first ones the server emitted. */
  lemma EveryEventDelivered(steps: seq<Step>)
    requires Runs(START, steps)
    ensures var s := After(START, steps);
            && s.dispatched <= s.emitted && (forall i :: 0 <= i < |s.dispatched| ==> s.dispatched[i].Event?)
            && s.conn.calls == Deliveries(s.regs, s.dispatched)
            && (EventsOn(s.wire) == [] ==> s.dispatched == s.emitted)
            && |s.conn.calls| == CallsBefore(s.regs, s.dispatched, |s.dispatched|)
  {
    hide CallsBefore, Deliveries;
    assert EventsInOrder(START) by { StartsInOrder(); }
    EventsReachCallbacks(START, steps);
    DeliveriesCount(After(START, steps).regs, After(START, steps).dispatched);
  }

  // ----- each invocation, one by one

  /** The registration is for the n-th event: of its kind, and made before it was dispatched. */
  predicate IsFor(r: Registration, kind: nat, n: nat) {
    r.kind == kind && r.from <= n
  }

  /** How many of the first `k` registrations are for the n-th event. */
  function CountFor(regs: seq<Registration>, kind: nat, n: nat, k: nat): (c: nat)
    requires k <= |regs|
  {
    if k == 0 then 0 else CountFor(regs, kind, n, k - 1) + if IsFor(regs[k - 1], kind, n) then 1 else 0
  }

  /** How many invocations come before those for the n-th event. */
  function CallsBefore(regs: seq<Registration>, events: seq<Response>, n: nat): nat
    requires n <= |events| && forall i :: 0 <= i < |events| ==> events[i].Event?
  {
    if n == 0 then 0 else CallsBefore(regs, events, n - 1) + CountFor(regs, events[n - 1].kind, n - 1, |regs|)
  }

  lemma {:induction false} CountForPrefix(regs: seq<Registration>, kind: nat, n: nat, k: nat, m: nat)
    requires k <= m <= |regs|
    ensures CountFor(regs[..m], kind, n, k) == CountFor(regs, kind, n, k) <= CountFor(regs, kind, n, m)
    decreases m
  {
    if k < m {
      CountForPrefix(regs, kind, n, k, m - 1);
      CountForCut(regs, kind, n, k, m);
    } else if k > 0 {
      CountForPrefix(regs, kind, n, k - 1, m - 1);
      CountForCut(regs, kind, n, k - 1, m);
    }
  }

  lemma {:induction false} CountForCut(regs: seq<Registration>, kind: nat, n: nat, k: nat, m: nat)
    requires k < m <= |regs|
    ensures CountFor(regs[..m], kind, n, k) == CountFor(regs[..m - 1], kind, n, k)
    decreases k
  {
    if k > 0 {
      CountForCut(regs, kind, n, k - 1, m);
    }
  }

  /** Who listens: exactly the registrations for the event, in the order in which they were made. */
  lemma {:induction false} ListeningAt(regs: seq<Registration>, kind: nat, n: nat, i: nat)
    requires i < |regs| && IsFor(regs[i], kind, n)
    ensures |Listening(regs, kind, n)| == CountFor(regs, kind, n, |regs|)
    ensures CountFor(regs, kind, n, i) < |Listening(regs, kind, n)|
    ensures Listening(regs, kind, n)[CountFor(regs, kind, n, i)] == regs[i].cb
    decreases |regs|
  {
    var init := regs[..|regs| - 1];
    ListeningCount(init, kind, n);
    ListeningCount(regs, kind, n);
    CountForPrefix(regs, kind, n, |init|, |init|);
    CountForPrefix(regs, kind, n, i, |init|);
    if i < |init| {
      ListeningAt(init, kind, n, i);
    }
  }

  lemma {:induction false} ListeningCount(regs: seq<Registration>, kind: nat, n: nat)
    ensures |Listening(regs, kind, n)| == CountFor(regs, kind, n, |regs|)
    decreases |regs|
  {
    if regs != [] {
      var init := regs[..|regs| - 1];
      ListeningCount(init, kind, n);
      CountForPrefix(regs, kind, n, |init|, |init|);
    }
  }

  lemma {:induction false} CallsBeforePrefix(regs: seq<Registration>, events: seq<Response>, n: nat)
    requires n < |events| && forall i :: 0 <= i < |events| ==> events[i].Event?
    ensures CallsBefore(regs, events[..|events| - 1], n) == CallsBefore(regs, events, n)
    decreases n
  {
    if n > 0 {
      CallsBeforePrefix(regs, events, n - 1);
    }
  }

  lemma {:induction false} DeliveriesAt(regs: seq<Registration>, events: seq<Response>, n: nat, i: nat)
    requires forall k :: 0 <= k < |events| ==> events[k].Event?
    requires n < |events| && i < |regs| && IsFor(regs[i], events[n].kind, n)
    ensures |Deliveries(regs, events)| == CallsBefore(regs, events, |events|)
    ensures var at := CallsBefore(regs, events, n) + CountFor(regs, events[n].kind, n, i);
            at < |Deliveries(regs, events)| && Deliveries(regs, events)[at] == (regs[i].cb, events[n])
    decreases |events|
  {
    hide Listening, CountFor;
    var last, init := |events| - 1, events[..|events| - 1];
    DeliveriesCount(regs, init);
    DeliveriesCount(regs, events);
    CallsBeforePrefix(regs, events, n);
    CallsBeforePrefix(regs, events, last);
    ListeningCount(regs, events[last].kind, last);
    if n < last {
      DeliveriesAt(regs, init, n, i);
    } else {
      ListeningAt(regs, events[n].kind, n, i);
    }
  }

  lemma {:induction false} DeliveriesCount(regs: seq<Registration>, events: seq<Response>)
    requires forall k :: 0 <= k < |events| ==> events[k].Event?
    ensures |Deliveries(regs, events)| == CallsBefore(regs, events, |events|)
    decreases |events|
  {
    hide Listening, CountFor;
    if events != [] {
      var last := |events| - 1;
      DeliveriesCount(regs, events[..last]);
      CallsBeforePrefix(regs, events, last);
      ListeningCount(regs, events[last].kind, last);
    }
  }

  /** In every run, for every event dispatched and every callback registered for its kind by then: exactly at
      its place among them, after the invocations for the earlier events, it was called with that event;
      and there were no other invocations. */
  lemma EveryCallInItsPlace(steps: seq<Step>, n: nat, i: nat)
    requires Runs(START, steps)
    requires var s := After(START, steps);
             n < |s.dispatched| && i < |s.regs| && s.dispatched[n].Event? && IsFor(s.regs[i], s.dispatched[n].kind, n)
    ensures var s := After(START, steps);
            && (forall k :: 0 <= k < |s.dispatched| ==> s.dispatched[k].Event?)
            && |s.conn.calls| == CallsBefore(s.regs, s.dispatched, |s.dispatched|)
            && var at := CallsBefore(s.regs, s.dispatched, n) + CountFor(s.regs, s.dispatched[n].kind, n, i);
               at < |s.conn.calls| && s.conn.calls[at] == (s.regs[i].cb, s.dispatched[n])
  {
    hide Runs, After, Deliveries, CallsBefore, CountFor;
    EveryEventDelivered(steps);
    DeliveriesAt(After(START, steps).regs, After(START, steps).dispatched, n, i);
  }
}
