/** The two-process protocol between the server (`HornetWrapper`) and its child
  * (`Hornet`): one action word and one buffer of shared bytes, guarded by a
  * mutex and a condition variable. A step is one critical section, one unlocked
  * stretch between two of them, or a fault. A waiting process can go on exactly
  * when the action word differs from what it wrote itself. */
module Hornet {
  import opened Options
  import opened Words

  type Bytes = seq<Byte>

  const MAX_LOOP_COUNT := 256
  const MAX_WAIT_COUNT := 15

  datatype Cb = DataReader | ScriptReader | LogHandler | DataReaderDone

  datatype Action = NO_WORK | HEARTBEAT | EXIT | EXIT_CONFIRMED | OCG(op: nat) | CB(kind: Cb) | CB_DONE

  // ------------------------------------------------- the core, in one process

  /** What the core is told, and what it does next. The core may be any function
    * of everything it was ever told. */
  datatype CoreInput = Request(op: nat, data: Bytes) | Reply(data: Bytes)

  datatype CoreStep = Return(res: Bytes) | Callback(kind: Cb, arg: Bytes)

  /** The suppliers and the logger may answer a callback by anything that depends
    * on all callbacks so far, the present one included. */
  type Served = seq<(Cb, Bytes)>

  datatype World = World(core: seq<CoreInput> -> CoreStep, host: Served -> Bytes)

  /** A point of an execution: what the core was told and which callbacks were
    * served. */
  datatype Point = Point(inputs: seq<CoreInput>, served: Served)

  datatype Outcome = Outcome(res: Bytes, end: Point, callbacks: nat)

  /** One callback served in-process. */
  function Serve(w: World, p: Point): Point
    requires w.core(p.inputs).Callback?
  {
    var step := w.core(p.inputs);
    var served := p.served + [(step.kind, step.arg)];
    Point(p.inputs + [Reply(w.host(served))], served)
  }

  /** The direct call: the core runs in-process until it returns, if it does so
    * after at most `fuel` callbacks. */
  function Direct(w: World, p: Point, fuel: nat): (o: Option<Outcome>)
    ensures o.Some? ==> o.value.callbacks <= fuel
    decreases fuel
  {
    match w.core(p.inputs)
    case Return(res) => Some(Outcome(res, p, 0))
    case Callback(_, _) =>
      if fuel == 0 then None
      else
        match Direct(w, Serve(w, p), fuel - 1)
        case None => None
        case Some(o) => Some(o.(callbacks := o.callbacks + 1))
  }

  /** The point after exactly `k` callbacks, if the core makes that many. */
  function After(w: World, p: Point, k: nat): Option<Point>
    decreases k
  {
    if k == 0 then Some(p)
    else if w.core(p.inputs).Return? then None
    else After(w, Serve(w, p), k - 1)
  }

  lemma {:induction false} AfterOneMore(w: World, p: Point, k: nat, q: Point)
    requires After(w, p, k) == Some(q) && w.core(q.inputs).Callback?
    ensures After(w, p, k + 1) == Some(Serve(w, q))
    decreases k
  {
    if k > 0 {
      AfterOneMore(w, Serve(w, p), k - 1, q);
    }
  }

  /** A core that returns at that point makes the direct call return there. */
  lemma {:induction false} AfterIsDirect(w: World, p: Point, k: nat, q: Point, fuel: nat)
    requires After(w, p, k) == Some(q) && w.core(q.inputs).Return? && k <= fuel
    ensures Direct(w, p, fuel) == Some(Outcome(w.core(q.inputs).res, q, k))
    decreases k
  {
    if k > 0 {
      AfterIsDirect(w, Serve(w, p), k - 1, q, fuel - 1);
    }
  }

  /** A core still calling back after that many callbacks needs more. */
  lemma {:induction false} AfterNeedsMore(w: World, p: Point, k: nat, q: Point, fuel: nat)
    requires After(w, p, k) == Some(q) && fuel < k
    ensures Direct(w, p, fuel) == None
    decreases k
  {
    if w.core(p.inputs).Callback? && fuel > 0 {
      AfterNeedsMore(w, Serve(w, p), k - 1, q, fuel - 1);
    }
  }

  // ------------------------------------------------------------ the two sides

  datatype Fault = Crashed | Unresponsive | MaxLoopCount

  /** The server: `loop` counts the exchanges of the call in progress, `waits`
    * the timed-out rounds of the present wait. `CleanUp` is the constructor
    * after a failed heartbeat, the `Down` states are those of the destructor. */
  datatype Server =
    | Idle
    | Sending(act: Action, loop: nat)
    | Waiting(act: Action, loop: nat, waits: nat)
    | Received(act: Action, got: Action, loop: nat)
    | CleanUp
    | DownStart
    | DownWaiting
    | DownJoining(killed: bool)
    | Destroyed

  datatype End = Confirmed | Terminated | Died | Killed

  /** The child: `Loop` is about to announce that it has no work, `Switch` has
    * woken and is about to look at the action word. */
  datatype Child =
    | Loop
    | WaitWork
    | Switch
    | Running
    | SendCb(kind: Cb)
    | WaitCb(kind: Cb)
    | Exiting
    | Gone(how: End)

  /** The call in progress: its request and where it started. */
  datatype Call = Call(heartbeat: bool, op: nat, req: Bytes, start: Point)

  datatype State = State(
    act: Action, bytes: Bytes,
    server: Server, child: Child,
    point: Point,               // what the core was told; what the server served
    call: Call, callbacks: nat, // the present call and how many callbacks it made
    result: Bytes,              // what the last call that returned read
    fault: Option<Fault>)       // the first exception, if any was thrown

  datatype Event =
    | CallStart(op: nat, req: Bytes)
    | ServerSend | ServerWake | ServerTimeout | ServerHandle
    | ChildLoop | ChildWake | ChildSwitch | ChildCore | ChildSend | ChildExit
    | ChildDies
    | CtorFails | CtorJoin
    | DownBegin | DownSend | DownWake | DownTimeout | DownJoin

  /** Right after launch: the heartbeat is about to be sent, the child may or may
    * not have announced itself. */
  function Start(): State {
    State(NO_WORK, [], Sending(HEARTBEAT, 0), Loop, Point([], []), Call(true, 0, [], Point([], [])), 0, [], None)
  }

  function FirstFault(s: State, f: Fault): Option<Fault> {
    if s.fault.Some? then s.fault else Some(f)
  }

  /** The heartbeat failed: the constructor throws, there is no wrapper. */
  predicate NeverBuilt(s: State) { s.call.heartbeat && s.fault.Some? }

  /** The exception leaves `NotifyAndWait`; a wrapper that was built can be
    * called again. */
  function Throw(s: State, f: Fault): State { s.(server := Idle, fault := FirstFault(s, f)) }

  /** `HornetWrapper::NotifyAndWait`, and the request written before it. */
  function ServerStep(w: World, s: State, e: Event): Option<State> {
    match e
    case CallStart(op, req) =>
      if s.server != Idle || NeverBuilt(s) then None
      else Some(s.(server := Sending(OCG(op), 0), bytes := req, call := Call(false, op, req, s.point), callbacks := 0))
    case ServerSend =>
      if !s.server.Sending? then None
      else if s.server.loop == MAX_LOOP_COUNT then Some(Throw(s, MaxLoopCount))
      else Some(s.(act := s.server.act, server := Waiting(s.server.act, s.server.loop + 1, 0)))
    case ServerWake =>
      if !s.server.Waiting? || s.act == s.server.act then None
      else Some(s.(server := Received(s.server.act, s.act, s.server.loop)))
    case ServerTimeout =>
      if !s.server.Waiting? || s.act != s.server.act then None
      else if s.child.Gone? then Some(Throw(s, Crashed))
      else if s.server.waits + 1 >= MAX_WAIT_COUNT then Some(Throw(s, Unresponsive))
      else Some(s.(server := s.server.(waits := s.server.waits + 1)))
    case ServerHandle =>
      if !s.server.Received? then None
      else if s.server.got.CB? then
        var served := s.point.served + [(s.server.got.kind, s.bytes)];
        Some(s.(bytes := w.host(served), point := s.point.(served := served),
                callbacks := s.callbacks + 1, server := Sending(CB_DONE, s.server.loop)))
      else if s.server.got == NO_WORK then Some(s.(server := Idle, result := s.bytes))
      else Some(s.(server := Sending(s.server.act, s.server.loop)))
    case _ => None
  }

  /** Hornet's `MainLoop`, `NotifyAndWait` and callbacks. */
  function ChildStep(w: World, s: State, e: Event): Option<State> {
    match e
    case ChildLoop =>
      if s.child != Loop then None else Some(s.(act := NO_WORK, child := WaitWork))
    case ChildWake =>
      if s.child == WaitWork && s.act != NO_WORK then Some(s.(child := Switch))
      else if s.child.WaitCb? && s.act != CB(s.child.kind) then
        if s.act == CB_DONE
        then Some(s.(child := Running, point := s.point.(inputs := s.point.inputs + [Reply(s.bytes)])))
        else Some(s.(child := Gone(Terminated)))
      else None
    case ChildSwitch =>
      if s.child != Switch then None
      else if s.act == EXIT then Some(s.(child := Exiting))
      else if s.act.OCG?
      then Some(s.(child := Running, point := s.point.(inputs := s.point.inputs + [Request(s.act.op, s.bytes)])))
      else Some(s.(child := Loop))
    case ChildCore =>
      if s.child != Running then None
      else
        (match w.core(s.point.inputs)
         case Return(res) => Some(s.(bytes := res, child := Loop))
         case Callback(kind, arg) => Some(s.(bytes := arg, child := SendCb(kind))))
    case ChildSend =>
      if !s.child.SendCb? then None else Some(s.(act := CB(s.child.kind), child := WaitCb(s.child.kind)))
    case ChildExit =>
      if s.child != Exiting then None else Some(s.(act := EXIT_CONFIRMED, child := Gone(Confirmed)))
    case ChildDies =>
      if s.child.Gone? then None else Some(s.(child := Gone(if s.server == DownJoining(true) then Killed else Died)))
    case _ => None
  }

  /** `HornetWrapper::~HornetWrapper`: signal, wait a second, signal again if the
    * child answered with anything else, kill it if it did not answer; then join
    * it and destroy the segment. The constructor's failure path: wait for the
    * child's end, and destroy the segment. */
  function DownStep(s: State, e: Event): Option<State> {
    match e
    case CtorFails => if s.server != Idle || !NeverBuilt(s) then None else Some(s.(server := CleanUp))
    case CtorJoin => if s.server != CleanUp || !s.child.Gone? then None else Some(s.(server := Destroyed))
    case DownBegin => if s.server != Idle || NeverBuilt(s) then None else Some(s.(server := DownStart))
    case DownSend => if s.server != DownStart then None else Some(s.(act := EXIT, server := DownWaiting))
    case DownWake =>
      if s.server != DownWaiting || s.act == EXIT then None
      else Some(s.(act := if s.act == EXIT_CONFIRMED then s.act else EXIT, server := DownJoining(false)))
    case DownTimeout =>
      if s.server != DownWaiting || s.act != EXIT then None else Some(s.(server := DownJoining(true)))
    case DownJoin =>
      if !s.server.DownJoining? || !s.child.Gone? then None else Some(s.(server := Destroyed))
    case _ => None
  }

  function Step(w: World, s: State, e: Event): Option<State> {
    var a := ServerStep(w, s, e);
    if a.Some? then a
    else
      var b := ChildStep(w, s, e);
      if b.Some? then b else DownStep(s, e)
  }

  /** An interleaving that is possible from `s` ends in `t`. */
  ghost predicate Run(w: World, s: State, es: seq<Event>, t: State)
    decreases |es|
  {
    if es == [] then s == t
    else Step(w, s, es[0]).Some? && Run(w, Step(w, s, es[0]).value, es[1..], t)
  }

  // ---------------------------------------------------------- the hand-over

  /** The action words with which the server hands the buffer to the child, and
    * those with which the child hands it back. */
  predicate ToChild(a: Action) { a == HEARTBEAT || a.OCG? || a == CB_DONE }

  predicate ToServer(a: Action) { a == NO_WORK || a.CB? }

  /** A side uses the shared bytes in these states. */
  predicate ServerUsesBytes(s: State) { s.server.Idle? || s.server.Sending? || s.server.Received? }

  predicate ChildUsesBytes(s: State) { s.child == Switch || s.child == Running || s.child.SendCb? }

  ghost function Begun(c: Call): Point {
    Point(c.start.inputs + [Request(c.op, c.req)], c.start.served)
  }

  /** Where the two sides stand relative to each other, up to the first
    * exception: the child may also be dead. */
  ghost predicate Aligned(s: State) {
    match s.server
    case Idle => s.act == NO_WORK && (s.child == WaitWork || s.child.Gone?)
    case Sending(a, loop) =>
      if a == HEARTBEAT then s.call.heartbeat && loop == 0 && s.act == NO_WORK && (s.child == Loop || s.child == WaitWork || s.child.Gone?)
      else if a.OCG? then
        !s.call.heartbeat && loop == 0 && a.op == s.call.op && s.act == NO_WORK && (s.child == WaitWork || s.child.Gone?)
      else a == CB_DONE && !s.call.heartbeat && 1 <= loop == s.callbacks <= MAX_LOOP_COUNT && s.act.CB?
           && (s.child == WaitCb(s.act.kind) || s.child.Gone?)
    case Waiting(a, loop, waits) =>
      && waits < MAX_WAIT_COUNT && loop == s.callbacks + 1 && loop <= MAX_LOOP_COUNT
      && (if a == HEARTBEAT then s.call.heartbeat && loop == 1
          else !s.call.heartbeat && (if loop == 1 then a == OCG(s.call.op) else a == CB_DONE))
      && (if s.act == a then
            if a == HEARTBEAT then s.child in {Loop, WaitWork, Switch} || s.child.Gone?
            else (s.child in {Loop, Running} || s.child.SendCb? || s.child.Gone?
                  || (a.OCG? && s.child in {WaitWork, Switch}) || (a == CB_DONE && s.child.WaitCb?))
          else Answered(s))
    case Received(a, got, loop) =>
      && got == s.act && loop == s.callbacks + 1 && loop <= MAX_LOOP_COUNT
      && (a == HEARTBEAT <==> s.call.heartbeat)
      && Answered(s)
    case _ => true
  }

  /** The child has answered and is back in its wait. */
  ghost predicate Answered(s: State) {
    if s.act == NO_WORK then s.child == WaitWork || s.child.Gone?
    else s.act.CB? && !s.call.heartbeat && (s.child == WaitCb(s.act.kind) || s.child.Gone?)
  }

  /** The core inside the child stands at the point of the direct call that
    * follows `n` callbacks. */
  ghost predicate At(w: World, s: State, n: nat) {
    After(w, Begun(s.call), n) == Some(s.point)
  }

  /** The request has been written but not yet taken. */
  ghost predicate Requested(s: State) {
    s.callbacks == 0 && s.bytes == s.call.req && s.point == s.call.start
  }

  /** The core has called back with the bytes in the buffer. */
  ghost predicate CalledBack(w: World, s: State, kind: Cb) {
    At(w, s, s.callbacks) && w.core(s.point.inputs) == Callback(kind, s.bytes)
  }

  /** The callback was served, its reply is in the buffer. */
  ghost predicate Replied(w: World, s: State) {
    s.callbacks > 0 && After(w, Begun(s.call), s.callbacks) == Some(Point(s.point.inputs + [Reply(s.bytes)], s.point.served))
  }

  /** The core has returned with the bytes in the buffer. */
  ghost predicate Finished(w: World, s: State) {
    At(w, s, s.callbacks) && w.core(s.point.inputs) == Return(s.bytes)
  }

  /** What the buffer and the core hold at each stage of a call. */
  ghost predicate Carries(w: World, s: State) {
    if s.call.heartbeat then s.point == s.call.start && s.callbacks == 0 else
    match s.server
    case Idle => Finished(w, s) && s.result == s.bytes && s.callbacks < MAX_LOOP_COUNT
    case Sending(a, _) => if a.OCG? then Requested(s) else Replied(w, s)
    case Waiting(a, _, _) =>
      if s.act == NO_WORK then Finished(w, s)
      else if s.act.CB? then CalledBack(w, s, s.act.kind)
      else
        (match s.child
         case WaitWork => Requested(s)
         case Switch => Requested(s)
         case WaitCb(_) => Replied(w, s)
         case Running => At(w, s, s.callbacks)
         case SendCb(kind) => CalledBack(w, s, kind)
         case Loop => Finished(w, s)
         case _ => true)
    case Received(_, got, _) => if got == NO_WORK then Finished(w, s) else got.CB? && CalledBack(w, s, got.kind)
    case _ => true
  }

  ghost predicate Down(s: State) {
    s.server.CleanUp? || s.server.DownStart? || s.server.DownWaiting? || s.server.DownJoining? || s.server.Destroyed?
  }

  /** The invariant of every run up to the first exception or the destructor. */
  ghost predicate Inv(w: World, s: State) {
    s.fault == None && !Down(s) ==> Aligned(s) && Carries(w, s)
  }

  lemma StartInv(w: World)
    ensures Inv(w, Start())
  {
  }

  lemma ServerStepInv(w: World, s: State, e: Event)
    requires Inv(w, s) && ServerStep(w, s, e).Some?
    ensures Inv(w, ServerStep(w, s, e).value)
  {
    if s.fault == None && !Down(s) && e == ServerHandle && s.server.got.CB? {
      AfterOneMore(w, Begun(s.call), s.callbacks, s.point);
    }
  }

  lemma ChildStepInv(w: World, s: State, e: Event)
    requires Inv(w, s) && ChildStep(w, s, e).Some?
    ensures Inv(w, ChildStep(w, s, e).value)
  {
    if e == ChildSwitch {
      SwitchInv(w, s);
    } else if e == ChildWake {
      WakeInv(w, s);
    } else if e == ChildCore {
      CoreInv(w, s);
    }
  }

  lemma SwitchInv(w: World, s: State)
    requires Inv(w, s) && ChildStep(w, s, ChildSwitch).Some?
    ensures Inv(w, ChildStep(w, s, ChildSwitch).value)
  {
    assert After(w, Begun(s.call), 0) == Some(Begun(s.call));
  }

  lemma WakeInv(w: World, s: State)
    requires Inv(w, s) && ChildStep(w, s, ChildWake).Some?
    ensures Inv(w, ChildStep(w, s, ChildWake).value)
  {
    hide After;
  }

  lemma CoreInv(w: World, s: State)
    requires Inv(w, s) && ChildStep(w, s, ChildCore).Some?
    ensures Inv(w, ChildStep(w, s, ChildCore).value)
  {
    hide After;
  }

  lemma StepInv(w: World, s: State, e: Event)
    requires Inv(w, s) && Step(w, s, e).Some?
    ensures Inv(w, Step(w, s, e).value)
  {
    hide Aligned, Carries, ServerStep, ChildStep;
    if ServerStep(w, s, e).Some? {
      ServerStepInv(w, s, e);
    } else if ChildStep(w, s, e).Some? {
      ChildStepInv(w, s, e);
    }
  }

  lemma {:induction false} RunInv(w: World, s: State, es: seq<Event>, t: State)
    requires Inv(w, s) && Run(w, s, es, t)
    ensures Inv(w, t)
    decreases |es|
  {
    hide Inv, Step;
    if es != [] {
      StepInv(w, s, es[0]);
      RunInv(w, Step(w, s, es[0]).value, es[1..], t);
    }
  }

  // -------------------------------------------------------------- refinement

  ghost function CallOf(e: Event): seq<(nat, Bytes)> {
    if e.CallStart? then [(e.op, e.req)] else []
  }

  /** The calls a run started, in order. */
  ghost function Calls(es: seq<Event>): seq<(nat, Bytes)> {
    if es == [] then [] else CallOf(es[0]) + Calls(es[1..])
  }

  /** The same calls made in-process one after the other, each allowed 255
    * callbacks: where they leave the core and the suppliers. */
  ghost function DirectSession(w: World, p: Point, calls: seq<(nat, Bytes)>): Option<Point>
    decreases |calls|
  {
    if calls == [] then Some(p)
    else
      match Direct(w, Point(p.inputs + [Request(calls[0].0, calls[0].1)], p.served), 255)
      case None => None
      case Some(o) => DirectSession(w, o.end, calls[1..])
  }

  lemma {:induction false} DirectSessionSnoc(w: World, p: Point, calls: seq<(nat, Bytes)>, last: (nat, Bytes))
    requires DirectSession(w, p, calls).Some?
    ensures DirectSession(w, p, calls + [last]) == DirectSession(w, DirectSession(w, p, calls).value, [last])
    decreases |calls|
  {
    if calls == [] {
      assert calls + [last] == [last];
    } else {
      assert (calls + [last])[1..] == calls[1..] + [last];
      var o := Direct(w, Point(p.inputs + [Request(calls[0].0, calls[0].1)], p.served), 255).value;
      DirectSessionSnoc(w, o.end, calls[1..], last);
    }
  }

  /** A call that returned normally has the result of the direct call, leaves the
    * core and the suppliers where the direct call leaves them (so every supplier
    * and logger call is the same, in the same order, and the request was executed
    * once), and made as many callbacks, at most 255. */
  lemma ReturnedCallIsDirect(w: World, s: State)
    requires Inv(w, s) && s.fault == None && s.server == Idle && !s.call.heartbeat
    ensures Direct(w, Begun(s.call), 255) == Some(Outcome(s.result, s.point, s.callbacks))
  {
    AfterIsDirect(w, Begun(s.call), s.callbacks, s.point, 255);
  }

  /** Where a session stands: the calls that returned were direct calls, and the
    * call in progress, if any, started where they ended. */
  ghost predicate SessionOK(w: World, s: State, calls: seq<(nat, Bytes)>) {
    s.fault == None && !Down(s) ==>
      if s.call.heartbeat then calls == [] && s.point == Point([], [])
      else
        && calls != [] && calls[|calls| - 1] == (s.call.op, s.call.req)
        && DirectSession(w, Point([], []), calls[..|calls| - 1]) == Some(s.call.start)
  }

  lemma SessionStep(w: World, s: State, e: Event, calls: seq<(nat, Bytes)>)
    requires Inv(w, s) && SessionOK(w, s, calls) && Step(w, s, e).Some?
    ensures SessionOK(w, Step(w, s, e).value, calls + CallOf(e))
  {
    if s.fault == None && !Down(s) {
      if e.CallStart? {
        var more := calls + [(e.op, e.req)];
        assert more[..|more| - 1] == calls;
        SessionIdle(w, s, calls);
      } else {
        assert calls + [] == calls;
        HeartbeatPoint(w, s, e);
      }
    }
  }

  lemma HeartbeatPoint(w: World, s: State, e: Event)
    requires Inv(w, s) && s.fault == None && !Down(s) && Step(w, s, e).Some? && !e.CallStart?
    ensures Step(w, s, e).value.call == s.call
    ensures s.call.heartbeat && s.point == Point([], []) ==> Step(w, s, e).value.point == s.point
  {
  }

  lemma SessionIdle(w: World, s: State, calls: seq<(nat, Bytes)>)
    requires Inv(w, s) && SessionOK(w, s, calls) && s.fault == None && s.server == Idle
    ensures DirectSession(w, Point([], []), calls) == Some(s.point)
  {
    if !s.call.heartbeat {
      ReturnedCallIsDirect(w, s);
      var done, last := calls[..|calls| - 1], calls[|calls| - 1];
      assert calls == done + [last];
      DirectSessionSnoc(w, Point([], []), done, last);
    }
  }

  lemma {:induction false} SessionRun(w: World, s: State, before: seq<(nat, Bytes)>, es: seq<Event>, t: State)
    requires Inv(w, s) && SessionOK(w, s, before) && Run(w, s, es, t)
    ensures Inv(w, t) && SessionOK(w, t, before + Calls(es))
    decreases |es|
  {
    hide *;
    RunHead(w, s, es, t);
    CallsHead(es, before);
    if es != [] {
      SessionStep(w, s, es[0], before);
      StepInv(w, s, es[0]);
      SessionRun(w, Step(w, s, es[0]).value, before + CallOf(es[0]), es[1..], t);
    }
  }

  lemma RunHead(w: World, s: State, es: seq<Event>, t: State)
    requires Run(w, s, es, t)
    ensures if es == [] then s == t else Step(w, s, es[0]).Some? && Run(w, Step(w, s, es[0]).value, es[1..], t)
  {
    hide Step;
  }

  lemma CallsHead(es: seq<Event>, before: seq<(nat, Bytes)>)
    ensures es == [] ==> before + Calls(es) == before
    ensures es != [] ==> before + CallOf(es[0]) + Calls(es[1..]) == before + Calls(es)
  {
  }

  /** Refinement, for every interleaving of every session without an exception:
    * between calls, the core and the suppliers stand exactly where the same calls
    * made in-process would have left them. */
  lemma SessionIsDirect(w: World, es: seq<Event>, t: State)
    requires Run(w, Start(), es, t) && t.fault == None && t.server == Idle
    ensures DirectSession(w, Point([], []), Calls(es)) == Some(t.point)
  {
    SessionRun(w, Start(), [], es, t);
    assert [] + Calls(es) == Calls(es);
    SessionIdle(w, t, Calls(es));
  }

  // ------------------------------------------------- ownership and progress

  /** The action word decides who may use the shared bytes, and only one side
    * does. */
  lemma SingleOwner(w: World, s: State)
    requires Inv(w, s) && s.fault == None && !Down(s)
    ensures ToChild(s.act) ==> !ServerUsesBytes(s)
    ensures ToServer(s.act) ==> !ChildUsesBytes(s)
    ensures ToChild(s.act) || ToServer(s.act)
    ensures !(ServerUsesBytes(s) && ChildUsesBytes(s))
  {
  }

  predicate ServerBlocked(s: State) {
    (s.server.Waiting? && s.act == s.server.act) || (s.server == DownWaiting && s.act == EXIT)
  }

  predicate ChildBlocked(s: State) {
    (s.child == WaitWork && s.act == NO_WORK) || (s.child.WaitCb? && s.act == CB(s.child.kind))
  }

  predicate WellWorded(s: State) {
    (s.server.Sending? || s.server.Waiting? || s.server.Received?) ==> ToChild(s.server.act)
  }

  lemma WellWordedStep(w: World, s: State, e: Event)
    requires WellWorded(s) && Step(w, s, e).Some?
    ensures WellWorded(Step(w, s, e).value)
  {
  }

  /** The two sides never both wait in vain, in any run whatever went wrong
    * before, and whichever side came first at the heartbeat. */
  lemma {:induction false} NeverBothBlocked(w: World, s: State, es: seq<Event>, t: State)
    requires WellWorded(s) && Run(w, s, es, t)
    ensures WellWorded(t) && !(ServerBlocked(t) && ChildBlocked(t))
    decreases |es|
  {
    if es != [] {
      WellWordedStep(w, s, es[0]);
      NeverBothBlocked(w, Step(w, s, es[0]).value, es[1..], t);
    }
  }

  predicate InCall(s: State) { s.server.Sending? || s.server.Waiting? || s.server.Received? }

  /** As long as the child lives, a call in progress can go on without waiting
    * for a timeout. */
  lemma CallCanGoOn(w: World, s: State)
    requires Inv(w, s) && s.fault == None && InCall(s) && !s.child.Gone?
    ensures exists e :: e in {ServerSend, ServerWake, ServerHandle, ChildLoop, ChildWake, ChildSwitch, ChildCore, ChildSend}
                        && Step(w, s, e).Some?
  {
    if s.server.Sending? {
      assert Step(w, s, ServerSend).Some?;
    } else if s.server.Received? {
      assert Step(w, s, ServerHandle).Some?;
    } else if s.act != s.server.act {
      assert Step(w, s, ServerWake).Some?;
    } else {
      match s.child
      case Loop => assert Step(w, s, ChildLoop).Some?;
      case WaitWork => assert Step(w, s, ChildWake).Some?;
      case Switch => assert Step(w, s, ChildSwitch).Some?;
      case Running => assert Step(w, s, ChildCore).Some?;
      case SendCb(_) => assert Step(w, s, ChildSend).Some?;
      case WaitCb(_) => assert Step(w, s, ChildWake).Some?;
    }
  }

  /** How far the child is from answering. */
  ghost function ChildRank(s: State): nat {
    match s.child
    case WaitWork => 8
    case WaitCb(_) => 8
    case Switch => 7
    case Running => 6
    case SendCb(_) => 5
    case Loop => 5
    case _ => 0
  }

  ghost function CallRank(s: State): int {
    match s.server
    case Sending(_, loop) => (MAX_LOOP_COUNT + 1 - loop) * 20 + (if s.child == Loop then 3 else 2)
    case Waiting(a, loop, _) => (MAX_LOOP_COUNT + 1 - loop) * 20 + 4 + (if s.act == a then ChildRank(s) else 0)
    case Received(_, _, loop) => (MAX_LOOP_COUNT + 1 - loop) * 20 + 3
    case _ => 0
  }

  /** Bounds the steps left in the call in progress: exchanges first, then what
    * the child still does, then timed-out waits, then whether the child lives. */
  ghost function StepsLeft(s: State): int {
    (CallRank(s) * 16 + (if s.server.Waiting? then MAX_WAIT_COUNT - s.server.waits else 0)) * 2
    + (if s.child.Gone? then 0 else 1)
  }

  lemma StepsLeftDrops(w: World, s: State, e: Event)
    requires Inv(w, s) && s.fault == None && InCall(s) && Step(w, s, e).Some?
    ensures 0 < StepsLeft(s) < 165_000
    ensures var t := Step(w, s, e).value;
            InCall(t) ==> t.fault == None && StepsLeft(t) < StepsLeft(s)
  {
    hide After, Carries;
  }

  /** The run stays inside one call, without an exception. */
  ghost predicate StaysInCall(w: World, s: State, es: seq<Event>)
    decreases |es|
  {
    InCall(s) && s.fault == None && (es == [] || (Step(w, s, es[0]).Some? && StaysInCall(w, Step(w, s, es[0]).value, es[1..])))
  }

  /** Every call ends: at most 256 exchanges, at most 15 timed-out waits each, and
    * no run inside one call is longer than the bound its state gives. */
  lemma {:induction false} CallEnds(w: World, s: State, es: seq<Event>)
    requires Inv(w, s) && StaysInCall(w, s, es)
    ensures |es| <= StepsLeft(s) && |es| < 165_000
    decreases |es|
  {
    if es != [] {
      StepsLeftDrops(w, s, es[0]);
      StepInv(w, s, es[0]);
      CallEnds(w, Step(w, s, es[0]).value, es[1..]);
    } else if InCall(s) {
      assert StepsLeft(s) >= 0;
    }
  }

  /** The exchange limit is hit exactly by a core that makes more than 255
    * callbacks: the direct call would not have returned within them. */
  lemma MaxLoopMeansTooMany(w: World, s: State, e: Event)
    requires Inv(w, s) && s.fault == None && !Down(s) && Step(w, s, e).Some?
    requires Step(w, s, e).value.fault == Some(MaxLoopCount)
    ensures Direct(w, Begun(s.call), 255) == None
  {
    AfterNeedsMore(w, Begun(s.call), s.callbacks, Point(s.point.inputs + [Reply(s.bytes)], s.point.served), 255);
  }

  /** Barring a dead or unresponsive child, a call completes if and only if the
    * direct call returns within 255 callbacks. */
  lemma CompletesIff(w: World, s: State, e: Event)
    requires Inv(w, s) && s.fault == None && InCall(s) && !s.call.heartbeat
    requires Step(w, s, e).Some? && !InCall(Step(w, s, e).value)
    requires Step(w, s, e).value.fault !in {Some(Crashed), Some(Unresponsive)}
    ensures Step(w, s, e).value.fault == None <==> Direct(w, Begun(s.call), 255).Some?
    ensures Step(w, s, e).value.server == Idle
  {
    hide Inv, Direct;
    var t := Step(w, s, e).value;
    StepInv(w, s, e);
    if t.fault == None {
      ReturnedCallIsDirect(w, t);
    } else {
      MaxLoopMeansTooMany(w, s, e);
    }
  }

  /** The counters of the server's loops, in any state at all. */
  predicate Counted(s: State) {
    match s.server
    case Sending(_, loop) => loop <= MAX_LOOP_COUNT
    case Waiting(_, loop, waits) => loop <= MAX_LOOP_COUNT && waits < MAX_WAIT_COUNT
    case Received(_, _, loop) => loop <= MAX_LOOP_COUNT
    case _ => true
  }

  function ServerLeft(s: State): int {
    match s.server
    case Sending(_, loop) => (MAX_LOOP_COUNT + 1 - loop) * 20
    case Waiting(_, loop, waits) => (MAX_LOOP_COUNT + 1 - loop) * 20 + 2 + (MAX_WAIT_COUNT - waits)
    case Received(_, _, loop) => (MAX_LOOP_COUNT + 1 - loop) * 20 + 1
    case _ => 0
  }

  /** Even after exceptions, whatever the child does, the server's own loop runs
    * out: its steps use up a bound the child's steps do not touch. */
  lemma ServerLoopEnds(w: World, s: State, e: Event)
    requires Counted(s) && InCall(s) && Step(w, s, e).Some?
    ensures var t := Step(w, s, e).value;
            && Counted(t) && 0 <= ServerLeft(t) <= ServerLeft(s) <= 20 * (MAX_LOOP_COUNT + 2)
            && (ServerStep(w, s, e).Some? ==> ServerLeft(t) < ServerLeft(s))
  {
  }

  // ---------------------------------------------------------------- teardown

  /** What holds whenever the destructor may begin, and what it then keeps,
    * whatever the child was doing and whatever went wrong before. */
  ghost predicate DownOK(s: State) {
    match s.server
    case DownWaiting =>
      (s.act == EXIT && s.child != Gone(Confirmed))
      || (s.act == NO_WORK && s.child in {WaitWork, Gone(Died)})
      || (s.act.CB? && s.child in {WaitCb(s.act.kind), Gone(Died)})
      || (s.act == EXIT_CONFIRMED && s.child == Gone(Confirmed))
    case DownJoining(killed) =>
      !killed ==> if s.act == EXIT_CONFIRMED then s.child == Gone(Confirmed)
                  else s.act == EXIT && (s.child in {WaitWork, Switch, Exiting, Gone(Died), Gone(Terminated)} || s.child.WaitCb?)
    case Destroyed => s.child.Gone?
    case _ => s.act != EXIT && s.act != EXIT_CONFIRMED && s.child != Exiting && s.child != Gone(Confirmed)
  }

  lemma DownStepOK(w: World, s: State, e: Event)
    requires WellWorded(s) && DownOK(s) && Step(w, s, e).Some?
    ensures WellWorded(Step(w, s, e).value) && DownOK(Step(w, s, e).value)
  {
  }

  /** Teardown is safe on every interleaving, from every reachable state: when
    * the segment is destroyed the child is gone, so it is in no wait. */
  lemma {:induction false} TeardownSafe(w: World, s: State, es: seq<Event>, t: State)
    requires WellWorded(s) && DownOK(s) && Run(w, s, es, t)
    ensures DownOK(t) && WellWorded(t)
    ensures t.server == Destroyed ==> t.child.Gone?
    decreases |es|
  {
    if es != [] {
      DownStepOK(w, s, es[0]);
      TeardownSafe(w, Step(w, s, es[0]).value, es[1..], t);
    }
  }

  lemma StartDownOK()
    ensures WellWorded(Start()) && DownOK(Start())
  {
  }

  /** The steps left to the child once the destructor has signalled it twice or
    * been answered. */
  ghost function JoinLeft(s: State): nat {
    match s.child
    case WaitWork => 3
    case Switch => 2
    case WaitCb(_) => 1
    case Exiting => 1
    case Gone(_) => 0
    case _ => 4
  }

  /** The destructor never hangs: its timed wait always ends one way or the other,
    * and while it joins a child it did not kill, the child is on a path of at
    * most three steps to its end, none of which needs the server. A child that
    * was told to die has only its death to wait for. */
  lemma TeardownEnds(w: World, s: State)
    requires DownOK(s) && (s.server.DownStart? || s.server.DownWaiting? || s.server.DownJoining?)
    ensures s.server.DownStart? ==> Step(w, s, DownSend).Some?
    ensures s.server.DownWaiting? ==> Step(w, s, if s.act == EXIT then DownTimeout else DownWake).Some?
    ensures s.server.DownJoining? && s.child.Gone? ==> Step(w, s, DownJoin).Some?
    ensures s.server == DownJoining(true) && !s.child.Gone? ==>
              Step(w, s, ChildDies).Some? && Step(w, s, ChildDies).value.child == Gone(Killed)
    ensures s.server == DownJoining(false) && !s.child.Gone? ==>
              var e := if s.child == Switch then ChildSwitch else if s.child == Exiting then ChildExit else ChildWake;
              Step(w, s, e).Some? && JoinLeft(s) <= 3
  {
  }

  /** Every step of a child being joined, not killed, brings its end nearer; when
    * it ends it has confirmed, terminated itself, or died of its own accord. */
  lemma JoinedChildEnds(w: World, s: State, e: Event)
    requires DownOK(s) && s.server == DownJoining(false) && !s.child.Gone? && Step(w, s, e).Some?
    ensures var t := Step(w, s, e).value;
            JoinLeft(t) < JoinLeft(s) && (t.child.Gone? ==> t.child.how in {Confirmed, Terminated, Died})
  {
  }

  /** A child blocked in a callback, as an earlier timeout may leave it, leaves
    * that wait by terminating as soon as the destructor has signalled. */
  lemma BlockedCallbackTerminates(w: World, s: State)
    requires s.child.WaitCb? && s.act == EXIT
    ensures Step(w, s, ChildWake) == Some(s.(child := Gone(Terminated)))
  {
  }

  // ------------------------------------------------- the constructor's heartbeat

  /** When its heartbeat fails the constructor waits for the child's end without
    * telling it to end. A crashed child is gone; one that was only slow is in
    * its wait for work, or on the way into it or out of it. */
  lemma HeartbeatFailure(w: World, s: State, e: Event)
    requires Inv(w, s) && s.fault == None && InCall(s) && s.call.heartbeat
    requires Step(w, s, e).Some? && Step(w, s, e).value.fault != None
    ensures var t := Step(w, s, e).value;
            && t.fault in {Some(Crashed), Some(Unresponsive)} && t.server == Idle && NeverBuilt(t)
            && (t.child.Gone? <==> t.fault == Some(Crashed))
            && (!t.child.Gone? ==> AliveUntold(t))
  {
  }

  ghost predicate AliveUntold(s: State) {
    s.act in {NO_WORK, HEARTBEAT} && s.child in {Loop, WaitWork, Switch} && NeverBuilt(s) && s.server in {Idle, CleanUp}
  }

  /** So the constructor comes back from a failed heartbeat exactly when the child
    * crashed: nothing but its own death ends a child that is still alive, and
    * the clean-up does not end before. */
  lemma {:induction false} CleanUpWaitsForDeath(w: World, s: State, es: seq<Event>, t: State)
    requires AliveUntold(s) && Run(w, s, es, t)
    ensures ChildDies !in es ==> AliveUntold(t)
    ensures t.server == Destroyed ==> ChildDies in es
    decreases |es|
  {
    if es != [] && es[0] != ChildDies {
      CleanUpWaitsForDeath(w, Step(w, s, es[0]).value, es[1..], t);
    }
  }

  /** Where it hangs for good: nothing but the child's death can happen. */
  predicate Hangs(s: State) {
    s.server == CleanUp && s.child == WaitWork && s.act == NO_WORK
  }

  lemma HangsForGood(w: World, s: State, e: Event)
    requires Hangs(s)
    ensures Step(w, s, e).Some? <==> e == ChildDies
  {
  }

  /** The first exception is kept. */
  lemma {:induction false} FaultStays(w: World, s: State, es: seq<Event>, t: State)
    requires Run(w, s, es, t) && s.fault.Some?
    ensures t.fault == s.fault
    decreases |es|
  {
    if es != [] {
      FaultStays(w, Step(w, s, es[0]).value, es[1..], t);
    }
  }

  function Timeouts(n: nat): seq<Event> {
    if n == 0 then [] else [ServerTimeout] + Timeouts(n - 1)
  }

  lemma {:induction false} TimeoutsRun(w: World, s: State, n: nat)
    requires s.server.Waiting? && s.act == s.server.act && !s.child.Gone? && 1 <= n == MAX_WAIT_COUNT - s.server.waits
    ensures Run(w, s, Timeouts(n), Throw(s, Unresponsive))
    decreases n
  {
    var t := Step(w, s, ServerTimeout).value;
    assert Timeouts(n)[0] == ServerTimeout && Timeouts(n)[1..] == Timeouts(n - 1);
    if n > 1 {
      TimeoutsRun(w, t, n - 1);
    } else {
      assert Run(w, t, [], t);
    }
  }

  /** How often the server's wait timed out since it last sent anything. */
  ghost function Silent(es: seq<Event>): nat {
    if es == [] then 0
    else
      var e := es[|es| - 1];
      if e == ServerSend then 0 else Silent(es[..|es| - 1]) + if e == ServerTimeout then 1 else 0
  }

  lemma {:induction false} WaitsCounted(w: World, before: seq<Event>, s: State, es: seq<Event>, t: State)
    requires Run(w, s, es, t) && (s.server.Waiting? ==> s.server.waits == Silent(before))
    ensures t.server.Waiting? ==> t.server.waits == Silent(before + es)
    decreases |es|
  {
    hide DownStep, ChildStep;
    if es == [] {
      assert before + es == before;
    } else {
      var e, u := es[0], Step(w, s, es[0]).value;
      assert (before + [e])[..|before|] == before;
      StepCounts(w, s, e);
      WaitsCounted(w, before + [e], u, es[1..], t);
      assert before + es == before + [e] + es[1..];
    }
  }

  lemma StepCounts(w: World, s: State, e: Event)
    requires Step(w, s, e).Some?
    ensures var t := Step(w, s, e).value;
            t.server.Waiting? ==>
              if e == ServerSend then t.server.waits == 0
              else s.server.Waiting? && t.server.waits == s.server.waits + if e == ServerTimeout then 1 else 0
  {
  }

  /** The server gives up on a living child at the fifteenth wait without an answer,
    * and never before. */
  lemma UnresponsiveIff(w: World, es: seq<Event>, s: State, e: Event)
    requires Run(w, Start(), es, s) && s.fault == None && Step(w, s, e).Some?
    ensures Step(w, s, e).value.fault == Some(Unresponsive) <==> e == ServerTimeout && !s.child.Gone? && Silent(es + [e]) >= 15
  {
    hide *;
    SilentNext(es, e);
    NotWaitingAtFirst();
    WaitsCounted(w, [], Start(), es, s);
    assert [] + es == es;
    StepGivesUp(w, s, e);
  }

  lemma NotWaitingAtFirst()
    ensures !Start().server.Waiting?
  {
  }

  lemma SilentNext(es: seq<Event>, e: Event)
    ensures e == ServerTimeout ==> Silent(es + [e]) == Silent(es) + 1
  {
    assert (es + [e])[..|es|] == es;
  }

  lemma StepGivesUp(w: World, s: State, e: Event)
    requires Step(w, s, e).Some? && s.fault == None
    ensures e == ServerTimeout ==> s.server.Waiting?
    ensures Step(w, s, e).value.fault == Some(Unresponsive) <==> e == ServerTimeout && !s.child.Gone? && s.server.waits + 1 >= 15
  {
  }

  lemma {:induction false} RunAppend(w: World, s: State, es: seq<Event>, t: State, fs: seq<Event>, u: State)
    requires Run(w, s, es, t) && Run(w, t, fs, u)
    ensures Run(w, s, es + fs, u)
    decreases |es|
  {
    if es == [] {
      assert es + fs == fs;
    } else {
      assert (es + fs)[0] == es[0] && (es + fs)[1..] == es[1..] + fs;
      RunAppend(w, Step(w, s, es[0]).value, es[1..], t, fs, u);
    }
  }

  lemma OneStep(w: World, s: State, e: Event)
    requires Step(w, s, e).Some?
    ensures Run(w, s, [e], Step(w, s, e).value)
  {
    hide Step;
    assert [e][1..] == [];
  }

  /** And it happens: the child starts slowly, the heartbeat times out, and the
    * constructor waits for a child that waits for work. */
  lemma ConstructorCanHang(w: World) returns (es: seq<Event>, t: State)
    ensures Run(w, Start(), es, t) && t.fault == Some(Unresponsive) && Hangs(t)
  {
    hide Run;
    var s1 := Step(w, Start(), ServerSend).value;
    OneStep(w, Start(), ServerSend);
    var s2 := Throw(s1, Unresponsive);
    TimeoutsRun(w, s1, MAX_WAIT_COUNT);
    RunAppend(w, Start(), [ServerSend], s1, Timeouts(MAX_WAIT_COUNT), s2);
    var s3 := Step(w, s2, CtorFails).value;
    OneStep(w, s2, CtorFails);
    t := Step(w, s3, ChildLoop).value;
    OneStep(w, s3, ChildLoop);
    RunAppend(w, s2, [CtorFails], s3, [ChildLoop], t);
    es := [ServerSend] + Timeouts(MAX_WAIT_COUNT) + ([CtorFails] + [ChildLoop]);
    RunAppend(w, Start(), [ServerSend] + Timeouts(MAX_WAIT_COUNT), s2, [CtorFails] + [ChildLoop], t);
  }
}
