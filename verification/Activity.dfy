/**
 The activity (actor) protocol as interleaved steps: clients that send, run functions and stop, and one worker
 thread per activity that drains its queue. A step is one critical section, or one pool or heap call.
 */
module Activity {

  datatype Option<T> = None | Some(value: T)

  // ---- State ----

  /** What the pools and the heap hand out: message items, exec items and copied arguments. */
  datatype Resource = MsgItem(id: nat) | ExecItem(id: nat) | Copy(id: nat)

  const MSG_STOP := 1
  const MSG_EXEC := 2
  const UINT16_MAX := 0xffff

  /** The type a client passes as an int, as the message stores it in sixteen bits. */
  function Stored(kind: int): (t: nat)
    ensures t <= UINT16_MAX
  {
    kind % 0x1_0000
  }

  datatype Body =
    | Stop
    | Exec(execItem: Resource, execCopy: Option<Resource>)
    | User(kind: nat, copy: Option<Resource>)

  datatype Msg = Msg(item: Resource, body: Body) {
    // The handler goes by the message type alone.
    predicate Stops() { body.Stop? || (body.User? && body.kind == MSG_STOP) }

    /** A client's own argument would be taken for an exec item, called through and put into the exec pool. */
    predicate Misused() { body.User? && body.kind == MSG_EXEC }
  }

  datatype Phase = Stopped | Running | PendingStop

  datatype Worker =
    | NoThread
    | Starting
    | Waiting
    | Draining
    | Handling(msg: Msg)
    | Cleaning(todo: seq<Resource>)
    | Leaving

  /** `accepted` and `handled` record history. `launching` is the gap between thread creation and RUN. */
  datatype Act = Act(phase: Phase, queue: seq<Msg>, worker: Worker, exiting: bool, launching: bool,
                     accepted: seq<Msg>, handled: seq<Msg>)

  /** A client call in progress, or its result. */
  datatype Call =
    | Idle
    | Sending(to: nat, kind: int, copy: Option<Resource>)
    | ExecStarted(to: nat, item: Resource, wantsCopy: bool)
    | ExecReady(to: nat, item: Resource, copy: Option<Resource>)
    | Unwinding(todo: seq<Resource>, rc: int)
    | Returned(rc: int)

  /** `acquired` and `released` count history; `fault` records a release of something not held. */
  datatype State = State(acts: seq<Act>, calls: seq<Call>, live: set<Resource>,
                         acquired: multiset<Resource>, released: multiset<Resource>, fault: bool)

  const ENOMEM := -12
  const EINVAL := -22

  datatype Event =
    | RunBegin(a: nat)
    | RunCommit(a: nat)
    | WorkerInit(a: nat)
    | Wake(a: nat)
    | Dequeue(a: nat)
    | Handle(a: nat)
    | Clean(a: nat)
    | LoopExit(a: nat)
    | WorkerEnd(a: nat)
    | StopCall(a: nat, got: Option<nat>)
    | SendReject(c: nat, code: int)
    | SendBegin(c: nat, a: nat, kind: int, wantsCopy: bool, got: Option<nat>)
    | SendCommit(c: nat, got: Option<nat>)
    | ExecBegin(c: nat, a: nat, wantsCopy: bool, got: Option<nat>)
    | ExecCopy(c: nat, got: Option<nat>)
    | ExecCommit(c: nat, got: Option<nat>)
    | Unwind(c: nat)

  // ---- Steps ----

  function Acquire(s: State, r: Resource): State {
    s.(live := s.live + {r}, acquired := s.acquired + multiset{r})
  }

  function Release(s: State, r: Resource): State {
    if r in s.live then s.(live := s.live - {r}, released := s.released + multiset{r}) else s.(fault := true)
  }

  function SetAct(s: State, i: nat, a: Act): State
    requires i < |s.acts|
  {
    s.(acts := s.acts[i := a])
  }

  function SetCall(s: State, i: nat, c: Call): State
    requires i < |s.calls|
  {
    s.(calls := s.calls[i := c])
  }

  function Enqueue(a: Act, m: Msg): Act {
    a.(queue := a.queue + [m], accepted := a.accepted + [m])
  }

  function OptList(r: Option<Resource>): seq<Resource> {
    if r.Some? then [r.value] else []
  }

  /** What is given back after a message was handled, in the order of the source. */
  function Garbage(m: Msg): seq<Resource> {
    match m.body
    case Stop => [m.item]
    case Exec(item, copy) => OptList(copy) + [item] + [m.item]
    case User(_, copy) => OptList(copy) + [m.item]
  }

  /** A step of the worker, or of the call that launches it, as seen by the activity. */
  function WorkerAct(a: Act, e: Event): Act {
    match e
    case RunBegin(_) =>
      if a.phase.Stopped? && !a.launching then a.(worker := Starting, exiting := false, launching := true) else a
    case RunCommit(_) =>
      if a.launching then a.(phase := Running, launching := false) else a
    case WorkerInit(_) =>
      if a.worker.Starting? then a.(worker := Waiting) else a
    case Wake(_) =>
      if a.worker.Waiting? then a.(worker := Draining) else a
    case Dequeue(_) =>
      if !a.worker.Draining? then a
      else if a.queue == [] then a.(worker := Waiting)
      else a.(worker := Handling(a.queue[0]), queue := a.queue[1..])
    case Handle(_) =>
      if a.worker.Handling? then
        var m := a.worker.msg;
        a.(worker := Cleaning(Garbage(m)), handled := a.handled + [m], exiting := a.exiting || m.Stops())
      else a
    case Clean(_) =>
      if !a.worker.Cleaning? then a
      else if a.worker.todo == [] then a.(worker := Draining)
      else a.(worker := Cleaning(a.worker.todo[1..]))
    case LoopExit(_) =>
      if a.worker.Waiting? && a.exiting then a.(worker := Leaving) else a
    case WorkerEnd(_) =>
      if a.worker.Leaving? then a.(worker := NoThread, phase := Stopped) else a
    case _ => a
  }

  predicate Frees(a: Act, e: Event) {
    e.Clean? && a.worker.Cleaning? && a.worker.todo != []
  }

  /** The handler releases an exec item that is none. */
  predicate Misuses(a: Act, e: Event) {
    e.Handle? && a.worker.Handling? && a.worker.msg.Misused()
  }

  function StepWorker(s: State, i: nat, e: Event): State
    requires i < |s.acts|
  {
    var a := s.acts[i];
    var t := SetAct(s, i, WorkerAct(a, e));
    if Frees(a, e) then Release(t, a.worker.todo[0])
    else if Misuses(a, e) then t.(fault := true)
    else t
  }

  function StepStop(s: State, i: nat, got: Option<nat>): State
    requires i < |s.acts|
  {
    var a := s.acts[i];
    if !a.phase.Running? || got.None? || MsgItem(got.value) in s.live then s
    else Acquire(SetAct(s, i, Enqueue(a, Msg(MsgItem(got.value), Stop)).(phase := PendingStop)), MsgItem(got.value))
  }

  predicate Free(c: Call) { c.Idle? || c.Returned? }

  /** Both kinds of call end in the same critical section: post the message, or fail and give back `todo`. */
  function Post(s: State, c: nat, to: nat, body: Body, got: Option<nat>, todo: seq<Resource>): State
    requires c < |s.calls|
  {
    if to >= |s.acts| || (got.Some? && MsgItem(got.value) in s.live) then s
    else if !s.acts[to].phase.Running? then SetCall(s, c, Unwinding(todo, -1))
    else if got.None? then SetCall(s, c, Unwinding(todo, ENOMEM))
    else
      var m := Msg(MsgItem(got.value), body);
      Acquire(SetCall(SetAct(s, to, Enqueue(s.acts[to], m)), c, Returned(0)), m.item)
  }

  function StepCall(s: State, c: nat, e: Event): State
    requires c < |s.calls|
  {
    var k := s.calls[c];
    match e
    case SendReject(_, code) =>
      if Free(k) && code < 0 then SetCall(s, c, Returned(code)) else s
    case SendBegin(_, a, kind, wantsCopy, got) =>
      if !Free(k) then s
      else if kind > UINT16_MAX then SetCall(s, c, Returned(EINVAL))
      else if !wantsCopy then SetCall(s, c, Sending(a, kind, None))
      else if got.None? then SetCall(s, c, Returned(ENOMEM))
      else if Copy(got.value) in s.live then s
      else Acquire(SetCall(s, c, Sending(a, kind, Some(Copy(got.value)))), Copy(got.value))
    case SendCommit(_, got) =>
      if k.Sending? then Post(s, c, k.to, User(Stored(k.kind), k.copy), got, OptList(k.copy)) else s
    case ExecBegin(_, a, wantsCopy, got) =>
      if !Free(k) then s
      else if got.None? then SetCall(s, c, Returned(ENOMEM))
      else if ExecItem(got.value) in s.live then s
      else Acquire(SetCall(s, c, ExecStarted(a, ExecItem(got.value), wantsCopy)), ExecItem(got.value))
    case ExecCopy(_, got) =>
      if !k.ExecStarted? then s
      else if !k.wantsCopy then SetCall(s, c, ExecReady(k.to, k.item, None))
      else if got.None? then SetCall(s, c, Unwinding([k.item], ENOMEM))
      else if Copy(got.value) in s.live then s
      else Acquire(SetCall(s, c, ExecReady(k.to, k.item, Some(Copy(got.value)))), Copy(got.value))
    case ExecCommit(_, got) =>
      if k.ExecReady? then Post(s, c, k.to, Exec(k.item, k.copy), got, OptList(k.copy) + [k.item]) else s
    case Unwind(_) =>
      if !k.Unwinding? then s
      else if k.todo == [] then SetCall(s, c, Returned(k.rc))
      else Release(SetCall(s, c, Unwinding(k.todo[1..], k.rc)), k.todo[0])
    case _ => s
  }

  predicate ByCall(e: Event) {
    e.SendReject? || e.SendBegin? || e.SendCommit? || e.ExecBegin? || e.ExecCopy? || e.ExecCommit? || e.Unwind?
  }

  /** One step of the whole system; an event that is not enabled changes nothing. */
  function Next(s: State, e: Event): State {
    if ByCall(e) then (if e.c < |s.calls| then StepCall(s, e.c, e) else s)
    else if e.a >= |s.acts| then s
    else if e.StopCall? then StepStop(s, e.a, e.got)
    else StepWorker(s, e.a, e)
  }

  function Init(acts: nat, calls: nat): State {
    State(seq(acts, _ => Act(Stopped, [], NoThread, false, false, [], [])), seq(calls, _ => Idle),
          {}, multiset{}, multiset{}, false)
  }

  function Run(s: State, events: seq<Event>): State {
    if events == [] then s else Next(Run(s, events[..|events| - 1]), events[|events| - 1])
  }

  /** A type that a send refuses, or that is stored as neither STOP nor EXEC. */
  predicate Harmless(kind: int) {
    kind > UINT16_MAX || (Stored(kind) != MSG_STOP && Stored(kind) != MSG_EXEC)
  }

  predicate Polite(events: seq<Event>) {
    forall i :: 0 <= i < |events| && events[i].SendBegin? ==> Harmless(events[i].kind)
  }

  // ---- The protocol invariant of one activity ----

  function InFlight(w: Worker): seq<Msg> {
    if w.Handling? then [w.msg] else []
  }

  /** Accepted messages whose handler has not run yet. */
  function Outstanding(a: Act): seq<Msg> {
    InFlight(a.worker) + a.queue
  }

  predicate NoStop(q: seq<Msg>) {
    forall i :: 0 <= i < |q| ==> !q[i].Stops()
  }

  /** Exactly one STOP, and it is last. */
  predicate StopLast(q: seq<Msg>) {
    |q| > 0 && q[|q| - 1].Stops() && NoStop(q[..|q| - 1])
  }

  predicate PhaseOk(a: Act) {
    match a.phase
    case Running =>
      && NoStop(Outstanding(a)) && !a.exiting && !a.launching && !a.worker.NoThread? && !a.worker.Leaving?
    case PendingStop =>
      && !a.launching && !a.worker.NoThread?
      && (if a.exiting then Outstanding(a) == [] else StopLast(Outstanding(a)) && !a.worker.Leaving?)
    case Stopped =>
      && Outstanding(a) == []
      && (a.launching ==> !a.exiting && !a.worker.NoThread? && !a.worker.Leaving?)
      && (!a.launching ==> a.worker.NoThread?)
  }

  predicate OrderOk(a: Act) {
    a.accepted == a.handled + Outstanding(a)
  }

  /** No client message waits to be taken for an EXEC. */
  predicate Honest(q: seq<Msg>) {
    forall i :: 0 <= i < |q| ==> !q[i].Misused()
  }

  predicate ActOk(a: Act) {
    PhaseOk(a) && OrderOk(a) && Honest(Outstanding(a))
  }

  ghost predicate ProtocolOk(s: State) {
    && (forall i :: 0 <= i < |s.acts| ==> ActOk(s.acts[i]))
    && (forall c :: 0 <= c < |s.calls| && s.calls[c].Sending? ==>
        s.calls[c].kind <= UINT16_MAX && Harmless(s.calls[c].kind))
  }

  // ---- Ownership ----

  function CountIn(l: seq<Resource>, r: Resource): nat {
    if l == [] then 0 else (if l[0] == r then 1 else 0) + CountIn(l[1..], r)
  }

  function HeldMsgs(q: seq<Msg>, r: Resource): nat {
    if q == [] then 0 else CountIn(Garbage(q[0]), r) + HeldMsgs(q[1..], r)
  }

  function HeldAct(a: Act, r: Resource): nat {
    HeldMsgs(Outstanding(a), r) + (if a.worker.Cleaning? then CountIn(a.worker.todo, r) else 0)
  }

  function HeldCall(c: Call, r: Resource): nat {
    match c
    case Sending(_, _, copy) => CountIn(OptList(copy), r)
    case ExecStarted(_, item, _) => CountIn([item], r)
    case ExecReady(_, item, copy) => CountIn(OptList(copy) + [item], r)
    case Unwinding(todo, _) => CountIn(todo, r)
    case _ => 0
  }

  function HeldByActs(acts: seq<Act>, r: Resource): nat {
    if acts == [] then 0 else HeldAct(acts[0], r) + HeldByActs(acts[1..], r)
  }

  function HeldByCalls(calls: seq<Call>, r: Resource): nat {
    if calls == [] then 0 else HeldCall(calls[0], r) + HeldByCalls(calls[1..], r)
  }

  /** How many queued or in-flight messages and calls in progress hold `r`. */
  function Held(s: State, r: Resource): nat {
    HeldByActs(s.acts, r) + HeldByCalls(s.calls, r)
  }

  /** A live resource has exactly one holder, any other none; each acquisition is still held or was undone once. */
  predicate Balanced(s: State, r: Resource) {
    && Held(s, r) == (if r in s.live then 1 else 0)
    && s.acquired[r] == s.released[r] + Held(s, r)
  }

  ghost predicate Conserved(s: State) {
    !s.fault && forall r :: Balanced(s, r)
  }

  // ---- Counting holders ----

  lemma {:induction false} CountAppend(l: seq<Resource>, x: Resource, r: Resource)
    ensures CountIn(l + [x], r) == CountIn(l, r) + (if x == r then 1 else 0)
  {
    if l == [] {
      assert l + [x] == [x];
    } else {
      CountAppend(l[1..], x, r);
      assert (l + [x])[1..] == l[1..] + [x];
    }
  }

  lemma CountSingle(x: Resource)
    ensures forall r :: CountIn([x], r) == if r == x then 1 else 0
  {
    assert [x][1..] == [];
  }

  lemma {:induction false} HeldMsgsAppend(q: seq<Msg>, m: Msg, r: Resource)
    ensures HeldMsgs(q + [m], r) == HeldMsgs(q, r) + CountIn(Garbage(m), r)
  {
    if q == [] {
      assert q + [m] == [m];
    } else {
      HeldMsgsAppend(q[1..], m, r);
      assert (q + [m])[1..] == q[1..] + [m];
    }
  }

  lemma {:induction false} HeldActsUpdate(acts: seq<Act>, i: nat, a: Act, r: Resource)
    requires i < |acts|
    ensures HeldByActs(acts[i := a], r) == HeldByActs(acts, r) - HeldAct(acts[i], r) + HeldAct(a, r)
  {
    hide HeldAct;
    if i == 0 {
      assert acts[i := a][1..] == acts[1..];
    } else {
      assert acts[i := a][1..] == acts[1..][i - 1 := a];
      HeldActsUpdate(acts[1..], i - 1, a, r);
    }
  }

  lemma {:induction false} HeldCallsUpdate(calls: seq<Call>, i: nat, c: Call, r: Resource)
    requires i < |calls|
    ensures HeldByCalls(calls[i := c], r) == HeldByCalls(calls, r) - HeldCall(calls[i], r) + HeldCall(c, r)
  {
    hide HeldCall;
    if i == 0 {
      assert calls[i := c][1..] == calls[1..];
    } else {
      assert calls[i := c][1..] == calls[1..][i - 1 := c];
      HeldCallsUpdate(calls[1..], i - 1, c, r);
    }
  }

  lemma HeldEnqueue(a: Act, m: Msg, r: Resource)
    ensures HeldAct(Enqueue(a, m), r) == HeldAct(a, r) + CountIn(Garbage(m), r)
  {
    hide Garbage, CountIn;
    assert Outstanding(Enqueue(a, m)) == Outstanding(a) + [m];
    HeldMsgsAppend(Outstanding(a), m, r);
  }

  // ---- Ownership is conserved by every step ----

  lemma SwapAct(s: State, i: nat, a: Act, r: Resource)
    requires i < |s.acts|
    ensures Held(SetAct(s, i, a), r) == Held(s, r) - HeldAct(s.acts[i], r) + HeldAct(a, r)
  {
    HeldActsUpdate(s.acts, i, a, r);
  }

  lemma SwapCall(s: State, c: nat, k: Call, r: Resource)
    requires c < |s.calls|
    ensures Held(SetCall(s, c, k), r) == Held(s, r) - HeldCall(s.calls[c], r) + HeldCall(k, r)
  {
    HeldCallsUpdate(s.calls, c, k, r);
  }

  /** An activity changes without gaining or losing anything. */
  lemma MoveInAct(s: State, i: nat, a: Act)
    requires Conserved(s) && i < |s.acts| && forall r :: HeldAct(a, r) == HeldAct(s.acts[i], r)
    ensures Conserved(SetAct(s, i, a))
  {
    hide HeldAct, Held;
    forall r ensures Balanced(SetAct(s, i, a), r) { SwapAct(s, i, a, r); assert Balanced(s, r); }
  }

  lemma MoveInCall(s: State, c: nat, k: Call)
    requires Conserved(s) && c < |s.calls| && forall r :: HeldCall(k, r) == HeldCall(s.calls[c], r)
    ensures Conserved(SetCall(s, c, k))
  {
    hide HeldCall, Held;
    forall r ensures Balanced(SetCall(s, c, k), r) { SwapCall(s, c, k, r); assert Balanced(s, r); }
  }

  lemma AcquireConserves(s: State, t: State, x: Resource)
    requires Conserved(s) && x !in s.live
    requires forall r :: Held(t, r) == Held(s, r) + (if r == x then 1 else 0)
    requires t.live == s.live && t.acquired == s.acquired && t.released == s.released && t.fault == s.fault
    ensures Conserved(Acquire(t, x))
  {
    var u := Acquire(t, x);
    forall r
      ensures Balanced(u, r)
    {
      assert Balanced(s, r);
      assert Held(u, r) == Held(t, r);
    }
  }

  lemma ReleaseConserves(s: State, t: State, x: Resource)
    requires Conserved(s)
    requires forall r :: Held(t, r) == Held(s, r) - (if r == x then 1 else 0)
    requires t.live == s.live && t.acquired == s.acquired && t.released == s.released && t.fault == s.fault
    ensures Conserved(Release(t, x))
  {
    var u := Release(t, x);
    assert Balanced(s, x) && Held(t, x) == Held(s, x) - 1;
    forall r
      ensures Balanced(u, r)
    {
      assert Balanced(s, r);
      assert Held(u, r) == Held(t, r);
    }
  }

  lemma HandleMoves(a: Act, e: Event, r: Resource)
    requires a.worker.Handling? && e.Handle?
    ensures HeldAct(WorkerAct(a, e), r) == HeldAct(a, r)
  {
    hide Garbage, CountIn;
    assert Outstanding(a)[1..] == a.queue;
    assert [] + a.queue == a.queue;
  }

  lemma WorkerMoves(a: Act, e: Event, r: Resource)
    requires !Frees(a, e) && (a.phase.Stopped? && !a.launching ==> a.worker.NoThread?)
    ensures HeldAct(WorkerAct(a, e), r) == HeldAct(a, r)
  {
    hide Garbage, CountIn, HeldMsgs;
    if e.Handle? && a.worker.Handling? {
      HandleMoves(a, e, r);
    } else if e.Dequeue? && a.worker.Draining? && a.queue != [] {
      TakesFirst(a, e);
    } else {
      NothingInEmpty(r);
      assert InFlight(WorkerAct(a, e).worker) == InFlight(a.worker);
    }
  }

  lemma NothingInEmpty(r: Resource)
    ensures CountIn([], r) == 0
  {
  }

  /** A worker step conserves ownership if and only if it does not handle a client message as an EXEC. */
  lemma WorkerConserves(s: State, i: nat, e: Event)
    requires Conserved(s) && i < |s.acts| && PhaseOk(s.acts[i])
    ensures Conserved(StepWorker(s, i, e)) <==> !Misuses(s.acts[i], e)
  {
    hide HeldAct, Balanced, Frees, WorkerAct;
    var a := s.acts[i];
    if Frees(a, e) {
      CleaningIs(a, e);
      CleanConserves(s, i);
    } else if !Misuses(a, e) {
      forall r
        ensures HeldAct(WorkerAct(a, e), r) == HeldAct(a, r)
      {
        WorkerMoves(a, e, r);
      }
      MoveInAct(s, i, WorkerAct(a, e));
    }
  }

  lemma CleaningIs(a: Act, e: Event)
    requires Frees(a, e)
    ensures a.worker.Cleaning? && a.worker.todo != [] && WorkerAct(a, e) == a.(worker := Cleaning(a.worker.todo[1..]))
    ensures !Misuses(a, e)
  {
  }

  lemma CleanConserves(s: State, i: nat)
    requires Conserved(s) && i < |s.acts| && s.acts[i].worker.Cleaning? && s.acts[i].worker.todo != []
    ensures var a := s.acts[i];
            Conserved(Release(SetAct(s, i, a.(worker := Cleaning(a.worker.todo[1..]))), a.worker.todo[0]))
  {
    hide Conserved;
    var a := s.acts[i];
    var b := a.(worker := Cleaning(a.worker.todo[1..]));
    forall r
      ensures Held(SetAct(s, i, b), r) == Held(s, r) - (if r == a.worker.todo[0] then 1 else 0)
    {
      SwapAct(s, i, b, r);
      assert Outstanding(b) == Outstanding(a);
    }
    ReleaseConserves(s, SetAct(s, i, b), a.worker.todo[0]);
  }

  lemma StopConserves(s: State, i: nat, got: Option<nat>)
    requires Conserved(s) && i < |s.acts|
    ensures Conserved(StepStop(s, i, got))
  {
    hide Conserved;
    var a := s.acts[i];
    if StepStop(s, i, got) != s {
      var m := Msg(MsgItem(got.value), Stop);
      var b := Enqueue(a, m).(phase := PendingStop);
      forall r
        ensures Held(SetAct(s, i, b), r) == Held(s, r) + (if r == m.item then 1 else 0)
      {
        HeldEnqueue(a, m, r);
        SwapAct(s, i, b, r);
      }
      AcquireConserves(s, SetAct(s, i, b), m.item);
    }
  }

  /** Posting moves what the call holds into the message, plus the message item itself. */
  lemma PostConserves(s: State, c: nat, to: nat, body: Body, got: Option<nat>, todo: seq<Resource>)
    requires Conserved(s) && c < |s.calls| && forall r :: HeldCall(s.calls[c], r) == CountIn(todo, r)
    requires forall item: Resource :: Garbage(Msg(item, body)) == todo + [item]
    ensures Conserved(Post(s, c, to, body, got, todo))
  {
    hide Conserved, CountIn, Garbage, HeldByActs, HeldByCalls;
    if to < |s.acts| && !(got.Some? && MsgItem(got.value) in s.live) {
      if !s.acts[to].phase.Running? {
        MoveInCall(s, c, Unwinding(todo, -1));
      } else if got.None? {
        MoveInCall(s, c, Unwinding(todo, ENOMEM));
      } else {
        var m := Msg(MsgItem(got.value), body);
        var t := SetAct(s, to, Enqueue(s.acts[to], m));
        forall r
          ensures Held(SetCall(t, c, Returned(0)), r) == Held(s, r) + (if r == m.item then 1 else 0)
        {
          HeldEnqueue(s.acts[to], m, r);
          SwapAct(s, to, Enqueue(s.acts[to], m), r);
          SwapCall(t, c, Returned(0), r);
          CountAppend(todo, m.item, r);
        }
        AcquireConserves(s, SetCall(t, c, Returned(0)), m.item);
      }
    }
  }

  /** A call takes one more resource. */
  lemma TakeConserves(s: State, c: nat, k: Call, x: Resource)
    requires Conserved(s) && c < |s.calls| && x !in s.live
    requires forall r :: HeldCall(k, r) == HeldCall(s.calls[c], r) + (if r == x then 1 else 0)
    ensures Conserved(Acquire(SetCall(s, c, k), x))
  {
    hide Conserved, HeldCall, Held;
    forall r
      ensures Held(SetCall(s, c, k), r) == Held(s, r) + (if r == x then 1 else 0)
    {
      SwapCall(s, c, k, r);
    }
    AcquireConserves(s, SetCall(s, c, k), x);
  }

  lemma UnwindConserves(s: State, c: nat)
    requires Conserved(s) && c < |s.calls| && s.calls[c].Unwinding? && s.calls[c].todo != []
    ensures var k := s.calls[c]; Conserved(Release(SetCall(s, c, Unwinding(k.todo[1..], k.rc)), k.todo[0]))
  {
    hide Conserved, Held;
    var k := s.calls[c];
    var b := Unwinding(k.todo[1..], k.rc);
    forall r
      ensures Held(SetCall(s, c, b), r) == Held(s, r) - (if r == k.todo[0] then 1 else 0)
    {
      SwapCall(s, c, b, r);
    }
    ReleaseConserves(s, SetCall(s, c, b), k.todo[0]);
  }

  lemma CallConserves(s: State, c: nat, e: Event)
    requires Conserved(s) && c < |s.calls|
    ensures Conserved(StepCall(s, c, e))
  {
    hide Conserved, Held, Acquire, Release, Post, SetCall;
    var k := s.calls[c];
    match e
    case SendReject(_, code) =>
      if Free(k) && code < 0 { MoveInCall(s, c, Returned(code)); }
    case SendBegin(_, a, kind, wantsCopy, got) =>
      if Free(k) {
        if kind > UINT16_MAX {
          MoveInCall(s, c, Returned(EINVAL));
        } else if !wantsCopy {
          MoveInCall(s, c, Sending(a, kind, None));
        } else if got.None? {
          MoveInCall(s, c, Returned(ENOMEM));
        } else if Copy(got.value) !in s.live {
          CountSingle(Copy(got.value));
          TakeConserves(s, c, Sending(a, kind, Some(Copy(got.value))), Copy(got.value));
        }
      }
    case SendCommit(_, got) =>
      if k.Sending? { PostConserves(s, c, k.to, User(Stored(k.kind), k.copy), got, OptList(k.copy)); }
    case ExecBegin(_, a, wantsCopy, got) =>
      if Free(k) {
        if got.None? {
          MoveInCall(s, c, Returned(ENOMEM));
        } else if ExecItem(got.value) !in s.live {
          CountSingle(ExecItem(got.value));
          TakeConserves(s, c, ExecStarted(a, ExecItem(got.value), wantsCopy), ExecItem(got.value));
        }
      }
    case ExecCopy(_, got) =>
      if k.ExecStarted? {
        if !k.wantsCopy {
          assert OptList(None) + [k.item] == [k.item];
          MoveInCall(s, c, ExecReady(k.to, k.item, None));
        } else if got.None? {
          MoveInCall(s, c, Unwinding([k.item], ENOMEM));
        } else if Copy(got.value) !in s.live {
          assert (OptList(Some(Copy(got.value))) + [k.item])[1..] == [k.item];
          TakeConserves(s, c, ExecReady(k.to, k.item, Some(Copy(got.value))), Copy(got.value));
        }
      }
    case ExecCommit(_, got) =>
      if k.ExecReady? { PostConserves(s, c, k.to, Exec(k.item, k.copy), got, OptList(k.copy) + [k.item]); }
    case Unwind(_) =>
      if k.Unwinding? {
        if k.todo == [] { MoveInCall(s, c, Returned(k.rc)); } else { UnwindConserves(s, c); }
      }
    case _ =>
  }

  // ---- The protocol is kept by every step ----

  lemma HandleKeeps(a: Act)
    requires PhaseOk(a) && OrderOk(a) && a.worker.Handling?
    ensures var m := a.worker.msg;
            var b := a.(worker := Cleaning(Garbage(m)), handled := a.handled + [m], exiting := a.exiting || m.Stops());
            PhaseOk(b) && OrderOk(b)
  {
    hide Garbage, NoStop, StopLast, Outstanding;
    var m := a.worker.msg;
    var b := a.(worker := Cleaning(Garbage(m)), handled := a.handled + [m], exiting := a.exiting || m.Stops());
    HandlingFirst(a, b);
    assert a.handled + ([m] + a.queue) == (a.handled + [m]) + a.queue;
    FirstHandled(Outstanding(a));
  }

  lemma HandlingFirst(a: Act, b: Act)
    requires a.worker.Handling? && b.worker.Cleaning? && b.queue == a.queue
    ensures var q := Outstanding(a);
            q == [a.worker.msg] + a.queue && |q| > 0 && q[0] == a.worker.msg && q[1..] == a.queue == Outstanding(b)
  {
  }

  lemma FirstHandled(q: seq<Msg>)
    requires |q| > 0
    ensures NoStop(q) ==> !q[0].Stops() && NoStop(q[1..])
    ensures StopLast(q) ==> if |q| == 1 then q[0].Stops() else !q[0].Stops() && StopLast(q[1..])
  {
    if |q| > 1 {
      assert q[..|q| - 1][0] == q[0];
      assert q[1..][..|q| - 2] == q[..|q| - 1][1..];
    }
  }

  lemma DequeueKeeps(a: Act)
    requires PhaseOk(a) && OrderOk(a) && a.worker.Draining? && a.queue != []
    ensures var b := a.(worker := Handling(a.queue[0]), queue := a.queue[1..]); PhaseOk(b) && OrderOk(b)
  {
    var b := a.(worker := Handling(a.queue[0]), queue := a.queue[1..]);
    assert Outstanding(b) == a.queue == Outstanding(a);
  }

  lemma WorkerKeeps(a: Act, e: Event)
    requires PhaseOk(a) && OrderOk(a)
    ensures PhaseOk(WorkerAct(a, e)) && OrderOk(WorkerAct(a, e))
    ensures Honest(Outstanding(a)) ==> Honest(Outstanding(WorkerAct(a, e)))
  {
    hide PhaseOk, OrderOk, Honest, Outstanding, WorkerAct;
    if e.Dequeue? && a.worker.Draining? && a.queue != [] {
      TakesFirst(a, e);
      DequeueKeeps(a);
    } else if e.Handle? && a.worker.Handling? {
      HandlesFirst(a, e);
      HandleKeeps(a);
    } else {
      OtherStepKeeps(a, e);
    }
  }

  lemma TakesFirst(a: Act, e: Event)
    requires e.Dequeue? && a.worker.Draining? && a.queue != []
    ensures WorkerAct(a, e) == a.(worker := Handling(a.queue[0]), queue := a.queue[1..])
    ensures Outstanding(WorkerAct(a, e)) == Outstanding(a)
  {
    assert Outstanding(WorkerAct(a, e)) == a.queue == Outstanding(a);
  }

  lemma HandlesFirst(a: Act, e: Event)
    requires e.Handle? && a.worker.Handling?
    ensures var m := a.worker.msg;
            WorkerAct(a, e) ==
              a.(worker := Cleaning(Garbage(m)), handled := a.handled + [m], exiting := a.exiting || m.Stops())
    ensures Honest(Outstanding(a)) ==> Honest(Outstanding(WorkerAct(a, e)))
  {
    hide Garbage;
    HandlingFirst(a, WorkerAct(a, e));
  }

  /** Every other step of a worker leaves the outstanding messages alone. */
  lemma OtherStepKeeps(a: Act, e: Event)
    requires PhaseOk(a) && OrderOk(a)
    requires !(e.Dequeue? && a.worker.Draining? && a.queue != []) && !(e.Handle? && a.worker.Handling?)
    ensures PhaseOk(WorkerAct(a, e)) && OrderOk(WorkerAct(a, e)) && Outstanding(WorkerAct(a, e)) == Outstanding(a)
  {
    hide StopLast, NoStop, Garbage, Outstanding;
    SameOutstanding(a, e);
    NothingStops();
  }

  lemma SameOutstanding(a: Act, e: Event)
    requires PhaseOk(a)
    requires !(e.Dequeue? && a.worker.Draining? && a.queue != []) && !(e.Handle? && a.worker.Handling?)
    ensures Outstanding(WorkerAct(a, e)) == Outstanding(a)
  {
    hide StopLast, NoStop, Garbage;
    assert InFlight(WorkerAct(a, e).worker) == InFlight(a.worker);
  }

  lemma NothingStops()
    ensures NoStop([])
  {
  }

  /**
   A running activity keeps its phase under a post just when the message does not have the type of STOP, and stays
   free of messages that would be misused just when it does not have the type of EXEC.
   */
  lemma EnqueueKeeps(a: Act, m: Msg)
    requires PhaseOk(a) && OrderOk(a) && a.phase.Running?
    ensures OrderOk(Enqueue(a, m))
    ensures PhaseOk(Enqueue(a, m)) <==> !m.Stops()
    ensures Honest(Outstanding(Enqueue(a, m))) <==> Honest(Outstanding(a)) && !m.Misused()
    ensures Outstanding(Enqueue(a, m).(phase := PendingStop)) == Outstanding(Enqueue(a, m))
    ensures m.Stops() ==> PhaseOk(Enqueue(a, m).(phase := PendingStop)) && OrderOk(Enqueue(a, m).(phase := PendingStop))
  {
    var q := Outstanding(a);
    assert Outstanding(Enqueue(a, m)) == q + [m] == Outstanding(Enqueue(a, m).(phase := PendingStop));
    assert (q + [m])[..|q|] == q && (q + [m])[|q|] == m;
    assert forall i :: 0 <= i < |q| ==> (q + [m])[i] == q[i];
  }

  lemma ActChangeKeeps(s: State, i: nat, a: Act)
    requires ProtocolOk(s) && i < |s.acts| && ActOk(a)
    ensures ProtocolOk(SetAct(s, i, a))
  {
    hide ActOk, Harmless;
  }

  lemma CallChangeKeeps(s: State, c: nat, k: Call)
    requires ProtocolOk(s) && c < |s.calls| && (k.Sending? ==> k.kind <= UINT16_MAX && Harmless(k.kind))
    ensures ProtocolOk(SetCall(s, c, k))
  {
    hide ActOk, Harmless;
  }

  lemma MemoryChangeKeeps(s: State, r: Resource)
    requires ProtocolOk(s)
    ensures ProtocolOk(Acquire(s, r)) && ProtocolOk(Release(s, r)) && ProtocolOk(s.(fault := true))
  {
    hide ActOk, Harmless;
  }

  lemma PostKeeps(s: State, c: nat, to: nat, body: Body, got: Option<nat>, todo: seq<Resource>)
    requires ProtocolOk(s) && c < |s.calls| && !Msg(MsgItem(0), body).Stops() && !Msg(MsgItem(0), body).Misused()
    ensures ProtocolOk(Post(s, c, to, body, got, todo))
  {
    hide PhaseOk, OrderOk, Honest, Harmless;
    CallChangeKeeps(s, c, Unwinding(todo, -1));
    CallChangeKeeps(s, c, Unwinding(todo, ENOMEM));
    if to < |s.acts| && s.acts[to].phase.Running? && got.Some? {
      var m := Msg(MsgItem(got.value), body);
      EnqueueKeeps(s.acts[to], m);
      ActChangeKeeps(s, to, Enqueue(s.acts[to], m));
      CallChangeKeeps(SetAct(s, to, Enqueue(s.acts[to], m)), c, Returned(0));
      MemoryChangeKeeps(SetCall(SetAct(s, to, Enqueue(s.acts[to], m)), c, Returned(0)), m.item);
    }
  }

  lemma CallKeeps(s: State, c: nat, e: Event)
    requires ProtocolOk(s) && c < |s.calls| && (e.SendBegin? ==> Harmless(e.kind))
    ensures ProtocolOk(StepCall(s, c, e))
  {
    var k := s.calls[c];
    assert k.Sending? ==> k.kind <= UINT16_MAX && Harmless(k.kind);
    CallStepKeeps(s, c, e);
  }

  lemma CallStepKeeps(s: State, c: nat, e: Event)
    requires ProtocolOk(s) && c < |s.calls| && (e.SendBegin? ==> Harmless(e.kind))
    requires s.calls[c].Sending? ==> s.calls[c].kind <= UINT16_MAX && Harmless(s.calls[c].kind)
    ensures ProtocolOk(StepCall(s, c, e))
  {
    hide ProtocolOk, Post, Acquire, Release, SetCall;
    var k := s.calls[c];
    if e.SendCommit? && k.Sending? {
      PostKeeps(s, c, k.to, User(Stored(k.kind), k.copy), e.got, OptList(k.copy));
    } else if e.ExecCommit? && k.ExecReady? {
      PostKeeps(s, c, k.to, Exec(k.item, k.copy), e.got, OptList(k.copy) + [k.item]);
    } else if e.Unwind? && k.Unwinding? && k.todo != [] {
      CallChangeKeeps(s, c, Unwinding(k.todo[1..], k.rc));
      MemoryChangeKeeps(SetCall(s, c, Unwinding(k.todo[1..], k.rc)), k.todo[0]);
    } else {
      forall x: Call | x.Sending? ==> x.kind <= UINT16_MAX && Harmless(x.kind)
        ensures ProtocolOk(SetCall(s, c, x)) && forall r :: ProtocolOk(Acquire(SetCall(s, c, x), r))
      {
        CallChangeKeeps(s, c, x);
        forall r ensures ProtocolOk(Acquire(SetCall(s, c, x), r)) { MemoryChangeKeeps(SetCall(s, c, x), r); }
      }
    }
  }

  lemma NextKeeps(s: State, e: Event)
    requires ProtocolOk(s) && (e.SendBegin? ==> Harmless(e.kind))
    ensures ProtocolOk(Next(s, e))
  {
    hide PhaseOk, OrderOk, Honest, Harmless, StepCall, WorkerAct;
    if ByCall(e) {
      if e.c < |s.calls| { CallKeeps(s, e.c, e); }
    } else if e.a < |s.acts| {
      var a := s.acts[e.a];
      if e.StopCall? {
        if a.phase.Running? && e.got.Some? {
          var m := Msg(MsgItem(e.got.value), Stop);
          EnqueueKeeps(a, m);
          ActChangeKeeps(s, e.a, Enqueue(a, m).(phase := PendingStop));
        }
      } else {
        WorkerKeeps(a, e);
        ActChangeKeeps(s, e.a, WorkerAct(a, e));
        MemoryChangeKeeps(SetAct(s, e.a, WorkerAct(a, e)), if Frees(a, e) then a.worker.todo[0] else MsgItem(0));
      }
    }
  }

  lemma NextConserves(s: State, e: Event)
    requires ProtocolOk(s) && Conserved(s)
    ensures Conserved(Next(s, e))
  {
    if ByCall(e) {
      if e.c < |s.calls| { CallConserves(s, e.c, e); }
    } else if e.a < |s.acts| {
      if e.StopCall? {
        StopConserves(s, e.a, e.got);
      } else {
        HonestWorker(s.acts[e.a], e);
        WorkerConserves(s, e.a, e);
      }
    }
  }

  lemma HonestWorker(a: Act, e: Event)
    requires ActOk(a)
    ensures PhaseOk(a) && !Misuses(a, e)
  {
    if a.worker.Handling? { assert Outstanding(a)[0] == a.worker.msg; }
  }

  lemma InitConserved(acts: nat, calls: nat)
    ensures Conserved(Init(acts, calls))
  {
    var s := Init(acts, calls);
    forall r
      ensures Balanced(s, r)
    {
      NothingHeldByActs(s.acts, r);
      NothingHeldByCalls(s.calls, r);
    }
  }

  lemma {:induction false} NothingHeldByActs(acts: seq<Act>, r: Resource)
    requires forall i :: 0 <= i < |acts| ==> HeldAct(acts[i], r) == 0
    ensures HeldByActs(acts, r) == 0
  {
    hide HeldAct;
    if acts != [] { NothingHeldByActs(acts[1..], r); }
  }

  lemma {:induction false} NothingHeldByCalls(calls: seq<Call>, r: Resource)
    requires forall i :: 0 <= i < |calls| ==> HeldCall(calls[i], r) == 0
    ensures HeldByCalls(calls, r) == 0
  {
    hide HeldCall;
    if calls != [] { NothingHeldByCalls(calls[1..], r); }
  }

  // ---- Every run ----

  /** Every interleaving keeps the protocol and conserves ownership. */
  lemma {:induction false} EveryRun(acts: nat, calls: nat, events: seq<Event>)
    requires Polite(events)
    ensures ProtocolOk(Run(Init(acts, calls), events)) && Conserved(Run(Init(acts, calls), events))
  {
    if events == [] {
      InitConserved(acts, calls);
    } else {
      var n := |events| - 1;
      EveryRun(acts, calls, events[..n]);
      var s := Run(Init(acts, calls), events[..n]);
      NextKeeps(s, events[n]);
      NextConserves(s, events[n]);
    }
  }

  /** An activity found stopped has an empty queue, and has handled all it accepted, once each and in order. */
  lemma StoppedIsDrained(acts: nat, calls: nat, events: seq<Event>, i: nat)
    requires Polite(events) && i < |Run(Init(acts, calls), events).acts|
    ensures var a := Run(Init(acts, calls), events).acts[i];
            a.phase.Stopped? ==> a.queue == [] && a.handled == a.accepted
  {
    EveryRun(acts, calls, events);
    var a := Run(Init(acts, calls), events).acts[i];
    if a.phase.Stopped? { assert a.accepted == a.handled + Outstanding(a); }
  }

  /** When all activities are stopped and no call is in progress, everything acquired was released exactly once. */
  lemma NothingLeaks(acts: nat, calls: nat, events: seq<Event>)
    requires Polite(events)
    requires forall i :: 0 <= i < |Run(Init(acts, calls), events).acts| ==>
               var a := Run(Init(acts, calls), events).acts[i]; a.phase.Stopped? && !a.launching
    requires forall c :: 0 <= c < |Run(Init(acts, calls), events).calls| ==>
             Free(Run(Init(acts, calls), events).calls[c])
    ensures var s := Run(Init(acts, calls), events); s.live == {} && s.acquired == s.released && !s.fault
  {
    hide Run, HeldAct, HeldByActs, HeldByCalls, PhaseOk, OrderOk;
    var s := Run(Init(acts, calls), events);
    EveryRun(acts, calls, events);
    forall r
      ensures r !in s.live && s.acquired[r] == s.released[r]
    {
      forall i | 0 <= i < |s.acts|
        ensures HeldAct(s.acts[i], r) == 0
      {
        RestingHoldsNothing(s.acts[i], r);
      }
      NothingHeldByActs(s.acts, r);
      NothingHeldByCalls(s.calls, r);
      assert Balanced(s, r);
    }
    assert s.live == {};
    assert s.acquired == s.released;
  }

  lemma RestingHoldsNothing(a: Act, r: Resource)
    requires PhaseOk(a) && a.phase.Stopped? && !a.launching
    ensures HeldAct(a, r) == 0
  {
  }

  // ---- Every stop can complete ----

  /** The step a worker can take next. */
  function NextStep(a: Act, i: nat): Event {
    match a.worker
    case Starting => WorkerInit(i)
    case Waiting => if a.exiting then LoopExit(i) else Wake(i)
    case Draining => Dequeue(i)
    case Handling(_) => Handle(i)
    case Cleaning(_) => Clean(i)
    case Leaving => WorkerEnd(i)
    case NoThread => WorkerEnd(i)
  }

  /** An upper bound for the number of steps a worker with a STOP in sight still has to take. */
  function StepsLeft(a: Act): nat {
    10 * |a.queue| +
    match a.worker
    case NoThread => 0
    case Leaving => 1
    case Waiting => if a.exiting then 2 else 4
    case Draining => 3
    case Cleaning(todo) => 4 + |todo|
    case Handling(m) => 5 + |Garbage(m)|
    case Starting => 5
  }

  lemma GarbageIsShort(m: Msg)
    ensures |Garbage(m)| <= 3
  {
  }

  /** Each such step brings a stopping worker closer to its end. */
  lemma StepIsProgress(a: Act, i: nat)
    requires PhaseOk(a) && a.phase.PendingStop?
    ensures var b := WorkerAct(a, NextStep(a, i));
            if b.phase.PendingStop? then StepsLeft(b) < StepsLeft(a) else b.phase.Stopped?
  {
    hide Garbage, NoStop, WorkerAct, PhaseOk, StepsLeft;
    match a.worker {
      case Draining => DrainIsProgress(a, i);
      case Handling(_) => HandleIsProgress(a, i);
      case _ => OtherStepIsProgress(a, i);
    }
  }

  lemma HandleIsProgress(a: Act, i: nat)
    requires PhaseOk(a) && a.worker.Handling? && a.phase.PendingStop?
    ensures var b := WorkerAct(a, Handle(i)); b.phase.PendingStop? && StepsLeft(b) < StepsLeft(a)
  {
    hide Garbage, NoStop, StopLast;
  }

  lemma OtherStepIsProgress(a: Act, i: nat)
    requires PhaseOk(a) && !a.worker.Handling? && !a.worker.Draining? && a.phase.PendingStop?
    ensures var b := WorkerAct(a, NextStep(a, i));
            if b.phase.PendingStop? then StepsLeft(b) < StepsLeft(a) else b.phase.Stopped?
  {
    hide Garbage, NoStop, StopLast;
  }

  lemma DrainIsProgress(a: Act, i: nat)
    requires PhaseOk(a) && a.worker.Draining? && a.phase.PendingStop?
    ensures var b := WorkerAct(a, Dequeue(i)); b.phase.PendingStop? && StepsLeft(b) < StepsLeft(a)
  {
    hide Garbage, NoStop;
    if a.queue != [] { GarbageIsShort(a.queue[0]); }
  }

  /** All steps are taken by the worker of activity `i`. */
  predicate WorkerOnly(events: seq<Event>, i: nat) {
    forall k :: 0 <= k < |events| ==> !ByCall(events[k]) && !events[k].StopCall? && events[k].a == i
  }

  lemma {:induction false} RunFirst(s: State, e: Event, events: seq<Event>)
    ensures Run(s, [e] + events) == Run(Next(s, e), events)
  {
    hide Next;
    var all := [e] + events;
    if events == [] {
      assert all[..0] == [];
    } else {
      var n := |events| - 1;
      assert all[..|all| - 1] == [e] + events[..n];
      RunFirst(s, e, events[..n]);
    }
  }

  lemma StepOfWorker(s: State, i: nat)
    requires i < |s.acts|
    ensures var e := NextStep(s.acts[i], i); var t := Next(s, e);
            && !ByCall(e) && !e.StopCall? && e.a == i
            && |t.acts| == |s.acts| && t.acts[i] == WorkerAct(s.acts[i], e)
  {
    hide WorkerAct;
  }

  /** A stopping activity is never stuck: its own worker's steps alone lead to STOP. */
  lemma {:induction false} StopCompletes(s: State, i: nat) returns (events: seq<Event>)
    requires i < |s.acts| && s.acts[i].phase.PendingStop? && PhaseOk(s.acts[i]) && OrderOk(s.acts[i])
    ensures WorkerOnly(events, i)
    ensures i < |Run(s, events).acts| && Run(s, events).acts[i].phase.Stopped?
    decreases StepsLeft(s.acts[i])
  {
    hide PhaseOk, OrderOk, WorkerAct, Next, NextStep, StepsLeft, Run;
    var a := s.acts[i];
    var e := NextStep(a, i);
    var t := Next(s, e);
    StepOfWorker(s, i);
    StepIsProgress(a, i);
    WorkerKeeps(a, e);
    var rest := [];
    if t.acts[i].phase.PendingStop? { rest := StopCompletes(t, i); } else { NoEvents(t); }
    RunFirst(s, e, rest);
    events := [e] + rest;
  }

  /** From every state a run can reach, every stop that was asked for can be completed by the worker alone. */
  lemma EveryStopCompletes(acts: nat, calls: nat, events: seq<Event>, i: nat) returns (more: seq<Event>)
    requires Polite(events) && i < |Run(Init(acts, calls), events).acts|
    requires Run(Init(acts, calls), events).acts[i].phase.PendingStop?
    ensures WorkerOnly(more, i)
    ensures var s := Run(Init(acts, calls), events + more);
            i < |s.acts| && s.acts[i].phase.Stopped? && s.acts[i].queue == [] && s.acts[i].handled == s.acts[i].accepted
  {
    hide Run, Init, PhaseOk, OrderOk, Honest, Conserved;
    EveryRun(acts, calls, events);
    var s := Run(Init(acts, calls), events);
    assert ActOk(s.acts[i]);
    more := StopCompletes(s, i);
    RunConcat(Init(acts, calls), events, more);
    StillPolite(events, more, i);
    StoppedIsDrained(acts, calls, events + more, i);
  }

  lemma {:induction false} RunConcat(s: State, first: seq<Event>, second: seq<Event>)
    ensures Run(s, first + second) == Run(Run(s, first), second)
  {
    hide Next;
    if second == [] {
      assert first + second == first;
    } else {
      var n := |second| - 1;
      assert (first + second)[..|first + second| - 1] == first + second[..n];
      RunConcat(s, first, second[..n]);
    }
  }

  lemma StillPolite(events: seq<Event>, more: seq<Event>, i: nat)
    requires Polite(events) && WorkerOnly(more, i)
    ensures Polite(events + more)
  {
    var all := events + more;
    assert forall k :: 0 <= k < |all| ==> all[k] == if k < |events| then events[k] else more[k - |events|];
  }

  // ---- Every success is one accepted message ----

  function ClientCount(q: seq<Msg>): nat {
    if q == [] then 0 else ClientCount(q[..|q| - 1]) + if q[|q| - 1].body.Stop? then 0 else 1
  }

  /** How many messages of clients all queues together have accepted. */
  function AcceptedCount(acts: seq<Act>): nat {
    if acts == [] then 0 else ClientCount(acts[0].accepted) + AcceptedCount(acts[1..])
  }

  /** In this step a call in progress returns success. */
  predicate Succeeds(s: State, e: Event) {
    ByCall(e) && e.c < |s.calls| && !Free(s.calls[e.c]) && Next(s, e).calls[e.c] == Returned(0)
  }

  function Successes(s: State, events: seq<Event>): nat {
    var n := |events| - 1;
    if n < 0 then 0 else Successes(s, events[..n]) + if Succeeds(Run(s, events[..n]), events[n]) then 1 else 0
  }

  /** A call that gives its resources back is going to fail. */
  predicate Failing(s: State) {
    forall c :: 0 <= c < |s.calls| && s.calls[c].Unwinding? ==> s.calls[c].rc != 0
  }

  lemma {:induction false} AcceptedUpdate(acts: seq<Act>, i: nat, a: Act)
    requires i < |acts|
    ensures AcceptedCount(acts[i := a]) == AcceptedCount(acts) - ClientCount(acts[i].accepted) + ClientCount(a.accepted)
  {
    if i == 0 {
      assert acts[i := a][1..] == acts[1..];
    } else {
      assert acts[i := a][1..] == acts[1..][i - 1 := a];
      AcceptedUpdate(acts[1..], i - 1, a);
    }
  }

  lemma AcceptedEnqueue(acts: seq<Act>, i: nat, m: Msg, p: Phase)
    requires i < |acts|
    ensures AcceptedCount(acts[i := Enqueue(acts[i], m).(phase := p)]) ==
            AcceptedCount(acts) + if m.body.Stop? then 0 else 1
  {
    var q := acts[i].accepted + [m];
    assert q[..|q| - 1] == acts[i].accepted;
    AcceptedUpdate(acts, i, Enqueue(acts[i], m).(phase := p));
  }

  lemma PostCounts(s: State, c: nat, to: nat, body: Body, got: Option<nat>, todo: seq<Resource>)
    requires Failing(s) && c < |s.calls| && !body.Stop? && !s.calls[c].Returned?
    ensures var t := Post(s, c, to, body, got, todo);
            && Failing(t) && |t.calls| == |s.calls|
            && AcceptedCount(t.acts) == AcceptedCount(s.acts) + if t.calls[c] == Returned(0) then 1 else 0
  {
    if to < |s.acts| && s.acts[to].phase.Running? && got.Some? && MsgItem(got.value) !in s.live {
      var m := Msg(MsgItem(got.value), body);
      AcceptedEnqueue(s.acts, to, m, s.acts[to].phase);
      assert Enqueue(s.acts[to], m).(phase := s.acts[to].phase) == Enqueue(s.acts[to], m);
    }
  }

  lemma CallCounts(s: State, c: nat, e: Event)
    requires Failing(s) && c < |s.calls|
    ensures var t := StepCall(s, c, e);
            && Failing(t) && |t.calls| == |s.calls|
            && AcceptedCount(t.acts) ==
                 AcceptedCount(s.acts) + if !Free(s.calls[c]) && t.calls[c] == Returned(0) then 1 else 0
  {
    hide Post, AcceptedCount, OptList, Stored;
    var k := s.calls[c];
    if e.SendCommit? && k.Sending? {
      PostCounts(s, c, k.to, User(Stored(k.kind), k.copy), e.got, OptList(k.copy));
    } else if e.ExecCommit? && k.ExecReady? {
      PostCounts(s, c, k.to, Exec(k.item, k.copy), e.got, OptList(k.copy) + [k.item]);
    } else {
      QuietCall(s, c, e);
    }
  }

  /** A step that only changes a call, and memory, and does not turn the call into a success. */
  ghost predicate Quiet(s: State, t: State, c: nat) {
    && c < |s.calls| && t.acts == s.acts && |t.calls| == |s.calls| && Failing(t)
    && (!Free(s.calls[c]) ==> t.calls[c] != Returned(0))
  }

  lemma QuietChange(s: State, c: nat, k: Call, r: Resource)
    requires Failing(s) && c < |s.calls| && (k.Unwinding? ==> k.rc != 0) && (Free(s.calls[c]) || k != Returned(0))
    ensures Quiet(s, SetCall(s, c, k), c) && Quiet(s, Acquire(SetCall(s, c, k), r), c)
    ensures Quiet(s, Release(SetCall(s, c, k), r), c)
  {
  }

  lemma QuietCall(s: State, c: nat, e: Event)
    requires Failing(s) && c < |s.calls| && !(e.SendCommit? && s.calls[c].Sending?)
    requires !(e.ExecCommit? && s.calls[c].ExecReady?)
    ensures Quiet(s, StepCall(s, c, e), c)
  {
    hide Quiet, Post, Stored, SetCall, Acquire, Release, Failing;
    var k := s.calls[c];
    FailingAt(s, c);
    forall x: Call | (x.Unwinding? ==> x.rc != 0) && (Free(k) || x != Returned(0))
      ensures Quiet(s, SetCall(s, c, x), c)
      ensures forall r :: Quiet(s, Acquire(SetCall(s, c, x), r), c)
      ensures forall r :: Quiet(s, Release(SetCall(s, c, x), r), c)
    {
      forall r
        ensures Quiet(s, SetCall(s, c, x), c) && Quiet(s, Acquire(SetCall(s, c, x), r), c)
        ensures Quiet(s, Release(SetCall(s, c, x), r), c)
      {
        QuietChange(s, c, x, r);
      }
      QuietChange(s, c, x, MsgItem(0));
    }
  }

  lemma FailingAt(s: State, c: nat)
    requires Failing(s) && c < |s.calls|
    ensures (s.calls[c].Unwinding? ==> s.calls[c].rc != 0) && Quiet(s, s, c)
  {
  }

  lemma StepCounts(s: State, e: Event)
    requires Failing(s)
    ensures Failing(Next(s, e))
    ensures AcceptedCount(Next(s, e).acts) == AcceptedCount(s.acts) + if Succeeds(s, e) then 1 else 0
  {
    hide AcceptedCount, StepCall, WorkerAct;
    if ByCall(e) {
      if e.c < |s.calls| { CallCounts(s, e.c, e); }
    } else if e.a < |s.acts| {
      var a := s.acts[e.a];
      if e.StopCall? {
        if e.got.Some? { AcceptedEnqueue(s.acts, e.a, Msg(MsgItem(e.got.value), Stop), PendingStop); }
      } else {
        WorkerAccepts(a, e);
        AcceptedUpdate(s.acts, e.a, WorkerAct(a, e));
      }
    }
  }

  lemma WorkerAccepts(a: Act, e: Event)
    ensures WorkerAct(a, e).accepted == a.accepted
  {
  }

  /** Over every run, the calls that returned success are as many as the client messages that were accepted. */
  lemma {:induction false} EverySuccessAccepted(acts: nat, calls: nat, events: seq<Event>)
    ensures Successes(Init(acts, calls), events) == AcceptedCount(Run(Init(acts, calls), events).acts)
    ensures Failing(Run(Init(acts, calls), events))
  {
    hide AcceptedCount, Succeeds, Next, Init;
    if events == [] {
      NothingAccepted(acts, calls);
    } else {
      var n := |events| - 1;
      EverySuccessAccepted(acts, calls, events[..n]);
      StepCounts(Run(Init(acts, calls), events[..n]), events[n]);
    }
  }

  lemma NothingAccepted(acts: nat, calls: nat)
    ensures AcceptedCount(Init(acts, calls).acts) == 0 && Failing(Init(acts, calls))
  {
    NoneAccepted(Init(acts, calls).acts);
  }

  lemma {:induction false} NoneAccepted(acts: seq<Act>)
    requires forall i :: 0 <= i < |acts| ==> acts[i].accepted == []
    ensures AcceptedCount(acts) == 0
  {
    if acts != [] { NoneAccepted(acts[1..]); }
  }

  // ---- Which message types are safe ----

  /** The protocol of every activity, and ownership. */
  ghost predicate Sound(s: State) {
    (forall i :: 0 <= i < |s.acts| ==> PhaseOk(s.acts[i]) && OrderOk(s.acts[i])) && Conserved(s)
  }

  predicate Uses(events: seq<Event>, kinds: iset<int>) {
    forall i :: 0 <= i < |events| && events[i].SendBegin? ==> events[i].kind in kinds
  }

  /** Clients that send only these types cannot break anything, however the steps interleave. */
  ghost predicate Safe(kinds: iset<int>) {
    forall acts: nat, calls: nat, events :: Uses(events, kinds) ==> Sound(Run(Init(acts, calls), events))
  }

  const ONE_ACT := Act(Stopped, [], NoThread, false, false, [], [])

  lemma RunStep(s: State, events: seq<Event>, e: Event)
    ensures Run(s, events + [e]) == Next(Run(s, events), e)
  {
    assert (events + [e])[..|events|] == events;
  }

  /** A worker is started, then a client message is queued. */
  function Opening(kind: int): seq<Event> {
    [RunBegin(0)] + [WorkerInit(0)] + [RunCommit(0)] + [SendBegin(0, 0, kind, false, None)] + [SendCommit(0, Some(0))]
  }

  lemma OpeningQueues(kind: int)
    requires kind <= UINT16_MAX
    ensures var m := Msg(MsgItem(0), User(Stored(kind), None));
            Run(Init(1, 1), Opening(kind)).acts == [Act(Running, [m], Waiting, false, false, [m], [])]
  {
    hide Run, Next, Init;
    var s0 := Init(1, 1);
    var e := [RunBegin(0)];
    assert [] + [RunBegin(0)] == e;
    assert Run(s0, []) == s0 by { NoEvents(s0); }
    RunStep(s0, [], RunBegin(0));
    RunStep(s0, e, WorkerInit(0));
    RunStep(s0, e + [WorkerInit(0)], RunCommit(0));
    RunStep(s0, e + [WorkerInit(0)] + [RunCommit(0)], SendBegin(0, 0, kind, false, None));
    RunStep(s0, e + [WorkerInit(0)] + [RunCommit(0)] + [SendBegin(0, 0, kind, false, None)], SendCommit(0, Some(0)));
    Started();
    Sent(Next(Next(Next(s0, RunBegin(0)), WorkerInit(0)), RunCommit(0)), kind);
  }

  lemma NoEvents(s: State)
    ensures Run(s, []) == s
  {
  }

  lemma Started()
    ensures var s := Next(Next(Next(Init(1, 1), RunBegin(0)), WorkerInit(0)), RunCommit(0));
            s.acts == [ONE_ACT.(phase := Running, worker := Waiting)] && s.calls == [Idle] && s.live == {}
  {
  }

  lemma Sent(s: State, kind: int)
    requires s.acts == [ONE_ACT.(phase := Running, worker := Waiting)] && s.calls == [Idle] && s.live == {}
    requires kind <= UINT16_MAX
    ensures var m := Msg(MsgItem(0), User(Stored(kind), None));
            var t := Next(Next(s, SendBegin(0, 0, kind, false, None)), SendCommit(0, Some(0)));
            t.acts == [Act(Running, [m], Waiting, false, false, [m], [])]
  {
    hide Stored;
    var m := Msg(MsgItem(0), User(Stored(kind), None));
    var u := Next(s, SendBegin(0, 0, kind, false, None));
    assert u == s.(calls := [Sending(0, kind, None)]);
    var a := u.acts[0];
    assert Enqueue(a, m) == Act(Running, [m], Waiting, false, false, [m], []);
    assert Next(u, SendCommit(0, Some(0))).acts == [Enqueue(a, m)];
  }

  /** One send of a type that is stored as STOP leaves a running activity with a STOP in its queue. */
  lemma ForeignStop(kind: int)
    requires kind <= UINT16_MAX && Stored(kind) == MSG_STOP
    ensures !Sound(Run(Init(1, 1), Opening(kind)))
  {
    hide Run, Init, Opening;
    OpeningQueues(kind);
    var a := Run(Init(1, 1), Opening(kind)).acts[0];
    assert Outstanding(a)[0].Stops();
  }

  /** One send of a type that is stored as EXEC ends with a release of something that is not an exec item. */
  lemma ForeignExec(kind: int)
    requires kind <= UINT16_MAX && Stored(kind) == MSG_EXEC
    ensures !Sound(Run(Init(1, 1), Opening(kind) + [Wake(0)] + [Dequeue(0)] + [Handle(0)]))
  {
    hide Run, Init, Opening, Conserved;
    OpeningQueues(kind);
    var s := Run(Init(1, 1), Opening(kind));
    RunStep(Init(1, 1), Opening(kind), Wake(0));
    RunStep(Init(1, 1), Opening(kind) + [Wake(0)], Dequeue(0));
    RunStep(Init(1, 1), Opening(kind) + [Wake(0)] + [Dequeue(0)], Handle(0));
    TakenForExec(s, Msg(MsgItem(0), User(Stored(kind), None)));
  }

  lemma TakenForExec(s: State, m: Msg)
    requires s.acts == [Act(Running, [m], Waiting, false, false, [m], [])] && m.Misused()
    ensures !Conserved(Next(Next(Next(s, Wake(0)), Dequeue(0)), Handle(0)))
  {
    hide Balanced;
  }

  /** A set of message types is safe for clients if and only if each is refused, or stored as neither STOP nor EXEC. */
  lemma SafeTypes(kinds: iset<int>)
    ensures Safe(kinds) <==> forall k :: k in kinds ==> Harmless(k)
  {
    hide Sound, Run, Opening;
    if forall k :: k in kinds ==> Harmless(k) {
      forall acts: nat, calls: nat, events | Uses(events, kinds)
        ensures Sound(Run(Init(acts, calls), events))
      {
        EveryRunSound(acts, calls, events);
      }
    }
    if Safe(kinds) {
      forall k | k in kinds
        ensures Harmless(k)
      {
        OpeningUses(k, kinds);
        if k <= UINT16_MAX && Stored(k) == MSG_STOP { ForeignStop(k); }
        if k <= UINT16_MAX && Stored(k) == MSG_EXEC { ForeignExec(k); }
      }
    }
  }

  lemma EveryRunSound(acts: nat, calls: nat, events: seq<Event>)
    requires Polite(events)
    ensures Sound(Run(Init(acts, calls), events))
  {
    hide PhaseOk, OrderOk, Honest, Conserved, Run, Init;
    EveryRun(acts, calls, events);
  }

  lemma OpeningUses(k: int, kinds: iset<int>)
    requires k in kinds
    ensures Uses(Opening(k), kinds) && Uses(Opening(k) + [Wake(0)] + [Dequeue(0)] + [Handle(0)], kinds)
  {
  }
}
