/**
 What clients of activities can rely on, by their own notes: which activity gets which message, in which order, and
 what each call returns.
 */
module ActivityMail {
  import opened Activity

  /** A client's note on its latest call: where to, what is sent, whether a copy is wanted, and the result due. */
  datatype Ticket = Ticket(to: nat, body: Body, copies: bool, due: Option<int>)

  /** The notes of all calls, and for each activity the contents that were posted to it, in order. */
  datatype Office = Office(tickets: seq<Ticket>, mail: seq<seq<Body>>)

  predicate Runs(s: State, a: nat) {
    a < |s.acts| && s.acts[a].phase.Running?
  }

  /** The identity of a new message item, exec item or copy is not that of a live one. */
  predicate Fresh(s: State, r: Resource) {
    r !in s.live
  }

  predicate FreshItem(s: State, got: Option<nat>) {
    got.Some? ==> Fresh(s, MsgItem(got.value))
  }

  /** A call can take this step now. */
  predicate CanStep(s: State, t: Ticket, e: Event)
    requires ByCall(e) && e.c < |s.calls|
  {
    var k := s.calls[e.c];
    match e
    case SendReject(_, code) => Free(k) && code < 0
    case SendBegin(_, _, kind, wantsCopy, got) =>
      Free(k) && (kind <= 65535 && wantsCopy && got.Some? ==> Fresh(s, Copy(got.value)))
    case SendCommit(_, got) => k.Sending? && t.to < |s.acts| && FreshItem(s, got)
    case ExecBegin(_, _, _, got) => Free(k) && (got.Some? ==> Fresh(s, ExecItem(got.value)))
    case ExecCopy(_, got) => k.ExecStarted? && (t.copies && got.Some? ==> Fresh(s, Copy(got.value)))
    case ExecCommit(_, got) => k.ExecReady? && t.to < |s.acts| && FreshItem(s, got)
    case Unwind(_) => k.Unwinding?
  }

  /** What a commit returns: -1 when the activity does not run, -ENOMEM without a message item, and else success. */
  function Verdict(s: State, to: nat, got: Option<nat>): int {
    if !Runs(s, to) then -1 else if got.None? then -12 else 0
  }

  /** The note after a step of the call. */
  function Noted(s: State, t: Ticket, e: Event): Ticket
    requires ByCall(e)
  {
    match e
    case SendReject(_, code) => t.(due := Some(code))
    case SendBegin(_, a, kind, wantsCopy, got) =>
      var copy := if wantsCopy && got.Some? then Some(Copy(got.value)) else None;
      Ticket(a, User(kind % 65536, copy), wantsCopy,
             if kind > 65535 then Some(-22) else if wantsCopy && got.None? then Some(-12) else None)
    case ExecBegin(_, a, wantsCopy, got) =>
      if got.None? then t.(due := Some(-12)) else Ticket(a, Exec(ExecItem(got.value), None), wantsCopy, None)
    case ExecCopy(_, got) =>
      if !t.copies then t
      else if got.None? then t.(due := Some(-12))
      else if t.body.Exec? then t.(body := Exec(t.body.execItem, Some(Copy(got.value))))
      else t
    case SendCommit(_, got) => t.(due := Some(Verdict(s, t.to, got)))
    case ExecCommit(_, got) => t.(due := Some(Verdict(s, t.to, got)))
    case Unwind(_) => t
  }

  /** A stop that is accepted. */
  predicate Stops(s: State, e: Event) {
    e.StopCall? && Runs(s, e.a) && e.got.Some? && FreshItem(s, e.got)
  }

  function Posted(mail: seq<seq<Body>>, a: nat, b: Body): seq<seq<Body>> {
    if a < |mail| then mail[a := mail[a] + [b]] else mail
  }

  /** The notes and the mail after one more event. */
  function Desk(o: Office, s: State, e: Event): Office {
    if !ByCall(e) then (if Stops(s, e) then o.(mail := Posted(o.mail, e.a, Stop)) else o)
    else if e.c >= |s.calls| || e.c >= |o.tickets| || !CanStep(s, o.tickets[e.c], e) then o
    else
      var t := Noted(s, o.tickets[e.c], e);
      Office(o.tickets[e.c := t],
             if (e.SendCommit? || e.ExecCommit?) && t.due == Some(0) then Posted(o.mail, t.to, t.body) else o.mail)
  }

  const NO_TICKET := Ticket(0, Stop, false, None)

  function Mailed(acts: nat, calls: nat, events: seq<Event>): Office {
    var n := |events| - 1;
    if n < 0 then Office(seq(calls, _ => NO_TICKET), seq(acts, _ => []))
    else Desk(Mailed(acts, calls, events[..n]), Run(Init(acts, calls), events[..n]), events[n])
  }

  function Bodies(q: seq<Msg>): (r: seq<Body>)
    ensures |r| == |q| && forall i :: 0 <= i < |q| ==> r[i] == q[i].body
  {
    seq(|q|, i requires 0 <= i < |q| => q[i].body)
  }

  /** A call is where the client's note says it is, and returns what is due. */
  predicate Matches(t: Ticket, k: Call) {
    match k
    case Idle => t.due == None
    case Sending(to, kind, copy) => t.to == to && kind <= 65535 && t.body == User(kind % 65536, copy) && t.due == None
    case ExecStarted(to, item, wantsCopy) =>
      t.to == to && t.body == Exec(item, None) && t.copies == wantsCopy && t.due == None
    case ExecReady(to, item, copy) => t.to == to && t.body == Exec(item, copy) && t.due == None
    case Unwinding(_, rc) => t.due == Some(rc)
    case Returned(rc) => t.due == Some(rc)
  }

  ghost predicate Agrees(o: Office, s: State) {
    && |o.tickets| == |s.calls| && |o.mail| == |s.acts|
    && (forall c :: 0 <= c < |s.calls| ==> Matches(o.tickets[c], s.calls[c]))
    && (forall a :: 0 <= a < |s.acts| ==> Bodies(s.acts[a].accepted) == o.mail[a])
  }

  lemma BodiesAppend(q: seq<Msg>, m: Msg)
    ensures Bodies(q + [m]) == Bodies(q) + [m.body]
  {
  }

  /** A step that posts one message to one activity, or none, and moves one call. */
  lemma PostAgrees(o: Office, s: State, c: nat, t: Ticket, body: Body, got: Option<nat>, todo: seq<Resource>)
    requires Agrees(o, s) && c < |s.calls| && t.to < |s.acts| && FreshItem(s, got) && t.body == body
    requires t.due == Some(Verdict(s, t.to, got))
    ensures Agrees(Office(o.tickets[c := t], if t.due == Some(0) then Posted(o.mail, t.to, t.body) else o.mail),
                   Post(s, c, t.to, body, got, todo))
  {
    hide Bodies;
    if Runs(s, t.to) && got.Some? { BodiesAppend(s.acts[t.to].accepted, Msg(MsgItem(got.value), body)); }
  }

  lemma CallAgrees(o: Office, s: State, e: Event)
    requires Agrees(o, s) && ByCall(e) && e.c < |s.calls|
    ensures Agrees(Desk(o, s, e), StepCall(s, e.c, e))
  {
    hide Post, Bodies;
    var c, t := e.c, o.tickets[e.c];
    var k := s.calls[c];
    assert Matches(t, k);
    if e.SendCommit? && k.Sending? {
      if CanStep(s, t, e) {
        PostAgrees(o, s, c, Noted(s, t, e), User(Stored(k.kind), k.copy), e.got, OptList(k.copy));
      } else {
        NoPost(s, c, k.to, User(Stored(k.kind), k.copy), e.got, OptList(k.copy));
      }
    } else if e.ExecCommit? && k.ExecReady? {
      if CanStep(s, t, e) {
        PostAgrees(o, s, c, Noted(s, t, e), Exec(k.item, k.copy), e.got, OptList(k.copy) + [k.item]);
      } else {
        NoPost(s, c, k.to, Exec(k.item, k.copy), e.got, OptList(k.copy) + [k.item]);
      }
    } else {
      OtherCallAgrees(o, s, e);
    }
  }

  lemma NoPost(s: State, c: nat, to: nat, body: Body, got: Option<nat>, todo: seq<Resource>)
    requires c < |s.calls| && (to >= |s.acts| || !FreshItem(s, got))
    ensures Post(s, c, to, body, got, todo) == s
  {
  }

  lemma OtherCallAgrees(o: Office, s: State, e: Event)
    requires Agrees(o, s) && ByCall(e) && e.c < |s.calls|
    requires !(e.SendCommit? && s.calls[e.c].Sending?) && !(e.ExecCommit? && s.calls[e.c].ExecReady?)
    ensures Agrees(Desk(o, s, e), StepCall(s, e.c, e))
  {
    hide StepCall, Bodies, CanStep, Noted, Matches;
    var c, t := e.c, o.tickets[e.c];
    assert Matches(t, s.calls[c]);
    OnlyTheCall(s, e);
    CallMatches(s, t, e);
    if CanStep(s, t, e) && (e.SendCommit? || e.ExecCommit?) { NoCommit(s, t, e); }
  }

  lemma NoCommit(s: State, t: Ticket, e: Event)
    requires ByCall(e) && e.c < |s.calls| && CanStep(s, t, e)
    ensures e.SendCommit? ==> s.calls[e.c].Sending?
    ensures e.ExecCommit? ==> s.calls[e.c].ExecReady?
  {
  }

  lemma OnlyTheCall(s: State, e: Event)
    requires ByCall(e) && e.c < |s.calls|
    requires !(e.SendCommit? && s.calls[e.c].Sending?) && !(e.ExecCommit? && s.calls[e.c].ExecReady?)
    ensures var u := StepCall(s, e.c, e); u.acts == s.acts && |u.calls| == |s.calls|
    ensures var u := StepCall(s, e.c, e); forall i :: 0 <= i < |s.calls| && i != e.c ==> u.calls[i] == s.calls[i]
  {
    hide Post, Stored;
  }

  lemma CallMatches(s: State, t: Ticket, e: Event)
    requires ByCall(e) && e.c < |s.calls| && Matches(t, s.calls[e.c])
    requires !(e.SendCommit? && s.calls[e.c].Sending?) && !(e.ExecCommit? && s.calls[e.c].ExecReady?)
    ensures |StepCall(s, e.c, e).calls| == |s.calls|
    ensures Matches(if CanStep(s, t, e) then Noted(s, t, e) else t, StepCall(s, e.c, e).calls[e.c])
  {
    hide StepCall, CanStep, Noted, Matches;
    if e.SendReject? || e.SendBegin? {
      SendMatches(s, t, e);
    } else if e.ExecBegin? || e.ExecCopy? {
      ExecMatches(s, t, e);
    } else {
      RestMatches(s, t, e);
    }
  }

  lemma SendMatches(s: State, t: Ticket, e: Event)
    requires (e.SendReject? || e.SendBegin?) && e.c < |s.calls| && Matches(t, s.calls[e.c])
    ensures |StepCall(s, e.c, e).calls| == |s.calls|
    ensures Matches(if CanStep(s, t, e) then Noted(s, t, e) else t, StepCall(s, e.c, e).calls[e.c])
  {
    hide Post, Stored, Verdict;
  }

  lemma ExecMatches(s: State, t: Ticket, e: Event)
    requires (e.ExecBegin? || e.ExecCopy?) && e.c < |s.calls| && Matches(t, s.calls[e.c])
    ensures |StepCall(s, e.c, e).calls| == |s.calls|
    ensures Matches(if CanStep(s, t, e) then Noted(s, t, e) else t, StepCall(s, e.c, e).calls[e.c])
  {
    hide Post, Stored, Verdict;
  }

  lemma RestMatches(s: State, t: Ticket, e: Event)
    requires (e.SendCommit? || e.ExecCommit? || e.Unwind?) && e.c < |s.calls| && Matches(t, s.calls[e.c])
    requires !(e.SendCommit? && s.calls[e.c].Sending?) && !(e.ExecCommit? && s.calls[e.c].ExecReady?)
    ensures |StepCall(s, e.c, e).calls| == |s.calls|
    ensures Matches(if CanStep(s, t, e) then Noted(s, t, e) else t, StepCall(s, e.c, e).calls[e.c])
  {
    hide Post, Stored, Verdict;
  }

  lemma WorkerAgrees(o: Office, s: State, i: nat, e: Event)
    requires Agrees(o, s) && i < |s.acts|
    ensures Agrees(o, StepWorker(s, i, e))
  {
    hide WorkerAct, Bodies, Garbage;
    WorkerAccepts(s.acts[i], e);
  }

  lemma StopAgrees(o: Office, s: State, e: Event)
    requires Agrees(o, s) && e.StopCall? && e.a < |s.acts|
    ensures Agrees(Desk(o, s, e), StepStop(s, e.a, e.got))
  {
    hide Bodies;
    if e.got.Some? { BodiesAppend(s.acts[e.a].accepted, Msg(MsgItem(e.got.value), Stop)); }
  }

  lemma StepAgrees(o: Office, s: State, e: Event)
    requires Agrees(o, s)
    ensures Agrees(Desk(o, s, e), Next(s, e))
  {
    hide Agrees, StepCall, StepWorker, StepStop, CanStep, Noted;
    if ByCall(e) {
      if e.c < |s.calls| { CallAgrees(o, s, e); }
    } else if e.a < |s.acts| {
      if e.StopCall? { StopAgrees(o, s, e); } else { WorkerAgrees(o, s, e.a, e); }
    }
  }

  /**
   Over every run, each activity accepted exactly what was posted to it, in order: the stops, and the contents of the
   calls begun with it as target that return success. And every call that has returned, returned what was due.
   */
  lemma {:induction false} EveryMessageArrives(acts: nat, calls: nat, events: seq<Event>)
    ensures Agrees(Mailed(acts, calls, events), Run(Init(acts, calls), events))
  {
    hide Agrees, Next, Desk;
    if events == [] {
      AtFirst(acts, calls);
    } else {
      var n := |events| - 1;
      EveryMessageArrives(acts, calls, events[..n]);
      StepAgrees(Mailed(acts, calls, events[..n]), Run(Init(acts, calls), events[..n]), events[n]);
    }
  }

  lemma AtFirst(acts: nat, calls: nat)
    ensures Agrees(Mailed(acts, calls, []), Run(Init(acts, calls), []))
  {
    assert Bodies([]) == [];
  }

  /** The types that a client must not send, in numbers: those up to 65535 that are 1 or 2 modulo 65536. */
  lemma SafeInNumbers(kinds: iset<int>)
    ensures Safe(kinds) <==> forall k :: k in kinds && k <= 65535 ==> k % 65536 != 1 && k % 65536 != 2
  {
    hide Safe;
    SafeTypes(kinds);
    assert forall k :: Harmless(k) <==> (k <= 65535 ==> k % 65536 != 1 && k % 65536 != 2);
  }

  // ---- No accepted message is stuck ----

  /** A step of a running worker with messages outstanding brings it closer to having none. */
  lemma RunningProgress(a: Act, i: nat)
    requires PhaseOk(a) && a.phase.Running? && Outstanding(a) != []
    ensures var b := WorkerAct(a, NextStep(a, i)); b.phase.Running? && StepsLeft(b) < StepsLeft(a)
  {
    hide Garbage, NoStop, WorkerAct, StepsLeft;
    match a.worker {
      case Draining => RunningDrains(a, i);
      case Handling(_) => RunningHandles(a, i);
      case _ => RunningGoesOn(a, i);
    }
  }

  lemma RunningDrains(a: Act, i: nat)
    requires PhaseOk(a) && a.phase.Running? && a.worker.Draining? && a.queue != []
    ensures var b := WorkerAct(a, Dequeue(i)); b.phase.Running? && StepsLeft(b) < StepsLeft(a)
  {
    hide Garbage, NoStop;
    GarbageIsShort(a.queue[0]);
  }

  lemma RunningHandles(a: Act, i: nat)
    requires a.phase.Running? && a.worker.Handling?
    ensures var b := WorkerAct(a, Handle(i)); b.phase.Running? && StepsLeft(b) < StepsLeft(a)
  {
    hide Garbage;
  }

  lemma RunningGoesOn(a: Act, i: nat)
    requires PhaseOk(a) && a.phase.Running? && !a.worker.Handling? && !a.worker.Draining?
    ensures var b := WorkerAct(a, NextStep(a, i)); b.phase.Running? && StepsLeft(b) < StepsLeft(a)
  {
    hide Garbage, NoStop;
  }

  /** The worker of a running activity can always handle all that is outstanding, by its own steps alone. */
  lemma {:induction false} MailIsHandled(s: State, i: nat) returns (events: seq<Event>)
    requires i < |s.acts| && s.acts[i].phase.Running? && PhaseOk(s.acts[i]) && OrderOk(s.acts[i])
    ensures WorkerOnly(events, i)
    ensures var t := Run(s, events); i < |t.acts| && t.acts[i].phase.Running? && t.acts[i].handled == s.acts[i].accepted
    decreases StepsLeft(s.acts[i])
  {
    hide PhaseOk, OrderOk, WorkerAct, Next, NextStep, StepsLeft, Run, Outstanding;
    var a := s.acts[i];
    if Outstanding(a) == [] {
      events := [];
      NoEvents(s);
      AllHandled(a);
    } else {
      var e := NextStep(a, i);
      StepOfWorker(s, i);
      RunningProgress(a, i);
      WorkerKeeps(a, e);
      WorkerAccepts(a, e);
      var rest := MailIsHandled(Next(s, e), i);
      RunFirst(s, e, rest);
      events := [e] + rest;
    }
  }

  lemma AllHandled(a: Act)
    requires OrderOk(a) && Outstanding(a) == []
    ensures a.handled == a.accepted
  {
  }
}
