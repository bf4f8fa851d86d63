/** The version node: a timer callback and a detached reconnect thread share one socket
    descriptor, handed over by one atomic flag. Every memory access and system call is a
    step of its own, and the operating system may hand out any number that is not in use. */
module Reconnect {
  import opened Outcomes

  datatype RecvAnswer = Data | Closed | Again | Failed

  datatype TimerPc = Ready | Sending | Receiving | Cancelling | ShuttingDown | Closing | Clearing | Processing | Raising

  datatype ThreadPc =
    | Checking | Sleeping
    | OldShutdown | OldClose | OldClear
    | Creating
    | Connecting(sock: int)
    | NewShutdown(sock: int) | NewClose(sock: int)
    | Configuring(sock: int) | Installing(sock: int) | Lowering

  /** The system calls and the handling of a reply, in the order they happen. */
  datatype Op =
    | Socket(fd: int) | Connect(fd: int) | Configure(fd: int) | Send(fd: int) | Recv(fd: int)
    | Shutdown(fd: int) | Close(fd: int) | Process

  /** `open` are the open descriptors, `connected` those of them with a connection. */
  datatype Node = Node(
    fd: int,
    flag: bool,
    active: bool,
    open: set<int>,
    connected: set<int>,
    timer: TimerPc,
    thread: ThreadPc,
    trace: seq<Op>)

  /** After the constructor: connected, timer started, thread started. */
  function Start(fd: int): Node {
    Node(fd, false, true, {fd}, {fd}, Ready, Checking, [Socket(fd), Connect(fd)])
  }

  function Log(s: Node, op: Op): Node {
    s.(trace := s.trace + [op])
  }

  /** The timer callback. Once cancelled the timer does not fire again. */
  function TimerStep(s: Node, answer: RecvAnswer): Node {
    match s.timer
    case Ready => if s.active && !s.flag then s.(timer := Sending) else s
    case Sending => Log(s, Send(s.fd)).(timer := Receiving)
    case Receiving =>
      Log(s, Recv(s.fd)).(timer := match answer case Data => Cancelling case Again => Raising case _ => Ready)
    case Cancelling => s.(active := false, timer := ShuttingDown)
    case ShuttingDown => Log(s, Shutdown(s.fd)).(timer := Closing)
    case Closing => Log(s, Close(s.fd)).(open := s.open - {s.fd}, connected := s.connected - {s.fd}, timer := Clearing)
    case Clearing => s.(fd := -1, timer := Processing)
    case Processing => Log(s, Process).(timer := Ready)
    case Raising => s.(flag := true, timer := Ready)
  }

  /** The reconnect thread; `sock` is the answer of `socket`, `ok` that of `connect`. */
  function ThreadStep(s: Node, sock: int, ok: bool): Node {
    match s.thread
    case Checking => s.(thread := if s.flag then OldShutdown else Sleeping)
    case Sleeping => s.(thread := Checking)
    case OldShutdown => Log(s, Shutdown(s.fd)).(thread := OldClose)
    case OldClose =>
      Log(s, Close(s.fd)).(open := s.open - {s.fd}, connected := s.connected - {s.fd}, thread := OldClear)
    case OldClear => s.(fd := -1, thread := Creating)
    case Creating =>
      if sock < 0 then s.(thread := Sleeping)
      else if sock in s.open then s
      else Log(s, Socket(sock)).(open := s.open + {sock}, thread := Connecting(sock))
    case Connecting(f) =>
      if ok then Log(s, Connect(f)).(connected := s.connected + {f}, thread := Configuring(f))
      else Log(s, Connect(f)).(thread := NewShutdown(f))
    case NewShutdown(f) => Log(s, Shutdown(f)).(thread := NewClose(f))
    case NewClose(f) => Log(s, Close(f)).(open := s.open - {f}, connected := s.connected - {f}, thread := Sleeping)
    case Configuring(f) => Log(s, Configure(f)).(thread := Installing(f))
    case Installing(f) => s.(fd := f, thread := Lowering)
    case Lowering => s.(flag := false, thread := Sleeping)
  }

  datatype Action = Timer(answer: RecvAnswer) | Thread(sock: int, ok: bool)

  function Step(s: Node, a: Action): Node {
    match a
    case Timer(answer) => TimerStep(s, answer)
    case Thread(sock, ok) => ThreadStep(s, sock, ok)
  }

  function Run(s: Node, actions: seq<Action>): Node {
    if actions == [] then s else Step(Run(s, actions[..|actions| - 1]), actions[|actions| - 1])
  }

  // ---- What may be done with descriptors, judged from the calls alone ----

  /** The effect of a call on the open descriptors; None if it uses or closes one that is
      not open. Shutting down or closing the placeholder -1 has no effect. */
  function Allow(open: set<int>, op: Op): Option<set<int>> {
    match op
    case Socket(f) => if f >= 0 && f !in open then Some(open + {f}) else None
    case Shutdown(f) => if f in open || f == -1 then Some(open) else None
    case Close(f) => if f in open || f == -1 then Some(open - {f}) else None
    case Process => Some(open)
    case _ => if op.fd in open then Some(open) else None
  }

  function Replay(trace: seq<Op>): Option<set<int>> {
    if trace == [] then Some({})
    else
      match Replay(trace[..|trace| - 1])
      case None => None
      case Some(open) => Allow(open, trace[|trace| - 1])
  }

  /** Every call is allowed when it is made, and never more than one descriptor is open. */
  ghost predicate Tidy(trace: seq<Op>) {
    && Replay(trace).Some? && |Replay(trace).value| <= 1
    && (trace == [] || Tidy(trace[..|trace| - 1]))
  }

  function Processed(trace: seq<Op>): nat {
    if trace == [] then 0
    else Processed(trace[..|trace| - 1]) + if trace[|trace| - 1].Process? then 1 else 0
  }

  // ---- Invariant ----

  predicate TimerBusy(s: Node) {
    !s.timer.Ready?
  }

  predicate ThreadBusy(s: Node) {
    !s.thread.Checking? && !s.thread.Sleeping?
  }

  ghost predicate FlagInv(s: Node) {
    && (s.flag ==> !TimerBusy(s) && s.active)
    && (ThreadBusy(s) ==> s.flag)
    && (s.timer.Sending? || s.timer.Receiving? || s.timer.Cancelling? || s.timer.Raising? ==> s.active)
    && (s.timer.ShuttingDown? || s.timer.Closing? || s.timer.Clearing? || s.timer.Processing? ==> !s.active)
  }

  predicate Connected(s: Node) {
    s.fd >= 0 && s.open == s.connected == {s.fd}
  }

  predicate Nothing(s: Node) {
    s.open == s.connected == {}
  }

  /** Exactly which descriptor is open, by the position of the two threads. */
  ghost predicate OpenInv(s: Node) {
    match s.thread
    case Connecting(f) => s.fd == -1 && f >= 0 && s.open == {f} && s.connected == {}
    case NewShutdown(f) => s.fd == -1 && f >= 0 && s.open == {f} && s.connected == {}
    case NewClose(f) => s.fd == -1 && f >= 0 && s.open == {f} && s.connected == {}
    case Configuring(f) => s.fd == -1 && f >= 0 && s.open == s.connected == {f}
    case Installing(f) => s.fd == -1 && f >= 0 && s.open == s.connected == {f}
    case OldClear => Nothing(s)
    case Creating => Nothing(s) && s.fd == -1
    case Lowering => Connected(s)
    case _ =>
      if s.flag then Connected(s) || (Nothing(s) && s.fd == -1)
      else if s.active || s.timer.ShuttingDown? || s.timer.Closing? then Connected(s)
      else Nothing(s) && (s.timer.Clearing? || s.fd == -1)
  }

  ghost predicate TraceInv(s: Node) {
    && Tidy(s.trace) && Replay(s.trace) == Some(s.open)
    && Processed(s.trace) == (if s.active || TimerBusy(s) then 0 else 1)
  }

  ghost predicate Inv(s: Node) {
    FlagInv(s) && OpenInv(s) && TraceInv(s)
  }

  lemma Appended(t: seq<Op>, op: Op, open: set<int>, after: set<int>)
    requires Tidy(t) && Replay(t) == Some(open)
    requires Allow(open, op) == Some(after) && |after| <= 1
    ensures Tidy(t + [op]) && Replay(t + [op]) == Some(after)
    ensures Processed(t + [op]) == Processed(t) + if op.Process? then 1 else 0
  {
    assert (t + [op])[..|t|] == t;
  }

  lemma StartInv(fd: int)
    requires fd >= 0
    ensures Inv(Start(fd))
  {
    assert Tidy([]);
    Appended([], Socket(fd), {}, {fd});
    Appended([Socket(fd)], Connect(fd), {fd}, {fd});
    assert [] + [Socket(fd)] == [Socket(fd)] && [Socket(fd)] + [Connect(fd)] == Start(fd).trace;
  }

  lemma TimerInv(s: Node, answer: RecvAnswer)
    requires Inv(s)
    ensures Inv(TimerStep(s, answer))
  {
    hide Tidy, Replay, Processed, TraceInv;
    TimerTrace(s, answer);
  }

  lemma TimerTrace(s: Node, answer: RecvAnswer)
    requires Inv(s)
    ensures TraceInv(TimerStep(s, answer))
  {
    hide Tidy, Replay, Processed;
    var v := TimerStep(s, answer);
    match s.timer
    case Sending => Appended(s.trace, Send(s.fd), s.open, v.open);
    case Receiving => Appended(s.trace, Recv(s.fd), s.open, v.open);
    case ShuttingDown => Appended(s.trace, Shutdown(s.fd), s.open, v.open);
    case Closing => Appended(s.trace, Close(s.fd), s.open, v.open);
    case Processing => Appended(s.trace, Process, s.open, v.open);
    case _ =>
  }

  lemma ThreadInv(s: Node, sock: int, ok: bool)
    requires Inv(s)
    ensures Inv(ThreadStep(s, sock, ok))
  {
    hide Tidy, Replay, Processed, TraceInv;
    ThreadTrace(s, sock, ok);
  }

  lemma ThreadTrace(s: Node, sock: int, ok: bool)
    requires Inv(s)
    ensures TraceInv(ThreadStep(s, sock, ok))
  {
    hide Tidy, Replay, Processed;
    var v := ThreadStep(s, sock, ok);
    match s.thread
    case OldShutdown => Appended(s.trace, Shutdown(s.fd), s.open, v.open);
    case OldClose => Appended(s.trace, Close(s.fd), s.open, v.open);
    case Creating =>
      if sock >= 0 {
        Appended(s.trace, Socket(sock), s.open, v.open);
      }
    case Connecting(f) => Appended(s.trace, Connect(f), s.open, v.open);
    case NewShutdown(f) => Appended(s.trace, Shutdown(f), s.open, v.open);
    case NewClose(f) => Appended(s.trace, Close(f), s.open, v.open);
    case Configuring(f) => Appended(s.trace, Configure(f), s.open, v.open);
    case _ =>
  }

  lemma {:induction false} RunInv(s: Node, actions: seq<Action>)
    requires Inv(s)
    ensures Inv(Run(s, actions))
  {
    hide Inv, Step;
    if actions != [] {
      RunInv(s, actions[..|actions| - 1]);
      StepInv(Run(s, actions[..|actions| - 1]), actions[|actions| - 1]);
    }
  }

  lemma StepInv(s: Node, a: Action)
    requires Inv(s)
    ensures Inv(Step(s, a))
  {
    hide Inv;
    match a
    case Timer(answer) => TimerInv(s, answer);
    case Thread(sock, ok) => ThreadInv(s, sock, ok);
  }

  // ---- Main results, for every interleaving ----

  /** The flag is an ownership token: the two threads never operate on the socket together,
      and while it is down and the timer is alive the shared descriptor is connected. */
  lemma OwnershipToken(fd: int, actions: seq<Action>)
    requires fd >= 0
    ensures var s := Run(Start(fd), actions);
            && !(TimerBusy(s) && ThreadBusy(s))
            && (ThreadBusy(s) ==> s.flag) && (TimerBusy(s) ==> !s.flag)
            && (!s.flag && s.active ==> s.fd in s.open && s.fd in s.connected)
            && Processed(s.trace) <= 1
  {
    StartInv(fd);
    RunInv(Start(fd), actions);
  }

  /** No descriptor is closed twice or used after it was closed, at no time is more than one
      open, and the open one is the shared descriptor or the thread's candidate. */
  lemma SocketConservation(fd: int, actions: seq<Action>, n: nat)
    requires fd >= 0 && n <= |Run(Start(fd), actions).trace|
    ensures var s := Run(Start(fd), actions);
            && Replay(s.trace[..n]).Some? && |Replay(s.trace[..n]).value| <= 1
            && Replay(s.trace) == Some(s.open)
            && (forall f :: f in s.open ==> f == s.fd || Candidate(s.thread) == Some(f))
  {
    StartInv(fd);
    RunInv(Start(fd), actions);
    TidyPrefix(Run(Start(fd), actions).trace, n);
  }

  /** The value of the thread's local variable while it holds a socket not yet installed. */
  function Candidate(pc: ThreadPc): Option<int> {
    match pc
    case Connecting(f) => Some(f)
    case NewShutdown(f) => Some(f)
    case NewClose(f) => Some(f)
    case Configuring(f) => Some(f)
    case Installing(f) => Some(f)
    case _ => None
  }

  lemma {:induction false} TidyPrefix(trace: seq<Op>, n: nat)
    requires Tidy(trace) && n <= |trace|
    ensures Tidy(trace[..n])
  {
    if n < |trace| {
      TidyPrefix(trace[..|trace| - 1], n);
      assert trace[..|trace| - 1][..n] == trace[..n];
    } else {
      assert trace[..n] == trace;
    }
  }

  /** After a reply has been handled neither thread makes another call, whatever happens. */
  lemma {:induction false} SilentAfterReply(s: Node, actions: seq<Action>)
    requires Inv(s) && Processed(s.trace) == 1
    ensures var t := Run(s, actions);
            t.trace == s.trace && t.fd == -1 && t.open == {} && !ThreadBusy(t) && !TimerBusy(t)
  {
    if actions != [] {
      var before := Run(s, actions[..|actions| - 1]);
      SilentAfterReply(s, actions[..|actions| - 1]);
      RunInv(s, actions[..|actions| - 1]);
    }
  }

  /** An orderly close by the peer, or an error other than a timeout, never raises the flag:
      as long as nothing else is received there is no reconnection. */
  lemma {:induction false} CloseIsNotRecovered(fd: int, actions: seq<Action>)
    requires fd >= 0
    requires forall i :: 0 <= i < |actions| && actions[i].Timer? ==>
               actions[i].answer.Closed? || actions[i].answer.Failed?
    ensures var s := Run(Start(fd), actions);
            && s.fd == fd && s.open == {fd} && s.active && !s.flag && !ThreadBusy(s)
            && (s.timer.Ready? || s.timer.Sending? || s.timer.Receiving?)
  {
    if actions != [] {
      CloseIsNotRecovered(fd, actions[..|actions| - 1]);
    }
  }

  // ---- The two bodies as written, run without interference ----

  function ThreadSteps(s: Node, sock: int, ok: bool, n: nat): Node
    decreases n
  {
    if n == 0 then s else ThreadSteps(ThreadStep(s, sock, ok), sock, ok, n - 1)
  }

  function TimerSteps(s: Node, answer: RecvAnswer, n: nat): Node
    decreases n
  {
    if n == 0 then s else TimerSteps(TimerStep(s, answer), answer, n - 1)
  }

  class VersionNode {
    var fd: int
    var flag: bool
    var active: bool
    var open: set<int>
    var connected: set<int>
    var trace: seq<Op>

    ghost function Abstract(timer: TimerPc, thread: ThreadPc): Node
      reads this
    {
      Node(fd, flag, active, open, connected, timer, thread, trace)
    }

    constructor (sock: int)
      requires sock >= 0
      ensures Abstract(Ready, Checking) == Start(sock)
    {
      fd, flag, active, open, connected := sock, false, true, {sock}, {sock};
      trace := [Socket(sock), Connect(sock)];
    }

    method CloseSocket(f: int)
      modifies this`open, this`connected, this`trace
      ensures open == old(open) - {f} && connected == old(connected) - {f}
      ensures trace == old(trace) + [Shutdown(f), Close(f)]
    {
      trace := trace + [Shutdown(f)];
      trace := trace + [Close(f)];
      open, connected := open - {f}, connected - {f};
    }

    /** One pass of the reconnect loop, up to the sleep. */
    method ReconnectPass(sock: int, ok: bool) returns (ghost steps: nat)
      requires sock in open ==> sock == fd
      modifies this
      ensures Abstract(Ready, Sleeping) == ThreadSteps(old(Abstract(Ready, Checking)), sock, ok, steps)
      ensures active == old(active) && (!old(flag) ==> trace == old(trace))
      ensures old(flag) ==> flag == !(sock >= 0 && ok) && fd == if sock >= 0 && ok then sock else -1
    {
      hide ThreadSteps;
      ghost var s0 := Abstract(Ready, Checking);
      FirstSteps(s0, sock, ok);
      if !flag {
        return 1;
      }
      CloseSocket(fd);
      fd := -1;
      ghost var s4 := Abstract(Ready, Creating);
      NextSteps(s4, sock, ok);
      if sock < 0 {
        ThreadStepsAdd(s0, sock, ok, 4, 1);
        return 5;
      }
      trace := trace + [Socket(sock)];
      open := open + {sock};
      trace := trace + [Connect(sock)];
      if !ok {
        CloseSocket(sock);
        ThreadStepsAdd(s0, sock, ok, 4, 4);
        return 8;
      }
      connected := connected + {sock};
      trace := trace + [Configure(sock)];
      fd := sock;
      flag := false;
      ThreadStepsAdd(s0, sock, ok, 4, 5);
      return 9;
    }

    /** The timer callback on a given answer of `recv`. */
    method StateRecvCallback(answer: RecvAnswer) returns (ghost steps: nat)
      modifies this
      ensures Abstract(Ready, Checking) == TimerSteps(old(Abstract(Ready, Checking)), answer, steps)
      ensures flag == (old(flag) || (old(active) && answer.Again?))
      ensures old(active) && !old(flag) && answer.Data? ==>
                !active && fd == -1 && open == old(open) - {old(fd)} && trace != [] && trace[|trace| - 1] == Process
    {
      hide TimerSteps;
      CallbackSteps(Abstract(Ready, Checking), answer);
      if !active || flag {
        return 0;
      }
      trace := trace + [Send(fd)];
      trace := trace + [Recv(fd)];
      match answer
      case Data =>
        active := false;
        CloseSocket(fd);
        fd := -1;
        trace := trace + [Process];
        return 8;
      case Again =>
        flag := true;
        return 4;
      case _ =>
        return 3;
    }
  }

  lemma {:induction false} ThreadStepsAdd(s: Node, sock: int, ok: bool, a: nat, b: nat)
    ensures ThreadSteps(s, sock, ok, a + b) == ThreadSteps(ThreadSteps(s, sock, ok, a), sock, ok, b)
    decreases a
  {
    if a > 0 {
      ThreadStepsAdd(ThreadStep(s, sock, ok), sock, ok, a - 1, b);
    }
  }

  lemma TwoThreadSteps(s: Node, sock: int, ok: bool, n: nat)
    ensures ThreadSteps(s, sock, ok, 0) == s && ThreadSteps(s, sock, ok, 1) == ThreadStep(s, sock, ok)
    ensures ThreadSteps(s, sock, ok, n + 2) == ThreadSteps(ThreadStep(ThreadStep(s, sock, ok), sock, ok), sock, ok, n)
  {
    hide ThreadStep;
  }

  lemma TwoTimerSteps(s: Node, answer: RecvAnswer, n: nat)
    ensures TimerSteps(s, answer, 0) == s && TimerSteps(s, answer, 1) == TimerStep(s, answer)
    ensures TimerSteps(s, answer, n + 2) == TimerSteps(TimerStep(TimerStep(s, answer), answer), answer, n)
  {
    hide TimerStep;
  }

  /** From the flag test to the old socket being gone. */
  lemma FirstSteps(s: Node, sock: int, ok: bool)
    requires s.thread.Checking?
    ensures !s.flag ==> ThreadSteps(s, sock, ok, 1) == s.(thread := Sleeping)
    ensures s.flag ==>
              ThreadSteps(s, sock, ok, 4) ==
              s.(fd := -1, open := s.open - {s.fd}, connected := s.connected - {s.fd},
                 trace := s.trace + [Shutdown(s.fd), Close(s.fd)], thread := Creating)
  {
    hide ThreadSteps, TimerSteps;
    var s2 := ThreadStep(ThreadStep(s, sock, ok), sock, ok);
    var s4 := ThreadStep(ThreadStep(s2, sock, ok), sock, ok);
    TwoThreadSteps(s, sock, ok, 2);
    TwoThreadSteps(s2, sock, ok, 0);
    TwoThreadSteps(s4, sock, ok, 0);
    assert s.trace + [Shutdown(s.fd), Close(s.fd)] == (s.trace + [Shutdown(s.fd)]) + [Close(s.fd)];
  }

  /** From the creation of the new socket to the sleep. */
  lemma NextSteps(s: Node, sock: int, ok: bool)
    requires s.thread.Creating? && sock !in s.open
    ensures sock < 0 ==> ThreadSteps(s, sock, ok, 1) == s.(thread := Sleeping)
    ensures sock >= 0 && !ok ==>
              ThreadSteps(s, sock, ok, 4) ==
              s.(open := s.open + {sock} - {sock}, connected := s.connected - {sock},
                 trace := s.trace + [Socket(sock)] + [Connect(sock)] + [Shutdown(sock), Close(sock)],
                 thread := Sleeping)
    ensures sock >= 0 && ok ==>
              ThreadSteps(s, sock, ok, 5) ==
              s.(fd := sock, flag := false, open := s.open + {sock}, connected := s.connected + {sock},
                 trace := s.trace + [Socket(sock)] + [Connect(sock)] + [Configure(sock)], thread := Sleeping)
  {
    hide ThreadSteps, TimerSteps;
    var s2 := ThreadStep(ThreadStep(s, sock, ok), sock, ok);
    var s4 := ThreadStep(ThreadStep(s2, sock, ok), sock, ok);
    TwoThreadSteps(s, sock, ok, 2);
    TwoThreadSteps(s, sock, ok, 3);
    TwoThreadSteps(s2, sock, ok, 0);
    TwoThreadSteps(s2, sock, ok, 1);
    TwoThreadSteps(s4, sock, ok, 0);
    var t := s.trace + [Socket(sock)] + [Connect(sock)];
    assert t + [Shutdown(sock), Close(sock)] == (t + [Shutdown(sock)]) + [Close(sock)];
  }

  lemma CallbackSteps(s: Node, answer: RecvAnswer)
    requires s.timer.Ready?
    ensures TimerSteps(s, answer, 0) == s
    ensures s.active && !s.flag ==>
              && (answer.Closed? || answer.Failed? ==>
                    TimerSteps(s, answer, 3) == s.(trace := s.trace + [Send(s.fd)] + [Recv(s.fd)]))
              && (answer.Again? ==>
                    TimerSteps(s, answer, 4) == s.(trace := s.trace + [Send(s.fd)] + [Recv(s.fd)], flag := true))
              && (answer.Data? ==>
                    TimerSteps(s, answer, 8) ==
                    s.(trace := s.trace + [Send(s.fd)] + [Recv(s.fd)] + [Shutdown(s.fd), Close(s.fd)] + [Process],
                       active := false, fd := -1, open := s.open - {s.fd}, connected := s.connected - {s.fd}))
  {
    hide ThreadSteps, TimerSteps;
    var s2 := TimerStep(TimerStep(s, answer), answer);
    var s4 := TimerStep(TimerStep(s2, answer), answer);
    var s6 := TimerStep(TimerStep(s4, answer), answer);
    TwoTimerSteps(s, answer, 1);
    TwoTimerSteps(s, answer, 2);
    TwoTimerSteps(s, answer, 6);
    TwoTimerSteps(s2, answer, 0);
    TwoTimerSteps(s2, answer, 4);
    TwoTimerSteps(s4, answer, 2);
    TwoTimerSteps(s4, answer, 0);
    TwoTimerSteps(s6, answer, 0);
    TwoTimerSteps(TimerStep(TimerStep(s6, answer), answer), answer, 0);
    var t := s.trace + [Send(s.fd)] + [Recv(s.fd)];
    assert t + [Shutdown(s.fd), Close(s.fd)] == (t + [Shutdown(s.fd)]) + [Close(s.fd)];
  }
}
