/** What the version node does get done: the thread keeps polling, a raised flag is served,
    a reply is handled and a timeout is noticed, however the two threads interleave. */
module ReconnectProgress {
  import opened Reconnect

  function ThreadActions(actions: seq<Action>): nat {
    if actions == [] then 0
    else ThreadActions(actions[..|actions| - 1]) + if actions[|actions| - 1].Thread? then 1 else 0
  }

  function TimerActions(actions: seq<Action>): nat {
    if actions == [] then 0
    else TimerActions(actions[..|actions| - 1]) + if actions[|actions| - 1].Timer? then 1 else 0
  }

  /** Steps of the thread to the end of a successful pass, while the flag is up. */
  function ToInstall(pc: ThreadPc): nat {
    match pc
    case NewShutdown(_) => 12
    case NewClose(_) => 11
    case Sleeping => 10
    case Checking => 9
    case OldShutdown => 8
    case OldClose => 7
    case OldClear => 6
    case Creating => 5
    case Connecting(_) => 4
    case Configuring(_) => 3
    case Installing(_) => 2
    case Lowering => 1
  }

  /** Steps of the thread to its next look at the flag, whatever the system answers. */
  function ToCheck(pc: ThreadPc): nat {
    match pc
    case Checking => 0
    case Sleeping => 1
    case NewClose(_) => 2
    case NewShutdown(_) => 3
    case Lowering => 2
    case Installing(_) => 3
    case Configuring(_) => 4
    case Connecting(_) => 5
    case Creating => 6
    case OldClear => 7
    case OldClose => 8
    case OldShutdown => 9
  }

  /** Steps of the timer to the end of a callback whose `recv` brings data. */
  function ToProcessed(pc: TimerPc): nat {
    match pc
    case Ready => 8
    case Sending => 7
    case Receiving => 6
    case Cancelling => 5
    case ShuttingDown => 4
    case Closing => 3
    case Clearing => 2
    case Processing => 1
    case Raising => 0
  }

  lemma {:induction false} RunAppend(s: Node, a: seq<Action>, b: seq<Action>)
    ensures Run(s, a + b) == Run(Run(s, a), b)
  {
    hide Step;
    if b == [] {
      assert a + b == a;
    } else {
      assert (a + b)[..|a + b| - 1] == a + b[..|b| - 1];
      RunAppend(s, a, b[..|b| - 1]);
    }
  }

  /** While the flag is up only the thread moves, and each step brings it nearer. */
  lemma InstallStep(s: Node, a: Action)
    requires Inv(s) && s.flag && (a.Thread? ==> a.sock >= 0 && a.ok)
    ensures a.Timer? ==> Step(s, a) == s
    ensures a.Thread? && Step(s, a).flag ==> ToInstall(Step(s, a).thread) < ToInstall(s.thread)
    ensures !Step(s, a).flag ==> Connected(Step(s, a)) && Step(s, a).active
  {
    hide TraceInv;
  }

  lemma {:induction false} Installs(s: Node, more: seq<Action>)
    requires Inv(s) && s.flag
    requires forall i :: 0 <= i < |more| && more[i].Thread? ==> more[i].sock >= 0 && more[i].ok
    ensures (exists n :: 0 <= n <= |more| && Reconnected(Run(s, more[..n])))
            || (Run(s, more).flag && ToInstall(Run(s, more).thread) + ThreadActions(more) <= ToInstall(s.thread))
  {
    hide Step, Inv, Reconnected;
    if more != [] {
      var before, a := more[..|more| - 1], more[|more| - 1];
      Installs(s, before);
      if n :| 0 <= n <= |before| && Reconnected(Run(s, before[..n])) {
        assert before[..n] == more[..n];
      } else {
        RunInv(s, before);
        InstallStep(Run(s, before), a);
        assert more[..|more|] == more;
        if !Run(s, more).flag {
          ReconnectedNow(Run(s, more));
        }
      }
    }
  }

  predicate Reconnected(s: Node) {
    !s.flag && s.active && s.fd in s.open && s.fd in s.connected
  }

  lemma ReconnectedNow(s: Node)
    requires !s.flag && s.active && Connected(s)
    ensures Reconnected(s)
  {
  }

  /** Recovery: whatever has happened before, once the flag is up and the system grants a
      socket and a connection, at most twelve steps of the thread, interleaved with the timer
      in any way, bring the node to a connected socket with the flag down. */
  lemma Recovers(fd: int, actions: seq<Action>, more: seq<Action>)
    requires fd >= 0 && Run(Start(fd), actions).flag
    requires forall i :: 0 <= i < |more| && more[i].Thread? ==> more[i].sock >= 0 && more[i].ok
    requires ThreadActions(more) >= 12
    ensures exists n :: 0 <= n <= |more| && Reconnected(Run(Start(fd), actions + more[..n]))
  {
    hide Step, Inv, Reconnected;
    var s := Run(Start(fd), actions);
    StartInv(fd);
    RunInv(Start(fd), actions);
    Installs(s, more);
    var n :| 0 <= n <= |more| && Reconnected(Run(s, more[..n]));
    RunAppend(Start(fd), actions, more[..n]);
  }

  lemma CheckStep(s: Node, a: Action)
    requires Inv(s) && !s.thread.Checking?
    ensures ToCheck(Step(s, a).thread) + (if a.Thread? then 1 else 0) <= ToCheck(s.thread)
  {
    hide TraceInv;
  }

  lemma {:induction false} Checks(s: Node, more: seq<Action>)
    requires Inv(s)
    ensures (exists n :: 0 <= n <= |more| && Run(s, more[..n]).thread.Checking?)
            || ToCheck(Run(s, more).thread) + ThreadActions(more) <= ToCheck(s.thread)
  {
    hide Step, Inv;
    if more != [] {
      var before, a := more[..|more| - 1], more[|more| - 1];
      Checks(s, before);
      if n :| 0 <= n <= |before| && Run(s, before[..n]).thread.Checking? {
        assert before[..n] == more[..n];
      } else {
        assert before[..|before|] == before == more[..|before|];
        RunInv(s, before);
        CheckStep(Run(s, before), a);
      }
    }
  }

  /** The thread never stops polling: from any reachable state, within nine of its steps it
      looks at the flag, whatever the system answers and however the timer interleaves; and
      when it looks, it goes on to the old socket if the flag is up and to sleep if not. */
  lemma KeepsPolling(fd: int, actions: seq<Action>, more: seq<Action>, sock: int, ok: bool)
    requires fd >= 0 && ThreadActions(more) >= 9
    ensures exists n :: 0 <= n <= |more| &&
                        var s := Run(Start(fd), actions + more[..n]);
                        && s.thread.Checking?
                        && Step(s, Thread(sock, ok)) == s.(thread := if s.flag then OldShutdown else Sleeping)
  {
    hide Inv;
    StartInv(fd);
    RunInv(Start(fd), actions);
    Checks(Run(Start(fd), actions), more);
    assert more[..|more|] == more;
    var n :| 0 <= n <= |more| && Run(Run(Start(fd), actions), more[..n]).thread.Checking?;
    RunAppend(Start(fd), actions, more[..n]);
  }

  lemma ProcessStep(s: Node, a: Action)
    requires Inv(s) && !s.flag && !s.timer.Raising? && (s.active || !s.timer.Ready?) && (a.Timer? ==> a.answer.Data?)
    ensures var t := Step(s, a);
            Processed(t.trace) == 1
            || (!t.flag && !t.timer.Raising? && (t.active || !t.timer.Ready?)
                && ToProcessed(t.timer) + (if a.Timer? then 1 else 0) <= ToProcessed(s.timer))
  {
    hide OpenInv, Tidy, Replay, Processed;
    if s.timer.Processing? && a.Timer? {
      ProcessedOnce(s.trace);
    }
  }

  lemma ProcessedOnce(trace: seq<Op>)
    ensures Processed(trace + [Process]) == Processed(trace) + 1
  {
    assert (trace + [Process])[..|trace|] == trace;
  }

  lemma {:induction false} Processes(s: Node, more: seq<Action>)
    requires Inv(s) && !s.flag && s.active && s.timer.Ready?
    requires forall i :: 0 <= i < |more| && more[i].Timer? ==> more[i].answer.Data?
    ensures var t := Run(s, more);
            Processed(t.trace) == 1
            || (!t.flag && !t.timer.Raising? && (t.active || !t.timer.Ready?)
                && ToProcessed(t.timer) + TimerActions(more) <= 8)
  {
    hide Step, Inv, Processed;
    if more != [] {
      var before, a := more[..|more| - 1], more[|more| - 1];
      Processes(s, before);
      RunInv(s, before);
      var t := Run(s, before);
      if Processed(t.trace) == 1 {
        SilentAfterReply(t, [a]);
        assert [a][..0] == [];
        assert Run(t, [a]) == Run(s, more);
      } else {
        ProcessStep(t, a);
      }
    }
  }

  /** Replies get through: whenever the flag is down and the timer is waiting to fire, and the
      receives bring data, the reply has been handled after eight steps of the timer, however
      the thread interleaves; then the socket is closed and nothing follows. */
  lemma ReplyIsHandled(fd: int, actions: seq<Action>, more: seq<Action>)
    requires fd >= 0
    requires var s := Run(Start(fd), actions); !s.flag && s.active && s.timer.Ready?
    requires forall i :: 0 <= i < |more| && more[i].Timer? ==> more[i].answer.Data?
    requires TimerActions(more) >= 8
    ensures var t := Run(Start(fd), actions + more); Processed(t.trace) == 1 && t.fd == -1 && t.open == {}
  {
    hide Step, Inv, Processed;
    StartInv(fd);
    RunInv(Start(fd), actions);
    Processes(Run(Start(fd), actions), more);
    RunAppend(Start(fd), actions, more);
    RunInv(Start(fd), actions + more);
    var t := Run(Start(fd), actions + more);
    PositiveWhileWaiting(t.timer);
    SilentAfterReply(t, []);
  }

  lemma PositiveWhileWaiting(pc: TimerPc)
    ensures !pc.Raising? ==> ToProcessed(pc) >= 1
  {
  }

  lemma TimeoutStep(s: Node, a: Action)
    requires Inv(s) && !s.flag && s.active && Asking(s.timer) && (a.Timer? ==> a.answer.Again?)
    ensures var t := Step(s, a);
            || t.flag
            || (t.active && Asking(t.timer) && ToRaise(t.timer) + (if a.Timer? then 1 else 0) <= ToRaise(s.timer))
  {
    hide OpenInv, TraceInv;
  }

  predicate Asking(pc: TimerPc) {
    pc.Ready? || pc.Sending? || pc.Receiving? || pc.Raising?
  }

  function ToRaise(pc: TimerPc): nat {
    match pc
    case Ready => 4
    case Sending => 3
    case Receiving => 2
    case _ => 1
  }

  /** Timeouts are noticed: when the receives only time out, the flag goes up within four
      steps of the timer, however the thread interleaves. */
  lemma {:induction false} TimeoutRaises(fd: int, actions: seq<Action>, more: seq<Action>)
    requires fd >= 0
    requires var s := Run(Start(fd), actions); !s.flag && s.active && s.timer.Ready?
    requires forall i :: 0 <= i < |more| && more[i].Timer? ==> more[i].answer.Again?
    ensures (exists n :: 0 <= n <= |more| && Run(Start(fd), actions + more[..n]).flag)
            || var t := Run(Start(fd), actions + more);
               !t.flag && t.active && Asking(t.timer) && ToRaise(t.timer) + TimerActions(more) <= 4
    ensures TimerActions(more) >= 4 ==> exists n :: 0 <= n <= |more| && Run(Start(fd), actions + more[..n]).flag
  {
    hide Step, Inv;
    if more == [] {
      assert actions + more == actions;
    } else {
      var before, a := more[..|more| - 1], more[|more| - 1];
      TimeoutRaises(fd, actions, before);
      if n :| 0 <= n <= |before| && Run(Start(fd), actions + before[..n]).flag {
        assert before[..n] == more[..n];
      } else {
        StartInv(fd);
        RunInv(Start(fd), actions + before);
        TimeoutStep(Run(Start(fd), actions + before), a);
        assert (actions + more)[..|actions + more| - 1] == actions + before;
        assert more[..|more|] == more;
      }
    }
  }
}
