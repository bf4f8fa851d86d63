/** What the playback threads do get done: a stop is obeyed, every worker ends, and a play
    left alone shows its whole trajectory. */
module PlaybackProgress {
  import opened Outcomes
  import opened Trajectory
  import opened Playback

  // ---- A stop is obeyed, and every worker ends ----

  function WorkOf(actions: seq<Action>, w: nat): nat {
    if actions == [] then 0
    else WorkOf(actions[..|actions| - 1], w) + if actions[|actions| - 1] == Work(w) then 1 else 0
  }

  /** A bound on the steps a worker still makes. */
  function Ahead(k: Worker): nat {
    var left := if k.done < |k.traj| then |k.traj| - k.done else 0;
    match k.pc
    case Waiting => 3 * left + 5
    case Check => 3 * left + 4
    case Body => 3 * left + 3
    case ReadCallback => 3
    case ReadEvent => 2
    case Calling => 1
    case Ended => 0
  }

  /** The same while the stop event is set. */
  function AheadStopped(k: Worker): nat {
    match k.pc
    case Body => 5
    case Waiting => if k.done < |k.traj| then 2 else 4
    case Check => if k.done < |k.traj| then 1 else 3
    case ReadCallback => 2
    case ReadEvent => 1
    case Calling => 1
    case Ended => 0
  }

  lemma WorkAhead(s: Player, w: nat)
    requires w < |s.workers|
    ensures var k, l := s.workers[w], WorkStep(s, w).workers[w];
            && (!k.pc.Ended? ==> Ahead(l) < Ahead(k) && (s.event ==> AheadStopped(l) < AheadStopped(k)))
            && (k.pc.Ended? ==> l == k)
  {
    hide Assign, Assignable;
  }

  /** Workers change only by their own steps. */
  lemma OthersIdle(s: Player, a: Action, w: nat)
    requires w < |s.workers| && a != Work(w)
    ensures w < |Step(s, a).workers| && Step(s, a).workers[w] == s.workers[w]
    ensures PublishedBy(Step(s, a).log, w) == PublishedBy(s.log, w)
    ensures Completions(Step(s, a).log, w) == Completions(s.log, w)
  {
    hide WorkStep;
    if a.Work? && a.w < |s.workers| {
      OtherWorkersKept(s, a.w, w);
      WorkFacts(s, a.w);
    }
  }

  lemma {:induction false} AheadShrinks(s: Player, actions: seq<Action>, w: nat)
    requires w < |s.workers|
    ensures w < |Run(s, actions).workers|
    ensures var k := Run(s, actions).workers[w];
            k.pc.Ended? || Ahead(k) + WorkOf(actions, w) <= Ahead(s.workers[w])
  {
    hide WorkStep, Ahead;
    if actions != [] {
      var before, a := actions[..|actions| - 1], actions[|actions| - 1];
      AheadShrinks(s, before, w);
      if a == Work(w) {
        WorkAhead(Run(s, before), w);
        WorkFacts(Run(s, before), w);
      } else {
        hide Step;
        OthersIdle(Run(s, before), a, w);
      }
    }
  }

  /** Every worker ends after a bounded number of its own steps, whatever else happens. */
  lemma EveryWorkerEnds(indices: seq<int>, before: seq<Action>, after: seq<Action>, w: nat)
    requires w < |Run(New(indices), before).workers|
    requires WorkOf(after, w) >= 3 * |Run(New(indices), before).workers[w].traj| + 5
    ensures var t := Run(New(indices), before + after);
            w < |t.workers| && t.workers[w].pc.Ended?
  {
    hide Run, Step;
    AheadShrinks(Run(New(indices), before), after, w);
    RunAppend(New(indices), before, after);
  }

  /** What a worker may still do once the stop event is set. */
  ghost predicate Obeys(s: Player, t: Player, w: nat, steps: nat)
    requires w < |s.workers|
  {
    && t.event && w < |t.workers|
    && var k, l := s.workers[w], t.workers[w];
    && (l.pc.Ended? || AheadStopped(l) + steps <= AheadStopped(k))
    && |PublishedBy(t.log, w)| + Bit(l.pc.Body?) <= |PublishedBy(s.log, w)| + Bit(k.pc.Body?)
    && Completions(t.log, w) + Bit(l.pc.Calling?) <= Completions(s.log, w) + Bit(k.pc.Calling?)
    && (k.pc.Check? && k.done < |k.traj| ==> l == if steps == 0 then k else k.(pc := Ended))
  }

  function Bit(b: bool): nat {
    if b then 1 else 0
  }

  lemma StoppedWork(s: Player, w: nat)
    requires w < |s.workers| && s.event
    ensures var t := WorkStep(s, w); var k, l := s.workers[w], t.workers[w];
            && |PublishedBy(t.log, w)| + Bit(l.pc.Body?) <= |PublishedBy(s.log, w)| + Bit(k.pc.Body?)
            && Completions(t.log, w) + Bit(l.pc.Calling?) <= Completions(s.log, w) + Bit(k.pc.Calling?)
            && (k.pc.Check? && k.done < |k.traj| ==> l == k.(pc := Ended))
  {
    hide PublishedBy, Completions, Assign, Assignable;
    var t := WorkStep(s, w);
    if t.log != s.log {
      LogAppend(s.log, t.log[|s.log|], w);
    }
  }

  lemma EventStays(s: Player, a: Action)
    requires s.event && !a.Clear?
    ensures Step(s, a).event
  {
    hide WorkStep;
    if a.Work? && a.w < |s.workers| {
      WorkFacts(s, a.w);
    }
  }

  lemma {:induction false} StaysObedient(s: Player, after: seq<Action>, w: nat)
    requires s.event && w < |s.workers| && forall i :: 0 <= i < |after| ==> !after[i].Clear?
    ensures Obeys(s, Run(s, after), w, WorkOf(after, w))
  {
    hide WorkStep, PublishedBy, Completions, AheadStopped;
    if after != [] {
      var before, a := after[..|after| - 1], after[|after| - 1];
      var t := Run(s, before);
      StaysObedient(s, before, w);
      EventStays(t, a);
      if a == Work(w) {
        WorkAhead(t, w);
        StoppedWork(t, w);
        WorkFacts(t, w);
      } else {
        hide Step;
        OthersIdle(t, a, w);
      }
    }
  }

  /** Once `stop` or `play` has set the event, and until it is cleared, a worker publishes at
      most the one waypoint it was about to publish, calls back only if it had already seen the
      event down, ends at its next step when it was at the loop head with waypoints left, and in
      any case ends within five of its own steps. */
  lemma StopIsObeyed(indices: seq<int>, before: seq<Action>, stop: Action, after: seq<Action>, w: nat)
    requires Run(New(indices), before).main.Idle? && (stop.CallStop? || stop.CallPlay?)
    requires forall i :: 0 <= i < |after| ==> !after[i].Clear?
    requires w < |Run(New(indices), before).workers|
    ensures var s, t := Run(New(indices), before), Run(New(indices), before + [stop] + after);
            && w < |t.workers|
            && var k, l := s.workers[w], t.workers[w];
            && |PublishedBy(t.log, w)| <= |PublishedBy(s.log, w)| + Bit(k.pc.Body?)
            && Completions(t.log, w) <= Completions(s.log, w) + Bit(k.pc.Calling?)
            && (k.pc.Check? && k.done < |k.traj| ==> l == if WorkOf(after, w) == 0 then k else k.(pc := Ended))
            && (WorkOf(after, w) >= 5 ==> l.pc.Ended?)
  {
    hide WorkStep, PublishedBy, Completions;
    var s := Run(New(indices), before);
    assert (before + [stop])[..|before|] == before;
    var s1 := Run(New(indices), before + [stop]);
    assert s1 == Step(s, stop);
    RunAppend(New(indices), before + [stop], after);
    StaysObedient(s1, after, w);
    hide Run;
    AtMostFive(s.workers[w]);
  }

  lemma AtMostFive(k: Worker)
    ensures AheadStopped(k) <= 5
    ensures forall l: Worker :: !l.pc.Ended? ==> AheadStopped(l) >= 1
  {
  }

  /** So the join of a `stop` can return without a timeout, and then playback is stopped. */
  lemma StopReturns(indices: seq<int>, before: seq<Action>, after: seq<Action>)
    requires var s := Run(New(indices), before);
             s.main.Idle? && (s.thread.Some? ==> WorkOf(after, s.thread.value) >= 5)
    requires forall i :: 0 <= i < |after| ==> !after[i].Clear? && !after[i].Join?
    ensures Stopped(Run(New(indices), before + [CallStop] + after + [Join(false)]))
  {
    hide WorkStep, PublishedBy, Completions, Run, WorkOf;
    var s, all := Run(New(indices), before), before + [CallStop] + after;
    RunOne(New(indices), before, CallStop);
    RunOne(New(indices), all, Join(false));
    RunAppend(New(indices), before + [CallStop], after);
    MainWaits(Step(s, CallStop), after);
    ThreadExists(indices, before);
    if s.thread.Some? {
      StopIsObeyed(indices, before, CallStop, after, s.thread.value);
    }
  }

  lemma RunOne(s: Player, actions: seq<Action>, a: Action)
    ensures Run(s, actions + [a]) == Step(Run(s, actions), a)
  {
    hide Step;
    assert (actions + [a])[..|actions|] == actions;
  }

  lemma {:induction false} MainWaits(s: Player, after: seq<Action>)
    requires s.main.Joining? && forall i :: 0 <= i < |after| ==> !after[i].Join?
    ensures Run(s, after).main == s.main && Run(s, after).thread == s.thread
  {
    hide WorkStep;
    if after != [] {
      var t, a := Run(s, after[..|after| - 1]), after[|after| - 1];
      MainWaits(s, after[..|after| - 1]);
      if a.Work? && a.w < |t.workers| {
        WorkFacts(t, a.w);
      }
    }
  }

  lemma {:induction false} ThreadExists(indices: seq<int>, actions: seq<Action>)
    ensures var s := Run(New(indices), actions); s.thread.Some? ==> s.thread.value < |s.workers|
  {
    hide WorkStep;
    if actions != [] {
      var s, a := Run(New(indices), actions[..|actions| - 1]), actions[|actions| - 1];
      ThreadExists(indices, actions[..|actions| - 1]);
      if a.Work? && a.w < |s.workers| {
        WorkFacts(s, a.w);
      }
    }
  }

  // ---- No worker ends without a reason ----

  /** The next step of worker `w` ends it: the event is seen at the loop head with waypoints
      left, or a waypoint cannot be assigned, or, after the last waypoint, there is no callback,
      the event is seen, or the callback is called. */
  predicate EndsNow(s: Player, w: nat)
    requires w < |s.workers|
  {
    var k := s.workers[w];
    || (k.pc.Check? && k.done < |k.traj| && s.event)
    || (k.pc.Body? && (k.done < |k.traj| ==> !Assignable(s.indices, k.traj[k.done], |k.q|)))
    || (k.done == |k.traj| &&
        ((k.pc.ReadCallback? && s.onComplete.None?) || (k.pc.ReadEvent? && s.event) || k.pc.Calling?))
  }

  /** Step `m` of the run is where worker `w` ended, with `done` waypoints published. */
  ghost predicate EndedAt(indices: seq<int>, actions: seq<Action>, m: nat, w: nat, done: nat) {
    && m < |actions| && actions[m] == Work(w)
    && var s := Run(New(indices), actions[..m]);
    && w < |s.workers| && s.workers[w].done == done && EndsNow(s, w)
  }

  lemma EndStep(s: Player, w: nat)
    requires ContentInv(s) && w < |s.workers| && !s.workers[w].pc.Ended?
    ensures WorkStep(s, w).workers[w].pc.Ended? <==> EndsNow(s, w)
    ensures EndsNow(s, w) ==> WorkStep(s, w).workers[w].done == s.workers[w].done
    ensures EndsNow(s, w) && s.workers[w].pc.Calling? && s.onComplete.Some? ==>
              WorkStep(s, w).log == s.log + [Completed(w, s.onComplete.value)]
  {
    hide PublishedBy, Completions, Assign, Assignable, PrefixShown;
    DoneBounded(s.indices, s.workers[w], PublishedBy(s.log, w));
    BodyHasWork(s, w);
  }

  lemma BodyHasWork(s: Player, w: nat)
    requires ContentInv(s) && w < |s.workers|
    ensures PrefixShown(s.indices, s.workers[w], PublishedBy(s.log, w))
  {
    hide PublishedBy, Completions, Assign, Assignable, PrefixShown;
  }

  /** In every run, a worker that has ended did so at a step of its own, for one of those
      reasons; in particular one that left waypoints unpublished met the event at the loop
      head, or a waypoint that cannot be assigned. */
  lemma {:induction false} EndsForAReason(indices: seq<int>, actions: seq<Action>, w: nat)
    requires w < |Run(New(indices), actions).workers| && Run(New(indices), actions).workers[w].pc.Ended?
    ensures exists m: nat :: EndedAt(indices, actions, m, w, Run(New(indices), actions).workers[w].done)
  {
    hide WorkStep, ContentInv, EndsNow;
    var n := |actions| - 1;
    var before, a := actions[..n], actions[n];
    var s := Run(New(indices), before);
    assert forall k :: 0 <= k <= n ==> before[..k] == actions[..k];
    if w < |s.workers| && s.workers[w].pc.Ended? {
      EndsForAReason(indices, before, w);
      var m: nat :| EndedAt(indices, before, m, w, s.workers[w].done);
      if a == Work(w) {
        WorkFacts(s, w);
      } else {
        OthersIdle(s, a, w);
      }
      assert EndedAt(indices, actions, m, w, s.workers[w].done);
    } else {
      if a.Work? && a.w < |s.workers| {
        WorkFacts(s, a.w);
      }
      assert w < |s.workers|;
      if a != Work(w) {
        OthersIdle(s, a, w);
      }
      assert a == Work(w);
      ContentAlways(indices, before);
      EndStep(s, w);
      assert EndedAt(indices, actions, n, w, s.workers[w].done);
    }
  }

  // ---- A play left alone runs to its end ----

  /** The waypoints of a trajectory as worker `w` shows them. */
  function Shown(w: nat, start: Config, indices: seq<int>, traj: seq<Config>, n: nat): seq<Event>
    requires n <= |traj| && forall i :: 0 <= i < n ==> Assignable(indices, traj[i], |start|)
  {
    seq(n, i requires 0 <= i < n => Published(w, Assign(start, indices, traj[i])))
  }

  function ConfigAfter(start: Config, indices: seq<int>, traj: seq<Config>, n: nat): Config
    requires n <= |traj| && forall i :: 0 <= i < n ==> Assignable(indices, traj[i], |start|)
  {
    if n == 0 then start else Assign(start, indices, traj[n - 1])
  }

  lemma OneWaypoint(s: Player, w: nat)
    requires w < |s.workers| && !s.event && s.workers[w].pc.Check?
    requires var k := s.workers[w]; k.done < |k.traj| && Assignable(s.indices, k.traj[k.done], |k.q|)
    ensures var k := s.workers[w]; var q := Assign(k.q, s.indices, k.traj[k.done]);
            Step(Step(Step(s, Work(w)), Work(w)), Work(w)) ==
            s.(workers := s.workers[w := k.(q := q, done := k.done + 1)], log := s.log + [Published(w, q)])
  {
    hide Assign, Assignable;
    var k := s.workers[w];
    var q := Assign(k.q, s.indices, k.traj[k.done]);
    assert Step(s, Work(w)) == s.(workers := s.workers[w := k.(pc := Body)]);
    assert s.workers[w := k.(pc := Body)][w := k.(q := q, done := k.done + 1, pc := Waiting)] ==
           s.workers[w := k.(q := q, done := k.done + 1, pc := Waiting)];
    assert s.workers[w := k.(q := q, done := k.done + 1, pc := Waiting)][w := k.(q := q, done := k.done + 1)] ==
           s.workers[w := k.(q := q, done := k.done + 1)];
  }

  lemma {:induction false} Waypoints(s: Player, w: nat, n: nat)
    requires w < |s.workers| && !s.event
    requires var k := s.workers[w];
             && k.pc.Check? && k.done == 0 && k.q == k.start && n <= |k.traj|
             && forall i :: 0 <= i < n ==> Assignable(s.indices, k.traj[i], |k.start|)
    ensures var k := s.workers[w];
            Run(s, Works(w, 3 * n)) ==
            s.(workers := s.workers[w := k.(q := ConfigAfter(k.start, s.indices, k.traj, n), done := n)],
               log := s.log + Shown(w, k.start, s.indices, k.traj, n))
  {
    hide Assign, Assignable, Step;
    var k := s.workers[w];
    if n == 0 {
      WorkRun(s, w, 0);
      assert s.workers[w := k] == s.workers && s.log + [] == s.log;
    } else {
      Waypoints(s, w, n - 1);
      var q := ConfigAfter(k.start, s.indices, k.traj, n - 1);
      var shown := Shown(w, k.start, s.indices, k.traj, n - 1);
      var t := Run(s, Works(w, 3 * n - 3));
      WorkRun(s, w, 3 * n - 2);
      WorkRun(s, w, 3 * n - 1);
      WorkRun(s, w, 3 * n);
      OneWaypoint(t, w);
      if n > 1 {
        AssignTwice(k.start, s.indices, k.traj[n - 2], k.traj[n - 1]);
      }
      var r := Assign(k.start, s.indices, k.traj[n - 1]);
      assert t.log + [Published(w, r)] == s.log + Shown(w, k.start, s.indices, k.traj, n);
      assert t.workers[w := k.(q := r, done := n)] == s.workers[w := k.(q := r, done := n)];
    }
  }

  /** The last steps: after the final waypoint, or at one that cannot be assigned. */
  lemma LastSteps(s: Player, w: nat)
    requires w < |s.workers| && !s.event && s.workers[w].pc.Check?
    requires var k := s.workers[w];
             k.done < |k.traj| ==> !Assignable(s.indices, k.traj[k.done], |k.q|)
    ensures var k := s.workers[w];
            Step(Step(Step(Step(s, Work(w)), Work(w)), Work(w)), Work(w)) ==
            s.(workers := s.workers[w := k.(pc := Ended)],
               log := s.log + if k.done < |k.traj| || s.onComplete.None? then []
                           else [Completed(w, s.onComplete.value)])
  {
    hide Assign, Assignable;
    var k := s.workers[w];
    var s1 := Step(s, Work(w));
    var s2 := Step(s1, Work(w));
    var s3 := Step(s2, Work(w));
    if k.done < |k.traj| {
      assert s1 == s.(workers := s.workers[w := k.(pc := Body)]);
      assert s2 == s.(workers := s.workers[w := k.(pc := Ended)]);
      assert s.log + [] == s.log;
    } else if s.onComplete.None? {
      assert s1 == s.(workers := s.workers[w := k.(pc := ReadCallback)]);
      assert s2 == s.(workers := s.workers[w := k.(pc := Ended)]);
      assert s.log + [] == s.log;
    } else {
      assert s1 == s.(workers := s.workers[w := k.(pc := ReadCallback)]);
      assert s2 == s.(workers := s.workers[w := k.(pc := ReadEvent)]);
      assert s3 == s.(workers := s.workers[w := k.(pc := Calling)]);
      assert s.workers[w := k.(pc := Calling)][w := k.(pc := Ended)] == s.workers[w := k.(pc := Ended)];
    }
  }

  /** From any reachable idle state, a `play` whose worker is then left alone publishes every
      waypoint in order on the start configuration, up to the first that cannot be assigned
      (`n` of them), and calls its own callback, once, exactly when that was all of them. */
  lemma PlayRunsToTheEnd(
      indices: seq<int>, before: seq<Action>, traj: seq<Config>, callback: Option<nat>, start: Config, n: nat)
    requires Run(New(indices), before).main.Idle? && n <= |traj|
    requires forall i :: 0 <= i < n ==> Assignable(indices, traj[i], |start|)
    requires n < |traj| ==> !Assignable(indices, traj[n], |start|)
    ensures var s := Run(New(indices), before); var w := |s.workers|;
            var t := Run(New(indices), before + PlayActions(traj, callback, true, start) + Works(w, 3 * n + 4));
            && |t.workers| == w + 1 && t.workers[w].pc.Ended? && t.workers[w].done == n
            && t.workers[..w] == s.workers
            && t.log == s.log + Shown(w, start, indices, traj, n) +
                        (if n == |traj| && callback.Some? then [Completed(w, callback.value)] else [])
  {
    hide Assign, Assignable, Step, Run, Works, Shown, ConfigAfter;
    var s, play := Run(New(indices), before), PlayActions(traj, callback, true, start);
    var w := |s.workers|;
    RunAppend(New(indices), before, play);
    RunAppend(New(indices), before + play, Works(w, 3 * n + 4));
    IndicesAlways(indices, before);
    PlayEffect(s, traj, callback, start);
    var s1 := Run(s, play);
    Waypoints(s1, w, n);
    var s2 := Run(s1, Works(w, 3 * n));
    WorkRun(s1, w, 3 * n + 1);
    WorkRun(s1, w, 3 * n + 2);
    WorkRun(s1, w, 3 * n + 3);
    WorkRun(s1, w, 3 * n + 4);
    ConfigLength(start, indices, traj, n);
    LastSteps(s2, w);
  }

  lemma ConfigLength(start: Config, indices: seq<int>, traj: seq<Config>, n: nat)
    requires n <= |traj| && forall i :: 0 <= i < n ==> Assignable(indices, traj[i], |start|)
    ensures |ConfigAfter(start, indices, traj, n)| == |start|
  {
  }

  lemma IndicesAlways(indices: seq<int>, actions: seq<Action>)
    ensures Run(New(indices), actions).indices == indices
  {
    ContentAlways(indices, actions);
  }
}
