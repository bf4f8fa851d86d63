/** Threaded playback: the controlling thread runs `play` and `stop`, every `play` starts a
    worker, and all share one event and one callback field. A join may time out. */
module Playback {
  import opened Outcomes
  import opened Trajectory

  datatype Pc = Check | Body | Waiting | ReadCallback | ReadEvent | Calling | Ended

  /** `done` waypoints were published; `callback` is the argument of the worker's own play. */
  datatype Worker = Worker(traj: seq<Config>, start: Config, q: Config, callback: Option<nat>, done: nat, pc: Pc)

  datatype Args = Args(traj: seq<Config>, callback: Option<nat>)

  datatype Main = Idle | Joining(next: Option<Args>) | Clearing(args: Args) | Storing(args: Args) | Spawning(args: Args)

  datatype Event = Published(w: nat, config: Config) | Completed(w: nat, callback: nat)

  datatype Player = Player(
    indices: seq<int>,
    event: bool,
    onComplete: Option<nat>,
    thread: Option<nat>,
    main: Main,
    workers: seq<Worker>,
    log: seq<Event>)

  function New(indices: seq<int>): Player {
    Player(indices, false, None, None, Idle, [], [])
  }

  datatype Action =
    | CallPlay(traj: seq<Config>, callback: Option<nat>)
    | CallStop
    | Join(timeout: bool)
    | Clear
    | Store
    | Spawn(start: Config)
    | Work(w: nat)

  /** One step of a worker. */
  function WorkStep(s: Player, w: nat): Player
    requires w < |s.workers|
  {
    var k := s.workers[w];
    match k.pc
    case Check =>
      var next := if k.done >= |k.traj| then ReadCallback else if s.event then Ended else Body;
      s.(workers := s.workers[w := k.(pc := next)])
    case Body =>
      if k.done < |k.traj| && Assignable(s.indices, k.traj[k.done], |k.q|) then
        var q := Assign(k.q, s.indices, k.traj[k.done]);
        s.(workers := s.workers[w := k.(q := q, done := k.done + 1, pc := Waiting)], log := s.log + [Published(w, q)])
      else s.(workers := s.workers[w := k.(pc := Ended)])
    case Waiting => s.(workers := s.workers[w := k.(pc := Check)])
    case ReadCallback => s.(workers := s.workers[w := k.(pc := if s.onComplete.None? then Ended else ReadEvent)])
    case ReadEvent => s.(workers := s.workers[w := k.(pc := if s.event then Ended else Calling)])
    case Calling =>
      s.(workers := s.workers[w := k.(pc := Ended)],
         log := if s.onComplete.None? then s.log else s.log + [Completed(w, s.onComplete.value)])
    case Ended => s
  }

  /** There is a worker to wait for, and it has not ended. */
  predicate Joinable(s: Player) {
    s.thread.Some? && s.thread.value < |s.workers| && !s.workers[s.thread.value].pc.Ended?
  }

  /** One step of the player. `stop` sets the event and joins; `play` then clears the event,
      stores the callback and starts a worker. */
  function Step(s: Player, a: Action): Player {
    match a
    case CallPlay(traj, callback) =>
      if s.main.Idle? then s.(event := true, main := Joining(Some(Args(traj, callback)))) else s
    case CallStop =>
      if s.main.Idle? then s.(event := true, main := Joining(None)) else s
    case Join(timeout) =>
      if s.main.Joining? && (timeout || !Joinable(s))
      then s.(thread := None, main := if s.main.next.None? then Idle else Clearing(s.main.next.value))
      else s
    case Clear => if s.main.Clearing? then s.(event := false, main := Storing(s.main.args)) else s
    case Store => if s.main.Storing? then s.(onComplete := s.main.args.callback, main := Spawning(s.main.args)) else s
    case Spawn(start) =>
      if s.main.Spawning? then
        var k := Worker(s.main.args.traj, start, start, s.main.args.callback, 0, Check);
        s.(thread := Some(|s.workers|), main := Idle, workers := s.workers + [k])
      else s
    case Work(w) => if w < |s.workers| then WorkStep(s, w) else s
  }

  predicate Live(s: Player, w: nat) {
    w < |s.workers| && !s.workers[w].pc.Ended?
  }

  function Run(s: Player, actions: seq<Action>): Player {
    if actions == [] then s else Step(Run(s, actions[..|actions| - 1]), actions[|actions| - 1])
  }

  lemma {:induction false} RunAppend(s: Player, a: seq<Action>, b: seq<Action>)
    ensures Run(s, a + b) == Run(Run(s, a), b)
  {
    if b == [] {
      assert a + b == a;
    } else {
      assert (a + b)[..|a + b| - 1] == a + b[..|b| - 1];
      RunAppend(s, a, b[..|b| - 1]);
    }
  }

  // ---- Content: holds in every run, timed-out joins included ----

  /** The configurations worker `w` has published, in order. */
  function PublishedBy(log: seq<Event>, w: nat): seq<Config> {
    if log == [] then []
    else
      var last := log[|log| - 1];
      PublishedBy(log[..|log| - 1], w) + if last.Published? && last.w == w then [last.config] else []
  }

  function Completions(log: seq<Event>, w: nat): nat {
    if log == [] then 0
    else
      var last := log[|log| - 1];
      Completions(log[..|log| - 1], w) + if last.Completed? && last.w == w then 1 else 0
  }

  /** A prefix of the trajectory was published, each waypoint on the start configuration. */
  ghost predicate PrefixShown(indices: seq<int>, k: Worker, published: seq<Config>) {
    && k.done <= |k.traj| && |k.q| == |k.start|
    && (forall i :: 0 <= i < k.done ==> Assignable(indices, k.traj[i], |k.start|))
    && k.q == (if k.done == 0 then k.start else Assign(k.start, indices, k.traj[k.done - 1]))
    && published == Frames(k.start, indices, k.traj, k.done)
  }

  ghost predicate WorkerInv(indices: seq<int>, log: seq<Event>, w: nat, k: Worker) {
    && PrefixShown(indices, k, PublishedBy(log, w))
    && (k.pc.ReadCallback? || k.pc.ReadEvent? || k.pc.Calling? ==> k.done == |k.traj|)
    && Completions(log, w) <= (if k.pc.Ended? then 1 else 0)
    && (Completions(log, w) > 0 ==> k.done == |k.traj|)
  }

  ghost predicate ContentInv(s: Player) {
    && (forall w :: 0 <= w < |s.workers| ==> WorkerInv(s.indices, s.log, w, s.workers[w]))
    && (forall i :: 0 <= i < |s.log| ==> s.log[i].w < |s.workers|)
  }

  lemma LogAppend(log: seq<Event>, e: Event, w: nat)
    ensures PublishedBy(log + [e], w) == PublishedBy(log, w) + if e.Published? && e.w == w then [e.config] else []
    ensures Completions(log + [e], w) == Completions(log, w) + if e.Completed? && e.w == w then 1 else 0
  {
    assert (log + [e])[..|log|] == log;
  }

  lemma {:induction false} LogOfOthers(log: seq<Event>, w: nat)
    requires forall i :: 0 <= i < |log| ==> log[i].w != w
    ensures PublishedBy(log, w) == [] && Completions(log, w) == 0
  {
    if log != [] {
      LogOfOthers(log[..|log| - 1], w);
    }
  }

  /** One more waypoint. */
  lemma PrefixGrows(indices: seq<int>, k: Worker, published: seq<Config>, q: Config)
    requires PrefixShown(indices, k, published)
    requires k.done < |k.traj| && Assignable(indices, k.traj[k.done], |k.q|)
    requires q == Assign(k.q, indices, k.traj[k.done])
    ensures PrefixShown(indices, k.(q := q, done := k.done + 1, pc := Waiting), published + [q])
  {
    hide Assign, Assignable;
    if k.done > 0 {
      AssignTwice(k.start, indices, k.traj[k.done - 1], k.traj[k.done]);
    }
    assert q == Assign(k.start, indices, k.traj[k.done]);
    assert Frames(k.start, indices, k.traj, k.done + 1) == Frames(k.start, indices, k.traj, k.done) + [q];
  }

  /** Nothing but the program counter of a worker changes the published prefix. */
  lemma PrefixKept(indices: seq<int>, k: Worker, pc: Pc, published: seq<Config>)
    requires PrefixShown(indices, k, published)
    ensures PrefixShown(indices, k.(pc := pc), published)
  {
    hide Assign, Assignable, Frames;
  }

  lemma WorkInv(s: Player, w: nat)
    requires w < |s.workers| && WorkerInv(s.indices, s.log, w, s.workers[w])
    ensures WorkerInv(s.indices, WorkStep(s, w).log, w, WorkStep(s, w).workers[w])
  {
    hide PublishedBy, Completions, Assign, Assignable, PrefixShown;
    var k := s.workers[w];
    var t := WorkStep(s, w);
    var published := PublishedBy(s.log, w);
    assert k.done <= |k.traj| by { DoneBounded(s.indices, k, published); }
    if t.log == s.log {
      PrefixKept(s.indices, k, t.workers[w].pc, published);
    } else if k.pc.Body? {
      PrefixGrows(s.indices, k, published, t.workers[w].q);
      LogAppend(s.log, Published(w, t.workers[w].q), w);
    } else {
      assert k.pc.Calling? && t.workers[w] == k.(pc := Ended);
      PrefixKept(s.indices, k, Ended, published);
      LogAppend(s.log, Completed(w, s.onComplete.value), w);
      assert published + [] == published;
    }
  }

  lemma DoneBounded(indices: seq<int>, k: Worker, published: seq<Config>)
    requires PrefixShown(indices, k, published)
    ensures k.done <= |k.traj|
  {
    hide Assign, Assignable, Frames;
  }

  lemma OtherWorkersKept(s: Player, w: nat, v: nat)
    requires w < |s.workers| && v < |s.workers| && v != w
    ensures WorkStep(s, w).workers[v] == s.workers[v]
    ensures PublishedBy(WorkStep(s, w).log, v) == PublishedBy(s.log, v)
    ensures Completions(WorkStep(s, w).log, v) == Completions(s.log, v)
  {
    hide PublishedBy, Completions, Assign, Assignable;
    var t := WorkStep(s, w);
    if t.log != s.log {
      LogAppend(s.log, t.log[|s.log|], v);
    }
  }

  lemma WorkFacts(s: Player, w: nat)
    requires w < |s.workers|
    ensures var t := WorkStep(s, w);
            && t == s.(workers := t.workers, log := t.log) && |t.workers| == |s.workers|
            && (forall v :: 0 <= v < |s.workers| && v != w ==> t.workers[v] == s.workers[v])
            && t.workers[w].callback == s.workers[w].callback && t.workers[w].traj == s.workers[w].traj
            && (s.workers[w].pc.Ended? ==> t == s)
            && (t.log == s.log ||
                exists e :: t.log == s.log + [e] && e.w == w &&
                            (e.Completed? ==> t.workers[w].pc.Ended? && s.onComplete == Some(e.callback)))
  {
    hide Assign, Assignable;
    var t := WorkStep(s, w);
    if t.log != s.log {
      assert t.log == s.log + [t.log[|s.log|]];
    }
  }

  lemma ContentStep(s: Player, a: Action)
    requires ContentInv(s)
    ensures ContentInv(Step(s, a))
  {
    hide WorkerInv, WorkStep;
    if a.Work? && a.w < |s.workers| {
      WorkContent(s, a.w);
    } else if a.Spawn? && s.main.Spawning? {
      var k := Step(s, a).workers[|s.workers|];
      SpawnContent(s, k);
    }
  }

  lemma WorkContent(s: Player, w: nat)
    requires ContentInv(s) && w < |s.workers|
    ensures ContentInv(WorkStep(s, w))
  {
    hide WorkStep, WorkerInv;
    var t := WorkStep(s, w);
    WorkFacts(s, w);
    forall v | 0 <= v < |t.workers|
      ensures WorkerInv(t.indices, t.log, v, t.workers[v])
    {
      if v == w {
        WorkInv(s, v);
      } else {
        OtherWorkersKept(s, w, v);
        WorkerInvFrame(s.indices, s.log, t.log, v, s.workers[v]);
      }
    }
  }

  lemma SpawnContent(s: Player, k: Worker)
    requires ContentInv(s) && k.done == 0 && k.q == k.start && k.pc.Check?
    ensures WorkerInv(s.indices, s.log, |s.workers|, k)
  {
    hide PublishedBy, Completions, Assign, Assignable;
    LogOfOthers(s.log, |s.workers|);
    assert Frames(k.start, s.indices, k.traj, 0) == [];
  }

  lemma WorkerInvFrame(indices: seq<int>, log: seq<Event>, other: seq<Event>, w: nat, k: Worker)
    requires WorkerInv(indices, log, w, k)
    requires PublishedBy(other, w) == PublishedBy(log, w) && Completions(other, w) == Completions(log, w)
    ensures WorkerInv(indices, other, w, k)
  {
    hide PublishedBy, Completions, Assign, Assignable;
  }

  lemma NewContent(indices: seq<int>)
    ensures ContentInv(New(indices))
  {
  }

  lemma IndicesKept(s: Player, a: Action)
    ensures Step(s, a).indices == s.indices
  {
    hide Assign, Assignable;
  }

  /** The completion of a worker is the last thing it does. */
  ghost predicate CompletionIsLast(s: Player) {
    && (forall i :: 0 <= i < |s.log| && s.log[i].Completed? ==> !Live(s, s.log[i].w) && s.log[i].w < |s.workers|)
    && (forall i, j :: 0 <= i < j < |s.log| && s.log[i].Completed? ==> s.log[j].w != s.log[i].w)
  }

  lemma CompletionStep(s: Player, a: Action)
    requires CompletionIsLast(s)
    ensures CompletionIsLast(Step(s, a))
  {
    hide WorkStep;
    if a.Work? && a.w < |s.workers| {
      WorkFacts(s, a.w);
    }
  }

  lemma {:induction false} CompletionAlways(s: Player, actions: seq<Action>)
    requires CompletionIsLast(s)
    ensures CompletionIsLast(Run(s, actions))
  {
    hide CompletionIsLast, Step;
    if actions != [] {
      CompletionAlways(s, actions[..|actions| - 1]);
      CompletionStep(Run(s, actions[..|actions| - 1]), actions[|actions| - 1]);
    }
  }

  lemma {:induction false} ContentAlways(indices: seq<int>, actions: seq<Action>)
    ensures ContentInv(Run(New(indices), actions)) && Run(New(indices), actions).indices == indices
  {
    hide ContentInv, Step;
    if actions != [] {
      var s := Run(New(indices), actions[..|actions| - 1]);
      ContentAlways(indices, actions[..|actions| - 1]);
      ContentStep(s, actions[|actions| - 1]);
      IndicesKept(s, actions[|actions| - 1]);
    } else {
      NewContent(indices);
    }
  }

  /** Every worker publishes a prefix of its own trajectory, each waypoint on its own start
      configuration, and completes at most once, having published all of it; the completion
      is the last thing it does. */
  lemma PlaybackContent(indices: seq<int>, actions: seq<Action>, w: nat)
    requires w < |Run(New(indices), actions).workers|
    ensures var s := Run(New(indices), actions); var k := s.workers[w];
            && k.done <= |k.traj|
            && (forall i :: 0 <= i < k.done ==> Assignable(indices, k.traj[i], |k.start|))
            && PublishedBy(s.log, w) == Frames(k.start, indices, k.traj, k.done)
            && Completions(s.log, w) <= 1
            && (Completions(s.log, w) == 1 ==> k.pc.Ended? && k.done == |k.traj|)
            && (forall i, j :: 0 <= i < j < |s.log| && s.log[i].Completed? && s.log[i].w == w ==> s.log[j].w != w)
  {
    hide WorkStep;
    ContentAlways(indices, actions);
    CompletionAlways(New(indices), actions);
  }

  // ---- Exclusion: needs every join to return because the worker ended ----

  predicate NoTimeout(actions: seq<Action>) {
    forall i :: 0 <= i < |actions| ==> actions[i] != Join(true)
  }

  ghost predicate ExclusionInv(s: Player) {
    && (forall w :: 0 <= w < |s.workers| && !s.workers[w].pc.Ended? ==> s.thread == Some(w))
    && (s.thread.Some? ==> s.thread.value == |s.workers| - 1)
    && (s.main.Clearing? || s.main.Storing? || s.main.Spawning? ==> s.thread.None?)
    && (s.main.Spawning? ==> s.onComplete == s.main.args.callback)
    && (s.thread.Some? ==> s.onComplete == s.workers[s.thread.value].callback)
    && (forall i :: 0 <= i < |s.log| ==> s.log[i].w < |s.workers|)
    && (forall i :: 0 <= i < |s.log| && s.log[i].Completed? ==>
          s.workers[s.log[i].w].callback == Some(s.log[i].callback))
  }

  lemma ExclusionStep(s: Player, a: Action)
    requires ExclusionInv(s) && a != Join(true)
    ensures ExclusionInv(Step(s, a))
  {
    if a.Work? && a.w < |s.workers| {
      hide WorkStep;
      WorkFacts(s, a.w);
    } else {
      hide WorkStep;
    }
  }

  lemma {:induction false} ExclusionAlways(indices: seq<int>, actions: seq<Action>)
    requires NoTimeout(actions)
    ensures ExclusionInv(Run(New(indices), actions))
  {
    hide Step;
    if actions != [] {
      ExclusionAlways(indices, actions[..|actions| - 1]);
      hide ExclusionInv;
      ExclusionStep(Run(New(indices), actions[..|actions| - 1]), actions[|actions| - 1]);
    }
  }

  /** At most one worker is live, it is the one started last, and a completion calls back
      the function given to that worker's own `play`. */
  lemma PlaybackExclusion(indices: seq<int>, actions: seq<Action>, v: nat, w: nat)
    requires NoTimeout(actions)
    ensures var s := Run(New(indices), actions);
            && (Live(s, v) && Live(s, w) ==> v == w == |s.workers| - 1)
            && (forall i :: 0 <= i < |s.log| && s.log[i].Completed? ==>
                  s.log[i].w < |s.workers| && s.workers[s.log[i].w].callback == Some(s.log[i].callback))
  {
    ExclusionAlways(indices, actions);
  }

  /** How often callback `c` was called. */
  function Calls(log: seq<Event>, c: nat): nat {
    if log == [] then 0
    else
      var last := log[|log| - 1];
      Calls(log[..|log| - 1], c) + if last.Completed? && last.callback == c then 1 else 0
  }

  /** The plays that were given `c` and whose own worker completed. */
  function CompletedPlays(workers: seq<Worker>, log: seq<Event>, c: nat): set<nat> {
    set w | 0 <= w < |workers| && workers[w].callback == Some(c) && Completions(log, w) > 0
  }

  lemma {:induction false} CallsCounted(workers: seq<Worker>, log: seq<Event>, c: nat)
    requires forall i :: 0 <= i < |log| && log[i].Completed? ==>
               log[i].w < |workers| && workers[log[i].w].callback == Some(log[i].callback)
    requires forall w :: 0 <= w < |workers| ==> Completions(log, w) <= 1
    ensures Calls(log, c) == |CompletedPlays(workers, log, c)|
  {
    hide Completions;
    if log == [] {
      forall w | 0 <= w < |workers| ensures Completions(log, w) == 0 {
        LogOfOthers(log, w);
      }
      assert CompletedPlays(workers, log, c) == {};
    } else {
      var before, last := log[..|log| - 1], log[|log| - 1];
      assert log == before + [last];
      forall w | 0 <= w < |workers|
        ensures Completions(log, w) == Completions(before, w) + if last.Completed? && last.w == w then 1 else 0
      {
        LogAppend(before, last, w);
      }
      CallsCounted(workers, before, c);
      var plays := CompletedPlays(workers, before, c);
      if last.Completed? && last.callback == c {
        assert CompletedPlays(workers, log, c) == plays + {last.w} && last.w !in plays;
      } else {
        assert CompletedPlays(workers, log, c) == plays;
      }
    }
  }

  /** Everything the worker was given to publish was published, in order. */
  ghost predicate AllShown(indices: seq<int>, k: Worker, published: seq<Config>) {
    && (forall i :: 0 <= i < |k.traj| ==> Assignable(indices, k.traj[i], |k.start|))
    && published == Frames(k.start, indices, k.traj, |k.traj|)
  }

  /** A callback is called exactly once for every play that was given it and whose own worker
      completed, each of them having published its whole trajectory; so at most once per play,
      and never on account of another play. */
  lemma PlaybackCompletion(indices: seq<int>, actions: seq<Action>, c: nat)
    requires NoTimeout(actions)
    ensures var s := Run(New(indices), actions); var plays := CompletedPlays(s.workers, s.log, c);
            && Calls(s.log, c) == |plays|
            && forall p :: p in plays ==>
                 && p < |s.workers| && s.workers[p].callback == Some(c)
                 && AllShown(indices, s.workers[p], PublishedBy(s.log, p))
  {
    hide Step, Completions, PublishedBy;
    var s := Run(New(indices), actions);
    ExclusionAlways(indices, actions);
    forall w | 0 <= w < |s.workers|
      ensures Completions(s.log, w) <= 1
      ensures Completions(s.log, w) == 1 ==> AllShown(indices, s.workers[w], PublishedBy(s.log, w))
    {
      PlaybackContent(indices, actions, w);
    }
    CallsCounted(s.workers, s.log, c);
  }

  /** `stop` has returned and no `play` is under way. */
  predicate Stopped(s: Player) {
    s.main.Idle? && s.thread.None?
  }

  /** Between a returned `stop` and the next `play` nothing is published. */
  lemma {:induction false} QuietAfterStop(indices: seq<int>, before: seq<Action>, after: seq<Action>)
    requires NoTimeout(before) && Stopped(Run(New(indices), before))
    requires forall i :: 0 <= i < |after| ==> !after[i].CallPlay?
    ensures var s, t := Run(New(indices), before), Run(Run(New(indices), before), after);
            && t.log == s.log && t.workers == s.workers && t.thread.None?
            && (t.main.Idle? || t.main == Joining(None))
  {
    hide WorkStep;
    ExclusionAlways(indices, before);
    if after != [] {
      QuietAfterStop(indices, before, after[..|after| - 1]);
      var t, a := Run(Run(New(indices), before), after[..|after| - 1]), after[|after| - 1];
      if a.Work? && a.w < |t.workers| {
        WorkFacts(t, a.w);
      }
    }
  }

  // ---- The condition is needed ----

  function PlayActions(traj: seq<Config>, callback: Option<nat>, timeout: bool, start: Config): seq<Action> {
    [CallPlay(traj, callback), Join(timeout), Clear, Store, Spawn(start)]
  }

  /** `play` from an idle state where the join returns, however it returns. */
  lemma PlayEffect(s: Player, traj: seq<Config>, callback: Option<nat>, start: Config)
    requires s.main.Idle?
    ensures Run(s, PlayActions(traj, callback, true, start)) ==
            s.(event := false, onComplete := callback, thread := Some(|s.workers|),
               workers := s.workers + [Worker(traj, start, start, callback, 0, Check)])
  {
    hide WorkStep;
    var p := PlayActions(traj, callback, true, start);
    var s1 := Step(s, p[0]);
    var s2 := Step(s1, p[1]);
    var s3 := Step(s2, p[2]);
    var s4 := Step(s3, p[3]);
    assert p[..4][..3] == p[..3] && p[..3][..2] == p[..2] && p[..2][..1] == p[..1] && p[..1][..0] == [];
    assert Run(s, p[..1]) == s1 && Run(s, p[..2]) == s2;
    assert Run(s, p[..3]) == s3;
    assert Run(s, p[..4]) == s4;
  }

  lemma {:induction false} WorkRun(s: Player, w: nat, n: nat)
    ensures n == 0 ==> Run(s, Works(w, n)) == s
    ensures n > 0 ==> Run(s, Works(w, n)) == Step(Run(s, Works(w, n - 1)), Work(w))
  {
    if n > 0 {
      assert Works(w, n)[..n - 1] == Works(w, n - 1);
    }
  }

  function Works(w: nat, n: nat): seq<Action> {
    seq(n, i => Work(w))
  }

  /** With a join that times out, clearing the event revives the old worker: for any two
      trajectories there is a run in which the first worker publishes a waypoint of its
      trajectory after the second was started, and both are live. */
  lemma TimedOutJoinRevives(indices: seq<int>, a: seq<Config>, b: seq<Config>, start: Config)
    returns (actions: seq<Action>)
    requires |a| >= 2 && Assignable(indices, a[0], |start|) && Assignable(indices, a[1], |start|)
    ensures var s := Run(New(indices), actions);
            && Live(s, 0) && Live(s, 1) && s.workers[1].traj == b
            && s.log == [Published(0, Assign(start, indices, a[0])), Published(0, Assign(start, indices, a[1]))]
            && |actions| == 15 && actions[5..] == Works(0, 2) + PlayActions(b, None, true, start) + Works(0, 3)
  {
    hide Assign, Assignable, Run;
    var first, second := PlayActions(a, None, true, start), PlayActions(b, None, true, start);
    actions := first + (Works(0, 2) + second + Works(0, 3));
    var s0 := New(indices);
    RunAppend(s0, first, Works(0, 2) + second + Works(0, 3));
    PlayEffect(s0, a, None, start);
    var s1 := Run(s0, first);
    RunAppend(s1, Works(0, 2) + second, Works(0, 3));
    RunAppend(s1, Works(0, 2), second);
    WorkRun(s1, 0, 0);
    WorkRun(s1, 0, 1);
    WorkRun(s1, 0, 2);
    var s2 := Run(s1, Works(0, 2));
    PlayEffect(s2, b, None, start);
    var s3 := Run(s2, second);
    WorkRun(s3, 0, 0);
    WorkRun(s3, 0, 1);
    WorkRun(s3, 0, 2);
    WorkRun(s3, 0, 3);
    AssignTwice(start, indices, a[0], a[1]);
  }

  /** The same for callbacks: a worker that has published everything, is overtaken by a second
      `play` and reads the callback field only then, calls the second play's callback before
      anything of that play was published, and its own callback is lost. */
  lemma TimedOutJoinMiscalls(indices: seq<int>, b: seq<Config>, start: Config, first: nat, second: nat)
    returns (actions: seq<Action>)
    ensures actions == PlayActions([], Some(first), true, start) +
                       (Works(0, 1) + PlayActions(b, Some(second), true, start) + Works(0, 3))
    ensures var s := Run(New(indices), actions);
            && |s.workers| == 2 && s.workers[0].callback == Some(first) && s.workers[1].callback == Some(second)
            && s.log == [Completed(0, second)] && s.workers[1].done == 0 && Live(s, 1)
  {
    hide Assign, Assignable, Run;
    var head, tail := PlayActions([], Some(first), true, start), PlayActions(b, Some(second), true, start);
    actions := head + (Works(0, 1) + tail + Works(0, 3));
    var s0 := New(indices);
    RunAppend(s0, head, Works(0, 1) + tail + Works(0, 3));
    PlayEffect(s0, [], Some(first), start);
    var s1 := Run(s0, head);
    RunAppend(s1, Works(0, 1) + tail, Works(0, 3));
    RunAppend(s1, Works(0, 1), tail);
    WorkRun(s1, 0, 0);
    WorkRun(s1, 0, 1);
    var s2 := Run(s1, Works(0, 1));
    PlayEffect(s2, b, Some(second), start);
    var s3 := Run(s2, tail);
    WorkRun(s3, 0, 0);
    WorkRun(s3, 0, 1);
    WorkRun(s3, 0, 2);
    WorkRun(s3, 0, 3);
  }

  // ---- `play` and `stop` as written, when no worker step falls in between ----

  class TrajectoryPublisher {
    const indices: seq<int>
    var stopEvent: bool
    var onComplete: Option<nat>
    var thread: Option<nat>
    var workers: seq<Worker>
    var log: seq<Event>

    ghost function Abstract(): Player
      reads this
    {
      Player(indices, stopEvent, onComplete, thread, Idle, workers, log)
    }

    constructor (indices: seq<int>)
      ensures Abstract() == New(indices)
    {
      this.indices := indices;
      stopEvent, onComplete, thread, workers, log := false, None, None, [], [];
    }

    /** The join gives the worker no step here, so it returns by timeout unless the worker
        has already ended; either way the thread is forgotten. */
    method Stop()
      modifies this`stopEvent, this`thread
      ensures Abstract() == Run(old(Abstract()), [CallStop, Join(true)])
      ensures stopEvent && thread == None
    {
      StopEffect(Abstract());
      stopEvent := true;
      if thread != None {
        thread := None;
      }
    }

    method Play(traj: seq<Config>, callback: Option<nat>, start: Config)
      modifies this
      ensures Abstract() == Run(old(Abstract()), PlayActions(traj, callback, true, start))
      ensures !stopEvent && thread == Some(|old(workers)|)
      ensures workers == old(workers) + [Worker(traj, start, start, callback, 0, Check)]
    {
      PlayEffect(Abstract(), traj, callback, start);
      Stop();
      stopEvent := false;
      onComplete := callback;
      thread, workers := Some(|workers|), workers + [Worker(traj, start, start, callback, 0, Check)];
    }
  }

  lemma StopEffect(s: Player)
    requires s.main.Idle?
    ensures Run(s, [CallStop, Join(true)]) == s.(event := true, thread := None)
  {
    hide WorkStep;
    var p := [CallStop, Join(true)];
    assert p[..1][..0] == [];
    assert Run(s, p[..1]) == Step(s, CallStop);
  }
}
