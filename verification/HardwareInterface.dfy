/** The ros2_control hardware interface: activation, cyclic read and write, deactivation.
    Angles are exact reals; a command may also be a NaN or an infinity. */
module HardwareInterface {
  import opened Outcomes

  const M_PI: real := 3.14159265358979323846

  datatype Double = Finite(value: real) | NotFinite

  /** Six joint angles as the controller reports them, in degrees. */
  type Angles = s: seq<real> | |s| == 6 witness [0.0, 0.0, 0.0, 0.0, 0.0, 0.0]

  type Commands = s: seq<Double> | |s| == 6
    witness [NotFinite, NotFinite, NotFinite, NotFinite, NotFinite, NotFinite]

  function ToRadians(degrees: real): real {
    degrees / 180.0 * M_PI
  }

  function ToDegrees(radians: Double): Double {
    if radians.Finite? then Finite(radians.value / M_PI * 180.0) else NotFinite
  }

  /** The two conversions, by what they mean: 180 degrees are one M_PI. */
  lemma Units(d: real, r: real)
    ensures ToRadians(d) * 180.0 == d * M_PI
    ensures ToDegrees(Finite(r)).Finite? && ToDegrees(Finite(r)).value * M_PI == r * 180.0
    ensures ToDegrees(NotFinite) == NotFinite
    ensures 3.1415926535897932 < M_PI < 3.1415926535897933
  {
    assert d / 180.0 * M_PI * 180.0 == d / 180.0 * 180.0 * M_PI;
    assert r / M_PI * 180.0 * M_PI == r / M_PI * M_PI * 180.0;
  }

  lemma DegreesOfRadians(d: real)
    ensures ToDegrees(Finite(ToRadians(d))) == Finite(d)
  {
    assert d / 180.0 * M_PI / M_PI == d / 180.0;
  }

  datatype Status = OK | ERROR

  /** The calls of the controller manager, with what the SDK answers to each. */
  datatype Event =
    | Activate(rpc: int, code: int, measured: Angles)
    | Deactivate
    | Read(code: int, measured: Angles)
    | SetCommand(joint: nat, value: Double)
    | Write(code: int)

  /** `sent` are the targets of the ServoJ calls, in degrees. */
  datatype Hardware = Hardware(
    command: Commands,
    torque: Commands,
    state: Angles,
    mode: int,
    robot: bool,
    sent: seq<Commands>)

  predicate SomeNotFinite(c: Commands) {
    exists j :: 0 <= j < 5 && c[j].NotFinite?
  }

  function DegreesOf(c: Commands): Commands {
    seq(6, j requires 0 <= j < 6 => ToDegrees(c[j]))
  }

  function RadiansOf(a: Angles): Angles {
    seq(6, j requires 0 <= j < 6 => ToRadians(a[j]))
  }

  function Held(a: Angles): Commands {
    seq(6, j requires 0 <= j < 6 => Finite(a[j]))
  }

  const ZEROS: Angles := [0.0, 0.0, 0.0, 0.0, 0.0, 0.0]

  /** One call; `Undefined` is the use of the robot pointer while it is null. */
  function Apply(h: Hardware, e: Event): (Hardware, Outcome<Status>) {
    match e
    case Activate(rpc, code, measured) =>
      var command := if rpc == 0 && code == 0 then Held(RadiansOf(measured)) else Held(ZEROS);
      (h.(command := command, torque := Held(ZEROS), state := ZEROS, mode := 0, robot := true),
       Done(if rpc == 0 && code == 0 then OK else ERROR))
    case Deactivate =>
      if h.robot then (h.(robot := false), Done(OK)) else (h, Undefined)
    case Read(code, measured) =>
      if !h.robot then (h, Undefined)
      else (if code == 0 then h.(state := RadiansOf(measured)) else h, Done(OK))
    case SetCommand(joint, value) =>
      (if joint < 6 then h.(command := h.command[joint := value]) else h, Done(OK))
    case Write(_) =>
      if h.mode == 0 then
        if SomeNotFinite(h.command) then (h, Done(ERROR))
        else if !h.robot then (h, Undefined)
        else (h.(sent := h.sent + [DegreesOf(h.command)]), Done(OK))
      else if h.mode == 1 then (h, Done(if SomeNotFinite(h.torque) then ERROR else OK))
      else (h, Done(ERROR))
  }

  class FairinoHardwareInterface {
    const command: array<Double>
    const torque: array<Double>
    const state: array<real>
    var mode: int
    var robot: bool
    var sent: seq<Commands>

    ghost predicate Valid()
      reads this
    {
      command.Length == torque.Length == state.Length == 6 && command != torque
    }

    ghost function Abstract(): Hardware
      requires Valid()
      reads this, command, torque, state
    {
      Hardware(command[..], torque[..], state[..], mode, robot, sent)
    }

    /** Nothing is initialised before the first activation, so `mode` is arbitrary. */
    constructor (mode: int)
      ensures Valid() && !robot && sent == [] && this.mode == mode
    {
      command, torque := new Double[6](_ => NotFinite), new Double[6](_ => NotFinite);
      state := new real[6](_ => 0.0);
      this.mode, robot, sent := mode, false, [];
    }

    method OnActivate(rpc: int, code: int, measured: Angles) returns (out: Outcome<Status>)
      requires Valid()
      modifies this, command, torque, state
      ensures Valid() && (Abstract(), out) == Apply(old(Abstract()), Activate(rpc, code, measured))
    {
      robot := true;
      for i := 0 to 6
        invariant robot && sent == old(sent)
        invariant forall k :: 0 <= k < i ==> command[k] == torque[k] == Finite(0.0) && state[k] == 0.0
      {
        command[i] := Finite(0.0);
        torque[i] := Finite(0.0);
        state[i] := 0.0;
      }
      mode := 0;
      assert torque[..] == Held(ZEROS) && state[..] == ZEROS && command[..] == Held(ZEROS);
      if rpc != 0 || code != 0 {
        return Done(ERROR);
      }
      for j := 0 to 6
        invariant robot && sent == old(sent) && mode == 0
        invariant torque[..] == Held(ZEROS) && state[..] == ZEROS
        invariant forall k :: 0 <= k < j ==> command[k] == Finite(ToRadians(measured[k]))
      {
        command[j] := Finite(measured[j] / 180.0 * M_PI);
      }
      assert command[..] == Held(RadiansOf(measured));
      return Done(OK);
    }

    method OnDeactivate() returns (out: Outcome<Status>)
      requires Valid()
      modifies this`robot
      ensures Valid() && (Abstract(), out) == Apply(old(Abstract()), Deactivate)
    {
      if !robot {
        return Undefined;
      }
      robot := false;
      return Done(OK);
    }

    /** A failed read leaves the state alone and still reports OK. */
    method ReadJoints(code: int, measured: Angles) returns (out: Outcome<Status>)
      requires Valid()
      modifies state
      ensures Valid() && (Abstract(), out) == Apply(old(Abstract()), Read(code, measured))
    {
      if !robot {
        return Undefined;
      }
      if code == 0 {
        for i := 0 to 6
          invariant forall k :: 0 <= k < i ==> state[k] == ToRadians(measured[k])
        {
          state[i] := measured[i] / 180.0 * M_PI;
        }
        assert state[..] == RadiansOf(measured);
      }
      return Done(OK);
    }

    /** `std::any_of` over the first five entries. */
    method AnyNotFinite(a: array<Double>) returns (bad: bool)
      requires a.Length == 6
      ensures bad == SomeNotFinite(a[..])
    {
      bad := false;
      for i := 0 to 5
        invariant bad == exists j :: 0 <= j < i && a[j].NotFinite?
      {
        if a[i].NotFinite? {
          bad := true;
        }
      }
    }

    method WriteJoints(code: int) returns (out: Outcome<Status>)
      requires Valid()
      modifies this`sent
      ensures Valid() && (Abstract(), out) == Apply(old(Abstract()), Write(code))
    {
      if mode == 0 {
        var bad := AnyNotFinite(command);
        if bad {
          return Done(ERROR);
        }
        if !robot {
          return Undefined;
        }
        var target: Commands := [NotFinite, NotFinite, NotFinite, NotFinite, NotFinite, NotFinite];
        for j := 0 to 6
          invariant sent == old(sent)
          invariant forall k :: 0 <= k < j ==> target[k] == ToDegrees(command[k])
        {
          target := target[j := ToDegrees(command[j])];
        }
        assert target == DegreesOf(command[..]);
        sent := sent + [target];
        return Done(OK);
      } else if mode == 1 {
        var bad := AnyNotFinite(torque);
        return Done(if bad then ERROR else OK);
      } else {
        return Done(ERROR);
      }
    }
  }

  // ---- Whole runs ----

  /** The state after a history, starting from uninitialised fields and no robot; None once
      a call was undefined. */
  function Run(start: Hardware, events: seq<Event>): Option<Hardware> {
    if events == [] then Some(start)
    else
      match Run(start, events[..|events| - 1])
      case None => None
      case Some(h) =>
        var (g, out) := Apply(h, events[|events| - 1]);
        if out.Undefined? then None else Some(g)
  }

  predicate SetsJoint(e: Event, j: nat) {
    e.Activate? || (e.SetCommand? && e.joint == j)
  }

  /** Event `m` is the last one before `k` that determines the command of joint `j`. */
  ghost predicate LastSetter(events: seq<Event>, m: nat, k: nat, j: nat)
    requires k <= |events|
  {
    m < k && SetsJoint(events[m], j) && forall i :: m < i < k ==> !SetsJoint(events[i], j)
  }

  /** The target that follows from it, in degrees: the commanded angle, the measured angle
      of a successful activation, or zero after a failed one. */
  function TargetFrom(e: Event, j: nat): Double
    requires j < 6 && SetsJoint(e, j)
  {
    match e
    case SetCommand(_, value) => ToDegrees(value)
    case Activate(rpc, code, measured) => Finite(if rpc == 0 && code == 0 then measured[j] else 0.0)
  }

  /** Some activation before `k` was not followed by a deactivation. */
  ghost predicate RobotHeld(events: seq<Event>, k: nat)
    requires k <= |events|
  {
    exists a: nat :: a < k && events[a].Activate? && forall i :: a < i < k ==> !events[i].Deactivate?
  }

  ghost predicate CommandTraced(events: seq<Event>, h: Hardware, j: nat)
    requires j < 6
  {
    exists m: nat :: LastSetter(events, m, |events|, j) && ToDegrees(h.command[j]) == TargetFrom(events[m], j)
  }

  /** Some activation has taken place. */
  predicate Activated(events: seq<Event>) {
    exists i :: 0 <= i < |events| && events[i].Activate?
  }

  ghost predicate RunInv(events: seq<Event>, h: Hardware) {
    && (h.robot <==> RobotHeld(events, |events|))
    && (Activated(events) ==> h.mode == 0 && forall j: nat :: j < 6 ==> CommandTraced(events, h, j))
  }

  lemma ActivatedStep(events: seq<Event>, e: Event)
    ensures Activated(events + [e]) <==> Activated(events) || e.Activate?
  {
    var all := events + [e];
    if i :| 0 <= i < |events| && events[i].Activate? {
      assert all[i].Activate?;
    }
    assert all[|events|] == e;
    if i :| 0 <= i < |all| && all[i].Activate? {
      assert i < |events| ==> events[i].Activate?;
    }
  }

  lemma HeldActivated(events: seq<Event>)
    requires RobotHeld(events, |events|)
    ensures Activated(events)
  {
  }

  lemma TracedStep(events: seq<Event>, e: Event, h: Hardware, j: nat)
    requires j < 6
    requires CommandTraced(events, h, j) || SetsJoint(e, j)
    ensures CommandTraced(events + [e], Apply(h, e).0, j)
  {
    var all, g := events + [e], Apply(h, e).0;
    if SetsJoint(e, j) {
      assert LastSetter(all, |events|, |all|, j);
      if e.Activate? && e.rpc == 0 && e.code == 0 {
        DegreesOfRadians(e.measured[j]);
      }
      assert ToDegrees(g.command[j]) == TargetFrom(all[|events|], j);
    } else {
      var m: nat :| LastSetter(events, m, |events|, j) && ToDegrees(h.command[j]) == TargetFrom(events[m], j);
      assert LastSetter(all, m, |all|, j);
      assert g.command[j] == h.command[j] && all[m] == events[m];
    }
  }

  lemma HeldStep(events: seq<Event>, e: Event)
    ensures RobotHeld(events + [e], |events| + 1) <==> e.Activate? || (!e.Deactivate? && RobotHeld(events, |events|))
  {
    var all := events + [e];
    if e.Activate? {
      assert all[|events|].Activate?;
    } else {
      if RobotHeld(events, |events|) && !e.Deactivate? {
        var a: nat :| a < |events| && events[a].Activate? && forall i :: a < i < |events| ==> !events[i].Deactivate?;
        assert all[a].Activate?;
      }
      if RobotHeld(all, |all|) {
        var a: nat :| a < |all| && all[a].Activate? && forall i :: a < i < |all| ==> !all[i].Deactivate?;
        assert events[a].Activate? && all[|events|] == e;
        assert forall i :: 0 <= i < |events| ==> events[i] == all[i];
      }
    }
  }

  lemma {:induction false} RunHolds(start: Hardware, events: seq<Event>)
    requires !start.robot && Run(start, events).Some?
    ensures RunInv(events, Run(start, events).value)
  {
    if events != [] {
      hide Apply;
      var n := |events| - 1;
      var h, e := Run(start, events[..n]).value, events[n];
      RunHolds(start, events[..n]);
      assert events == events[..n] + [e];
      StepHolds(events[..n], e, h);
    }
  }

  lemma StepHolds(events: seq<Event>, e: Event, h: Hardware)
    requires RunInv(events, h)
    ensures RunInv(events + [e], Apply(h, e).0)
  {
    hide CommandTraced, RobotHeld, Activated;
    var g := Apply(h, e).0;
    HeldStep(events, e);
    ActivatedStep(events, e);
    if Activated(events + [e]) {
      forall j: nat | j < 6
        ensures CommandTraced(events + [e], g, j)
      {
        TracedStep(events, e, h, j);
      }
    }
  }

  // ---- Main results ----

  /** Every ServoJ is issued with the robot held, and the target of each joint is the degree
      conversion of the last command given to it since the last activation, or, if there was
      none, exactly the angle measured by that activation when it succeeded. After a failed
      activation the target is zero. */
  lemma ServoTargets(start: Hardware, events: seq<Event>, code: int, j: nat)
    requires !start.robot && j < 6 && Run(start, events + [Write(code)]).Some?
    ensures Run(start, events).Some?
    ensures var before, after := Run(start, events).value, Run(start, events + [Write(code)]).value;
            after.sent != before.sent ==>
              && after == before.(sent := before.sent + [after.sent[|before.sent|]])
              && RobotHeld(events, |events|)
              && exists m: nat ::
                   && LastSetter(events, m, |events|, j)
                   && Targets(events[m], after.sent[|before.sent|][j], j)
  {
    assert (events + [Write(code)])[..|events|] == events;
    RunHolds(start, events);
    var before, after := Run(start, events).value, Run(start, events + [Write(code)]).value;
    if after.sent != before.sent {
      assert after.sent == before.sent + [DegreesOf(before.command)];
      HeldActivated(events);
      assert CommandTraced(events, before, j);
      var m: nat :| LastSetter(events, m, |events|, j)
                    && ToDegrees(before.command[j]) == TargetFrom(events[m], j);
      TargetMeans(events[m], j);
    }
  }

  /** `target` is what event `e` asks of joint `j`, in degrees: the commanded angle converted
      from radians, the measured angle of a successful activation, zero after a failed one. */
  predicate Targets(e: Event, target: Double, j: nat)
    requires j < 6
  {
    match e
    case SetCommand(_, Finite(value)) => target.Finite? && target.value * M_PI == value * 180.0
    case SetCommand(_, NotFinite) => target.NotFinite?
    case Activate(rpc, code, measured) => target == Finite(if rpc == 0 && code == 0 then measured[j] else 0.0)
    case _ => false
  }

  lemma TargetMeans(e: Event, j: nat)
    requires j < 6 && SetsJoint(e, j)
    ensures Targets(e, TargetFrom(e, j), j)
  {
    if e.SetCommand? && e.value.Finite? {
      Units(0.0, e.value.value);
    }
  }

  /** No jump: after a successful activation with no command since, the target equals the
      measured angles exactly. */
  lemma NoJumpStart(start: Hardware, events: seq<Event>, measured: Angles, rest: seq<Event>, code: int)
    requires !start.robot
    requires forall i :: 0 <= i < |rest| ==> rest[i].Read? || rest[i].Write?
    requires Run(start, events + [Activate(0, 0, measured)] + rest).Some?
    ensures var all := events + [Activate(0, 0, measured)] + rest;
            var before, after := Run(start, all).value, Apply(Run(start, all).value, Write(code));
            after == (before.(sent := before.sent + [Held(measured)]), Done(OK))
    ensures Run(start, events).Some? &&
            Apply(Run(start, events).value, Activate(0, 0, measured)).1 == Done(OK)
  {
    RunPrefix(start, events, [Activate(0, 0, measured)] + rest);
    assert events + ([Activate(0, 0, measured)] + rest) == events + [Activate(0, 0, measured)] + rest;
    var all := events + [Activate(0, 0, measured)] + rest;
    CommandKept(start, events, measured, rest);
    var h := Run(start, all).value;
    forall j | 0 <= j < 6 ensures DegreesOf(h.command)[j] == Held(measured)[j] && h.command[j].Finite? {
      DegreesOfRadians(measured[j]);
      assert h.command[j] == Finite(ToRadians(measured[j]));
    }
    assert DegreesOf(h.command) == Held(measured);
  }

  lemma {:induction false} CommandKept(start: Hardware, events: seq<Event>, measured: Angles, rest: seq<Event>)
    requires forall i :: 0 <= i < |rest| ==> rest[i].Read? || rest[i].Write?
    requires Run(start, events + [Activate(0, 0, measured)] + rest).Some?
    ensures var h := Run(start, events + [Activate(0, 0, measured)] + rest).value;
            h.command == Held(RadiansOf(measured)) && h.mode == 0 && h.robot
  {
    var head := events + [Activate(0, 0, measured)];
    if rest == [] {
      assert (head + rest)[..|events|] == events && head + rest == head;
    } else {
      var n := |rest| - 1;
      assert (head + rest)[..|head + rest| - 1] == head + rest[..n];
      CommandKept(start, events, measured, rest[..n]);
    }
  }

  lemma LastSetterUnique(events: seq<Event>, m: nat, n: nat, k: nat, j: nat)
    requires k <= |events| && LastSetter(events, m, k, j) && LastSetter(events, n, k, j)
    ensures m == n
  {
  }

  /** What the history last asked of joint `j` is a NaN or an infinity. */
  ghost predicate LastAskedNotFinite(events: seq<Event>, j: nat)
    requires j < 6
  {
    exists m: nat :: LastSetter(events, m, |events|, j) && TargetFrom(events[m], j).NotFinite?
  }

  lemma AskedIsHeld(events: seq<Event>, h: Hardware, j: nat)
    requires j < 6 && CommandTraced(events, h, j)
    ensures h.command[j].NotFinite? <==> LastAskedNotFinite(events, j)
  {
    var m: nat :| LastSetter(events, m, |events|, j) && ToDegrees(h.command[j]) == TargetFrom(events[m], j);
    forall n: nat | LastSetter(events, n, |events|, j)
      ensures n == m
    {
      LastSetterUnique(events, m, n, |events|, j);
    }
  }

  lemma {:induction false} RunPrefix(start: Hardware, events: seq<Event>, rest: seq<Event>)
    requires Run(start, events + rest).Some?
    ensures Run(start, events).Some?
  {
    if rest == [] {
      assert events + rest == events;
    } else {
      assert (events + rest)[..|events + rest| - 1] == events + rest[..|rest| - 1];
      RunPrefix(start, events, rest[..|rest| - 1]);
    }
  }

  /** After any history with an activation, a write is rejected exactly when the last value
      asked of one of the joints 1 to 5 is not finite, and then nothing is sent; otherwise a
      target is sent, or, when the robot was given up, a null pointer is used. Joint 6 is never
      checked: a target with a non-finite sixth joint reaches the robot exactly when the first
      five joints pass and the last value asked of joint 6 is not finite. */
  lemma WriteVerdict(start: Hardware, events: seq<Event>, code: int)
    requires !start.robot && Run(start, events).Some? && Activated(events)
    ensures var before := Run(start, events).value; var (after, out) := Apply(before, Write(code));
            var rejected := exists j: nat :: j < 5 && LastAskedNotFinite(events, j);
            && out == (if rejected then Done(ERROR) else if RobotHeld(events, |events|) then Done(OK) else Undefined)
            && Run(start, events + [Write(code)]) == (if out.Undefined? then None else Some(after))
            && (out != Done(OK) ==> after == before)
            && (out == Done(OK) ==> |after.sent| == |before.sent| + 1)
            && (out == Done(OK) ==> (after.sent[|before.sent|][5].NotFinite? <==> LastAskedNotFinite(events, 5)))
  {
    hide LastAskedNotFinite, CommandTraced, RobotHeld, Activated;
    assert (events + [Write(code)])[..|events|] == events;
    RunHolds(start, events);
    var h := Run(start, events).value;
    forall j: nat | j < 6
      ensures h.command[j].NotFinite? <==> LastAskedNotFinite(events, j)
    {
      AskedIsHeld(events, h, j);
    }
    assert SomeNotFinite(h.command) <==> exists j: nat :: j < 5 && LastAskedNotFinite(events, j);
  }

  /** Reading and deactivating use the robot pointer and report OK, whatever the SDK answers;
      the pointer is null exactly when there was no activation since the last deactivation. */
  lemma NullPointerExactly(start: Hardware, events: seq<Event>, code: int, measured: Angles)
    requires !start.robot && Run(start, events).Some?
    ensures var h, held := Run(start, events).value, RobotHeld(events, |events|);
            && Apply(h, Read(code, measured)).1 == (if held then Done(OK) else Undefined)
            && Apply(h, Deactivate).1 == (if held then Done(OK) else Undefined)
  {
    hide RobotHeld, CommandTraced;
    RunHolds(start, events);
  }

  /** The events that set the exported joint state. */
  predicate SetsState(e: Event) {
    e.Activate? || (e.Read? && e.code == 0)
  }

  ghost predicate LastStateSetter(events: seq<Event>, m: nat) {
    m < |events| && SetsState(events[m]) && forall i :: m < i < |events| ==> !SetsState(events[i])
  }

  function StateFrom(e: Event): (r: Angles)
    requires SetsState(e)
    ensures e.Read? ==> forall j :: 0 <= j < 6 ==> r[j] * 180.0 == e.measured[j] * M_PI
    ensures e.Activate? ==> forall j :: 0 <= j < 6 ==> r[j] == 0.0
  {
    if e.Read? then
      assert forall j :: 0 <= j < 6 ==> ToRadians(e.measured[j]) * 180.0 == e.measured[j] * M_PI;
      RadiansOf(e.measured)
    else ZEROS
  }

  /** After any history the exported joint state is the last successful read since the last
      activation, in radians, and zero when there was none; before any activation it is what
      the memory held. */
  lemma {:induction false} JointStateTraced(start: Hardware, events: seq<Event>)
    requires !start.robot && Run(start, events).Some?
    ensures var h := Run(start, events).value;
            && (forall m: nat :: LastStateSetter(events, m) ==>
                  h.state == StateFrom(events[m]) && forall j :: 0 <= j < 6 ==>
                    (events[m].Read? ==> h.state[j] * 180.0 == events[m].measured[j] * M_PI)
                    && (events[m].Activate? ==> h.state[j] == 0.0))
            && ((forall i :: 0 <= i < |events| ==> !SetsState(events[i])) ==> h.state == start.state)
  {
    hide Apply, StateFrom;
    if events != [] {
      var n := |events| - 1;
      var before, h := events[..n], Run(start, events[..n]).value;
      JointStateTraced(start, before);
      StateStep(h, events[n]);
      assert forall i :: 0 <= i < n ==> before[i] == events[i];
      forall m: nat | LastStateSetter(events, m)
        ensures if SetsState(events[n]) then m == n else LastStateSetter(before, m) && before[m] == events[m]
      {
      }
    }
  }

  lemma StateStep(h: Hardware, e: Event)
    requires !Apply(h, e).1.Undefined?
    ensures Apply(h, e).0.state == if SetsState(e) then StateFrom(e) else h.state
  {
  }

  /** A write after a failed activation commands every joint to zero. */
  lemma WriteAfterFailedActivation(h: Hardware, rpc: int, code: int, measured: Angles, w: int)
    requires rpc != 0 || code != 0
    ensures var (g, out) := Apply(h, Activate(rpc, code, measured));
            out == Done(ERROR) && Apply(g, Write(w)) == (g.(sent := g.sent + [Held(ZEROS)]), Done(OK))
  {
    var g := Apply(h, Activate(rpc, code, measured)).0;
    assert ToDegrees(Finite(0.0)) == Finite(0.0);
    assert DegreesOf(g.command) == Held(ZEROS);
  }
}
