/** What each request means: the specification the command server is proved against.
    A request acts on the two point lists and on the list of motion calls sent to the SDK. */
module Commands {
  import opened Outcomes
  import opened CommaText
  import opened Numbers
  import opened Envelope
  import opened Points

  type Axes = a: seq<Num> | |a| == 4 witness [ZERO, ZERO, ZERO, ZERO]

  /** The ROS parameters of the motion commands; those stored in a `float` are given as
      narrowed, flags as declared. */
  datatype Tuning = Tuning(
    acc: Num,
    ovl: Num,
    blendT: Num,
    blendR: Num,
    search: int,
    offsetFlag: int,
    offset: DescPose,
    splineAcc: Num,
    splineOvl: Num,
    splineBlendR: Num)

  /** The arguments an SDK call takes from them. */
  datatype Options =
    | JointOptions(acc: Num, ovl: Num, blendT: Num, offsetFlag: int, offset: DescPose)
    | LineOptions(acc: Num, ovl: Num, blendR: Num, search: int, offsetFlag: int, offset: DescPose)
    | SplineOptions(acc: Num, ovl: Num)
    | SplinePointOptions(acc: Num, ovl: Num, blendR: Num)

  datatype SdkCall =
    | SdkMoveJ(joint: Point, pose: DescPose, tool: int, user: int, speed: int, ext: Axes, options: Options)
    | SdkMoveL(joint: Point, pose: DescPose, tool: int, user: int, speed: int, ext: Axes, options: Options)
    | SdkSplinePTP(joint: Point, pose: DescPose, tool: int, user: int, speed: int, options: Options)
    | SdkNewSplinePoint(
        joint: Point, pose: DescPose, tool: int, user: int, speed: int, lastFlag: int, options: Options)

  datatype Kin<T> = Kin(code: int, value: T)

  /** Everything one request can learn from outside: kinematics, the code the motion call
      returns, two samples of the external-axis feedback, the default external axes, the
      other ROS parameters, and
      what a handler outside this model does (None: the name is not in the function table). */
  datatype Sdk = Sdk(
    forward: Point -> Kin<DescPose>,
    inverse: DescPose -> Kin<Point>,
    inverseExt: (DescPose, Axes, int, int) -> Kin<Point>,
    code: int,
    feedback: Axes,
    lateFeedback: Axes,
    defaults: Axes,
    tuning: Tuning,
    other: Option<Outcome<string>>)

  datatype State = State(jnt: seq<Point>, cart: seq<Point>, calls: seq<SdkCall>)

  const INITIAL: State := State([], [], [])

  // ---- Point names ----

  /** `(JNT)([0-9]*)` and `(CART)([0-9]*)` matched against the first field. */
  predicate IsHead(prefix: string, s: string) {
    prefix <= s && AllDigits(s[|prefix|..])
  }

  function HeadIndex(prefix: string, s: string): (i: int)
    requires IsHead(prefix, s)
    ensures INT_MIN <= i <= INT_MAX
  {
    AtoLAsInt(s[|prefix|..])
  }

  /** An index past the list is refused; `at(index - 1)` throws for index 0, where the
      subtraction wraps to the largest `size_t`. */
  function Lookup(list: seq<Point>, index: int): Outcome<Point> {
    if SizeT(index) > |list| then Threw(EarlyReturn)
    else if SizeT(index - 1) >= |list| then Threw(OutOfRange)
    else Done(list[SizeT(index - 1)])
  }

  lemma LookupExact(list: seq<Point>, index: int)
    requires INT_MIN <= index <= INT_MAX && |list| <= INT_MAX
    ensures Lookup(list, index) ==
            if 1 <= index <= |list| then Done(list[index - 1])
            else if index == 0 then Threw(OutOfRange) else Threw(EarlyReturn)
  {
    IndexConversions(index);
  }

  // ---- Motion commands, by field position ----

  datatype MotionKind = MoveJ | MoveL | SplinePTP | NewSplinePoint

  function IntAt(f: seq<string>, i: nat): (r: Outcome<int>)
    ensures r != Threw(EarlyReturn)
  {
    if i < |f| then StoI(f[i]) else Undefined
  }

  function NumAt(f: seq<string>, i: nat): (r: Outcome<Num>)
    ensures r != Threw(EarlyReturn)
  {
    if i < |f| then StoD(f[i]) else Undefined
  }

  datatype Target = Target(joint: Point, pose: DescPose)

  function ForwardTarget(jnt: seq<Point>, head: string, sdk: Sdk): Outcome<Target>
    requires IsHead("JNT", head)
  {
    var p :- Lookup(jnt, HeadIndex("JNT", head));
    var kin := sdk.forward(p);
    if kin.code != 0 then Threw(EarlyReturn) else Done(Target(p, kin.value))
  }

  function InverseTarget(cart: seq<Point>, head: string, sdk: Sdk): Outcome<Target>
    requires IsHead("CART", head)
  {
    var p :- Lookup(cart, HeadIndex("CART", head));
    var kin := sdk.inverse(PoseOf(p));
    if kin.code != 0 then Threw(EarlyReturn) else Done(Target(kin.value, PoseOf(p)))
  }

  /** `MoveJ` reads tool and user ahead, for the inverse kinematics with external axes;
      with fewer fields the two variables are passed uninitialised. */
  function InverseExtTarget(cart: seq<Point>, f: seq<string>, sdk: Sdk): Outcome<Target>
    requires |f| > 0 && IsHead("CART", f[0])
  {
    var p :- Lookup(cart, HeadIndex("CART", f[0]));
    var tool :- IntAt(f, 2);
    var user :- IntAt(f, 3);
    var kin := sdk.inverseExt(PoseOf(p), sdk.feedback, tool, user);
    if kin.code != 0 then Threw(EarlyReturn) else Done(Target(kin.value, PoseOf(p)))
  }

  function FindTarget(kind: MotionKind, jnt: seq<Point>, cart: seq<Point>, f: seq<string>, sdk: Sdk): Outcome<Target>
    requires |f| > 0
  {
    if !kind.NewSplinePoint? && IsHead("JNT", f[0]) then ForwardTarget(jnt, f[0], sdk)
    else if kind.MoveJ? && IsHead("CART", f[0]) then InverseExtTarget(cart, f, sdk)
    else if !kind.SplinePTP? && IsHead("CART", f[0]) then InverseTarget(cart, f[0], sdk)
    else Threw(EarlyReturn)
  }

  datatype Frame = Frame(speed: int, tool: int, user: int)

  function ReadFrame(f: seq<string>): (r: Outcome<Frame>)
    ensures r != Threw(EarlyReturn)
    ensures r.Done? ==> |f| >= 4
  {
    var speed :- IntAt(f, 1);
    var tool :- IntAt(f, 2);
    var user :- IntAt(f, 3);
    Done(Frame(speed, tool, user))
  }

  /** External axes are read when there is anything after the user number. */
  function GivenAxes(f: seq<string>, sdk: Sdk): (r: Outcome<Axes>)
    ensures r != Threw(EarlyReturn)
  {
    if |f| <= 4 then Done(sdk.defaults)
    else
      var a :- NumAt(f, 4);
      var b :- NumAt(f, 5);
      var c :- NumAt(f, 6);
      var d :- NumAt(f, 7);
      Done([a, b, c, d])
  }

  function OptionsFor(kind: MotionKind, t: Tuning): Options {
    match kind
    case MoveJ => JointOptions(t.acc, t.ovl, t.blendT, t.offsetFlag % 256, t.offset)
    case MoveL => LineOptions(t.acc, t.ovl, t.blendR, t.search % 256, t.offsetFlag % 256, t.offset)
    case SplinePTP => SplineOptions(t.splineAcc, t.splineOvl)
    case NewSplinePoint => SplinePointOptions(t.splineAcc, t.splineOvl, t.splineBlendR)
  }

  /** The motion call a request leads to, or how it ends without one. */
  function Motion(kind: MotionKind, jnt: seq<Point>, cart: seq<Point>, f: seq<string>, sdk: Sdk): Outcome<SdkCall>
    requires |f| > 0
  {
    var t :- FindTarget(kind, jnt, cart, f, sdk);
    var n :- ReadFrame(f);
    var options := OptionsFor(kind, sdk.tuning);
    match kind
    case MoveJ =>
      var _ :- GivenAxes(f, sdk);
      Done(SdkMoveJ(t.joint, t.pose, n.tool, n.user, n.speed, sdk.lateFeedback, options))
    case MoveL =>
      var ext :- GivenAxes(f, sdk);
      Done(SdkMoveL(t.joint, t.pose, n.tool, n.user, n.speed, ext, options))
    case SplinePTP =>
      Done(SdkSplinePTP(t.joint, t.pose, n.tool, n.user, n.speed, options))
    case NewSplinePoint =>
      var last :- IntAt(f, 4);
      Done(SdkNewSplinePoint(t.joint, t.pose, n.tool, n.user, n.speed, last % 256, options))
  }

  function MotionReply(m: Outcome<SdkCall>, code: int): Outcome<string> {
    match m
    case Done(_) => Done(IntText(code))
    case Threw(EarlyReturn) => Done("-1")
    case Threw(e) => Threw(e)
    case Undefined => Undefined
  }

  function Emitted(m: Outcome<SdkCall>): seq<SdkCall> {
    if m.Done? then [m.value] else []
  }

  // ---- Dispatch ----

  /** The dispatcher turns every logic error into the reply "-1". */
  function Caught(o: Outcome<string>): (r: Outcome<string>)
    ensures !r.Threw?
  {
    if o.Threw? then Done("-1") else o
  }

  function KindOf(name: string): Option<MotionKind> {
    if name == "MoveJ" then Some(MoveJ)
    else if name == "MoveL" then Some(MoveL)
    else if name == "SplinePTP" then Some(SplinePTP)
    else if name == "NewSplinePoint" then Some(NewSplinePoint)
    else None
  }

  function Call(s: State, name: string, params: string, sdk: Sdk): (State, Outcome<string>) {
    if name == "JNTPoint" then
      match ReadDefinition(params, |s.jnt|) {
        case Rejected => (s, Done("-1"))
        case Accepted(i, p) => (s.(jnt := Put(s.jnt, i, p)), Done("0"))
      }
    else if name == "CARTPoint" then
      match ReadDefinition(params, |s.cart|) {
        case Rejected => (s, Done("-1"))
        case Accepted(i, p) => (s.(cart := Put(s.cart, i, p)), Done("0"))
      }
    else if name == "GET" then
      match GetPoint(s.jnt, s.cart, params) {
        case Done(p) => (s, Done(Reply(p)))
        case _ => (s, Undefined)
      }
    else if KindOf(name).Some? then
      var m := Motion(KindOf(name).value, s.jnt, s.cart, Split(params), sdk);
      (s.(calls := s.calls + Emitted(m)), MotionReply(m, sdk.code))
    else
      (s, if sdk.other.Some? then sdk.other.value else Done("-1"))
  }

  function Respond(s: State, request: string, sdk: Sdk): (State, Outcome<string>) {
    match ParseCall(request)
    case None => (s, Done("-1"))
    case Some((name, params)) =>
      var (t, o) := Call(s, name, params, sdk);
      (t, Caught(o))
  }
}
