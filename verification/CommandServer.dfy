/** The command server: two point lists overwritten and extended in place, token iterators
    advanced one field at a time, and calls issued to the SDK. */
module CommandServer {
  import opened Outcomes
  import opened CommaText
  import opened Numbers
  import opened Envelope
  import opened Points
  import opened Commands

  /** One `std::stoi(iter->str()); iter++`. Reading at the end is undefined. */
  method TakeInt(iter: TokenIter) returns (r: Outcome<int>, n: TokenIter)
    requires iter.Valid()
    ensures r == IntAt(iter.Rest(), 0) && n.Valid()
    ensures r.Done? ==> n.Rest() == iter.Rest()[1..]
  {
    if iter.kind.End? {
      return Undefined, iter;
    }
    iter.NextRest();
    r, n := StoI(iter.Str()), iter.Next();
  }

  method TakeNum(iter: TokenIter) returns (r: Outcome<Num>, n: TokenIter)
    requires iter.Valid()
    ensures r == NumAt(iter.Rest(), 0) && n.Valid()
    ensures r.Done? ==> n.Rest() == iter.Rest()[1..]
  {
    if iter.kind.End? {
      return Undefined, iter;
    }
    iter.NextRest();
    r, n := StoD(iter.Str()), iter.Next();
  }

  /** One `atof(iter->str()); iter++`, on a token known to be there. */
  method TakeDouble(iter: TokenIter) returns (x: Num, n: TokenIter)
    requires iter.Valid() && |iter.Rest()| > 0
    ensures x == AtoF(iter.Rest()[0]) && n.Valid() && n.Rest() == iter.Rest()[1..]
  {
    iter.NextRest();
    x, n := AtoF(iter.Str()), iter.Next();
  }

  method CountTokens(text: string) returns (count: nat)
    ensures count == |Split(text)|
  {
    count := 0;
    var iter := TokenIter.Begin(text);
    while !iter.kind.End?
      invariant iter.Valid()
      invariant count + |iter.Rest()| == |Split(text)|
      decreases |iter.Rest()|
    {
      iter.NextRest();
      count, iter := count + 1, iter.Next();
    }
  }

  function Coordinates(cart: seq<DescPose>): (r: seq<Point>)
    ensures |r| == |cart| && forall i :: 0 <= i < |cart| ==> r[i] == cart[i].Coords()
  {
    seq(|cart|, i requires 0 <= i < |cart| => cart[i].Coords())
  }

  lemma CoordsKnown(f: seq<string>, p: Point)
    requires |f| >= 6 && forall k :: 0 <= k < 6 ==> p[k] == AtoF(f[k])
    ensures p == CoordsIn(f, 0)
  {
    hide AtoF;
  }

  class Server {
    var jntPoints: seq<Point>
    var cartPoints: seq<DescPose>
    var calls: seq<SdkCall>

    ghost function Abstract(): State
      reads this
    {
      State(jntPoints, Coordinates(cartPoints), calls)
    }

    /** A list grows only through an `int` index, so it never outgrows that type. */
    ghost predicate Valid()
      reads this
    {
      |jntPoints| <= INT_MAX && |cartPoints| <= INT_MAX
    }

    constructor ()
      ensures Valid() && Abstract() == INITIAL
    {
      jntPoints, cartPoints, calls := [], [], [];
    }

    /** Overwrites the coordinates of an existing joint point one by one. */
    method OverwriteJoints(start: TokenIter, idx: int)
      requires start.Valid() && |start.Rest()| == 6 && 1 <= idx <= |jntPoints|
      modifies this`jntPoints
      ensures jntPoints == Put(old(jntPoints), idx, CoordsIn(start.Rest(), 0))
    {
      hide AtoF, Split;
      ghost var f := start.Rest();
      var iter, i := start, 0;
      while !iter.kind.End?
        invariant iter.Valid() && 0 <= i <= 6 && iter.Rest() == f[i..]
        invariant |jntPoints| == |old(jntPoints)|
        invariant jntPoints == old(jntPoints)[idx - 1 := jntPoints[idx - 1]]
        invariant forall k :: 0 <= k < i ==> jntPoints[idx - 1][k] == AtoF(f[k])
        decreases 6 - i
      {
        iter.At(f, i);
        jntPoints := jntPoints[idx - 1 := jntPoints[idx - 1][i := AtoF(iter.Str())]];
        iter, i := iter.Next(), i + 1;
      }
      iter.At(f, i);
      assert jntPoints[idx - 1] == CoordsIn(f, 0);
    }

    /** Appends a joint point filled coordinate by coordinate. */
    method AppendJoints(start: TokenIter)
      requires start.Valid() && |start.Rest()| == 6
      modifies this`jntPoints
      ensures jntPoints == old(jntPoints) + [CoordsIn(start.Rest(), 0)]
    {
      hide AtoF, Split, CoordsIn;
      ghost var f := start.Rest();
      var p: Point := [ZERO, ZERO, ZERO, ZERO, ZERO, ZERO];
      var iter, i := start, 0;
      while !iter.kind.End?
        invariant iter.Valid() && 0 <= i <= 6 && iter.Rest() == f[i..] && jntPoints == old(jntPoints)
        invariant forall k :: 0 <= k < i ==> p[k] == AtoF(f[k])
        decreases 6 - i
      {
        iter.At(f, i);
        p := p[i := AtoF(iter.Str())];
        iter, i := iter.Next(), i + 1;
      }
      iter.At(f, i);
      CoordsKnown(f, p);
      jntPoints := jntPoints + [p];
    }

    method DefJntPosition(pos: string) returns (reply: string)
      requires Valid()
      modifies this`jntPoints
      ensures Valid()
      ensures match ReadDefinition(pos, |old(jntPoints)|)
              case Rejected => reply == "-1" && jntPoints == old(jntPoints)
              case Accepted(i, p) => reply == "0" && jntPoints == Put(old(jntPoints), i, p)
    {
      hide AtoF, Split, AtoLAsInt;
      if !PointText(pos) {
        return "-1";
      }
      var count := CountTokens(pos);
      if count != 7 {
        return "-1";
      }
      var iter := TokenIter.Begin(pos);
      iter.NextRest();
      var idx := AtoLAsInt(iter.Str());
      iter := iter.Next();
      MixedSignTest(idx, |jntPoints|);
      assert iter.Rest() == Split(pos)[1..];
      assert CoordsIn(Split(pos), 1) == CoordsIn(iter.Rest(), 0);
      if OutOfContainer(idx, |jntPoints|) {
        return "-1";
      } else if idx <= |jntPoints| {
        OverwriteJoints(iter, idx);
      } else {
        AppendJoints(iter);
      }
      return "0";
    }

    method DefCartPosition(pos: string) returns (reply: string)
      requires Valid()
      modifies this`cartPoints
      ensures Valid()
      ensures match ReadDefinition(pos, |old(cartPoints)|)
              case Rejected => reply == "-1" && cartPoints == old(cartPoints)
              case Accepted(i, p) => reply == "0" && cartPoints == Put(old(cartPoints), i, PoseOf(p))
    {
      hide AtoF, Split, AtoLAsInt;
      if !PointText(pos) {
        return "-1";
      }
      var count := CountTokens(pos);
      if count != 7 {
        return "-1";
      }
      var iter := TokenIter.Begin(pos);
      iter.NextRest();
      var idx := AtoLAsInt(iter.Str());
      iter := iter.Next();
      MixedSignTest(idx, |cartPoints|);
      assert iter.Rest() == Split(pos)[1..];
      if OutOfContainer(idx, |cartPoints|) {
        return "-1";
      }
      var pose := ReadPose(iter);
      assert CoordsIn(Split(pos), 1) == CoordsIn(iter.Rest(), 0);
      if idx <= |cartPoints| {
        cartPoints := cartPoints[idx - 1 := pose];
      } else {
        cartPoints := cartPoints + [pose];
      }
      return "0";
    }

    /** Six `atof(iter->str())` in the order x, y, z, rx, ry, rz. */
    method ReadPose(start: TokenIter) returns (pose: DescPose)
      requires start.Valid() && |start.Rest()| == 6
      ensures pose == PoseOf(CoordsIn(start.Rest(), 0))
    {
      hide AtoF, Split;
      var x, y, z, rx, ry, rz;
      ghost var f := start.Rest();
      var iter := start;
      x, iter := TakeDouble(iter);
      y, iter := TakeDouble(iter);
      z, iter := TakeDouble(iter);
      rx, iter := TakeDouble(iter);
      ry, iter := TakeDouble(iter);
      rz, iter := TakeDouble(iter);
      assert [x, y, z, rx, ry, rz] == CoordsIn(f, 0);
      pose := DescPose(DescTran(x, y, z), Rpy(rx, ry, rz));
    }

    /** `Undefined` stands for the paths on which the function returns nothing. */
    method GetVariable(params: string) returns (out: Outcome<string>)
      requires Valid()
      ensures out == match GetPoint(jntPoints, Coordinates(cartPoints), params)
                     case Done(p) => Done(Reply(p))
                     case _ => Undefined
    {
      hide AtoLAsInt, ToText;
      var parsed := ParseGet(params);
      if parsed.None? {
        return Undefined;
      }
      var (letters, digits) := parsed.value;
      var idx := AtoLAsInt(digits);
      if letters == "JNT" {
        if SizeT(idx) <= |jntPoints| && idx > 0 {
          var p := jntPoints[idx - 1];
          var res := ToText(p[0]) + "," + ToText(p[1]) + "," + ToText(p[2]) + "," +
          ToText(p[3]) + "," + ToText(p[4]) + "," + ToText(p[5]);
          ReplyConcat(p);
          return Done(res);
        }
      } else if letters == "CART" {
        if SizeT(idx) <= |cartPoints| && idx > 0 {
          var pose := cartPoints[idx - 1];
          var res := ToText(pose.tran.x) + "," + ToText(pose.tran.y) + "," + ToText(pose.tran.z) + "," +
          ToText(pose.rpy.rx) + "," + ToText(pose.rpy.ry) + "," + ToText(pose.rpy.rz);
          ReplyConcat(pose.Coords());
          return Done(res);
        }
      }
      return Undefined;
    }

    /** The list entry a point name refers to, with the exception of `at`. */
    method Entry<T>(list: seq<T>, index: int) returns (r: Outcome<T>)
      requires INT_MIN <= index <= INT_MAX && |list| <= INT_MAX
      ensures r == if 1 <= index <= |list| then Done(list[index - 1])
                   else if index == 0 then Threw(OutOfRange) else Threw(EarlyReturn)
    {
      IndexConversions(index);
      if SizeT(index) > |list| {
        return Threw(EarlyReturn);
      }
      if SizeT(index - 1) >= |list| {
        return Threw(OutOfRange);
      }
      return Done(list[index - 1]);
    }

    method JointTarget(head: string, sdk: Sdk) returns (r: Outcome<Target>)
      requires Valid() && IsHead("JNT", head)
      ensures r == ForwardTarget(jntPoints, head, sdk)
    {
      LookupExact(jntPoints, HeadIndex("JNT", head));
      var p :- Entry(jntPoints, HeadIndex("JNT", head));
      var kin := sdk.forward(p);
      if kin.code != 0 {
        return Threw(EarlyReturn);
      }
      return Done(Target(p, kin.value));
    }

    method CartTarget(head: string, sdk: Sdk) returns (r: Outcome<Target>)
      requires Valid() && IsHead("CART", head)
      ensures r == InverseTarget(Coordinates(cartPoints), head, sdk)
    {
      LookupExact(Coordinates(cartPoints), HeadIndex("CART", head));
      var pose :- Entry(cartPoints, HeadIndex("CART", head));
      var kin := sdk.inverse(pose);
      if kin.code != 0 {
        return Threw(EarlyReturn);
      }
      return Done(Target(kin.value, pose));
    }

    /** The lookahead copy of the iterator skips the speed and reads tool and user. */
    method CartExtTarget(start: TokenIter, head: string, sdk: Sdk) returns (r: Outcome<Target>)
      requires Valid() && start.Valid() && |start.Rest()| > 0 && head == start.Rest()[0] && IsHead("CART", head)
      ensures r == InverseExtTarget(Coordinates(cartPoints), start.Rest(), sdk)
    {
      hide StoI, Split, IsHead, HeadIndex, Lookup;
      ghost var f := start.Rest();
      LookupExact(Coordinates(cartPoints), HeadIndex("CART", head));
      var pose :- Entry(cartPoints, HeadIndex("CART", head));
      start.At(f, 0);
      var iter := start.Next();
      iter.At(f, 1);
      if iter.kind.End? {
        return Undefined;
      }
      iter := iter.Next();
      var tool, user;
      tool, iter :- TakeInt(iter);
      user, iter :- TakeInt(iter);
      var kin := sdk.inverseExt(pose, sdk.feedback, tool, user);
      if kin.code != 0 {
        return Threw(EarlyReturn);
      }
      return Done(Target(kin.value, pose));
    }

    /** The head of a motion command: which list it names, and the kinematics for it. */
    method Resolve(kind: MotionKind, iter: TokenIter, sdk: Sdk) returns (r: Outcome<Target>)
      requires Valid() && iter.Valid() && |iter.Rest()| > 0
      ensures r == FindTarget(kind, jntPoints, Coordinates(cartPoints), iter.Rest(), sdk)
    {
      hide Split, IsHead, ForwardTarget, InverseTarget, InverseExtTarget;
      iter.NextRest();
      var head := iter.Str();
      if !kind.NewSplinePoint? && IsHead("JNT", head) {
        r := JointTarget(head, sdk);
      } else if kind.MoveJ? && IsHead("CART", head) {
        r := CartExtTarget(iter, head, sdk);
      } else if !kind.SplinePTP? && IsHead("CART", head) {
        r := CartTarget(head, sdk);
      } else {
        r := Threw(EarlyReturn);
      }
    }

    /** Speed, tool and user after the head. */
    method TakeFrame(start: TokenIter) returns (r: Outcome<Frame>, n: TokenIter)
      requires start.Valid() && |start.Rest()| > 0
      ensures n.Valid() && r == ReadFrame(start.Rest())
      ensures r.Done? ==> n.Rest() == start.Rest()[4..]
    {
      hide StoI, Split;
      ghost var f := start.Rest();
      start.NextRest();
      n := start.Next();
      var speed, tool, user;
      speed, n :- TakeInt(n);
      assert n.Rest() == f[2..];
      tool, n :- TakeInt(n);
      assert n.Rest() == f[3..];
      user, n :- TakeInt(n);
      return Done(Frame(speed, tool, user)), n;
    }

    /** Four external axes when anything is left, the defaults otherwise. */
    method TakeAxes(start: TokenIter, ghost f: seq<string>, sdk: Sdk) returns (r: Outcome<Axes>)
      requires start.Valid() && |f| >= 4 && start.Rest() == f[4..]
      ensures r == GivenAxes(f, sdk)
    {
      hide StoD, Split;
      var iter := start;
      if iter.kind.End? {
        return Done(sdk.defaults);
      }
      iter.NextRest();
      var a, b, c, d;
      a, iter :- TakeNum(iter);
      assert iter.Rest() == f[5..];
      b, iter :- TakeNum(iter);
      assert iter.Rest() == f[6..];
      c, iter :- TakeNum(iter);
      assert iter.Rest() == f[7..];
      d, iter :- TakeNum(iter);
      return Done([a, b, c, d]);
    }

    /** `MoveJ` reads the external axes of the request and then overwrites them with the
        feedback cells. */
    method MoveJ(params: string, sdk: Sdk) returns (out: Outcome<string>)
      requires Valid()
      modifies this`calls
      ensures var m := Motion(Commands.MoveJ, jntPoints, Coordinates(cartPoints), Split(params), sdk);
              out == MotionReply(m, sdk.code) && calls == old(calls) + Emitted(m)
    {
      hide Split, FindTarget, ReadFrame, GivenAxes, IntText;
      var iter := TokenIter.Begin(params);
      ghost var f := Split(params);
      var found := Resolve(Commands.MoveJ, iter, sdk);
      if found == Threw(EarlyReturn) {
        return Done("-1");
      }
      var t :- found;
      var n, axes;
      n, iter :- TakeFrame(iter);
      axes :- TakeAxes(iter, f, sdk);
      var p := sdk.tuning;
      var options := JointOptions(p.acc, p.ovl, p.blendT, p.offsetFlag % 256, p.offset);
      calls := calls + [SdkMoveJ(t.joint, t.pose, n.tool, n.user, n.speed, sdk.lateFeedback, options)];
      return Done(IntText(sdk.code));
    }

    method MoveL(params: string, sdk: Sdk) returns (out: Outcome<string>)
      requires Valid()
      modifies this`calls
      ensures var m := Motion(Commands.MoveL, jntPoints, Coordinates(cartPoints), Split(params), sdk);
              out == MotionReply(m, sdk.code) && calls == old(calls) + Emitted(m)
    {
      hide Split, FindTarget, ReadFrame, GivenAxes, IntText;
      var iter := TokenIter.Begin(params);
      ghost var f := Split(params);
      var found := Resolve(Commands.MoveL, iter, sdk);
      if found == Threw(EarlyReturn) {
        return Done("-1");
      }
      var t :- found;
      var n, axes;
      n, iter :- TakeFrame(iter);
      axes :- TakeAxes(iter, f, sdk);
      var p := sdk.tuning;
      var options := LineOptions(p.acc, p.ovl, p.blendR, p.search % 256, p.offsetFlag % 256, p.offset);
      calls := calls + [SdkMoveL(t.joint, t.pose, n.tool, n.user, n.speed, axes, options)];
      return Done(IntText(sdk.code));
    }

    method SplinePTP(params: string, sdk: Sdk) returns (out: Outcome<string>)
      requires Valid()
      modifies this`calls
      ensures var m := Motion(Commands.SplinePTP, jntPoints, Coordinates(cartPoints), Split(params), sdk);
              out == MotionReply(m, sdk.code) && calls == old(calls) + Emitted(m)
    {
      hide Split, FindTarget, ReadFrame, StoI, IntText;
      var iter := TokenIter.Begin(params);
      var found := Resolve(Commands.SplinePTP, iter, sdk);
      if found == Threw(EarlyReturn) {
        return Done("-1");
      }
      var t :- found;
      var n;
      n, iter :- TakeFrame(iter);
      var options := SplineOptions(sdk.tuning.splineAcc, sdk.tuning.splineOvl);
      calls := calls + [SdkSplinePTP(t.joint, t.pose, n.tool, n.user, n.speed, options)];
      return Done(IntText(sdk.code));
    }

    method NewSplinePoint(params: string, sdk: Sdk) returns (out: Outcome<string>)
      requires Valid()
      modifies this`calls
      ensures var m := Motion(Commands.NewSplinePoint, jntPoints, Coordinates(cartPoints), Split(params), sdk);
              out == MotionReply(m, sdk.code) && calls == old(calls) + Emitted(m)
    {
      hide Split, FindTarget, ReadFrame, StoI, IntText;
      var iter := TokenIter.Begin(params);
      ghost var f := Split(params);
      var found := Resolve(Commands.NewSplinePoint, iter, sdk);
      if found == Threw(EarlyReturn) {
        return Done("-1");
      }
      var t :- found;
      var n, last;
      n, iter :- TakeFrame(iter);
      assert iter.Rest() == f[4..];
      last, iter :- TakeInt(iter);
      var p := sdk.tuning;
      var options := SplinePointOptions(p.splineAcc, p.splineOvl, p.splineBlendR);
      calls := calls + [SdkNewSplinePoint(t.joint, t.pose, n.tool, n.user, n.speed, last % 256, options)];
      return Done(IntText(sdk.code));
    }

    /** The service callback: match, look up, call, and catch logic errors. */
    method ParseRosCommand(request: string, sdk: Sdk) returns (out: Outcome<string>)
      requires Valid()
      modifies this
      ensures Valid() && (Abstract(), out) == Respond(old(Abstract()), request, sdk)
    {
      hide Split, Motion, GetPoint, ParseCall, MotionReply, PointText, CoordsIn;
      var parsed := ParseCall(request);
      if parsed.None? {
        return Done("-1");
      }
      var (name, params) := parsed.value;
      if name == "JNTPoint" {
        var reply := DefJntPosition(params);
        out := Done(reply);
      } else if name == "CARTPoint" {
        var reply := DefCartPosition(params);
        ghost var d := ReadDefinition(params, |old(cartPoints)|);
        assert reply == "0" ==>
            Coordinates(cartPoints) == Put(Coordinates(old(cartPoints)), d.index, d.coords);
        out := Done(reply);
      } else if name == "GET" {
        out := GetVariable(params);
      } else if name == "MoveJ" {
        out := MoveJ(params, sdk);
      } else if name == "MoveL" {
        out := MoveL(params, sdk);
      } else if name == "SplinePTP" {
        out := SplinePTP(params, sdk);
      } else if name == "NewSplinePoint" {
        out := NewSplinePoint(params, sdk);
      } else if sdk.other.Some? {
        out := sdk.other.value;
      } else {
        return Done("-1");
      }
      if out.Threw? {
        out := Done("-1");
      }
    }
  }
}
