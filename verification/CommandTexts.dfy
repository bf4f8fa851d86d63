/** Whole requests as the operator writes them: what a definition text stores, and which
    motion call a request that names the point leads to, told by the texts alone. */
module CommandTexts {
  import opened Outcomes
  import opened CommaText
  import opened Numbers
  import opened NumberTexts
  import opened Envelope
  import opened Points
  import opened Commands
  import opened CommandHistory

  // ---- Point names ----

  /** `JNT7` and `CART7` name entry 7; without digits the index is 0. */
  lemma NameIndex(prefix: string, i: nat)
    requires i <= INT_MAX
    ensures IsHead(prefix, prefix + Dec(i)) && HeadIndex(prefix, prefix + Dec(i)) == i
    ensures IsHead(prefix, prefix) && HeadIndex(prefix, prefix) == 0
  {
    hide AtoLAsInt;
    assert (prefix + Dec(i))[|prefix|..] == Dec(i);
    assert prefix[|prefix|..] == "";
    IndexRead(i);
    AtoLOfDigits("");
  }

  /** A first field of another shape names no point: reply "-1" and no motion call. */
  lemma OtherNamesRefused(kind: MotionKind, s: State, f: seq<string>, sdk: Sdk)
    requires |f| > 0
    requires forall ds :: AllDigits(ds) ==> f[0] != "JNT" + ds && f[0] != "CART" + ds
    ensures var m := Motion(kind, s.jnt, s.cart, f, sdk);
            Emitted(m) == [] && MotionReply(m, sdk.code) == Done("-1")
  {
    hide IsHead;
    NoHead("JNT", f[0]);
    NoHead("CART", f[0]);
  }

  lemma NoHead(prefix: string, s: string)
    requires forall ds :: AllDigits(ds) ==> s != prefix + ds
    ensures !IsHead(prefix, s)
  {
    var ds := if |prefix| <= |s| then s[|prefix|..] else "";
    assert prefix <= s ==> s == prefix + ds;
  }

  // ---- Numbers in requests ----

  /** `text` spells the number `x`. */
  ghost predicate Says(text: string, x: Num) {
    exists d: Decimal :: d.Valid() && d.Text() == text && Spelled(d, x)
  }

  lemma SaysRead(text: string, x: Num)
    requires Says(text, x)
    ensures AtoF(text) == x && StoD(text) == Done(x)
  {
    hide AtoF, StoD, Spelled;
    var d: Decimal :| d.Valid() && d.Text() == text && Spelled(d, x);
    DecimalText(d);
    SpelledOnce(d, x, AtoF(text));
  }

  lemma SpelledOnce(d: Decimal, x: Num, y: Num)
    requires d.Valid() && Spelled(d, x) && Spelled(d, y)
    ensures x == y
  {
    hide Pow10, ToNat;
    var p, n := Pow10(|d.fraction|) as real, ToNat(d.whole + d.fraction) as real;
    assert x.mag * p == n;
    assert y.mag * p == n;
    Cancel(x.mag, y.mag, p, n);
  }

  lemma Cancel(a: real, b: real, p: real, n: real)
    requires p > 0.0 && a * p == n && b * p == n
    ensures a == b
  {
    assert a == a * p / p && b == b * p / p;
  }

  /** What `atof` takes from any text: the number it spells, or zero when it spells none. */
  ghost predicate Means(text: string, x: Num) {
    Says(text, x) || (x == ZERO && forall d: Decimal :: d.Valid() ==> d.Text() != text)
  }

  lemma AlwaysMeans(text: string)
    ensures Means(text, AtoF(text))
  {
    hide AtoF, StoD, Spelled;
    if d: Decimal :| d.Valid() && d.Text() == text {
      DecimalText(d);
    } else {
      NoDecimalText(text);
    }
  }

  lemma IntRead(i: int)
    requires INT_MIN <= i <= INT_MAX
    ensures StoI(IntText(i)) == Done(i)
  {
    hide ScanInt, IntText;
    ScanIntText(i);
  }

  lemma IntShape(i: int)
    ensures CommaFree(IntText(i)) && OneLine(IntText(i)) && IntText(i) != ""
  {
    hide Dec;
  }

  // ---- Requests ----

  function RequestText(name: string, fields: seq<string>): string {
    name + "(" + Join(fields) + ")"
  }

  lemma {:induction false} JoinOneLine(fields: seq<string>)
    requires forall i :: 0 <= i < |fields| ==> OneLine(fields[i])
    ensures OneLine(Join(fields))
  {
    if |fields| > 1 {
      JoinOneLine(fields[1..]);
    }
  }

  /** A request made of fields is parsed and split into exactly those. */
  lemma RequestRead(name: string, fields: seq<string>)
    requires IsName(name) && |fields| > 1
    requires forall i :: 0 <= i < |fields| ==> CommaFree(fields[i]) && OneLine(fields[i])
    requires fields[|fields| - 1] != ""
    ensures ParseCall(RequestText(name, fields)) == Some((name, Join(fields)))
    ensures Split(Join(fields)) == fields
  {
    hide ParseCall, Split, Join;
    JoinOneLine(fields);
    ParseCallExact(RequestText(name, fields), name, Join(fields));
    SplitOfJoin(fields);
  }

  // ---- Definitions ----

  /** The state with entry `i` of a list set to `p`, or appended. */
  function WithPoint(s: State, list: ListKind, i: nat, p: Point): State
    requires 1 <= i <= |ListOf(s, list)| + 1
  {
    var points := ListOf(s, list);
    var now := if i == |points| + 1 then points + [p] else points[i - 1 := p];
    if list.Jnt? then s.(jnt := now) else s.(cart := now)
  }

  function DefinitionText(list: ListKind, i: nat, coords: seq<string>): string {
    RequestText(if list.Jnt? then "JNTPoint" else "CARTPoint", [Dec(i)] + coords)
  }

  /** Six coordinate texts of a definition, and the numbers they spell. */
  ghost predicate CoordinateTexts(coords: seq<string>, p: Point) {
    |coords| == 6 && forall k :: 0 <= k < 6 ==>
      PointText(coords[k]) && CommaFree(coords[k]) && Says(coords[k], p[k])
  }

  lemma SaysSomething(text: string, x: Num)
    requires Says(text, x)
    ensures text != ""
  {
    var d: Decimal :| d.Valid() && d.Text() == text && Spelled(d, x);
    assert d.whole != "" ==> |d.Text()| >= |d.whole|;
  }

  lemma PointTextOneLine(s: string)
    requires PointText(s)
    ensures OneLine(s)
  {
  }

  /** A definition written with six numbers stores exactly those numbers under its index, and
      nothing else changes. */
  lemma StoresWhatIsWritten(s: State, list: ListKind, i: nat, coords: seq<string>, p: Point, sdk: Sdk)
    requires 1 <= i <= |ListOf(s, list)| + 1 && i <= INT_MAX && CoordinateTexts(coords, p)
    ensures Respond(s, DefinitionText(list, i, coords), sdk) == (WithPoint(s, list, i, p), Done("0"))
  {
    hide Dec, ParseCall, Split, AtoF, AtoLAsInt, Says, PointText, Join;
    var name, f := if list.Jnt? then "JNTPoint" else "CARTPoint", [Dec(i)] + coords;
    DecPointText(i);
    forall k | 0 <= k < 7
      ensures PointText(f[k]) && CommaFree(f[k]) && OneLine(f[k])
    {
      PointTextOneLine(f[k]);
    }
    SaysSomething(coords[5], p[5]);
    RequestRead(name, f);
    JoinPointText(f);
    IndexRead(i);
    CoordinatesRead(coords, p);
    assert CoordsIn(f, 1) == p;
  }

  /** The same for every text the server accepts: each stored coordinate is the number its
      field spells, and zero for a field that spells none. */
  lemma AcceptedStoresNumbers(s: State, list: ListKind, text: string, sdk: Sdk)
    requires ReadDefinition(text, |ListOf(s, list)|).Accepted?
    ensures var d, f := ReadDefinition(text, |ListOf(s, list)|), Split(text);
            && |f| == 7 && (forall k :: 0 <= k < 6 ==> Means(f[k + 1], d.coords[k]))
            && 1 <= d.index <= |ListOf(s, list)| + 1
            && Call(s, DefinitionName(list), text, sdk) == (WithPoint(s, list, d.index, d.coords), Done("0"))
  {
    hide Split, AtoF, AtoLAsInt, PointText, Means;
    var f := Split(text);
    forall k | 1 <= k < 7 ensures Means(f[k], AtoF(f[k])) {
      AlwaysMeans(f[k]);
    }
    FieldsInOrder(f);
  }

  lemma FieldsInOrder(f: seq<string>)
    requires |f| == 7
    ensures forall k :: 0 <= k < 6 ==> CoordsIn(f, 1)[k] == AtoF(f[k + 1])
  {
    hide AtoF;
  }

  lemma DecPointText(i: nat)
    ensures PointText(Dec(i)) && CommaFree(Dec(i)) && OneLine(Dec(i))
  {
  }

  lemma CoordinatesRead(coords: seq<string>, p: Point)
    requires CoordinateTexts(coords, p)
    ensures forall k :: 0 <= k < 6 ==> AtoF(coords[k]) == p[k]
  {
    hide AtoF, Says, PointText;
    forall k | 0 <= k < 6 ensures AtoF(coords[k]) == p[k] {
      SaysRead(coords[k], p[k]);
    }
  }

  // ---- Motion by name ----

  function MotionName(kind: MotionKind): string {
    match kind
    case MoveJ => "MoveJ"
    case MoveL => "MoveL"
    case SplinePTP => "SplinePTP"
    case NewSplinePoint => "NewSplinePoint"
  }

  /** What a request says: the point, speed, tool and user, external axes if it gives any, and
      the last-point flag of `NewSplinePoint`. */
  datatype Order = Order(
    kind: MotionKind,
    list: ListKind,
    index: nat,
    speed: int,
    tool: int,
    user: int,
    axisTexts: seq<string>,
    lastFlag: int)

  function OrderFields(o: Order): seq<string> {
    [(if o.list.Jnt? then "JNT" else "CART") + Dec(o.index), IntText(o.speed), IntText(o.tool), IntText(o.user)] +
    (if o.kind.NewSplinePoint? then [IntText(o.lastFlag)] else o.axisTexts)
  }

  function OrderText(o: Order): string {
    RequestText(MotionName(o.kind), OrderFields(o))
  }

  predicate IsInt(i: int) {
    -0x8000_0000 <= i <= 0x7fff_ffff
  }

  /** `SplinePTP` takes joint points and `NewSplinePoint` Cartesian ones; only `MoveJ` and
      `MoveL` take external axes, none or four. */
  ghost predicate WellMade(o: Order, ext: Axes, sdk: Sdk) {
    && IsInt(o.speed) && IsInt(o.tool) && IsInt(o.user) && IsInt(o.lastFlag)
    && (o.kind.SplinePTP? ==> o.list.Jnt?) && (o.kind.NewSplinePoint? ==> o.list.Cart?)
    && (if o.axisTexts == [] then ext == sdk.defaults
        else
          && (o.kind.MoveJ? || o.kind.MoveL?) && |o.axisTexts| == 4
          && forall k :: 0 <= k < 4 ==>
               CommaFree(o.axisTexts[k]) && OneLine(o.axisTexts[k]) && Says(o.axisTexts[k], ext[k]))
  }

  predicate Solvable(o: Order, p: Point, sdk: Sdk) {
    if o.list.Jnt? then sdk.forward(p).code == 0
    else if o.kind.MoveJ? then sdk.inverseExt(PoseOf(p), sdk.feedback, o.tool, o.user).code == 0
    else sdk.inverse(PoseOf(p)).code == 0
  }

  /** The SDK call that order `o` asks for when its point is `p`. */
  function OrderedCall(o: Order, p: Point, ext: Axes, sdk: Sdk): SdkCall {
    var t := sdk.tuning;
    var joint :=
      if o.list.Jnt? then p
      else if o.kind.MoveJ? then sdk.inverseExt(PoseOf(p), sdk.feedback, o.tool, o.user).value
      else sdk.inverse(PoseOf(p)).value;
    var pose := if o.list.Jnt? then sdk.forward(p).value else PoseOf(p);
    match o.kind
    case MoveJ =>
      SdkMoveJ(joint, pose, o.tool, o.user, o.speed, sdk.lateFeedback,
               JointOptions(t.acc, t.ovl, t.blendT, t.offsetFlag % 256, t.offset))
    case MoveL =>
      SdkMoveL(joint, pose, o.tool, o.user, o.speed, ext,
               LineOptions(t.acc, t.ovl, t.blendR, t.search % 256, t.offsetFlag % 256, t.offset))
    case SplinePTP =>
      SdkSplinePTP(joint, pose, o.tool, o.user, o.speed, SplineOptions(t.splineAcc, t.splineOvl))
    case NewSplinePoint =>
      SdkNewSplinePoint(joint, pose, o.tool, o.user, o.speed, o.lastFlag % 256,
                        SplinePointOptions(t.splineAcc, t.splineOvl, t.splineBlendR))
  }

  lemma OrderShape(o: Order, ext: Axes, sdk: Sdk)
    requires WellMade(o, ext, sdk)
    ensures var f := OrderFields(o);
            && (forall k :: 0 <= k < |f| ==> CommaFree(f[k]) && OneLine(f[k])) && f[|f| - 1] != ""
  {
    hide IntText, Dec, Says;
    IntShape(o.speed);
    IntShape(o.tool);
    IntShape(o.user);
    IntShape(o.lastFlag);
    DecPointText(o.index);
    if o.axisTexts != [] {
      SaysSomething(o.axisTexts[3], ext[3]);
    }
  }

  lemma NumbersRead(o: Order, ext: Axes, sdk: Sdk)
    requires WellMade(o, ext, sdk)
    ensures var f := OrderFields(o);
            && IntAt(f, 1) == Done(o.speed) && IntAt(f, 2) == Done(o.tool) && IntAt(f, 3) == Done(o.user)
            && (o.kind.NewSplinePoint? ==> IntAt(f, 4) == Done(o.lastFlag))
            && (o.kind.MoveJ? || o.kind.MoveL? ==> GivenAxes(f, sdk) == Done(ext))
  {
    hide IntText, Dec, Says, StoI, StoD;
    IntRead(o.speed);
    IntRead(o.tool);
    IntRead(o.user);
    IntRead(o.lastFlag);
    if o.axisTexts != [] {
      forall k | 0 <= k < 4 ensures StoD(o.axisTexts[k]) == Done(ext[k]) {
        SaysRead(o.axisTexts[k], ext[k]);
      }
      assert ext == [ext[0], ext[1], ext[2], ext[3]];
    }
  }

  lemma TargetFound(o: Order, s: State, ext: Axes, sdk: Sdk)
    requires WellMade(o, ext, sdk) && |s.jnt| <= INT_MAX && |s.cart| <= INT_MAX
    requires 1 <= o.index <= |ListOf(s, o.list)| && Solvable(o, ListOf(s, o.list)[o.index - 1], sdk)
    ensures var c := OrderedCall(o, ListOf(s, o.list)[o.index - 1], ext, sdk);
            FindTarget(o.kind, s.jnt, s.cart, OrderFields(o), sdk) == Done(Target(c.joint, c.pose))
  {
    hide IntText, Dec, Says, StoI, IsHead, HeadIndex, Lookup, GivenAxes;
    var prefix := if o.list.Jnt? then "JNT" else "CART";
    NameIndex(prefix, o.index);
    HeadsDiffer(prefix + Dec(o.index));
    LookupExact(ListOf(s, o.list), o.index);
    NumbersRead(o, ext, sdk);
  }

  /** An order for an entry that exists, with working kinematics, issues exactly the call it
      asks for, with the value of that entry, and replies the code of the SDK. */
  lemma MovesWhereNamed(o: Order, s: State, ext: Axes, sdk: Sdk)
    requires WellMade(o, ext, sdk) && |s.jnt| <= INT_MAX && |s.cart| <= INT_MAX
    requires 1 <= o.index <= |ListOf(s, o.list)| && Solvable(o, ListOf(s, o.list)[o.index - 1], sdk)
    ensures var p := ListOf(s, o.list)[o.index - 1];
            Respond(s, OrderText(o), sdk) ==
            (s.(calls := s.calls + [OrderedCall(o, p, ext, sdk)]), Done(IntText(sdk.code)))
  {
    hide Split, Join, ParseCall, IntText, OrderFields, WellMade, Motion, OrderedCall, RequestText;
    OrderShape(o, ext, sdk);
    FieldCount(o);
    RequestRead(MotionName(o.kind), OrderFields(o));
    MotionOrdered(o, s, ext, sdk);
    hide KindOf;
  }

  lemma MotionOrdered(o: Order, s: State, ext: Axes, sdk: Sdk)
    requires WellMade(o, ext, sdk) && |s.jnt| <= INT_MAX && |s.cart| <= INT_MAX
    requires 1 <= o.index <= |ListOf(s, o.list)| && Solvable(o, ListOf(s, o.list)[o.index - 1], sdk)
    ensures |OrderFields(o)| > 0
    ensures Motion(o.kind, s.jnt, s.cart, OrderFields(o), sdk) ==
            Done(OrderedCall(o, ListOf(s, o.list)[o.index - 1], ext, sdk))
  {
    hide OrderFields, WellMade, FindTarget, GivenAxes;
    FieldCount(o);
    TargetFound(o, s, ext, sdk);
    NumbersRead(o, ext, sdk);
  }

  lemma FieldCount(o: Order)
    ensures |OrderFields(o)| >= 4 && IsName(MotionName(o.kind))
    ensures KindOf(MotionName(o.kind)) == Some(o.kind)
  {
  }

  /** Teaching and moving, in any run: a definition written with six numbers, then an order
      that names its index, moves to exactly those numbers. */
  lemma MovesWhereTaught(log: seq<Request>, coords: seq<string>, p: Point, o: Order, ext: Axes, sdk: Sdk)
    requires Run(log).Some? && CoordinateTexts(coords, p) && o.index <= INT_MAX
    requires 1 <= o.index <= |ListOf(Run(log).value, o.list)| + 1
    requires WellMade(o, ext, sdk) && Solvable(o, p, sdk)
    ensures var s := WithPoint(Run(log).value, o.list, o.index, p);
            Run(log + [Request(DefinitionText(o.list, o.index, coords), sdk)] + [Request(OrderText(o), sdk)]) ==
            Some(s.(calls := s.calls + [OrderedCall(o, p, ext, sdk)]))
  {
    hide Respond, DefinitionText, OrderText, CoordinateTexts, WellMade, Solvable, OrderedCall;
    var before := Run(log).value;
    var taught := log + [Request(DefinitionText(o.list, o.index, coords), sdk)];
    RunBounded(log, Jnt);
    RunBounded(log, Cart);
    StoresWhatIsWritten(before, o.list, o.index, coords, p, sdk);
    assert taught[..|log|] == log;
    var s := WithPoint(before, o.list, o.index, p);
    assert Run(taught) == Some(s);
    MovesWhereNamed(o, s, ext, sdk);
    assert (taught + [Request(OrderText(o), sdk)])[..|taught|] == taught;
  }
}
