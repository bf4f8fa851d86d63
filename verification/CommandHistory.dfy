/** Whole runs of the command server: what the lists hold and where motion targets come
    from, stated on the history of requests and replies alone. */
module CommandHistory {
  import opened Outcomes
  import opened CommaText
  import opened Numbers
  import opened Envelope
  import opened Points
  import opened Commands

  datatype Request = Request(text: string, sdk: Sdk)

  /** State after a history; None once a request had no defined outcome. */
  ghost function Run(log: seq<Request>): Option<State> {
    if |log| == 0 then Some(INITIAL)
    else
      var last := log[|log| - 1];
      match Run(log[..|log| - 1])
      case None => None
      case Some(s) =>
        var (t, out) := Respond(s, last.text, last.sdk);
        if out.Undefined? then None else Some(t)
  }

  ghost function ReplyTo(log: seq<Request>, j: nat): Outcome<string>
    requires j < |log|
  {
    match Run(log[..j])
    case None => Undefined
    case Some(s) => Respond(s, log[j].text, log[j].sdk).1
  }

  datatype ListKind = Jnt | Cart

  function DefinitionName(kind: ListKind): string {
    if kind.Jnt? then "JNTPoint" else "CARTPoint"
  }

  function ListOf(s: State, kind: ListKind): seq<Point> {
    if kind.Jnt? then s.jnt else s.cart
  }

  /** Request `j` as a definition: index and values of its text, if it was answered "0". */
  ghost function DefinitionAt(log: seq<Request>, j: nat, kind: ListKind): Option<(int, Point)>
    requires j < |log|
  {
    match ParseCall(log[j].text)
    case None => None
    case Some((name, params)) =>
      var f := Split(params);
      if name == DefinitionName(kind) && ReplyTo(log, j) == Done("0") && |f| == 7
      then Some((AtoLAsInt(f[0]), CoordsIn(f, 1)))
      else None
  }

  ghost predicate Redefines(log: seq<Request>, j: nat, kind: ListKind, i: int)
    requires j < |log|
  {
    DefinitionAt(log, j, kind).Some? && DefinitionAt(log, j, kind).value.0 == i
  }

  /** `p` is what the most recent accepted definition of index `i` said. */
  ghost predicate Latest(log: seq<Request>, kind: ListKind, i: int, p: Point) {
    exists j: nat ::
      && j < |log|
      && DefinitionAt(log, j, kind) == Some((i, p))
      && forall m :: j < m < |log| ==> !Redefines(log, m, kind, i)
  }

  // ---- One step ----

  /** The last request of a run, as a call on the state before it. */
  lemma RunStep(log: seq<Request>)
    requires |log| > 0 && Run(log).Some?
    ensures Run(log[..|log| - 1]).Some?
    ensures var s, last := Run(log[..|log| - 1]).value, log[|log| - 1];
            match ParseCall(last.text)
            case None => Run(log).value == s && ReplyTo(log, |log| - 1) == Done("-1")
            case Some((name, params)) =>
              && Run(log).value == Call(s, name, params, last.sdk).0
              && ReplyTo(log, |log| - 1) == Caught(Call(s, name, params, last.sdk).1)
  {
    hide ParseCall, Call;
  }

  /** A request changes a list only if it is answered "0", and then only at its own index,
      which is at most one past the end. */
  lemma ListStep(log: seq<Request>, kind: ListKind)
    requires |log| > 0 && Run(log).Some?
    ensures Run(log[..|log| - 1]).Some?
    ensures var before, after := ListOf(Run(log[..|log| - 1]).value, kind), ListOf(Run(log).value, kind);
            match DefinitionAt(log, |log| - 1, kind)
            case None => after == before
            case Some((i, p)) => 1 <= i <= |before| + 1 && after == Put(before, i, p)
  {
    hide Split, ParseCall, PointText, CoordsIn, AtoLAsInt, Motion, GetPoint, Reply, Run, ReplyTo;
    RunStep(log);
  }

  /** Earlier definitions are unaffected by later requests. */
  lemma DefinitionPrefix(log: seq<Request>, j: nat, kind: ListKind)
    requires j + 1 < |log|
    ensures DefinitionAt(log, j, kind) == DefinitionAt(log[..|log| - 1], j, kind)
  {
    hide Split, ParseCall, Respond;
    assert log[..|log| - 1][..j] == log[..j];
  }

  lemma LatestStep(log: seq<Request>, kind: ListKind, i: int, p: Point)
    requires |log| > 0 && Latest(log[..|log| - 1], kind, i, p) && !Redefines(log, |log| - 1, kind, i)
    ensures Latest(log, kind, i, p)
  {
    hide DefinitionAt;
    var earlier := log[..|log| - 1];
    var j: nat :| j < |earlier| && DefinitionAt(earlier, j, kind) == Some((i, p))
                  && forall m :: j < m < |earlier| ==> !Redefines(earlier, m, kind, i);
    DefinitionPrefix(log, j, kind);
    forall m | j < m < |log|
      ensures !Redefines(log, m, kind, i)
    {
      if m + 1 < |log| {
        DefinitionPrefix(log, m, kind);
        assert !Redefines(earlier, m, kind, i);
      }
    }
  }

  // ---- Store refinement ----

  lemma {:induction false} StoreStep(log: seq<Request>, kind: ListKind, i: int)
    requires Run(log).Some?
    ensures var list := ListOf(Run(log).value, kind);
            if 1 <= i <= |list| then Latest(log, kind, i, list[i - 1])
            else forall j :: 0 <= j < |log| ==> !Redefines(log, j, kind, i)
  {
    hide DefinitionAt, Respond;
    if |log| > 0 {
      var n := |log| - 1;
      var list := ListOf(Run(log).value, kind);
      ListStep(log, kind);
      StoreStep(log[..n], kind, i);
      forall j | 0 <= j < n ensures Redefines(log, j, kind, i) == Redefines(log[..n], j, kind, i) {
        DefinitionPrefix(log, j, kind);
      }
      if !Redefines(log, n, kind, i) {
        if 1 <= i <= |list| {
          LatestStep(log, kind, i, list[i - 1]);
        }
      } else {
        assert DefinitionAt(log, n, kind) == Some((i, list[i - 1]));
      }
    }
  }

  lemma LatestUnique(log: seq<Request>, kind: ListKind, i: int, p: Point, q: Point)
    requires Latest(log, kind, i, p) && Latest(log, kind, i, q)
    ensures p == q
  {
    hide DefinitionAt;
    var j: nat :| j < |log| && DefinitionAt(log, j, kind) == Some((i, p))
                  && forall m :: j < m < |log| ==> !Redefines(log, m, kind, i);
    var k: nat :| k < |log| && DefinitionAt(log, k, kind) == Some((i, q))
                  && forall m :: k < m < |log| ==> !Redefines(log, m, kind, i);
    assert Redefines(log, j, kind, i) && Redefines(log, k, kind, i);
  }

  /** After any history the list of each kind is the map from indices to the values of their
      most recent accepted definition; its domain is exactly 1..n. */
  lemma StoreRefinesMap(log: seq<Request>, kind: ListKind, i: int, p: Point)
    requires Run(log).Some?
    ensures var list := ListOf(Run(log).value, kind);
            (1 <= i <= |list| && list[i - 1] == p) <==> Latest(log, kind, i, p)
  {
    hide DefinitionAt, Run;
    StoreStep(log, kind, i);
    var list := ListOf(Run(log).value, kind);
    if Latest(log, kind, i, p) {
      assert exists j :: 0 <= j < |log| && Redefines(log, j, kind, i) by {
        var j: nat :| j < |log| && DefinitionAt(log, j, kind) == Some((i, p));
        assert Redefines(log, j, kind, i);
      }
      LatestUnique(log, kind, i, p, list[i - 1]);
    }
  }

  // ---- Motion provenance ----

  /** The fields a motion call must carry: the list entry its first field names, the
      kinematic solution for that same entry, and the numbers of the request. */
  ghost predicate Justified(log: seq<Request>, k: nat, call: SdkCall)
    requires k < |log|
  {
    match ParseCall(log[k].text)
    case None => false
    case Some((name, params)) =>
      var f, sdk := Split(params), log[k].sdk;
      && |f| >= 4
      && StoI(f[1]) == Done(call.speed) && StoI(f[2]) == Done(call.tool) && StoI(f[3]) == Done(call.user)
      && KindOf(name) == Some(match call
                              case SdkMoveJ(_, _, _, _, _, _, _) => MoveJ
                              case SdkMoveL(_, _, _, _, _, _, _) => MoveL
                              case SdkSplinePTP(_, _, _, _, _, _) => SplinePTP
                              case SdkNewSplinePoint(_, _, _, _, _, _, _) => NewSplinePoint)
      && call.options == OptionsFor(KindOf(name).value, sdk.tuning)
      && (if IsHead("JNT", f[0]) then
            && !call.SdkNewSplinePoint?
            && Latest(log[..k], Jnt, HeadIndex("JNT", f[0]), call.joint)
            && sdk.forward(call.joint) == Kin(0, call.pose)
          else
            && IsHead("CART", f[0]) && !call.SdkSplinePTP?
            && Latest(log[..k], Cart, HeadIndex("CART", f[0]), call.pose.Coords())
            && (if call.SdkMoveJ? then sdk.inverseExt(call.pose, sdk.feedback, call.tool, call.user)
                else sdk.inverse(call.pose)) == Kin(0, call.joint))
      && (call.SdkMoveJ? ==> call.ext == sdk.lateFeedback)
      && (call.SdkMoveL? ==> GivenAxes(f, sdk) == Done(call.ext))
      && (call.SdkNewSplinePoint? ==> IntAt(f, 4).Done? && call.lastFlag == IntAt(f, 4).value % 256)
  }

  ghost function CallsOf(log: seq<Request>): seq<SdkCall>
    requires Run(log).Some?
  {
    Run(log).value.calls
  }

  /** A motion call reaches the SDK exactly when the named entry exists, its kinematics
      succeed and the numeric fields are readable. */
  lemma MotionFires(kind: MotionKind, s: State, f: seq<string>, sdk: Sdk)
    requires |f| > 0 && |s.jnt| <= INT_MAX && |s.cart| <= INT_MAX
    ensures Motion(kind, s.jnt, s.cart, f, sdk).Done? <==>
            && ReadFrame(f).Done?
            && (kind.MoveJ? || kind.MoveL? ==> GivenAxes(f, sdk).Done?)
            && (kind.NewSplinePoint? ==> IntAt(f, 4).Done?)
            && (if !kind.NewSplinePoint? && IsHead("JNT", f[0]) then
                  var i := HeadIndex("JNT", f[0]);
                  1 <= i <= |s.jnt| && sdk.forward(s.jnt[i - 1]).code == 0
                else
                  && !kind.SplinePTP? && IsHead("CART", f[0])
                  && var i := HeadIndex("CART", f[0]);
                  && 1 <= i <= |s.cart|
                  && var pose, n := PoseOf(s.cart[i - 1]), ReadFrame(f).value;
                  && (if kind.MoveJ? then sdk.inverseExt(pose, sdk.feedback, n.tool, n.user)
                      else sdk.inverse(pose)).code == 0)
  {
    hide StoI, StoD, IsHead, Lookup, HeadIndex;
    if IsHead("JNT", f[0]) {
      LookupExact(s.jnt, HeadIndex("JNT", f[0]));
    }
    if IsHead("CART", f[0]) {
      LookupExact(s.cart, HeadIndex("CART", f[0]));
    }
  }

  /** Index 0, missing digits or an index outside the list: reply "-1", no motion call. */
  lemma UnnamedPointRefused(kind: MotionKind, s: State, params: string, sdk: Sdk, prefix: string)
    requires |s.jnt| <= INT_MAX && |s.cart| <= INT_MAX
    requires prefix == (if kind.NewSplinePoint? then "CART" else "JNT") || (prefix == "CART" && !kind.SplinePTP?)
    requires IsHead(prefix, Split(params)[0])
    requires !(1 <= HeadIndex(prefix, Split(params)[0]) <= if prefix == "JNT" then |s.jnt| else |s.cart|)
    ensures var m := Motion(kind, s.jnt, s.cart, Split(params), sdk);
            Emitted(m) == [] && Caught(MotionReply(m, sdk.code)) == Done("-1")
  {
    var head := Split(params)[0];
    hide Split, HeadIndex, Lookup;
    assert prefix == "JNT" ==> head[0] == 'J';
    assert prefix == "CART" ==> head[0] == 'C';
    LookupExact(if prefix == "JNT" then s.jnt else s.cart, HeadIndex(prefix, head));
  }

  lemma RunBounded(log: seq<Request>, kind: ListKind)
    requires Run(log).Some?
    ensures |ListOf(Run(log).value, kind)| <= INT_MAX
  {
    hide DefinitionAt, Respond;
    if |log| > 0 {
      ListStep(log, kind);
      RunBounded(log[..|log| - 1], kind);
      IndexBounded(log, |log| - 1, kind);
    }
  }

  lemma IndexBounded(log: seq<Request>, j: nat, kind: ListKind)
    requires j < |log|
    ensures DefinitionAt(log, j, kind).Some? ==> DefinitionAt(log, j, kind).value.0 <= INT_MAX
  {
    hide Split, ParseCall, Respond, Run;
  }

  lemma CallStep(log: seq<Request>)
    requires |log| > 0 && Run(log).Some?
    ensures Run(log[..|log| - 1]).Some?
    ensures var before, after := CallsOf(log[..|log| - 1]), CallsOf(log);
            after == before || (exists c :: after == before + [c] && Justified(log, |log| - 1, c))
  {
    hide Split, ParseCall, ReadDefinition, Motion, GetPoint, Reply, Justified, Run, ReplyTo;
    RunStep(log);
    var n := |log| - 1;
    var s := Run(log[..n]).value;
    if ParseCall(log[n].text).Some? {
      var (name, params) := ParseCall(log[n].text).value;
      if KindOf(name).Some? {
        var m := Motion(KindOf(name).value, s.jnt, s.cart, Split(params), log[n].sdk);
        if m.Done? {
          MotionJustified(log, name, params, m.value);
        }
      }
    }
  }

  lemma MotionJustified(log: seq<Request>, name: string, params: string, call: SdkCall)
    requires |log| > 0 && Run(log[..|log| - 1]).Some?
    requires ParseCall(log[|log| - 1].text) == Some((name, params)) && KindOf(name).Some?
    requires var s := Run(log[..|log| - 1]).value;
             Motion(KindOf(name).value, s.jnt, s.cart, Split(params), log[|log| - 1].sdk) == Done(call)
    ensures Justified(log, |log| - 1, call)
  {
    hide Split, ParseCall, StoI, StoD, IsHead, HeadIndex, Lookup, Latest, Run, GivenAxes;
    var n := |log| - 1;
    var s, f := Run(log[..n]).value, Split(params);
    RunBounded(log[..n], Jnt);
    RunBounded(log[..n], Cart);
    if IsHead("JNT", f[0]) && !KindOf(name).value.NewSplinePoint? {
      var i := HeadIndex("JNT", f[0]);
      LookupExact(s.jnt, i);
      StoreRefinesMap(log[..n], Jnt, i, s.jnt[i - 1]);
    } else {
      HeadsDiffer(f[0]);
      var i := HeadIndex("CART", f[0]);
      LookupExact(s.cart, i);
      StoreRefinesMap(log[..n], Cart, i, s.cart[i - 1]);
    }
  }

  lemma HeadsDiffer(head: string)
    ensures !(IsHead("JNT", head) && IsHead("CART", head))
  {
    if IsHead("JNT", head) {
      assert head[0] == "JNT"[0];
    }
    if IsHead("CART", head) {
      assert head[0] == "CART"[0];
    }
  }

  /** `at[n]` is the request behind the n-th call. */
  ghost predicate Provenance(log: seq<Request>, calls: seq<SdkCall>, at: seq<nat>) {
    && |at| == |calls|
    && (forall n :: 0 <= n < |at| ==> at[n] < |log| && Justified(log, at[n], calls[n]))
    && (forall m, n :: 0 <= m < n < |at| ==> at[m] < at[n])
  }

  /** The motion calls of a run come, in order, from distinct requests, each naming a list
      entry and carrying the value most recently stored under that name before the request. */
  lemma {:induction false} MotionProvenance(log: seq<Request>)
    requires Run(log).Some?
    ensures exists at: seq<nat> :: Provenance(log, CallsOf(log), at)
  {
    hide Justified, Respond;
    if log == [] {
      assert CallsOf(log) == [];
      assert Provenance(log, CallsOf(log), []);
    } else {
      CallStep(log);
      var earlier := log[..|log| - 1];
      MotionProvenance(earlier);
      var calls := CallsOf(earlier);
      var at: seq<nat> :| Provenance(earlier, calls, at);
      forall n | 0 <= n < |at| ensures Justified(log, at[n], calls[n]) {
        JustifiedPrefix(log, at[n], calls[n]);
      }
      if CallsOf(log) == calls {
        assert Provenance(log, calls, at);
      } else {
        assert Provenance(log, CallsOf(log), at + [|earlier|]);
      }
    }
  }

  lemma JustifiedPrefix(log: seq<Request>, k: nat, call: SdkCall)
    requires k + 1 < |log|
    ensures Justified(log, k, call) == Justified(log[..|log| - 1], k, call)
  {
    hide Split, ParseCall, Latest, GivenAxes, StoI, IsHead, HeadIndex;
    assert log[..|log| - 1][..k] == log[..k];
  }

  // ---- GET and the definition commands undo each other ----

  function GetText(kind: ListKind, i: nat): string {
    (if kind.Jnt? then "JNT" else "CART") + "," + Dec(i)
  }

  lemma GetReplies(s: State, kind: ListKind, i: nat, sdk: Sdk)
    requires 1 <= i <= |ListOf(s, kind)| && i <= INT_MAX
    ensures Call(s, "GET", GetText(kind, i), sdk) == (s, Done(Reply(ListOf(s, kind)[i - 1])))
  {
    hide Dec, Reply, AtoLAsInt, ParseGet;
    Points.GetText(if kind.Jnt? then "JNT" else "CART", Dec(i));
    IndexRead(i);
  }

  /** Sending the reply of `GET` back under the same index is accepted, and leaves the whole
      state unchanged exactly when the point has at most six decimals; it rounds the point
      to six decimals otherwise, and `GET` replies the same afterwards in every case. */
  lemma GetDefineRoundTrip(s: State, kind: ListKind, i: nat, sdk: Sdk)
    requires 1 <= i <= |ListOf(s, kind)| <= INT_MAX
    ensures var p := ListOf(s, kind)[i - 1];
            var (same, reply) := Call(s, "GET", GetText(kind, i), sdk);
            same == s && reply.Done? &&
            var (t, out) := Call(s, DefinitionName(kind), Dec(i) + "," + reply.value, sdk);
            && out == Done("0")
            && (t == s <==> PointMicroExact(p))
            && ListOf(t, kind) == ListOf(s, kind)[i - 1 := Rounded(p)]
            && Call(t, "GET", GetText(kind, i), sdk).1 == reply
  {
    hide Dec, Reply, ReadDefinition, Rounded, PointMicroExact, GetText, GetPoint, Motion;
    var list := ListOf(s, kind);
    var p := list[i - 1];
    GetReplies(s, kind, i, sdk);
    ReplyDefines(p, i, |list|);
    RoundedFacts(p);
    var d := ReadDefinition(Dec(i) + "," + Reply(p), |list|);
    GetThenDefine(list, i, d);
    var t := Call(s, DefinitionName(kind), Dec(i) + "," + Reply(p), sdk).0;
    assert ListOf(t, kind) == Put(list, i, Rounded(p)) == list[i - 1 := Rounded(p)];
    GetReplies(t, kind, i, sdk);
  }

  /** The same for the texts the server receives: after an accepted definition, `GET` and the
      definition of its reply restore the state exactly when none of the six coordinate texts
      has a nonzero digit past the sixth decimal. */
  lemma DefinedTextRoundTrip(s: State, kind: ListKind, text: string, sdk: Sdk)
    requires |ListOf(s, kind)| <= INT_MAX && ReadDefinition(text, |ListOf(s, kind)|).Accepted?
    ensures var i := ReadDefinition(text, |ListOf(s, kind)|).index;
            var (t, _) := Call(s, DefinitionName(kind), text, sdk);
            var reply := Call(t, "GET", GetText(kind, i), sdk).1;
            && |Split(text)| == 7 && reply.Done?
            && (Call(t, DefinitionName(kind), Dec(i) + "," + reply.value, sdk).0 == t <==>
                forall k :: 1 <= k < 7 ==> SixDecimals(Split(text)[k]))
  {
    hide Dec, Reply, PointMicroExact, GetText, GetPoint, Motion, Split;
    hide AtoLAsInt, AtoF, MicroExact, SixDecimals, PointText;
    var d := ReadDefinition(text, |ListOf(s, kind)|);
    var t := Call(s, DefinitionName(kind), text, sdk).0;
    assert ListOf(t, kind) == Put(ListOf(s, kind), d.index, d.coords);
    GetReplies(t, kind, d.index, sdk);
    GetDefineRoundTrip(t, kind, d.index, sdk);
    CoordsMicroExact(Split(text));
  }

  const TINY_FIELDS: seq<string> := ["1", "0.0000001", "0", "0", "0", "0", "0"]

  /** 1,0.0000001,0,0,0,0,0 */
  const TINY: string := Join(TINY_FIELDS)

  /** The failing side exists: 0.0000001 is a coordinate the server accepts, and the pair of
      commands does not bring it back. */
  lemma TinyCoordinateLost(sdk: Sdk)
    ensures var (s, _) := Respond(INITIAL, "JNTPoint(" + TINY + ")", sdk);
            var reply := Call(s, "GET", GetText(Jnt, 1), sdk).1;
            && |s.jnt| == 1 && reply.Done?
            && Call(s, "JNTPoint", Dec(1) + "," + reply.value, sdk).0 != s
  {
    TinyAccepted();
    TinyParses();
    LostAfter(TINY, sdk);
  }

  lemma LostAfter(text: string, sdk: Sdk)
    requires ParseCall("JNTPoint(" + text + ")") == Some(("JNTPoint", text))
    requires |Split(text)| == 7 && !SixDecimals(Split(text)[1])
    requires ReadDefinition(text, 0).Accepted? && ReadDefinition(text, 0).index == 1
    ensures var (s, _) := Respond(INITIAL, "JNTPoint(" + text + ")", sdk);
            var reply := Call(s, "GET", GetText(Jnt, 1), sdk).1;
            && |s.jnt| == 1 && reply.Done?
            && Call(s, "JNTPoint", Dec(1) + "," + reply.value, sdk).0 != s
  {
    hide ParseCall, Split, SixDecimals, Dec, GetText, ReadDefinition, Reply, GetPoint;
    DefinedTextRoundTrip(INITIAL, Jnt, text, sdk);
  }

  lemma TinyParses()
    ensures ParseCall("JNTPoint(" + TINY + ")") == Some(("JNTPoint", TINY))
  {
    hide ParseCall, Join;
    TinyShape();
    assert OneLine(TINY) && IsName("JNTPoint");
    ParseCallExact("JNTPoint(" + TINY + ")", "JNTPoint", TINY);
  }

  lemma TinyAccepted()
    ensures Split(TINY) == TINY_FIELDS && !SixDecimals(TINY_FIELDS[1])
    ensures ReadDefinition(TINY, 0).Accepted? && ReadDefinition(TINY, 0).index == 1
  {
    hide AtoLAsInt, Split, AtoF, SixDecimals, PointText, Join;
    TinyShape();
    TinyFraction();
    OneIsOne();
  }

  lemma OneIsOne()
    ensures AtoLAsInt("1") == 1
  {
    assert Dec(1) == "1";
    IndexRead(1);
  }

  lemma TinyShape()
    ensures Split(TINY) == TINY_FIELDS && PointText(TINY)
  {
    hide Split, Join;
    assert AllCommaFree(TINY_FIELDS);
    SplitOfJoin(TINY_FIELDS);
    JoinPointText(TINY_FIELDS);
  }

  lemma TinyFraction()
    ensures !SixDecimals("0.0000001")
  {
    hide FractionOf;
    var s := "0.0000001";
    assert s == "0" + "." + "0000001";
    PlainFraction("0", "0000001");
    assert FractionOf(s)[6] == '1';
  }

  lemma CoordsMicroExact(f: seq<string>)
    requires |f| == 7
    ensures PointMicroExact(CoordsIn(f, 1)) <==> forall k :: 1 <= k < 7 ==> SixDecimals(f[k])
  {
    hide AtoF, MicroExact, SixDecimals;
    forall k | 1 <= k < 7
      ensures CoordsIn(f, 1)[k - 1] == AtoF(f[k]) && (MicroExact(AtoF(f[k])) <==> SixDecimals(f[k]))
    {
      TextMicroExact(f[k]);
    }
    assert forall i :: 0 <= i < 6 ==> (MicroExact(CoordsIn(f, 1)[i]) <==> SixDecimals(f[i + 1]));
    assert forall k :: 1 <= k < 7 ==> (SixDecimals(f[k]) <==> MicroExact(CoordsIn(f, 1)[k - 1]));
  }

  /** Requests that do not parse, unknown names, and calls that end in a logic error are
      answered "-1" and change nothing. */
  lemma ErrorsReplyMinusOne(s: State, request: string, sdk: Sdk)
    ensures match ParseCall(request)
            case None => Respond(s, request, sdk) == (s, Done("-1"))
            case Some((name, params)) =>
              var unknown := sdk.other.None? && KindOf(name).None? && name !in ["JNTPoint", "CARTPoint", "GET"];
              unknown || Call(s, name, params, sdk).1.Threw? ==> Respond(s, request, sdk) == (s, Done("-1"))
  {
    hide ParseCall, Split, ReadDefinition, GetPoint, Motion, Reply, IntText;
    if ParseCall(request).Some? {
      var (name, params) := ParseCall(request).value;
      if KindOf(name).Some? {
        var m := Motion(KindOf(name).value, s.jnt, s.cart, Split(params), sdk);
        assert s.calls + [] == s.calls;
      }
    }
  }

  /** Conversely a request answered "-1" leaves both lists alone, and has issued at most one
      motion call, which the SDK itself answered with -1. */
  lemma MinusOneChangesNoList(s: State, request: string, sdk: Sdk)
    requires Respond(s, request, sdk).1 == Done("-1")
    ensures var t := Respond(s, request, sdk).0;
            && t.jnt == s.jnt && t.cart == s.cart
            && (t.calls == s.calls || (sdk.code == -1 && exists c :: t.calls == s.calls + [c]))
  {
    hide ParseCall, Split, ReadDefinition, GetPoint, Motion, Reply, IntText;
    if ParseCall(request).Some? {
      var (name, params) := ParseCall(request).value;
      if KindOf(name).Some? {
        var m := Motion(KindOf(name).value, s.jnt, s.cart, Split(params), sdk);
        if m.Done? {
          MinusOneText(sdk.code);
        } else {
          assert s.calls + [] == s.calls;
        }
      }
    }
  }

  lemma MinusOneText(code: int)
    ensures IntText(code) == "-1" ==> code == -1
  {
    ScanIntText(code);
    ScanIntText(-1);
    assert Dec(1) == "1";
    assert IntText(-1) == "-1";
  }
}
