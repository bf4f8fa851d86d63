/** Handlers that pop a split parameter list field by field. */
module Decoders {
  import opened Outcomes
  import opened CommaText
  import opened Numbers
  import opened Points
  import opened Commands

  // ---- Reading by position ----

  datatype Conv = AsInt | AsReal
  datatype Value = I(i: int) | R(r: Num)

  function Convert(conv: Conv, text: string): (r: Outcome<Value>)
    ensures !r.Undefined? && r != Threw(EarlyReturn) && (r.Done? ==> r.value.I? == conv.AsInt?)
  {
    match conv
    case AsInt => (var i :- StoI(text); Done(I(i)))
    case AsReal => (var x :- StoD(text); Done(R(x)))
  }

  /** Field `i` converted by `convs[i]`, for every `i`. The list is read front to back, so
      the first field that is missing or does not convert decides how it ends. */
  function ReadAll(f: seq<string>, convs: seq<Conv>): (r: Outcome<seq<Value>>)
    ensures r.Done? ==> |r.value| == |convs| <= |f|
    ensures r != Threw(EarlyReturn)
  {
    if convs == [] then Done([])
    else if f == [] then Undefined
    else
      var v :- Convert(convs[0], f[0]);
      var rest :- ReadAll(f[1..], convs[1..]);
      Done([v] + rest)
  }

  lemma {:induction false} ReadAllDone(f: seq<string>, convs: seq<Conv>, vs: seq<Value>)
    ensures ReadAll(f, convs) == Done(vs) <==>
            && |vs| == |convs| <= |f|
            && forall i :: 0 <= i < |convs| ==> Convert(convs[i], f[i]) == Done(vs[i])
  {
    hide Convert;
    if convs != [] && f != [] && vs != [] {
      ReadAllDone(f[1..], convs[1..], vs[1..]);
      assert vs == [vs[0]] + vs[1..];
      assert forall i :: 1 <= i < |convs| && i < |f| && i < |vs| ==>
          convs[i] == convs[1..][i - 1] && f[i] == f[1..][i - 1] && vs[i] == vs[1..][i - 1];
      assert forall i :: 0 <= i < |convs| - 1 && i < |f| - 1 && i < |vs| - 1 ==>
          convs[i + 1] == convs[1..][i] && f[i + 1] == f[1..][i] && vs[i + 1] == vs[1..][i];
    }
  }

  /** An empty list is popped exactly when fields are missing and all present ones convert. */
  lemma {:induction false} ReadAllUndefined(f: seq<string>, convs: seq<Conv>)
    ensures ReadAll(f, convs) == Undefined <==>
            && |f| < |convs|
            && forall i :: 0 <= i < |f| ==> Convert(convs[i], f[i]).Done?
  {
    if convs != [] && f != [] {
      hide StoI, StoD;
      ReadAllUndefined(f[1..], convs[1..]);
      assert forall i :: 0 <= i < |convs| - 1 && i < |f| - 1 ==>
          convs[i + 1] == convs[1..][i] && f[i + 1] == f[1..][i];
      assert forall i :: 1 <= i < |convs| && i < |f| ==>
          convs[i] == convs[1..][i - 1] && f[i] == f[1..][i - 1];
    }
  }

  lemma {:induction false} ReadAllAppend(f: seq<string>, a: seq<Conv>, b: seq<Conv>)
    ensures var first := ReadAll(f, a);
            ReadAll(f, a + b) ==
            if !first.Done? then first
            else
              var second := ReadAll(f[|a|..], b);
              if !second.Done? then second else Done(first.value + second.value)
  {
    hide Convert;
    if a == [] {
      assert a + b == b && f[0..] == f;
      if ReadAll(f, b).Done? {
        assert [] + ReadAll(f, b).value == ReadAll(f, b).value;
      }
    } else if f != [] {
      assert (a + b)[1..] == a[1..] + b;
      ReadAllAppend(f[1..], a[1..], b);
      if ReadAll(f, a).Done? {
        assert f[1..][|a| - 1..] == f[|a|..];
        if ReadAll(f[|a|..], b).Done? {
          var x, y := ReadAll(f[1..], a[1..]).value, ReadAll(f[|a|..], b).value;
          var v := Convert(a[0], f[0]).value;
          assert [v] + (x + y) == ([v] + x) + y;
        }
      }
    }
  }

  // ---- Groups: the records of the long handlers ----

  /** `width` consecutive fields read the same way. */
  datatype Group = Group(conv: Conv, width: nat)

  function Repeated(conv: Conv, n: nat): (r: seq<Conv>)
    ensures |r| == n
  {
    seq(n, i => conv)
  }

  function Flat(schema: seq<Group>): seq<Conv> {
    if schema == [] then [] else Repeated(schema[0].conv, schema[0].width) + Flat(schema[1..])
  }

  /** Sum of the first `j` widths: where group `j` starts. */
  function Offset(schema: seq<Group>, j: nat): nat
    requires j <= |schema|
  {
    if j == 0 then 0 else schema[0].width + Offset(schema[1..], j - 1)
  }

  function Total(schema: seq<Group>): nat {
    Offset(schema, |schema|)
  }

  function Concat(groups: seq<seq<Value>>): seq<Value> {
    if groups == [] then [] else groups[0] + Concat(groups[1..])
  }

  lemma {:induction false} FlatLength(schema: seq<Group>)
    ensures |Flat(schema)| == Total(schema)
  {
    if schema != [] {
      FlatLength(schema[1..]);
    }
  }

  /** Group `j` of a decoded record reads the fields at the sum of the earlier widths. */
  lemma {:induction false} GroupReadsAtPrefixSum(
      f: seq<string>, schema: seq<Group>, groups: seq<seq<Value>>, j: nat, i: nat)
    requires |groups| == |schema| && forall k :: 0 <= k < |schema| ==> |groups[k]| == schema[k].width
    requires ReadAll(f, Flat(schema)) == Done(Concat(groups))
    requires j < |schema| && i < schema[j].width
    ensures Offset(schema, j) + i < Total(schema) <= |f|
    ensures Convert(schema[j].conv, f[Offset(schema, j) + i]) == Done(groups[j][i])
  {
    hide Convert, ReadAll;
    var head, tail := Repeated(schema[0].conv, schema[0].width), Flat(schema[1..]);
    ReadAllParts(f, head, tail, groups[0], Concat(groups[1..]));
    FlatLength(schema);
    if j == 0 {
      ReadAllDone(f, head, groups[0]);
      assert head[i] == schema[0].conv;
    } else {
      GroupReadsAtPrefixSum(f[schema[0].width..], schema[1..], groups[1..], j - 1, i);
    }
  }

  lemma ReadAllParts(f: seq<string>, a: seq<Conv>, b: seq<Conv>, first: seq<Value>, second: seq<Value>)
    requires ReadAll(f, a + b) == Done(first + second) && |first| == |a|
    ensures |a| <= |f| && ReadAll(f, a) == Done(first) && ReadAll(f[|a|..], b) == Done(second)
  {
    ReadAllAppend(f, a, b);
    hide ReadAll;
    var x, y := ReadAll(f, a).value, ReadAll(f[|a|..], b).value;
    assert x + y == first + second;
    assert (x + y)[..|a|] == x && (x + y)[|a|..] == y;
    assert (first + second)[..|a|] == first && (first + second)[|a|..] == second;
  }

  /** A `std::list<std::string>` that handlers pop from the front. */
  class FieldList {
    var data: seq<string>

    constructor (text: string)
      ensures data == Split(text)
    {
      new;
      data := SplitString2List(text);
    }

    /** One conversion of `front()` followed by `pop_front()`. */
    method Pop(conv: Conv) returns (r: Outcome<Value>)
      modifies this
      ensures r == if old(data) == [] then Undefined else Convert(conv, old(data)[0])
      ensures data == if r.Done? then old(data)[1..] else old(data)
    {
      if data == [] {
        return Undefined;
      }
      r := Convert(conv, data[0]);
      if r.Done? {
        data := data[1..];
      }
    }

    method PopGroup(g: Group) returns (r: Outcome<seq<Value>>)
      modifies this
      ensures r == ReadAll(old(data), Repeated(g.conv, g.width))
      ensures r.Done? ==> data == old(data)[g.width..]
    {
      hide Convert;
      var values: seq<Value> := [];
      var i := 0;
      while i < g.width
        invariant 0 <= i <= g.width && i == |values| <= |old(data)|
        invariant data == old(data)[i..]
        invariant ReadAll(old(data), Repeated(g.conv, i)) == Done(values)
      {
        assert Repeated(g.conv, i) + [g.conv] == Repeated(g.conv, i + 1);
        ReadAllAppend(old(data), Repeated(g.conv, i), [g.conv]);
        assert Repeated(g.conv, g.width) == Repeated(g.conv, i + 1) + Repeated(g.conv, g.width - i - 1);
        ReadAllAppend(old(data), Repeated(g.conv, i + 1), Repeated(g.conv, g.width - i - 1));
        assert [g.conv][1..] == [];
        var v :- Pop(g.conv);
        assert ReadAll(old(data)[i..], [g.conv]) == Done([v]) by {
          assert [v] + [] == [v];
        }
        values := values + [v];
        i := i + 1;
      }
      return Done(values);
    }

    method PopGroups(schema: seq<Group>) returns (r: Outcome<seq<seq<Value>>>)
      modifies this
      ensures match r
              case Done(groups) =>
                && |groups| == |schema|
                && (forall k :: 0 <= k < |schema| ==> |groups[k]| == schema[k].width)
                && ReadAll(old(data), Flat(schema)) == Done(Concat(groups))
                && data == old(data)[|Flat(schema)|..]
              case e => ReadAll(old(data), Flat(schema)) == e.PropagateFailure()
      decreases |schema|
    {
      hide Convert;
      if schema == [] {
        return Done([]);
      }
      var head, tail := schema[0], schema[1..];
      ReadAllAppend(data, Repeated(head.conv, head.width), Flat(tail));
      var first :- PopGroup(head);
      var rest :- PopGroups(tail);
      assert ([first] + rest)[1..] == rest;
      return Done([first] + rest);
    }
  }

  // ---- The handlers with a long and a short form ----

  /** flag, sensor, select[6], force/torque[6], pid[6], adj, ILC, max distance, max angle,
      M[2], B[2], threshold[2], adjust[2], radius, filter, adapt, non-blocking. */
  const FT_LONG: seq<Group> := FT_HEAD + [Group(AsReal, 2), Group(AsReal, 2)] + FT_TAIL

  /** The same without threshold and adjust. */
  const FT_SHORT: seq<Group> := FT_HEAD + FT_TAIL

  const FT_HEAD: seq<Group> :=
    [Group(AsInt, 1), Group(AsInt, 1), Group(AsInt, 6), Group(AsReal, 6), Group(AsReal, 6), Group(AsInt, 1),
     Group(AsInt, 1), Group(AsReal, 1), Group(AsReal, 1), Group(AsReal, 2), Group(AsReal, 2)]
  const FT_TAIL: seq<Group> := [Group(AsReal, 1), Group(AsInt, 1), Group(AsInt, 1), Group(AsInt, 1)]

  const SIX_POSES: seq<Group> :=
    [Group(AsReal, 6), Group(AsReal, 6), Group(AsReal, 6), Group(AsReal, 6), Group(AsReal, 6), Group(AsReal, 6)]
  const SIX_AXES: seq<Group> :=
    [Group(AsReal, 4), Group(AsReal, 4), Group(AsReal, 4), Group(AsReal, 4), Group(AsReal, 4), Group(AsReal, 4)]

  /** tool, workpiece, velocity, acceleration, two overrides, and a motion type or direction. */
  const LINE_TAIL: seq<Group> :=
    [Group(AsInt, 1), Group(AsInt, 1), Group(AsReal, 1), Group(AsReal, 1), Group(AsReal, 1), Group(AsReal, 1),
     Group(AsInt, 1)]

  const LINE_SHORT: seq<Group> := SIX_POSES + SIX_POSES + LINE_TAIL

  /** Main and piece points with their external axes, an axis flag, one set of external
      axes, the tail, a direction and an offset. */
  const LINE_START_LONG: seq<Group> :=
    SIX_POSES + SIX_AXES + SIX_POSES + SIX_AXES + [Group(AsInt, 1), Group(AsReal, 4)] + LINE_TAIL +
    [Group(AsInt, 1), Group(AsReal, 6)]

  /** An axis flag and four sets of external axes. */
  const FOUR_AXES: seq<Group> :=
    [Group(AsInt, 1), Group(AsReal, 4), Group(AsReal, 4), Group(AsReal, 4), Group(AsReal, 4)]

  /** The same with four sets of external axes and no separate direction. */
  const LINE_LONG: seq<Group> :=
    SIX_POSES + SIX_AXES + SIX_POSES + SIX_AXES + FOUR_AXES + LINE_TAIL + [Group(AsReal, 6)]

  datatype Handler = FTControl | MoveToIntersectLineStart | MoveIntersectLine

  function LongCount(h: Handler): nat {
    match h
    case FTControl => 36
    case MoveToIntersectLineStart => 139
    case MoveIntersectLine => 150
  }

  function Schema(h: Handler, count: nat): seq<Group> {
    match h
    case FTControl => if count == 36 then FT_LONG else FT_SHORT
    case MoveToIntersectLineStart => if count == 139 then LINE_START_LONG else LINE_SHORT
    case MoveIntersectLine => if count == 150 then LINE_LONG else LINE_SHORT
  }

  function ShortCount(h: Handler): nat {
    if h.FTControl? then 32 else 79
  }

  lemma {:induction false} OffsetAppend(a: seq<Group>, b: seq<Group>)
    ensures Total(a + b) == Total(a) + Total(b)
  {
    if a == [] {
      assert a + b == b;
    } else {
      assert (a + b)[1..] == a[1..] + b;
      OffsetAppend(a[1..], b);
    }
  }

  lemma SchemaTotals(h: Handler, count: nat)
    ensures Total(Schema(h, count)) == if count == LongCount(h) then LongCount(h) else ShortCount(h)
  {
    BlockTotals();
    match h
    case FTControl =>
      OffsetAppend(FT_HEAD, FT_TAIL);
      OffsetAppend(FT_HEAD, [Group(AsReal, 2), Group(AsReal, 2)]);
      OffsetAppend(FT_HEAD + [Group(AsReal, 2), Group(AsReal, 2)], FT_TAIL);
    case MoveToIntersectLineStart =>
      IntersectTotals([Group(AsInt, 1), Group(AsReal, 4)], [Group(AsInt, 1), Group(AsReal, 6)]);
    case MoveIntersectLine =>
      IntersectTotals(FOUR_AXES, [Group(AsReal, 6)]);
  }

  lemma BlockTotals()
    ensures Total(FT_HEAD) == 28 && Total(FT_TAIL) == 4 && Total([Group(AsReal, 2), Group(AsReal, 2)]) == 4
    ensures Total(SIX_POSES) == 36 && Total(SIX_AXES) == 24 && Total(LINE_TAIL) == 7
    ensures Total([Group(AsInt, 1), Group(AsReal, 4)]) == 5 && Total([Group(AsInt, 1), Group(AsReal, 6)]) == 7
    ensures Total(FOUR_AXES) == 17 && Total([Group(AsReal, 6)]) == 6
  {
    var first := [Group(AsInt, 1), Group(AsInt, 1), Group(AsInt, 6), Group(AsReal, 6), Group(AsReal, 6)];
    var second :=
      [Group(AsInt, 1), Group(AsInt, 1), Group(AsReal, 1), Group(AsReal, 1), Group(AsReal, 2), Group(AsReal, 2)];
    assert FT_HEAD == first + second;
    OffsetAppend(first, second);
  }

  lemma IntersectTotals(middle: seq<Group>, end: seq<Group>)
    ensures Total(SIX_POSES + SIX_AXES + SIX_POSES + SIX_AXES + middle + LINE_TAIL + end) ==
            127 + Total(middle) + Total(end)
    ensures Total(LINE_SHORT) == 79
  {
    BlockTotals();
    OffsetAppend(SIX_POSES, SIX_AXES);
    OffsetAppend(SIX_POSES + SIX_AXES, SIX_POSES);
    OffsetAppend(SIX_POSES + SIX_AXES + SIX_POSES, SIX_AXES);
    OffsetAppend(SIX_POSES + SIX_AXES + SIX_POSES + SIX_AXES, middle);
    OffsetAppend(SIX_POSES + SIX_AXES + SIX_POSES + SIX_AXES + middle, LINE_TAIL);
    OffsetAppend(SIX_POSES + SIX_AXES + SIX_POSES + SIX_AXES + middle + LINE_TAIL, end);
    OffsetAppend(SIX_POSES, SIX_POSES);
    OffsetAppend(SIX_POSES + SIX_POSES, LINE_TAIL);
  }

  lemma {:induction false} FlatAppend(a: seq<Group>, b: seq<Group>)
    ensures Flat(a + b) == Flat(a) + Flat(b)
  {
    if a == [] {
      assert a + b == b;
    } else {
      assert (a + b)[1..] == a[1..] + b;
      FlatAppend(a[1..], b);
    }
  }

  /** `n` fields, all read the same way. */
  predicate Uniform(convs: seq<Conv>, conv: Conv, n: nat) {
    |convs| == n && forall i :: 0 <= i < n ==> convs[i] == conv
  }

  lemma {:induction false} UniformBlock(schema: seq<Group>, conv: Conv)
    requires forall k :: 0 <= k < |schema| ==> schema[k].conv == conv
    ensures Uniform(Flat(schema), conv, Total(schema))
  {
    if schema != [] {
      UniformBlock(schema[1..], conv);
    }
  }

  lemma OneGroup(conv: Conv, a: nat)
    ensures Uniform(Flat([Group(conv, a)]), conv, a)
  {
    UniformBlock([Group(conv, a)], conv);
  }

  lemma TwoGroups(conv: Conv, a: nat, b: nat)
    ensures Uniform(Flat([Group(conv, a), Group(conv, b)]), conv, a + b)
  {
    OneGroup(conv, a);
    OneGroup(conv, b);
    FlatAppend([Group(conv, a)], [Group(conv, b)]);
    assert [Group(conv, a)] + [Group(conv, b)] == [Group(conv, a), Group(conv, b)];
  }

  lemma ThreeGroups(conv: Conv, a: nat, b: nat, c: nat)
    ensures Uniform(Flat([Group(conv, a), Group(conv, b), Group(conv, c)]), conv, a + b + c)
  {
    hide Flat;
    TwoGroups(conv, a, b);
    OneGroup(conv, c);
    FlatAppend([Group(conv, a), Group(conv, b)], [Group(conv, c)]);
    assert [Group(conv, a), Group(conv, b)] + [Group(conv, c)] == [Group(conv, a), Group(conv, b), Group(conv, c)];
  }

  lemma FourGroups(conv: Conv, a: nat, b: nat, c: nat, d: nat)
    ensures Uniform(Flat([Group(conv, a), Group(conv, b), Group(conv, c), Group(conv, d)]), conv, a + b + c + d)
  {
    hide Flat;
    TwoGroups(conv, a, b);
    TwoGroups(conv, c, d);
    FlatAppend([Group(conv, a), Group(conv, b)], [Group(conv, c), Group(conv, d)]);
    assert [Group(conv, a), Group(conv, b)] + [Group(conv, c), Group(conv, d)] ==
        [Group(conv, a), Group(conv, b), Group(conv, c), Group(conv, d)];
  }

  /** How a field of a record is read: as an integer? By the positions in the handlers. */
  predicate IsInteger(h: Handler, long: bool, i: nat) {
    match h
    case FTControl => i < 8 || i == 20 || i == 21 || i >= (if long then 33 else 29)
    case MoveToIntersectLineStart =>
      if long then i == 120 || i == 125 || i == 126 || i == 131 || i == 132 else i == 72 || i == 73 || i == 78
    case MoveIntersectLine =>
      if long then i == 120 || i == 137 || i == 138 || i == 143 else i == 72 || i == 73 || i == 78
  }

  lemma HeadKinds()
    ensures |Flat(FT_HEAD)| == 28
    ensures forall i :: 0 <= i < 28 ==> (Flat(FT_HEAD)[i].AsInt? <==> i < 8 || i == 20 || i == 21)
  {
    var a := [Group(AsInt, 1), Group(AsInt, 1), Group(AsInt, 6)];
    var b := [Group(AsReal, 6), Group(AsReal, 6)];
    var c := [Group(AsInt, 1), Group(AsInt, 1)];
    var d := [Group(AsReal, 1), Group(AsReal, 1), Group(AsReal, 2), Group(AsReal, 2)];
    hide Flat;
    assert FT_HEAD == a + (b + (c + d));
    ThreeGroups(AsInt, 1, 1, 6);
    TwoGroups(AsReal, 6, 6);
    TwoGroups(AsInt, 1, 1);
    FourGroups(AsReal, 1, 1, 2, 2);
    FlatAppend(a, b + (c + d));
    FlatAppend(b, c + d);
    FlatAppend(c, d);
  }

  lemma TailKinds()
    ensures |Flat(FT_TAIL)| == 4 && forall i :: 0 <= i < 4 ==> (Flat(FT_TAIL)[i].AsInt? <==> i >= 1)
    ensures |Flat(LINE_TAIL)| == 7
    ensures forall i :: 0 <= i < 7 ==> (Flat(LINE_TAIL)[i].AsInt? <==> i == 0 || i == 1 || i == 6)
  {
    var a, b := [Group(AsReal, 1)], [Group(AsInt, 1), Group(AsInt, 1), Group(AsInt, 1)];
    hide Flat;
    assert FT_TAIL == a + b;
    OneGroup(AsReal, 1);
    ThreeGroups(AsInt, 1, 1, 1);
    var c := [Group(AsInt, 1), Group(AsInt, 1)];
    var d := [Group(AsReal, 1), Group(AsReal, 1), Group(AsReal, 1), Group(AsReal, 1)];
    var e := [Group(AsInt, 1)];
    assert LINE_TAIL == c + (d + e);
    TwoGroups(AsInt, 1, 1);
    FourGroups(AsReal, 1, 1, 1, 1);
    OneGroup(AsInt, 1);
    FlatAppend(a, b);
    FlatAppend(c, d + e);
    FlatAppend(d, e);
  }

  /** An axis flag, then reals only. */
  lemma FlagKinds(rest: seq<Group>)
    requires forall k :: 0 <= k < |rest| ==> rest[k].conv == AsReal
    ensures var s := [Group(AsInt, 1)] + rest;
            |Flat(s)| == 1 + Total(rest) && forall i :: 0 <= i < |Flat(s)| ==> (Flat(s)[i].AsInt? <==> i == 0)
  {
    UniformBlock([Group(AsInt, 1)], AsInt);
    UniformBlock(rest, AsReal);
    FlatAppend([Group(AsInt, 1)], rest);
  }

  lemma PointKinds()
    ensures Uniform(Flat(SIX_POSES + SIX_AXES + SIX_POSES + SIX_AXES), AsReal, 120)
    ensures Uniform(Flat(SIX_POSES + SIX_POSES), AsReal, 72)
  {
    UniformBlock(SIX_POSES, AsReal);
    UniformBlock(SIX_AXES, AsReal);
    BlockTotals();
    hide Total, Flat, Uniform;
    UniformJoin(SIX_POSES, SIX_AXES, AsReal, 36, 24);
    UniformJoin(SIX_POSES + SIX_AXES, SIX_POSES, AsReal, 60, 36);
    UniformJoin(SIX_POSES + SIX_AXES + SIX_POSES, SIX_AXES, AsReal, 96, 24);
    UniformJoin(SIX_POSES, SIX_POSES, AsReal, 36, 36);
  }

  lemma UniformJoin(a: seq<Group>, b: seq<Group>, conv: Conv, m: nat, n: nat)
    requires Uniform(Flat(a), conv, m) && Uniform(Flat(b), conv, n)
    ensures Uniform(Flat(a + b), conv, m + n)
  {
    hide Flat;
    FlatAppend(a, b);
  }

  /** Which fields of the three records are integers and which are reals. */
  lemma FieldKinds(h: Handler, count: nat, i: nat)
    requires i < |Flat(Schema(h, count))|
    ensures Flat(Schema(h, count))[i].AsInt? <==> IsInteger(h, count == LongCount(h), i)
  {
    HeadKinds();
    TailKinds();
    PointKinds();
    BlockTotals();
    hide Flat, Total;
    match h
    case FTControl => ControlKinds(count, i);
    case MoveToIntersectLineStart =>
      if count == 139 { StartLineKinds(i); } else { ShortLineKinds(i); }
    case MoveIntersectLine =>
      if count == 150 { LongLineKinds(i); } else { ShortLineKinds(i); }
  }

  lemma ControlKinds(count: nat, i: nat)
    requires i < |Flat(Schema(FTControl, count))|
    ensures Flat(Schema(FTControl, count))[i].AsInt? <==> IsInteger(FTControl, count == 36, i)
  {
    hide Flat;
    var middle := [Group(AsReal, 2), Group(AsReal, 2)];
    HeadKinds();
    TailKinds();
    TwoGroups(AsReal, 2, 2);
    FlatAppend(FT_HEAD, middle);
    FlatAppend(FT_HEAD + middle, FT_TAIL);
    FlatAppend(FT_HEAD, FT_TAIL);
  }

  lemma ShortLineKinds(i: nat)
    requires i < |Flat(LINE_SHORT)|
    ensures Flat(LINE_SHORT)[i].AsInt? <==> i == 72 || i == 73 || i == 78
  {
    TailKinds();
    PointKinds();
    hide Flat;
    FlatAppend(SIX_POSES + SIX_POSES, LINE_TAIL);
  }

  lemma StartLineKinds(i: nat)
    requires i < |Flat(LINE_START_LONG)|
    ensures Flat(LINE_START_LONG)[i].AsInt? <==> i == 120 || i == 125 || i == 126 || i == 131 || i == 132
  {
    var points, flag, end := SIX_POSES + SIX_AXES + SIX_POSES + SIX_AXES,
      [Group(AsInt, 1), Group(AsReal, 4)], [Group(AsInt, 1), Group(AsReal, 6)];
    TailKinds();
    PointKinds();
    assert flag == [Group(AsInt, 1)] + [Group(AsReal, 4)] && end == [Group(AsInt, 1)] + [Group(AsReal, 6)];
    FlagKinds([Group(AsReal, 4)]);
    FlagKinds([Group(AsReal, 6)]);
    assert Total([Group(AsReal, 4)]) == 4 && Total([Group(AsReal, 6)]) == 6;
    hide Flat, Total;
    FlatAppend(points, flag);
    FlatAppend(points + flag, LINE_TAIL);
    FlatAppend(points + flag + LINE_TAIL, end);
  }

  lemma LongLineKinds(i: nat)
    requires i < |Flat(LINE_LONG)|
    ensures Flat(LINE_LONG)[i].AsInt? <==> i == 120 || i == 137 || i == 138 || i == 143
  {
    var points, axes, end := SIX_POSES + SIX_AXES + SIX_POSES + SIX_AXES,
      [Group(AsReal, 4), Group(AsReal, 4), Group(AsReal, 4), Group(AsReal, 4)], [Group(AsReal, 6)];
    TailKinds();
    PointKinds();
    assert FOUR_AXES == [Group(AsInt, 1)] + axes;
    FlagKinds(axes);
    OneGroup(AsReal, 6);
    assert Total(axes) == 16;
    hide Flat, Total;
    FlatAppend(points, FOUR_AXES);
    FlatAppend(points + FOUR_AXES, LINE_TAIL);
    FlatAppend(points + FOUR_AXES + LINE_TAIL, end);
  }

  /** Decodes the parameters of one of the three handlers; `left` is what stays unread. */
  method DecodeRecord(h: Handler, para: string) returns (r: Outcome<seq<seq<Value>>>, left: nat)
    ensures var f := Split(para); var schema := Schema(h, |f|);
            match r
            case Done(groups) =>
              && |groups| == |schema|
              && (forall j :: 0 <= j < |schema| ==> |groups[j]| == schema[j].width)
              && ReadAll(f, Flat(schema)) == Done(Concat(groups))
              && left == |f| - Total(schema)
            case e => ReadAll(f, Flat(schema)) == e.PropagateFailure()
  {
    hide Convert, Split;
    left := 0;
    var list := new FieldList(para);
    var schema := Schema(h, |list.data|);
    FlatLength(schema);
    r := list.PopGroups(schema);
    left := |list.data|;
  }

  /** The long form is used exactly at its field count and then reads every field once; the
      short form reads its fixed number of fields and ignores the rest. An empty list is
      popped exactly when the short form lacks fields and all present ones convert. */
  lemma RecordCompleteness(h: Handler, f: seq<string>)
    ensures var schema := Schema(h, |f|);
            && |Flat(schema)| == Total(schema)
            && (|f| == LongCount(h) ==> Total(schema) == |f|)
            && (|f| != LongCount(h) ==> Total(schema) == ShortCount(h))
            && (ReadAll(f, Flat(schema)).Undefined? <==>
                |f| < ShortCount(h) && forall i :: 0 <= i < |f| ==> Convert(Flat(schema)[i], f[i]).Done?)
  {
    hide Convert, ReadAll, Flat, Schema, Total;
    var schema := Schema(h, |f|);
    FlatLength(schema);
    SchemaTotals(h, |f|);
    ReadAllUndefined(f, Flat(schema));
  }

  // ---- ServoJMultiPoint: a counted batch of points ----

  datatype Batch = Batch(points: seq<Point>, ext: Axes, period: Num)

  function Reals(vs: seq<Value>): (v: seq<Num>)
    requires forall i :: 0 <= i < |vs| ==> vs[i].R?
    ensures |v| == |vs|
  {
    seq(|vs|, i requires 0 <= i < |vs| => vs[i].r)
  }

  lemma ReadsReals(f: seq<string>, n: nat, vs: seq<Value>)
    requires ReadAll(f, Repeated(AsReal, n)) == Done(vs)
    ensures forall i :: 0 <= i < n ==> vs[i].R?
  {
    hide ReadAll;
    ReadAllDone(f, Repeated(AsReal, n), vs);
  }

  /** The first `n` fields, all read with `stod`. */
  function ReadReals(f: seq<string>, n: nat): (r: Outcome<seq<Num>>)
    ensures r.Done? ==> |r.value| == n <= |f|
    ensures r != Threw(EarlyReturn)
  {
    var vs :- ReadAll(f, Repeated(AsReal, n));
    ReadsReals(f, n, vs);
    Done(Reals(vs))
  }

  function Max0(n: int): nat {
    if n < 0 then 0 else n
  }

  /** The batch by position: the count, then six reals a point, then five more. */
  function ReadBatch(f: seq<string>): Outcome<Batch>
    requires |f| > 0
  {
    var n :- StoI(f[0]);
    var v :- ReadReals(f[1..], 6 * Max0(n) + 5);
    Done(BatchOf(v, Max0(n)))
  }

  function BatchOf(v: seq<Num>, m: nat): Batch
    requires |v| == 6 * m + 5
  {
    Batch(Chunks(v, m), v[6 * m..6 * m + 4], v[6 * m + 4])
  }

  /** The first `m` groups of six. */
  function Chunks(v: seq<Num>, m: nat): seq<Point>
    requires 6 * m <= |v|
  {
    seq(m, i requires 0 <= i < m => v[6 * i..6 * i + 6])
  }

  lemma ReadRealsSplit(f: seq<string>, a: nat, b: nat)
    ensures var first := ReadReals(f, a);
            ReadReals(f, a + b) ==
            if !first.Done? then first
            else
              var second := ReadReals(f[a..], b);
              if !second.Done? then second else Done(first.value + second.value)
  {
    hide ReadAll;
    assert Repeated(AsReal, a) + Repeated(AsReal, b) == Repeated(AsReal, a + b);
    ReadAllAppend(f, Repeated(AsReal, a), Repeated(AsReal, b));
    var first := ReadAll(f, Repeated(AsReal, a));
    if first.Done? {
      ReadsReals(f, a, first.value);
      var second := ReadAll(f[a..], Repeated(AsReal, b));
      if second.Done? {
        ReadsReals(f[a..], b, second.value);
        assert Reals(first.value + second.value) == Reals(first.value) + Reals(second.value);
      }
    }
  }

  lemma ReadRealsDone(f: seq<string>, n: nat, v: seq<Num>)
    ensures ReadReals(f, n) == Done(v) <==>
            |v| == n <= |f| && forall i :: 0 <= i < n ==> StoD(f[i]) == Done(v[i])
  {
    hide ReadAll, StoD;
    var vs := seq(|v|, i requires 0 <= i < |v| => R(v[i]));
    ReadAllDone(f, Repeated(AsReal, n), vs);
    var all := ReadAll(f, Repeated(AsReal, n));
    assert Reals(vs) == v;
    if all.Done? {
      ReadsReals(f, n, all.value);
      assert forall i :: 0 <= i < n ==> all.value[i] == R(Reals(all.value)[i]);
      assert Reals(all.value) == v ==> all.value == vs;
    }
  }

  lemma ReadRealsUndefined(f: seq<string>, n: nat)
    ensures ReadReals(f, n).Undefined? <==> |f| < n && forall i :: 0 <= i < |f| ==> StoD(f[i]).Done?
  {
    hide ReadAll, StoD;
    ReadAllUndefined(f, Repeated(AsReal, n));
    assert forall i :: 0 <= i < |f| && i < n ==> (Convert(Repeated(AsReal, n)[i], f[i]).Done? <==> StoD(f[i]).Done?);
  }

  /** Six `stod(front()); pop_front()` into a joint position. */
  method FillJointPose(list: FieldList) returns (r: Outcome<Point>)
    modifies list
    ensures match ReadReals(old(list.data), 6)
            case Done(v) => r == Done(v) && list.data == old(list.data)[6..]
            case e => r == e.PropagateFailure()
  {
    r := PopReals(list, 6);
  }

  method PopReals(list: FieldList, n: nat) returns (r: Outcome<seq<Num>>)
    modifies list
    ensures r == ReadReals(old(list.data), n)
    ensures r.Done? ==> list.data == old(list.data)[n..]
  {
    hide ReadAll;
    ghost var f := list.data;
    var values :- list.PopGroup(Group(AsReal, n));
    ReadsReals(f, n, values);
    return Done(Reals(values));
  }

  /** The outer loop over the points; a negative count gives none. */
  method FillPoints(list: FieldList, count: int) returns (r: Outcome<seq<Point>>)
    modifies list
    ensures var all := ReadReals(old(list.data), 6 * Max0(count));
            if !all.Done? then r == all.PropagateFailure()
            else r == Done(Chunks(all.value, Max0(count))) && list.data == old(list.data)[6 * Max0(count)..]
  {
    hide ReadReals;
    ghost var f, m := list.data, Max0(count);
    ghost var v: seq<Num> := [];
    var points: seq<Point> := [];
    var i := 0;
    assert ReadReals(f, 0) == Done([]) by { ReadRealsDone(f, 0, []); }
    while i < count
      invariant 0 <= i <= m && |v| == 6 * i <= |f|
      invariant list.data == f[6 * i..]
      invariant ReadReals(f, 6 * i) == Done(v)
      invariant points == Chunks(v, i)
    {
      ReadRealsSplit(f, 6 * i, 6 * m - 6 * i);
      ReadRealsSplit(f[6 * i..], 6, 6 * m - 6 * i - 6);
      ReadRealsSplit(f, 6 * i, 6);
      var jpos :- FillJointPose(list);
      ChunksAppend(v, jpos, i);
      assert (v + jpos)[6 * i..6 * i + 6] == jpos;
      points, v, i := points + [jpos], v + jpos, i + 1;
    }
    return Done(points);
  }

  lemma ChunksAppend(v: seq<Num>, w: seq<Num>, m: nat)
    requires 6 * m <= |v|
    ensures Chunks(v + w, m) == Chunks(v, m)
  {
    forall k | 0 <= k < m ensures (v + w)[6 * k..6 * k + 6] == v[6 * k..6 * k + 6] {
    }
  }

  lemma BatchAssembled(v: seq<Num>, ext: Axes, period: Num, m: nat)
    requires |v| == 6 * m
    ensures BatchOf(v + (ext + [period]), m) == Batch(Chunks(v, m), ext, period)
  {
    hide Chunks;
    ChunksAppend(v, ext + [period], m);
    assert (v + (ext + [period]))[6 * m..6 * m + 4] == ext;
  }

  /** Count, points, four axes and a period. */
  method ServoJMultiPoint(para: string) returns (r: Outcome<Batch>)
    ensures r == ReadBatch(Split(para))
  {
    hide Split, StoD, StoI, ReadReals, BatchOf, Chunks;
    var list := new FieldList(para);
    ghost var f := list.data;
    var count :- list.Pop(AsInt);
    ghost var m := Max0(count.i);
    ReadRealsSplit(f[1..], 6 * m, 5);
    var points :- FillPoints(list, count.i);
    ghost var v, rest := ReadReals(f[1..], 6 * m).value, list.data;
    ReadRealsSplit(rest, 4, 1);
    var ext :- PopReals(list, 4);
    LastReal(rest[4..]);
    var period :- list.Pop(AsReal);
    BatchAssembled(v, ext, period.r, m);
    return Done(Batch(points, ext, period.r));
  }

  lemma LastReal(f: seq<string>)
    ensures ReadReals(f, 1) == if f == [] then Undefined else (var x :- StoD(f[0]); Done([x]))
  {
    hide StoD;
    assert Repeated(AsReal, 1) == [AsReal];
    if f != [] && StoD(f[0]).Done? {
      ReadRealsDone(f, 1, [StoD(f[0]).value]);
    }
  }

  // ---- Batch round trip ----

  function Texts(v: seq<Num>): seq<string> {
    seq(|v|, i requires 0 <= i < |v| => ToText(v[i]))
  }

  function Flatten(points: seq<Point>): (v: seq<Num>)
    ensures |v| == 6 * |points|
    ensures forall k, i :: 0 <= k < |points| && 0 <= i < 6 ==> v[6 * k + i] == points[k][i]
  {
    if points == [] then [] else
      var p: seq<Num> := points[0];
      p + Flatten(points[1..])
  }

  function BatchText(b: Batch): string {
    Join([IntText(|b.points|)] + Texts(Flatten(b.points) + b.ext + [b.period]))
  }

  function RoundedReals(v: seq<Num>): seq<Num> {
    seq(|v|, i requires 0 <= i < |v| => Round6(v[i]))
  }

  function RoundedBatch(b: Batch): Batch {
    var points := seq(|b.points|, k requires 0 <= k < |b.points| => Rounded(b.points[k]));
    Batch(points, RoundedReals(b.ext), Round6(b.period))
  }

  /** Encoding a batch as comma text and running the split and the fill loops yields the
      same points in order, each value rounded to six decimals. */
  lemma BatchRoundTrip(b: Batch)
    requires |b.points| <= INT_MAX
    ensures ReadBatch(Split(BatchText(b))) == Done(RoundedBatch(b))
  {
    hide ToText, IntText, Split, StoI, Join, ReadReals, Round6;
    var m := |b.points|;
    var v := Flatten(b.points) + b.ext + [b.period];
    var f := [IntText(m)] + Texts(v);
    BatchFields(m, v);
    ReadTexts(f[1..], v);
    ReadInt(m);
    var w := RoundedReals(v);
    assert f[1..] == Texts(v);
    forall k | 0 <= k < m ensures w[6 * k..6 * k + 6] == Rounded(b.points[k]) {
      assert forall i :: 0 <= i < 6 ==> w[6 * k + i] == Round6(b.points[k][i]);
    }
    assert Chunks(w, m) == RoundedBatch(b).points;
    assert w[6 * m..6 * m + 4] == RoundedReals(b.ext);
  }

  lemma BatchFields(m: nat, v: seq<Num>)
    requires |v| > 0
    ensures Split(Join([IntText(m)] + Texts(v))) == [IntText(m)] + Texts(v)
  {
    hide ToText, Split, Join;
    var f := [IntText(m)] + Texts(v);
    forall i | 0 <= i < |f| ensures CommaFree(f[i]) && f[i] != "" {
      if i > 0 {
        ToTextShape(v[i - 1]);
      }
    }
    SplitOfJoin(f);
  }

  lemma ReadTexts(f: seq<string>, v: seq<Num>)
    requires f == Texts(v)
    ensures ReadReals(f, |v|) == Done(RoundedReals(v))
  {
    hide ToText, ScanReal, Round6, ReadReals;
    forall i | 0 <= i < |v| ensures StoD(f[i]) == Done(RoundedReals(v)[i]) {
      ReadPrinted(v[i]);
    }
    ReadRealsDone(f, |v|, RoundedReals(v));
  }

  /** With a readable count n, an empty list is popped exactly when there are fewer than
      1 + 6 * max(n, 0) + 5 fields and all fields present convert. */
  lemma BatchUnderflow(f: seq<string>)
    requires |f| > 0 && StoI(f[0]).Done?
    ensures ReadBatch(f).Undefined? <==>
            && |f| < 1 + 6 * Max0(StoI(f[0]).value) + 5
            && forall i :: 1 <= i < |f| ==> StoD(f[i]).Done?
  {
    hide StoI, StoD, ReadReals;
    ReadRealsUndefined(f[1..], 6 * Max0(StoI(f[0]).value) + 5);
    assert forall i :: 1 <= i < |f| ==> f[i] == f[1..][i - 1];
    assert forall i :: 0 <= i < |f| - 1 ==> f[i + 1] == f[1..][i];
  }

  // ---- Default splicing ----

  /** Server defaults appended to the parameters: type, then installation. */
  function ToolText(para: string, toolType: int, install: int): string {
    para + "," + IntText(toolType) + "," + IntText(install)
  }

  /** The collision mode in front of the parameters and the configuration behind them. */
  function CollisionText(para: string, mode: int, config: int): string {
    IntText(mode) + "," + para + "," + IntText(config)
  }

  const TOOL_COORD: seq<Group> := [Group(AsInt, 1), Group(AsReal, 6), Group(AsInt, 1), Group(AsInt, 1)]
  const TOOL_LIST: seq<Group> := [Group(AsInt, 1), Group(AsReal, 6), Group(AsReal, 1), Group(AsReal, 1)]
  const ANTICOLLISION: seq<Group> := [Group(AsInt, 1), Group(AsReal, 6), Group(AsInt, 1)]

  lemma IntTextShape(i: int)
    ensures CommaFree(IntText(i)) && IntText(i) != ""
  {
    hide Dec;
  }

  /** For parameters of k fields (trailing empty ones counted) the defaults become the
      fields k and k + 1. */
  lemma ToolSplice(para: string, toolType: int, install: int)
    ensures Split(ToolText(para, toolType, install)) == Fields(para) + [IntText(toolType), IntText(install)]
  {
    hide IntText;
    var a, b := IntText(toolType), IntText(install);
    IntTextShape(toolType);
    IntTextShape(install);
    FieldsAppend(para + "," + a, b);
    FieldsAppend(para, a);
    FieldsOfOne(a);
    FieldsOfOne(b);
    hide Fields;
    assert Fields(para) + [a] + [b] == Fields(para) + [a, b];
  }

  lemma CollisionSplice(para: string, mode: int, config: int)
    ensures Split(CollisionText(para, mode, config)) == [IntText(mode)] + Fields(para) + [IntText(config)]
  {
    hide IntText;
    var a, b := IntText(mode), IntText(config);
    IntTextShape(mode);
    IntTextShape(config);
    FieldsAppend(a + "," + para, b);
    FieldsAppend(a, para);
    FieldsOfOne(a);
    FieldsOfOne(b);
    hide Fields;
  }

  /** `SetToolCoord` (doubles = false) and `SetToolList` (doubles = true). */
  method SetTool(para: string, toolType: int, install: int, doubles: bool) returns (r: Outcome<seq<seq<Value>>>)
    ensures var f := Fields(para) + [IntText(toolType), IntText(install)];
            var schema := ToolSchema(doubles);
            match r
            case Done(groups) => ReadAll(f, Flat(schema)) == Done(Concat(groups)) && GroupShape(groups, schema)
            case e => ReadAll(f, Flat(schema)) == e.PropagateFailure()
  {
    hide Convert, Split, IntText;
    ToolSplice(para, toolType, install);
    var list := new FieldList(ToolText(para, toolType, install));
    r := list.PopGroups(ToolSchema(doubles));
  }

  method SetAnticollision(para: string, mode: int, config: int) returns (r: Outcome<seq<seq<Value>>>)
    ensures var f := [IntText(mode)] + Fields(para) + [IntText(config)];
            match r
            case Done(groups) =>
              ReadAll(f, Flat(ANTICOLLISION)) == Done(Concat(groups)) && GroupShape(groups, ANTICOLLISION)
            case e => ReadAll(f, Flat(ANTICOLLISION)) == e.PropagateFailure()
  {
    hide Convert, Split, IntText;
    CollisionSplice(para, mode, config);
    var list := new FieldList(CollisionText(para, mode, config));
    r := list.PopGroups(ANTICOLLISION);
  }

  ghost predicate GroupShape(groups: seq<seq<Value>>, schema: seq<Group>) {
    |groups| == |schema| && forall k :: 0 <= k < |schema| ==> |groups[k]| == schema[k].width
  }

  function ToolSchema(doubles: bool): seq<Group> {
    if doubles then TOOL_LIST else TOOL_COORD
  }

  /** Which texts are read as type and installation: the appended defaults exactly when
      seven fields were given; with one field more the type default is read as the
      installation; with two more both come from the caller. */
  lemma ToolDefaults(para: string, toolType: int, install: int, doubles: bool, groups: seq<seq<Value>>)
    requires INT_MIN <= toolType <= INT_MAX && INT_MIN <= install <= INT_MAX
    requires GroupShape(groups, ToolSchema(doubles))
    requires var f := Fields(para) + [IntText(toolType), IntText(install)];
             ReadAll(f, Flat(ToolSchema(doubles))) == Done(Concat(groups))
    ensures var k, conv := |Fields(para)|, if doubles then AsReal else AsInt;
            && k >= 7
            && Done(groups[2][0]) == Convert(conv, if k == 7 then IntText(toolType) else Fields(para)[7])
            && Done(groups[3][0]) ==
               Convert(conv, if k == 7 then IntText(install) else if k == 8 then IntText(toolType) else Fields(para)[8])
            && (k == 7 && !doubles ==> groups[2] == [I(toolType)] && groups[3] == [I(install)])
  {
    hide IntText, ReadAll, Flat, Concat, StoI, StoD;
    var f := Fields(para) + [IntText(toolType), IntText(install)];
    SpliceOffsets();
    GroupReadsAtPrefixSum(f, ToolSchema(doubles), groups, 2, 0);
    GroupReadsAtPrefixSum(f, ToolSchema(doubles), groups, 3, 0);
    ReadInt(toolType);
    ReadInt(install);
  }

  /** The spliced handlers pop an empty list exactly when fewer than seven (for the collision
      levels, six) fields were given and everything present converts. */
  lemma SpliceUnderflow(para: string, a: string, b: string, doubles: bool)
    ensures var f, convs := Fields(para) + [a, b], Flat(ToolSchema(doubles));
            ReadAll(f, convs).Undefined? <==>
            |Fields(para)| < 7 && forall i :: 0 <= i < |f| ==> Convert(convs[i], f[i]).Done?
    ensures var f, convs := [a] + Fields(para) + [b], Flat(ANTICOLLISION);
            ReadAll(f, convs).Undefined? <==>
            |Fields(para)| < 6 && forall i :: 0 <= i < |f| ==> Convert(convs[i], f[i]).Done?
  {
    hide Convert, ReadAll, Flat, ToolSchema;
    FlatLength(ToolSchema(doubles));
    FlatLength(ANTICOLLISION);
    SpliceTotals(doubles);
    ReadAllUndefined(Fields(para) + [a, b], Flat(ToolSchema(doubles)));
    ReadAllUndefined([a] + Fields(para) + [b], Flat(ANTICOLLISION));
  }

  /** Which fields of the spliced handlers are integers. */
  lemma SpliceKinds(doubles: bool, i: nat)
    requires i < 8
    ensures |Flat(ToolSchema(doubles))| == 9 && |Flat(ANTICOLLISION)| == 8
    ensures Flat(ToolSchema(doubles))[i].AsInt? <==> i == 0 || (i == 7 && !doubles)
    ensures Flat(ToolSchema(doubles))[8].AsInt? <==> !doubles
    ensures Flat(ANTICOLLISION)[i].AsInt? <==> i == 0 || i == 7
  {
    hide Flat;
    var conv := if doubles then AsReal else AsInt;
    var id, pose, end := [Group(AsInt, 1)], [Group(AsReal, 6)], [Group(conv, 1), Group(conv, 1)];
    assert ToolSchema(doubles) == id + (pose + end) && ANTICOLLISION == id + (pose + id);
    OneGroup(AsInt, 1);
    OneGroup(AsReal, 6);
    TwoGroups(conv, 1, 1);
    FlatAppend(id, pose + end);
    FlatAppend(pose, end);
    FlatAppend(id, pose + id);
    FlatAppend(pose, id);
  }

  lemma SpliceTotals(doubles: bool)
    ensures Total(ToolSchema(doubles)) == 9 && Total(ANTICOLLISION) == 8
    ensures |Flat(ToolSchema(doubles))| == 9 && |Flat(ANTICOLLISION)| == 8
  {
    FlatLength(ToolSchema(doubles));
    FlatLength(ANTICOLLISION);
  }

  lemma CollisionDefaults(para: string, mode: int, config: int, groups: seq<seq<Value>>)
    requires INT_MIN <= mode <= INT_MAX && INT_MIN <= config <= INT_MAX
    requires GroupShape(groups, ANTICOLLISION)
    requires ReadAll([IntText(mode)] + Fields(para) + [IntText(config)], Flat(ANTICOLLISION)) == Done(Concat(groups))
    ensures |Fields(para)| >= 6 && groups[0] == [I(mode)]
    ensures |Fields(para)| == 6 ==> groups[2] == [I(config)]
    ensures |Fields(para)| > 6 ==> Done(groups[2][0]) == Convert(AsInt, Fields(para)[6])
  {
    hide IntText, ReadAll, Flat, Concat, StoI;
    var f := [IntText(mode)] + Fields(para) + [IntText(config)];
    SpliceOffsets();
    GroupReadsAtPrefixSum(f, ANTICOLLISION, groups, 0, 0);
    GroupReadsAtPrefixSum(f, ANTICOLLISION, groups, 2, 0);
    ReadInt(mode);
    ReadInt(config);
  }

  lemma SpliceOffsets()
    ensures Offset(TOOL_COORD, 2) == 7 && Offset(TOOL_COORD, 3) == 8
    ensures Offset(TOOL_LIST, 2) == 7 && Offset(TOOL_LIST, 3) == 8
    ensures Offset(ANTICOLLISION, 0) == 0 && Offset(ANTICOLLISION, 2) == 7
  {
  }

  lemma ReadInt(i: int)
    requires INT_MIN <= i <= INT_MAX
    ensures StoI(IntText(i)) == Done(i)
  {
    hide ScanInt, IntText;
    ScanIntText(i);
  }
}
