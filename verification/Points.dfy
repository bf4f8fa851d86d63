/** The taught-point lists: the texts of `JNTPoint`, `CARTPoint` and `GET`. */
module Points {
  import opened Outcomes
  import opened CommaText
  import opened Numbers

  /** Six coordinates: a JointPos, or the three translations and three angles of a DescPose. */
  type Point = p: seq<Num> | |p| == 6 witness [ZERO, ZERO, ZERO, ZERO, ZERO, ZERO]

  datatype DescTran = DescTran(x: Num, y: Num, z: Num)
  datatype Rpy = Rpy(rx: Num, ry: Num, rz: Num)
  datatype DescPose = DescPose(tran: DescTran, rpy: Rpy) {
    function Coords(): Point {
      [tran.x, tran.y, tran.z, rpy.rx, rpy.ry, rpy.rz]
    }
  }

  function PoseOf(p: Point): (pose: DescPose)
    ensures pose.Coords() == p
  {
    DescPose(DescTran(p[0], p[1], p[2]), Rpy(p[3], p[4], p[5]))
  }

  /** The character filter `[\d.\-,]*` of both definition commands. */
  predicate PointText(s: string) {
    forall i :: 0 <= i < |s| ==> IsDigit(s[i]) || s[i] == '.' || s[i] == '-' || s[i] == ','
  }

  datatype Definition = Rejected | Accepted(index: nat, coords: Point)

  /** What a definition text means to a list of `size` points. */
  function ReadDefinition(text: string, size: nat): Definition {
    var f := Split(text);
    if !PointText(text) || |f| != 7 then Rejected
    else
      var index := AtoLAsInt(f[0]);
      if 1 <= index <= size + 1 then Accepted(index, CoordsIn(f, 1)) else Rejected
  }

  /** Six consecutive fields as `atof` reads them. */
  function CoordsIn(f: seq<string>, start: nat): Point
    requires start + 6 <= |f|
  {
    [AtoF(f[start]), AtoF(f[start + 1]), AtoF(f[start + 2]), AtoF(f[start + 3]), AtoF(f[start + 4]), AtoF(f[start + 5])]
  }

  /** Overwrite entry `index`, or append when it is one past the end. */
  function Put<T>(list: seq<T>, index: nat, value: T): (r: seq<T>)
    requires 1 <= index <= |list| + 1
    ensures |r| == if index == |list| + 1 then |list| + 1 else |list|
    ensures forall i :: 0 <= i < |r| ==> r[i] == if i == index - 1 then value else list[i]
  {
    if index <= |list| then list[index - 1 := value] else list + [value]
  }

  /** The range test as compiled: the `int` index is converted to `size_t` for the first
      comparison and stays signed in the second. */
  predicate OutOfContainer(index: int, size: nat) {
    SizeT(index) > size + 1 || index <= 0
  }

  lemma MixedSignTest(index: int, size: nat)
    requires INT_MIN <= index <= INT_MAX && size <= INT_MAX
    ensures OutOfContainer(index, size) <==> !(1 <= index <= size + 1)
  {
    IndexConversions(index);
  }

  lemma IndexConversions(index: int)
    requires INT_MIN <= index <= INT_MAX
    ensures index >= 0 ==> SizeT(index) == index
    ensures index >= 1 ==> SizeT(index - 1) == index - 1
    ensures index <= 0 ==> SizeT(index - 1) > INT_MAX
    ensures index < 0 ==> SizeT(index) > INT_MAX
  {
    if index < 0 {
      assert index % 0x1_0000_0000_0000_0000 == index + 0x1_0000_0000_0000_0000;
    }
    if index <= 0 {
      assert (index - 1) % 0x1_0000_0000_0000_0000 == index - 1 + 0x1_0000_0000_0000_0000;
    }
  }

  function CoordTexts(p: Point): seq<string> {
    seq(6, i requires 0 <= i < 6 => ToText(p[i]))
  }

  /** The reply of `GET`: six printed doubles separated by commas. */
  function Reply(p: Point): string {
    Join(CoordTexts(p))
  }

  lemma JoinSix(a: string, b: string, c: string, d: string, e: string, f: string)
    ensures Join([a, b, c, d, e, f]) == a + "," + b + "," + c + "," + d + "," + e + "," + f
  {
    JoinAppend([a], b);
    JoinAppend([a] + [b], c);
    JoinAppend([a] + [b] + [c], d);
    JoinAppend([a] + [b] + [c] + [d], e);
    JoinAppend([a] + [b] + [c] + [d] + [e], f);
    assert [a, b, c, d, e, f] == [a] + [b] + [c] + [d] + [e] + [f];
    assert Join([a]) == a;
  }

  lemma ReplyConcat(p: Point)
    ensures Reply(p) == ToText(p[0]) + "," + ToText(p[1]) + "," + ToText(p[2]) + "," +
                        ToText(p[3]) + "," + ToText(p[4]) + "," + ToText(p[5])
  {
    hide ToText, Join;
    JoinSix(ToText(p[0]), ToText(p[1]), ToText(p[2]), ToText(p[3]), ToText(p[4]), ToText(p[5]));
    assert CoordTexts(p) == [ToText(p[0]), ToText(p[1]), ToText(p[2]), ToText(p[3]), ToText(p[4]), ToText(p[5])];
  }

  /** The pattern `([A-Z]*),([0-9]*)` of `GET`. */
  function ParseGet(text: string): Option<(string, string)> {
    var c := FirstComma(text);
    if c < |text| && (forall i :: 0 <= i < c ==> 'A' <= text[i] <= 'Z') && AllDigits(text[c + 1..])
    then Some((text[..c], text[c + 1..]))
    else None
  }

  /** `GET` on success; every other path leaves the function without a return value. */
  function GetPoint(jnt: seq<Point>, cart: seq<Point>, text: string): Outcome<Point> {
    match ParseGet(text)
    case None => Undefined
    case Some((letters, digits)) =>
      var index := AtoLAsInt(digits);
      var list := if letters == "JNT" then jnt else if letters == "CART" then cart else [];
      if 1 <= index <= |list| then Done(list[index - 1]) else Undefined
  }

  function Rounded(p: Point): Point {
    seq(6, i requires 0 <= i < 6 => Round6(p[i]))
  }

  predicate PointMicroExact(p: Point) {
    forall i :: 0 <= i < 6 ==> MicroExact(p[i])
  }

  /** A definition is accepted exactly when its characters are allowed, it has six commas
      (seven when it ends with one) and its index is at most one past the end. */
  lemma AcceptedExactly(text: string, size: nat)
    ensures ReadDefinition(text, size).Accepted? <==>
            && (forall i :: 0 <= i < |text| ==> text[i] in "0123456789.-,")
            && Commas(text) == (if EndsWithComma(text) then 7 else 6)
            && 1 <= AtoLAsInt(Split(text)[0]) <= size + 1
  {
    hide AtoLAsInt, Split, CoordsIn;
    SplitCount(text);
    assert forall c: char :: IsDigit(c) <==> c in "0123456789" by { DigitsListed(); }
    assert PointText(text) <==> forall i :: 0 <= i < |text| ==> text[i] in "0123456789.-,";
  }

  lemma DigitsListed()
    ensures forall c: char :: IsDigit(c) <==> c in "0123456789"
  {
  }

  /** Index texts that differ by 2^32 name the same entry. */
  lemma IndexAliases(v: nat)
    requires v + 0x1_0000_0000 <= LONG_MAX
    ensures AtoLAsInt(Dec(v + 0x1_0000_0000)) == AtoLAsInt(Dec(v))
  {
    hide Dec, ScanInt;
    DecValue(v);
    DecValue(v + 0x1_0000_0000);
    ScanDigits(Dec(v));
    ScanDigits(Dec(v + 0x1_0000_0000));
    assert (v + 0x1_0000_0000 - INT_MIN) % 0x1_0000_0000 == (v - INT_MIN) % 0x1_0000_0000;
  }

  lemma ToTextShape(x: Num)
    ensures PointText(ToText(x)) && CommaFree(ToText(x)) && ToText(x) != ""
  {
  }

  lemma {:induction false} JoinPointText(fs: seq<string>)
    requires forall i :: 0 <= i < |fs| ==> PointText(fs[i])
    ensures PointText(Join(fs))
  {
    if |fs| > 1 {
      JoinPointText(fs[1..]);
    }
  }

  lemma CoordTextsShape(p: Point)
    ensures forall i :: 0 <= i < 6 ==>
              PointText(CoordTexts(p)[i]) && CommaFree(CoordTexts(p)[i]) && CoordTexts(p)[i] != ""
  {
    forall i | 0 <= i < 6
      ensures PointText(CoordTexts(p)[i]) && CommaFree(CoordTexts(p)[i]) && CoordTexts(p)[i] != ""
    {
      ToTextShape(p[i]);
      assert CoordTexts(p)[i] == ToText(p[i]);
    }
  }

  lemma SplitReply(i: nat, p: Point)
    ensures Split(Dec(i) + "," + Reply(p)) == [Dec(i)] + CoordTexts(p)
    ensures PointText(Dec(i) + "," + Reply(p))
  {
    var fs := [Dec(i)] + CoordTexts(p);
    assert fs[1..] == CoordTexts(p);
    CoordTextsShape(p);
    assert forall k :: 1 <= k < 7 ==> fs[k] == CoordTexts(p)[k - 1];
    JoinPointText(fs);
    SplitOfJoin(fs);
  }

  lemma IndexRead(i: nat)
    requires i <= INT_MAX
    ensures AtoLAsInt(Dec(i)) == i
  {
    DecValue(i);
    AtoLOfDigits(Dec(i));
  }

  lemma CoordsRead(p: Point, f: seq<string>, start: nat)
    requires start + 6 <= |f| && f[start..start + 6] == CoordTexts(p)
    ensures CoordsIn(f, start) == Rounded(p)
  {
    hide ToText, ScanReal, Round6;
    forall k | 0 <= k < 6
      ensures AtoF(f[start + k]) == Round6(p[k])
    {
      assert f[start + k] == f[start..start + 6][k];
      ReadPrinted(p[k]);
    }
  }

  lemma RoundedFacts(p: Point)
    ensures Rounded(p) == p <==> PointMicroExact(p)
    ensures Reply(Rounded(p)) == Reply(p)
  {
    hide ToText, Micros, Join;
    forall k | 0 <= k < 6 ensures ToText(Round6(p[k])) == ToText(p[k]) {
      PrintRounded(p[k]);
    }
    assert CoordTexts(Rounded(p)) == CoordTexts(p);
    assert forall k :: 0 <= k < 6 ==> (Rounded(p)[k] == p[k] <==> MicroExact(p[k]));
  }

  /** The text `i,` + reply is a definition of seven fields that sets entry `i` to the
      point rounded to six decimals. */
  lemma ReplyDefines(p: Point, i: nat, size: nat)
    requires 1 <= i <= size <= INT_MAX
    ensures ReadDefinition(Dec(i) + "," + Reply(p), size) == Accepted(i, Rounded(p))
  {
    hide ToText, Dec, ScanReal, Split, AtoLAsInt, PointText, Join;
    SplitReply(i, p);
    IndexRead(i);
    CoordsRead(p, [Dec(i)] + CoordTexts(p), 1);
  }

  /** `GET` and the definition command undo each other: redefining entry `i` with its own
      reply leaves the list unchanged exactly when the point has six decimals at most, and
      in every case the reply stays the same. */
  lemma GetThenDefine(list: seq<Point>, i: nat, d: Definition)
    requires 1 <= i <= |list| <= INT_MAX
    requires d == ReadDefinition(Dec(i) + "," + Reply(list[i - 1]), |list|)
    ensures d.Accepted? && d.index == i
    ensures Put(list, i, d.coords) == list <==> PointMicroExact(list[i - 1])
    ensures Reply(d.coords) == Reply(list[i - 1])
  {
    hide Dec, Reply, ReadDefinition, Rounded, MicroExact;
    var p := list[i - 1];
    ReplyDefines(p, i, |list|);
    RoundedFacts(p);
    assert Put(list, i, Rounded(p))[i - 1] == Rounded(p);
    if Rounded(p) == p {
      assert Put(list, i, p) == list;
    }
  }

  /** Conversely `GET` after an accepted definition replies with the values just given. */
  lemma DefineThenGet(list: seq<Point>, other: seq<Point>, text: string)
    requires |list| <= INT_MAX && ReadDefinition(text, |list|).Accepted?
    ensures var d := ReadDefinition(text, |list|);
            && GetPoint(Put(list, d.index, d.coords), other, "JNT," + Dec(d.index)) == Done(d.coords)
            && GetPoint(other, Put(list, d.index, d.coords), "CART," + Dec(d.index)) == Done(d.coords)
  {
    hide Dec, Split, AtoLAsInt, AtoF, PointText;
    var d := ReadDefinition(text, |list|);
    var digits := Dec(d.index);
    IndexRead(d.index);
    assert "JNT," + digits == "JNT" + "," + digits && "CART," + digits == "CART" + "," + digits;
    GetText("JNT", digits);
    GetText("CART", digits);
  }

  /** `GET` answers exactly the texts `JNT,` and `CART,` followed by digits that name an entry
      of that list, and answers with that entry. */
  lemma GetExactly(jnt: seq<Point>, cart: seq<Point>, text: string, p: Point)
    ensures GetPoint(jnt, cart, text) == Done(p) <==>
            exists ds :: AllDigits(ds) &&
                         ((text == "JNT" + "," + ds && Names(jnt, AtoLAsInt(ds), p))
                          || (text == "CART" + "," + ds && Names(cart, AtoLAsInt(ds), p)))
  {
    hide AtoLAsInt, ParseGet;
    if ParseGet(text).Some? {
      GetParts(text);
      var (letters, digits) := ParseGet(text).value;
    }
    forall ds | AllDigits(ds) && text == "JNT" + "," + ds
      ensures ParseGet(text) == Some(("JNT", ds))
    {
      GetText("JNT", ds);
    }
    forall ds | AllDigits(ds) && text == "CART" + "," + ds
      ensures ParseGet(text) == Some(("CART", ds))
    {
      GetText("CART", ds);
    }
  }

  predicate Names(list: seq<Point>, index: int, p: Point) {
    1 <= index <= |list| && list[index - 1] == p
  }

  lemma GetParts(text: string)
    requires ParseGet(text).Some?
    ensures var (letters, digits) := ParseGet(text).value; text == letters + "," + digits && AllDigits(digits)
  {
  }

  lemma GetText(letters: string, digits: string)
    requires AllDigits(digits) && forall i :: 0 <= i < |letters| ==> 'A' <= letters[i] <= 'Z'
    ensures ParseGet(letters + "," + digits) == Some((letters, digits))
  {
    var text := letters + "," + digits;
    assert text[..|letters|] == letters && text[|letters| + 1..] == digits;
    FirstCommaAt(text, |letters|);
  }
}
