/** The comma splitter of the command server: `std::regex_token_iterator` over "," with
    submatch -1, and the loop that collects its tokens. */
module CommaText {

  predicate CommaFree(s: string) {
    ',' !in s
  }

  predicate AllCommaFree(fs: seq<string>) {
    forall i :: 0 <= i < |fs| ==> CommaFree(fs[i])
  }

  /** Position of the first comma, or the length when there is none. */
  function FirstComma(s: string): (c: nat)
    ensures c <= |s| && CommaFree(s[..c])
    ensures c < |s| ==> s[c] == ','
  {
    if s == "" || s[0] == ',' then 0 else 1 + FirstComma(s[1..])
  }

  /** Every field of `s`, trailing empty ones included. */
  function Fields(s: string): (fs: seq<string>)
    ensures |fs| > 0 && AllCommaFree(fs)
  {
    var c := FirstComma(s);
    if c == |s| then [s] else [s[..c]] + Fields(s[c + 1..])
  }

  function Join(fs: seq<string>): string {
    if |fs| == 0 then "" else if |fs| == 1 then fs[0] else fs[0] + "," + Join(fs[1..])
  }

  function Commas(s: string): nat {
    if s == "" then 0 else (if s[0] == ',' then 1 else 0) + Commas(s[1..])
  }

  predicate EndsWithComma(s: string) {
    s != "" && s[|s| - 1] == ','
  }

  /** What the token loop yields: all fields, except one empty field at the very end. */
  function Split(s: string): (fs: seq<string>)
    ensures |fs| > 0 && AllCommaFree(fs)
  {
    var fs := Fields(s);
    if |fs| > 1 && fs[|fs| - 1] == "" then fs[..|fs| - 1] else fs
  }

  lemma FirstCommaAt(s: string, c: nat)
    requires c <= |s| && CommaFree(s[..c])
    requires c < |s| ==> s[c] == ','
    ensures FirstComma(s) == c
  {
    if c > 0 {
      assert s[0] == s[..c][0];
      assert s[1..][..c - 1] == s[..c][1..];
      FirstCommaAt(s[1..], c - 1);
    }
  }

  // ---- Fields and Join are inverse to each other ----

  /** The fields by any comma that ends a comma-free prefix. */
  lemma FieldsAt(s: string, c: nat)
    requires c <= |s| && CommaFree(s[..c])
    requires c < |s| ==> s[c] == ','
    ensures Fields(s) == if c == |s| then [s] else [s[..c]] + Fields(s[c + 1..])
  {
    FirstCommaAt(s, c);
  }

  lemma JoinCons(f: string, fs: seq<string>)
    ensures Join([f] + fs) == if fs == [] then f else f + "," + Join(fs)
  {
    assert ([f] + fs)[1..] == fs;
  }

  lemma {:induction false} JoinFields(s: string)
    ensures Join(Fields(s)) == s
  {
    hide FirstComma, Fields, Join;
    var c := FirstComma(s);
    FieldsAt(s, c);
    if c < |s| {
      JoinCons(s[..c], Fields(s[c + 1..]));
      JoinFields(s[c + 1..]);
      assert s == s[..c] + "," + s[c + 1..];
    } else {
      JoinCons(s, []);
      assert [s] + [] == [s];
    }
  }

  lemma CutAtComma(a: string, b: string, c: nat)
    requires c <= |a| && (c < |a| ==> a[c] == ',')
    ensures var s := a + "," + b;
            && s[..c] == a[..c] && s[c] == ','
            && s[c + 1..] == if c == |a| then b else a[c + 1..] + "," + b
  {
  }

  lemma {:induction false} FieldsJoin(fs: seq<string>)
    requires |fs| > 0 && AllCommaFree(fs)
    ensures Fields(Join(fs)) == fs
  {
    hide FirstComma, Fields, Join;
    var f, rest := fs[0], fs[1..];
    assert fs == [f] + rest;
    JoinCons(f, rest);
    assert CommaFree(f) && f[..|f|] == f;
    if rest == [] {
      FieldsAt(f, |f|);
      assert [f] + rest == [f];
    } else {
      assert AllCommaFree(rest);
      CutAtComma(f, Join(rest), |f|);
      FieldsAt(Join(fs), |f|);
      FieldsJoin(rest);
    }
  }

  lemma FieldsOfOne(s: string)
    requires CommaFree(s)
    ensures Fields(s) == [s]
  {
    FirstCommaAt(s, |s|);
  }

  lemma {:induction false} FieldsAppend(a: string, b: string)
    ensures Fields(a + "," + b) == Fields(a) + Fields(b)
  {
    hide FirstComma, Fields, AllCommaFree;
    var c := FirstComma(a);
    CutAtComma(a, b, c);
    FieldsAt(a + "," + b, c);
    FieldsAt(a, c);
    if c < |a| {
      var rest := a[c + 1..];
      FieldsAppend(rest, b);
      assert [a[..c]] + (Fields(rest) + Fields(b)) == [a[..c]] + Fields(rest) + Fields(b);
    } else {
      assert a[..c] == a;
    }
  }

  lemma {:induction false} JoinAppend(fs: seq<string>, f: string)
    requires |fs| > 0
    ensures Join(fs + [f]) == Join(fs) + "," + f
  {
    if |fs| > 1 {
      assert (fs + [f])[1..] == fs[1..] + [f];
      JoinAppend(fs[1..], f);
    } else {
      assert (fs + [f])[1..] == [f];
    }
  }

  lemma {:induction false} FieldCount(s: string)
    ensures |Fields(s)| == Commas(s) + 1
  {
    hide FirstComma, Fields;
    var c := FirstComma(s);
    FieldsAt(s, c);
    CommasAround(s, c);
    if c < |s| {
      FieldCount(s[c + 1..]);
    }
  }

  lemma {:induction false} CommasAround(s: string, c: nat)
    requires c <= |s| && CommaFree(s[..c]) && (c < |s| ==> s[c] == ',')
    ensures Commas(s) == if c < |s| then 1 + Commas(s[c + 1..]) else 0
    decreases c
  {
    if c == 0 {
    } else {
      assert s[0] == s[..c][0];
      assert s[1..][..c - 1] == s[..c][1..];
      if c < |s| {
        assert s[1..][c..] == s[c + 1..];
      }
      CommasAround(s[1..], c - 1);
    }
  }

  lemma {:induction false} LastFieldEmpty(s: string)
    ensures |Fields(s)| > 1 && Fields(s)[|Fields(s)| - 1] == "" <==> EndsWithComma(s)
  {
    hide FirstComma, Fields;
    var c := FirstComma(s);
    FieldsAt(s, c);
    if c < |s| {
      var t := s[c + 1..];
      LastFieldEmpty(t);
      FieldsAt(t, FirstComma(t));
      if t != "" {
        assert t[|t| - 1] == s[|s| - 1];
      }
      FieldsAt("", 0);
    } else if s != "" {
      assert s[|s| - 1] == s[..c][|s| - 1];
    }
  }

  // ---- Main results about the splitter ----

  /** Joining the tokens gives back the text up to one trailing comma, and the tokens are
      the only nonempty comma-free list with that property. */
  lemma SplitCharacterised(s: string, fs: seq<string>)
    requires |fs| > 0
    ensures fs == Split(s) <==>
            AllCommaFree(fs) && Join(fs) == if EndsWithComma(s) then s[..|s| - 1] else s
  {
    hide Fields, Join;
    var all := Fields(s);
    JoinFields(s);
    LastFieldEmpty(s);
    if EndsWithComma(s) {
      JoinAppend(all[..|all| - 1], "");
      assert all == all[..|all| - 1] + [""];
      assert Join(Split(s)) + "," == s;
    }
    if AllCommaFree(fs) {
      FieldsJoin(fs);
    }
    FieldsJoin(Split(s));
  }

  lemma SplitCount(s: string)
    ensures |Split(s)| == Commas(s) + 1 - (if EndsWithComma(s) then 1 else 0)
  {
    FieldCount(s);
    LastFieldEmpty(s);
  }

  lemma SplitOfJoin(fs: seq<string>)
    requires |fs| > 0 && AllCommaFree(fs) && (|fs| == 1 || fs[|fs| - 1] != "")
    ensures Split(Join(fs)) == fs
  {
    FieldsJoin(fs);
  }

  // ---- The iterator and the loop ----

  /** The token before the first comma, then the tokens after it. */
  lemma SplitStep(s: string, token: string, tail: string)
    requires s == token + "," + tail && CommaFree(token)
    ensures Split(s) == [token] + if tail == "" then [] else Split(tail)
  {
    hide FirstComma, Fields;
    var c := |token|;
    assert s[..c] == token && s[c + 1..] == tail;
    FieldsAt(s, c);
    var rest := Fields(tail);
    if tail == "" {
      FieldsAt(tail, 0);
    } else if |rest| == 1 {
      JoinFields(tail);
    }
  }

  lemma SplitLast(s: string)
    requires CommaFree(s)
    ensures Split(s) == [s]
  {
    FieldsOfOne(s);
  }

  datatype TokenKind = Prefix | Suffix | End

  /** A `regex_token_iterator` value: the current token is `text[start..stop]`. A `Prefix`
      token ends at a separator match, the `Suffix` token at the end of the text. */
  datatype TokenIter = TokenIter(text: string, start: nat, stop: nat, kind: TokenKind) {

    ghost predicate Valid() {
      && start <= stop <= |text|
      && CommaFree(text[start..stop])
      && (kind.Prefix? ==> stop < |text| && text[stop] == ',')
      && (kind.Suffix? ==> stop == |text|)
    }

    /** The tokens still to come, the current one first. */
    ghost function Rest(): seq<string>
      requires Valid()
    {
      if kind.End? then [] else Split(text[start..])
    }

    function Str(): string
      requires Valid() && !kind.End?
    {
      text[start..stop]
    }

    /** `++`: after the last separator a suffix token is produced only if it is nonempty. */
    function Next(): (n: TokenIter)
      requires Valid() && !kind.End?
      ensures n.Valid() && n.text == text
    {
      if kind.Suffix? || stop + 1 == |text| then TokenIter(text, start, stop, End)
      else FromPosition(text, stop + 1)
    }

    lemma NextRest()
      requires Valid() && !kind.End?
      ensures Rest() == [Str()] + Next().Rest()
    {
      hide Split, FirstComma;
      if kind.Prefix? {
        assert text[start..] == Str() + "," + text[stop + 1..];
        SplitStep(text[start..], Str(), text[stop + 1..]);
      } else {
        assert text[start..] == Str();
        SplitLast(text[start..]);
      }
    }

    /** The iterator at position `i` of the tokens `f`. */
    lemma At(f: seq<string>, i: nat)
      requires Valid() && i <= |f| && Rest() == f[i..]
      ensures kind.End? <==> i == |f|
      ensures !kind.End? ==> Str() == f[i] && Next().Rest() == f[i + 1..]
    {
      hide Split, FirstComma;
      if !kind.End? {
        NextRest();
        assert Rest()[1..] == Next().Rest();
      }
    }

    static function FromPosition(text: string, start: nat): (n: TokenIter)
      requires start <= |text|
      ensures n.Valid() && n.text == text && !n.kind.End? && n.start == start
    {
      var c := FirstComma(text[start..]);
      assert text[start..][..c] == text[start..start + c];
      TokenIter(text, start, start + c, if start + c < |text| then Prefix else Suffix)
    }

    static function Begin(text: string): (n: TokenIter)
      ensures n.Valid() && n.text == text && n.Rest() == Split(text) && !n.kind.End?
    {
      assert text[0..] == text;
      FromPosition(text, 0)
    }
  }

  /** One pass of the token loop. */
  lemma TokenTaken(list: seq<string>, iter: TokenIter, all: seq<string>)
    requires iter.Valid() && !iter.kind.End? && list + iter.Rest() == all
    ensures list + [iter.Str()] + iter.Next().Rest() == all
    ensures |iter.Rest()| == 1 + |iter.Next().Rest()|
  {
    hide Split, FirstComma;
    iter.NextRest();
    assert list + [iter.Str()] + iter.Next().Rest() == list + ([iter.Str()] + iter.Next().Rest());
  }

  method SplitString2List(str: string) returns (list: seq<string>)
    ensures list == Split(str)
  {
    hide Split, FirstComma;
    list := [];
    var iter := TokenIter.Begin(str);
    while !iter.kind.End?
      invariant iter.Valid()
      invariant list + iter.Rest() == Split(str)
      decreases |iter.Rest()|
    {
      TokenTaken(list, iter, Split(str));
      list := list + [iter.Str()];
      iter := iter.Next();
    }
  }
}
