/** From the controller's reply to a package and a library name. */
module VersionName {
  import opened Outcomes
  import opened Numbers

  /** A match of the pattern `v([^,]+),V` from `i` to the comma at `j`. */
  predicate VersionAt(s: string, i: nat, j: nat) {
    && i + 1 < j && j + 1 < |s|
    && s[i] == 'v' && s[j] == ',' && s[j + 1] == 'V'
    && ',' !in s[i + 1..j]
  }

  /** The search returns the leftmost match, and finds one whenever there is any. */
  method FindVersion(resp: string) returns (found: Option<string>, i: nat, j: nat)
    ensures match found
            case Some(ver) =>
              VersionAt(resp, i, j) && ver == resp[i..j] && forall m: nat, n: nat :: m < i ==> !VersionAt(resp, m, n)
            case None => forall m: nat, n: nat :: !VersionAt(resp, m, n)
  {
    var start := 0;
    while start < |resp|
      invariant start <= |resp|
      invariant forall m: nat, n: nat :: m < start ==> !VersionAt(resp, m, n)
    {
      if resp[start] == 'v' {
        var stop := start + 1;
        while stop < |resp| && resp[stop] != ','
          invariant start < stop <= |resp|
          invariant ',' !in resp[start + 1..stop]
        {
          stop := stop + 1;
        }
        if start + 1 < stop && stop + 1 < |resp| && resp[stop + 1] == 'V' {
          return Some("v" + resp[start + 1..stop]), start, stop;
        }
        forall n: nat | VersionAt(resp, start, n)
          ensures n == stop
        {
          RunEnds(resp, start, stop, n);
        }
      }
      start := start + 1;
    }
    return None, 0, 0;
  }

  /** The run of a match is maximal, so a match is determined by where it starts. */
  lemma RunEnds(s: string, i: nat, stop: nat, j: nat)
    requires VersionAt(s, i, j) && i < stop <= |s| && ',' !in s[i + 1..stop]
    requires stop < |s| ==> s[stop] == ','
    ensures j == stop
  {
    assert forall k :: i + 1 <= k < stop ==> s[k] == s[i + 1..stop][k - i - 1];
    assert forall k :: i + 1 <= k < stop ==> s[k] != ',';
    assert forall k :: i + 1 <= k < j ==> s[k] == s[i + 1..j][k - i - 1];
    assert forall k :: i + 1 <= k < j ==> s[k] != ',';
  }

  lemma MatchUnique(s: string, i: nat, j: nat, k: nat)
    requires VersionAt(s, i, j) && VersionAt(s, i, k)
    ensures j == k
  {
    RunEnds(s, i, j, k);
  }

  // ---- Package name ----

  function Dotless(s: string): (r: string)
    ensures |r| == |s| && forall i :: 0 <= i < |s| ==> r[i] == if s[i] == '.' then '_' else s[i]
  {
    seq(|s|, i requires 0 <= i < |s| => if s[i] == '.' then '_' else s[i])
  }

  /** The replacement loop, in place. */
  method ReplaceDots(ver: array<char>)
    modifies ver
    ensures ver[..] == Dotless(old(ver[..]))
  {
    for k := 0 to ver.Length
      invariant forall i :: 0 <= i < k ==> ver[i] == if old(ver[i]) == '.' then '_' else old(ver[i])
      invariant forall i :: k <= i < ver.Length ==> ver[i] == old(ver[i])
    {
      if ver[k] == '.' {
        ver[k] := '_';
      }
    }
  }

  function PackageName(ver: string): string {
    "fairino_hardware_" + Dotless(ver)
  }

  /** Two versions select the same package exactly when they agree up to exchanging dots
      and underscores; so versions without underscores select different packages. */
  lemma SamePackage(a: string, b: string)
    ensures PackageName(a) == PackageName(b) <==>
            |a| == |b| && forall i :: 0 <= i < |a| ==> a[i] == b[i] || (a[i] in "._" && b[i] in "._")
    ensures '_' !in a && '_' !in b && PackageName(a) == PackageName(b) ==> a == b
  {
    var k := |"fairino_hardware_"|;
    assert PackageName(a)[k..] == Dotless(a) && PackageName(b)[k..] == Dotless(b);
    if Dotless(a) == Dotless(b) {
      assert forall i :: 0 <= i < |a| ==> Dotless(a)[i] == Dotless(b)[i];
    } else if |a| == |b| {
      assert exists i :: 0 <= i < |a| && Dotless(a)[i] != Dotless(b)[i];
    }
  }

  // ---- Library name ----

  /** `ver[i]` of a std::string: the terminator at the end, undefined beyond. */
  function CodeAt(ver: string, i: nat): Outcome<int> {
    if i < |ver| then Done(ver[i] as int) else if i == |ver| then Done(0) else Undefined
  }

  function LibraryText(a: int, b: int): string {
    "libfairino.so.2." + IntText(a) + "." + IntText(b)
  }

  /** The library is named after the characters 3 and 5 of the version. */
  function LibraryName(ver: string): Outcome<string> {
    var second :- CodeAt(ver, 3);
    var third :- CodeAt(ver, 5);
    Done(LibraryText(second - '0' as int - 6, third - '0' as int))
  }

  function VersionText(major: nat, minor: nat, patch: nat, suffix: string): string {
    "v" + Dec(major) + "." + Dec(minor) + "." + Dec(patch) + suffix
  }

  lemma {:induction false} FirstDigit(n: nat)
    ensures Dec(n)[0] as int - '0' as int == n <==> n < 10
    ensures 0 <= Dec(n)[0] as int - '0' as int < 10
  {
    if n >= 10 {
      FirstDigit(n / 10);
      assert Dec(n)[0] == Dec(n / 10)[0];
    }
  }

  lemma IntTextInjective(x: int, y: int)
    ensures IntText(x) == IntText(y) ==> x == y
  {
    hide ScanInt, IntText;
    ScanIntText(x);
    ScanIntText(y);
  }

  lemma IntTextNoDot(x: int)
    ensures '.' !in IntText(x)
  {
    hide Dec;
  }

  lemma DotSplit(p: string, q: string, r: string, s: string)
    requires '.' !in p && '.' !in r && p + "." + q == r + "." + s
    ensures p == r && q == s
  {
    var t := p + "." + q;
    assert t[|p|] == '.' && t[|r|] == '.';
    assert forall k :: 0 <= k < |p| ==> t[k] == p[k] && t[k] != '.';
    assert forall k :: 0 <= k < |r| ==> t[k] == r[k] && t[k] != '.';
    assert |p| == |r|;
    assert t[..|p|] == p && t[..|r|] == r && t[|p| + 1..] == q && t[|r| + 1..] == s;
  }

  lemma LibraryInjective(a: int, b: int, c: int, d: int)
    ensures LibraryText(a, b) == LibraryText(c, d) <==> a == c && b == d
  {
    hide IntText;
    var head := "libfairino.so.2.";
    if LibraryText(a, b) == LibraryText(c, d) {
      assert LibraryText(a, b)[|head|..] == IntText(a) + "." + IntText(b);
      assert LibraryText(c, d)[|head|..] == IntText(c) + "." + IntText(d);
      IntTextNoDot(a);
      IntTextNoDot(c);
      DotSplit(IntText(a), IntText(b), IntText(c), IntText(d));
      IntTextInjective(a, c);
      IntTextInjective(b, d);
    }
  }

  function CodeValue(c: char): int {
    c as int - '0' as int
  }

  /** When characters 3 and 5 spell the minor and the patch number. The name is meant for
      one-digit numbers; with a longer major number the two positions fall on a separator,
      whose code counts as 47, or on other digits, and only coincidences are right. */
  predicate ReadRight(major: nat, minor: nat, patch: nat) {
    var d := Dec(major);
    if |d| == 1 then minor < 10 && patch < 10
    else if |d| == 2 then minor == 47 && patch == 7
    else if |d| == 3 then minor == CodeValue(d[2]) && patch == minor
    else if |d| == 4 then minor == CodeValue(d[2]) && patch == 47
    else minor == CodeValue(d[2]) && patch == CodeValue(d[4])
  }

  /** The library is 2.(minor - 6).patch exactly when the two positions are right, whatever
      follows the patch number; for a one-digit major version, exactly when minor and patch
      have one digit each. */
  lemma LibraryRight(major: nat, minor: nat, patch: nat, suffix: string)
    ensures LibraryName(Dotless(VersionText(major, minor, patch, suffix))) ==
            Done("libfairino.so.2." + IntText(minor - 6) + "." + IntText(patch)) <==>
            ReadRight(major, minor, patch)
  {
    assert LibraryText(minor - 6, patch) == "libfairino.so.2." + IntText(minor - 6) + "." + IntText(patch);
    hide LibraryText, ReadRight;
    var ver := Dotless(VersionText(major, minor, patch, suffix));
    LibraryInjective(CodeValue(ver[3]) - 6, CodeValue(ver[5]), minor - 6, patch);
    CodesRight(major, minor, patch, suffix);
  }

  /** The name is read past the end of the version exactly when that has fewer than five
      characters; with five, the terminator stands for the patch number. */
  lemma LibraryReads(ver: string)
    ensures LibraryName(ver).Undefined? <==> |ver| < 5
    ensures |ver| >= 5 ==>
              var second, third := ver[3] as int - 48, if |ver| == 5 then -48 else ver[5] as int - 48;
              LibraryName(ver) == Done("libfairino.so.2." + IntText(second - 6) + "." + IntText(third))
  {
    hide IntText;
  }

  lemma CodesRight(major: nat, minor: nat, patch: nat, suffix: string)
    ensures var ver := Dotless(VersionText(major, minor, patch, suffix));
            |ver| > 5 && (CodeValue(ver[3]) == minor && CodeValue(ver[5]) == patch <==> ReadRight(major, minor, patch))
  {
    hide Dec;
    var d, text := Dec(major), VersionText(major, minor, patch, suffix);
    var ver := Dotless(text);
    FirstDigit(minor);
    FirstDigit(patch);
    assert text == "v" + (d + ("." + (Dec(minor) + ("." + (Dec(patch) + suffix)))));
    if |d| == 1 {
      assert text[3] == Dec(minor)[0];
      if minor < 10 {
        OneDigit(minor);
        assert text[5] == Dec(patch)[0];
      }
    } else if |d| == 2 {
      assert text[3] == '.';
      if minor == 47 {
        Dec47();
        assert text[5] == '7';
      }
    } else if |d| == 3 {
      assert text[3] == d[2] && text[5] == Dec(minor)[0];
    } else if |d| == 4 {
      assert text[3] == d[2] && text[5] == '.';
    } else {
      assert text[3] == d[2] && text[5] == d[4];
    }
  }

  lemma OneDigit(n: nat)
    requires n < 10
    ensures |Dec(n)| == 1
  {
  }

  lemma Dec47()
    ensures Dec(47) == "47"
  {
    assert Dec(4) == "4";
  }

  /** Characters 3 and 5 of the empty version lie beyond its end. */
  lemma NoVersion()
    ensures Dotless("") == "" && LibraryName("") == Undefined
  {
  }

  /** The reply handler: the library is only named when the package is installed. With no
      match the version stays empty, and if a package is installed under the bare prefix the
      name is read past its end. */
  method SelectPackage(resp: string, installed: set<string>) returns (pkg: string, lib: Option<Outcome<string>>)
    ensures forall i: nat, j: nat ::
              VersionAt(resp, i, j) && (forall m: nat, n: nat :: m < i ==> !VersionAt(resp, m, n)) ==>
                pkg == PackageName(resp[i..j]) &&
                lib == if pkg in installed then Some(LibraryName(Dotless(resp[i..j]))) else None
    ensures (forall i: nat, j: nat :: !VersionAt(resp, i, j)) ==>
              pkg == "fairino_hardware_" && lib == if pkg in installed then Some(Undefined) else None
  {
    NoVersion();
    hide LibraryName, VersionAt;
    var found, i, j := FindVersion(resp);
    var ver := if found.Some? then found.value else "";
    if found.Some? {
      forall n: nat | VersionAt(resp, i, n)
        ensures n == j
      {
        MatchUnique(resp, i, j, n);
      }
    }
    var chars := new char[|ver|](k requires 0 <= k < |ver| => ver[k]);
    assert chars[..] == ver;
    ReplaceDots(chars);
    var name := chars[..];
    pkg := "fairino_hardware_" + name;
    lib := if pkg in installed then Some(LibraryName(name)) else None;
  }
}
