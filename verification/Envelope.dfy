/** The request envelope `name(params)`: the regular expression
    "([A-Z|a-z|_|0-9]+)[(](.*)[)]" matched against the whole request. */
module Envelope {
  import opened Outcomes

  /** The character class of the name; the bars inside the brackets are literal. */
  predicate NameChar(c: char) {
    'A' <= c <= 'Z' || 'a' <= c <= 'z' || '0' <= c <= '9' || c == '_' || c == '|'
  }

  lemma NameChars(c: char)
    ensures NameChar(c) <==>
            c in "abcdefghijklmnopqrstuvwxyz" || c in "ABCDEFGHIJKLMNOPQRSTUVWXYZ" || c in "0123456789_|"
  {
  }

  predicate IsName(s: string) {
    s != "" && forall i :: 0 <= i < |s| ==> NameChar(s[i])
  }

  /** What `.*` can match: `.` excludes the line terminators. */
  predicate OneLine(s: string) {
    '\n' !in s && '\r' !in s
  }

  predicate IsCall(request: string, name: string, params: string) {
    IsName(name) && OneLine(params) && request == name + "(" + params + ")"
  }

  function NameRun(s: string): (k: nat)
    ensures k <= |s| && (k < |s| ==> !NameChar(s[k]))
    ensures forall i :: 0 <= i < k ==> NameChar(s[i])
  {
    if s == "" || !NameChar(s[0]) then 0
    else
      var k := 1 + NameRun(s[1..]);
      assert forall i :: 0 < i < k ==> s[i] == s[1..][i - 1];
      k
  }

  function ParseCall(request: string): Option<(string, string)> {
    var k, n := NameRun(request), |request|;
    if 0 < k && k + 1 < n && request[k] == '(' && request[n - 1] == ')' && OneLine(request[k + 1..n - 1])
    then Some((request[..k], request[k + 1..n - 1]))
    else None
  }

  /** A request has at most one reading, with the first `(` and the last `)`, and printing
      a call and parsing it gives it back whatever the parameters contain. */
  lemma ParseCallExact(request: string, name: string, params: string)
    ensures ParseCall(request) == Some((name, params)) <==> IsCall(request, name, params)
  {
    var k, n := NameRun(request), |request|;
    if IsCall(request, name, params) {
      assert request[..|name|] == name && request[|name| + 1..n - 1] == params;
      assert forall i :: 0 <= i < |name| ==> request[i] == name[i];
      assert forall i :: 0 <= i < |name| ==> NameChar(request[i]);
      assert !NameChar(request[|name|]);
    }
    if ParseCall(request) == Some((name, params)) {
      assert request == name + "(" + params + ")";
    }
  }

  lemma UnparsableRequest(request: string)
    ensures ParseCall(request) == None <==> forall name, params :: !IsCall(request, name, params)
  {
    forall name, params
      ensures ParseCall(request) == Some((name, params)) <==> IsCall(request, name, params)
    {
      ParseCallExact(request, name, params);
    }
    if ParseCall(request).Some? {
      var (name, params) := ParseCall(request).value;
      assert IsCall(request, name, params);
    }
  }
}
