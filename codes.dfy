/**
  Session codes as the user types them, and the storage keys derived from them
  (src/cities.js:5, 28-34, 248-251).

  A code is trimmed of surrounding white space and upper-cased before it is used,
  so that " ab12 " and "AB12" name the same session.
 */
module Codes {

  /** The prefix of every session key in the shared store. */
  const SessionPrefix: string := "evolve-mp-session-"

  /** The characters that String.prototype.trim removes: white space and line terminators. */
  predicate IsSpace(c: char)
  {
    c in SpaceChars
  }

  const SpaceChars: set<char> := {
    ' ', '\t', '\n', '\r', '\U{B}', '\U{C}', '\U{A0}', '\U{1680}',
    '\U{2000}', '\U{2001}', '\U{2002}', '\U{2003}', '\U{2004}', '\U{2005}',
    '\U{2006}', '\U{2007}', '\U{2008}', '\U{2009}', '\U{200A}',
    '\U{2028}', '\U{2029}', '\U{202F}', '\U{205F}', '\U{3000}', '\U{FEFF}'
  }

  predicate AllSpace(s: string)
  {
    forall i :: 0 <= i < |s| ==> IsSpace(s[i])
  }

  /** Neither end of `s` is white space: `s` is what trimming leaves. */
  predicate Bare(s: string)
  {
    s == [] || (!IsSpace(s[0]) && !IsSpace(s[|s| - 1]))
  }

  /** Drops the leading white space (TrimStartShape states what is left). */
  function TrimStart(s: string): string
  {
    if s != [] && IsSpace(s[0]) then TrimStart(s[1..]) else s
  }

  /** Drops the trailing white space (TrimEndShape states what is left). */
  function TrimEnd(s: string): string
  {
    if s != [] && IsSpace(s[|s| - 1]) then TrimEnd(s[..|s| - 1]) else s
  }

  function Trim(s: string): string
  {
    TrimEnd(TrimStart(s))
  }

  /** toUpperCase on one character; only the ASCII letters are mapped. */
  function UpperChar(c: char): char
  {
    if 'a' <= c <= 'z' then (c as int - 32) as char else c
  }

  predicate IsLower(c: char)
  {
    'a' <= c <= 'z'
  }

  /** toUpperCase, character by character (UpperShape). */
  function Upper(s: string): string
  {
    if s == [] then [] else [UpperChar(s[0])] + Upper(s[1..])
  }

  /** Trimming the start leaves the longest suffix that does not start with white space. */
  lemma {:induction false} TrimStartShape(s: string)
    ensures var r := TrimStart(s);
      && |r| <= |s| && r == s[|s| - |r|..]
      && AllSpace(s[..|s| - |r|])
      && (r == [] || !IsSpace(r[0]))
    decreases |s|
  {
    if s != [] && IsSpace(s[0]) {
      TrimStartShape(s[1..]);
      var r := TrimStart(s[1..]);
      assert s[..|s| - |r|] == [s[0]] + s[1..][..|s| - 1 - |r|];
    }
  }

  /** Trimming the end leaves the longest prefix that does not end with white space. */
  lemma {:induction false} TrimEndShape(s: string)
    ensures var r := TrimEnd(s);
      && |r| <= |s| && r == s[..|r|]
      && AllSpace(s[|r|..])
      && (r == [] || !IsSpace(r[|r| - 1]))
    decreases |s|
  {
    if s != [] && IsSpace(s[|s| - 1]) {
      TrimEndShape(s[..|s| - 1]);
      var r := TrimEnd(s[..|s| - 1]);
      assert s[|r|..] == s[..|s| - 1][|r|..] + [s[|s| - 1]];
    }
  }

  /** Upper-casing maps every character on its own and keeps the length. */
  lemma {:induction false} UpperShape(s: string)
    ensures |Upper(s)| == |s|
    ensures forall i :: 0 <= i < |s| ==> Upper(s)[i] == UpperChar(s[i])
    decreases |s|
  {
    if s != [] {
      UpperShape(s[1..]);
    }
  }

  /** normalizeCode: trim, then upper-case. */
  function Normalize(code: string): string
  {
    Upper(Trim(code))
  }

  /** sessionKey: the store key under which the session for `code` lives. */
  function SessionKey(code: string): string
  {
    SessionPrefix + Normalize(code)
  }

  /** The test the storage listener applies before it refreshes (src/cities.js:407). */
  predicate IsSessionKey(key: string)
  {
    SessionPrefix <= key
  }

  /** The decimal text of a natural number, as template interpolation prints it. */
  function DecimalString(n: nat): (r: string)
    ensures r != []
    ensures forall i :: 0 <= i < |r| ==> '0' <= r[i] <= '9'
  {
    var d := ['0', '1', '2', '3', '4', '5', '6', '7', '8', '9'][n % 10];
    if n < 10 then [d] else DecimalString(n / 10) + [d]
  }

  /** Upper-casing never creates or removes white space. */
  lemma UpperCharKeepsSpace(c: char)
    ensures IsSpace(UpperChar(c)) <==> IsSpace(c)
    ensures !IsLower(UpperChar(c))
    ensures UpperChar(UpperChar(c)) == UpperChar(c)
  {
  }

  /** Leading spaces are dropped and the trim stops at the first other character. */
  lemma {:induction false} TrimStartSkips(u: string, w: string)
    requires AllSpace(u)
    requires w == [] || !IsSpace(w[0])
    ensures TrimStart(u + w) == w
    decreases |u|
  {
    if u == [] {
      assert u + w == w;
    } else {
      assert (u + w)[1..] == u[1..] + w;
      TrimStartSkips(u[1..], w);
    }
  }

  /** Trailing spaces are dropped and the trim stops at the last other character. */
  lemma {:induction false} TrimEndSkips(w: string, v: string)
    requires AllSpace(v)
    requires w == [] || !IsSpace(w[|w| - 1])
    ensures TrimEnd(w + v) == w
    decreases |v|
  {
    if v == [] {
      assert w + v == w;
    } else {
      assert (w + v)[..|w + v| - 1] == w + v[..|v| - 1];
      TrimEndSkips(w, v[..|v| - 1]);
    }
  }

  /** Trimming a string made of spaces, a bare middle and spaces gives that middle back. */
  lemma TrimOf(u: string, m: string, v: string)
    requires AllSpace(u) && AllSpace(v) && Bare(m)
    ensures Trim(u + m + v) == m
  {
    if m == [] {
      assert u + m + v == (u + v) + [];
      assert AllSpace(u + v);
      TrimStartSkips(u + v, []);
    } else {
      assert u + m + v == u + (m + v);
      TrimStartSkips(u, m + v);
      TrimEndSkips(m, v);
    }
  }

  /** Trim finds where the padding ends on either side. */
  lemma TrimBounds(s: string) returns (a: nat, b: nat)
    ensures a <= b <= |s|
    ensures Trim(s) == s[a..b]
    ensures AllSpace(s[..a]) && AllSpace(s[b..]) && Bare(s[a..b])
  {
    var r := TrimStart(s);
    TrimStartShape(s);
    a := |s| - |r|;
    var e := TrimEnd(r);
    TrimEndShape(r);
    b := a + |e|;
    assert s[a..b] == e;
    assert s[b..] == r[|e|..];
    if e != [] {
      assert e[0] == r[0];
    }
  }

  /** The normal form is bare and holds no lower-case letter. */
  lemma NormalizeIsNormal(code: string)
    ensures Bare(Normalize(code))
    ensures forall i :: 0 <= i < |Normalize(code)| ==> !IsLower(Normalize(code)[i])
  {
    var a, b := TrimBounds(code);
    var t := Trim(code);
    UpperShape(t);
    if t != [] {
      UpperCharKeepsSpace(t[0]);
      UpperCharKeepsSpace(t[|t| - 1]);
    }
    forall i | 0 <= i < |t| ensures !IsLower(Normalize(code)[i]) {
      UpperCharKeepsSpace(t[i]);
    }
  }

  /** A bare, lower-case free code is its own normal form. */
  lemma NormalizeOfNormal(s: string)
    requires Bare(s)
    requires forall i :: 0 <= i < |s| ==> !IsLower(s[i])
    ensures Normalize(s) == s
  {
    assert [] + s + [] == s;
    TrimOf([], s, []);
    UpperOfUpper(s);
  }

  /** Upper-casing leaves a string without lower-case letters unchanged. */
  lemma UpperOfUpper(s: string)
    requires forall i :: 0 <= i < |s| ==> !IsLower(s[i])
    ensures Upper(s) == s
  {
    var r := Upper(s);
    UpperShape(s);
    assert forall i :: 0 <= i < |s| ==> r[i] == s[i];
  }

  /** Normalizing twice is normalizing once: a stored code looks itself up. */
  lemma NormalizeIdempotent(code: string)
    ensures Normalize(Normalize(code)) == Normalize(code)
  {
    NormalizeIsNormal(code);
    NormalizeOfNormal(Normalize(code));
  }

  /** Surrounding white space does not change which session a code names. */
  lemma NormalizeIgnoresPadding(p: string, code: string, q: string)
    requires AllSpace(p) && AllSpace(q)
    ensures Normalize(p + code + q) == Normalize(code)
  {
    TrimIgnoresPadding(p, code, q);
  }

  lemma TrimIgnoresPadding(p: string, code: string, q: string)
    requires AllSpace(p) && AllSpace(q)
    ensures Trim(p + code + q) == Trim(code)
  {
    var a, b := TrimBounds(code);
    var u, m, v := code[..a], code[a..b], code[b..];
    Split(code, a, b);
    AllSpaceConcat(p, u);
    AllSpaceConcat(v, q);
    Regroup(p, u, m, v, q);
    TrimOf(p + u, m, v + q);
  }

  lemma AllSpaceConcat(x: string, y: string)
    requires AllSpace(x) && AllSpace(y)
    ensures AllSpace(x + y)
  {
    forall i | 0 <= i < |x + y| ensures IsSpace((x + y)[i]) {
      if i < |x| { assert (x + y)[i] == x[i]; } else { assert (x + y)[i] == y[i - |x|]; }
    }
  }

  lemma Regroup(p: string, u: string, m: string, v: string, q: string)
    ensures p + (u + m + v) + q == (p + u) + m + (v + q)
  {
  }

  /** Two codes that agree except in the case of their letters. */
  predicate SameUpToCase(s: string, t: string)
  {
    |s| == |t| && forall i :: 0 <= i < |s| ==> UpperChar(s[i]) == UpperChar(t[i])
  }

  /** Letter case does not change which session a code names. */
  lemma NormalizeIgnoresCase(s: string, t: string)
    requires SameUpToCase(s, t)
    ensures Normalize(s) == Normalize(t)
  {
    var a, b := TrimBounds(s);
    SameUpToCaseParts(s, t, a, b);
    TrimSameUpToCase(s, t, a, b);
    UpperSameUpToCase(s[a..b], t[a..b]);
  }

  lemma SameUpToCaseParts(s: string, t: string, a: nat, b: nat)
    requires SameUpToCase(s, t) && a <= b <= |s|
    ensures SameUpToCase(s[..a], t[..a]) && SameUpToCase(s[a..b], t[a..b]) && SameUpToCase(s[b..], t[b..])
  {
    SameUpToCaseSlice(s, t, 0, a);
    SameUpToCaseSlice(s, t, a, b);
    SameUpToCaseSlice(s, t, b, |s|);
    assert s[0..a] == s[..a] && t[0..a] == t[..a];
    assert s[b..|s|] == s[b..] && t[b..|t|] == t[b..];
  }

  /** Where trimming cuts one string, it cuts a string equal to it up to case. */
  lemma TrimSameUpToCase(s: string, t: string, a: nat, b: nat)
    requires a <= b <= |s| == |t|
    requires SameUpToCase(s[..a], t[..a]) && SameUpToCase(s[a..b], t[a..b]) && SameUpToCase(s[b..], t[b..])
    requires AllSpace(s[..a]) && AllSpace(s[b..]) && Bare(s[a..b])
    ensures Trim(t) == t[a..b]
  {
    SameSpacesKeepShape(s[..a], t[..a]);
    SameSpacesKeepShape(s[b..], t[b..]);
    SameSpacesKeepShape(s[a..b], t[a..b]);
    Split(t, a, b);
    TrimOf(t[..a], t[a..b], t[b..]);
  }

  lemma UpperSameUpToCase(s: string, t: string)
    requires SameUpToCase(s, t)
    ensures Upper(s) == Upper(t)
  {
    var m, n := Upper(s), Upper(t);
    UpperShape(s);
    UpperShape(t);
    assert forall i :: 0 <= i < |m| ==> m[i] == n[i];
  }

  lemma Split(t: string, a: nat, b: nat)
    requires a <= b <= |t|
    ensures t[..a] + t[a..b] + t[b..] == t
  {
  }

  lemma SameUpToCaseSlice(s: string, t: string, a: nat, b: nat)
    requires SameUpToCase(s, t) && a <= b <= |s|
    ensures SameUpToCase(s[a..b], t[a..b])
  {
    forall i | 0 <= i < b - a ensures UpperChar(s[a..b][i]) == UpperChar(t[a..b][i]) {
      assert s[a..b][i] == s[a + i] && t[a..b][i] == t[a + i];
    }
  }

  /** Strings equal up to case have their white space in the same places. */
  lemma SameUpToCaseSpaces(s: string, t: string)
    requires SameUpToCase(s, t)
    ensures forall i :: 0 <= i < |s| ==> (IsSpace(s[i]) <==> IsSpace(t[i]))
  {
    forall i | 0 <= i < |s| ensures IsSpace(s[i]) <==> IsSpace(t[i]) {
      UpperCharKeepsSpace(s[i]);
      UpperCharKeepsSpace(t[i]);
    }
  }

  lemma SameSpacesKeepShape(s: string, t: string)
    requires SameUpToCase(s, t)
    ensures AllSpace(s) ==> AllSpace(t)
    ensures Bare(s) ==> Bare(t)
  {
    SameUpToCaseSpaces(s, t);
  }

  /** A padded lower-case code and its canonical form name one session: " ab12 " and "AB12". */
  lemma NormalizeExample()
    ensures Normalize(" ab12 ") == Normalize("AB12") == "AB12"
  {
    PaddedExample();
    CaseExample();
    CanonicalExample();
  }

  lemma CanonicalExample()
    ensures Normalize("AB12") == "AB12"
  {
    assert Bare("AB12");
    NormalizeOfNormal("AB12");
  }

  lemma PaddedExample()
    ensures Normalize(" ab12 ") == Normalize("ab12")
  {
    assert AllSpace(" ");
    assert " " + "ab12" + " " == " ab12 ";
    NormalizeIgnoresPadding(" ", "ab12", " ");
  }

  lemma CaseExample()
    ensures Normalize("ab12") == Normalize("AB12")
  {
    assert SameUpToCase("ab12", "AB12");
    NormalizeIgnoresCase("ab12", "AB12");
  }

  /** Two codes share a store key exactly when they normalize alike. */
  lemma SessionKeyInjective(a: string, b: string)
    ensures IsSessionKey(SessionKey(a))
    ensures SessionKey(a) == SessionKey(b) <==> Normalize(a) == Normalize(b)
  {
    assert Normalize(a) == SessionKey(a)[|SessionPrefix|..];
    if SessionKey(a) == SessionKey(b) {
      assert Normalize(b) == SessionKey(b)[|SessionPrefix|..];
    }
  }

  /** A generated numeric code is already normalized and is never empty. */
  lemma GeneratedCodeIsNormal(n: nat)
    ensures Normalize(DecimalString(n)) == DecimalString(n) != ""
  {
    var d := DecimalString(n);
    assert !IsSpace(d[0]) && !IsSpace(d[|d| - 1]);
    NormalizeOfNormal(d);
  }

  /** The number that a string of decimal digits denotes, most significant digit first. */
  function DigitsValue(s: string): int
  {
    if s == [] then 0 else DigitsValue(s[..|s| - 1]) * 10 + (s[|s| - 1] as int - '0' as int)
  }

  /** The generated code reads back as the number it was made from. */
  lemma {:induction false} DecimalStringValue(n: nat)
    ensures DigitsValue(DecimalString(n)) == n
    decreases n
  {
    var r := DecimalString(n);
    var d := ['0', '1', '2', '3', '4', '5', '6', '7', '8', '9'][n % 10];
    assert d as int - '0' as int == n % 10;
    if n >= 10 {
      DecimalStringValue(n / 10);
      var x := DecimalString(n / 10);
      assert r == x + [d];
      assert r[..|r| - 1] == x;
    } else {
      assert r == [d];
    }
  }
}
