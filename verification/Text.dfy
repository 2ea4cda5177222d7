/** Strings as the modelled programs see them: Unicode whitespace, stripping,
    substring search and occurrence-freedom. */
module Text {

  datatype Option<+T> = None | Some(value: T)

  /** Python's `str.isspace`, which `\s` and `strip()` share. */
  predicate IsSpace(c: char) {
    || '\t' <= c <= '\r' || '\U{1C}' <= c <= ' ' || c == '\U{85}' || c == '\U{A0}' || c == '\U{1680}'
    || '\U{2000}' <= c <= '\U{200A}' || c == '\U{2028}' || c == '\U{2029}' || c == '\U{202F}' || c == '\U{205F}'
    || c == '\U{3000}'
  }

  lemma SpaceCharacters(c: char)
    ensures IsSpace(c) <==>
      || c in "\t\n\U{B}\U{C}\r\U{1C}\U{1D}\U{1E}\U{1F} \U{85}\U{A0}\U{1680}\U{2028}\U{2029}\U{202F}\U{205F}\U{3000}"
      || c in "\U{2000}\U{2001}\U{2002}\U{2003}\U{2004}\U{2005}\U{2006}\U{2007}\U{2008}\U{2009}\U{200A}"
  {}

  predicate AllSpace(s: string) {
    forall c | c in s :: IsSpace(c)
  }

  function LStrip(s: string): (r: string)
    ensures |r| <= |s| && r == s[|s| - |r|..] && AllSpace(s[..|s| - |r|])
    ensures r != "" ==> !IsSpace(r[0])
  {
    if s != "" && IsSpace(s[0]) then
      var r := LStrip(s[1..]);
      assert s[..|s| - |r|] == [s[0]] + s[1..][..|s| - 1 - |r|];
      r
    else s
  }

  function RStrip(s: string): (r: string)
    ensures r <= s && AllSpace(s[|r|..])
    ensures r != "" ==> !IsSpace(r[|r| - 1])
  {
    if s != "" && IsSpace(s[|s| - 1]) then
      var r := RStrip(s[..|s| - 1]);
      assert s[|r|..] == s[..|s| - 1][|r|..] + [s[|s| - 1]];
      r
    else s
  }

  function Strip(s: string): string {
    RStrip(LStrip(s))
  }

  lemma StripEnds(s: string)
    ensures Strip(s) != "" ==> !IsSpace(Strip(s)[0]) && !IsSpace(Strip(s)[|Strip(s)| - 1])
  {
    hide IsSpace, AllSpace, LStrip, RStrip;
    RStripSplit(LStrip(s));
  }

  lemma StripSame(p: string)
    requires p == "" || (!IsSpace(p[0]) && !IsSpace(p[|p| - 1]))
    ensures Strip(p) == p
  {}

  lemma {:induction false} LStripAround(a: string, s: string)
    requires AllSpace(a) && (s == "" || !IsSpace(s[0]))
    ensures LStrip(a + s) == s
    decreases |a|
  {
    if a == "" {
      NilLeft(s);
    } else {
      Drop(a, s, 1);
      LStripAround(a[1..], s);
    }
  }

  lemma {:induction false} RStripAround(s: string, b: string)
    requires AllSpace(b) && (s == "" || !IsSpace(s[|s| - 1]))
    ensures RStrip(s + b) == s
    decreases |b|
  {
    if b == "" {
      NilRight(s);
    } else {
      var n := |b| - 1;
      assert (s + b)[..|s + b| - 1] == s + b[..n] && (s + b)[|s + b| - 1] == b[n];
      RStripAround(s, b[..n]);
    }
  }

  /** Whitespace around a text goes, and nothing else. */
  lemma StripAround(a: string, p: string, b: string)
    requires AllSpace(a) && AllSpace(b) && p != "" && !IsSpace(p[0]) && !IsSpace(p[|p| - 1])
    ensures Strip(a + p + b) == p
  {
    hide IsSpace, AllSpace, LStrip, RStrip;
    assert (p + b)[0] == p[0];
    Assoc(a, p, b);
    LStripAround(a, p + b);
    RStripAround(p, b);
  }

  lemma StripIdempotent(s: string)
    ensures Strip(Strip(s)) == Strip(s)
  {
    StripEnds(s);
    StripSame(Strip(s));
  }

  /** The text with every whitespace character removed. */
  function Erase(s: string): string {
    if s == "" then "" else (if IsSpace(s[0]) then "" else [s[0]]) + Erase(s[1..])
  }

  lemma EraseConcat(a: string, b: string)
    ensures Erase(a + b) == Erase(a) + Erase(b)
  {
    if a == "" {
      assert a + b == b;
    } else {
      assert (a + b)[1..] == a[1..] + b;
      EraseConcat(a[1..], b);
    }
  }

  lemma EraseRStrip(s: string)
    ensures Erase(RStrip(s)) == Erase(s)
  {
    RStripSplit(s);
    var ws := s[|RStrip(s)|..];
    EraseConcat(RStrip(s), ws);
    EraseSpace(ws);
  }

  lemma RStripSplit(s: string)
    ensures s == RStrip(s) + s[|RStrip(s)|..]
  {}

  lemma EraseSpace(s: string)
    requires AllSpace(s)
    ensures Erase(s) == ""
  {}

  /** `p` occurs in `s` at index `i`. */
  predicate At(s: string, p: string, i: nat) {
    i + |p| <= |s| && s[i..i + |p|] == p
  }

  ghost predicate NoOcc(s: string, p: string) {
    forall i: nat :: !At(s, p, i)
  }

  function FindFrom(s: string, p: string, k: nat): (i: int)
    requires k <= |s|
    ensures i == -1 || k <= i
    ensures i >= 0 ==> At(s, p, i) && forall j: nat | k <= j < i :: !At(s, p, j)
    ensures i < 0 ==> forall j: nat | k <= j :: !At(s, p, j)
    decreases |s| - k
  {
    if At(s, p, k) then k else if k == |s| then -1 else FindFrom(s, p, k + 1)
  }

  /** `s.find(p)`: the first occurrence, or -1 when there is none. */
  function Find(s: string, p: string): (i: int)
    ensures i >= 0 ==> At(s, p, i) && forall j: nat | j < i :: !At(s, p, j)
    ensures i < 0 ==> i == -1 && NoOcc(s, p)
  {
    FindFrom(s, p, 0)
  }

  lemma Assoc<T>(a: seq<T>, b: seq<T>, c: seq<T>)
    ensures a + b + c == a + (b + c)
  {}

  lemma Assoc4<T>(a: seq<T>, b: seq<T>, c: seq<T>, d: seq<T>)
    ensures a + b + c + d == a + (b + c + d) == (a + b) + (c + d) == a + b + (c + d) == a + (b + (c + d))
  {}

  lemma NilLeft<T>(a: seq<T>)
    ensures [] + a == a
  {}

  /** A sequence is its two halves, whatever follows. */
  lemma Halves<T>(s: seq<T>, n: nat, x: seq<T>)
    requires n <= |s|
    ensures s == s[..n] + s[n..] && s + x == s[..n] + (s[n..] + x)
  {}

  lemma Drop<T>(s: seq<T>, x: seq<T>, n: nat)
    requires n <= |s|
    ensures (s + x)[n..] == s[n..] + x
    ensures s != [] ==> (s + x)[0] == s[0]
  {}

  lemma NilRight<T>(a: seq<T>)
    ensures a + [] == a
  {}

  /** Occurrences in a concatenation lie in one part or straddle the seam. */
  lemma AtConcat(x: string, y: string, p: string, i: nat)
    ensures i + |p| <= |x| ==> (At(x + y, p, i) <==> At(x, p, i))
    ensures i >= |x| ==> (At(x + y, p, i) <==> At(y, p, i - |x|))
  {
    if i + |p| <= |x| {
      assert (x + y)[i..i + |p|] == x[i..i + |p|];
    } else if i >= |x| && i + |p| <= |x + y| {
      assert (x + y)[i..i + |p|] == y[i - |x|..i - |x| + |p|];
    }
  }

  lemma AtChar(s: string, p: string, i: nat, k: nat)
    requires At(s, p, i) && k < |p|
    ensures s[i + k] == p[k]
  {
    assert s[i..i + |p|][k] == p[k];
  }

  /** A character that is not part of `p` separates its occurrences. */
  lemma NoOccCut(x: string, c: char, y: string, p: string)
    requires p != "" && c !in p
    ensures NoOcc(x + [c] + y, p) <==> NoOcc(x, p) && NoOcc(y, p)
  {
    var s := x + [c] + y;
    assert s == x + ([c] + y) && s == (x + [c]) + y;
    forall i: nat
      ensures At(s, p, i) <==> At(x, p, i) || (i > |x| && At(y, p, i - |x| - 1))
    {
      AtConcat(x, [c] + y, p, i);
      AtConcat(x + [c], y, p, i);
      if At(s, p, i) && i <= |x| < i + |p| {
        AtChar(s, p, i, |x| - i);
      }
    }
    if NoOcc(s, p) {
      forall i: nat ensures !At(y, p, i) { assert !At(s, p, i + |x| + 1); }
    }
  }

  lemma NoOccPart(x: string, y: string, z: string, p: string)
    requires NoOcc(x + y + z, p)
    ensures NoOcc(y, p)
  {
    forall i: nat
      ensures !At(y, p, i)
    {
      AtConcat(x + y, z, p, i + |x|);
      AtConcat(x, y, p, i + |x|);
      assert !At(x + y + z, p, i + |x|);
    }
  }

  /** ASCII lower case. */
  function Lower(s: string): (r: string)
    ensures |r| == |s|
    ensures forall i | 0 <= i < |s| :: r[i] == if 'A' <= s[i] <= 'Z' then (s[i] as int + 32) as char else s[i]
  {
    if s == "" then ""
    else [if 'A' <= s[0] <= 'Z' then (s[0] as int + 32) as char else s[0]] + Lower(s[1..])
  }

  // ----- digits -----

  predicate Digit(c: char) {
    '0' <= c <= '9'
  }

  predicate Digits(t: string) {
    t != "" && forall c | c in t :: Digit(c)
  }

  /** The number a string of digits denotes. */
  function NatValue(t: string): nat {
    if t == "" then 0
    else
      var c := t[|t| - 1];
      10 * NatValue(t[..|t| - 1]) + if Digit(c) then (c - '0') as nat else 0
  }

  function NatText(n: nat): string {
    if n < 10 then [('0' as int + n) as char] else NatText(n / 10) + [('0' as int + n % 10) as char]
  }

  function IntText(i: int): string {
    if i < 0 then "-" + NatText(-i) else NatText(i)
  }

  /** Digits without leading zeros are exactly how their number is written. */
  predicate Canonical(t: string) {
    Digits(t) && (|t| == 1 || t[0] != '0')
  }

  lemma {:induction false} NatTextCanonical(n: nat)
    ensures Canonical(NatText(n)) && (n > 0 ==> NatText(n)[0] != '0')
  {
    if n >= 10 { NatTextCanonical(n / 10); }
  }

  lemma {:induction false} NatRoundTrip(n: nat)
    ensures NatValue(NatText(n)) == n
  {
    var t := NatText(n);
    if n < 10 {
      assert t[..|t| - 1] == "";
    } else {
      assert t[..|t| - 1] == NatText(n / 10);
      NatRoundTrip(n / 10);
    }
  }

  lemma {:induction false} CanonicalRoundTrip(t: string)
    requires Canonical(t)
    ensures NatText(NatValue(t)) == t && (t[0] != '0' ==> NatValue(t) > 0)
    decreases |t|
  {
    CanonicalSome(t);
    hide NatValue, NatText, Digits;
    var u, c := t[..|t| - 1], t[|t| - 1];
    assert t == u + [c];
    NatValueStep(t);
    if |t| > 1 {
      CanonicalFront(t);
      CanonicalRoundTrip(u);
      NatTextStep(NatValue(u), c);
    } else {
      NatTextDigit(c);
    }
  }

  lemma CanonicalSome(t: string)
    requires Canonical(t)
    ensures Digits(t) && t != ""
  {}

  lemma CanonicalFront(t: string)
    requires Canonical(t) && |t| > 1
    ensures Canonical(t[..|t| - 1]) && t[..|t| - 1][0] == t[0] != '0'
  {
    assert forall d | d in t[..|t| - 1] :: d in t;
  }

  /** The last digit counts once, what stands before it tenfold. */
  lemma NatValueStep(t: string)
    requires Digits(t)
    ensures var c := t[|t| - 1];
      Digit(c) && NatValue(t) == 10 * NatValue(t[..|t| - 1]) + (c - '0') as nat && (|t| == 1 ==> NatValue(t) == (c - '0') as nat)
  {
    assert t[|t| - 1] in t;
    if |t| == 1 { assert t[..0] == ""; }
  }

  lemma NatTextStep(n: nat, c: char)
    requires n > 0 && Digit(c)
    ensures NatText(10 * n + (c - '0') as nat) == NatText(n) + [c]
  {
    var d := (c - '0') as nat;
    assert (10 * n + d) / 10 == n && (10 * n + d) % 10 == d;
  }

  lemma NatTextDigit(c: char)
    requires Digit(c)
    ensures NatText((c - '0') as nat) == [c]
  {}

  /** `key.split(".")`. */
  function Parts(key: string): (parts: seq<string>)
    ensures parts != []
    decreases |key|
  {
    var i := Find(key, ".");
    if i < 0 then [key] else [key[..i]] + Parts(key[i + 1..])
  }

  lemma CharFree(p: string, c: char)
    requires c !in p
    ensures NoOcc(p, [c])
  {
    forall i: nat
      ensures !At(p, [c], i)
    {
      if At(p, [c], i) { AtChar(p, [c], i, 0); }
    }
  }

  /** The first place of a character. */
  lemma FirstChar(x: string, c: char, y: string)
    requires c !in x
    ensures var s := x + ([c] + y); Find(s, [c]) == |x| && s[..|x|] == x && s[|x| + 1..] == y
    ensures Find(x, [c]) < 0
  {
    var s := x + ([c] + y);
    CharFree(x, c);
    assert s[|x|..|x| + 1] == [c];
    assert At(s, [c], |x|);
    forall j: nat | j < |x|
      ensures !At(s, [c], j)
    {
      AtConcat(x, [c] + y, [c], j);
    }
  }

  /** Parts with dots between them. */
  function Dotted(parts: seq<string>): string
    requires parts != []
  {
    if |parts| == 1 then parts[0] else parts[0] + ("." + Dotted(parts[1..]))
  }

  lemma {:induction false} PartsDotted(parts: seq<string>)
    requires parts != [] && forall p | p in parts :: NoOcc(p, ".")
    ensures Parts(Dotted(parts)) == parts
    decreases |parts|
  {
    hide NoOcc;
    assert parts[0] in parts && parts == [parts[0]] + parts[1..];
    if |parts| == 1 {
      NoDot(parts[0]);
    } else {
      assert forall p | p in parts[1..] :: p in parts;
      PartsDotted(parts[1..]);
      FirstDot(parts[0], Dotted(parts[1..]));
    }
  }

  lemma NoDot(p: string)
    requires NoOcc(p, ".")
    ensures Parts(p) == [p]
  {}

  lemma FirstDot(p: string, rest: string)
    requires NoOcc(p, ".")
    ensures Parts(p + ("." + rest)) == [p] + Parts(rest)
  {
    var s := p + ("." + rest);
    assert s[|p|..|p| + 1] == ".";
    forall j: nat | j < |p|
      ensures !At(s, ".", j)
    {
      AtConcat(p, "." + rest, ".", j);
    }
    assert At(s, ".", |p|);
    assert Find(s, ".") == |p|;
    assert s[..|p|] == p && s[|p| + 1..] == rest;
  }

  lemma SplitAt(s: string, c: char, i: nat)
    requires At(s, [c], i)
    ensures i < |s| && s == s[..i] + ([c] + s[i + 1..])
  {
    assert s[i..i + 1][0] == c;
  }

  lemma PartsStep(key: string)
    ensures var i := Find(key, ".");
      if i < 0 then Parts(key) == [key]
      else i < |key| && key == key[..i] + ("." + key[i + 1..]) && Parts(key) == [key[..i]] + Parts(key[i + 1..])
  {
    hide NoOcc, At, FindFrom;
    var i := Find(key, ".");
    if i >= 0 { SplitAt(key, '.', i); }
    hide Find;
  }

  lemma DottedCons(part: string, rest: seq<string>)
    requires rest != []
    ensures Dotted([part] + rest) == part + ("." + Dotted(rest))
  {
    assert ([part] + rest)[1..] == rest;
  }

  /** Splitting at the dots and joining again changes nothing. */
  lemma {:induction false} DottedParts(key: string)
    ensures Dotted(Parts(key)) == key
    decreases |key|
  {
    PartsStep(key);
    hide NoOcc, Parts, Find, At;
    var i := Find(key, ".");
    if i >= 0 {
      DottedParts(key[i + 1..]);
      DottedCons(key[..i], Parts(key[i + 1..]));
    }
  }
}
