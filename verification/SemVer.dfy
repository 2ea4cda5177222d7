/** Semantic versions and their precedence (Semantic Versioning 2.0.0, sections 9 to 11). */
module SemVer {
  import opened Text

  /** Core numbers and pre-release identifiers; build metadata has no say in precedence. */
  datatype Version = Version(major: nat, minor: nat, patch: nat, pre: Option<seq<string>>)

  predicate AlphaNumeric(c: char) {
    Digit(c) || 'a' <= c <= 'z' || 'A' <= c <= 'Z' || c == '-'
  }

  lemma IdentifierCharacters(c: char)
    ensures AlphaNumeric(c) <==> c in "ABCDEFGHIJKLMNOPQRSTUVWXYZ" || c in "abcdefghijklmnopqrstuvwxyz" || c in "0123456789-"
  {}

  /** Digits without leading zeros, or alphanumerics and hyphens that are not all digits. */
  predicate PreIdentifier(id: string) {
    Canonical(id) || (id != "" && (forall c | c in id :: AlphaNumeric(c)) && !Digits(id))
  }

  predicate BuildIdentifier(id: string) {
    id != "" && forall c | c in id :: AlphaNumeric(c)
  }

  /** Index of the first hyphen or plus, the end of the string if there is none. */
  function CoreEnd(s: string): (n: nat)
    ensures n <= |s|
    ensures n < |s| ==> s[n] == '-' || s[n] == '+'
  {
    if s == "" || s[0] == '-' || s[0] == '+' then 0 else 1 + CoreEnd(s[1..])
  }

  predicate ValidBuild(s: string) {
    forall id | id in Parts(s) :: BuildIdentifier(id)
  }

  /** The whole grammar: three numbers, an optional pre-release, optional build metadata. */
  function Parse(s: string): Option<Version> {
    var n := CoreEnd(s);
    var core := Parts(s[..n]);
    if |core| != 3 || !(forall id | id in core :: Canonical(id)) then None
    else
      var a, b, c := NatValue(core[0]), NatValue(core[1]), NatValue(core[2]);
      if n == |s| then Some(Version(a, b, c, None))
      else if s[n] == '+' then
        if ValidBuild(s[n + 1..]) then Some(Version(a, b, c, None)) else None
      else
        var rest := s[n + 1..];
        var plus := Find(rest, "+");
        var pre := Parts(if plus < 0 then rest else rest[..plus]);
        if (forall id | id in pre :: PreIdentifier(id)) && (plus >= 0 ==> ValidBuild(rest[plus + 1..])) then
          Some(Version(a, b, c, Some(pre)))
        else None
  }

  /** Development versions have no place in the order. */
  function Orderable(s: string): Option<Version> {
    if Find(Lower(s), "-dev") >= 0 then None else Parse(s)
  }

  lemma {:induction false} LowerJoin(a: string, b: string)
    ensures Lower(a + b) == Lower(a) + Lower(b)
    decreases |a|
  {
    if a == "" {
      NilLeft(b);
      NilLeft(Lower(b));
    } else {
      Drop(a, b, 1);
      LowerJoin(a[1..], b);
    }
  }

  /** A version with `-dev` anywhere, in any case, has no place in the order; any other one has if it parses. */
  lemma DevUnordered(x: string, dev: string, y: string)
    requires Lower(dev) == "-dev"
    ensures Orderable(x + dev + y) == None
  {
    hide Parse;
    LowerJoin(x + dev, y);
    LowerJoin(x, dev);
    var s := Lower(x + dev + y);
    assert s == Lower(x) + "-dev" + Lower(y);
    assert At(s, "-dev", |Lower(x)|);
  }

  lemma OrderableOtherwise(s: string)
    requires NoOcc(Lower(s), "-dev")
    ensures Orderable(s) == Parse(s)
  {
    hide Parse;
  }

  // ----- the grammar, the other way round -----

  /** A version as it is written, without build metadata. */
  function Written(v: Version): string
    requires v.pre != Some([])
  {
    CoreText(v) + if v.pre.None? then "" else "-" + Dotted(v.pre.value)
  }

  function CoreText(v: Version): string {
    Dotted([NatText(v.major), NatText(v.minor), NatText(v.patch)])
  }

  function BuildText(build: Option<seq<string>>): string
    requires build != Some([])
  {
    if build.None? then "" else "+" + Dotted(build.value)
  }

  predicate CoreChar(c: char) {
    Digit(c) || c == '.'
  }

  lemma {:induction false} CoreEndAt(c: string, x: string)
    requires (forall d | d in c :: CoreChar(d)) && (x == "" || x[0] == '-' || x[0] == '+')
    ensures CoreEnd(c + x) == |c|
    decreases |c|
  {
    if c == "" {
      NilLeft(x);
    } else {
      assert c[0] in c && forall d | d in c[1..] :: d in c;
      Drop(c, x, 1);
      CoreEndAt(c[1..], x);
    }
  }

  lemma {:induction false} DottedChars(parts: seq<string>, c: char)
    requires parts != [] && c != '.' && forall p | p in parts :: c !in p
    ensures c !in Dotted(parts)
  {
    assert parts[0] in parts;
    if |parts| > 1 {
      assert forall p | p in parts[1..] :: p in parts;
      DottedChars(parts[1..], c);
    }
  }

  lemma CoreParts(v: Version)
    ensures var parts := [NatText(v.major), NatText(v.minor), NatText(v.patch)];
      && Parts(CoreText(v)) == parts && (forall d | d in CoreText(v) :: CoreChar(d))
      && (forall id | id in parts :: Canonical(id))
      && NatValue(parts[0]) == v.major && NatValue(parts[1]) == v.minor && NatValue(parts[2]) == v.patch
  {
    var parts := [NatText(v.major), NatText(v.minor), NatText(v.patch)];
    NatTextCanonical(v.major);
    NatTextCanonical(v.minor);
    NatTextCanonical(v.patch);
    NatRoundTrip(v.major);
    NatRoundTrip(v.minor);
    NatRoundTrip(v.patch);
    hide NatText, NatValue;
    forall p | p in parts
      ensures NoOcc(p, ".")
    {
      CharFree(p, '.');
    }
    PartsDotted(parts);
    CoreChars(parts);
  }

  lemma {:induction false} CoreChars(parts: seq<string>)
    requires parts != [] && forall p | p in parts :: forall c | c in p :: Digit(c)
    ensures forall c | c in Dotted(parts) :: CoreChar(c)
  {
    assert parts[0] in parts;
    if |parts| > 1 {
      assert forall p | p in parts[1..] :: p in parts;
      CoreChars(parts[1..]);
    }
  }

  lemma DotFree(parts: seq<string>)
    requires forall id | id in parts :: BuildIdentifier(id)
    ensures forall id | id in parts :: NoOcc(id, ".") && '+' !in id
  {
    forall id | id in parts
      ensures NoOcc(id, ".") && '+' !in id
    {
      CharFree(id, '.');
    }
  }

  lemma IdentifierChars(pre: seq<string>)
    requires forall id | id in pre :: PreIdentifier(id)
    ensures forall id | id in pre :: BuildIdentifier(id)
  {}

  lemma BuildParts(build: seq<string>)
    requires build != [] && forall id | id in build :: BuildIdentifier(id)
    ensures Parts(Dotted(build)) == build && ValidBuild(Dotted(build))
  {
    DotFree(build);
    PartsDotted(build);
  }

  /** What the grammar makes of a core and the text behind it. */
  lemma ParseCut(c: string, x: string)
    requires CoreEnd(c + x) == |c| && |Parts(c)| == 3 && forall id | id in Parts(c) :: Canonical(id)
    ensures var v := Version(NatValue(Parts(c)[0]), NatValue(Parts(c)[1]), NatValue(Parts(c)[2]), None);
      && (x == "" ==> Parse(c + x) == Some(v))
      && (x != "" && x[0] == '+' && ValidBuild(x[1..]) ==> Parse(c + x) == Some(v))
      && (x != "" && x[0] == '-' ==>
        var plus := Find(x[1..], "+");
        var pre := Parts(if plus < 0 then x[1..] else x[1..][..plus]);
        (forall id | id in pre :: PreIdentifier(id)) && (plus >= 0 ==> ValidBuild(x[1..][plus + 1..])) ==>
          Parse(c + x) == Some(v.(pre := Some(pre))))
  {
    hide NatValue, Canonical, PreIdentifier, ValidBuild, Find, Parts, CoreEnd;
    CutAt(c, x);
  }

  /** Every version parses back from how it is written, whatever build metadata follow. */
  lemma ParseWritten(v: Version, build: Option<seq<string>>)
    requires v.pre.Some? ==> v.pre.value != [] && forall id | id in v.pre.value :: PreIdentifier(id)
    requires build.Some? ==> build.value != [] && forall id | id in build.value :: BuildIdentifier(id)
    ensures Parse(Written(v) + BuildText(build)) == Some(v)
  {
    hide Parse, NatText, NatValue, Canonical, PreIdentifier, BuildIdentifier, ValidBuild, Dotted, NoOcc, CoreText, Find, Parts;
    var c, b := CoreText(v), BuildText(build);
    CoreParts(v);
    if build.Some? { BuildParts(build.value); }
    if v.pre.None? {
      NilRight(c);
      CoreEndAt(c, b);
      ParseCut(c, b);
    } else {
      var p := Dotted(v.pre.value);
      Assoc(c, "-" + p, b);
      Assoc("-", p, b);
      CoreEndAt(c, "-" + (p + b));
      ParseCut(c, "-" + (p + b));
      PreParts(v.pre.value, build);
    }
  }

  lemma PreParts(pre: seq<string>, build: Option<seq<string>>)
    requires pre != [] && forall id | id in pre :: PreIdentifier(id)
    requires build.Some? ==> build.value != [] && forall id | id in build.value :: BuildIdentifier(id)
    ensures var x := Dotted(pre) + BuildText(build);
      var plus := Find(x, "+");
      Parts(if plus < 0 then x else x[..plus]) == pre && (plus >= 0 ==> ValidBuild(x[plus + 1..]))
  {
    hide PreIdentifier, BuildIdentifier, ValidBuild, Dotted, NoOcc, Find, Parts;
    var p := Dotted(pre);
    IdentifierChars(pre);
    BuildParts(pre);
    DotFree(pre);
    DottedChars(pre, '+');
    if build.None? {
      NilRight(p);
      FirstChar(p, '+', "");
    } else {
      BuildParts(build.value);
      FirstChar(p, '+', Dotted(build.value));
      CutAt(p, BuildText(build));
    }
  }

  lemma CutAt(c: string, x: string)
    ensures (c + x)[..|c|] == c && (x != "" ==> (c + x)[|c|] == x[0] && (c + x)[|c| + 1..] == x[1..])
  {}

  /** Whatever parses is written like that. */
  lemma ParsedIsWritten(s: string) returns (build: Option<seq<string>>)
    requires Parse(s).Some?
    ensures build.Some? ==> build.value != [] && forall id | id in build.value :: BuildIdentifier(id)
    ensures Parse(s).value.pre != Some([]) && s == Written(Parse(s).value) + BuildText(build)
  {
    hide NatText, NatValue, Canonical, PreIdentifier, BuildIdentifier, Dotted, NoOcc, Find, Parts;
    var n := CoreEnd(s);
    var core := Parts(s[..n]);
    CoreWritten(core);
    DottedParts(s[..n]);
    var v := Parse(s).value;
    assert CoreText(v) == s[..n];
    if n == |s| {
      build := None;
      NilRight(s[..n]);
    } else if s[n] == '+' {
      build := Some(Parts(s[n + 1..]));
      DottedParts(s[n + 1..]);
      CutJoin(s, n, '+');
      NilRight(s[..n]);
    } else {
      var rest := s[n + 1..];
      var plus := Find(rest, "+");
      CutJoin(s, n, '-');
      if plus < 0 {
        build := None;
        DottedParts(rest);
        NilRight(s);
      } else {
        build := Some(Parts(rest[plus + 1..]));
        DottedParts(rest[..plus]);
        DottedParts(rest[plus + 1..]);
        AtChar(rest, "+", plus, 0);
        CutJoin(rest, plus, '+');
        Assoc("-", rest[..plus], "+" + rest[plus + 1..]);
        Assoc(s[..n], "-" + rest[..plus], "+" + rest[plus + 1..]);
      }
    }
  }

  lemma CutJoin(s: string, n: nat, c: char)
    requires n < |s| && s[n] == c
    ensures s == s[..n] + ([c] + s[n + 1..])
  {}

  lemma CoreWritten(core: seq<string>)
    requires |core| == 3 && forall id | id in core :: Canonical(id)
    ensures [NatText(NatValue(core[0])), NatText(NatValue(core[1])), NatText(NatValue(core[2]))] == core
  {
    assert core[0] in core && core[1] in core && core[2] in core;
    CanonicalRoundTrip(core[0]);
    CanonicalRoundTrip(core[1]);
    CanonicalRoundTrip(core[2]);
  }

  // ----- precedence -----

  /** `left < right` on strings. */
  predicate Less(left: string, right: string) {
    right != "" && (left == "" || left[0] < right[0] || (left[0] == right[0] && Less(left[1..], right[1..])))
  }

  /** The verdict on the first identifiers that differ. */
  function CompareIdentifiers(left: string, right: string): int {
    if Digits(left) && Digits(right) then (if NatValue(left) < NatValue(right) then -1 else 1)
    else if Digits(left) != Digits(right) then (if Digits(left) then -1 else 1)
    else if Less(left, right) then -1
    else 1
  }

  function CompareLists(left: seq<string>, right: seq<string>): int {
    if left == [] || right == [] then
      if |left| == |right| then 0 else if |left| < |right| then -1 else 1
    else if left[0] != right[0] then CompareIdentifiers(left[0], right[0])
    else CompareLists(left[1..], right[1..])
  }

  function ComparePrerelease(left: Option<seq<string>>, right: Option<seq<string>>): int {
    match (left, right)
    case (None, None) => 0
    case (None, _) => 1
    case (_, None) => -1
    case (Some(l), Some(r)) => CompareLists(l, r)
  }

  /** The pairwise walk over two identifier lists. */
  method ComparePrereleaseWalk(left: Option<seq<string>>, right: Option<seq<string>>) returns (r: int)
    ensures r == ComparePrerelease(left, right)
    ensures r < 0 <==> PrereleaseBefore(left, right)
  {
    PrereleaseMeans(left, right);
    hide PrereleaseBefore;
    if left.None? || right.None? {
      if left.None? && right.None? {
        return 0;
      }
      return if left.None? then 1 else -1;
    }
    var l, s := left.value, right.value;
    var i := 0;
    assert l[0..] == l && s[0..] == s;
    while i < |l| && i < |s|
      invariant 0 <= i <= |l| && i <= |s|
      invariant CompareLists(l[i..], s[i..]) == CompareLists(l, s)
    {
      assert l[i..][1..] == l[i + 1..] && s[i..][1..] == s[i + 1..];
      if l[i] != s[i] {
        return CompareIdentifiers(l[i], s[i]);
      }
      i := i + 1;
    }
    return if |l| == |s| then 0 else if |l| < |s| then -1 else 1;
  }

  function CompareCore(a: Version, b: Version): int {
    if a.major != b.major then (if a.major < b.major then -1 else 1)
    else if a.minor != b.minor then (if a.minor < b.minor then -1 else 1)
    else if a.patch != b.patch then (if a.patch < b.patch then -1 else 1)
    else 0
  }

  function Compare(a: Version, b: Version): int {
    if CompareCore(a, b) != 0 then CompareCore(a, b) else ComparePrerelease(a.pre, b.pre)
  }

  /** None when either version has no place in the order. */
  function CompareSemver(left: string, right: string): Option<int> {
    match (Orderable(left), Orderable(right))
    case (Some(a), Some(b)) => Some(Compare(a, b))
    case _ => None
  }

  // ----- what the verdicts mean (section 11) -----

  /** ASCII order: a proper prefix comes first, else the first differing character decides. */
  ghost predicate AsciiBefore(a: string, b: string) {
    exists n: nat :: n <= |a| && n < |b| && a[..n] == b[..n] && (n == |a| || a[n] < b[n])
  }

  /** Numbers go by value and before alphanumerics, those in ASCII order. */
  ghost predicate IdentifierBefore(a: string, b: string) {
    if Digits(a) then !Digits(b) || NatValue(a) < NatValue(b)
    else !Digits(b) && AsciiBefore(a, b)
  }

  /** A proper prefix comes first, else the first differing identifier decides. */
  ghost predicate ListBefore(a: seq<string>, b: seq<string>) {
    exists n: nat :: n <= |a| && n < |b| && a[..n] == b[..n] && (n == |a| || IdentifierBefore(a[n], b[n]))
  }

  /** A pre-release comes before its release. */
  ghost predicate PrereleaseBefore(a: Option<seq<string>>, b: Option<seq<string>>) {
    a.Some? && (b.None? || ListBefore(a.value, b.value))
  }

  function Core(v: Version): seq<nat> {
    [v.major, v.minor, v.patch]
  }

  /** The first differing core number decides, then the pre-releases. */
  ghost predicate Precedes(a: Version, b: Version) {
    || (exists i: nat :: i < 3 && Core(a)[..i] == Core(b)[..i] && Core(a)[i] < Core(b)[i])
    || (Core(a) == Core(b) && PrereleaseBefore(a.pre, b.pre))
  }

  lemma {:induction false} LessMeans(a: string, b: string)
    ensures Less(a, b) <==> AsciiBefore(a, b)
    decreases |a|
  {
    if a != "" && b != "" {
      assert a[..0] == b[..0];
      if a[0] == b[0] {
        LessMeans(a[1..], b[1..]);
        if AsciiBefore(a, b) {
          var n: nat :| n <= |a| && n < |b| && a[..n] == b[..n] && (n == |a| || a[n] < b[n]);
          assert n > 0;
          PrefixTail(a, b, n);
          assert n - 1 <= |a[1..]| && n - 1 < |b[1..]|;
        }
        if AsciiBefore(a[1..], b[1..]) {
          var n: nat :| n <= |a[1..]| && n < |b[1..]| && a[1..][..n] == b[1..][..n]
            && (n == |a[1..]| || a[1..][n] < b[1..][n]);
          PrefixTail(a, b, n + 1);
          assert n + 1 <= |a| && n + 1 < |b| && (n + 1 == |a| || a[n + 1] < b[n + 1]);
        }
      } else if AsciiBefore(a, b) {
        var n: nat :| n <= |a| && n < |b| && a[..n] == b[..n] && (n == |a| || a[n] < b[n]);
        SameHead(a, b, n);
      }
    } else if a == "" && b != "" {
      assert a[..0] == b[..0];
    }
  }

  lemma SameHead<T>(a: seq<T>, b: seq<T>, n: nat)
    requires a != [] && b != [] && n <= |a| && n <= |b|
    ensures n > 0 && a[..n] == b[..n] ==> a[0] == b[0]
  {
    if n > 0 { assert a[..n][0] == a[0] && b[..n][0] == b[0]; }
  }

  lemma PrefixTail<T>(a: seq<T>, b: seq<T>, n: nat)
    requires a != [] && b != [] && a[0] == b[0] && 0 < n <= |a| && n <= |b|
    ensures a[..n] == b[..n] <==> a[1..][..n - 1] == b[1..][..n - 1]
  {
    assert a[..n] == [a[0]] + a[1..][..n - 1] && b[..n] == [b[0]] + b[1..][..n - 1];
    assert a[..n][1..] == a[1..][..n - 1] && b[..n][1..] == b[1..][..n - 1];
  }

  lemma IdentifiersMean(a: string, b: string)
    ensures CompareIdentifiers(a, b) < 0 <==> IdentifierBefore(a, b)
  {
    hide Digits, NatValue, AsciiBefore, Less;
    LessMeans(a, b);
  }

  lemma {:induction false} ListsMean(a: seq<string>, b: seq<string>)
    ensures CompareLists(a, b) < 0 <==> ListBefore(a, b)
    decreases |a|
  {
    hide CompareIdentifiers, IdentifierBefore;
    if a != [] && b != [] {
      assert a[..0] == b[..0];
      if a[0] == b[0] {
        ListsMean(a[1..], b[1..]);
        Irreflexive(a[0]);
        ListTails(a, b);
      } else {
        IdentifiersMean(a[0], b[0]);
        if ListBefore(a, b) {
          var n: nat :| n <= |a| && n < |b| && a[..n] == b[..n] && (n == |a| || IdentifierBefore(a[n], b[n]));
          SameHead(a, b, n);
        }
      }
    } else if b != [] {
      assert a[..0] == b[..0];
    }
  }

  lemma Irreflexive(id: string)
    ensures !IdentifierBefore(id, id)
  {
    hide NatValue, Digits;
    LessMeans(id, id);
    LessTotal(id, id);
  }

  lemma ListTails(a: seq<string>, b: seq<string>)
    requires a != [] && b != [] && a[0] == b[0] && !IdentifierBefore(a[0], b[0])
    ensures ListBefore(a, b) <==> ListBefore(a[1..], b[1..])
  {
    hide IdentifierBefore;
    var x, y := a[1..], b[1..];
    if ListBefore(a, b) {
      var n: nat :| n <= |a| && n < |b| && a[..n] == b[..n] && (n == |a| || IdentifierBefore(a[n], b[n]));
      assert n > 0;
      PrefixTail(a, b, n);
      assert n - 1 <= |x| && n - 1 < |y|;
    }
    if ListBefore(x, y) {
      var n: nat :| n <= |x| && n < |y| && x[..n] == y[..n] && (n == |x| || IdentifierBefore(x[n], y[n]));
      PrefixTail(a, b, n + 1);
      assert n + 1 <= |a| && n + 1 < |b| && (n + 1 == |a| || IdentifierBefore(a[n + 1], b[n + 1]));
    }
  }

  lemma PrereleaseMeans(a: Option<seq<string>>, b: Option<seq<string>>)
    ensures ComparePrerelease(a, b) < 0 <==> PrereleaseBefore(a, b)
  {
    hide CompareLists, ListBefore;
    if a.Some? && b.Some? { ListsMean(a.value, b.value); }
  }

  lemma CoreMeans(a: Version, b: Version)
    ensures CompareCore(a, b) < 0 <==> exists i: nat :: i < 3 && Core(a)[..i] == Core(b)[..i] && Core(a)[i] < Core(b)[i]
    ensures CompareCore(a, b) == 0 <==> Core(a) == Core(b)
  {
    var x, y := Core(a), Core(b);
    assert x[..0] == y[..0];
    assert x[..1] == y[..1] <==> x[0] == y[0];
    assert x[..2] == y[..2] <==> x[0] == y[0] && x[1] == y[1] by {
      assert x[..2] == [x[0], x[1]] && y[..2] == [y[0], y[1]];
    }
    assert forall i: nat | i < 3 && x[..i] == y[..i] && x[i] < y[i] :: i == 0 || i == 1 || i == 2;
  }

  /** The comparison is negative exactly when the first version precedes the second. */
  lemma CompareMeans(a: Version, b: Version)
    ensures Compare(a, b) < 0 <==> Precedes(a, b)
  {
    hide CompareCore, ComparePrerelease, PrereleaseBefore, Core;
    CoreMeans(a, b);
    PrereleaseMeans(a.pre, b.pre);
  }

  // ----- the order -----

  predicate WellFormed(v: Version) {
    v.pre.Some? ==> forall id | id in v.pre.value :: PreIdentifier(id)
  }

  lemma OrderableWellFormed(s: string)
    requires Orderable(s).Some?
    ensures WellFormed(Orderable(s).value)
  {}

  lemma {:induction false} LessTotal(a: string, b: string)
    ensures a != b ==> Less(a, b) || Less(b, a)
    ensures !(Less(a, b) && Less(b, a)) && !Less(a, a)
    decreases |a|
  {
    if a != "" && b != "" {
      assert a == [a[0]] + a[1..] && b == [b[0]] + b[1..];
      LessTotal(a[1..], b[1..]);
    }
    if a != "" { LessTotal(a[1..], a[1..]); }
  }

  lemma {:induction false} LessTrans(a: string, b: string, c: string)
    requires Less(a, b) && Less(b, c)
    ensures Less(a, c)
    decreases |a|
  {
    if a != "" && a[0] == b[0] && b[0] == c[0] { LessTrans(a[1..], b[1..], c[1..]); }
  }

  lemma NumbersDiffer(a: string, b: string)
    requires Canonical(a) && Canonical(b) && a != b
    ensures NatValue(a) != NatValue(b)
  {
    CanonicalRoundTrip(a);
    CanonicalRoundTrip(b);
  }

  /** Between different identifiers exactly one order holds. */
  lemma IdentifiersAntisymmetric(a: string, b: string)
    requires PreIdentifier(a) && PreIdentifier(b) && a != b
    ensures CompareIdentifiers(a, b) == -CompareIdentifiers(b, a)
    ensures CompareIdentifiers(a, b) in {-1, 1}
  {
    LessTotal(a, b);
    if Digits(a) && Digits(b) { NumbersDiffer(a, b); }
  }

  lemma IdentifiersTransitive(a: string, b: string, c: string)
    requires PreIdentifier(a) && PreIdentifier(b) && PreIdentifier(c) && a != b && b != c
    requires CompareIdentifiers(a, b) == -1 && CompareIdentifiers(b, c) == -1
    ensures a != c && CompareIdentifiers(a, c) == -1
  {
    LessTotal(a, b);
    LessTotal(b, c);
    if !Digits(a) { LessTrans(a, b, c); LessTotal(a, c); }
  }

  predicate Identifiers(list: seq<string>) {
    forall id | id in list :: PreIdentifier(id)
  }

  lemma {:induction false} ListsAntisymmetric(a: seq<string>, b: seq<string>)
    requires Identifiers(a) && Identifiers(b)
    ensures CompareLists(a, b) == -CompareLists(b, a)
    ensures CompareLists(a, b) == 0 <==> a == b
    decreases |a|
  {
    if a != [] && b != [] {
      assert a[0] in a && b[0] in b;
      if a[0] != b[0] {
        IdentifiersAntisymmetric(a[0], b[0]);
      } else {
        assert a == [a[0]] + a[1..] && b == [b[0]] + b[1..];
        ListsAntisymmetric(a[1..], b[1..]);
      }
    }
  }

  lemma {:induction false} ListsTransitive(a: seq<string>, b: seq<string>, c: seq<string>)
    requires Identifiers(a) && Identifiers(b) && Identifiers(c)
    requires CompareLists(a, b) <= 0 && CompareLists(b, c) <= 0
    ensures CompareLists(a, c) <= 0
    decreases |a|
  {
    if a != [] && b != [] && c != [] {
      assert a[0] in a && b[0] in b && c[0] in c;
      if a[0] == b[0] && b[0] == c[0] {
        ListsTransitive(a[1..], b[1..], c[1..]);
      } else if a[0] != b[0] && b[0] != c[0] {
        IdentifiersAntisymmetric(a[0], b[0]);
        IdentifiersAntisymmetric(b[0], c[0]);
        IdentifiersTransitive(a[0], b[0], c[0]);
      }
    }
  }

  /** Swapping the versions swaps the verdict, and they tie exactly when core and pre-release agree. */
  lemma CompareAntisymmetric(a: Version, b: Version)
    requires WellFormed(a) && WellFormed(b)
    ensures Compare(a, b) == -Compare(b, a)
    ensures Compare(a, b) == 0 <==> a == b
  {
    if a.pre.Some? && b.pre.Some? { ListsAntisymmetric(a.pre.value, b.pre.value); }
  }

  lemma CompareTransitive(a: Version, b: Version, c: Version)
    requires WellFormed(a) && WellFormed(b) && WellFormed(c)
    requires Compare(a, b) <= 0 && Compare(b, c) <= 0
    ensures Compare(a, c) <= 0
  {
    if a.pre.Some? && b.pre.Some? && c.pre.Some? {
      if CompareLists(a.pre.value, b.pre.value) <= 0 && CompareLists(b.pre.value, c.pre.value) <= 0 {
        ListsTransitive(a.pre.value, b.pre.value, c.pre.value);
      }
    }
  }

  /** On orderable versions the comparison is a total preorder, and it ties exactly the
      versions that differ in build metadata alone. */
  lemma SemverOrder(x: string, y: string, z: string)
    requires Orderable(x).Some? && Orderable(y).Some? && Orderable(z).Some?
    ensures CompareSemver(x, y).Some? && CompareSemver(x, y).value == -CompareSemver(y, x).value
    ensures CompareSemver(x, y).value < 0 <==> Precedes(Orderable(x).value, Orderable(y).value)
    ensures CompareSemver(x, y).value > 0 <==> Precedes(Orderable(y).value, Orderable(x).value)
    ensures CompareSemver(x, y).value == 0 <==> Orderable(x) == Orderable(y)
    ensures CompareSemver(x, y).value <= 0 && CompareSemver(y, z).value <= 0 ==> CompareSemver(x, z).value <= 0
  {
    OrderableWellFormed(x);
    OrderableWellFormed(y);
    OrderableWellFormed(z);
    hide Orderable, WellFormed, Compare, Precedes;
    CompareMeans(Orderable(x).value, Orderable(y).value);
    CompareMeans(Orderable(y).value, Orderable(x).value);
    CompareAntisymmetric(Orderable(x).value, Orderable(y).value);
    if CompareSemver(x, y).value <= 0 && CompareSemver(y, z).value <= 0 {
      CompareTransitive(Orderable(x).value, Orderable(y).value, Orderable(z).value);
    }
  }

  /** The grammar carries the order: two spellings of one number would each exceed the other. */
  lemma LeadingZerosBreakTheOrder()
    ensures !PreIdentifier("01") && "01" != "1"
    ensures CompareLists(["01"], ["1"]) == 1 && CompareLists(["1"], ["01"]) == 1
  {
    assert "01"[..1] == "0" && "0"[..0] == "" && "1"[..0] == "";
    assert NatValue("0") == 0 && NatValue("1") == 1 && NatValue("01") == 1;
    assert Digits("01") && Digits("1");
  }
}
