/** Loading what the printer writes gives the same table back. */
module TomlRoundTrip {
  import opened Text
  import opened Toml
  import opened TomlLoader

  // ----- strings -----

  lemma HexRoundTrip(n: nat)
    requires n < 0x1_0000
    ensures HexNumber(Hex4(n)) == Some(n)
  {
    HexDigits(n);
    hide HexNumber, Hex4, HexDigit;
    HexFour(n / 16 / 16 / 16, n / 16 / 16 % 16, n / 16 % 16, n % 16);
  }

  lemma HexFour(a: nat, b: nat, c: nat, d: nat)
    requires a < 0x10 && b < 0x10 && c < 0x10 && d < 0x10
    ensures HexNumber("" + [HexDigit(a)] + [HexDigit(b)] + [HexDigit(c)] + [HexDigit(d)]) ==
      Some(0x10 * (0x10 * (0x10 * a + b) + c) + d)
  {
    hide HexNumber, HexDigit;
    HexEmpty();
    HexSnoc("", a);
    HexSnoc("" + [HexDigit(a)], b);
    HexSnoc("" + [HexDigit(a)] + [HexDigit(b)], c);
    HexSnoc("" + [HexDigit(a)] + [HexDigit(b)] + [HexDigit(c)], d);
  }

  lemma HexEmpty()
    ensures HexNumber("") == Some(0)
  {}

  lemma HexDigits(n: nat)
    requires n < 0x1_0000
    ensures var a, b, c, d := n / 16 / 16 / 16, n / 16 / 16 % 16, n / 16 % 16, n % 16;
      && 0x10 * (0x10 * (0x10 * a + b) + c) + d == n && a < 0x10
      && Hex4(n) == "" + [HexDigit(a)] + [HexDigit(b)] + [HexDigit(c)] + [HexDigit(d)]
  {}

  lemma HexSnoc(s: string, d: nat)
    requires d < 16 && HexNumber(s).Some?
    ensures HexNumber(s + [HexDigit(d)]) == Some(0x10 * HexNumber(s).value + d)
  {
    var t := s + [HexDigit(d)];
    assert t[..|t| - 1] == s;
    HexDigitRoundTrip(d);
  }

  lemma HexDigitRoundTrip(n: nat)
    requires n < 16
    ensures HexValue(HexDigit(n)) == Some(n)
  {}

  /** An escaped character reads back as itself. */
  lemma EscapeRoundTrip(c: char, t: string)
    ensures var tail := ParseString(t);
      ParseString(Escape(c) + t) == if tail.Fail? then Fail else Done([c] + tail.value, tail.rest)
  {
    hide Escape, Unescape, Control, Hex4;
    var e := Escape(c);
    if |e| == 1 {
      PlainCharacter(c);
      Drop(e, t, 1);
      NilLeft(t);
    } else {
      EscapeSome(c);
      Escaped(c, t);
      Drop(e, t, 1);
    }
  }

  lemma EscapeSome(c: char)
    ensures Escape(c) != ""
  {
    hide Hex4;
  }

  /** A character that stands for itself. */
  lemma PlainCharacter(c: char)
    requires |Escape(c)| == 1
    ensures Escape(c) == [c] && c != '"' && c != '\\' && (Control(c) ==> c == '\t') && Escape(c)[1..] == ""
  {
    hide Hex4;
  }

  lemma Escaped(c: char, t: string)
    requires |Escape(c)| > 1
    ensures Escape(c)[0] == '\\' && Unescape(Escape(c)[1..] + t) == Done(c, t)
  {
    hide Hex4, UnicodeEscape;
    var x := Escape(c)[1..];
    if |Escape(c)| == 2 {
      Drop(x, t, 1);
      assert x[1..] == "";
      NilLeft(t);
    } else {
      var h := Hex4(c as nat);
      assert Escape(c) == "\\u" + h && x == "u" + h;
      Assoc("u", h, t);
      Drop("u", h + t, 1);
      NilLeft(h + t);
      UnicodeRoundTrip(c as nat, t);
    }
  }

  lemma UnicodeRoundTrip(n: nat, t: string)
    requires n < 0x80
    ensures UnicodeEscape(Hex4(n) + t, 4) == Done(n as char, t)
  {
    hide HexNumber;
    HexRoundTrip(n);
    var h := Hex4(n);
    assert (h + t)[..4] == h && (h + t)[4..] == t;
  }

  lemma {:induction false} EscapeAllRoundTrip(s: string, r: string)
    ensures ParseString(EscapeAll(s) + ("\"" + r)) == Done(s, r)
    decreases |s|
  {
    if s == "" {
      NilLeft("\"" + r);
      assert ("\"" + r)[1..] == r;
    } else {
      EscapeAllRoundTrip(s[1..], r);
      Assoc(Escape(s[0]), EscapeAll(s[1..]), "\"" + r);
      EscapeRoundTrip(s[0], EscapeAll(s[1..]) + ("\"" + r));
      assert [s[0]] + s[1..] == s;
    }
  }

  lemma StringRoundTrip(s: string, r: string)
    ensures (TomlString(s) + r)[0] == '"' && ParseString((TomlString(s) + r)[1..]) == Done(s, r)
  {
    EscapeAllRoundTrip(s, r);
    assert TomlString(s) + r == "\"" + (EscapeAll(s) + ("\"" + r));
    assert ("\"" + (EscapeAll(s) + ("\"" + r)))[1..] == EscapeAll(s) + ("\"" + r);
  }

  // ----- keys -----

  /** What follows a key: the end, or a character no bare key contains. */
  predicate EndsKey(r: string) {
    r == "" || !BareChar(r[0])
  }

  lemma {:induction false} TakeBareAll(k: string, r: string)
    requires (forall c | c in k :: BareChar(c)) && EndsKey(r)
    ensures TakeBare(k + r) == |k|
    decreases |k|
  {
    if k == "" {
      NilLeft(r);
    } else {
      assert k[0] in k;
      Drop(k, r, 1);
      TakeBareAll(k[1..], r);
    }
  }

  lemma KeyRoundTrip(k: string, r: string)
    requires EndsKey(r)
    ensures TomlKey(k) + r != "" && ParseKey(TomlKey(k) + r) == Done(k, r)
    ensures (TomlKey(k) + r)[0] == '"' || Letter((TomlKey(k) + r)[0])
  {
    if BareKey(k) {
      TakeBareAll(k, r);
      assert (k + r)[..|k|] == k && (k + r)[|k|..] == r;
    } else {
      StringRoundTrip(k, r);
    }
  }

  // ----- scalars -----

  lemma IntRoundTrip(i: int)
    ensures TokenValue(IntText(i)) == Some(Int(i))
    ensures forall c | c in IntText(i) :: TokenChar(c)
  {
    var n: nat := if i < 0 then -i else i;
    NatTextCanonical(n);
    NatRoundTrip(n);
    var t := IntText(i);
    assert i < 0 ==> t[1..] == NatText(n);
    assert i >= 0 ==> t[0] in t && Digit(t[0]);
    assert Unsigned(t) == NatText(n);
    assert t[0] == '-' || Digit(t[0]);
  }

  /** What follows a value: the end, or a character no token contains. */
  predicate EndsToken(r: string) {
    r == "" || !TokenChar(r[0])
  }

  lemma {:induction false} TakeTokenAll(t: string, r: string)
    requires (forall c | c in t :: TokenChar(c)) && EndsToken(r)
    ensures TakeToken(t + r) == |t|
    decreases |t|
  {
    if t == "" {
      NilLeft(r);
    } else {
      assert t[0] in t;
      Drop(t, r, 1);
      TakeTokenAll(t[1..], r);
    }
  }

  lemma TokenRoundTrip(t: string, a: Atom, r: string)
    requires t != "" && (forall c | c in t :: TokenChar(c)) && TokenValue(t) == Some(a) && EndsToken(r)
    ensures ParseValue(t + r) == Done(Leaf(a), r)
  {
    assert t[0] in t;
    TakeTokenAll(t, r);
    assert (t + r)[..|t|] == t && (t + r)[|t|..] == r;
  }

  lemma AtomRoundTrip(a: Atom, r: string)
    requires (a.Opaque? ==> OpaqueText(a.text)) && EndsToken(r)
    ensures ParseValue(AtomText(a) + r) == Done(Leaf(a), r)
  {
    match a
    case Str(s) => StringRoundTrip(s, r);
    case Bool(b) => TokenRoundTrip(AtomText(a), a, r);
    case Int(i) => IntRoundTrip(i); TokenRoundTrip(AtomText(a), a, r);
    case Opaque(text) => TokenRoundTrip(text, a, r);
  }

  // ----- values -----

  /** The first character of a value or key: no blank and no closing delimiter. */
  predicate Opens(s: string) {
    s != "" && s[0] != ' ' && s[0] != '\t' && s[0] != ']' && s[0] != '}'
  }

  lemma OpensConcat(s: string, r: string)
    requires Opens(s)
    ensures Opens(s + r) && SkipBlanks(s + r) == s + r
  {
    Drop(s, r, 0);
  }

  lemma AtomOpens(a: Atom)
    requires a.Opaque? ==> OpaqueText(a.text)
    ensures Opens(AtomText(a))
  {
    match a
    case Str(s) =>
    case Bool(b) =>
    case Int(i) => IntRoundTrip(i); NatTextCanonical(if i < 0 then -i else i); assert AtomText(a)[0] in AtomText(a);
    case Opaque(text) => assert text[0] in text;
  }

  lemma ValueOpens(d: Doc)
    requires Wf(d)
    ensures Opens(ValueText(d))
  {
    if d.Scalar? { AtomOpens(d.a); }
  }

  lemma BlankSkipped(s: string)
    requires Opens(s)
    ensures SkipBlanks(" " + s) == s && SkipBlanks(s) == s
  {
    assert (" " + s)[1..] == s;
  }

  /** A separator or closing delimiter after a value. */
  lemma AfterValue(c: char, r: string)
    requires c == ']' || c == '}'
    ensures EndsToken(" " + [c] + r) && SkipBlanks(" " + [c] + r) == [c] + r && ([c] + r)[1..] == r
    ensures SkipBlanks([c] + r) == [c] + r
  {
    assert (" " + [c] + r)[1..] == [c] + r;
  }

  lemma AfterComma(s: string)
    requires Opens(s)
    ensures EndsToken(", " + s) && SkipBlanks(", " + s) == ", " + s
    ensures (", " + s)[0] == ',' && SkipBlanks((", " + s)[1..]) == s
  {
    assert (", " + s)[1..] == " " + s;
    BlankSkipped(s);
  }

  lemma PairRoundTrip(k: string, value: string, v: Toml, r: string)
    requires Opens(value) && ParseValue(value + r) == Done(v, r)
    ensures ParsePair(PairText(k, value) + r) == Done((k, v), r)
    ensures Opens(PairText(k, value)) && PairText(k, value)[0] != '['
  {
    hide TomlKey, ParseKey, ParseValue;
    var x := value + r;
    Assoc4(TomlKey(k), " = ", value, r);
    EqualsSign(x);
    KeyRoundTrip(k, " = " + x);
    KeyRoundTrip(k, " = " + value);
    OpensConcat(value, r);
  }

  lemma EqualsSign(x: string)
    ensures var t := SkipBlanks(" = " + x);
      EndsKey(" = " + x) && t != "" && t[0] == '=' && (Opens(x) ==> SkipBlanks(t[1..]) == x)
  {
    assert (" = " + x)[1..] == "= " + x && ("= " + x)[1..] == " " + x;
    if Opens(x) { BlankSkipped(x); }
  }

  lemma {:induction false} MeanKeys(entries: seq<Entry>)
    ensures MeanEntries(entries).Keys == Keys(entries)
    decreases |entries|
  {
    if entries != [] {
      MeanKeys(entries[1..]);
      assert entries == [entries[0]] + entries[1..];
    }
  }

  lemma ArrayStep(x: string)
    ensures var p := ParseItems(SkipBlanks(x));
      ParseValue("[ " + x) == if p.Fail? then Fail else Done(List(p.value), p.rest)
  {
    hide ParseItems;
    assert ("[ " + x)[0] == '[' && ("[ " + x)[1..] == " " + x && (" " + x)[1..] == x;
  }

  lemma InlineTableStep(x: string)
    ensures var p := ParseEntries(SkipBlanks(x), true);
      ParseValue("{ " + x) == if p.Fail? then Fail else Done(Table(p.value), p.rest)
  {
    hide ParseEntries;
    assert ("{ " + x)[0] == '{' && ("{ " + x)[1..] == " " + x && (" " + x)[1..] == x;
  }

  lemma EmptyBrackets(r: string)
    ensures ParseItems(SkipBlanks("" + (" ]" + r))) == Done([], r)
    ensures ParseEntries(SkipBlanks("" + (" }" + r)), true) == Done(map[], r)
  {
    hide ParseValue, ParseKey;
    NilLeft(" ]" + r);
    NilLeft(" }" + r);
    assert " ]" + r == " " + "]" + r && " }" + r == " " + "}" + r;
    AfterValue(']', r);
    AfterValue('}', r);
  }

  lemma {:induction false} ValueRoundTrip(d: Doc, r: string)
    requires Wf(d) && EndsToken(r)
    ensures ParseValue(ValueText(d) + r) == Done(Mean(d), r)
    decreases d, 1
  {
    match d
    case Scalar(a) => AtomRoundTrip(a, r);
    case Array(items) =>
      hide ParseValue, ParseItems;
      Assoc4("[ ", ItemsText(items), " ]", r);
      ArrayStep(ItemsText(items) + (" ]" + r));
      if items == [] { EmptyBrackets(r); } else { ItemsRoundTrip(items, r); }
    case Dict(entries) =>
      hide ParseValue, ParseEntries;
      Assoc4("{ ", EntriesText(entries), " }", r);
      InlineTableStep(EntriesText(entries) + (" }" + r));
      if entries == [] { EmptyBrackets(r); } else { EntriesRoundTrip(entries, r, true); }
  }

  lemma {:induction false} ItemsRoundTrip(items: seq<Doc>, r: string)
    requires WfItems(items) && items != []
    ensures var s := ItemsText(items) + (" ]" + r);
      Opens(s) && SkipBlanks(s) == s && ParseItems(s) == Done(MeanItems(items), r)
    decreases items, 0
  {
    hide ValueText, Mean, Wf, ParseValue, EndsToken, TokenChar;
    var v, end := ValueText(items[0]), " ]" + r;
    ValueOpens(items[0]);
    assert end == " " + "]" + r;
    AfterValue(']', r);
    var x := if |items| == 1 then end else ", " + (ItemsText(items[1..]) + end);
    if |items| == 1 {
      NilRight(v);
    } else {
      ItemsRoundTrip(items[1..], r);
      AfterComma(ItemsText(items[1..]) + end);
      Assoc4(v, ", ", ItemsText(items[1..]), end);
      Assoc(v, ", ", ItemsText(items[1..]));
    }
    assert ItemsText(items) + end == v + x;
    ValueRoundTrip(items[0], x);
    OpensConcat(v, x);
    if |items| == 1 {
      assert ParseItems(v + x) == Done([Mean(items[0])], r) && MeanItems(items) == [Mean(items[0])];
    } else {
      assert ParseItems(v + x) == Done([Mean(items[0])] + MeanItems(items[1..]), r);
    }
  }

  lemma {:induction false} EntriesRoundTrip(entries: seq<Entry>, r: string, first: bool)
    requires WfEntries(entries) && entries != []
    ensures var s := EntriesText(entries) + (" }" + r);
      Opens(s) && SkipBlanks(s) == s && ParseEntries(s, first) == Done(MeanEntries(entries), r)
    decreases entries, 0
  {
    hide ValueText, Mean, Wf, ParsePair, PairText, EndsToken, TokenChar;
    var e := entries[0];
    assert e in entries;
    var v, end := PairText(e.key, ValueText(e.value)), " }" + r;
    ValueOpens(e.value);
    assert end == " " + "}" + r;
    AfterValue('}', r);
    var x := if |entries| == 1 then end else ", " + (EntriesText(entries[1..]) + end);
    if |entries| == 1 {
      NilRight(v);
    } else {
      EntriesRoundTrip(entries[1..], r, false);
      AfterComma(EntriesText(entries[1..]) + end);
      Assoc4(v, ", ", EntriesText(entries[1..]), end);
      Assoc(v, ", ", EntriesText(entries[1..]));
    }
    assert EntriesText(entries) + end == v + x;
    ValueRoundTrip(e.value, x);
    PairRoundTrip(e.key, ValueText(e.value), Mean(e.value), x);
    OpensConcat(v, x);
    MeanKeys(entries[1..]);
  }

  // ----- lines -----

  lemma PairLine(key: string, d: Doc)
    requires Wf(d)
    ensures ParseLine(PairText(key, ValueText(d))) == Pair(key, Mean(d))
  {
    var v := ValueText(d);
    ValueOpens(d);
    NilRight(v);
    ValueRoundTrip(d, "");
    NilRight(PairText(key, v));
    PairRoundTrip(key, v, Mean(d), "");
    BlankSkipped(PairText(key, v));
  }

  lemma PathStep(s: string, k: string, x: string)
    requires ParseKey(s) == Done(k, x) && SkipBlanks(s) == s && SkipBlanks(x) == x
    ensures x == "]" ==> ParsePath(s) == Done([k], "")
    ensures x != "" && x[0] == '.' && ParsePath(x[1..]).Done? ==>
      ParsePath(s) == Done([k] + ParsePath(x[1..]).value, ParsePath(x[1..]).rest)
  {
    hide ParseKey;
  }

  lemma {:induction false} PathRoundTrip(path: seq<string>)
    requires path != []
    ensures ParsePath(PathText(path) + "]") == Done(path, "")
    decreases |path|
  {
    hide TomlKey, ParseKey, ParsePath;
    var k := TomlKey(path[0]);
    if |path| == 1 {
      NilRight(k);
      KeyRoundTrip(path[0], "]");
      PathStep(k + "]", path[0], "]");
      assert path == [path[0]];
    } else {
      var x := PathText(path[1..]) + "]";
      Assoc4(k, ".", PathText(path[1..]), "]");
      Assoc(k, ".", PathText(path[1..]));
      PathRoundTrip(path[1..]);
      Drop(".", x, 1);
      NilLeft(x);
      KeyRoundTrip(path[0], "." + x);
      PathStep(k + ("." + x), path[0], "." + x);
      assert path == [path[0]] + path[1..];
    }
  }

  lemma HeaderLine(path: seq<string>)
    requires path != []
    ensures ParseLine(HeaderText(path)) == Header(path)
  {
    PathRoundTrip(path);
    var s := HeaderText(path);
    assert s == "[" + (PathText(path) + "]") && s[1..] == PathText(path) + "]";
  }

  // ----- the tree under construction -----

  lemma {:induction false} AtSet(n: Node, path: seq<string>, x: Node)
    requires NodeAt(n, path).Tab?
    ensures NodeAt(SetNode(n, path, x), path) == x
    decreases |path|
  {
    if path != [] {
      AtSet(if path[0] in n.kids then n.kids[path[0]] else ABSENT, path[1..], x);
    }
  }

  lemma {:induction false} SetSet(n: Node, path: seq<string>, x: Node, y: Node)
    requires NodeAt(n, path).Tab?
    ensures SetNode(SetNode(n, path, x), path, y) == SetNode(n, path, y)
    decreases |path|
  {
    if path != [] {
      SetSet(if path[0] in n.kids then n.kids[path[0]] else ABSENT, path[1..], x, y);
    }
  }

  /** One step below a table. */
  lemma {:induction false} Below(n: Node, path: seq<string>, k: string, x: Node)
    requires NodeAt(n, path).Tab?
    ensures var t := NodeAt(n, path);
      && NodeAt(n, path + [k]) == (if k in t.kids then t.kids[k] else ABSENT)
      && SetNode(n, path + [k], x) == SetNode(n, path, t.(kids := t.kids[k := x]))
    decreases |path|
  {
    if path == [] {
      assert [] + [k] == [k] && [k][1..] == [];
    } else {
      assert (path + [k])[1..] == path[1..] + [k];
      Below(if path[0] in n.kids then n.kids[path[0]] else ABSENT, path[1..], k, x);
    }
  }

  lemma {:induction false} RunConcat(l: Loading, a: seq<string>, b: seq<string>)
    ensures Run(l, a + b) == Run(Run(l, a), b)
    decreases |a|
  {
    if a == [] {
      NilLeft(b);
    } else {
      Drop(a, b, 1);
      RunConcat(Step(l, ParseLine(a[0])), a[1..], b);
    }
  }

  lemma RunOne(l: Loading, line: string)
    ensures Run(l, [line]) == Step(l, ParseLine(line))
  {
    assert [line][1..] == [];
  }

  // ----- what the lines of a table build -----

  function ScalarKids(entries: seq<Entry>): map<string, Node> {
    if entries == [] then map[]
    else if entries[0].value.Dict? then ScalarKids(entries[1..])
    else ScalarKids(entries[1..])[entries[0].key := Value(Mean(entries[0].value))]
  }

  function TableKids(entries: seq<Entry>): map<string, Node>
    decreases entries, 0
  {
    if entries == [] then map[]
    else if !entries[0].value.Dict? then TableKids(entries[1..])
    else
      assert entries[0] in entries;
      TableKids(entries[1..])[entries[0].key := NodeOf(entries[0].value.entries)]
  }

  predicate GetsHeader(entries: seq<Entry>) {
    HasScalars(entries) || !HasTables(entries)
  }

  function NodeOf(entries: seq<Entry>): Node
    decreases entries, 1
  {
    Tab(GetsHeader(entries), ScalarKids(entries) + TableKids(entries))
  }

  lemma {:induction false} KidsKeys(entries: seq<Entry>)
    ensures ScalarKids(entries).Keys <= Keys(entries) && TableKids(entries).Keys <= Keys(entries)
    ensures !HasScalars(entries) ==> ScalarKids(entries) == map[]
    ensures HasTables(entries) <==> TableKids(entries) != map[]
    decreases |entries|
  {
    if entries != [] {
      KidsKeys(entries[1..]);
      assert entries == [entries[0]] + entries[1..];
      assert entries[0].value.Dict? ==> entries[0].key in TableKids(entries);
    }
  }

  lemma MergeKid(kids: map<string, Node>, k: string, x: Node, more: map<string, Node>)
    requires k !in more
    ensures kids[k := x] + more == kids + more[k := x]
  {}

  lemma Disjoint(e: Entry, rest: seq<Entry>, kids: map<string, Node>, x: Node)
    requires Keys([e] + rest) !! kids.Keys && e.key !in Keys(rest)
    ensures e.key !in kids && Keys(rest) !! kids.Keys && Keys(rest) !! kids[e.key := x].Keys
  {
    assert e in [e] + rest;
    assert forall f | f in rest :: f in [e] + rest;
  }

  lemma PairStep(root: Node, current: seq<string>, key: string, d: Doc)
    requires Wf(d) && NodeAt(root, current).Tab? && key !in NodeAt(root, current).kids
    ensures var n := NodeAt(root, current);
      Run(Loading(root, current), [PairText(key, ValueText(d))]) ==
      Loading(SetNode(root, current, n.(kids := n.kids[key := Value(Mean(d))])), current)
  {
    hide ParseLine, ValueText, PairText, NodeAt, SetNode, Mean;
    PairLine(key, d);
    RunOne(Loading(root, current), PairText(key, ValueText(d)));
  }

  /** Loading the scalar lines puts every scalar into the open table. */
  lemma {:induction false} ScalarsLoad(entries: seq<Entry>, root: Node, current: seq<string>)
    requires WfEntries(entries) && NodeAt(root, current).Tab? && SetNode(root, current, NodeAt(root, current)) == root
    requires Keys(entries) !! NodeAt(root, current).kids.Keys
    ensures var n := NodeAt(root, current);
      Run(Loading(root, current), ScalarLines(entries)) ==
      Loading(SetNode(root, current, n.(kids := n.kids + ScalarKids(entries))), current)
    decreases |entries|
  {
    hide NodeAt, SetNode, Mean, ValueText, PairText, ParseLine, Wf, Keys, Step;
    var n := NodeAt(root, current);
    if entries == [] {
      assert n.kids + ScalarKids(entries) == n.kids;
    } else {
      var e, rest := entries[0], entries[1..];
      assert entries == [e] + rest;
      var n' := n.(kids := n.kids[e.key := Value(Mean(e.value))]);
      Disjoint(e, rest, n.kids, Value(Mean(e.value)));
      if e.value.Dict? {
        NilLeft(ScalarLines(rest));
        ScalarsLoad(rest, root, current);
      } else {
        PairStep(root, current, e.key, e.value);
        AtSet(root, current, n');
        SetSet(root, current, n', n');
        ScalarsLoad(rest, SetNode(root, current, n'), current);
        RunConcat(Loading(root, current), [PairText(e.key, ValueText(e.value))], ScalarLines(rest));
        SetSet(root, current, n', n'.(kids := n'.kids + ScalarKids(rest)));
        KidsKeys(rest);
        MergeKid(n.kids, e.key, Value(Mean(e.value)), ScalarKids(rest));
      }
    }
  }

  /** The tables of `entries`, set one after the other below `prefix`. */
  function Grow(root: Node, prefix: seq<string>, entries: seq<Entry>): Node
    decreases |entries|
  {
    if entries == [] then root
    else
      Grow(if entries[0].value.Dict? then SetNode(root, prefix + [entries[0].key], NodeOf(entries[0].value.entries)) else root,
           prefix, entries[1..])
  }

  lemma {:induction false} GrowAll(root: Node, prefix: seq<string>, entries: seq<Entry>)
    requires WfEntries(entries) && NodeAt(root, prefix).Tab?
    ensures var n := NodeAt(root, prefix);
      Grow(root, prefix, entries) ==
      if HasTables(entries) then SetNode(root, prefix, n.(kids := n.kids + TableKids(entries))) else root
    decreases |entries|
  {
    hide NodeAt, SetNode, NodeOf, Wf, Keys;
    if entries != [] {
      var n, e, rest := NodeAt(root, prefix), entries[0], entries[1..];
      assert entries == [e] + rest;
      KidsKeys(rest);
      if e.value.Dict? {
        assert e in entries && HasTables(entries);
        var x := NodeOf(e.value.entries);
        Below(root, prefix, e.key, x);
        var n' := n.(kids := n.kids[e.key := x]);
        AtSet(root, prefix, n');
        GrowAll(SetNode(root, prefix, n'), prefix, rest);
        MergeKid(n.kids, e.key, x, TableKids(rest));
        SetSet(root, prefix, n', n'.(kids := n'.kids + TableKids(rest)));
        assert n'.kids + map[] == n'.kids;
      } else {
        assert HasTables(entries) <==> HasTables(rest);
        GrowAll(root, prefix, rest);
      }
    }
  }

  // ----- documents -----

  /** The lines of one table with a header: a fresh table, declared, with its scalars. */
  lemma SectionLoads(sub: seq<Entry>, root: Node, current: seq<string>, header: seq<string>, started: bool)
    requires WfEntries(sub) && header != [] && GetsHeader(sub) && NodeAt(root, header) == ABSENT
    ensures Run(Loading(root, current), SectionLines(sub, header, started)) ==
      Loading(SetNode(root, header, Tab(true, ScalarKids(sub))), header)
  {
    hide NodeAt, SetNode, ScalarLines, HeaderText, ParseLine, ScalarKids;
    var blank := if started then [""] else [];
    var l := Loading(root, current);
    RunConcat(l, blank + [HeaderText(header)], ScalarLines(sub));
    RunConcat(l, blank, [HeaderText(header)]);
    BlankLine(l);
    HeaderLine(header);
    RunOne(l, HeaderText(header));
    var bare := Tab(true, map[]);
    AtSet(root, header, bare);
    SetSet(root, header, bare, bare);
    ScalarsLoad(sub, SetNode(root, header, bare), header);
    SetSet(root, header, bare, Tab(true, map[] + ScalarKids(sub)));
    assert map[] + ScalarKids(sub) == ScalarKids(sub);
  }

  lemma BlankLine(l: Loading)
    ensures Run(l, [""]) == l && Run(l, []) == l
  {
    RunOne(l, "");
  }

  /** The sections of all tables load as those tables, each under its own header. */
  lemma {:induction false} TablesLoad(entries: seq<Entry>, prefix: seq<string>, started: bool, root: Node,
                                      current: seq<string>)
    returns (current': seq<string>)
    requires WfEntries(entries) && NodeAt(root, prefix).Tab?
    requires forall e | e in entries && e.value.Dict? :: e.key !in NodeAt(root, prefix).kids
    ensures Run(Loading(root, current), TableLines(entries, prefix, started)) ==
      Loading(Grow(root, prefix, entries), current')
    decreases entries, 0
  {
    current' := current;
    if entries != [] {
      var e, rest := entries[0], entries[1..];
      assert e in entries && entries == [e] + rest;
      if !e.value.Dict? {
        current' := TablesLoad(rest, prefix, started, root, current);
      } else {
        var sub, header := e.value.entries, prefix + [e.key];
        var section := SectionLines(sub, header, started);
        var below := TableLines(sub, header, started || section != []);
        var node := NodeOf(sub);
        var middle := TableLoads(e, prefix, started, root, current);
        var root' := SetNode(root, header, node);
        Below(root, prefix, e.key, node);
        var n := NodeAt(root, prefix);
        AtSet(root, prefix, n.(kids := n.kids[e.key := node]));
        forall f | f in rest && f.value.Dict? ensures f.key != e.key { assert f.key in Keys(rest); }
        current' := TablesLoad(rest, prefix, started || section + below != [], root', middle);
        RunConcat(Loading(root, current), section + below,
          TableLines(rest, prefix, started || section + below != []));
      }
    }
  }

  /** One table with everything below it. */
  lemma {:induction false} TableLoads(e: Entry, prefix: seq<string>, started: bool, root: Node, current: seq<string>)
    returns (current': seq<string>)
    requires e.value.Dict? && Wf(e.value) && NodeAt(root, prefix).Tab? && e.key !in NodeAt(root, prefix).kids
    ensures var sub, header := e.value.entries, prefix + [e.key];
      var section := SectionLines(sub, header, started);
      Run(Loading(root, current), section + TableLines(sub, header, started || section != [])) ==
      Loading(SetNode(root, header, NodeOf(sub)), current')
    decreases e.value.entries, 1
  {
    hide NodeAt, SetNode, SectionLines, TableLines, NodeOf, Grow, GetsHeader;
    var sub, header := e.value.entries, prefix + [e.key];
    var section := SectionLines(sub, header, started);
    var below := TableLines(sub, header, started || section != []);
    Below(root, prefix, e.key, ABSENT);
    RunConcat(Loading(root, current), section, below);
    if GetsHeader(sub) {
      var root' := SetNode(root, header, Tab(true, ScalarKids(sub)));
      SectionLoads(sub, root, current, header, started);
      AtSet(root, header, Tab(true, ScalarKids(sub)));
      ScalarsAreNoTables(sub);
      current' := TablesLoad(sub, header, started || section != [], root', header);
      GrowDeclared(root, header, sub);
    } else {
      NoSection(sub, header, started);
      current' := TablesLoad(sub, header, started || section != [], root, current);
      GrowImplicit(root, header, sub);
    }
  }

  lemma NoSection(sub: seq<Entry>, header: seq<string>, started: bool)
    requires header != [] && !GetsHeader(sub)
    ensures SectionLines(sub, header, started) == []
  {}

  lemma GrowDeclared(root: Node, header: seq<string>, sub: seq<Entry>)
    requires WfEntries(sub) && GetsHeader(sub) && NodeAt(root, header).Tab?
    ensures Grow(SetNode(root, header, Tab(true, ScalarKids(sub))), header, sub) == SetNode(root, header, NodeOf(sub))
  {
    var mine := Tab(true, ScalarKids(sub));
    AtSet(root, header, mine);
    GrowAll(SetNode(root, header, mine), header, sub);
    SetSet(root, header, mine, NodeOf(sub));
    KidsKeys(sub);
    assert ScalarKids(sub) + map[] == ScalarKids(sub);
  }

  lemma GrowImplicit(root: Node, header: seq<string>, sub: seq<Entry>)
    requires WfEntries(sub) && !GetsHeader(sub) && NodeAt(root, header) == ABSENT
    ensures Grow(root, header, sub) == SetNode(root, header, NodeOf(sub))
  {
    GrowAll(root, header, sub);
    KidsKeys(sub);
    assert map[] + TableKids(sub) == ScalarKids(sub) + TableKids(sub);
  }

  lemma {:induction false} ScalarsAreNoTables(entries: seq<Entry>)
    requires WfEntries(entries)
    ensures forall e | e in entries && e.value.Dict? :: e.key !in ScalarKids(entries)
    decreases |entries|
  {
    if entries != [] {
      ScalarsAreNoTables(entries[1..]);
      KidsKeys(entries[1..]);
      assert entries == [entries[0]] + entries[1..];
      forall e | e in entries && e.value.Dict?
        ensures e.key !in ScalarKids(entries)
      {
        if e in entries[1..] { assert e.key in Keys(entries[1..]); }
      }
    }
  }

  lemma {:induction false} StripKids(entries: seq<Entry>)
    requires WfEntries(entries)
    ensures Plain(NodeOf(entries)) == Table(MeanEntries(entries))
    decreases entries, 1
  {
    KidsKeys(entries);
    MeanKeys(entries);
    var kids := ScalarKids(entries) + TableKids(entries);
    forall k
      ensures k in kids <==> k in MeanEntries(entries)
      ensures k in kids ==> Plain(kids[k]) == MeanEntries(entries)[k]
    {
      StripKid(entries, k);
    }
    assert (map k | k in kids :: Plain(kids[k])) == MeanEntries(entries);
  }

  lemma {:induction false} StripKid(entries: seq<Entry>, k: string)
    requires WfEntries(entries)
    ensures var kids := ScalarKids(entries) + TableKids(entries);
      && (k in kids <==> k in MeanEntries(entries))
      && (k in kids ==> Plain(kids[k]) == MeanEntries(entries)[k])
    decreases entries, 0
  {
    if entries != [] {
      var e, rest := entries[0], entries[1..];
      assert e in entries;
      StripKid(rest, k);
      KidsKeys(rest);
      MeanKeys(rest);
      if k == e.key && e.value.Dict? { StripKids(e.value.entries); }
    }
  }

  /** Loading the lines of a document builds its table. */
  lemma DocumentLoads(entries: seq<Entry>) returns (current: seq<string>)
    requires WfEntries(entries)
    ensures var l := Run(EMPTY, DocumentLines(entries));
      l.Loading? && Plain(l.root) == Table(MeanEntries(entries))
  {
    var root := EMPTY.root;
    var root' := Tab(true, ScalarKids(entries));
    ScalarsLoad(entries, root, []);
    assert map[] + ScalarKids(entries) == ScalarKids(entries);
    ScalarsAreNoTables(entries);
    var scalars := ScalarLines(entries);
    current := TablesLoad(entries, [], scalars != [], root', []);
    RunConcat(EMPTY, scalars, TableLines(entries, [], scalars != []));
    GrowAll(root', [], entries);
    KidsKeys(entries);
    assert ScalarKids(entries) + map[] == ScalarKids(entries);
    StripKids(entries);
  }

  // ----- text -----

  predicate SingleLine(s: string) {
    forall k | 0 <= k < |s| :: s[k] != '\n'
  }

  lemma SingleConcat(a: string, b: string)
    requires SingleLine(a) && SingleLine(b)
    ensures SingleLine(a + b)
  {}

  lemma EscapeSingle(c: char)
    ensures SingleLine(Escape(c))
  {
    if Control(c) { HexSingle(c as nat); }
  }

  lemma HexSingle(n: nat)
    requires n < 0x1_0000
    ensures SingleLine(Hex4(n)) && SingleLine("\\u" + Hex4(n))
  {
    assert forall d: nat | d < 16 :: HexDigit(d) != '\n';
    SingleConcat("\\u", Hex4(n));
  }

  lemma {:induction false} StringSingle(s: string)
    ensures SingleLine(EscapeAll(s))
    decreases |s|
  {
    if s != "" {
      EscapeSingle(s[0]);
      StringSingle(s[1..]);
      SingleConcat(Escape(s[0]), EscapeAll(s[1..]));
    }
  }

  lemma TokenSingle(t: string)
    requires forall c | c in t :: TokenChar(c)
    ensures SingleLine(t)
  {
    forall k | 0 <= k < |t| ensures t[k] != '\n' { assert t[k] in t; }
  }

  lemma KeySingle(k: string)
    ensures SingleLine(TomlKey(k))
  {
    StringSingle(k);
    if BareKey(k) {
      forall i | 0 <= i < |k| ensures k[i] != '\n' { assert k[i] in k; }
    }
  }

  lemma AtomSingle(a: Atom)
    requires a.Opaque? ==> OpaqueText(a.text)
    ensures SingleLine(AtomText(a))
  {
    match a
    case Str(s) => StringSingle(s);
    case Bool(b) =>
    case Int(i) => IntRoundTrip(i); TokenSingle(AtomText(a));
    case Opaque(text) => TokenSingle(text);
  }

  lemma {:induction false} ValueSingle(d: Doc)
    requires Wf(d)
    ensures SingleLine(ValueText(d))
    decreases d, 1
  {
    match d
    case Scalar(a) => AtomSingle(a);
    case Array(items) => ItemsSingle(items);
    case Dict(entries) => EntriesSingle(entries);
  }

  lemma {:induction false} ItemsSingle(items: seq<Doc>)
    requires WfItems(items)
    ensures SingleLine(ItemsText(items))
    decreases items, 0
  {
    if items != [] {
      ValueSingle(items[0]);
      ItemsSingle(items[1..]);
    }
  }

  lemma PairSingle(key: string, value: string)
    requires SingleLine(value)
    ensures SingleLine(PairText(key, value))
  {
    KeySingle(key);
  }

  lemma {:induction false} EntriesSingle(entries: seq<Entry>)
    requires WfEntries(entries)
    ensures SingleLine(EntriesText(entries))
    decreases entries, 0
  {
    if entries != [] {
      assert entries[0] in entries;
      ValueSingle(entries[0].value);
      PairSingle(entries[0].key, ValueText(entries[0].value));
      EntriesSingle(entries[1..]);
    }
  }

  lemma {:induction false} HeaderSingle(path: seq<string>)
    requires path != []
    ensures SingleLine(PathText(path)) && SingleLine(HeaderText(path))
    decreases |path|
  {
    KeySingle(path[0]);
    if |path| > 1 { HeaderSingle(path[1..]); }
  }

  predicate AllSingle(lines: seq<string>) {
    forall l | l in lines :: SingleLine(l)
  }

  lemma {:induction false} ScalarLinesSingle(entries: seq<Entry>)
    requires WfEntries(entries)
    ensures AllSingle(ScalarLines(entries))
    decreases |entries|
  {
    if entries != [] {
      ScalarLinesSingle(entries[1..]);
      ValueSingle(entries[0].value);
      PairSingle(entries[0].key, ValueText(entries[0].value));
    }
  }

  lemma {:induction false} TableLinesSingle(entries: seq<Entry>, prefix: seq<string>, started: bool)
    requires WfEntries(entries)
    ensures AllSingle(TableLines(entries, prefix, started))
    decreases entries
  {
    if entries != [] {
      assert entries[0] in entries;
      if !entries[0].value.Dict? {
        TableLinesSingle(entries[1..], prefix, started);
      } else {
        var sub, header := entries[0].value.entries, prefix + [entries[0].key];
        var section := SectionLines(sub, header, started);
        var below := TableLines(sub, header, started || section != []);
        HeaderSingle(header);
        ScalarLinesSingle(sub);
        TableLinesSingle(sub, header, started || section != []);
        TableLinesSingle(entries[1..], prefix, started || section + below != []);
      }
    }
  }

  lemma SplitStep(line: string, r: string)
    requires SingleLine(line)
    ensures SplitLines(line + "\n" + r) == [line] + SplitLines(r)
  {
    var s := line + "\n" + r;
    var i := Find(s, "\n");
    assert s[|line|] == '\n';
    assert Text.At(s, "\n", |line|);
    forall j: nat | j < |line|
      ensures !Text.At(s, "\n", j)
    {
      if Text.At(s, "\n", j) { AtChar(s, "\n", j, 0); }
    }
    assert i == |line| && s[..i] == line && s[i + 1..] == r;
  }

  lemma {:induction false} SplitJoin(lines: seq<string>)
    requires AllSingle(lines) && lines != []
    ensures SplitLines(JoinLines(lines) + "\n") == lines + [""]
    decreases |lines|
  {
    var line := lines[0];
    assert line in lines;
    if |lines| == 1 {
      NilRight(line);
      NilRight(line + "\n");
      SplitStep(line, "");
      LastLine();
      assert lines == [line];
    } else {
      var rest := lines[1..];
      SplitJoin(rest);
      Assoc4(line, "\n", JoinLines(rest), "\n");
      Assoc(line, "\n", JoinLines(rest));
      SplitStep(line, JoinLines(rest) + "\n");
      assert lines + [""] == [line] + (rest + [""]);
    }
  }

  lemma LastLine()
    ensures SplitLines("") == [""]
  {}

  /** The printed document loads as exactly the table it was printed from: the same keys under
      the same tables with the same values, whatever characters the keys and strings hold. */
  lemma RenderRoundTrip(entries: seq<Entry>)
    requires WfEntries(entries)
    ensures Load(Render(entries)) == Some(Mean(Dict(entries)))
  {
    hide Run, SplitLines, JoinLines, DocumentLines, Plain, Mean;
    var lines := DocumentLines(entries);
    var current := DocumentLoads(entries);
    DocumentSingle(entries);
    SplitDocument(lines);
    DocumentRun(lines);
    MeanDict(entries);
  }

  lemma MeanDict(entries: seq<Entry>)
    ensures Mean(Dict(entries)) == Table(MeanEntries(entries))
  {}

  lemma DocumentSingle(entries: seq<Entry>)
    requires WfEntries(entries)
    ensures AllSingle(DocumentLines(entries))
  {
    ScalarLinesSingle(entries);
    TableLinesSingle(entries, [], ScalarLines(entries) != []);
  }

  lemma SplitDocument(lines: seq<string>)
    requires AllSingle(lines)
    ensures SplitLines(JoinLines(lines) + "\n") == if lines == [] then [""] + [""] else lines + [""]
  {
    if lines == [] {
      NilRight("" + "\n");
      SplitStep("", "");
      LastLine();
    } else {
      SplitJoin(lines);
    }
  }

  /** The blank lines at the end of the text change nothing. */
  lemma DocumentRun(lines: seq<string>)
    ensures Run(EMPTY, if lines == [] then [""] + [""] else lines + [""]) == Run(EMPTY, lines)
  {
    if lines == [] {
      BlankLines(EMPTY);
      BlankLine(EMPTY);
    } else {
      RunConcat(EMPTY, lines, [""]);
      BlankLine(Run(EMPTY, lines));
    }
  }

  lemma BlankLines(l: Loading)
    ensures Run(l, [""] + [""]) == l
  {
    RunConcat(l, [""], [""]);
    BlankLine(l);
  }
}
