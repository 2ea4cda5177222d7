/** The part of a TOML v1.0.0 loader that reads back what the printer writes:
    one header or one key/value pair a line, basic strings, inline tables and arrays. */
module TomlLoader {
  import opened Text
  import opened Toml

  datatype Parsed<T> = Fail | Done(value: T, rest: string)

  function SkipBlanks(s: string): (r: string)
    ensures |r| <= |s|
  {
    if s != "" && (s[0] == ' ' || s[0] == '\t') then SkipBlanks(s[1..]) else s
  }

  // ----- basic strings -----

  function HexValue(c: char): Option<nat> {
    if '0' <= c <= '9' then Some((c as int - '0' as int) as nat)
    else if 'A' <= c <= 'F' then Some((c as int - 'A' as int + 10) as nat)
    else if 'a' <= c <= 'f' then Some((c as int - 'a' as int + 10) as nat)
    else None
  }

  /** The sixteen digits, in either case. */
  lemma HexDigits(n: nat)
    requires n < 16
    ensures HexValue("0123456789abcdef"[n]) == Some(n) == HexValue("0123456789ABCDEF"[n])
  {}

  lemma HexOnly(c: char)
    ensures HexValue(c).Some? <==> c in "0123456789abcdef" || c in "0123456789ABCDEF"
  {}

  /** The number that a run of hexadecimal digits denotes. */
  function HexNumber(s: string): Option<nat> {
    if s == "" then Some(0)
    else
      match (HexNumber(s[..|s| - 1]), HexValue(s[|s| - 1]))
      case (Some(high), Some(low)) => Some(0x10 * high + low)
      case _ => None
  }

  function ScalarValue(n: nat): Option<char> {
    if n < 0xD800 || 0xE000 <= n < 0x11_0000 then Some(n as char) else None
  }

  /** Exactly the codes of characters are read, each as its character. */
  lemma ScalarValues(c: char, n: nat)
    ensures ScalarValue(c as nat) == Some(c)
    ensures ScalarValue(n).Some? ==> ScalarValue(n).value as nat == n
  {}

  /** `width` hexadecimal digits naming a Unicode scalar value. */
  function UnicodeEscape(s: string, width: nat): Parsed<char> {
    if |s| < width then Fail
    else
      match HexNumber(s[..width])
      case None => Fail
      case Some(n) => (match ScalarValue(n) case None => Fail case Some(c) => Done(c, s[width..]))
  }

  /** One character of a basic string, after a backslash. */
  function Unescape(s: string): (p: Parsed<char>)
    ensures p.Done? ==> |p.rest| < |s|
  {
    if s == "" then Fail
    else if s[0] == '\\' then Done('\\', s[1..])
    else if s[0] == '"' then Done('"', s[1..])
    else if s[0] == 'b' then Done('\U{8}', s[1..])
    else if s[0] == 't' then Done('\t', s[1..])
    else if s[0] == 'n' then Done('\n', s[1..])
    else if s[0] == 'f' then Done('\U{C}', s[1..])
    else if s[0] == 'r' then Done('\r', s[1..])
    else if s[0] == 'u' then UnicodeEscape(s[1..], 4)
    else if s[0] == 'U' then UnicodeEscape(s[1..], 8)
    else Fail
  }

  /** The escapes there are: seven letters for one character each, and two that take digits. */
  lemma Escapes(c: char, rest: string)
    ensures c !in "\\\"btnfruU" ==> Unescape([c] + rest) == Fail
    ensures Unescape("u" + rest) == UnicodeEscape(rest, 4) && Unescape("U" + rest) == UnicodeEscape(rest, 8)
  {
    assert ([c] + rest)[0] == c && ("u" + rest)[1..] == rest && ("U" + rest)[1..] == rest;
  }

  /** The rest of a basic string, after its opening quote. */
  function ParseString(s: string): (p: Parsed<string>)
    ensures p.Done? ==> |p.rest| < |s|
    decreases |s|
  {
    if s == "" then Fail
    else if s[0] == '"' then Done("", s[1..])
    else
      var c := if s[0] == '\\' then Unescape(s[1..])
               else if Control(s[0]) && s[0] != '\t' then Fail
               else Done(s[0], s[1..]);
      if c.Fail? then Fail
      else
        var tail := ParseString(c.rest);
        if tail.Fail? then Fail else Done([c.value] + tail.value, tail.rest)
  }

  // ----- keys and scalars -----

  function TakeBare(s: string): (n: nat)
    ensures n <= |s|
  {
    if s != "" && BareChar(s[0]) then 1 + TakeBare(s[1..]) else 0
  }

  function ParseKey(s: string): (p: Parsed<string>)
    ensures p.Done? ==> |p.rest| < |s|
  {
    if s != "" && s[0] == '"' then ParseString(s[1..])
    else
      var n := TakeBare(s);
      if n == 0 then Fail else Done(s[..n], s[n..])
  }

  function TakeToken(s: string): (n: nat)
    ensures n <= |s|
  {
    if s != "" && TokenChar(s[0]) then 1 + TakeToken(s[1..]) else 0
  }

  function IntValue(t: string): int {
    var n: int := NatValue(Unsigned(t));
    if t != "" && t[0] == '-' then -n else n
  }

  function TokenValue(t: string): Option<Atom> {
    if t == "true" then Some(Bool(true))
    else if t == "false" then Some(Bool(false))
    else if IntegerText(t) then Some(Int(IntValue(t)))
    else if OpaqueText(t) then Some(Opaque(t))
    else None
  }

  // ----- values -----

  function ParseValue(s: string): (p: Parsed<Toml>)
    ensures p.Done? ==> |p.rest| < |s|
    decreases |s|, 2
  {
    if s == "" then Fail
    else if s[0] == '"' then
      var p := ParseString(s[1..]);
      if p.Fail? then Fail else Done(Leaf(Str(p.value)), p.rest)
    else if s[0] == '[' then
      var p := ParseItems(SkipBlanks(s[1..]));
      if p.Fail? then Fail else Done(List(p.value), p.rest)
    else if s[0] == '{' then
      var p := ParseEntries(SkipBlanks(s[1..]), true);
      if p.Fail? then Fail else Done(Table(p.value), p.rest)
    else
      var n := TakeToken(s);
      var a := TokenValue(s[..n]);
      if n == 0 || a.None? then Fail else Done(Leaf(a.value), s[n..])
  }

  /** The rest of an array, up to its closing bracket. */
  function ParseItems(s: string): (p: Parsed<seq<Toml>>)
    ensures p.Done? ==> |p.rest| < |s|
    decreases |s|, 3
  {
    if s != "" && s[0] == ']' then Done([], s[1..])
    else
      var v := ParseValue(s);
      if v.Fail? then Fail
      else
        var t := SkipBlanks(v.rest);
        if t != "" && t[0] == ']' then Done([v.value], t[1..])
        else if t != "" && t[0] == ',' then
          var more := ParseItems(SkipBlanks(t[1..]));
          if more.Fail? then Fail else Done([v.value] + more.value, more.rest)
        else Fail
  }

  /** A key, an equals sign and a value. */
  function ParsePair(s: string): (p: Parsed<(string, Toml)>)
    ensures p.Done? ==> |p.rest| < |s|
    decreases |s|, 2
  {
    var k := ParseKey(s);
    if k.Fail? then Fail
    else
      var t := SkipBlanks(k.rest);
      if t == "" || t[0] != '=' then Fail
      else
        var v := ParseValue(SkipBlanks(t[1..]));
        if v.Fail? then Fail else Done((k.value, v.value), v.rest)
  }

  /** The rest of an inline table, up to its closing brace; keys are unique, and no
      comma stands before the brace. */
  function ParseEntries(s: string, first: bool): (p: Parsed<map<string, Toml>>)
    ensures p.Done? ==> |p.rest| < |s|
    decreases |s|, 3
  {
    if first && s != "" && s[0] == '}' then Done(map[], s[1..])
    else
      var v := ParsePair(s);
      if v.Fail? then Fail
      else
        var t := SkipBlanks(v.rest);
        if t != "" && t[0] == '}' then Done(map[v.value.0 := v.value.1], t[1..])
        else if t != "" && t[0] == ',' then
          var more := ParseEntries(SkipBlanks(t[1..]), false);
          if more.Fail? || v.value.0 in more.value then Fail
          else Done(more.value[v.value.0 := v.value.1], more.rest)
        else Fail
  }

  // ----- lines -----

  datatype Line = Blank | Header(path: seq<string>) | Pair(key: string, value: Toml) | Malformed

  /** The rest of a table header: keys separated by dots, then a closing bracket. */
  function ParsePath(s: string): (p: Parsed<seq<string>>)
    ensures p.Done? ==> |p.rest| < |s|
    decreases |s|
  {
    var k := ParseKey(SkipBlanks(s));
    if k.Fail? then Fail
    else
      var t := SkipBlanks(k.rest);
      if t != "" && t[0] == ']' then Done([k.value], t[1..])
      else if t != "" && t[0] == '.' then
        var more := ParsePath(t[1..]);
        if more.Fail? then Fail else Done([k.value] + more.value, more.rest)
      else Fail
  }

  function ParseLine(text: string): Line {
    var s := SkipBlanks(text);
    if s == "" then Blank
    else if s[0] == '[' then
      var p := ParsePath(s[1..]);
      if p.Done? && SkipBlanks(p.rest) == "" then Header(p.value) else Malformed
    else
      var p := ParsePair(s);
      if p.Done? && SkipBlanks(p.rest) == "" then Pair(p.value.0, p.value.1) else Malformed
  }

  // ----- documents -----

  /** A value, or a table that remembers whether a header has declared it. */
  datatype Node = Value(v: Toml) | Tab(declared: bool, kids: map<string, Node>)

  const ABSENT := Tab(false, map[])

  /** The node at a path: an undeclared empty table where nothing is, a value where a value blocks it. */
  function NodeAt(n: Node, path: seq<string>): Node
    decreases |path|
  {
    if path == [] || n.Value? then n
    else NodeAt(if path[0] in n.kids then n.kids[path[0]] else ABSENT, path[1..])
  }

  /** The tree with another node at a path; the parents that are missing become tables. */
  function SetNode(n: Node, path: seq<string>, x: Node): Node
    decreases |path|
  {
    if path == [] then x
    else if n.Value? then n
    else Tab(n.declared, n.kids[path[0] := SetNode(if path[0] in n.kids then n.kids[path[0]] else ABSENT, path[1..], x)])
  }

  datatype Loading = Invalid | Loading(root: Node, current: seq<string>)

  const EMPTY := Loading(Tab(true, map[]), [])

  /** A header opens a table that no earlier header or value has defined; a pair
      goes into the open table under a key that is new there. */
  function Step(l: Loading, line: Line): Loading {
    if l.Invalid? then l
    else
      match line
      case Malformed => Invalid
      case Blank => l
      case Header(path) =>
        var n := NodeAt(l.root, path);
        if n.Value? || n.declared then Invalid else Loading(SetNode(l.root, path, n.(declared := true)), path)
      case Pair(key, value) =>
        var n := NodeAt(l.root, l.current);
        if n.Value? || key in n.kids then Invalid
        else Loading(SetNode(l.root, l.current, n.(kids := n.kids[key := Value(value)])), l.current)
  }

  function Run(l: Loading, lines: seq<string>): Loading
    decreases |lines|
  {
    if lines == [] then l else Run(Step(l, ParseLine(lines[0])), lines[1..])
  }

  function Plain(n: Node): Toml {
    match n
    case Value(v) => v
    case Tab(_, kids) => Table(map k | k in kids :: Plain(kids[k]))
  }

  function SplitLines(text: string): (lines: seq<string>)
    ensures lines != []
  {
    var i := Find(text, "\n");
    if i < 0 then [text] else [text[..i]] + SplitLines(text[i + 1..])
  }

  /** The table a document denotes, or None when it is not well-formed. */
  function Load(text: string): Option<Toml> {
    var l := Run(EMPTY, SplitLines(text));
    if l.Invalid? then None else Some(Plain(l.root))
  }
}
