/** Configuration tables and the printer that writes them as TOML. */
module Toml {
  import opened Text

  /** A scalar. Floats and date-times are kept as the text they are written with. */
  datatype Atom = Str(s: string) | Bool(b: bool) | Int(i: int) | Opaque(text: string)

  /** A table as Python compares it: without the order of its keys. */
  datatype Toml = Leaf(a: Atom) | List(items: seq<Toml>) | Table(m: map<string, Toml>)

  /** A table as Python iterates over it. */
  datatype Doc = Scalar(a: Atom) | Array(items: seq<Doc>) | Dict(entries: seq<Entry>)
  datatype Entry = Entry(key: string, value: Doc)

  function Mean(d: Doc): Toml
    decreases d, 1
  {
    match d
    case Scalar(a) => Leaf(a)
    case Array(items) => List(MeanItems(items))
    case Dict(entries) => Table(MeanEntries(entries))
  }

  function MeanItems(items: seq<Doc>): (r: seq<Toml>)
    ensures |r| == |items|
    decreases items, 0
  {
    if items == [] then [] else [Mean(items[0])] + MeanItems(items[1..])
  }

  function MeanEntries(entries: seq<Entry>): map<string, Toml>
    decreases entries, 0
  {
    if entries == [] then map[]
    else
      assert entries[0] in entries;
      MeanEntries(entries[1..])[entries[0].key := Mean(entries[0].value)]
  }

  function Keys(entries: seq<Entry>): set<string> {
    set e | e in entries :: e.key
  }

  predicate TokenChar(c: char) {
    'a' <= c <= 'z' || 'A' <= c <= 'Z' || '0' <= c <= '9' || c in "+-.:_"
  }

  lemma TokenCharacters(c: char)
    ensures TokenChar(c) <==>
      c in "ABCDEFGHIJKLMNOPQRSTUVWXYZ" || c in "abcdefghijklmnopqrstuvwxyz" || c in "0123456789+-.:_"
  {}

  function Unsigned(t: string): string {
    if t != "" && t[0] == '-' then t[1..] else t
  }

  /** A decimal integer, without leading zeros. */
  predicate IntegerText(t: string) {
    Canonical(Unsigned(t))
  }

  /** A float or date-time text: one token that is neither digits nor a boolean. */
  predicate OpaqueText(t: string) {
    t != "" && (forall c | c in t :: TokenChar(c)) && !Digits(Unsigned(t)) && t != "true" && t != "false"
  }

  /** Keys are unique in every table, opaque scalars are single tokens. */
  predicate Wf(d: Doc)
    decreases d, 1
  {
    match d
    case Scalar(a) => a.Opaque? ==> OpaqueText(a.text)
    case Array(items) => WfItems(items)
    case Dict(entries) => WfEntries(entries)
  }

  predicate WfItems(items: seq<Doc>)
    decreases items, 0
  {
    items == [] || (Wf(items[0]) && WfItems(items[1..]))
  }

  predicate WfEntries(entries: seq<Entry>)
    decreases entries, 0
  {
    entries == [] ||
    (assert entries[0] in entries;
     Wf(entries[0].value) && entries[0].key !in Keys(entries[1..]) && WfEntries(entries[1..]))
  }

  // ----- the printer -----

  function HexDigit(n: nat): char
    requires n < 16
  {
    "0123456789ABCDEF"[n]
  }

  /** Four upper-case hexadecimal digits. */
  function Hex4(n: nat): (h: string)
    requires n < 0x1_0000
    ensures |h| == 4
  {
    [HexDigit(n / 16 / 16 / 16), HexDigit(n / 16 / 16 % 16), HexDigit(n / 16 % 16), HexDigit(n % 16)]
  }

  predicate Control(c: char) {
    c < '\U{20}' || c == '\U{7F}'
  }

  function Escape(c: char): string {
    if c == '\\' then "\\\\"
    else if c == '"' then "\\\""
    else if c == '\U{8}' then "\\b"
    else if c == '\t' then "\\t"
    else if c == '\n' then "\\n"
    else if c == '\U{C}' then "\\f"
    else if c == '\r' then "\\r"
    else if Control(c) then "\\u" + Hex4(c as nat)
    else [c]
  }

  /** Quotes, backslashes and control characters are escaped, and nothing else. */
  lemma EscapesOnly(c: char)
    ensures if c == '"' || c == '\\' || c as nat < 32 || c as nat == 127
            then |Escape(c)| >= 2 && Escape(c)[0] == '\\' else Escape(c) == [c]
  {}

  function EscapeAll(s: string): string {
    if s == "" then "" else Escape(s[0]) + EscapeAll(s[1..])
  }

  function TomlString(s: string): string {
    "\"" + EscapeAll(s) + "\""
  }

  predicate Letter(c: char) {
    'a' <= c <= 'z' || 'A' <= c <= 'Z'
  }

  predicate BareChar(c: char) {
    Letter(c) || Digit(c) || c == '-' || c == '_'
  }

  predicate BareKey(key: string) {
    key != "" && Letter(key[0]) && forall c | c in key :: BareChar(c)
  }

  /** The characters a bare key may hold, and those it may start with. */
  lemma BareCharacters(c: char)
    ensures Letter(c) <==> c in "ABCDEFGHIJKLMNOPQRSTUVWXYZ" || c in "abcdefghijklmnopqrstuvwxyz"
    ensures BareChar(c) <==> c in "ABCDEFGHIJKLMNOPQRSTUVWXYZ" || c in "abcdefghijklmnopqrstuvwxyz" || c in "0123456789_-"
  {}

  function TomlKey(key: string): string {
    if BareKey(key) then key else TomlString(key)
  }

  function AtomText(a: Atom): string {
    match a
    case Str(s) => TomlString(s)
    case Bool(b) => if b then "true" else "false"
    case Int(i) => IntText(i)
    case Opaque(text) => text
  }

  /** A value on one line; tables inside arrays are written inline. */
  function ValueText(d: Doc): string
    decreases d, 1
  {
    match d
    case Scalar(a) => AtomText(a)
    case Array(items) => "[ " + ItemsText(items) + " ]"
    case Dict(entries) => "{ " + EntriesText(entries) + " }"
  }

  function ItemsText(items: seq<Doc>): string
    decreases items, 0
  {
    if items == [] then ""
    else ValueText(items[0]) + if |items| == 1 then "" else ", " + ItemsText(items[1..])
  }

  function EntriesText(entries: seq<Entry>): string
    decreases entries, 0
  {
    if entries == [] then ""
    else
      assert entries[0] in entries;
      PairText(entries[0].key, ValueText(entries[0].value))
      + if |entries| == 1 then "" else ", " + EntriesText(entries[1..])
  }

  function PairText(key: string, value: string): string {
    TomlKey(key) + " = " + value
  }

  function PathText(path: seq<string>): string
    requires path != []
  {
    TomlKey(path[0]) + if |path| == 1 then "" else "." + PathText(path[1..])
  }

  function HeaderText(path: seq<string>): string
    requires path != []
  {
    "[" + PathText(path) + "]"
  }

  predicate HasScalars(entries: seq<Entry>) {
    exists e :: e in entries && !e.value.Dict?
  }

  predicate HasTables(entries: seq<Entry>) {
    exists e :: e in entries && e.value.Dict?
  }

  /** One line for each entry that is not a table. */
  function ScalarLines(entries: seq<Entry>): seq<string> {
    if entries == [] then []
    else
      (if entries[0].value.Dict? then [] else [PairText(entries[0].key, ValueText(entries[0].value))])
      + ScalarLines(entries[1..])
  }

  /** Header and scalars of a table, unless it has nothing but tables in it. */
  function SectionLines(sub: seq<Entry>, header: seq<string>, started: bool): seq<string>
    requires header != []
  {
    if HasScalars(sub) || !HasTables(sub) then
      (if started then [""] else []) + [HeaderText(header)] + ScalarLines(sub)
    else []
  }

  /** The sections of all tables below `prefix`, depth first. */
  function TableLines(entries: seq<Entry>, prefix: seq<string>, started: bool): seq<string>
    decreases entries
  {
    if entries == [] then []
    else if !entries[0].value.Dict? then TableLines(entries[1..], prefix, started)
    else
      assert entries[0] in entries;
      var sub, header := entries[0].value.entries, prefix + [entries[0].key];
      var section := SectionLines(sub, header, started);
      var below := TableLines(sub, header, started || section != []);
      section + below + TableLines(entries[1..], prefix, started || section + below != [])
  }

  function DocumentLines(entries: seq<Entry>): seq<string> {
    var scalars := ScalarLines(entries);
    scalars + TableLines(entries, [], scalars != [])
  }

  function JoinLines(lines: seq<string>): string {
    if lines == [] then "" else lines[0] + if |lines| == 1 then "" else "\n" + JoinLines(lines[1..])
  }

  function Render(entries: seq<Entry>): string {
    JoinLines(DocumentLines(entries)) + "\n"
  }

  /** The printer as it runs: lines appended to one list by two nested walks. */
  class Printer {
    var lines: seq<string>

    constructor ()
      ensures lines == []
    {
      lines := [];
    }

    method EmitScalars(table: seq<Entry>)
      modifies this
      ensures lines == old(lines) + ScalarLines(table)
    {
      var i := 0;
      assert table[0..] == table;
      while i < |table|
        invariant 0 <= i <= |table|
        invariant lines + ScalarLines(table[i..]) == old(lines) + ScalarLines(table)
      {
        var e := table[i];
        assert table[i..][1..] == table[i + 1..];
        if !e.value.Dict? {
          var line := PairText(e.key, ValueText(e.value));
          Assoc(lines, [line], ScalarLines(table[i + 1..]));
          lines := lines + [line];
        } else {
          NilLeft(ScalarLines(table[i + 1..]));
        }
        i := i + 1;
      }
      NilRight(lines);
    }

    method EmitSection(sub: seq<Entry>, header: seq<string>)
      requires header != []
      modifies this
      ensures lines == old(lines) + SectionLines(sub, header, old(lines) != [])
    {
      hide ScalarLines, HeaderText, HasScalars, HasTables;
      if HasScalars(sub) || !HasTables(sub) {
        if lines != [] {
          lines := lines + [""];
        }
        lines := lines + [HeaderText(header)];
        EmitScalars(sub);
      }
    }

    method EmitTables(table: seq<Entry>, prefix: seq<string>)
      modifies this
      ensures lines == old(lines) + TableLines(table, prefix, old(lines) != [])
      decreases table
    {
      hide TableLines, HasScalars, HasTables, ScalarLines, HeaderText;
      var i := 0;
      assert table[0..] == table;
      while i < |table|
        invariant 0 <= i <= |table|
        invariant lines + TableLines(table[i..], prefix, lines != []) ==
          old(lines) + TableLines(table, prefix, old(lines) != [])
      {
        var e := table[i];
        TableLinesAt(table, i, prefix, lines != []);
        if e.value.Dict? {
          var sub, header := e.value.entries, prefix + [e.key];
          ghost var before := lines;
          EmitSection(sub, header);
          ghost var section := SectionLines(sub, header, before != []);
          hide SectionLines;
          assert lines != [] <==> before != [] || section != [];
          EmitTables(sub, header);
          ghost var below := TableLines(sub, header, before != [] || section != []);
          Appended(before, section, below, TableLines(table[i + 1..], prefix, lines != []));
        }
        i := i + 1;
      }
      TableLinesEmpty(table[i..], prefix, lines != []);
      NilRight(lines);
    }
  }

  lemma Appended(before: seq<string>, section: seq<string>, below: seq<string>, rest: seq<string>)
    ensures before + section + below + rest == before + (section + below + rest)
    ensures before + section + below != [] <==> before != [] || section + below != []
  {}

  lemma TableLinesAt(table: seq<Entry>, i: nat, prefix: seq<string>, started: bool)
    requires i < |table|
    ensures table[i] in table
    ensures TableLines(table[i..], prefix, started) ==
      if !table[i].value.Dict? then TableLines(table[i + 1..], prefix, started)
      else
        var sub, header := table[i].value.entries, prefix + [table[i].key];
        var section := SectionLines(sub, header, started);
        var below := TableLines(sub, header, started || section != []);
        section + below + TableLines(table[i + 1..], prefix, started || section + below != [])
  {
    assert table[i..][1..] == table[i + 1..];
  }

  lemma TableLinesEmpty(table: seq<Entry>, prefix: seq<string>, started: bool)
    requires table == []
    ensures TableLines(table, prefix, started) == []
  {}

  method RenderToml(data: seq<Entry>) returns (text: string)
    ensures text == Render(data)
  {
    var p := new Printer();
    p.EmitScalars(data);
    NilLeft(ScalarLines(data));
    p.EmitTables(data, []);
    text := JoinLines(p.lines) + "\n";
  }
}
