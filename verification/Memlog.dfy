/** The memory log: a fenced frontmatter and one line per entry, rewritten on every command. */
module Memlog {
  import opened Text

  const FENCE := "---"

  /** The line boundaries of `str.splitlines`. */
  predicate IsBreak(c: char) {
    '\n' <= c <= '\r' || '\U{1C}' <= c <= '\U{1E}' || c == '\U{85}' || c == '\U{2028}' || c == '\U{2029}'
  }

  lemma BreakCharacters(c: char)
    ensures IsBreak(c) <==> c in "\n\U{B}\U{C}\r\U{1C}\U{1D}\U{1E}\U{85}\U{2028}\U{2029}"
  {}

  predicate OneLine(s: string) {
    forall c | c in s :: !IsBreak(c)
  }

  function FirstBreak(s: string): (i: nat)
    ensures i <= |s| && OneLine(s[..i])
    ensures i < |s| ==> IsBreak(s[i])
  {
    if s == "" || IsBreak(s[0]) then 0
    else
      var i := 1 + FirstBreak(s[1..]);
      assert s[..i] == [s[0]] + s[1..][..i - 1];
      i
  }

  /** What follows the first line; a carriage return and the line feed after it are one boundary. */
  function AfterLine(s: string): (r: string)
    requires FirstBreak(s) < |s|
    ensures |r| < |s|
  {
    var i := FirstBreak(s);
    if s[i] == '\r' && i + 1 < |s| && s[i + 1] == '\n' then s[i + 2..] else s[i + 1..]
  }

  function Lines(s: string): seq<string>
    decreases |s|
  {
    if s == "" then [] else if FirstBreak(s) == |s| then [s] else [s[..FirstBreak(s)]] + Lines(AfterLine(s))
  }

  function Join(lines: seq<string>, sep: string): string {
    if lines == [] then "" else if |lines| == 1 then lines[0] else lines[0] + (sep + Join(lines[1..], sep))
  }

  function TrimLeft(s: string): string {
    if s != "" && s[0] == '\n' then TrimLeft(s[1..]) else s
  }

  function TrimRight(s: string): string {
    if s != "" && s[|s| - 1] == '\n' then TrimRight(s[..|s| - 1]) else s
  }

  // ----- frontmatter -----

  type Field = (string, string)

  /** A dictionary in insertion order. */
  type Meta = seq<Field>

  function Get(meta: Meta, key: string): Option<string> {
    if meta == [] then None
    else
      var last := meta[|meta| - 1];
      if last.0 == key then Some(last.1) else Get(meta[..|meta| - 1], key)
  }

  function Replace(meta: Meta, key: string, value: string): Meta {
    if meta == [] then []
    else
      var last := meta[|meta| - 1];
      Replace(meta[..|meta| - 1], key, value) + [if last.0 == key then (key, value) else last]
  }

  function Put(meta: Meta, key: string, value: string): Meta {
    if Get(meta, key).Some? then Replace(meta, key, value) else meta + [(key, value)]
  }

  function Remove(meta: Meta, key: string): Meta {
    if meta == [] then []
    else
      var last := meta[|meta| - 1];
      Remove(meta[..|meta| - 1], key) + if last.0 == key then [] else [last]
  }

  /** Stamp `updated`, last in order. */
  function Touch(meta: Meta, stamp: string): Meta {
    Remove(meta, "updated") + [("updated", stamp)]
  }

  /** A value on one line. */
  function Flat(v: string): string {
    Join(Lines(v), " ")
  }

  function FieldLine(f: Field): string {
    f.0 + (": " + Flat(f.1))
  }

  function FieldLines(meta: Meta): seq<string> {
    if meta == [] then [] else [FieldLine(meta[0])] + FieldLines(meta[1..])
  }

  function Render(meta: Meta, body: string): string {
    FENCE + "\n" + Join(FieldLines(meta), "\n") + "\n" + FENCE + "\n\n" + TrimRight(body) + "\n"
  }

  function ReadLine(meta: Meta, line: string): Meta {
    var i := Find(line, ":");
    if i < 0 then meta else Put(meta, Strip(line[..i]), Strip(line[i + 1..]))
  }

  function ReadFields(lines: seq<string>): Meta {
    if lines == [] then [] else ReadLine(ReadFields(lines[..|lines| - 1]), lines[|lines| - 1])
  }

  /** Index of the first fence, the length if there is none. */
  function FenceAt(lines: seq<string>): (n: nat)
    ensures n <= |lines| && FENCE !in lines[..n]
    ensures n < |lines| ==> lines[n] == FENCE
  {
    if lines == [] || lines[0] == FENCE then 0
    else
      var n := FenceAt(lines[1..]);
      assert lines[..n + 1] == [lines[0]] + lines[1..][..n];
      1 + n
  }

  /** Frontmatter and body; None when the fences are missing. */
  function Split(text: string): Option<(Meta, string)> {
    var lines := Lines(text);
    if lines == [] || lines[0] != FENCE then None
    else
      var n := FenceAt(lines[1..]);
      if n == |lines| - 1 then None
      else Some((ReadFields(lines[1..][..n]), TrimLeft(Join(lines[1..][n + 1..], "\n"))))
  }

  function EntryCount(body: string): nat {
    CountEntries(Lines(body))
  }

  function CountEntries(lines: seq<string>): nat {
    if lines == [] then 0 else (if "- " <= lines[0] then 1 else 0) + CountEntries(lines[1..])
  }

  // ----- entries -----

  function FirstSpace(s: string): (i: nat)
    ensures i <= |s| && forall c | c in s[..i] :: !IsSpace(c)
    ensures s != "" && !IsSpace(s[0]) ==> i > 0
  {
    if s == "" || IsSpace(s[0]) then 0
    else
      var i := 1 + FirstSpace(s[1..]);
      assert s[..i] == [s[0]] + s[1..][..i - 1];
      i
  }

  /** `s.split()`: the runs of non-whitespace. */
  function Words(s: string): seq<string>
    decreases |s|
  {
    var t := LStrip(s);
    if t == "" then [] else [t[..FirstSpace(t)]] + Words(t[FirstSpace(t)..])
  }

  /** The tag of an entry: its kind, who it came from, or both. */
  function Label(kind: string, author: string): string {
    if author == "" then kind else Strip(kind + " by " + author)
  }

  function EntryLine(text: string, kind: string, author: string): string {
    var tag := Label(kind, author);
    "- " + ((if tag == "" then "" else "(" + tag + ") ") + Join(Words(text), " "))
  }

  function Grown(body: string, entry: string): string {
    if Strip(body) == "" then entry else TrimRight(body) + "\n" + entry
  }

  lemma {:induction false} TrimBreaks(kept: string, breaks: string)
    requires (forall c | c in breaks :: c == '\n') && (kept == "" || kept[|kept| - 1] != '\n')
    ensures TrimRight(kept + breaks) == kept
    decreases |breaks|
  {
    if breaks == "" {
      NilRight(kept);
    } else {
      var n := |breaks| - 1;
      var all := kept + breaks;
      assert breaks[n] in breaks && all[|all| - 1] == breaks[n] && all[..|all| - 1] == kept + breaks[..n];
      assert forall c | c in breaks[..n] :: c in breaks;
      TrimBreaks(kept, breaks[..n]);
    }
  }

  lemma StripBlank(s: string)
    ensures Strip(s) == "" <==> AllSpace(s)
  {
    var r := LStrip(s);
    hide IsSpace;
    assert s[..|s|] == s && r[0..] == r;
    if r != "" {
      assert r[0] == s[|s| - |r|] && r[0] in s && r[0] in r;
      assert !AllSpace(r);
    }
  }

  /** An entry comes on a line of its own behind the body, whose line breaks at the end go; a blank
      body gives way to it. */
  lemma GrownMeans(kept: string, breaks: string, entry: string)
    requires (forall c | c in breaks :: c == '\n') && (kept == "" || kept[|kept| - 1] != '\n')
    ensures Grown(kept + breaks, entry) == if AllSpace(kept) then entry else kept + "\n" + entry
  {
    TrimBreaks(kept, breaks);
    StripBlank(kept + breaks);
    assert forall c | c in kept :: c in kept + breaks;
    assert forall c | c in kept + breaks :: c in kept || c in breaks;
    hide Strip, TrimRight;
  }

  // ----- commands -----

  /** The fields of `init`, each `key=value`; None when one has no equals sign. */
  function InitFields(pairs: seq<string>): Option<Meta> {
    if pairs == [] then Some([])
    else
      var before := InitFields(pairs[..|pairs| - 1]);
      var pair := pairs[|pairs| - 1];
      var i := Find(pair, "=");
      if before.None? || i < 0 then None else Some(Put(before.value, Strip(pair[..i]), Strip(pair[i + 1..])))
  }

  lemma {:induction false} InitFieldsPrefix(pairs: seq<string>, n: nat)
    requires n <= |pairs| && InitFields(pairs).Some?
    ensures InitFields(pairs[..n]).Some?
  {
    hide Put, Strip;
    if n < |pairs| {
      InitFieldsPrefix(pairs[..|pairs| - 1], n);
      assert pairs[..|pairs| - 1][..n] == pairs[..n];
    } else {
      assert pairs[..n] == pairs;
    }
  }

  datatype Command = Append(text: string, kind: string, author: string) | Assign(key: string, value: string)

  /** The frontmatter and body a command leaves behind, before they are written. */
  function Revised(meta: Meta, body: string, c: Command, stamp: string): (Meta, string) {
    match c
    case Append(text, kind, author) => (Touch(meta, stamp), Grown(body, EntryLine(text, kind, author)))
    case Assign(key, value) => (Touch(Put(meta, key, value), stamp), body)
  }

  /** The file after a command; None when it cannot be read. */
  function After(text: string, c: Command, stamp: string): Option<string> {
    match Split(text)
    case None => None
    case Some((meta, body)) => var (m, b) := Revised(meta, body, c, stamp); Some(Render(m, b))
  }

  /** What a command reports: the number of entries, or that it refused or raised. */
  datatype Reply = Count(entries: nat) | Refused | Raised

  lemma NothingCounted()
    ensures EntryCount("") == 0
  {
    assert Lines("") == [];
  }

  /** The file on disk, absent before `init`. */
  class Log {
    var file: Option<string>

    constructor ()
      ensures file == None
    {
      file := None;
    }

    method Init(pairs: seq<string>, stamp: string) returns (r: Reply)
      modifies this
      ensures old(file).None? && InitFields(pairs).Some? ==>
        file == Some(Render(Touch(InitFields(pairs).value, stamp), "")) && r == Count(0)
      ensures old(file).Some? || InitFields(pairs).None? ==> file == old(file) && r == Refused
    {
      hide Render, Touch, Lines, Strip, Put;
      if file.Some? {
        return Refused;
      }
      var meta: Meta := [];
      for i := 0 to |pairs|
        invariant InitFields(pairs[..i]) == Some(meta) && file == old(file)
      {
        assert pairs[..i + 1][..i] == pairs[..i];
        var eq := Find(pairs[i], "=");
        if eq < 0 {
          if InitFields(pairs).Some? { InitFieldsPrefix(pairs, i + 1); }
          return Refused;
        }
        meta := Put(meta, Strip(pairs[i][..eq]), Strip(pairs[i][eq + 1..]));
      }
      assert pairs[..|pairs|] == pairs;
      file := Some(Render(Touch(meta, stamp), ""));
      NothingCounted();
      r := Count(EntryCount(""));
    }

    method Do(c: Command, stamp: string) returns (r: Reply)
      modifies this
      ensures old(file).Some? && After(old(file).value, c, stamp).Some? ==>
        && file == After(old(file).value, c, stamp)
        && var (meta, body) := Split(old(file).value).value;
          r == Count(EntryCount(Revised(meta, body, c, stamp).1))
      ensures old(file).None? || After(old(file).value, c, stamp).None? ==> file == old(file) && r == Raised
    {
      if file.None? || Split(file.value).None? {
        return Raised;
      }
      var (meta, body) := Split(file.value).value;
      match c {
        case Append(text, kind, author) =>
          body := Grown(body, EntryLine(text, kind, author));
        case Assign(key, value) =>
          meta := Put(meta, key, value);
      }
      meta := Touch(meta, stamp);
      file := Some(Render(meta, body));
      r := Count(EntryCount(body));
    }
  }

  // ----- lines -----

  lemma {:induction false} BreakAfter(x: string, c: char, y: string)
    requires OneLine(x) && IsBreak(c)
    ensures FirstBreak(x + ([c] + y)) == |x|
  {
    if x == "" {
      NilLeft([c] + y);
    } else {
      assert x[0] in x;
      Drop(x, [c] + y, 1);
      BreakAfter(x[1..], c, y);
    }
  }

  /** A line ends at the line feed after it. */
  lemma LinesCut(x: string, y: string)
    requires OneLine(x)
    ensures Lines(x + ("\n" + y)) == [x] + Lines(y)
  {
    BreakAfter(x, '\n', y);
    var s := x + ("\n" + y);
    hide FirstBreak, IsBreak;
    assert s[..|x|] == x && s[|x| + 1..] == y && s[|x|] == '\n';
  }

  lemma {:induction false} NoBreak(x: string)
    requires OneLine(x)
    ensures FirstBreak(x) == |x|
  {
    if x != "" {
      assert x[0] in x;
      NoBreak(x[1..]);
    }
  }

  lemma LastLine(x: string)
    requires OneLine(x) && x != ""
    ensures Lines(x) == [x] && Lines(x + "\n") == [x]
  {
    NoBreak(x);
    LinesCut(x, "");
    assert "\n" + "" == "\n";
  }

  lemma {:induction false} LinesOneLine(s: string)
    ensures forall l | l in Lines(s) :: OneLine(l)
    decreases |s|
  {
    if s != "" {
      if FirstBreak(s) == |s| { assert s[..|s|] == s; } else { LinesOneLine(AfterLine(s)); }
    }
  }

  lemma {:induction false} JoinOneLine(lines: seq<string>)
    requires forall l | l in lines :: OneLine(l)
    ensures OneLine(Join(lines, " "))
  {
    if lines != [] {
      assert lines[0] in lines;
      if |lines| > 1 { JoinOneLine(lines[1..]); }
    }
  }

  /** A multi-line value becomes one line. */
  lemma FlatOneLine(v: string)
    ensures OneLine(Flat(v))
  {
    LinesOneLine(v);
    JoinOneLine(Lines(v));
  }

  lemma FlatSame(v: string)
    requires OneLine(v)
    ensures Flat(v) == v
  {
    NoBreak(v);
  }

  // ----- field lines -----

  /** No line of the key is a fence. */
  predicate SafeKey(key: string) {
    FENCE !in Lines(key + ":")
  }

  lemma FirstBreakInside(k: string, w: string)
    requires FirstBreak(k) < |k|
    ensures FirstBreak(k + w) == FirstBreak(k)
  {
    if !IsBreak(k[0]) {
      Drop(k, w, 1);
      FirstBreakInside(k[1..], w);
    }
  }

  /** What follows the first line inside a key. */
  function KeyRest(k: string): (r: string)
    requires FirstBreak(k) < |k|
    ensures |r| < |k|
  {
    AfterLine(k)
  }

  lemma AfterKey(k: string, w: string)
    requires FirstBreak(k) < |k| && w != "" && w[0] == ':'
    ensures FirstBreak(k + w) == FirstBreak(k) && AfterLine(k + w) == KeyRest(k) + w
  {
    FirstBreakInside(k, w);
    hide FirstBreak, IsBreak, OneLine;
    AfterAt(k, w, FirstBreak(k));
  }

  lemma AfterAt(k: string, w: string, i: nat)
    requires i < |k| && w != "" && w[0] == ':'
    ensures (k + w)[i] == k[i] && (k + w)[i + 1..] == k[i + 1..] + w
    ensures i + 1 < |k| ==> (k + w)[i + 1] == k[i + 1] && (k + w)[i + 2..] == k[i + 2..] + w
    ensures i + 1 == |k| ==> (k + w)[i + 1] == ':'
  {}

  /** A line break inside the key ends the same first line, whatever follows the key. */
  lemma KeyStep(k: string, w: string)
    requires FirstBreak(k) < |k| && w != "" && w[0] == ':'
    ensures Lines(k + w) == [k[..FirstBreak(k)]] + Lines(KeyRest(k) + w)
  {
    AfterKey(k, w);
    hide FirstBreak, AfterLine, KeyRest, IsBreak;
    assert (k + w)[..FirstBreak(k)] == k[..FirstBreak(k)];
  }

  lemma OneLineCut(k: string, v: string, y: string)
    requires OneLine(k) && OneLine(v)
    ensures Lines(k + (":" + (v + ("\n" + y)))) == Lines(k + (":" + v)) + Lines(y)
    ensures Lines(k + (":" + v)) != []
    ensures FENCE !in Lines(k + (":" + v)) && FENCE !in Lines(k + ":")
  {
    KeyOneLine(k, v);
    KeyOneLine(k, "");
    hide Lines, OneLine;
    NilRight(":");
    LinesCut(k + (":" + v), y);
    AssocColon(k, v, "\n" + y);
  }

  lemma {:induction false} FieldCut(k: string, v: string, y: string)
    requires OneLine(v)
    ensures Lines(k + (":" + (v + ("\n" + y)))) == Lines(k + (":" + v)) + Lines(y)
    ensures Lines(k + (":" + v)) != []
    ensures FENCE in Lines(k + (":" + v)) <==> FENCE in Lines(k + ":")
    decreases |k|
  {
    hide Lines, OneLine;
    var i := FirstBreak(k);
    if i == |k| {
      assert k[..i] == k;
      OneLineCut(k, v, y);
    } else {
      KeyStep(k, ":" + v);
      KeyStep(k, ":" + (v + ("\n" + y)));
      KeyStep(k, ":");
      var rest := KeyRest(k);
      FieldCut(rest, v, y);
      Assoc([k[..i]], Lines(rest + (":" + v)), Lines(y));
    }
  }

  lemma AssocColon(k: string, v: string, x: string)
    ensures k + (":" + v) + x == k + (":" + (v + x))
  {}

  lemma KeyOneLine(k: string, v: string)
    requires OneLine(k) && OneLine(v)
    ensures OneLine(k + (":" + v))
    ensures Lines(k + (":" + v)) == [k + (":" + v)] && k + (":" + v) != FENCE
  {
    var s := k + (":" + v);
    assert s[|k|] == ':';
    LastLine(s);
  }

  // ----- what a written file holds -----

  predicate EntryLike(e: string) {
    OneLine(e) && "- " <= e
  }

  predicate AllEntries(es: seq<string>) {
    forall e | e in es :: EntryLike(e)
  }

  /** Every line the frontmatter takes up. */
  function MetaLines(meta: Meta): seq<string> {
    if meta == [] then [] else Lines(FieldLine(meta[0])) + MetaLines(meta[1..])
  }

  predicate SafeKeys(meta: Meta) {
    forall f | f in meta :: SafeKey(f.0)
  }

  lemma FieldLineCut(f: Field, y: string)
    ensures Lines(FieldLine(f) + ("\n" + y)) == Lines(FieldLine(f)) + Lines(y)
    ensures FENCE in Lines(FieldLine(f)) <==> !SafeKey(f.0)
    ensures Lines(FieldLine(f)) != []
  {
    FlatOneLine(f.1);
    var v := " " + Flat(f.1);
    FieldCut(f.0, v, y);
    AssocColon(f.0, v, "\n" + y);
    assert ":" + v == ": " + Flat(f.1);
  }

  lemma {:induction false} FieldsCut(meta: Meta, y: string)
    requires meta != []
    ensures Lines(Join(FieldLines(meta), "\n") + ("\n" + y)) == MetaLines(meta) + Lines(y)
    ensures FENCE in MetaLines(meta) <==> !SafeKeys(meta)
  {
    hide Lines, FieldLine, SafeKey;
    var f := meta[0];
    assert FieldLines(meta)[1..] == FieldLines(meta[1..]);
    if |meta| == 1 {
      FieldLineCut(f, y);
      assert MetaLines(meta) == Lines(FieldLine(f)) by { assert meta[1..] == []; NilRight(Lines(FieldLine(f))); }
      assert meta == [f];
    } else {
      var rest := Join(FieldLines(meta[1..]), "\n");
      FieldsCut(meta[1..], y);
      FieldLineCut(f, rest + ("\n" + y));
      Assoc(FieldLine(f), "\n" + rest, "\n" + y);
      Assoc("\n", rest, "\n" + y);
      Assoc(Lines(FieldLine(f)), MetaLines(meta[1..]), Lines(y));
      assert meta == [f] + meta[1..];
    }
  }

  lemma {:induction false} EntriesTrim(es: seq<string>)
    requires AllEntries(es)
    ensures TrimRight(Join(es, "\n")) == Join(es, "\n")
    ensures es != [] ==> Join(es, "\n") != "" && Join(es, "\n")[0] == '-' && Join(es, "\n")[|Join(es, "\n")| - 1] != '\n'
  {
    if es != [] {
      var e := es[0];
      assert e in es && e[0] == '-';
      if |es| == 1 {
        assert e[|e| - 1] in e;
      } else {
        EntriesTrim(es[1..]);
      }
    }
  }

  lemma {:induction false} EntryLines(es: seq<string>)
    requires AllEntries(es) && es != []
    ensures Lines(Join(es, "\n") + "\n") == es && Lines(Join(es, "\n")) == es
  {
    var e := es[0];
    assert e in es;
    if |es| == 1 {
      LastLine(e);
      assert es == [e];
    } else {
      var rest := Join(es[1..], "\n");
      EntryLines(es[1..]);
      LinesCut(e, rest);
      LinesCut(e, rest + "\n");
      Assoc(e, "\n" + rest, "\n");
      Assoc("\n", rest, "\n");
      assert es == [e] + es[1..];
    }
  }

  /** The lines a rendered file ends with. */
  function BodyLines(es: seq<string>): seq<string> {
    if es == [] then [""] else es
  }

  lemma RenderShape(meta: Meta, body: string)
    ensures Render(meta, body) ==
      FENCE + ("\n" + (Join(FieldLines(meta), "\n") + ("\n" + (FENCE + ("\n" + ("" + ("\n" + (TrimRight(body) + "\n"))))))))
  {
    hide Join, FieldLines, TrimRight;
    var fields, tail := Join(FieldLines(meta), "\n"), TrimRight(body) + "\n";
    NilLeft("\n" + tail);
    Regroup(FENCE, fields, TrimRight(body));
  }

  lemma Regroup(f: string, a: string, b: string)
    ensures f + "\n" + a + "\n" + f + "\n\n" + b + "\n" == f + ("\n" + (a + ("\n" + (f + ("\n" + ("\n" + (b + "\n")))))))
  {}

  lemma RenderLines(meta: Meta, es: seq<string>)
    requires meta != [] && AllEntries(es)
    ensures Lines(Render(meta, Join(es, "\n"))) ==
      [FENCE] + (MetaLines(meta) + ([FENCE] + ([""] + BodyLines(es))))
  {
    hide Lines, MetaLines, FieldLines, Render;
    var body := Join(es, "\n");
    RenderShape(meta, body);
    EntriesTrim(es);
    if es != [] { EntryLines(es); } else { LastBlank(); }
    var tail := body + "\n";
    LinesCut("", tail);
    LinesCut(FENCE, "" + ("\n" + tail));
    FieldsCut(meta, FENCE + ("\n" + ("" + ("\n" + tail))));
    LinesCut(FENCE, Join(FieldLines(meta), "\n") + ("\n" + (FENCE + ("\n" + ("" + ("\n" + tail))))));
  }

  lemma LastBlank()
    ensures Lines("" + "\n") == [""]
  {
    LinesCut("", "");
    assert "" + ("\n" + "") == "" + "\n";
    assert Lines("") == [];
  }

  lemma FenceAfter(a: seq<string>, b: seq<string>)
    requires FENCE !in a
    ensures FenceAt(a + ([FENCE] + b)) == |a|
  {
    if a == [] {
      NilLeft([FENCE] + b);
    } else {
      Drop(a, [FENCE] + b, 1);
      FenceAfter(a[1..], b);
    }
  }

  lemma BodyBack(es: seq<string>)
    requires AllEntries(es)
    ensures TrimLeft(Join([""] + BodyLines(es), "\n")) == Join(es, "\n")
  {
    EntriesTrim(es);
    var lines := [""] + BodyLines(es);
    assert lines[1..] == BodyLines(es);
    var body := Join(BodyLines(es), "\n");
    assert Join(lines, "\n") == "\n" + body by { NilLeft("\n" + body); }
    assert ("\n" + body)[1..] == body;
  }

  /** A file written with safe keys reads back: the body unchanged, the frontmatter from its lines. */
  lemma RenderReads(meta: Meta, es: seq<string>)
    requires meta != [] && SafeKeys(meta) && AllEntries(es)
    ensures Split(Render(meta, Join(es, "\n"))) == Some((ReadFields(MetaLines(meta)), Join(es, "\n")))
  {
    RenderLines(meta, es);
    FieldsCut(meta, "");
    BodyBack(es);
    hide Lines, MetaLines, Render, Join, SafeKeys, ReadFields;
    var a, b := MetaLines(meta), [""] + BodyLines(es);
    FenceAfter(a, b);
    var rest := a + ([FENCE] + b);
    var lines := Lines(Render(meta, Join(es, "\n")));
    assert lines[1..] == rest;
    assert rest[..|a|] == a && rest[|a| + 1..] == b;
  }

  // ----- what is read back is settled -----

  predicate SettledField(f: Field) {
    OneLine(f.0) && OneLine(f.1) && Strip(f.0) == f.0 && Strip(f.1) == f.1 && ':' !in f.0
  }

  predicate Settled(meta: Meta) {
    && (forall f | f in meta :: SettledField(f))
    && (forall i, j | 0 <= i < j < |meta| :: meta[i].0 != meta[j].0)
  }

  lemma {:induction false} ReplaceSame(meta: Meta, key: string, value: string)
    ensures |Replace(meta, key, value)| == |meta|
    ensures forall i | 0 <= i < |meta| :: Replace(meta, key, value)[i] == if meta[i].0 == key then (key, value) else meta[i]
  {
    if meta != [] { ReplaceSame(meta[..|meta| - 1], key, value); }
  }

  lemma {:induction false} GetNone(meta: Meta, key: string)
    requires Get(meta, key).None?
    ensures forall i | 0 <= i < |meta| :: meta[i].0 != key
  {
    if meta != [] { GetNone(meta[..|meta| - 1], key); }
  }

  lemma PutSettled(meta: Meta, key: string, value: string)
    requires Settled(meta) && SettledField((key, value))
    ensures Settled(Put(meta, key, value))
  {
    hide SettledField;
    if Get(meta, key).None? { GetNone(meta, key); } else { ReplaceSame(meta, key, value); }
  }

  lemma StripPart(s: string)
    requires OneLine(s)
    ensures OneLine(Strip(s)) && Strip(Strip(s)) == Strip(s)
    ensures forall c | c in Strip(s) :: c in s
  {
    hide IsSpace, AllSpace, IsBreak;
    StripIdempotent(s);
    var l := LStrip(s);
    var r := RStrip(l);
    assert r == Strip(s);
    hide LStrip, RStrip, Strip;
    forall c | c in r
      ensures c in s
    {
      assert c in l;
    }
  }

  lemma LineSettled(meta: Meta, line: string)
    requires Settled(meta) && OneLine(line)
    ensures Settled(ReadLine(meta, line))
  {
    hide SettledField, Settled, Put, Strip, OneLine;
    var i := Find(line, ":");
    if i >= 0 {
      LinePart(line, i);
      PutSettled(meta, Strip(line[..i]), Strip(line[i + 1..]));
    }
  }

  lemma {:induction false} ReadSettled(lines: seq<string>)
    requires forall l | l in lines :: OneLine(l)
    ensures Settled(ReadFields(lines))
  {
    hide ReadLine, OneLine, SettledField;
    if lines != [] {
      var n := |lines| - 1;
      forall l | l in lines[..n] ensures OneLine(l) { assert l in lines; }
      ReadSettled(lines[..n]);
      assert lines[n] in lines;
      hide Settled;
      LineSettled(ReadFields(lines[..n]), lines[n]);
    } else {
      assert ReadFields(lines) == [];
    }
  }

  lemma LinePart(line: string, i: nat)
    requires OneLine(line) && i == Find(line, ":")
    ensures SettledField((Strip(line[..i]), Strip(line[i + 1..])))
  {
    hide Strip, IsBreak;
    assert OneLine(line[..i]) && OneLine(line[i + 1..]);
    StripPart(line[..i]);
    StripPart(line[i + 1..]);
    forall j | 0 <= j < i
      ensures line[..i][j] != ':'
    {
      assert line[j..j + 1] == [line[j]];
      assert !At(line, ":", j);
    }
  }

  lemma SplitSettled(text: string)
    requires Split(text).Some?
    ensures Settled(Split(text).value.0)
  {
    LinesOneLine(text);
    var lines := Lines(text);
    var n := FenceAt(lines[1..]);
    assert forall l | l in lines[1..][..n] :: l in lines;
    ReadSettled(lines[1..][..n]);
  }

  lemma SettledSafe(meta: Meta)
    requires Settled(meta)
    ensures SafeKeys(meta)
  {
    forall f | f in meta
      ensures SafeKey(f.0)
    {
      assert SettledField(f);
      OneLineSafe(f.0);
    }
  }

  lemma OneLineSafe(key: string)
    requires OneLine(key)
    ensures SafeKey(key)
  {
    KeyOneLine(key, "");
    NilRight(":");
    assert key + (":" + "") == key + ":";
  }

  lemma {:induction false} RemoveKeeps(meta: Meta, key: string)
    ensures forall f | f in Remove(meta, key) :: f in meta && f.0 != key
    ensures forall f | f in meta && f.0 != key :: f in Remove(meta, key)
  {
    if meta != [] { RemoveKeeps(meta[..|meta| - 1], key); }
  }

  lemma UpdatedSafe()
    ensures SafeKey("updated")
  {
    OneLineSafe("updated");
  }

  lemma TouchSafe(meta: Meta, stamp: string)
    ensures (SafeKeys(Touch(meta, stamp)) <==> SafeKeys(meta)) && Touch(meta, stamp) != []
  {
    RemoveKeeps(meta, "updated");
    UpdatedSafe();
  }

  lemma PutSafe(meta: Meta, key: string, value: string)
    requires SafeKeys(meta)
    ensures SafeKey(key) ==> SafeKeys(Put(meta, key, value))
    ensures exists f :: f in Put(meta, key, value) && f.0 == key
  {
    if Get(meta, key).None? {
      assert (key, value) in Put(meta, key, value);
    } else {
      ReplaceSame(meta, key, value);
      GetSome(meta, key);
    }
  }

  lemma {:induction false} GetSome(meta: Meta, key: string)
    requires Get(meta, key).Some?
    ensures exists i :: 0 <= i < |meta| && meta[i].0 == key
  {
    if meta[|meta| - 1].0 != key {
      GetSome(meta[..|meta| - 1], key);
      var i :| 0 <= i < |meta| - 1 && meta[..|meta| - 1][i].0 == key;
      assert meta[i].0 == key;
    }
  }

  // ----- runs -----

  /** The file reads as exactly these entries. */
  predicate Holds(text: string, es: seq<string>) {
    AllEntries(es) && Split(text).Some? && Split(text).value.1 == Join(es, "\n")
  }

  /** A new log reads as one without entries exactly when its keys are safe. */
  lemma InitHolds(pairs: seq<string>, stamp: string)
    requires InitFields(pairs).Some?
    ensures Holds(Render(Touch(InitFields(pairs).value, stamp), ""), []) <==> SafeKeys(InitFields(pairs).value)
  {
    hide SafeKeys, Touch, Render;
    var meta := Touch(InitFields(pairs).value, stamp);
    TouchSafe(InitFields(pairs).value, stamp);
    if SafeKeys(meta) { RenderReads(meta, []); } else { UnsafeBreaks(meta, []); }
  }

  lemma NoSpaceOneLine(s: string)
    requires forall c | c in s :: !IsSpace(c)
    ensures OneLine(s) && Erase(s) == s
  {
    if s != "" {
      assert s[0] in s && s == [s[0]] + s[1..];
      NoSpaceOneLine(s[1..]);
    }
  }

  lemma LeadingSpace(s: string)
    ensures Erase(s) == Erase(LStrip(s))
  {
    var t := LStrip(s);
    var ws := s[..|s| - |t|];
    assert s == ws + t;
    EraseConcat(ws, t);
    EraseSpace(ws);
    NilLeft(Erase(t));
  }

  lemma WordsStep(s: string)
    requires LStrip(s) != ""
    ensures var t := LStrip(s); var i := FirstSpace(t);
      && Words(s) == [t[..i]] + Words(t[i..]) && |t[i..]| < |s|
      && Erase(s) == Erase(t[..i]) + Erase(t[i..]) && OneLine(t[..i])
  {
    var t := LStrip(s);
    var i := FirstSpace(t);
    LeadingSpace(s);
    NoSpaceOneLine(t[..i]);
    hide OneLine, IsSpace;
    EraseConcat(t[..i], t[i..]);
    Halves(t, i, "");
  }

  lemma {:induction false} WordsOneLine(s: string)
    ensures forall w | w in Words(s) :: OneLine(w)
    ensures Erase(Join(Words(s), " ")) == Erase(s)
    decreases |s|
  {
    var t := LStrip(s);
    if t == "" {
      assert s == s[..|s|];
      EraseSpace(s);
    } else {
      WordsStep(s);
      var w, rest := t[..FirstSpace(t)], t[FirstSpace(t)..];
      hide Words, FirstSpace, LStrip, OneLine, IsSpace;
      WordsOneLine(rest);
      JoinErased(w, Words(rest));
    }
  }

  lemma JoinErased(w: string, words: seq<string>)
    ensures Erase(Join([w] + words, " ")) == Erase(w) + Erase(Join(words, " "))
  {
    var all := [w] + words;
    assert all[1..] == words;
    if words == [] {
      NilRight(Erase(w));
    } else {
      var rest := Join(words, " ");
      EraseConcat(w, " " + rest);
      EraseConcat(" ", rest);
      EraseSpace(" ");
      NilLeft(Erase(rest));
    }
  }

  lemma OneLineConcat(a: string, b: string)
    ensures OneLine(a + b) <==> OneLine(a) && OneLine(b)
  {
    hide IsBreak;
    if OneLine(a + b) {
      forall c | c in a ensures !IsBreak(c) { assert c in a + b; }
      forall c | c in b ensures !IsBreak(c) { assert c in a + b; }
    }
  }

  lemma TagsOneLine()
    ensures OneLine(" by ") && OneLine("(") && OneLine(") ") && OneLine("- ")
  {}

  lemma {:induction false} WordsBehind(ws: string, x: string)
    requires AllSpace(ws)
    ensures Words(ws + x) == Words(x)
  {
    hide AllSpace, IsSpace, FirstSpace;
    SpaceAhead(ws, x);
    WordsTrim(ws + x);
    WordsTrim(x);
  }

  lemma WordsTrim(s: string)
    ensures Words(s) == Words(LStrip(s))
  {
    TrimmedTwice(s);
  }

  lemma TrimmedTwice(s: string)
    ensures LStrip(LStrip(s)) == LStrip(s)
  {}

  lemma {:induction false} SpaceAhead(ws: string, x: string)
    requires AllSpace(ws)
    ensures LStrip(ws + x) == LStrip(x)
    decreases |ws|
  {
    hide IsSpace;
    if ws == "" {
      NilLeft(x);
    } else {
      Drop(ws, x, 1);
      assert ws[0] in ws && forall c | c in ws[1..] :: c in ws;
      SpaceAhead(ws[1..], x);
    }
  }

  predicate Gapped(y: string) {
    y == "" || IsSpace(y[0])
  }

  lemma {:induction false} FirstSpaceAt(w: string, y: string)
    requires (forall c | c in w :: !IsSpace(c)) && Gapped(y)
    ensures FirstSpace(w + y) == |w|
    decreases |w|
  {
    hide IsSpace;
    if w == "" {
      NilLeft(y);
    } else {
      Drop(w, y, 1);
      assert w[0] in w && forall c | c in w[1..] :: c in w;
      FirstSpaceAt(w[1..], y);
    }
  }

  /** A word and what follows it. */
  lemma WordFirst(w: string, y: string)
    requires w != "" && (forall c | c in w :: !IsSpace(c)) && Gapped(y)
    ensures Words(w + y) == [w] + Words(y)
  {
    hide IsSpace;
    FirstSpaceAt(w, y);
    assert w[0] in w && (w + y)[0] == w[0];
    assert LStrip(w + y) == w + y;
    assert (w + y)[..|w|] == w && (w + y)[|w|..] == y;
  }

  /** Across whitespace, the words of two texts are the words of both. */
  lemma {:induction false} WordsJoin(a: string, y: string)
    requires Gapped(y)
    ensures Words(a + y) == Words(a) + Words(y)
    decreases |a|
  {
    hide IsSpace, AllSpace, LStrip, FirstSpace, Gapped;
    var t := LStrip(a);
    var ws := a[..|a| - |t|];
    assert a == ws + t && a + y == ws + (t + y);
    WordsBehind(ws, t + y);
    if t == "" {
      NoWords(a);
      NilLeft(y);
      NilLeft(Words(y));
    } else {
      FirstWord(a);
      var i := FirstSpace(t);
      Halves(t, i, y);
      GappedMore(t[i..], y);
      WordFirst(t[..i], t[i..] + y);
      WordsJoin(t[i..], y);
      WordsStep(a);
      Assoc([t[..i]], Words(t[i..]), Words(y));
    }
  }

  lemma NoWords(a: string)
    requires LStrip(a) == ""
    ensures Words(a) == []
  {}

  lemma GappedMore(x: string, y: string)
    requires Gapped(x) && Gapped(y)
    ensures Gapped(x + y)
  {
    if x == "" { NilLeft(y); }
  }

  lemma FirstWord(a: string)
    requires LStrip(a) != ""
    ensures var t := LStrip(a); var i := FirstSpace(t);
      && 0 < i <= |t| && t[..i] != "" && (forall c | c in t[..i] :: !IsSpace(c)) && Gapped(t[i..]) && |t[i..]| < |a|
  {
    FirstSpaceStops(LStrip(a));
  }

  lemma {:induction false} FirstSpaceStops(s: string)
    ensures FirstSpace(s) < |s| ==> IsSpace(s[FirstSpace(s)])
  {
    if s != "" && !IsSpace(s[0]) { FirstSpaceStops(s[1..]); }
  }

  /** Words with single blanks between them are those words. */
  lemma {:induction false} WordsBack(text: string)
    ensures Words(Join(Words(text), " ")) == Words(text)
    decreases |text|
  {
    hide IsSpace, LStrip, FirstSpace, Join, Words;
    if LStrip(text) == "" {
      NoWords(text);
      EmptyWords();
      JoinNothing();
    } else {
      FirstWord(text);
      WordsStep(text);
      var t := LStrip(text);
      var w, rest := t[..FirstSpace(t)], t[FirstSpace(t)..];
      WordsBack(rest);
      WordAhead(w, Words(rest));
    }
  }

  lemma JoinNothing()
    ensures Join([], " ") == ""
  {}

  lemma WordAhead(w: string, words: seq<string>)
    requires w != "" && (forall c | c in w :: !IsSpace(c)) && Words(Join(words, " ")) == words
    ensures Words(Join([w] + words, " ")) == [w] + words
  {
    hide IsSpace, Words;
    assert ([w] + words)[1..] == words;
    if words == [] {
      NilRight(w);
      WordFirst(w, "");
      EmptyWords();
    } else {
      BlankGap(Join(words, " "));
      WordFirst(w, " " + Join(words, " "));
    }
  }

  lemma EmptyWords()
    ensures Words("") == [] && LStrip("") == ""
  {}

  lemma BlankGap(x: string)
    ensures Gapped(" " + x) && Words(" " + x) == Words(x)
  {
    WordsBehind(" ", x);
  }

  /** An entry is the dash, the label in parentheses if there is one, and the words of the text. */
  lemma EntryWords(text: string, kind: string, author: string)
    ensures var tag := Label(kind, author);
      Words(EntryLine(text, kind, author)) ==
        ["-"] + ((if tag == "" then [] else Words("(" + tag + ")")) + Words(text))
  {
    hide Words, Label;
    var tag, rest := Label(kind, author), Join(Words(text), " ");
    WordsBack(text);
    DashWord((if tag == "" then "" else "(" + tag + ") ") + rest);
    BlankGap(rest);
    if tag == "" {
      NilLeft(rest);
      NilLeft(Words(text));
    } else {
      var shown := "(" + tag + ")";
      assert "(" + tag + ") " == shown + " ";
      Assoc(shown, " ", rest);
      WordsJoin(shown, " " + rest);
    }
  }

  lemma DashWord(x: string)
    ensures Words("- " + x) == ["-"] + Words(x)
  {
    hide Words, IsSpace, Gapped;
    DashIs(x);
    BlankGap(x);
    DashSolid();
    WordFirst("-", " " + x);
  }

  lemma DashIs(x: string)
    ensures "- " + x == "-" + (" " + x)
  {}

  lemma DashSolid()
    ensures (forall c | c in "-" :: !IsSpace(c)) && (forall c | c in "by" :: !IsSpace(c))
  {}

  /** The label is the kind, or who it came from behind `by`, or both; with an author nothing
      but whitespace at its ends is left out. */
  lemma LabelMeans(kind: string, author: string)
    ensures author == "" ==> Label(kind, author) == kind
    ensures author != "" ==> Words(Label(kind, author)) == Words(kind) + (["by"] + Words(author))
    ensures author != "" && !IsSpace(author[|author| - 1]) ==>
      && (kind == "" ==> Label(kind, author) == "by " + author)
      && (kind != "" && !IsSpace(kind[0]) ==> Label(kind, author) == kind + " by " + author)
  {
    hide IsSpace, Words, Strip;
    if author != "" {
      LabelWords(kind, author);
      if !IsSpace(author[|author| - 1]) { LabelEnds(kind, author); }
    }
  }

  lemma LabelWords(kind: string, author: string)
    ensures Words(Strip(kind + " by " + author)) == Words(kind) + (["by"] + Words(author))
  {
    hide *;
    StripWords(kind + " by " + author);
    ByParts(kind, author);
    BlankGap(author);
    BlankGap("by" + (" " + author));
    ByWord(" " + author);
    WordsJoin(kind, " " + ("by" + (" " + author)));
  }

  lemma ByParts(kind: string, author: string)
    ensures kind + " by " + author == kind + (" " + ("by" + (" " + author)))
  {}

  lemma ByWord(y: string)
    requires Gapped(y)
    ensures Words("by" + y) == ["by"] + Words(y)
  {
    hide Words, IsSpace;
    DashSolid();
    WordFirst("by", y);
  }

  lemma LabelEnds(kind: string, author: string)
    requires author != "" && !IsSpace(author[|author| - 1])
    ensures kind == "" ==> Strip(kind + " by " + author) == "by " + author
    ensures kind != "" && !IsSpace(kind[0]) ==> Strip(kind + " by " + author) == kind + " by " + author
  {
    hide IsSpace, Strip;
    LastOf(kind, author);
    if kind == "" {
      BareAuthor(author);
    } else if !IsSpace(kind[0]) {
      SolidEnds(kind + " by " + author);
    }
  }

  lemma LastOf(kind: string, author: string)
    requires author != ""
    ensures var s := kind + " by " + author;
      s != "" && s[|s| - 1] == author[|author| - 1] && (kind != "" ==> s[0] == kind[0])
  {}

  lemma BareAuthor(author: string)
    requires author != "" && !IsSpace(author[|author| - 1])
    ensures Strip("" + " by " + author) == "by " + author
  {
    hide LStrip, RStrip, AllSpace, IsSpace;
    var x := "by " + author;
    assert "" + " by " + author == " " + x;
    BlankSpace();
    SpaceAhead(" ", x);
    assert x[0] == 'b' && x[|x| - 1] == author[|author| - 1];
    SolidEnds(x);
  }

  lemma BlankSpace()
    ensures AllSpace(" ") && !IsSpace('b')
  {}

  lemma SolidEnds(s: string)
    requires s != "" && !IsSpace(s[0]) && !IsSpace(s[|s| - 1])
    ensures Strip(s) == s && RStrip(s) == s && LStrip(s) == s
  {}

  lemma StripWords(s: string)
    ensures Words(Strip(s)) == Words(s)
  {
    hide IsSpace, Words;
    WordsTrim(s);
    var t := LStrip(s);
    RStripSplit(t);
    var u := RStrip(t);
    var ws := t[|u|..];
    SpacesGap(ws);
    WordsJoin(u, ws);
    NilRight(Words(u));
  }

  lemma SpacesGap(ws: string)
    requires AllSpace(ws)
    ensures Gapped(ws) && Words(ws) == []
  {
    if ws != "" { assert ws[0] in ws; }
    NilRight(ws);
    WordsBehind(ws, "");
    EmptyWords();
  }

  /** A value on one line has the words of the value. */
  lemma {:induction false} FlatWords(v: string)
    ensures Words(Flat(v)) == Words(v)
    decreases |v|
  {
    hide Words, IsBreak, FirstBreak;
    if v == "" {
    } else if FirstBreak(v) == |v| {
    } else {
      var x, rest := v[..FirstBreak(v)], AfterLine(v);
      BreakGap(v);
      FlatWords(rest);
      WordsJoin(x, v[FirstBreak(v)..]);
      Halves(v, FirstBreak(v), "");
      assert Lines(v)[1..] == Lines(rest);
      if Lines(rest) == [] {
        assert rest == "" by { LinesSome(rest); }
        EmptyWords();
        NilRight(Words(x));
      } else {
        BlankGap(Flat(rest));
        WordsJoin(x, " " + Flat(rest));
      }
    }
  }

  lemma LinesSome(s: string)
    ensures Lines(s) == [] ==> s == ""
  {}

  /** A line boundary is whitespace. */
  lemma BreakGap(v: string)
    requires FirstBreak(v) < |v|
    ensures var y := v[FirstBreak(v)..]; Gapped(y) && Words(y) == Words(AfterLine(v))
  {
    hide Words, IsSpace, AllSpace, FirstBreak, IsBreak;
    var y := v[FirstBreak(v)..];
    var ws := BreakRun(v);
    SpacesGap(ws);
    assert y[0] == ws[0];
    WordsBehind(ws, AfterLine(v));
  }

  lemma BreakRun(v: string) returns (ws: string)
    requires FirstBreak(v) < |v|
    ensures v[FirstBreak(v)..] == ws + AfterLine(v) && ws != "" && AllSpace(ws)
  {
    hide FirstBreak;
    var i := FirstBreak(v);
    ws := if v[i] == '\r' && i + 1 < |v| && v[i + 1] == '\n' then [v[i], '\n'] else [v[i]];
  }

  /** Each line boundary ends a line; a carriage return and the line feed behind it are one. */
  lemma LinesBroken(x: string, c: char, y: string)
    requires OneLine(x) && IsBreak(c) && (c == '\r' ==> y == "" || y[0] != '\n')
    ensures Lines(x + ([c] + y)) == [x] + Lines(y)
  {
    hide FirstBreak, IsBreak;
    BreakAfter(x, c, y);
    var s := x + ([c] + y);
    assert s[..|x|] == x && s[|x| + 1..] == y && s[|x|] == c;
    assert |x| + 1 < |s| ==> s[|x| + 1] == y[0];
  }

  lemma ReturnAndFeed(x: string, y: string)
    requires OneLine(x)
    ensures Lines(x + ("\r\n" + y)) == [x] + Lines(y)
  {
    hide FirstBreak, IsBreak, OneLine;
    var s := x + ("\r\n" + y);
    assert "\r\n" + y == ['\r'] + ("\n" + y);
    ReturnBreaks();
    BreakAfter(x, '\r', "\n" + y);
    Assoc(x, "\r\n", y);
    PairBehind(x, x + "\r\n", y);
    FeedAfter(s, |x|);
    LinesUnfold(s);
  }

  lemma ReturnBreaks()
    ensures IsBreak('\r')
  {}

  lemma FeedAfter(s: string, n: nat)
    requires FirstBreak(s) == n && n + 1 < |s| && s[n] == '\r' && s[n + 1] == '\n'
    ensures AfterLine(s) == s[n + 2..]
  {
    hide FirstBreak;
  }

  lemma PairBehind(x: string, p: string, y: string)
    requires p == x + "\r\n"
    ensures var s := p + y;
      |s| >= |x| + 2 && s[..|x|] == x && s[|x|] == '\r' && s[|x| + 1] == '\n' && s[|x| + 2..] == y
  {
    assert |p| == |x| + 2 && p[|x|] == '\r' && p[|x| + 1] == '\n' && p[..|x|] == x;
  }

  lemma LinesUnfold(s: string)
    requires FirstBreak(s) < |s|
    ensures Lines(s) == [s[..FirstBreak(s)]] + Lines(AfterLine(s))
  {
    hide FirstBreak, AfterLine;
  }

  /** An entry is one line that starts with a dash exactly when its label is on one line,
      whatever its text; its words are the dash, the label and those of the text. */
  lemma EntryIsOneLine(text: string, kind: string, author: string)
    ensures EntryLike(EntryLine(text, kind, author)) <==> OneLine(Label(kind, author))
    ensures Words(EntryLine(text, kind, author)) ==
      ["-"] + ((if Label(kind, author) == "" then [] else Words("(" + Label(kind, author) + ")")) + Words(text))
  {
    EntryWords(text, kind, author);
    WordsOneLine(text);
    JoinOneLine(Words(text));
    TagsOneLine();
    var tag, rest := Label(kind, author), Join(Words(text), " ");
    hide OneLine, Words, Join, Label;
    OneLineConcat("(", tag);
    OneLineConcat("(" + tag, ") ");
    OneLineConcat("(" + tag + ") ", rest);
    OneLineConcat("- ", rest);
    OneLineConcat("- ", "(" + tag + ") " + rest);
    NilLeft(rest);
    if tag == "" { EmptyOneLine(); }
  }

  lemma EmptyOneLine()
    ensures OneLine("")
  {}

  lemma {:induction false} JoinSnoc(es: seq<string>, e: string)
    requires es != []
    ensures Join(es + [e], "\n") == Join(es, "\n") + "\n" + e
  {
    if |es| > 1 {
      assert (es + [e])[1..] == es[1..] + [e];
      JoinSnoc(es[1..], e);
    } else {
      assert (es + [e])[1..] == [e];
    }
  }

  lemma NotBlank(s: string)
    requires s != "" && !IsSpace(s[0])
    ensures Strip(s) != ""
  {}

  lemma GrownJoins(es: seq<string>, e: string)
    requires AllEntries(es) && EntryLike(e)
    ensures Grown(Join(es, "\n"), e) == Join(es + [e], "\n")
  {
    EntriesTrim(es);
    if es == [] {
      assert es + [e] == [e];
    } else {
      NotBlank(Join(es, "\n"));
      JoinSnoc(es, e);
    }
  }

  /** A line that says what was appended: the dash, the label in parentheses, the words of the text. */
  ghost predicate Says(entry: string, c: Command) {
    && c.Append? && "- " <= entry
    && var tag := Label(c.kind, c.author);
      Words(entry) == ["-"] + ((if tag == "" then [] else Words("(" + tag + ")")) + Words(c.text))
  }

  lemma EntrySays(c: Command)
    requires c.Append?
    ensures Says(EntryLine(c.text, c.kind, c.author), c)
  {
    hide Words, Join;
    EntryWords(c.text, c.kind, c.author);
  }

  /** Appending adds one entry at the end and leaves the rest, exactly when the label is on
      one line. */
  lemma AppendHolds(text: string, es: seq<string>, c: Command, stamp: string)
    requires Holds(text, es) && c.Append?
    ensures After(text, c, stamp).Some?
    ensures Holds(After(text, c, stamp).value, es + [EntryLine(c.text, c.kind, c.author)]) <==>
            OneLine(Label(c.kind, c.author))
    ensures Says(EntryLine(c.text, c.kind, c.author), c)
  {
    EntrySays(c);
    hide Says;
    var e := EntryLine(c.text, c.kind, c.author);
    EntryIsOneLine(c.text, c.kind, c.author);
    hide Split, Grown, Touch, SafeKeys, Settled, EntryLine, EntryLike, Join, Render, Label, OneLine;
    assert e in es + [e];
    if OneLine(Label(c.kind, c.author)) {
      GrownJoins(es, e);
      SplitSettled(text);
      var meta := Split(text).value.0;
      SettledSafe(meta);
      TouchSafe(meta, stamp);
      RenderReads(Touch(meta, stamp), es + [e]);
    }
  }

  /** Setting a field leaves the entries alone exactly when no line of the key is a fence. */
  lemma AssignHolds(text: string, es: seq<string>, c: Command, stamp: string)
    requires Holds(text, es) && c.Assign?
    ensures After(text, c, stamp).Some?
    ensures Holds(After(text, c, stamp).value, es) <==> SafeKey(c.key)
  {
    SplitSettled(text);
    var meta := Split(text).value.0;
    SettledSafe(meta);
    PutSafe(meta, c.key, c.value);
    var m := Put(meta, c.key, c.value);
    if SafeKey(c.key) {
      hide Split, Touch, SafeKeys, SafeKey, Settled, Put, Join, Render;
      TouchSafe(m, stamp);
      RenderReads(Touch(m, stamp), es);
    } else {
      UpdatedSafe();
      RemoveKeeps(m, "updated");
      hide Split, Settled, Put, Join, Render, SafeKey;
      UnsafeBreaks(Touch(m, stamp), es);
    }
  }

  lemma {:induction false} LinesOfJoin(lines: seq<string>, x: string)
    requires (forall l | l in lines :: OneLine(l)) && x in lines && x != ""
    ensures x in Lines(Join(lines, "\n"))
  {
    if |lines| == 1 {
      LastLine(x);
    } else {
      LinesCut(lines[0], Join(lines[1..], "\n"));
      if x in lines[1..] { LinesOfJoin(lines[1..], x); }
    }
  }

  lemma {:induction false} TrimKeepsLine(s: string, x: string)
    requires x in Lines(s) && x != ""
    ensures x in Lines(TrimLeft(s))
  {
    if s != "" && s[0] == '\n' {
      LinesCut("", s[1..]);
      assert s == "" + ("\n" + s[1..]);
      TrimKeepsLine(s[1..], x);
    }
  }

  /** A fence inside the frontmatter ends it early: the real fence becomes part of the body. */
  lemma UnsafeBreaks(meta: Meta, es: seq<string>)
    requires meta != [] && !SafeKeys(meta) && AllEntries(es)
    ensures !Holds(Render(meta, Join(es, "\n")), es)
  {
    var text := Render(meta, Join(es, "\n"));
    RenderLines(meta, es);
    FieldsCut(meta, "");
    LinesOneLine(text);
    NoFenceInside(es);
    hide Lines, MetaLines, Render, SafeKeys, ReadFields, Join, TrimLeft, AllEntries;
    EarlyFence(text, MetaLines(meta), [""] + BodyLines(es));
  }

  lemma EarlyFence(text: string, a: seq<string>, b: seq<string>)
    requires Lines(text) == [FENCE] + (a + ([FENCE] + b)) && FENCE in a
    ensures Split(text).Some? && FENCE in Lines(Split(text).value.1)
  {
    LinesOneLine(text);
    hide Lines, ReadFields, Join, TrimLeft, OneLine;
    var lines := Lines(text);
    var rest := a + ([FENCE] + b);
    assert lines[1..] == rest;
    FenceEarly(a, [FENCE] + b);
    var n := FenceAt(rest);
    var after := rest[n + 1..];
    assert after[|a| - n - 1] == rest[|a|] == FENCE;
    forall l | l in after ensures OneLine(l) { assert l in lines; }
    LinesOfJoin(after, FENCE);
    TrimKeepsLine(Join(after, "\n"), FENCE);
  }

  lemma {:induction false} FenceEarly(a: seq<string>, b: seq<string>)
    requires FENCE in a
    ensures FenceAt(a + b) < |a|
  {
    Drop(a, b, 1);
    if a[0] != FENCE { FenceEarly(a[1..], b); }
  }

  lemma NoFenceInside(es: seq<string>)
    requires AllEntries(es)
    ensures FENCE !in Lines(Join(es, "\n"))
  {
    if es != [] {
      EntryLines(es);
      assert forall e | e in es :: e[1] == ' ';
    } else {
      assert Lines("") == [];
    }
  }

  lemma {:induction false} CountAll(es: seq<string>)
    requires AllEntries(es)
    ensures CountEntries(es) == |es|
  {
    if es != [] {
      assert es[0] in es;
      CountAll(es[1..]);
    }
  }

  function EntryPlaces(lines: seq<string>): set<nat> {
    set i: nat | i < |lines| && |lines[i]| >= 2 && lines[i][0] == '-' && lines[i][1] == ' '
  }

  /** How many lines open with a dash and a space. */
  lemma {:induction false} CountPlaces(lines: seq<string>)
    ensures CountEntries(lines) == |EntryPlaces(lines)|
    decreases |lines|
  {
    if lines != [] {
      var n := |lines| - 1;
      CountPlaces(lines[..n]);
      CountSnoc(lines[..n], lines[n]);
      assert lines == lines[..n] + [lines[n]];
      var here: set<nat> := if "- " <= lines[n] then {n} else {};
      assert EntryPlaces(lines) == EntryPlaces(lines[..n]) + here;
    }
  }

  lemma {:induction false} CountSnoc(lines: seq<string>, line: string)
    ensures CountEntries(lines + [line]) == CountEntries(lines) + CountEntries([line])
    decreases |lines|
  {
    if lines == [] {
      NilLeft([line]);
    } else {
      Drop(lines, [line], 1);
      CountSnoc(lines[1..], line);
    }
  }

  /** The reported count is the number of entries. */
  lemma CountIsExact(es: seq<string>)
    requires AllEntries(es)
    ensures EntryCount(Join(es, "\n")) == |es|
  {
    if es == [] {
      assert Lines("") == [];
    } else {
      EntryLines(es);
      CountAll(es);
    }
  }

  /** Labels on one line, and keys with no fence among their lines. */
  predicate Proper(c: Command) {
    match c
    case Append(_, kind, author) => OneLine(Label(kind, author))
    case Assign(key, _) => SafeKey(key)
  }

  function Appended(commands: seq<Command>): seq<string> {
    if commands == [] then []
    else
      var c := commands[|commands| - 1];
      Appended(commands[..|commands| - 1]) + if c.Append? then [EntryLine(c.text, c.kind, c.author)] else []
  }

  /** The file after a run of commands, each at its own time. */
  function Run(text: string, commands: seq<Command>, stamps: seq<string>): Option<string>
    requires |commands| == |stamps|
  {
    if commands == [] then Some(text)
    else
      var n := |commands| - 1;
      match Run(text, commands[..n], stamps[..n])
      case None => None
      case Some(t) => After(t, commands[n], stamps[n])
  }

  /** The commands that append. */
  function Appends(commands: seq<Command>): seq<Command> {
    if commands == [] then []
    else
      Appends(commands[..|commands| - 1])
      + if commands[|commands| - 1].Append? then [commands[|commands| - 1]] else []
  }

  /** The entries say, one by one, what was appended. */
  lemma {:induction false} AppendedSay(commands: seq<Command>)
    ensures |Appended(commands)| == |Appends(commands)|
    ensures forall i | 0 <= i < |Appends(commands)| :: Says(Appended(commands)[i], Appends(commands)[i])
  {
    hide EntryLine, Says;
    if commands != [] {
      var n := |commands| - 1;
      AppendedSay(commands[..n]);
      if commands[n].Append? { EntrySays(commands[n]); }
    }
  }

  /** Over any run the file reads back as exactly the appended entries, in order, each saying what
      was appended, and the count is their number. */
  lemma {:induction false} RunHolds(pairs: seq<string>, stamp: string, commands: seq<Command>, stamps: seq<string>)
    requires InitFields(pairs).Some? && SafeKeys(InitFields(pairs).value) && |commands| == |stamps|
    requires forall c | c in commands :: Proper(c)
    ensures var r := Run(Render(Touch(InitFields(pairs).value, stamp), ""), commands, stamps);
      && r.Some? && Holds(r.value, Appended(commands))
      && EntryCount(Split(r.value).value.1) == |Appended(commands)| == |Appends(commands)|
      && forall i | 0 <= i < |Appends(commands)| :: Says(Appended(commands)[i], Appends(commands)[i])
  {
    hide Says, EntryCount;
    AppendedSay(commands);
    var start := Render(Touch(InitFields(pairs).value, stamp), "");
    InitHolds(pairs, stamp);
    RunFrom(start, commands, stamps);
    CountIsExact(Appended(commands));
  }

  lemma {:induction false} RunFrom(text: string, commands: seq<Command>, stamps: seq<string>)
    requires Holds(text, []) && |commands| == |stamps| && forall c | c in commands :: Proper(c)
    ensures Run(text, commands, stamps).Some? && Holds(Run(text, commands, stamps).value, Appended(commands))
  {
    if commands != [] {
      var n := |commands| - 1;
      var c := commands[n];
      assert c in commands;
      RunFrom(text, commands[..n], stamps[..n]);
      var t := Run(text, commands[..n], stamps[..n]).value;
      hide Holds, After, EntryLine, OneLine, SafeKey;
      if c.Append? {
        AppendHolds(t, Appended(commands[..n]), c, stamps[n]);
      } else {
        AssignHolds(t, Appended(commands[..n]), c, stamps[n]);
        NilRight(Appended(commands[..n]));
      }
    }
  }

  // ----- the order of fields -----

  function KeyList(meta: Meta): seq<string> {
    if meta == [] then [] else KeyList(meta[..|meta| - 1]) + [meta[|meta| - 1].0]
  }

  lemma {:induction false} ReplaceKeys(meta: Meta, key: string, value: string)
    ensures KeyList(Replace(meta, key, value)) == KeyList(meta)
  {
    if meta != [] {
      var r := Replace(meta, key, value);
      ReplaceKeys(meta[..|meta| - 1], key, value);
      assert r[..|r| - 1] == Replace(meta[..|meta| - 1], key, value);
    }
  }

  /** A new field comes last, and one that is there keeps its place. */
  lemma PutKeys(meta: Meta, key: string, value: string)
    ensures KeyList(Put(meta, key, value)) == KeyList(meta) + if Get(meta, key).Some? then [] else [key]
  {
    if Get(meta, key).Some? {
      ReplaceKeys(meta, key, value);
      NilRight(KeyList(meta));
    } else {
      assert (meta + [(key, value)])[..|meta|] == meta;
    }
  }

  /** Removing a field leaves the others as they are, in their order. */
  lemma {:induction false} RemoveMeans(meta: Meta, key: string, other: string)
    ensures Get(Remove(meta, key), other) == if other == key then None else Get(meta, other)
    ensures key !in KeyList(meta) ==> Remove(meta, key) == meta
  {
    if meta != [] {
      var front, last := meta[..|meta| - 1], meta[|meta| - 1];
      RemoveMeans(front, key, other);
      var r := Remove(front, key);
      if last.0 != key {
        assert (r + [last])[..|r|] == r;
        assert meta == front + [last];
      } else {
        NilRight(r);
      }
    }
  }

  lemma {:induction false} RemoveJoin(a: Meta, b: Meta, key: string)
    ensures Remove(a + b, key) == Remove(a, key) + Remove(b, key)
    decreases |b|
  {
    if b == [] {
      NilRight(a);
      NilRight(Remove(a, key));
    } else {
      var x, f := b[..|b| - 1], b[|b| - 1];
      assert (a + b)[..|a + b| - 1] == a + x;
      RemoveJoin(a, x, key);
      Assoc(Remove(a, key), Remove(x, key), if f.0 == key then [] else [f]);
    }
  }

  /** A field of `init` is what stands before the first equals sign, and its value what stands behind. */
  lemma InitField(pairs: seq<string>, k: string, v: string)
    requires InitFields(pairs).Some? && '=' !in k
    ensures InitFields(pairs + [k + ("=" + v)]) == Some(Put(InitFields(pairs).value, Strip(k), Strip(v)))
    ensures InitFields(pairs + [k]) == None
  {
    hide Put, Strip;
    FirstChar(k, '=', v);
    assert (pairs + [k])[..|pairs|] == pairs && (pairs + [k + ("=" + v)])[..|pairs|] == pairs;
  }

  // ----- fields -----

  /** The value the last field with this key would be read back with. */
  function Latest(meta: Meta, key: string): Option<string> {
    if meta == [] then None
    else
      var last := meta[|meta| - 1];
      if Strip(last.0) == key then Some(Strip(Flat(last.1))) else Latest(meta[..|meta| - 1], key)
  }

  predicate PlainKeys(meta: Meta) {
    forall f | f in meta :: OneLine(f.0) && ':' !in f.0
  }

  lemma {:induction false} GetReplace(meta: Meta, a: string, b: string, c: string)
    ensures Get(Replace(meta, a, b), c) == if a == c && Get(meta, a).Some? then Some(b) else Get(meta, c)
  {
    if meta != [] {
      var r := Replace(meta, a, b);
      assert r[..|r| - 1] == Replace(meta[..|meta| - 1], a, b);
      GetReplace(meta[..|meta| - 1], a, b, c);
    }
  }

  lemma GetPut(meta: Meta, a: string, b: string, c: string)
    ensures Get(Put(meta, a, b), c) == if a == c then Some(b) else Get(meta, c)
  {
    if Get(meta, a).Some? {
      GetReplace(meta, a, b, c);
    } else {
      assert (meta + [(a, b)])[..|meta|] == meta;
    }
  }

  lemma ColonAt(k: string, w: string)
    requires ':' !in k
    ensures Find(k + (": " + w), ":") == |k|
  {
    var s := k + (": " + w);
    assert s[|k|..|k| + 1] == ":";
    assert At(s, ":", |k|);
    forall j: nat | j < |k|
      ensures !At(s, ":", j)
    {
      assert s[j..j + 1] == [k[j]];
      assert k[j] in k;
    }
  }

  lemma StripSpace(s: string)
    ensures Strip(" " + s) == Strip(s)
  {
    assert IsSpace(' ');
    hide IsSpace, AllSpace, RStrip;
    var t := " " + s;
    assert t[0] == ' ' && t[1..] == s;
    assert LStrip(t) == LStrip(s);
  }

  lemma FieldRead(meta: Meta, f: Field)
    requires ':' !in f.0
    ensures ReadLine(meta, FieldLine(f)) == Put(meta, Strip(f.0), Strip(Flat(f.1)))
  {
    hide Strip, Flat, Put, Find, At, IsSpace;
    var line := FieldLine(f);
    ColonAt(f.0, Flat(f.1));
    assert line[..|f.0|] == f.0;
    assert line[|f.0| + 1..] == " " + Flat(f.1);
    StripSpace(Flat(f.1));
  }

  lemma FieldLinePlain(f: Field)
    requires OneLine(f.0)
    ensures Lines(FieldLine(f)) == [FieldLine(f)]
  {
    FlatOneLine(f.1);
    OneLineConcat(" ", Flat(f.1));
    KeyOneLine(f.0, " " + Flat(f.1));
    hide Lines, OneLine, Flat;
    assert ":" + (" " + Flat(f.1)) == ": " + Flat(f.1);
  }

  lemma {:induction false} MetaLinesPlain(meta: Meta)
    requires PlainKeys(meta)
    ensures MetaLines(meta) == FieldLines(meta)
  {
    if meta != [] {
      var f := meta[0];
      assert f in meta;
      FieldLinePlain(f);
      hide Lines, FieldLine, OneLine;
      MetaLinesPlain(meta[1..]);
    }
  }

  lemma {:induction false} FieldLinesSnoc(meta: Meta, f: Field)
    ensures FieldLines(meta + [f]) == FieldLines(meta) + [FieldLine(f)]
  {
    hide FieldLine;
    if meta == [] {
      NilLeft([f]);
      assert [f][1..] == [];
    } else {
      Drop(meta, [f], 1);
      FieldLinesSnoc(meta[1..], f);
    }
  }

  /** The frontmatter reads back by the last field of each key. */
  lemma {:induction false} FieldsReadBack(meta: Meta, key: string)
    requires PlainKeys(meta)
    ensures Get(ReadFields(FieldLines(meta)), key) == Latest(meta, key)
  {
    if meta != [] {
      var before, f := meta[..|meta| - 1], meta[|meta| - 1];
      assert f in meta && meta == before + [f];
      FieldsReadBack(before, key);
      FieldLinesSnoc(before, f);
      var lines := FieldLines(meta);
      assert lines[..|lines| - 1] == FieldLines(before) && lines[|lines| - 1] == FieldLine(f);
      hide FieldLine, Strip, Flat, Put, Get, ReadLine;
      FieldRead(ReadFields(FieldLines(before)), f);
      GetPut(ReadFields(FieldLines(before)), Strip(f.0), Strip(Flat(f.1)), key);
    }
  }

  lemma {:induction false} LatestSettled(meta: Meta, key: string)
    requires Settled(meta)
    ensures Latest(meta, key) == Get(meta, key)
  {
    if meta != [] {
      var f := meta[|meta| - 1];
      assert f in meta && SettledField(f);
      FlatSame(f.1);
      LatestSettled(meta[..|meta| - 1], key);
    }
  }

  lemma {:induction false} LatestRemove(meta: Meta, key: string)
    requires key != "updated"
    ensures Latest(Remove(meta, "updated"), key) == Latest(meta, key)
  {
    UpdatedStripped();
    hide Strip, Flat;
    if meta != [] {
      var f, r := meta[|meta| - 1], Remove(meta, "updated");
      LatestRemove(meta[..|meta| - 1], key);
      if f.0 != "updated" {
        assert r[..|r| - 1] == Remove(meta[..|meta| - 1], "updated");
      } else {
        NilRight(Remove(meta[..|meta| - 1], "updated"));
      }
    }
  }

  lemma UpdatedStripped()
    ensures Strip("updated") == "updated"
  {
    StripSame("updated");
  }

  lemma LatestTouch(meta: Meta, stamp: string, key: string)
    ensures Latest(Touch(meta, stamp), key) == if key == "updated" then Some(Strip(Flat(stamp))) else Latest(meta, key)
  {
    UpdatedStripped();
    hide Strip, Flat;
    var t := Touch(meta, stamp);
    assert t[..|t| - 1] == Remove(meta, "updated");
    if key != "updated" { LatestRemove(meta, key); }
  }

  lemma {:induction false} LatestReplace(meta: Meta, k: string, v: string, key: string)
    requires Settled(meta)
    ensures Latest(Replace(meta, k, v), key) ==
      if key == k && Get(meta, k).Some? then Some(Strip(Flat(v))) else Latest(meta, key)
  {
    hide Strip, Flat, OneLine;
    if meta != [] {
      var before, f, r := meta[..|meta| - 1], meta[|meta| - 1], Replace(meta, k, v);
      assert f in meta && SettledField(f);
      assert r[..|r| - 1] == Replace(before, k, v);
      LatestReplace(before, k, v, key);
    }
  }

  lemma LatestPut(meta: Meta, k: string, v: string, key: string)
    requires Settled(meta)
    ensures Latest(Put(meta, k, v), key) == if key == Strip(k) then Some(Strip(Flat(v))) else Latest(meta, key)
  {
    hide Strip, Flat, OneLine;
    if Get(meta, k).Some? {
      LatestReplace(meta, k, v, key);
      GetSome(meta, k);
      var i :| 0 <= i < |meta| && meta[i].0 == k;
      assert SettledField(meta[i]);
    } else {
      assert (meta + [(k, v)])[..|meta|] == meta;
    }
  }

  lemma UpdatedOneLine()
    ensures OneLine("updated")
  {}

  lemma PutPlain(meta: Meta, k: string, v: string, stamp: string)
    requires Settled(meta) && OneLine(k) && ':' !in k
    ensures PlainKeys(Touch(Put(meta, k, v), stamp))
  {
    RemoveKeeps(Put(meta, k, v), "updated");
    ReplaceSame(meta, k, v);
    hide Get, Replace, Remove, Strip, OneLine;
    forall f | f in Touch(Put(meta, k, v), stamp)
      ensures OneLine(f.0) && ':' !in f.0
    {
      if f == ("updated", stamp) {
        UpdatedOneLine();
      } else {
        assert f in Put(meta, k, v);
        if f.0 != k { assert f in meta && SettledField(f); }
      }
    }
  }

  /** Setting a field and reading the file again: that key has the value on one line,
      `updated` has the stamp, and every other field keeps its value. */
  lemma AssignThenRead(text: string, es: seq<string>, c: Command, stamp: string, key: string)
    requires Holds(text, es) && c.Assign? && OneLine(c.key) && ':' !in c.key
    ensures After(text, c, stamp).Some? && Split(After(text, c, stamp).value).Some?
    ensures Get(Split(After(text, c, stamp).value).value.0, key) ==
      if key == "updated" then Some(Strip(Flat(stamp)))
      else if key == Strip(c.key) then Some(Strip(Flat(c.value)))
      else Get(Split(text).value.0, key)
  {
    SplitSettled(text);
    var meta := Split(text).value.0;
    var m := Touch(Put(meta, c.key, c.value), stamp);
    SettledSafe(meta);
    OneLineSafe(c.key);
    PutSafe(meta, c.key, c.value);
    TouchSafe(Put(meta, c.key, c.value), stamp);
    PutPlain(meta, c.key, c.value, stamp);
    hide Split, Settled, Put, Join, Render, SafeKeys, Lines, PlainKeys, Touch, Strip, Flat, OneLine;
    RenderReads(m, es);
    MetaLinesPlain(m);
    FieldsReadBack(m, key);
    LatestTouch(Put(meta, c.key, c.value), stamp, key);
    LatestPut(meta, c.key, c.value, key);
    LatestSettled(meta, key);
  }

  // ----- the stamp -----

  /** `updated` with this stamp is the last line before the closing fence. */
  predicate StampedLast(text: string, stamp: string) {
    var lines := Lines(text);
    && lines != [] && lines[0] == FENCE
    && 0 < FenceAt(lines[1..]) < |lines| - 1
    && lines[FenceAt(lines[1..])] == "updated: " + Flat(stamp)
  }

  lemma {:induction false} MetaLinesSnoc(meta: Meta, f: Field)
    ensures MetaLines(meta + [f]) == MetaLines(meta) + Lines(FieldLine(f))
  {
    hide FieldLine, Lines;
    if meta == [] {
      NilLeft([f]);
      assert [f][1..] == [];
      NilRight(Lines(FieldLine(f)));
      NilLeft(Lines(FieldLine(f)));
    } else {
      Drop(meta, [f], 1);
      MetaLinesSnoc(meta[1..], f);
      Assoc(Lines(FieldLine(meta[0])), MetaLines(meta[1..]), Lines(FieldLine(f)));
    }
  }

  lemma TouchedLines(meta: Meta, stamp: string)
    ensures MetaLines(Touch(meta, stamp)) == MetaLines(Remove(meta, "updated")) + ["updated: " + Flat(stamp)]
  {
    hide Lines, Flat, Remove, MetaLines, OneLine;
    var f := ("updated", stamp);
    MetaLinesSnoc(Remove(meta, "updated"), f);
    UpdatedOneLine();
    FieldLinePlain(f);
    assert "updated" + (": " + Flat(stamp)) == "updated: " + Flat(stamp);
  }

  /** Every file written with safe keys ends its frontmatter with the stamp. */
  lemma RenderStamped(meta: Meta, es: seq<string>, stamp: string)
    requires SafeKeys(meta) && AllEntries(es)
    ensures StampedLast(Render(Touch(meta, stamp), Join(es, "\n")), stamp)
  {
    TouchSafe(meta, stamp);
    RenderLines(Touch(meta, stamp), es);
    FieldsCut(Touch(meta, stamp), "");
    TouchedLines(meta, stamp);
    hide Lines, MetaLines, Render, Join, SafeKeys, Touch, Flat, AllEntries, FenceAt, Remove;
    LastBeforeFence(MetaLines(Remove(meta, "updated")), "updated: " + Flat(stamp), [""] + BodyLines(es));
  }

  lemma LastBeforeFence(a: seq<string>, x: string, b: seq<string>)
    requires FENCE !in a + [x] && b != []
    ensures var lines := [FENCE] + ((a + [x]) + ([FENCE] + b));
      lines[0] == FENCE && 0 < FenceAt(lines[1..]) < |lines| - 1 && lines[FenceAt(lines[1..])] == x
  {
    var m := a + [x];
    var lines := [FENCE] + (m + ([FENCE] + b));
    assert lines[1..] == m + ([FENCE] + b);
    FenceAfter(m, b);
    assert lines[|m|] == m[|m| - 1];
  }

  lemma AfterStamped(text: string, es: seq<string>, c: Command, stamp: string)
    requires Holds(text, es) && Proper(c)
    ensures After(text, c, stamp).Some? && StampedLast(After(text, c, stamp).value, stamp)
  {
    SplitSettled(text);
    var meta := Split(text).value.0;
    SettledSafe(meta);
    match c {
      case Append(entry, kind, author) =>
        var e := EntryLine(entry, kind, author);
        EntryIsOneLine(entry, kind, author);
        hide Split, Settled, Join, Render, SafeKeys, EntryLine, EntryLike, StampedLast, Touch, Grown, OneLine, Label;
        GrownJoins(es, e);
        RenderStamped(meta, es + [e], stamp);
      case Assign(key, value) =>
        PutSafe(meta, key, value);
        hide Split, Settled, Join, Render, SafeKeys, StampedLast, Touch, Put, SafeKey;
        RenderStamped(Put(meta, key, value), es, stamp);
    }
  }

  /** After any run of proper commands the written file's last line before the closing fence
      is `updated` with the stamp of the last command. */
  lemma UpdatedStaysLast(pairs: seq<string>, stamp: string, commands: seq<Command>, stamps: seq<string>)
    requires InitFields(pairs).Some? && SafeKeys(InitFields(pairs).value) && |commands| == |stamps|
    requires forall c | c in commands :: Proper(c)
    ensures var r := Run(Render(Touch(InitFields(pairs).value, stamp), ""), commands, stamps);
      r.Some? && StampedLast(r.value, if stamps == [] then stamp else stamps[|stamps| - 1])
  {
    hide Render, Touch, SafeKeys, InitFields, StampedLast, After, Holds, Proper, EntryCount, Split;
    var fields := InitFields(pairs).value;
    var start := Render(Touch(fields, stamp), "");
    if commands == [] {
      assert Join([], "\n") == "";
      RenderStamped(fields, [], stamp);
    } else {
      var n := |commands| - 1;
      assert commands[n] in commands && forall c | c in commands[..n] :: c in commands;
      RunHolds(pairs, stamp, commands[..n], stamps[..n]);
      AfterStamped(Run(start, commands[..n], stamps[..n]).value, Appended(commands[..n]), commands[n], stamps[n]);
    }
  }
}
