/** Benchmark suites as spreadsheet rows: what is written, and what reading it back gives. */
module SuiteCells {
  import opened Text

  const SENTINEL := "@@@@@"
  const GAP := "\n\n"

  datatype Entry = Entry(id: string, query: string, answer: string, passages: seq<string>,
                         source: string, difficulty: string, oos: bool)

  datatype Cell = Missing | Number(n: int) | Words(s: string)

  // ----- blank lines -----

  /** Length of the longest whitespace prefix that ends in a line break; 0 if there is none. */
  function Span(s: string): (n: nat)
    ensures n <= |s|
  {
    if s == "" || !IsSpace(s[0]) then 0
    else
      var n := Span(s[1..]);
      if n > 0 then n + 1 else if s[0] == '\n' then 1 else 0
  }

  /** Where the first blank line (a line break, whitespace, another line break) starts. */
  function FirstBlank(s: string): (n: nat)
    ensures n <= |s|
    ensures n < |s| ==> s[n] == '\n' && Span(s[n + 1..]) > 0
  {
    if s == "" || (s[0] == '\n' && Span(s[1..]) > 0) then 0 else 1 + FirstBlank(s[1..])
  }

  predicate NoBlank(s: string) {
    FirstBlank(s) == |s|
  }

  /** What follows the first blank line. */
  function AfterBlank(s: string): string
    requires !NoBlank(s)
  {
    s[FirstBlank(s) + 1..][Span(s[FirstBlank(s) + 1..])..]
  }

  /** Every blank line becomes one line break. */
  function Collapse(s: string): string
    decreases |s|
  {
    if NoBlank(s) then s else s[..FirstBlank(s)] + ("\n" + Collapse(AfterBlank(s)))
  }

  function SplitBlank(s: string): seq<string>
    decreases |s|
  {
    if NoBlank(s) then [s] else [s[..FirstBlank(s)]] + SplitBlank(AfterBlank(s))
  }

  function SplitSentinel(s: string): seq<string>
    decreases |s|
  {
    var i := Find(s, SENTINEL);
    if i < 0 then [s] else [s[..i]] + SplitSentinel(s[i + |SENTINEL|..])
  }

  // ----- cells -----

  /** Stripped, without the empty ones. */
  function Pieces(parts: seq<string>): seq<string> {
    if parts == [] then []
    else (if Strip(parts[0]) == "" then [] else [Strip(parts[0])]) + Pieces(parts[1..])
  }

  function Collapsed(passages: seq<string>): seq<string> {
    if passages == [] then [] else [Collapse(passages[0])] + Collapsed(passages[1..])
  }

  /** The passages as written: no blank line inside, stripped, none empty. */
  function Normalized(passages: seq<string>): seq<string> {
    Pieces(Collapsed(passages))
  }

  function Join(parts: seq<string>): string {
    if parts == [] then "" else if |parts| == 1 then parts[0] else parts[0] + (GAP + Join(parts[1..]))
  }

  function PassagesText(e: Entry): string {
    if e.oos then "N/A" else Join(Normalized(e.passages))
  }

  function SplitPassages(raw: string): seq<string> {
    Pieces(if Find(raw, SENTINEL) >= 0 then SplitSentinel(raw) else SplitBlank(raw))
  }

  predicate WordChar(c: char) {
    Digit(c) || 'a' <= c <= 'z' || 'A' <= c <= 'Z' || c == '_'
  }

  predicate Boundary(s: string, n: nat) {
    |s| <= n || !WordChar(s[n])
  }

  /** The text opens with `n/a`, `na`, `out of scope` or `not applicable`, in any case. */
  predicate OosLike(text: string) {
    var s := Lower(text);
    || ("n/a" <= s && Boundary(s, 3))
    || ("na" <= s && Boundary(s, 2))
    || (|s| >= 12 && s[..3] == "out" && s[3] in "-_ " && s[4..6] == "of" && s[6] in "-_ " && s[7..12] == "scope"
        && Boundary(s, 12))
    || ("not" <= s && |LStrip(s[3..])| < |s| - 3 && "applicable" <= LStrip(s[3..]) && Boundary(LStrip(s[3..]), 10))
  }

  // ----- rows -----

  function Row(e: Entry, i: nat): seq<Cell> {
    [Number(i), Words(e.difficulty), Words(e.query), Words(e.answer), Words(PassagesText(e)), Words(e.source)]
  }

  function Rows(entries: seq<Entry>): seq<seq<Cell>> {
    if entries == [] then []
    else Rows(entries[..|entries| - 1]) + [Row(entries[|entries| - 1], |entries|)]
  }

  /** The suite body, one row per entry, numbered from 1. */
  method SuiteRows(entries: seq<Entry>) returns (rows: seq<seq<Cell>>)
    ensures rows == Rows(entries)
  {
    rows := [];
    for i := 0 to |entries|
      invariant rows == Rows(entries[..i])
    {
      assert entries[..i + 1][..i] == entries[..i];
      rows := rows + [Row(entries[i], i + 1)];
    }
    assert entries[..|entries|] == entries;
  }

  function CellText(c: Cell): string {
    match c
    case Missing => ""
    case Number(n) => IntText(n)
    case Words(s) => Strip(s)
  }

  function CellAt(row: seq<Cell>, i: nat): Cell {
    if i < |row| then row[i] else Missing
  }

  predicate BlankRow(row: seq<Cell>) {
    forall c | c in row :: CellText(c) == ""
  }

  function RowId(c: Cell, count: nat): string {
    var text := CellText(c);
    if c.Number? then "new-" + IntText(c.n)
    else if Digits(text) then "new-" + NatText(NatValue(text))
    else if text == "" then "new-" + NatText(count + 1)
    else text
  }

  /** The entry a row with a query stands for, when `count` entries came before it. */
  function RowEntry(row: seq<Cell>, count: nat): Entry {
    var text := CellText(CellAt(row, 4));
    var oos := OosLike(text);
    Entry(RowId(CellAt(row, 0), count), CellText(CellAt(row, 2)), CellText(CellAt(row, 3)),
          if oos then [] else SplitPassages(text), CellText(CellAt(row, 5)), CellText(CellAt(row, 1)), oos)
  }

  datatype Suite = Suite(entries: seq<Entry>, skipped: nat)

  function Take(suite: Suite, row: seq<Cell>): Suite {
    if BlankRow(row) then suite
    else if CellText(CellAt(row, 2)) == "" then suite.(skipped := suite.skipped + 1)
    else suite.(entries := suite.entries + [RowEntry(row, |suite.entries|)])
  }

  function ReadSuite(rows: seq<seq<Cell>>): Suite {
    if rows == [] then Suite([], 0) else Take(ReadSuite(rows[..|rows| - 1]), rows[|rows| - 1])
  }

  /** The reading loop below the header row. */
  method ReadRows(rows: seq<seq<Cell>>) returns (entries: seq<Entry>, skipped: nat)
    ensures Suite(entries, skipped) == ReadSuite(rows)
  {
    hide RowEntry, BlankRow;
    entries, skipped := [], 0;
    for i := 0 to |rows|
      invariant Suite(entries, skipped) == ReadSuite(rows[..i])
    {
      assert rows[..i + 1][..i] == rows[..i];
      var row := rows[i];
      if BlankRow(row) {
        continue;
      }
      if CellText(CellAt(row, 2)) == "" {
        skipped := skipped + 1;
        continue;
      }
      entries := entries + [RowEntry(row, |entries|)];
    }
    assert rows[..|rows|] == rows;
  }

  // ----- blank lines: lemmas -----

  lemma {:induction false} SpanPrefix(a: string, b: string)
    ensures Span(a) > 0 ==> Span(a + b) > 0
    ensures !AllSpace(a) ==> Span(a + b) == Span(a)
  {
    if a != "" {
      Drop(a, b, 1);
      SpanPrefix(a[1..], b);
    }
  }

  lemma {:induction false} SpanIs(s: string)
    ensures AllSpace(s[..Span(s)])
    ensures Span(s[Span(s)..]) == 0
  {
    if s != "" && IsSpace(s[0]) {
      SpanIs(s[1..]);
      var n := Span(s[1..]);
      if n > 0 {
        assert s[..n + 1] == [s[0]] + s[1..][..n] && s[n + 1..] == s[1..][n..];
      } else if s[0] == '\n' {
        assert s[..1] == [s[0]];
      } else {
        assert s[0..] == s;
      }
    } else {
      assert s[0..] == s;
    }
  }

  /** Whitespace up to a line break has a span. */
  lemma {:induction false} SpaceBreak(a: string, b: string)
    requires AllSpace(a)
    ensures Span(a + ("\n" + b)) > 0
  {
    if a == "" {
      NilLeft("\n" + b);
    } else {
      Drop(a, "\n" + b, 1);
      SpaceBreak(a[1..], b);
    }
  }

  lemma {:induction false} NoBlankPrefix(a: string, b: string)
    requires NoBlank(a + b)
    ensures NoBlank(a)
  {
    if a != "" {
      Drop(a, b, 1);
      NoBlankPrefix(a[1..], b);
      SpanPrefix(a[1..], b);
    }
  }

  lemma {:induction false} NoBlankDrop(s: string, n: nat)
    requires NoBlank(s) && n <= |s|
    ensures NoBlank(s[n..])
  {
    if n > 0 {
      NoBlankDrop(s[1..], n - 1);
      assert s[1..][n - 1..] == s[n..];
    } else {
      assert s[0..] == s;
    }
  }

  /** Text before a line break can be rejoined to anything that starts with one. */
  lemma {:induction false} RejoinBreak(a: string, x: string, y: string)
    requires FirstBlank(a + ("\n" + x)) >= |a| && NoBlank("\n" + y)
    ensures NoBlank(a + ("\n" + y))
  {
    if a == "" {
      NilLeft("\n" + y);
    } else {
      Drop(a, "\n" + x, 1);
      Drop(a, "\n" + y, 1);
      if a[0] == '\n' {
        if AllSpace(a[1..]) { SpaceBreak(a[1..], x); }
        SpanPrefix(a[1..], "\n" + x);
        SpanPrefix(a[1..], "\n" + y);
      }
      RejoinBreak(a[1..], x, y);
    }
  }

  lemma BlankSplit(s: string)
    requires !NoBlank(s)
    ensures var i := FirstBlank(s); s == s[..i] + ("\n" + s[i + 1..])
    ensures var t := s[FirstBlank(s) + 1..];
      t == t[..Span(t)] + AfterBlank(s) && AllSpace(t[..Span(t)]) && Span(AfterBlank(s)) == 0
  {
    hide Span, AllSpace;
    var t := s[FirstBlank(s) + 1..];
    BreakAt(s, FirstBlank(s));
    SpanIs(t);
    Halves(t, Span(t), "");
  }

  lemma BreakAt(s: string, i: nat)
    requires i < |s| && s[i] == '\n'
    ensures s == s[..i] + ("\n" + s[i + 1..])
  {}

  lemma BreakBefore(s: string)
    requires Span(s) == 0 && NoBlank(s)
    ensures NoBlank("\n" + s)
  {
    assert ("\n" + s)[1..] == s;
  }

  lemma SpanOfCollapse(s: string)
    requires Span(s) == 0
    ensures Span(Collapse(s)) == 0
  {
    if !NoBlank(s) {
      var i := FirstBlank(s);
      BlankSplit(s);
      if AllSpace(s[..i]) { SpaceBreak(s[..i], s[i + 1..]); }
      SpanPrefix(s[..i], "\n" + s[i + 1..]);
      SpanPrefix(s[..i], "\n" + Collapse(AfterBlank(s)));
    }
  }

  lemma CollapseStep(s: string)
    requires !NoBlank(s)
    ensures Collapse(s) == s[..FirstBlank(s)] + ("\n" + Collapse(AfterBlank(s))) && |AfterBlank(s)| < |s|
  {}

  /** No blank line survives. */
  lemma {:induction false} CollapseNoBlank(s: string)
    ensures NoBlank(Collapse(s))
    decreases |s|
  {
    if !NoBlank(s) {
      var i, rest := FirstBlank(s), AfterBlank(s);
      BlankSplit(s);
      CollapseStep(s);
      hide Span, AfterBlank, Collapse, AllSpace;
      CollapseNoBlank(rest);
      SpanOfCollapse(rest);
      BreakBefore(Collapse(rest));
      RejoinBreak(s[..i], s[i + 1..], Collapse(rest));
    }
  }

  lemma StripNoBlank(s: string)
    requires NoBlank(s)
    ensures NoBlank(Strip(s))
  {
    var l := LStrip(s);
    NoBlankDrop(s, |s| - |l|);
    RStripSplit(l);
    NoBlankPrefix(RStrip(l), l[|RStrip(l)|..]);
  }

  // ----- clean passages -----

  /** What a normalized passage looks like. */
  predicate Tidy(p: string) {
    p != "" && !IsSpace(p[0]) && !IsSpace(p[|p| - 1]) && NoBlank(p)
  }

  predicate AllTidy(parts: seq<string>) {
    forall p | p in parts :: Tidy(p)
  }

  lemma {:induction false} NormalizedTidy(passages: seq<string>)
    ensures AllTidy(Normalized(passages))
  {
    if passages != [] {
      var c := Collapse(passages[0]);
      CollapseNoBlank(passages[0]);
      StripNoBlank(c);
      StripEnds(c);
      assert Collapsed(passages)[1..] == Collapsed(passages[1..]);
      NormalizedTidy(passages[1..]);
    }
  }

  lemma {:induction false} PiecesTidy(parts: seq<string>)
    requires AllTidy(parts)
    ensures Pieces(parts) == parts
  {
    if parts != [] {
      assert parts[0] in parts && parts == [parts[0]] + parts[1..];
      StripSame(parts[0]);
      PiecesTidy(parts[1..]);
    }
  }

  /** Normalizing twice changes nothing. */
  lemma {:induction false} NormalizedTwice(parts: seq<string>)
    requires AllTidy(parts)
    ensures Normalized(parts) == parts
  {
    if parts != [] {
      assert parts[0] in parts && parts == [parts[0]] + parts[1..];
      StripSame(parts[0]);
      assert Collapsed(parts)[1..] == Collapsed(parts[1..]);
      NormalizedTwice(parts[1..]);
    }
  }

  lemma BlankAtGap(r: string)
    requires Span(r) == 0
    ensures FirstBlank(GAP + r) == 0
  {
    assert (GAP + r)[1..] == "\n" + r && ("\n" + r)[1..] == r;
  }

  lemma LastOfTail(p: string)
    requires |p| > 1 && !IsSpace(p[|p| - 1])
    ensures !AllSpace(p[1..]) && !IsSpace(p[1..][|p| - 2])
  {
    hide IsSpace;
    assert p[1..][|p| - 2] == p[|p| - 1] && p[|p| - 1] in p[1..];
  }

  lemma {:induction false} BlankAfterTidy(p: string, r: string)
    requires NoBlank(p) && Span(r) == 0 && (p == "" || !IsSpace(p[|p| - 1]))
    ensures FirstBlank(p + (GAP + r)) == |p|
  {
    if p == "" {
      BlankAtGap(r);
      NilLeft(GAP + r);
    } else if |p| == 1 {
      BlankAtGap(r);
      Drop(p, GAP + r, 1);
      NilLeft(GAP + r);
      assert p[1..] == "" && p[0] != '\n';
    } else {
      hide Span, IsSpace, AllSpace;
      LastOfTail(p);
      Drop(p, GAP + r, 1);
      SpanPrefix(p[1..], GAP + r);
      BlankAfterTidy(p[1..], r);
    }
  }

  lemma {:induction false} JoinEnds(parts: seq<string>)
    requires AllTidy(parts) && parts != []
    ensures Join(parts) != "" && !IsSpace(Join(parts)[0]) && !IsSpace(Join(parts)[|Join(parts)| - 1])
  {
    assert parts[0] in parts;
    if |parts| > 1 { JoinEnds(parts[1..]); }
  }

  lemma SplitAtGap(p: string, r: string)
    requires Tidy(p) && r != "" && !IsSpace(r[0])
    ensures SplitBlank(p + (GAP + r)) == [p] + SplitBlank(r)
  {
    BlankAfterTidy(p, r);
    SpanAtGap(r);
    hide FirstBlank, Span, IsSpace;
    var s := p + (GAP + r);
    assert s[..|p|] == p;
    CutAtGap(p, r);
  }

  lemma CutAtGap(p: string, r: string)
    ensures var t := (p + (GAP + r))[|p| + 1..]; t == "\n" + r && t[1..] == r
  {}

  lemma SpanAtGap(r: string)
    requires r != "" && !IsSpace(r[0])
    ensures Span("\n" + r) == 1
  {
    assert ("\n" + r)[1..] == r;
  }

  /** Splitting the joined passages at their blank lines gives them back. */
  lemma {:induction false} SplitJoined(parts: seq<string>)
    requires AllTidy(parts) && parts != []
    ensures SplitBlank(Join(parts)) == parts
  {
    var p := parts[0];
    assert p in parts && parts == [p] + parts[1..];
    if |parts| > 1 {
      JoinEnds(parts[1..]);
      SplitAtGap(p, Join(parts[1..]));
      hide SplitBlank, Tidy;
      SplitJoined(parts[1..]);
    } else {
      assert parts == [p];
    }
  }

  // ----- the sentinel -----

  lemma {:induction false} SpaceCarriesNone(ws: string, x: string)
    requires AllSpace(ws)
    ensures NoOcc(ws + x, SENTINEL) <==> NoOcc(x, SENTINEL)
    ensures NoOcc(x + ws, SENTINEL) <==> NoOcc(x, SENTINEL)
  {
    NoOccEmpty();
    if ws == "" {
      NilLeft(x);
      NilRight(x);
    } else {
      var c := ws[0];
      assert c in ws && ws == [c] + ws[1..];
      SpaceCarriesNone(ws[1..], x);
      SpaceCarriesNone(ws[1..], "");
      NilRight(ws[1..]);
      NoOccCut("", c, ws[1..] + x, SENTINEL);
      Assoc([c], ws[1..], x);
      NilLeft([c]);
      NoOccCut(x, c, ws[1..], SENTINEL);
      Assoc(x, [c], ws[1..]);
    }
  }

  lemma NoOccEmpty()
    ensures NoOcc("", SENTINEL)
  {}

  lemma StripCarries(s: string)
    ensures NoOcc(Strip(s), SENTINEL) <==> NoOcc(s, SENTINEL)
  {
    var l := LStrip(s);
    var ws := s[..|s| - |l|];
    assert s == ws + l;
    SpaceCarriesNone(ws, l);
    RStripSplit(l);
    SpaceCarriesNone(l[|RStrip(l)|..], RStrip(l));
  }

  lemma CarriesAcross(a: string, ws: string, x: string, y: string)
    requires AllSpace(ws) && (NoOcc(y, SENTINEL) <==> NoOcc(x, SENTINEL))
    ensures NoOcc(a + ("\n" + y), SENTINEL) <==> NoOcc(a + ("\n" + (ws + x)), SENTINEL)
  {
    hide NoOcc, AllSpace;
    SpaceCarriesNone(ws, x);
    Assoc(a, "\n", ws + x);
    Assoc(a, "\n", y);
    NoOccCut(a, '\n', ws + x, SENTINEL);
    NoOccCut(a, '\n', y, SENTINEL);
  }

  lemma {:induction false} CollapseCarries(s: string)
    ensures NoOcc(Collapse(s), SENTINEL) <==> NoOcc(s, SENTINEL)
    decreases |s|
  {
    if !NoBlank(s) {
      BlankSplit(s);
      CollapseStep(s);
      hide Span, AfterBlank, Collapse, AllSpace, NoOcc, NoBlank;
      CollapseCarries(AfterBlank(s));
      var i := FirstBlank(s);
      var t := s[i + 1..];
      CarriesAcross(s[..i], t[..Span(t)], AfterBlank(s), Collapse(AfterBlank(s)));
    }
  }

  ghost predicate SentinelFree(parts: seq<string>) {
    forall p | p in parts :: NoOcc(p, SENTINEL)
  }

  /** Normalizing neither makes nor hides a sentinel. */
  lemma {:induction false} NormalizedCarries(passages: seq<string>)
    ensures SentinelFree(Normalized(passages)) <==> SentinelFree(passages)
  {
    if passages != [] {
      var p := passages[0];
      assert passages == [p] + passages[1..];
      CollapseCarries(p);
      StripCarries(Collapse(p));
      NoOccEmpty();
      assert Collapsed(passages)[1..] == Collapsed(passages[1..]);
      NormalizedCarries(passages[1..]);
      FreeCons([Strip(Collapse(p))], Normalized(passages[1..]));
      FreeCons([p], passages[1..]);
    }
  }

  lemma FreeCons(a: seq<string>, b: seq<string>)
    ensures SentinelFree(a + b) <==> SentinelFree(a) && SentinelFree(b)
  {
    if SentinelFree(a + b) {
      forall p | p in a ensures NoOcc(p, SENTINEL) { assert p in a + b; }
      forall p | p in b ensures NoOcc(p, SENTINEL) { assert p in a + b; }
    }
  }

  lemma {:induction false} JoinCarries(parts: seq<string>)
    ensures NoOcc(Join(parts), SENTINEL) <==> SentinelFree(parts)
  {
    NoOccEmpty();
    if |parts| == 1 {
      assert parts == [parts[0]];
    } else if parts != [] {
      var p, r := parts[0], Join(parts[1..]);
      assert parts == [p] + parts[1..];
      JoinCarries(parts[1..]);
      FreeCons([p], parts[1..]);
      assert GAP + r == "\n" + ("\n" + r);
      Assoc(p, "\n", "\n" + r);
      NoOccCut(p, '\n', "\n" + r, SENTINEL);
      NilLeft("\n");
      NoOccCut("", '\n', r, SENTINEL);
    }
  }

  lemma {:induction false} SentinelPieces(s: string)
    ensures SentinelFree(SplitSentinel(s))
    decreases |s|
  {
    var i := Find(s, SENTINEL);
    if i >= 0 {
      forall j: nat
        ensures !At(s[..i], SENTINEL, j)
      {
        Halves(s, i, "");
        AtConcat(s[..i], s[i..], SENTINEL, j);
      }
      SentinelPieces(s[i + |SENTINEL|..]);
      FreeCons([s[..i]], SplitSentinel(s[i + |SENTINEL|..]));
    }
  }

  lemma {:induction false} PiecesFree(parts: seq<string>)
    requires SentinelFree(parts)
    ensures SentinelFree(Pieces(parts))
  {
    if parts != [] {
      assert parts[0] in parts;
      StripCarries(parts[0]);
      assert forall p | p in parts[1..] :: p in parts;
      PiecesFree(parts[1..]);
      FreeCons([Strip(parts[0])], Pieces(parts[1..]));
    }
  }

  // ----- what the splits and the collapse mean -----

  function Glued(parts: seq<string>, sep: string): string {
    if parts == [] then "" else if |parts| == 1 then parts[0] else parts[0] + (sep + Glued(parts[1..], sep))
  }

  lemma GluedCons(p: string, parts: seq<string>, sep: string)
    requires parts != []
    ensures Glued([p] + parts, sep) == p + (sep + Glued(parts, sep))
  {
    assert ([p] + parts)[1..] == parts;
  }

  /** Whatever part is not the last ends in no character of the sentinel. */
  predicate Clear(parts: seq<string>) {
    forall i | 0 <= i < |parts| - 1 :: parts[i] == "" || parts[i][|parts[i]| - 1] != '@'
  }

  lemma ClearCons(p: string, parts: seq<string>)
    requires parts != []
    ensures Clear([p] + parts) <==> (p == "" || p[|p| - 1] != '@') && Clear(parts)
  {
    var all := [p] + parts;
    assert forall i | 0 < i < |all| :: all[i] == parts[i - 1];
    if Clear(all) {
      assert all[0] == p;
      forall i | 0 <= i < |parts| - 1
        ensures parts[i] == "" || parts[i][|parts[i]| - 1] != '@'
      {
        assert all[i + 1] == parts[i];
      }
    }
  }

  /** The sentinel behind a part is found there unless it is found earlier. */
  lemma SentinelBehind(p: string, y: string)
    requires NoOcc(p, "@@@@@")
    ensures Find(p + ("@@@@@" + y), "@@@@@") == |p| <==> p == "" || p[|p| - 1] != '@'
  {
    var s := p + ("@@@@@" + y);
    assert s[|p|..|p| + 5] == "@@@@@";
    assert At(s, "@@@@@", |p|);
    if p != "" && p[|p| - 1] == '@' {
      SentinelEarlier(p, y);
    } else {
      forall j: nat | j < |p|
        ensures !At(s, "@@@@@", j)
      {
        AtConcat(p, "@@@@@" + y, "@@@@@", j);
        if j + 5 > |p| { SentinelOver(p, y, j); }
      }
    }
  }

  lemma SentinelEarlier(p: string, y: string)
    requires p != "" && p[|p| - 1] == '@'
    ensures At(p + ("@@@@@" + y), "@@@@@", |p| - 1)
  {
    var s := p + ("@@@@@" + y);
    assert s[|p| - 1] == '@' && s[|p|] == '@' && s[|p| + 1] == '@' && s[|p| + 2] == '@' && s[|p| + 3] == '@';
    assert s[|p| - 1..|p| + 4] == ['@', '@', '@', '@', '@'];
  }

  lemma SentinelOver(p: string, y: string, j: nat)
    requires j < |p| < j + 5 && p[|p| - 1] != '@'
    ensures !At(p + ("@@@@@" + y), "@@@@@", j)
  {
    var s := p + ("@@@@@" + y);
    if At(s, "@@@@@", j) { AtChar(s, "@@@@@", j, |p| - 1 - j); }
  }

  /** The pieces of a cell make it up again, hold no sentinel, and none but the last ends in a
      character of one. */
  lemma {:induction false} SentinelSplit(s: string)
    ensures var parts := SplitSentinel(s);
      parts != [] && Glued(parts, "@@@@@") == s && SentinelFree(parts) && Clear(parts)
    decreases |s|
  {
    hide NoOcc, Clear;
    SentinelPieces(s);
    var i := Find(s, SENTINEL);
    if i < 0 {
      ClearOne(s);
    } else {
      var p, y := s[..i], s[i + |SENTINEL|..];
      SentinelCut(s, i);
      SentinelSplit(y);
      SentinelBehind(p, y);
      GluedCons(p, SplitSentinel(y), "@@@@@");
      ClearCons(p, SplitSentinel(y));
    }
  }

  lemma ClearOne(s: string)
    ensures Clear([s])
  {}

  lemma SentinelCut(s: string, i: nat)
    requires Find(s, SENTINEL) == i
    ensures i + 5 <= |s| && s == s[..i] + ("@@@@@" + s[i + 5..]) && NoOcc(s[..i], SENTINEL)
  {
    assert s == s[..i] + s[i..i + 5] + s[i + 5..];
    forall j: nat
      ensures !At(s[..i], SENTINEL, j)
    {
      Halves(s, i, "");
      AtConcat(s[..i], s[i..], SENTINEL, j);
    }
  }

  /** A cell of sentinel-separated parts splits into them exactly when none holds the sentinel and
      none but the last ends in a character of it. */
  lemma {:induction false} SplitGlued(parts: seq<string>)
    requires parts != []
    ensures SplitSentinel(Glued(parts, "@@@@@")) == parts <==> SentinelFree(parts) && Clear(parts)
    decreases |parts|
  {
    SentinelSplit(Glued(parts, "@@@@@"));
    if SentinelFree(parts) && Clear(parts) { SplitBack(parts); }
  }

  lemma {:induction false} SplitBack(parts: seq<string>)
    requires parts != [] && SentinelFree(parts) && Clear(parts)
    ensures SplitSentinel(Glued(parts, "@@@@@")) == parts
    decreases |parts|
  {
    hide NoOcc, Clear;
    var p, rest := parts[0], parts[1..];
    assert p in parts && parts == [p] + rest;
    if rest == [] {
      NoSentinelSplit(p);
    } else {
      ClearCons(p, rest);
      assert forall x | x in rest :: x in parts;
      SplitBack(rest);
      var y := Glued(rest, "@@@@@");
      SentinelBehind(p, y);
      SplitAtSentinel(p, y);
    }
  }

  lemma NoSentinelSplit(p: string)
    requires NoOcc(p, SENTINEL)
    ensures SplitSentinel(p) == [p]
  {}

  lemma SplitAtSentinel(p: string, y: string)
    requires Find(p + ("@@@@@" + y), SENTINEL) == |p|
    ensures SplitSentinel(p + ("@@@@@" + y)) == [p] + SplitSentinel(y)
  {
    hide Find;
    var s := p + ("@@@@@" + y);
    assert s[..|p|] == p && s[|p| + |SENTINEL|..] == y;
  }

  /** The passages of such a cell are its parts, stripped, without the empty ones. */
  lemma SentinelCell(parts: seq<string>)
    requires |parts| >= 2 && SentinelFree(parts) && Clear(parts)
    ensures SplitPassages(Glued(parts, "@@@@@")) == Pieces(parts)
  {
    hide NoOcc, Clear, Pieces, SplitSentinel, SplitBlank, Find;
    SplitBack(parts);
    var p, y := parts[0], Glued(parts[1..], "@@@@@");
    assert p in parts;
    assert parts == [p] + parts[1..];
    ClearCons(p, parts[1..]);
    SentinelBehind(p, y);
  }

  /** The text without the whitespace between two line breaks of a blank stretch, and without the
      second of them: `broke` says whether a line break came since the last visible character. */
  function Tightened(s: string, broke: bool): string {
    if s == "" then ""
    else if !IsSpace(s[0]) then [s[0]] + Tightened(s[1..], false)
    else if broke && BreakAhead(s) then Tightened(s[1..], true)
    else [s[0]] + Tightened(s[1..], broke || s[0] == '\n')
  }

  /** Nothing visible comes before the next line break. */
  predicate BreakAhead(s: string) {
    exists k | 0 <= k < |s| :: s[k] == '\n' && AllSpace(s[..k])
  }

  lemma {:induction false} SpanMeans(s: string)
    ensures Span(s) > 0 <==> BreakAhead(s)
  {
    hide IsSpace;
    if s != "" {
      SpanMeans(s[1..]);
      assert s[..0] == "";
      if IsSpace(s[0]) {
        if BreakAhead(s[1..]) {
          var k :| 0 <= k < |s[1..]| && s[1..][k] == '\n' && AllSpace(s[1..][..k]);
          assert s[..k + 1] == [s[0]] + s[1..][..k];
          assert s[k + 1] == '\n' && AllSpace(s[..k + 1]);
        }
        if BreakAhead(s) && s[0] != '\n' {
          var k :| 0 <= k < |s| && s[k] == '\n' && AllSpace(s[..k]);
          assert forall c | c in s[1..][..k - 1] :: c in s[..k] by { assert s[..k] == [s[0]] + s[1..][..k - 1]; }
          assert s[1..][k - 1] == '\n';
        }
      } else {
        AheadSpace(s);
      }
    }
  }

  lemma AheadSpace(s: string)
    requires s != ""
    ensures BreakAhead(s) ==> IsSpace(s[0])
  {
    hide IsSpace;
    if BreakAhead(s) {
      var k :| 0 <= k < |s| && s[k] == '\n' && AllSpace(s[..k]);
      NewlineSpace();
      if k > 0 { assert s[..k][0] in s[..k]; }
    }
  }

  lemma NewlineSpace()
    ensures IsSpace('\n')
  {}

  /** Behind a line break, whitespace up to the last one of the stretch is dropped. */
  lemma {:induction false} TightDrop(s: string)
    ensures Tightened(s, true) == Tightened(s[Span(s)..], true)
    decreases |s|
  {
    hide IsSpace;
    SpanMeans(s);
    if Span(s) > 0 {
      TightDrop(s[1..]);
      if Span(s[1..]) > 0 {
        assert s[1..][Span(s[1..])..] == s[Span(s)..];
      } else {
        assert Span(s) == 1;
        assert s[1..][0..] == s[1..];
      }
    } else {
      assert s[0..] == s;
    }
  }

  /** Without a line break ahead it makes no difference that one came before. */
  lemma {:induction false} TightSame(s: string)
    requires Span(s) == 0
    ensures Tightened(s, true) == Tightened(s, false)
    decreases |s|
  {
    hide IsSpace;
    SpanMeans(s);
    if s != "" && IsSpace(s[0]) { TightSame(s[1..]); }
  }

  /** The collapse leaves of every blank stretch its first line break and what follows the last. */
  lemma {:induction false} CollapseTightens(s: string)
    ensures Collapse(s) == Tightened(s, false)
    decreases |s|
  {
    hide IsSpace;
    if s != "" {
      if s[0] == '\n' && Span(s[1..]) > 0 {
        var rest := s[1..][Span(s[1..])..];
        assert AfterBlank(s) == rest;
        assert s[..0] + ("\n" + Collapse(rest)) == "\n" + Collapse(rest);
        NewlineSpace();
        TightDrop(s[1..]);
        SpanIs(s[1..]);
        TightSame(rest);
        CollapseTightens(rest);
      } else {
        CollapseCons(s);
        CollapseTightens(s[1..]);
        if s[0] == '\n' { TightSame(s[1..]); }
      }
    }
  }

  lemma CollapseCons(s: string)
    requires s != "" && !(s[0] == '\n' && Span(s[1..]) > 0)
    ensures Collapse(s) == [s[0]] + Collapse(s[1..])
  {
    FirstBlankNext(s);
    hide FirstBlank, Span, Collapse, AfterBlank;
    var t := s[1..];
    CollapseWhole(s);
    CollapseWhole(t);
    TakeMore(s, |t|);
    if !NoBlank(t) {
      CollapseStep(s);
      CollapseStep(t);
      TakeMore(s, FirstBlank(t));
      Assoc([s[0]], t[..FirstBlank(t)], "\n" + Collapse(AfterBlank(t)));
    }
  }

  lemma TakeMore(s: string, n: nat)
    requires s != "" && n <= |s[1..]|
    ensures s[..n + 1] == [s[0]] + s[1..][..n] && (n == |s[1..]| ==> s == [s[0]] + s[1..])
  {}

  lemma CollapseWhole(s: string)
    ensures NoBlank(s) ==> Collapse(s) == s
  {}

  lemma FirstBlankNext(s: string)
    requires s != "" && !(s[0] == '\n' && Span(s[1..]) > 0)
    ensures FirstBlank(s) == 1 + FirstBlank(s[1..])
    ensures !NoBlank(s) ==> AfterBlank(s) == AfterBlank(s[1..])
  {
    hide Span;
    if !NoBlank(s) { assert s[FirstBlank(s) + 1..] == s[1..][FirstBlank(s[1..]) + 1..]; }
  }

  /** Splitting at the blank stretches and joining with line breaks collapses them. */
  lemma {:induction false} SplitCollapses(s: string)
    ensures SplitBlank(s) != [] && Glued(SplitBlank(s), "\n") == Collapse(s)
    decreases |s|
  {
    hide FirstBlank, AfterBlank;
    if !NoBlank(s) {
      CollapseStep(s);
      SplitCollapses(AfterBlank(s));
      GluedCons(s[..FirstBlank(s)], SplitBlank(AfterBlank(s)), "\n");
    }
  }

  ghost predicate OutOfScope(form: string) {
    exists d, e | d in "-_ " && e in "-_ " :: form == "out" + [d] + "of" + [e] + "scope"
  }

  ghost predicate NotApplicable(form: string) {
    exists ws | ws != "" && AllSpace(ws) :: form == "not" + ws + "applicable"
  }

  /** The ways to write that a question is out of scope. */
  ghost predicate OosForm(form: string) {
    form == "n/a" || form == "na" || OutOfScope(form) || NotApplicable(form)
  }

  /** The text opens with a way to say it, as whole words. */
  ghost predicate Opening(s: string) {
    exists form, rest :: s == form + rest && OosForm(form) && (rest == "" || !WordChar(rest[0]))
  }

  /** A cell is out of scope exactly when it opens with one of these, in any case, as whole words. */
  lemma OosMeans(text: string)
    ensures OosLike(text) <==> Opening(Lower(text))
  {
    hide *;
    var s := Lower(text);
    OosSplit(text);
    if ScopeText(s) { ScopeThere(s); }
    if ApplicableText(s) { ApplicableThere(s); }
    if ShortText(s, "n/a") { ShortThere(s, "n/a"); }
    if ShortText(s, "na") { ShortThere(s, "na"); }
    if Opening(s) { OpeningBack(s); }
  }

  /** The characters that go on with a word. */
  lemma WordCharacters(c: char)
    ensures WordChar(c) <==> c in "ABCDEFGHIJKLMNOPQRSTUVWXYZ" || c in "abcdefghijklmnopqrstuvwxyz" || c in "0123456789_"
  {}

  predicate ShortText(s: string, form: string) {
    form <= s && Boundary(s, |form|)
  }

  predicate ScopeText(s: string) {
    && |s| >= 12 && s[..3] == "out" && s[3] in "-_ " && s[4..6] == "of" && s[6] in "-_ " && s[7..12] == "scope"
    && Boundary(s, 12)
  }

  predicate ApplicableText(s: string) {
    && "not" <= s && |LStrip(s[3..])| < |s| - 3 && "applicable" <= LStrip(s[3..]) && Boundary(LStrip(s[3..]), 10)
  }

  lemma OosSplit(text: string)
    ensures var s := Lower(text);
      OosLike(text) <==> ShortText(s, "n/a") || ShortText(s, "na") || ScopeText(s) || ApplicableText(s)
  {
    hide Lower, LStrip, WordChar;
  }

  lemma ShortThere(s: string, form: string)
    requires (form == "n/a" || form == "na") && ShortText(s, form)
    ensures Opening(s)
  {
    hide WordChar, OutOfScope, NotApplicable;
    var rest := s[|form|..];
    assert s == form + rest && OosForm(form) && (rest == "" || !WordChar(rest[0]));
  }

  lemma ScopeThere(s: string)
    requires ScopeText(s)
    ensures Opening(s)
  {
    hide WordChar, NotApplicable;
    var form, rest := s[..12], s[12..];
    assert form == "out" + [s[3]] + "of" + [s[6]] + "scope" by { SlicesJoin(s); }
    assert OutOfScope(form);
    assert s == form + rest && OosForm(form) && (rest == "" || !WordChar(rest[0]));
  }

  lemma SlicesJoin(s: string)
    requires |s| >= 12
    ensures s[..12] == s[..3] + [s[3]] + s[4..6] + [s[6]] + s[7..12]
  {}

  lemma ApplicableThere(s: string)
    requires ApplicableText(s)
    ensures Opening(s)
  {
    hide WordChar, OutOfScope, NotApplicable, IsSpace, AllSpace, LStrip;
    var r := LStrip(s[3..]);
    var ws, rest := s[3..][..|s| - 3 - |r|], r[10..];
    assert s[3..] == ws + r && r == "applicable" + rest;
    ApplicableForm(ws);
    NotJoin(s, ws, rest);
    var form := "not" + ws + "applicable";
    assert s == form + rest && OosForm(form) && (rest == "" || !WordChar(rest[0]));
  }

  lemma ApplicableForm(ws: string)
    requires ws != "" && AllSpace(ws)
    ensures NotApplicable("not" + ws + "applicable")
  {
    hide AllSpace;
  }

  lemma NotJoin(s: string, ws: string, rest: string)
    requires "not" <= s && s[3..] == ws + ("applicable" + rest)
    ensures s == "not" + ws + "applicable" + rest
  {
    assert s == "not" + s[3..];
    Assoc(ws, "applicable", rest);
    Assoc("not", ws + "applicable", rest);
    Assoc("not", ws, "applicable");
  }

  lemma OpeningBack(s: string)
    requires Opening(s)
    ensures ShortText(s, "n/a") || ShortText(s, "na") || ScopeText(s) || ApplicableText(s)
  {
    hide WordChar, OutOfScope, NotApplicable, ShortText, ScopeText, ApplicableText;
    var form, rest :| s == form + rest && OosForm(form) && (rest == "" || !WordChar(rest[0]));
    if form == "n/a" || form == "na" {
      ShortBack(form, rest);
    } else if OutOfScope(form) {
      ScopeBack(form, rest);
    } else {
      ApplicableBack(form, rest);
    }
  }

  lemma ShortBack(form: string, rest: string)
    requires rest == "" || !WordChar(rest[0])
    ensures ShortText(form + rest, form)
  {
    hide WordChar;
  }

  lemma ScopeBack(form: string, rest: string)
    requires OutOfScope(form) && (rest == "" || !WordChar(rest[0]))
    ensures ScopeText(form + rest)
  {
    hide WordChar;
    var d, e :| d in "-_ " && e in "-_ " && form == "out" + [d] + "of" + [e] + "scope";
    assert form[..3] == "out" && form[3] == d && form[4..6] == "of" && form[6] == e && form[7..12] == "scope";
    var s := form + rest;
    assert s[..3] == form[..3] && s[4..6] == form[4..6] && s[7..12] == form[7..12];
  }

  lemma ApplicableBack(form: string, rest: string)
    requires NotApplicable(form) && (rest == "" || !WordChar(rest[0]))
    ensures ApplicableText(form + rest)
  {
    hide WordChar, IsSpace, AllSpace, LStrip;
    var ws :| ws != "" && AllSpace(ws) && form == "not" + ws + "applicable";
    var x, s := "applicable" + rest, form + rest;
    NotCut(ws, rest);
    LetterSolid();
    ApplicableAhead(ws, x);
    assert x[10..] == rest;
  }

  lemma NotCut(ws: string, rest: string)
    ensures var s := "not" + ws + "applicable" + rest;
      "not" <= s && s[3..] == ws + ("applicable" + rest) && |s| == 3 + |ws| + |"applicable" + rest|
  {
    Assoc(ws, "applicable", rest);
    Assoc("not", ws + "applicable", rest);
    Assoc("not", ws, "applicable");
    var y := ws + ("applicable" + rest);
    assert ("not" + y)[3..] == y;
  }

  lemma LetterSolid()
    ensures !IsSpace('a')
  {}

  lemma {:induction false} ApplicableAhead(ws: string, x: string)
    requires AllSpace(ws) && x != "" && !IsSpace(x[0])
    ensures LStrip(ws + x) == x
    decreases |ws|
  {
    hide IsSpace;
    if ws == "" {
      NilLeft(x);
    } else {
      Drop(ws, x, 1);
      assert ws[0] in ws && forall c | c in ws[1..] :: c in ws;
      ApplicableAhead(ws[1..], x);
    }
  }

  /** Numbers and digits become numbered ids, an empty cell the next number, and any other text
      is the id itself. */
  lemma RowIdMeans(c: Cell, count: nat)
    ensures c.Number? ==> RowId(c, count) == "new-" + IntText(c.n)
    ensures c.Words? && Canonical(Strip(c.s)) ==> RowId(c, count) == "new-" + Strip(c.s)
    ensures c.Words? && Strip(c.s) != "" && !Digits(Strip(c.s)) ==> RowId(c, count) == Strip(c.s)
    ensures c.Missing? || (c.Words? && Strip(c.s) == "") ==> RowId(c, count) == "new-" + NatText(count + 1)
  {
    hide Strip, NatText, NatValue;
    if c.Words? && Canonical(Strip(c.s)) { CanonicalRoundTrip(Strip(c.s)); }
  }

  // ----- round trips -----

  /** Joined passages come back, normalized, exactly when none holds the sentinel. */
  lemma PassagesRoundTrip(passages: seq<string>)
    requires Normalized(passages) != []
    ensures Strip(Join(Normalized(passages))) == Join(Normalized(passages))
    ensures SplitPassages(Join(Normalized(passages))) == Normalized(passages) <==> SentinelFree(passages)
  {
    hide NoOcc, Join, Normalized, Strip, SplitBlank, SplitSentinel, Pieces, AllTidy, IsSpace, SentinelFree;
    var parts := Normalized(passages);
    var cell := Join(parts);
    NormalizedTidy(passages);
    NormalizedCarries(passages);
    JoinEnds(parts);
    StripSame(cell);
    JoinCarries(parts);
    SplitJoined(parts);
    PiecesTidy(parts);
    SentinelPieces(cell);
    PiecesFree(SplitSentinel(cell));
    FoundOrNot(cell);
  }

  lemma FoundOrNot(s: string)
    ensures Find(s, SENTINEL) >= 0 <==> !NoOcc(s, SENTINEL)
  {}

  /** What reading the written row of an entry should give: the fields stripped, the passages
      normalized, and its row number as id. */
  function Reread(e: Entry, i: nat): Entry {
    Entry("new-" + NatText(i), Strip(e.query), Strip(e.answer), if e.oos then [] else Normalized(e.passages),
          Strip(e.source), Strip(e.difficulty), e.oos)
  }

  /** No passage holds the sentinel, and the cell does not look out of scope unless the entry is. */
  ghost predicate Plain(e: Entry) {
    e.oos || (SentinelFree(e.passages) && !OosLike(PassagesText(e)))
  }

  lemma NotApplicableLike()
    ensures Strip("N/A") == "N/A" && OosLike("N/A")
  {
    StripSame("N/A");
    assert Lower("N/A") == "n/a" by {
      assert "N/A"[1..] == "/A" && "/A"[1..] == "A" && "A"[1..] == "";
    }
  }

  lemma NothingLike()
    ensures !OosLike("") && SplitPassages("") == [] && Strip("") == ""
  {
    assert Find("", SENTINEL) < 0;
    assert SplitBlank("") == [""];
    StripSame("");
    assert [""][1..] == [] && Pieces([]) == [];
  }

  /** The passages cell tells both the scope and the passages exactly when the entry is plain. */
  lemma CellRoundTrip(e: Entry)
    ensures var text := Strip(PassagesText(e));
      (OosLike(text) == e.oos && (!e.oos ==> SplitPassages(text) == Normalized(e.passages))) <==> Plain(e)
  {
    if e.oos {
      NotApplicableLike();
    } else if Normalized(e.passages) == [] {
      NothingLike();
      NormalizedCarries(e.passages);
    } else {
      hide OosLike, Normalized, SplitPassages, Join, Strip, SentinelFree;
      PassagesRoundTrip(e.passages);
    }
  }

  /** One row: the entry comes back exactly when it is plain. */
  lemma RowRoundTrip(e: Entry, i: nat, count: nat)
    requires i > 0 && Asked(e)
    ensures !BlankRow(Row(e, i)) && CellText(CellAt(Row(e, i), 2)) != ""
    ensures RowEntry(Row(e, i), count) == Reread(e, i) <==> Plain(e)
  {
    hide OosLike, Normalized, SplitPassages, PassagesText, Strip, Plain, NatText, NatValue, Digits;
    CellRoundTrip(e);
    var row := Row(e, i);
    assert row[2] in row;
  }

  predicate Asked(e: Entry) {
    Strip(e.query) != ""
  }

  /** The entries with a query, each under its row number. */
  function Expected(entries: seq<Entry>): Suite {
    if entries == [] then Suite([], 0)
    else
      var before := Expected(entries[..|entries| - 1]);
      var e := entries[|entries| - 1];
      if Asked(e) then before.(entries := before.entries + [Reread(e, |entries|)])
      else before.(skipped := before.skipped + 1)
  }

  lemma UnaskedRow(e: Entry, i: nat)
    requires i > 0 && !Asked(e)
    ensures !BlankRow(Row(e, i)) && CellText(CellAt(Row(e, i), 2)) == ""
  {
    NatTextCanonical(i);
    hide PassagesText, Strip, NatText;
    var row := Row(e, i);
    assert row[0] in row && CellText(row[0]) != "";
  }

  /** Reading what was written: entries without a query are counted as skipped, the others
      come back under their row numbers. */
  lemma {:induction false} SuiteRoundTrip(entries: seq<Entry>)
    requires forall e | e in entries && Asked(e) :: Plain(e)
    ensures ReadSuite(Rows(entries)) == Expected(entries)
  {
    if entries != [] {
      var n := |entries|;
      var before, e := entries[..n - 1], entries[n - 1];
      SuiteRoundTrip(before);
      assert e in entries;
      var rows := Rows(entries);
      assert rows[..|rows| - 1] == Rows(before) && rows[|rows| - 1] == Row(e, n);
      if Asked(e) {
        RowRoundTrip(e, n, |ReadSuite(Rows(before)).entries|);
      } else {
        UnaskedRow(e, n);
      }
    }
  }

  lemma {:induction false} ExpectedAsked(entries: seq<Entry>)
    requires forall e | e in entries :: Asked(e)
    ensures |Expected(entries).entries| == |entries| && Expected(entries).skipped == 0
    ensures forall i | 0 <= i < |entries| :: Expected(entries).entries[i] == Reread(entries[i], i + 1)
  {
    hide Asked, Reread;
    if entries != [] {
      var before := entries[..|entries| - 1];
      assert entries[|entries| - 1] in entries;
      forall e | e in before ensures Asked(e) { assert e in entries; }
      ExpectedAsked(before);
      assert forall i | 0 <= i < |before| :: before[i] == entries[i];
    }
  }

  lemma {:induction false} ExpectedAre(entries: seq<Entry>, result: seq<Entry>)
    requires |result| == |entries| && forall i | 0 <= i < |entries| :: Asked(entries[i]) && Reread(entries[i], i + 1) == result[i]
    ensures Expected(entries) == Suite(result, 0)
  {
    hide Asked, Reread;
    if entries != [] {
      ExpectedAre(entries[..|entries| - 1], result[..|result| - 1]);
      Halves(result, |result| - 1, []);
      assert result[|result| - 1..] == [result[|result| - 1]];
    } else {
      assert result == [];
    }
  }

  /** A reread entry is plain, keeps its query, and rereads to itself. */
  lemma RereadSettles(e: Entry, i: nat)
    requires Plain(e) && Asked(e)
    ensures Plain(Reread(e, i)) && Asked(Reread(e, i)) && Reread(Reread(e, i), i) == Reread(e, i)
  {
    StripIdempotent(e.query);
    StripIdempotent(e.answer);
    StripIdempotent(e.source);
    StripIdempotent(e.difficulty);
    if !e.oos {
      NormalizedTidy(e.passages);
      NormalizedTwice(Normalized(e.passages));
      NormalizedCarries(e.passages);
    }
  }

  /** Writing and reading a second time changes nothing: same entries, ids new-1 to new-N in order. */
  lemma ReadAfterWriteSettles(entries: seq<Entry>)
    requires forall e | e in entries :: Plain(e) && Asked(e)
    ensures var once := ReadSuite(Rows(entries));
      && |once.entries| == |entries| && once.skipped == 0
      && (forall i | 0 <= i < |entries| :: once.entries[i].id == "new-" + NatText(i + 1))
      && ReadSuite(Rows(once.entries)) == once
  {
    var once := ReadSuite(Rows(entries));
    SuiteRoundTrip(entries);
    ExpectedAsked(entries);
    hide Plain, Asked, Reread, ReadSuite, Rows, Expected;
    forall i | 0 <= i < |entries|
      ensures Plain(once.entries[i]) && Asked(once.entries[i])
      ensures Reread(once.entries[i], i + 1) == once.entries[i]
      ensures once.entries[i].id == "new-" + NatText(i + 1)
    {
      assert entries[i] in entries;
      RereadSettles(entries[i], i + 1);
      RereadId(entries[i], i + 1);
    }
    SuiteRoundTrip(once.entries);
    ExpectedAre(once.entries, once.entries);
  }

  lemma RereadId(e: Entry, i: nat)
    ensures Reread(e, i).id == "new-" + NatText(i)
  {}
}
