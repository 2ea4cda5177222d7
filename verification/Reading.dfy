/** The reference reading of an answer, and that the substitutions leave it unchanged. */
module Reading {
  import opened Text
  import opened StreamFilter
  import opened Substitutions
  import opened RoleMarkers

  // ----- reference reading of an answer -----

  /** The visible characters of an answer, and how its first sentinel ends (if it has one). */
  datatype Seen = Seen(text: string, tail: Option<Tail>)

  /** One left-to-right pass: separators, role markers and whitespace vanish, a sentinel ends
      the text. */
  function View(grading: bool, s: string): Seen
    decreases |s|
  {
    if s == "" then Seen("", None)
    else if grading && SENTINEL <= s then Seen("", Some(Scan(Lead, s[|SENTINEL|..])))
    else if Token(s) > 0 then View(grading, s[Token(s)..])
    else if IsSpace(s[0]) then View(grading, s[1..])
    else Before([s[0]], View(grading, s[1..]))
  }

  function Before(t: string, v: Seen): Seen {
    v.(text := t + v.text)
  }

  /** No sentinel, or one that ends the text in the proper form. */
  predicate Settled(v: Seen) {
    v.tail.None? || v.tail.value.Closed?
  }

  lemma ScanConcat(t: Tail, a: string, b: string)
    ensures Scan(t, a + b) == Scan(Scan(t, a), b)
    decreases |a|
  {
    if a == "" {
      assert a + b == b;
    } else {
      assert (a + b)[1..] == a[1..] + b;
      ScanConcat(Step(t, a[0]), a[1..], b);
    }
  }

  lemma {:induction false} ScanBad(s: string)
    ensures Scan(Bad, s) == Bad
    decreases |s|
  {
    if s != "" { ScanBad(s[1..]); }
  }

  /** A proper end admits neither an opening bracket nor the start of a separator or role marker. */
  lemma {:induction false} ScanRejects(t: Tail, s: string)
    requires Scan(t, s).Closed?
    ensures '[' !in s && '|' !in s && 'U' !in s && 'A' !in s
    decreases |s|
  {
    if s != "" {
      if s[0] == '[' || s[0] == '|' || s[0] == 'U' || s[0] == 'A' { ScanBad(s[1..]); }
      ScanRejects(Step(t, s[0]), s[1..]);
    }
  }

  /** Once closed, only whitespace keeps a sentinel closed. */
  lemma {:induction false} ScanClosed(ds: string, s: string)
    requires Scan(Closed(ds), s).Closed?
    ensures AllSpace(s) && Scan(Closed(ds), s) == Closed(ds)
    decreases |s|
  {
    if s != "" {
      if IsSpace(s[0]) { ScanClosed(ds, s[1..]); } else { ScanBad(s[1..]); }
    }
  }

  /** A run of whitespace counts once. */
  lemma {:induction false} ScanSpaces(t: Tail, s: string)
    requires AllSpace(s) && s != ""
    ensures Scan(t, s) == Step(t, s[0])
    decreases |s|
  {
    if |s| > 1 {
      var t' := Step(t, s[0]);
      ScanSpaces(t', s[1..]);
      assert Step(t', s[1]) == t';
    } else {
      assert s[1..] == "";
    }
  }

  predicate Foreign(x: string) {
    x == "" || x[0] !in SENTINEL
  }

  lemma SameHeads(w: string, x: string)
    requires w != "" && Foreign(x) && NoStraddle(w, x)
    ensures SENTINEL <= w + x <==> SENTINEL <= w
    ensures Token(w + x) == Token(w)
  {
    PrefixOfConcat(SENTINEL, w, x);
    SameToken(w, x);
  }

  /** The reading of `w + x` when a pass has read `v` in `w`. */
  function Continue(grading: bool, v: Seen, x: string): Seen {
    if v.tail.Some? then Seen(v.text, Some(Scan(v.tail.value, x))) else Before(v.text, View(grading, x))
  }

  /** What the first token or character shows. */
  function Word(s: string): string
    requires s != ""
  {
    if Token(s) > 0 || IsSpace(s[0]) then "" else [s[0]]
  }

  lemma ViewWord(grading: bool, s: string)
    requires s != "" && !(grading && SENTINEL <= s)
    ensures View(grading, s) == Before(Word(s), View(grading, s[Width(s)..]))
  {
    hide Token, IsSpace;
    NilLeft(View(grading, s[Width(s)..]).text);
  }

  lemma ViewSentinel(s: string)
    requires SENTINEL <= s
    ensures View(true, s) == Seen("", Some(Scan(Lead, s[|SENTINEL|..])))
  {}

  /** The pass over `w + x` continues after `w`, when no token straddles the seam
      and `x` cannot complete a sentinel prefix. */
  lemma {:induction false} ViewCut(grading: bool, w: string, x: string)
    requires Foreign(x) && NoStraddle(w, x)
    ensures View(grading, w + x) == Continue(grading, View(grading, w), x)
    decreases |w|
  {
    hide Token, NoStraddle, IsSpace, View;
    if w == "" {
      NilLeft(x);
      NilLeft(View(grading, x).text);
      ViewNothing(grading);
    } else {
      SameHeads(w, x);
      if grading && SENTINEL <= w {
        ViewSentinel(w);
        ViewSentinel(w + x);
        Drop(w, x, |SENTINEL|);
        ScanConcat(Lead, w[|SENTINEL|..], x);
      } else {
        var n := Width(w);
        NoStraddleSuffix(w, x, n);
        Drop(w, x, n);
        ViewCut(grading, w[n..], x);
        ViewWord(grading, w);
        ViewWord(grading, w + x);
        ContinueBefore(grading, Word(w), View(grading, w[n..]), x);
      }
    }
  }

  lemma ViewNothing(grading: bool)
    ensures View(grading, "") == Seen("", None)
  {}

  lemma ContinueBefore(grading: bool, c: string, v: Seen, x: string)
    ensures Continue(grading, Before(c, v), x) == Before(c, Continue(grading, v, x))
  {
    hide View, Scan;
    Assoc(c, v.text, View(grading, x).text);
  }

  /** A whitespace character is a seam nothing straddles. */
  lemma ViewSpaceCut(grading: bool, w: string, x: string)
    requires x != "" && IsSpace(x[0])
    ensures View(grading, w + x) == Continue(grading, View(grading, w), x)
  {
    SpaceOutside(x[0]);
    OutsideSeam(w, x);
    ViewCut(grading, w, x);
  }

  lemma NotMarker(s: string)
    requires s != "" && IsSpace(s[0])
    ensures !(SENTINEL <= s) && Token(s) == 0
  {
    assert SENTINEL[0] == '[';
    TokenFacts(s);
  }

  lemma {:induction false} ViewSpaces(grading: bool, s: string, x: string)
    requires AllSpace(s)
    ensures View(grading, s + x) == View(grading, x)
    decreases |s|
  {
    if s == "" {
      assert s + x == x;
    } else {
      Drop(s, x, 1);
      NotMarker(s + x);
      ViewSpaces(grading, s[1..], x);
    }
  }

  /** Trailing whitespace never changes what has been seen of unfinished text. */
  lemma ViewRStrip(grading: bool, s: string)
    ensures View(grading, RStrip(s)).text == View(grading, s).text
    ensures View(grading, RStrip(s)).tail.None? <==> View(grading, s).tail.None?
  {
    var u := RStrip(s);
    var ws := s[|u|..];
    assert s == u + ws;
    if ws != "" {
      ViewSpaceCut(grading, u, ws);
      ViewSpaces(grading, ws, "");
      assert ws + "" == ws;
    }
  }

  /** Neither a token nor a sentinel starts inside `w`. */
  ghost predicate Plain(grading: bool, w: string, x: string) {
    forall j: nat | j < |w| :: Token((w + x)[j..]) == 0 && !(grading && SENTINEL <= (w + x)[j..])
  }

  lemma PlainSuffix(grading: bool, w: string, x: string)
    requires Plain(grading, w, x) && w != ""
    ensures Plain(grading, w[1..], x)
  {
    hide Token;
    forall j: nat | j < |w[1..]|
      ensures Token((w[1..] + x)[j..]) == 0 && !(grading && SENTINEL <= (w[1..] + x)[j..])
    {
      assert (w[1..] + x)[j..] == (w + x)[j + 1..];
    }
  }

  lemma ViewOne(grading: bool, c: char, y: string)
    requires Token([c] + y) == 0 && !(grading && SENTINEL <= [c] + y)
    ensures View(grading, [c] + y) == Before(Erase([c]), View(grading, y))
  {
    assert ([c] + y)[1..] == y;
    ViewWord(grading, [c] + y);
    hide View, Token, IsSpace;
    EraseOne(c);
  }

  lemma EraseOne(c: char)
    ensures Erase([c]) == if IsSpace(c) then "" else [c]
  {
    assert [c][1..] == "";
  }

  /** With neither marker starting inside `w`, its characters are simply visible. */
  lemma {:induction false} ViewPlain(grading: bool, w: string, x: string)
    requires Plain(grading, w, x)
    ensures View(grading, w + x) == Before(Erase(w), View(grading, x))
    decreases |w|
  {
    if w == "" {
      NilLeft(x);
      NilLeft(View(grading, x).text);
    } else {
      var y := w[1..] + x;
      PlainSuffix(grading, w, x);
      ViewPlain(grading, w[1..], x);
      Halves(w, 1, x);
      assert w[..1] == [w[0]];
      assert (w + x)[0..] == w + x;
      ViewOne(grading, w[0], y);
      EraseConcat([w[0]], w[1..]);
      Assoc(Erase([w[0]]), Erase(w[1..]), View(grading, x).text);
    }
  }

  // ----- the substitutions leave the reading unchanged -----

  /** Reading on from a separator. */
  lemma ViewSeparator(grading: bool, y: string)
    ensures View(grading, SEPARATOR + y) == View(grading, y)
  {
    var s := SEPARATOR + y;
    assert SEPARATOR <= s && s[0] == '|' && SENTINEL[0] == '[';
    assert s[|SEPARATOR|..] == y;
  }

  /** Up to its first separator and beyond, a settled text reads in two parts. */
  lemma ViewAtSeparator(grading: bool, w: string, y: string)
    requires Find(w + SEPARATOR + y, SEPARATOR) == |w|
    requires Settled(View(grading, w + SEPARATOR + y))
    ensures View(grading, w).tail.None?
    ensures View(grading, w + SEPARATOR + y) == Before(View(grading, w).text, View(grading, y))
  {
    var x := SEPARATOR + y;
    Assoc(w, SEPARATOR, y);
    assert x[0] == '|';
    SeparatorSeam(w, y);
    ViewCut(grading, w, x);
    var v := View(grading, w);
    if v.tail.Some? {
      ScanRejects(v.tail.value, x);
    }
    ViewSeparator(grading, y);
  }

  lemma {:induction false} ViewSepSub(grading: bool, b: string, r: string)
    requires Settled(View(grading, b + r))
    ensures View(grading, SepSub(b) + r) == View(grading, b + r)
    decreases |b|
  {
    if Find(b, SEPARATOR) >= 0 {
      var w, y := SepSubParts(b);
      BeforeSeparator(grading, w, y, r);
      ViewSepSub(grading, LStrip(y), r);
      AfterSeparator(grading, w, SepSub(LStrip(y)), r);
    }
  }

  lemma BeforeSeparator(grading: bool, w: string, y: string, r: string)
    requires Find(w + SEPARATOR + y, SEPARATOR) == |w|
    requires Settled(View(grading, w + SEPARATOR + y + r))
    ensures View(grading, w).tail.None?
    ensures View(grading, w + SEPARATOR + y + r) == Before(View(grading, w).text, View(grading, LStrip(y) + r))
  {
    FindPrefix(w + SEPARATOR + y, r, SEPARATOR);
    Assoc4(w, SEPARATOR, y, r);
    ViewAtSeparator(grading, w, y + r);
    ViewLStrip(grading, y, r);
  }

  lemma AfterSeparator(grading: bool, w: string, z: string, r: string)
    requires View(grading, w).tail.None?
    ensures View(grading, RStrip(w) + "\n" + z + r) == Before(View(grading, w).text, View(grading, z + r))
  {
    Assoc4(RStrip(w), "\n", z, r);
    ViewNewline(grading, w, z + r);
  }

  lemma ViewLStrip(grading: bool, y: string, r: string)
    ensures View(grading, LStrip(y) + r) == View(grading, y + r)
  {
    var lead := y[..|y| - |LStrip(y)|];
    Halves(y, |y| - |LStrip(y)|, r);
    ViewSpaces(grading, lead, LStrip(y) + r);
  }

  /** Right-stripping before a newline does not show in a text still to be closed. */
  lemma ViewNewline(grading: bool, w: string, z: string)
    requires View(grading, w).tail.None?
    ensures View(grading, RStrip(w) + ("\n" + z)) == Before(View(grading, w).text, View(grading, z))
  {
    ViewRStrip(grading, w);
    ViewSpaceCut(grading, RStrip(w), "\n" + z);
    ViewSpaces(grading, "\n", z);
  }

  lemma ScanRun(t: Tail, run: string, x: string)
    requires AllSpace(run) && run != ""
    ensures Scan(t, run + x) == Scan(Step(t, run[0]), x)
  {
    ScanConcat(t, run, x);
    ScanSpaces(t, run);
  }

  lemma {:induction false} ScanCollapse(t: Tail, b: string, r: string)
    ensures Scan(t, Collapse(b) + r) == Scan(t, b + r)
    decreases |b|
  {
    hide Scan, Collapse, AllSpace, OnlyNewlines, NoOcc, Step;
    if Find(b, EXCESS) < 0 {
      NoCollapse(b);
    } else {
      var w, run, z := CollapseParts(b);
      var t' := Step(Scan(t, w), '\n');
      Paragraph();
      ScanNewlines(t, w, run, z, r);
      ScanNewlines(t, w, PARAGRAPH, Collapse(z), r);
      ScanCollapse(t', z, r);
    }
  }

  lemma Paragraph()
    ensures PARAGRAPH != "" && OnlyNewlines(PARAGRAPH)
  {}

  lemma Newlines(run: string)
    requires run != "" && OnlyNewlines(run)
    ensures AllSpace(run) && run[0] == '\n'
  {
    assert run[0] in run;
  }

  lemma ScanNewlines(t: Tail, w: string, run: string, z: string, r: string)
    requires OnlyNewlines(run) && run != ""
    ensures Scan(t, w + run + z + r) == Scan(Step(Scan(t, w), '\n'), z + r)
  {
    hide Scan, Step, AllSpace, OnlyNewlines;
    Newlines(run);
    Assoc4(w, run, z, r);
    ScanConcat(t, w, run + (z + r));
    ScanRun(Scan(t, w), run, z + r);
  }

  lemma ViewNewlines(grading: bool, w: string, run: string, z: string, r: string)
    requires OnlyNewlines(run) && run != ""
    ensures var v := View(grading, w);
      View(grading, w + run + z + r) ==
      if v.tail.Some? then Seen(v.text, Some(Scan(Step(v.tail.value, '\n'), z + r)))
      else Before(v.text, View(grading, z + r))
  {
    hide Scan, Step, AllSpace, OnlyNewlines, View, IsSpace;
    Newlines(run);
    assert IsSpace('\n') by { NewlineIsSpace(); }
    Assoc4(w, run, z, r);
    ViewSpaceCut(grading, w, run + (z + r));
    var v := View(grading, w);
    if v.tail.Some? {
      ScanRun(v.tail.value, run, z + r);
    } else {
      ViewSpaces(grading, run, z + r);
    }
  }

  lemma NewlineIsSpace()
    ensures IsSpace('\n')
  {}

  lemma {:induction false} ViewCollapse(grading: bool, b: string, r: string)
    ensures View(grading, Collapse(b) + r) == View(grading, b + r)
    decreases |b|
  {
    hide Scan, Collapse, AllSpace, OnlyNewlines, NoOcc, Step, View;
    if Find(b, EXCESS) < 0 {
      NoCollapse(b);
    } else {
      var w, run, z := CollapseParts(b);
      Paragraph();
      ViewNewlines(grading, w, run, z, r);
      ViewNewlines(grading, w, PARAGRAPH, Collapse(z), r);
      var v := View(grading, w);
      if v.tail.Some? {
        ScanCollapse(Step(v.tail.value, '\n'), z, r);
      } else {
        ViewCollapse(grading, z, r);
      }
    }
  }

  /** Removing role markers shows in no reading. */
  lemma {:induction false} ViewRoleSub(grading: bool, s: string, r: string, lineStart: bool)
    requires NoOcc(s, SEPARATOR) && Settled(View(grading, s + r))
    ensures View(grading, RoleSub(s, lineStart) + r) == View(grading, s + r)
    decreases |s|
  {
    hide RoleLen, NoOcc, Token, RoleSub, View, Settled;
    if s == "" {
      NothingToRemove(lineStart);
    } else if lineStart && RoleLen(s) > 0 {
      var n := RoleLen(s);
      Removed(s);
      NoSeparatorDrop(s, n);
      ViewRemoved(grading, s, r);
      ViewRoleSub(grading, s[n..], r, s[n - 1] == '\n');
    } else if |s| < Token(s + r) || (grading && SENTINEL <= s + r) {
      UnchangedBefore(grading, s, r, lineStart);
    } else if Token(s + r) > 0 {
      var m := Token(s + r);
      NoSeparatorDrop(s, m);
      TokenStays(s, r, lineStart);
      ViewToken(grading, s, r);
      ViewRoleSub(grading, s[m..], r, false);
      var rest := RoleSub(s[m..], false);
      ViewTokenKept(grading, s[..m], rest + r);
      Assoc(s[..m], rest, r);
    } else {
      NoSeparatorDrop(s, 1);
      ViewNoToken(grading, s + r);
      Drop(s, r, 1);
      SettledRest(grading, s + r);
      ViewRoleSub(grading, s[1..], r, s[0] == '\n');
      ViewOneKept(grading, s, r, lineStart);
    }
  }

  lemma ViewNoToken(grading: bool, s: string)
    requires s != "" && Token(s) == 0 && !(grading && SENTINEL <= s)
    ensures View(grading, s) == Before(if IsSpace(s[0]) then "" else [s[0]], View(grading, s[1..]))
  {
    NilLeft(View(grading, s[1..]).text);
  }

  lemma SettledRest(grading: bool, s: string)
    requires s != "" && Settled(Before(if IsSpace(s[0]) then "" else [s[0]], View(grading, s[1..])))
    ensures Settled(View(grading, s[1..]))
  {
    hide View;
  }

  lemma ViewOneKept(grading: bool, s: string, r: string, lineStart: bool)
    requires s != "" && Token(s + r) == 0 && !(grading && SENTINEL <= s + r) && (lineStart ==> RoleLen(s) == 0)
    requires View(grading, RoleSub(s[1..], s[0] == '\n') + r) == View(grading, s[1..] + r)
    ensures View(grading, RoleSub(s, lineStart) + r) == View(grading, s + r)
  {
    SameMarker(s, r);
    KeepsHead(s, r, SENTINEL);
    Unfold(s, lineStart);
    hide RoleSub, MarkerLen, RoleLen, View, IsSpace;
    var rest := RoleSub(s[1..], s[0] == '\n');
    Assoc([s[0]], rest, r);
    var x := [s[0]] + rest + r;
    assert x[1..] == rest + r;
    Drop(s, r, 1);
    ViewNoToken(grading, s + r);
    ViewNoToken(grading, x);
  }

  lemma ViewToken(grading: bool, s: string, r: string)
    requires 0 < Token(s + r) <= |s|
    ensures View(grading, s + r) == View(grading, s[Token(s + r)..] + r)
  {
    var m := Token(s + r);
    Drop(s, r, m);
    TokenHead(s + r);
    hide Token;
  }

  lemma TokenHead(s: string)
    requires Token(s) > 0
    ensures s != "" && !(SENTINEL <= s)
  {
    assert SENTINEL[0] == '[' && SEPARATOR[0] == '|';
    TokenFacts(s);
  }

  lemma ViewTokenKept(grading: bool, p: string, x: string)
    requires p == USER || p == ASSISTANT
    ensures View(grading, p + x) == View(grading, x)
  {
    var s := p + x;
    TokenFacts(s);
    assert p <= s && s[|p|..] == x;
    TokenHead(s);
  }

  /** A kept role marker stands within its line. */
  lemma TokenStays(s: string, r: string, lineStart: bool)
    requires 0 < Token(s + r) <= |s| && NoOcc(s, SEPARATOR) && (lineStart ==> RoleLen(s) == 0)
    ensures var m := Token(s + r);
      && (s[..m] == USER || s[..m] == ASSISTANT)
      && RoleSub(s, lineStart) == s[..m] + RoleSub(s[m..], false)
  {
    Shared(s, r);
    NoSeparatorDrop(s, 0);
    MarkerRemovable(s);
    hide RoleSub, RoleLen, NoOcc;
    var m := MarkerLen(s);
    MarkerIs(s);
    MarkerChars();
    hide MarkerLen;
    RoleSubAlong(s[..m], s[m..]);
    Halves(s, m, "");
  }

  lemma ViewRemoved(grading: bool, s: string, r: string)
    requires RoleLen(s) > 0
    ensures View(grading, s + r) == View(grading, s[RoleLen(s)..] + r)
  {
    var blanks, marker, ws := RoleParts(s);
    var rest := s[RoleLen(s)..];
    hide View, RoleLen;
    Regroup(blanks, marker, ws, rest, r);
    ViewSpaces(grading, blanks, marker + (ws + (rest + r)));
    ViewTokenKept(grading, marker, ws + (rest + r));
    ViewSpaces(grading, ws, rest + r);
  }

  /** Where a token or a sentinel runs on, nothing is removed. */
  lemma UnchangedBefore(grading: bool, s: string, r: string, lineStart: bool)
    requires |s| < Token(s + r) || (grading && SENTINEL <= s + r)
    requires s != "" && Settled(View(grading, s + r))
    ensures RoleSub(s, lineStart) == s
  {
    hide RoleSub;
    if |s| < Token(s + r) {
      PartialToken(s, r);
    } else {
      var x := s + r;
      var after := x[|SENTINEL|..];
      ScanRejects(Lead, after);
      assert x == SENTINEL + after;
      assert 'U' !in SENTINEL && 'A' !in SENTINEL;
      assert forall c | c in s :: c in SENTINEL + after by {
        assert forall c | c in s :: c in x;
      }
      LetterFree(s, USER, 'U');
      LetterFree(s, ASSISTANT, 'A');
    }
    RoleFreeUnchanged(s, lineStart);
  }
}
