/** What the clean-up does to the text itself, whitespace included. */
module Layout {
  import opened Text
  import opened StreamFilter
  import opened Substitutions
  import opened RoleMarkers
  import opened Reading
  import opened StreamAgreement
  import opened Grades
  import opened GradedStream
  import opened Pieces
  import opened StreamLeak

  // ----- newline runs -----

  /** Every character stays but the line breaks with two line breaks right before them, where `k`
      line breaks stand before the text. */
  function Shortened(s: string, k: nat): string {
    if s == "" then ""
    else if s[0] != '\n' then [s[0]] + Shortened(s[1..], 0)
    else (if k < 2 then "\n" else "") + Shortened(s[1..], k + 1)
  }

  lemma {:induction false} ManyAlike(s: string, k: nat, j: nat)
    requires k >= 2 && j >= 2
    ensures Shortened(s, k) == Shortened(s, j)
    decreases |s|
  {
    if s != "" && s[0] == '\n' { ManyAlike(s[1..], k + 1, j + 1); }
  }

  lemma FreshLine(s: string, k: nat)
    requires s == "" || s[0] != '\n'
    ensures Shortened(s, k) == Shortened(s, 0)
  {}

  /** A run of line breaks is shortened to two. */
  lemma {:induction false} RunShortened(run: string, k: nat, z: string)
    requires OnlyNewlines(run)
    ensures Shortened(run + z, k) == run[..Min(|run|, if k < 2 then 2 - k else 0)] + Shortened(z, k + |run|)
    decreases |run|
  {
    if run == "" {
      NilLeft(z);
      NilLeft(Shortened(z, k));
    } else {
      assert run[0] in run && forall c | c in run[1..] :: c in run;
      Drop(run, z, 1);
      RunShortened(run[1..], k + 1, z);
      var m, n := Min(|run|, if k < 2 then 2 - k else 0), Min(|run| - 1, if k < 1 then 1 - k else 0);
      if k < 2 {
        assert run[..m] == "\n" + run[1..][..n];
        Assoc("\n", run[1..][..n], Shortened(z, k + |run|));
      } else {
        NilLeft(Shortened(run[1..] + z, k + 1));
        assert run[..m] == run[1..][..n] == "";
      }
    }
  }

  /** Text without three line breaks in a row stays, and so it is with `k` line breaks before it. */
  lemma {:induction false} ShortKept(p: string, w: string, x: string) returns (k: nat)
    requires OnlyNewlines(p) && NoOcc(p + w, "\n\n\n")
    ensures Shortened(w + x, |p|) == w + Shortened(x, k)
    ensures k == if w == "" then |p| else Breaks(p + w)
    decreases |w|
  {
    if w == "" {
      NilLeft(x);
      NilLeft(Shortened(x, |p|));
      k := |p|;
    } else {
      Drop(w, x, 1);
      assert w == [w[0]] + w[1..];
      if w[0] == '\n' {
        ThirdBreak(p, w);
        NextBreak(p, w);
        k := ShortKept(p + "\n", w[1..], x);
        if w[1..] == "" { BreaksAll(p + "\n"); }
      } else {
        OtherNext(p, w);
        NilLeft(w[1..]);
        k := ShortKept("", w[1..], x);
      }
      Assoc([w[0]], w[1..], Shortened(x, k));
    }
  }

  /** How many line breaks a text ends in. */
  function Breaks(s: string): (n: nat)
    ensures n <= |s| && forall i | |s| - n <= i < |s| :: s[i] == '\n'
    ensures n < |s| ==> s[|s| - n - 1] != '\n'
  {
    if s != "" && s[|s| - 1] == '\n' then 1 + Breaks(s[..|s| - 1]) else 0
  }

  lemma {:induction false} BreaksAll(s: string)
    requires OnlyNewlines(s)
    ensures Breaks(s) == |s|
  {
    if s != "" {
      var x := s[..|s| - 1];
      assert s == x + [s[|s| - 1]] && s[|s| - 1] in s;
      assert forall c | c in x :: c in s;
      BreaksAll(x);
    }
  }

  lemma ThirdBreak(p: string, w: string)
    requires OnlyNewlines(p) && NoOcc(p + w, "\n\n\n") && w != "" && w[0] == '\n'
    ensures |p| < 2
  {
    if |p| >= 2 {
      assert p[0] in p && p[1] in p;
      var s := p + w;
      assert s[0] == '\n' && s[1] == '\n';
      assert s[2] == '\n' by { if |p| > 2 { assert p[2] in p; } }
      assert At(s, "\n\n\n", 0);
    }
  }

  lemma NextBreak(p: string, w: string)
    requires w != "" && w[0] == '\n'
    ensures p + w == p + "\n" + w[1..]
  {
    assert w == "\n" + w[1..];
  }

  lemma OtherNext(p: string, w: string)
    requires w != "" && w[0] != '\n' && NoOcc(p + w, "\n\n\n")
    ensures NoOcc(w[1..], "\n\n\n") && Breaks(p + w) == Breaks(w[1..])
  {
    assert p + w == p + [w[0]] + w[1..];
    SuffixFree(p + [w[0]], w[1..], "\n\n\n");
    BreaksBehind(p + [w[0]], w[1..]);
  }

  lemma {:induction false} BreaksBehind(a: string, x: string)
    requires a != "" && a[|a| - 1] != '\n'
    ensures Breaks(a + x) == Breaks(x)
    decreases |x|
  {
    if x == "" {
      NilRight(a);
    } else {
      var s := a + x;
      assert s[..|s| - 1] == a + x[..|x| - 1] && s[|s| - 1] == x[|x| - 1];
      if x[|x| - 1] == '\n' { BreaksBehind(a, x[..|x| - 1]); }
    }
  }

  /** How a text is cut at its first long run. */
  lemma LongRun(s: string) returns (w: string, run: string, z: string)
    requires Find(s, "\n\n\n") >= 0
    ensures s == w + (run + z) && |run| >= 3 && OnlyNewlines(run) && |z| < |s|
    ensures NoOcc(w, "\n\n\n") && (w == "" || w[|w| - 1] != '\n') && (z == "" || z[0] != '\n')
    ensures Collapse(s) == w + (PARAGRAPH + Collapse(z))
  {
    hide NoOcc, DropNewlines, Collapse, Find, At, OnlyNewlines, AllSpace;
    var i := Find(s, "\n\n\n");
    AtFits(s, "\n\n\n", i);
    var y := s[i + 3..];
    var more := NewlineParts(y);
    w, run, z := s[..i], "\n\n\n" + more, DropNewlines(y);
    AtCut(s, "\n\n\n", i);
    Assoc4(w, "\n\n\n", more, z);
    Assoc("\n\n\n", more, z);
    CollapseUnfold(s);
    Assoc(w, PARAGRAPH, Collapse(z));
    FirstRun(s, i);
    RunEnds(y);
    MoreNewlines(more);
  }

  lemma AtFits(s: string, p: string, i: nat)
    requires At(s, p, i)
    ensures i + |p| <= |s|
  {}

  lemma MoreNewlines(more: string)
    requires OnlyNewlines(more)
    ensures OnlyNewlines("\n\n\n" + more)
  {}

  lemma FirstRun(s: string, i: nat)
    requires Find(s, "\n\n\n") == i
    ensures i <= |s| && NoOcc(s[..i], "\n\n\n") && (i == 0 || s[i - 1] != '\n')
  {
    Halves(s, i, "");
    BeforeFirst(s[..i], s[i..], "\n\n\n");
    AtChar(s, "\n\n\n", i, 0);
    AtChar(s, "\n\n\n", i, 1);
    EarlierRun(s, i);
  }

  lemma EarlierRun(s: string, i: nat)
    requires At(s, "\n\n\n", i)
    ensures i > 0 && s[i - 1] == '\n' ==> At(s, "\n\n\n", i - 1)
  {
    AtChar(s, "\n\n\n", i, 0);
    AtChar(s, "\n\n\n", i, 1);
  }

  lemma {:induction false} RunEnds(y: string)
    ensures DropNewlines(y) == "" || DropNewlines(y)[0] != '\n'
    decreases |y|
  {
    if y != "" && y[0] == '\n' { RunEnds(y[1..]); }
  }

  /** Shortening is what the substitution of long newline runs does. */
  lemma {:induction false} CollapseShortens(s: string)
    ensures Collapse(s) == Shortened(s, 0)
    decreases |s|
  {
    hide NoOcc, Collapse, DropNewlines;
    NilRight(s);
    NilLeft(s);
    if Find(s, "\n\n\n") < 0 {
      NoCollapse(s);
      var k := ShortKept("", s, "");
      NilRight(s);
    } else {
      var w, run, z := LongRun(s);
      NilLeft(w);
      var k := ShortKept("", w, run + z);
      assert k == 0;
      RunShortened(run, 0, z);
      FreshLine(z, |run|);
      CollapseShortens(z);
      assert run[..2] == "\n\n" by { assert run[0] in run && run[1] in run; }
    }
  }

  /** A run of line breaks between other text: two stay at most. */
  lemma CollapseRun(w: string, run: string, z: string)
    requires NoOcc(w, "\n\n\n") && (w == "" || w[|w| - 1] != '\n') && (z == "" || z[0] != '\n')
    requires OnlyNewlines(run)
    ensures Collapse(w + (run + z)) == w + ((if |run| < 3 then run else "\n\n") + Collapse(z))
  {
    hide NoOcc, Collapse;
    CollapseShortens(w + (run + z));
    CollapseShortens(z);
    NilLeft(w);
    var k := ShortKept("", w, run + z);
    assert k == 0;
    RunShortened(run, 0, z);
    FreshLine(z, |run|);
    if |run| >= 3 {
      assert run[..2] == "\n\n" by { assert run[0] in run && run[1] in run; }
    } else {
      assert run[..|run|] == run;
    }
  }

  /** Shortening leaves no three line breaks in a row. */
  lemma {:induction false} NoLongRun(s: string, k: nat)
    ensures var t := Shortened(s, k); NoOcc(t, "\n\n\n")
    ensures var t := Shortened(s, k); k >= 1 ==> !("\n\n" <= t)
    ensures var t := Shortened(s, k); k >= 2 ==> !("\n" <= t)
    decreases |s|
  {
    hide NoOcc;
    if s == "" {
      TooShort("", "\n\n\n");
    } else {
      var rest := if s[0] == '\n' then k + 1 else 0;
      NoLongRun(s[1..], rest);
      var t, u := Shortened(s, k), Shortened(s[1..], rest);
      if s[0] == '\n' && k >= 2 {
        NilLeft(u);
      } else {
        assert t == [s[0]] + u;
        BreakFirst(s[0], u, "\n\n");
        BreakFirst(s[0], u, "\n");
        BreakFirst(s[0], u, "");
        OneMore(s[0], u, "\n\n\n");
      }
    }
  }

  lemma BreakFirst(c: char, u: string, q: string)
    ensures "\n" + q <= [c] + u <==> c == '\n' && q <= u
  {
    assert ("\n" + q)[0] == '\n' && ("\n" + q)[1..] == q && ([c] + u)[0] == c && ([c] + u)[1..] == u;
    if "\n" + q <= [c] + u {
      var s := [c] + u;
      assert s[..1 + |q|] == "\n" + q;
      assert u[..|q|] == s[1..1 + |q|] == q;
    }
  }

  /** Shortening a part first makes no difference. */
  lemma {:induction false} ShortenedTwice(b: string, r: string, k: nat)
    ensures Shortened(Shortened(b, k) + r, Min(k, 2)) == Shortened(b + r, k)
    decreases |b|
  {
    if b == "" {
      NilLeft(r);
      if k > 2 { ManyAlike(r, k, 2); }
    } else {
      Drop(b, r, 1);
      var j := if b[0] == '\n' then k + 1 else 0;
      ShortenedTwice(b[1..], r, j);
      var u := Shortened(b[1..], j);
      if b[0] == '\n' && k >= 2 {
        NilLeft(u);
        NilLeft(Shortened(b[1..] + r, j));
      } else {
        Assoc([b[0]], u, r);
        assert ([b[0]] + (u + r))[1..] == u + r;
        assert b[0] == '\n' ==> [b[0]] == "\n";
      }
    }
  }

  // ----- answers without markers -----

  /** No separator, no role marker and, with grading, no sentinel. */
  ghost predicate Unmarked(grading: bool, s: string) {
    && NoOcc(s, "|<-MSG->|") && NoOcc(s, "USER:") && NoOcc(s, "ASSISTANT:")
    && (grading ==> NoOcc(s, "[[CONF:"))
  }

  lemma UnmarkedPart(grading: bool, x: string, y: string)
    requires Unmarked(grading, x + y)
    ensures Unmarked(grading, x) && Unmarked(grading, y)
  {
    hide NoOcc;
    PrefixFree(x, y, SEPARATOR);
    SuffixFree(x, y, SEPARATOR);
    PrefixFree(x, y, USER);
    SuffixFree(x, y, USER);
    PrefixFree(x, y, ASSISTANT);
    SuffixFree(x, y, ASSISTANT);
    if grading {
      PrefixFree(x, y, SENTINEL);
      SuffixFree(x, y, SENTINEL);
    }
  }

  /** Only newline runs are touched. */
  lemma SettleUnmarked(grading: bool, b: string)
    requires Unmarked(grading, b)
    ensures Settle(grading, b) == Graded(Shortened(b, 0), None)
    ensures Unmarked(grading, Shortened(b, 0)) && (grading ==> PartialAt(Shortened(b, 0), 0) < 0)
  {
    hide Collapse, RoleSub, NoOcc, Extract, PartialAt;
    FindNone(b);
    NoSepSub(b);
    RoleFreeUnchanged(b, true);
    CollapseShortens(b);
    NilRight(b);
    CollapseUnmarked(grading, b, "");
    NilRight(Shortened(b, 0));
    if grading { NoSentinel(Shortened(b, 0)); }
  }

  lemma NoSentinel(t: string)
    requires NoOcc(t, SENTINEL)
    ensures Extract(t) == Graded(t, None) && PartialAt(t, 0) < 0
  {}

  lemma CollapseUnmarked(grading: bool, b: string, r: string)
    requires Unmarked(grading, b + r)
    ensures Unmarked(grading, Shortened(b, 0) + r)
  {
    hide NoOcc, Collapse;
    CollapseShortens(b);
    MarkerChars();
    SentinelSolid();
    CollapseFree(b, r, SEPARATOR);
    CollapseFree(b, r, USER);
    CollapseFree(b, r, ASSISTANT);
    if grading { CollapseFree(b, r, SENTINEL); }
  }

  /** The batch text of an answer without markers is the answer with its long newline runs
      shortened to two. */
  lemma BatchUnmarked(grading: bool, raw: string)
    requires Unmarked(grading, raw)
    ensures Batch(grading, raw) == Graded(Shortened(raw, 0), None)
  {
    hide Settle, Shortened, Unmarked;
    SettleUnmarked(grading, raw);
  }

  // ----- markers in the batch text -----

  /** A separator and the whitespace around it become one line break. */
  lemma SeparatorReplaced(u: string, ws: string, x: string, z: string)
    requires NoOcc(u, "|<-MSG->|") && AllSpace(ws) && AllSpace(x) && NoOcc(z, "|<-MSG->|")
    requires (u == "" || !IsSpace(u[|u| - 1])) && (z == "" || !IsSpace(z[0]))
    requires Find(u + ws + ("|<-MSG->|" + (x + z)), "|<-MSG->|") == |u + ws|
    ensures SepSub(u + ws + ("|<-MSG->|" + (x + z))) == u + "\n" + z
  {
    hide NoOcc, LStrip, RStrip, SepSub, IsSpace, AllSpace, Find;
    SepSubAt(u + ws, x + z);
    RStripSpaces(u, ws);
    StripThrough(x, z);
    FindNone(z);
    NoSepSub(z);
  }

  lemma {:induction false} StripThrough(x: string, z: string)
    requires AllSpace(x) && (z == "" || !IsSpace(z[0]))
    ensures LStrip(x + z) == z
    decreases |x|
  {
    hide IsSpace;
    if x == "" {
      NilLeft(z);
    } else {
      Drop(x, z, 1);
      assert x[0] in x && forall c | c in x[1..] :: c in x;
      StripThrough(x[1..], z);
    }
  }

  /** A role marker at a line start goes, with the blanks before it and the whitespace behind it. */
  lemma MarkerRemoved(blanks: string, marker: string, ws: string, z: string)
    requires (forall c | c in blanks :: c == ' ' || c == '\t') && (marker == "USER:" || marker == "ASSISTANT:")
    requires AllSpace(ws) && (z == "" || !IsSpace(z[0]))
    ensures RoleSub(blanks + (marker + (ws + z)), true) == RoleSub(z, ws != "" && ws[|ws| - 1] == '\n')
  {
    hide IsSpace, RoleSub, RoleLen, AllSpace, LStrip;
    var s := blanks + (marker + (ws + z));
    MarkerWidth(blanks, marker, ws + z);
    StripThrough(ws, z);
    MarkerCut(blanks, marker, ws, z);
    Removed(s);
  }

  lemma MarkerWidth(blanks: string, marker: string, x: string)
    requires OnlyBlanks(blanks) && (marker == USER || marker == ASSISTANT)
    ensures var s := blanks + (marker + x); RoleLen(s) == |s| - |LStrip(x)|
  {
    hide IsSpace, LStrip;
    var s := blanks + (marker + x);
    BlanksBefore(blanks, marker + x);
    assert s[|blanks|..] == marker + x;
    TokenFacts(marker + x);
    assert marker <= marker + x;
    assert s[|blanks| + |marker|..] == x;
    LStripShort(x);
  }

  lemma MarkerCut(blanks: string, marker: string, ws: string, z: string)
    requires marker == "USER:" || marker == "ASSISTANT:"
    ensures var s, m := blanks + (marker + (ws + z)), |blanks| + |marker| + |ws|;
      0 < m == |s| - |z| && s[m..] == z && (s[m - 1] == '\n' <==> ws != "" && ws[|ws| - 1] == '\n')
  {
    assert USER[|USER| - 1] == ':' && ASSISTANT[|ASSISTANT| - 1] == ':';
  }

  /** No role marker stands behind the blanks a line starts with. */
  ghost predicate Markerless(line: string) {
    forall j: nat | j <= |line| && OnlyBlanks(line[..j]) :: !("USER:" <= line[j..]) && !("ASSISTANT:" <= line[j..])
  }

  /** A line without a role marker at its start stays, and another line starts behind it. */
  lemma LineKept(line: string, z: string)
    requires OneLine(line) && Markerless(line)
    ensures RoleSub(line + ("\n" + z), true) == line + ("\n" + RoleSub(z, true))
    ensures RoleSub(line, true) == line
  {
    hide RoleSub, RoleLen;
    NoMarkerAhead(line, z);
    NoMarkerAlone(line);
    var s := line + ("\n" + z);
    Unfold(s, true);
    Unfold(s, false);
    RoleSubAlong(line, "\n" + z);
    NewlineFirst(z, false);
    if line != "" {
      Unfold(line, true);
      Unfold(line, false);
    } else {
      NothingToRemove(true);
    }
    OneLineUnchanged(line);
  }

  lemma BlanksCut(s: string)
    ensures OnlyBlanks(s[..BlankPrefix(s)])
  {
    BlanksAre(s);
  }

  lemma NoMarkerAlone(line: string)
    requires Markerless(line)
    ensures RoleLen(line) == 0
  {
    hide LStrip;
    BlanksCut(line);
  }

  lemma NoMarkerAhead(line: string, z: string)
    requires OneLine(line) && Markerless(line)
    ensures RoleLen(line + ("\n" + z)) == 0
  {
    hide LStrip, Markerless;
    var s := line + ("\n" + z);
    var j := BlankPrefix(s);
    BlanksCut(s);
    BlanksWithin(line, z, j);
    Drop(line, "\n" + z, j);
    MarkerLenBreak(line[j..], z);
    assert line[..j] == s[..j];
    MarkerlessAt(line, j);
  }

  lemma BlanksWithin(line: string, z: string, j: nat)
    requires j <= |line + ("\n" + z)| && OnlyBlanks((line + ("\n" + z))[..j])
    ensures j <= |line|
  {
    SliceChar(line + ("\n" + z), j, |line|);
  }

  lemma MarkerlessAt(line: string, j: nat)
    requires Markerless(line) && j <= |line| && OnlyBlanks(line[..j])
    ensures MarkerLen(line[j..]) == 0
  {}

  /** A sentinel at the end goes, with the whitespace before it, and its number is the grade. */
  lemma SentinelTakenOut(body: string, ws: string, w1: string, ds: string, w2: string, w3: string)
    requires Unmarked(true, body) && (body == "" || !IsSpace(body[|body| - 1]))
    requires AllSpace(ws) && AllSpace(w1) && AllSpace(w2) && AllSpace(w3)
    requires 1 <= |ds| <= 3 && (forall c | c in ds :: Digit(c)) && NatValue(ds) <= 100
    ensures Extract(body + ws + ("[[CONF:" + (w1 + (ds + (w2 + ("]]" + w3)))))) == Graded(body, Some(NatValue(ds)))
  {
    hide *;
    var after := w1 + (ds + (w2 + ("]]" + w3)));
    SentinelTail(w1, ds, w2, w3);
    ScanRejects(Lead, after);
    SentinelPlace(body + ws, after);
    InRangeExtracts(body + ws, after, ds);
    RStripSpaces(body, ws);
  }

  lemma InRangeExtracts(w: string, after: string, ds: string)
    requires '[' !in after && Scan(Lead, after) == Closed(ds) && NatValue(ds) <= 100
    ensures Extract(w + ("[[CONF:" + after)) == Graded(RStrip(w), Some(NatValue(ds)))
  {
    hide Scan, RStrip, NatValue, At, Extract;
    SentinelPlace(w, after);
    ExtractAt(w + (SENTINEL + after), |w|);
  }

  lemma SentinelPlace(w: string, after: string)
    ensures var t := w + (SENTINEL + after);
      At(t, SENTINEL, |w|) && t[|w| + |SENTINEL|..] == after && t[..|w|] == w
  {}

  /** What a tail that has come so far consists of. */
  predicate Reads(t: Tail, w1: string, ds: string, w2: string, br: string, w3: string) {
    && AllSpace(w1) && AllSpace(w2) && AllSpace(w3) && |ds| <= 3 && (forall c | c in ds :: Digit(c))
    && match t
       case Lead => ds == "" && w2 == "" && br == "" && w3 == ""
       case Digits(d) => d == ds != "" && w2 == "" && br == "" && w3 == ""
       case After(d) => d == ds != "" && br == "" && w3 == ""
       case Half(d) => d == ds != "" && br == "]" && w3 == ""
       case Closed(d) => d == ds != "" && br == "]]"
       case Bad => false
  }

  lemma {:induction false} TailParts(s: string) returns (w1: string, ds: string, w2: string, br: string, w3: string)
    requires !Scan(Lead, s).Bad?
    ensures s == w1 + ds + w2 + br + w3 && Reads(Scan(Lead, s), w1, ds, w2, br, w3)
    decreases |s|
  {
    if s == "" {
      w1, ds, w2, br, w3 := "", "", "", "", "";
    } else {
      var x, c := s[..|s| - 1], s[|s| - 1];
      ScanSnoc(x, c);
      assert s == x + [c];
      w1, ds, w2, br, w3 := TailParts(x);
      w1, ds, w2, br, w3 := OneMorePart(Scan(Lead, x), c, w1, ds, w2, br, w3);
    }
  }

  lemma ScanSnoc(x: string, c: char)
    ensures Scan(Lead, x + [c]) == Step(Scan(Lead, x), c)
  {
    ScanConcat(Lead, x, [c]);
    ScanOne(Scan(Lead, x), c, "");
    NilRight([c]);
    hide Step;
    assert Scan(Step(Scan(Lead, x), c), "") == Step(Scan(Lead, x), c);
  }

  lemma OneMorePart(t: Tail, c: char, w1: string, ds: string, w2: string, br: string, w3: string)
    returns (v1: string, es: string, v2: string, cr: string, v3: string)
    requires Reads(t, w1, ds, w2, br, w3) && !Step(t, c).Bad?
    ensures w1 + ds + w2 + br + w3 + [c] == v1 + es + v2 + cr + v3 && Reads(Step(t, c), v1, es, v2, cr, v3)
  {
    v1, es, v2, cr, v3 := w1, ds, w2, br, w3;
    match Step(t, c)
    case Lead => v1 := w1 + [c];
    case Digits(_) => es := ds + [c];
    case After(_) => v2 := w2 + [c];
    case Half(_) => cr := "]";
    case Closed(_) => if t.Half? { cr := "]]"; } else { v3 := w3 + [c]; }
  }

  /** Only that form is a sentinel: the text before it, the literal prefix, one to three digits with
      whitespace around them, two brackets, and nothing but whitespace up to the end. */
  lemma SentinelFound(s: string) returns (body: string, w1: string, ds: string, w2: string, w3: string)
    requires Extract(s).grade.Some?
    ensures s == body + ("[[CONF:" + (w1 + ds + w2 + "]]" + w3))
    ensures AllSpace(w1) && AllSpace(w2) && AllSpace(w3) && 1 <= |ds| <= 3 && forall c | c in ds :: Digit(c)
    ensures NatValue(ds) <= 100 && Extract(s) == Graded(RStrip(body), Some(NatValue(ds)))
  {
    hide Scan, RStrip, NatValue, Step, AllSpace;
    var i := SentinelAt(s, 0);
    var after := s[i + |SENTINEL|..];
    var br;
    w1, ds, w2, br, w3 := TailParts(after);
    body := s[..i];
    assert SENTINEL == "[[CONF:";
    assert s == body + (s[i..i + |SENTINEL|] + after);
  }

  // ----- their stream -----

  /** A newline run is never cut at its end: the line breaks a settled text ends in stay buffered. */
  lemma BreaksWithheld(grading: bool, head: string, tail: string)
    requires NoOcc(head + tail, "\n\n\n") && |tail| == Withheld(grading, head + tail)
    ensures OnlyNewlines(tail) ==> Breaks(head) == 0
  {
    hide NoOcc, Withheld, AllSpace, OnlyNewlines, Breaks;
    if OnlyNewlines(tail) && Breaks(head) > 0 {
      var h, x := LastBreak(head, tail);
      SuffixFree(h, x, "\n\n\n");
      BreakAndMore(tail);
      TwoBreaks(tail);
      SpaceWithheld(grading, h, x);
    }
  }

  lemma LastBreak(head: string, tail: string) returns (h: string, x: string)
    requires Breaks(head) > 0
    ensures head + tail == h + x && x == "\n" + tail
  {
    h, x := head[..|head| - 1], "\n" + tail;
    assert head == h + "\n";
    Assoc(h, "\n", tail);
  }

  lemma TwoBreaks(tail: string)
    requires OnlyNewlines(tail) && NoOcc("\n" + tail, "\n\n\n")
    ensures |tail| <= 1
  {
    if |tail| >= 2 {
      NewlineAt(tail, 0);
      NewlineAt(tail, 1);
      ThreeBreaks("\n" + tail, 0, 3);
    }
  }

  lemma BreakAndMore(tail: string)
    requires OnlyNewlines(tail)
    ensures AllSpace("\n" + tail)
  {
    NewlineIsSpace();
  }

  /** Up to 32 characters of trailing whitespace are withheld. */
  lemma SpaceWithheld(grading: bool, h: string, ws: string)
    requires AllSpace(ws)
    ensures Withheld(grading, h + ws) >= Min(|ws|, 32)
  {
    hide MarkerOverlap, PartialAt, RStrip, AllSpace;
    assert (h + ws)[|h|..] == ws;
    TrailingStripped(h + ws, |ws|);
  }

  lemma {:induction false} TrailingStripped(t: string, n: nat)
    requires n <= |t| && AllSpace(t[|t| - n..])
    ensures |RStrip(t)| <= |t| - n
    decreases |t|
  {
    hide IsSpace;
    if n > 0 {
      var x, last := t[..|t| - 1], t[|t| - 1];
      var ws := x[|x| - (n - 1)..];
      assert t[|t| - n..] == ws + [last];
      SpacesSplit(ws, last);
      TrailingStripped(x, n - 1);
    }
  }

  lemma SpacesSplit(ws: string, c: char)
    requires AllSpace(ws + [c])
    ensures AllSpace(ws) && IsSpace(c)
  {
    assert c in ws + [c] && forall x | x in ws :: x in ws + [c];
  }

  /** Behind a head that ends in `n` line breaks, a short run goes on as if by itself. */
  lemma RunGoesOn(head: string, tail: string, r: string)
    requires NoOcc(head + tail, "\n\n\n") && (OnlyNewlines(tail) ==> Breaks(head) == 0)
    ensures Shortened(tail + r, Breaks(head)) == Shortened(tail + r, 0)
  {
    hide NoOcc, DropNewlines;
    var n := Breaks(head);
    if n > 0 {
      var run := NewlineParts(tail);
      var z := DropNewlines(tail);
      RunEnds(tail);
      RunShort(head, tail, n, run, z);
      Assoc(run, z, r);
      RunShortened(run, n, z + r);
      RunShortened(run, 0, z + r);
      FreshLine(z + r, n + |run|);
      FreshLine(z + r, |run|);
      assert run[..|run|] == run;
    }
  }

  lemma RunShort(head: string, tail: string, n: nat, run: string, z: string)
    requires n == Breaks(head) > 0 && tail == run + z && OnlyNewlines(run) && !OnlyNewlines(tail)
    requires NoOcc(head + tail, "\n\n\n")
    ensures n + |run| <= 2 && z != ""
  {
    hide OnlyNewlines;
    NilRight(run);
    var t, i := head + tail, |head| - n;
    forall k | i <= k < |head| + |run|
      ensures t[k] == '\n'
    {
      if k >= |head| {
        NewlineAt(run, k - |head|);
        assert t[k] == tail[k - |head|] == run[k - |head|];
      }
    }
    ThreeBreaks(t, i, n + |run|);
  }

  lemma NewlineAt(run: string, k: nat)
    requires OnlyNewlines(run) && k < |run|
    ensures run[k] == '\n'
  {
    assert run[k] in run;
  }

  lemma ThreeBreaks(t: string, i: nat, n: nat)
    requires i + n <= |t| && forall k | i <= k < i + n :: t[k] == '\n'
    ensures n >= 3 ==> At(t, "\n\n\n", i)
  {
    if n >= 3 { assert t[i..i + 3] == "\n\n\n"; }
  }

  /** What is emitted and the shortened rest make up the shortened answer. */
  ghost predicate Laid(grading: bool, goal: string, emitted: string, st: State, rest: string) {
    Unmarked(grading, st.buffer + rest) && st.grade == None && emitted + Shortened(st.buffer + rest, 0) == goal
  }

  lemma AbsorbLays(grading: bool, goal: string, emitted: string, st: State, c: string, rest: string)
    requires Laid(grading, goal, emitted, st, c + rest)
    ensures var (emit, st') := Absorb(grading, st, c); Laid(grading, goal, emitted + emit, st', rest)
  {
    hide Absorb, Settle, Shortened, Unmarked, Withheld, NoOcc;
    var b := st.buffer + c;
    Assoc(st.buffer, c, rest);
    UnmarkedPart(grading, b, rest);
    SettleUnmarked(grading, b);
    var t := Shortened(b, 0);
    CollapseUnmarked(grading, b, rest);
    ShortenedTwice(b, rest, 0);
    NoLongRun(b, 0);
    AbsorbParts(grading, st, c);
    var (emit, st') := Absorb(grading, st, c);
    EmitLays(grading, emit, st'.buffer, rest);
    Assoc(emit, st'.buffer, rest);
    UnmarkedPart(grading, emit, st'.buffer + rest);
    Assoc(emitted, emit, Shortened(st'.buffer + rest, 0));
  }

  lemma EmitLays(grading: bool, head: string, tail: string, r: string)
    requires NoOcc(head + tail, "\n\n\n") && |tail| == Withheld(grading, head + tail)
    ensures Shortened(head + (tail + r), 0) == head + Shortened(tail + r, 0)
  {
    hide Shortened, NoOcc, Withheld;
    PrefixFree(head, tail, "\n\n\n");
    NilLeft(head);
    var k := ShortKept("", head, tail + r);
    BreaksWithheld(grading, head, tail);
    RunGoesOn(head, tail, r);
  }

  lemma FlushLays(grading: bool, goal: string, emitted: string, st: State)
    requires Laid(grading, goal, emitted, st, "")
    ensures var g := Flush(grading, st); emitted + g.text == goal && g.grade == None
  {
    hide Settle, Unmarked, PartialAt;
    NilRight(st.buffer);
    if st.buffer != "" { SettleUnmarked(grading, st.buffer); }
  }

  lemma {:induction false} RunLays(grading: bool, goal: string, emitted: string, st: State, chunks: seq<string>)
    requires Laid(grading, goal, emitted, st, Concat(chunks))
    ensures var g := Streamed(grading, st, chunks); emitted + g.text == goal && g.grade == None
    decreases |chunks|
  {
    hide Absorb, Flush, Laid;
    if chunks == [] {
      FlushLays(grading, goal, emitted, st);
    } else {
      AbsorbLays(grading, goal, emitted, st, chunks[0], Concat(chunks[1..]));
      var (emit, st') := Absorb(grading, st, chunks[0]);
      RunLays(grading, goal, emitted + emit, st', chunks[1..]);
      Assoc(emitted, emit, Streamed(grading, st', chunks[1..]).text);
    }
  }

  /** However an answer without markers is cut, the stream is its batch text to the character:
      the answer with its long newline runs shortened to two. */
  lemma UnmarkedStream(grading: bool, chunks: seq<string>)
    requires Unmarked(grading, Concat(chunks))
    ensures var raw := Concat(chunks);
      Streamed(grading, START, chunks) == Batch(grading, raw) == Graded(Shortened(raw, 0), None)
  {
    hide Streamed, Settle, Shortened, Unmarked;
    var raw := Concat(chunks);
    BatchUnmarked(grading, raw);
    NilLeft(raw);
    NilLeft(Shortened(raw, 0));
    NilLeft(Streamed(grading, START, chunks).text);
    RunLays(grading, Shortened(raw, 0), "", START, chunks);
  }
}
