/** Exactly which answers a client can be made to read a separator in. */
module StreamLeak {
  import opened Text
  import opened StreamFilter
  import opened Substitutions
  import opened RoleMarkers
  import opened Cleaning
  import opened Reading
  import opened StreamAgreement
  import opened StreamExactness
  import opened Pieces
  import opened StreamSeal

  // ----- finding the pieces -----

  /** Read from the start, whole separators end at or before the end of `u`. */
  predicate Reaches(u: string, x: string)
    decreases |u|
  {
    u == "" || if SEPARATOR <= u + x then |u| >= |SEPARATOR| && Reaches(u[|SEPARATOR|..], x) else Reaches(u[1..], x)
  }

  /** Where the first piece starts. */
  lemma {:induction false} FirstPiece(raw: string) returns (u: string, x: string)
    requires Pieced(raw)
    ensures raw == u + x && Reaches(u, x) && x != "" && x[0] == SEPARATOR[0] && !(SEPARATOR <= x)
    ensures Completes(Solid(1), x[1..])
    decreases |raw|
  {
    hide Completes;
    if !(SEPARATOR <= raw) && raw[0] == SEPARATOR[0] && Completes(Solid(1), raw[1..]) {
      u, x := "", raw;
      NilLeft(raw);
    } else {
      var n := if SEPARATOR <= raw then |SEPARATOR| else 1;
      u, x := FirstPiece(raw[n..]);
      ReachesMore(raw, n, u, x);
      u := raw[..n] + u;
    }
  }

  lemma ReachesMore(raw: string, n: nat, u: string, x: string)
    requires raw != "" && n == (if SEPARATOR <= raw then |SEPARATOR| else 1) && raw[n..] == u + x && Reaches(u, x)
    ensures raw == raw[..n] + u + x && Reaches(raw[..n] + u, x)
  {
    Assoc(raw[..n], u, x);
    assert raw == raw[..n] + raw[n..];
    assert (raw[..n] + u)[n..] == u;
  }

  /** Places a gap may start. */
  predicate Opens(s: string) {
    s != "" && (Blank(s[0]) || MarkerLen(s) > 0)
  }

  /** The characters of a piece. */
  lemma {:induction false} Characters(k: nat, s: string) returns (n: nat, rest: string)
    requires 0 < k <= |SEPARATOR| && Completes(Solid(k), s)
    ensures k <= n <= |SEPARATOR| && s == SEPARATOR[k..n] + rest && Startless(SEPARATOR[k..n], rest)
    ensures Completes(Solid(n), rest) && (n == |SEPARATOR| || Opens(rest))
    decreases |s|
  {
    hide Reach, MarkerLen;
    if k < |SEPARATOR| { ReachSome(Solid(k), s); }
    if k == |SEPARATOR| || Opens(s) {
      n, rest := k, s;
      assert SEPARATOR[k..k] == "";
      NilLeft(s);
    } else {
      NextCharacter(k, s);
      n, rest := Characters(k + 1, s[1..]);
      CharacterBefore(k, n, s, rest);
    }
  }

  lemma ReachSome(m: Trail, s: string)
    requires Completes(m, s) && m != WHOLE
    ensures s != ""
  {}

  lemma NextCharacter(k: nat, s: string)
    requires 0 < k < |SEPARATOR| && s != "" && Completes(Solid(k), s) && !Opens(s)
    ensures s[0] == SEPARATOR[k] && !(SEPARATOR <= s) && Completes(Solid(k + 1), s[1..])
  {
    hide Reach, MarkerLen;
    ReachStep(Solid(k), s);
    ReachEnd(Lost, s[Width(s)..]);
  }

  lemma CharacterBefore(k: nat, n: nat, s: string, rest: string)
    requires 0 < k < n <= |SEPARATOR| && s != "" && s[0] == SEPARATOR[k] && !(SEPARATOR <= s)
    requires s[1..] == SEPARATOR[k + 1..n] + rest && Startless(SEPARATOR[k + 1..n], rest)
    ensures s == SEPARATOR[k..n] + rest && Startless(SEPARATOR[k..n], rest)
  {
    var q, q' := SEPARATOR[k..n], SEPARATOR[k + 1..n];
    assert q == [SEPARATOR[k]] + q' && s == [s[0]] + s[1..];
    Assoc([s[0]], q', rest);
    forall j: nat | j < |q|
      ensures !(SEPARATOR <= (q + rest)[j..])
    {
      if j == 0 {
        assert s[0..] == s;
      } else {
        assert (q + rest)[j..] == (q' + rest)[j - 1..];
      }
    }
  }

  // ----- gaps -----

  /** Nothing that still belongs to the gap. */
  predicate Beyond(s: string) {
    s == "" || (!IsSpace(s[0]) && !(SEPARATOR <= s))
  }

  /** How far a gap reaches behind its role marker. */
  lemma {:induction false} GapEnd(n: nat, s: string) returns (run: string, more: string)
    requires 0 < n < |SEPARATOR| && Completes(Gap(n), s)
    ensures s == run + more && Soaked(run) && Beyond(more) && Completes(Gap(n), more)
    decreases |s|
  {
    hide Reach, MarkerLen, IsSpace;
    if Beyond(s) {
      run, more := "", s;
      NilLeft(s);
    } else {
      var w := if SEPARATOR <= s then |SEPARATOR| else 1;
      GapWider(n, s);
      run, more := GapEnd(n, s[w..]);
      SoakedMore(s, w, run, more);
      run := s[..w] + run;
    }
  }

  lemma GapWider(n: nat, s: string)
    requires 0 < n < |SEPARATOR| && Completes(Gap(n), s) && !Beyond(s)
    ensures Completes(Gap(n), s[if SEPARATOR <= s then |SEPARATOR| else 1..])
  {
    hide Reach, MarkerLen;
    SeparatorSolid();
    TokenFacts(s);
    ReachStep(Gap(n), s);
  }

  lemma SoakedMore(s: string, w: nat, run: string, more: string)
    requires s != "" && w == (if SEPARATOR <= s then |SEPARATOR| else 1) && s[w..] == run + more
    requires Soaked(run) && (SEPARATOR <= s || IsSpace(s[0]))
    ensures s == s[..w] + run + more && Soaked(s[..w] + run)
  {
    hide IsSpace;
    Assoc(s[..w], run, more);
    assert s == s[..w] + s[w..];
    var r := s[..w] + run;
    assert r[w..] == run && r[0] == s[0];
    if SEPARATOR <= s {
      assert r[..w] == SEPARATOR;
    } else {
      SpaceStart(r);
    }
  }

  lemma SpaceStart(r: string)
    requires r != "" && IsSpace(r[0])
    ensures !(SEPARATOR <= r)
  {
    SeparatorSolid();
  }

  /** A gap: blanks, a role marker, and what widens it. */
  lemma GapParts(n: nat, s: string) returns (blanks: string, marker: string, run: string, more: string)
    requires 0 < n < |SEPARATOR| && Completes(Solid(n), s) && Opens(s)
    ensures s == blanks + (marker + (run + more)) && OnlyBlanks(blanks) && (marker == USER || marker == ASSISTANT)
    ensures Soaked(run) && Beyond(more) && Completes(Gap(n), more)
  {
    hide Reach, Opens, Soaked, Beyond;
    var x;
    blanks, marker, x := GapStart(Solid(n), s);
    run, more := GapEnd(n, x);
  }

  lemma {:induction false} GapStart(m: Trail, s: string) returns (blanks: string, marker: string, x: string)
    requires (m.Solid? || m.Blanked?) && 0 < m.k < |SEPARATOR| && Completes(m, s) && (m.Solid? ==> Opens(s))
    ensures s == blanks + (marker + x) && OnlyBlanks(blanks) && (marker == USER || marker == ASSISTANT)
    ensures Completes(Gap(m.k), x)
    decreases |s|
  {
    hide Reach, MarkerLen, IsSpace;
    ReachSome(m, s);
    if MarkerLen(s) > 0 {
      MarkerIs(s);
      blanks, marker, x := "", s[..MarkerLen(s)], s[MarkerLen(s)..];
      Halves(s, MarkerLen(s), "");
      NilLeft(s);
      MarkerOpens(m, marker, x);
    } else {
      BlankNext(m, s);
      blanks, marker, x := GapStart(Blanked(m.k), s[1..]);
      assert s == [s[0]] + s[1..];
      Assoc([s[0]], blanks, marker + x);
      blanks := [s[0]] + blanks;
    }
  }

  lemma BlankNext(m: Trail, s: string)
    requires (m.Solid? || m.Blanked?) && 0 < m.k < |SEPARATOR| && Completes(m, s) && s != ""
    requires MarkerLen(s) == 0 && (m.Solid? ==> Blank(s[0]))
    ensures Blank(s[0]) && Completes(Blanked(m.k), s[1..])
  {
    hide Reach, MarkerLen;
    SeparatorSolid();
    ReachStep(m, s);
    ReachEnd(Lost, s[Width(s)..]);
    TokenFacts(s);
  }

  // ----- a gap in one chunk leaves nothing -----

  lemma FindBar(h: string, r: string)
    requires '|' !in h
    ensures Find(h + (SEPARATOR + r), SEPARATOR) == |h|
  {
    var s := h + (SEPARATOR + r);
    assert s[|h|..|h| + |SEPARATOR|] == SEPARATOR;
    forall j: nat | j < |h|
      ensures !At(s, SEPARATOR, j)
    {
      assert s[j] == h[j];
      if At(s, SEPARATOR, j) { AtChar(s, SEPARATOR, j, 0); }
    }
    FindIs(s, SEPARATOR, |h|);
  }

  /** The first whole separator of a run. */
  lemma {:induction false} SoakedParts(r: string) returns (ws: string, x: string)
    requires Soaked(r) && !AllSpace(r)
    ensures r == ws + (SEPARATOR + x) && AllSpace(ws) && Soaked(x) && |x| < |r|
    decreases |r|
  {
    hide IsSpace;
    if SEPARATOR <= r {
      ws, x := "", r[|SEPARATOR|..];
      NilLeft(r);
    } else {
      OneSpace(r);
      ws, x := SoakedParts(r[1..]);
      assert r == [r[0]] + r[1..];
      Assoc([r[0]], ws, SEPARATOR + x);
      ws := [r[0]] + ws;
    }
  }

  lemma OneSpace(r: string)
    requires r != "" && IsSpace(r[0]) && !AllSpace(r)
    ensures !AllSpace(r[1..])
  {
    assert r == [r[0]] + r[1..];
  }

  lemma {:induction false} SoakedStrip(r: string)
    requires Soaked(r)
    ensures Soaked(LStrip(r))
    decreases |r|
  {
    if r != "" && IsSpace(r[0]) {
      SpaceStart(r);
      SoakedStrip(r[1..]);
    }
  }

  lemma SpaceBar(ws: string)
    requires AllSpace(ws)
    ensures '|' !in ws && NoOcc(ws, SEPARATOR)
  {
    assert '|' in ws ==> IsSpace('|');
    LetterFree(ws, SEPARATOR, '|');
  }

  /** A run comes out of the separator substitution as whitespace, and so does what it follows. */
  lemma {:induction false} SoakedSub(p: string, r: string) returns (ws: string)
    requires Soaked(r) && '|' !in p && (p == "" || !IsSpace(p[|p| - 1]))
    ensures SepSub(p + r) == p + ws && AllSpace(ws)
    decreases |r|
  {
    hide IsSpace, AllSpace, LStrip, RStrip, SepSub, Soaked, NoOcc;
    if AllSpace(r) {
      SpaceBar(r);
      ws := r;
      LetterFree(p + r, SEPARATOR, '|');
      FindNone(p + r);
      NoSepSub(p + r);
    } else {
      var sp, x := SoakedParts(r);
      SpaceBar(sp);
      FindBar(p + sp, x);
      Assoc(p, sp, SEPARATOR + x);
      SepSubAt(p + sp, x);
      RStripSpaces(p, sp);
      SoakedStrip(x);
      LStripShort(x);
      var more := SoakedSub("", LStrip(x));
      NilLeft(LStrip(x));
      NilLeft(more);
      ws := "\n" + more;
      BreakSpace(more);
      Assoc(p, "\n", more);
    }
  }

  lemma LStripShort(x: string)
    ensures |LStrip(x)| <= |x|
  {}

  lemma FindNone(s: string)
    requires NoOcc(s, SEPARATOR)
    ensures Find(s, SEPARATOR) < 0
  {}

  lemma BreakSpace(ws: string)
    requires AllSpace(ws)
    ensures AllSpace("\n" + ws)
  {}

  lemma {:induction false} RStripSpaces(p: string, sp: string)
    requires AllSpace(sp) && (p == "" || !IsSpace(p[|p| - 1]))
    ensures RStrip(p + sp) == p
    decreases |sp|
  {
    hide IsSpace;
    if sp == "" {
      NilRight(p);
    } else {
      var n := |sp| - 1;
      assert sp[n] in sp && forall c | c in sp[..n] :: c in sp;
      var s := p + sp;
      assert s[..|s| - 1] == p + sp[..n] && s[|s| - 1] == sp[n];
      RStripSpaces(p, sp[..n]);
    }
  }

  /** Blanks, a role marker and a run leave nothing. */
  lemma GapGone(blanks: string, marker: string, run: string)
    requires OnlyBlanks(blanks) && (marker == USER || marker == ASSISTANT) && Soaked(run)
    ensures Settle(false, blanks + (marker + run)) == Graded("", None)
  {
    hide SepSub, RoleSub, Soaked, RoleLen, IsSpace, OnlyBlanks;
    var p := blanks + marker;
    MarkerEnd(blanks, marker);
    var ws := SoakedSub(p, run);
    Assoc(blanks, marker, run);
    Assoc(blanks, marker, ws);
    MarkerAlone(blanks, marker, ws);
    WholeMarker(blanks + (marker + ws));
    NoCollapse("");
  }

  lemma MarkerEnd(blanks: string, marker: string)
    requires OnlyBlanks(blanks) && (marker == USER || marker == ASSISTANT)
    ensures var p := blanks + marker; '|' !in p && p != "" && !IsSpace(p[|p| - 1])
  {
    assert '|' !in USER && '|' !in ASSISTANT && '|' !in blanks;
    assert !IsSpace(USER[|USER| - 1]) && !IsSpace(ASSISTANT[|ASSISTANT| - 1]);
  }

  lemma MarkerAlone(blanks: string, marker: string, ws: string)
    requires OnlyBlanks(blanks) && (marker == USER || marker == ASSISTANT) && AllSpace(ws)
    ensures var x := blanks + (marker + ws); x != "" && RoleLen(x) == |x|
  {
    var x := blanks + (marker + ws);
    hide IsSpace;
    BlanksBefore(blanks, marker + ws);
    assert x[|blanks|..] == marker + ws;
    TokenFacts(marker + ws);
    assert marker <= marker + ws;
    assert x[|blanks| + |marker|..] == ws;
    SpacesStrip(ws);
  }

  lemma {:induction false} BlanksBefore(blanks: string, x: string)
    requires OnlyBlanks(blanks) && x != "" && !Blank(x[0])
    ensures BlankPrefix(blanks + x) == |blanks|
    decreases |blanks|
  {
    if blanks == "" {
      NilLeft(x);
    } else {
      assert blanks[0] in blanks;
      assert forall c | c in blanks[1..] :: c in blanks;
      Drop(blanks, x, 1);
      BlanksBefore(blanks[1..], x);
    }
  }

  lemma {:induction false} SpacesStrip(ws: string)
    requires AllSpace(ws)
    ensures LStrip(ws) == ""
    decreases |ws|
  {
    hide IsSpace;
    if ws != "" {
      assert ws[0] in ws && forall c | c in ws[1..] :: c in ws;
      SpacesStrip(ws[1..]);
    }
  }

  // ----- what stands at the end of a chunk stays there -----

  lemma {:induction false} ReachesFind(u: string, q: string)
    requires Reaches(u, q) && NoOcc(q, SEPARATOR) && Find(u + q, SEPARATOR) >= 0
    ensures var n := Find(u + q, SEPARATOR) + |SEPARATOR|; n <= |u| && Reaches(u[n..], q)
    decreases |u|
  {
    hide NoOcc, Find, Reaches, At;
    var i := Find(u + q, SEPARATOR);
    if u == "" {
      NilLeft(q);
      FindNone(q);
    } else if SEPARATOR <= u + q {
      FirstIsHere(u + q);
      ReachesStep(u, q);
    } else {
      Drop(u, q, 1);
      FirstIsLater(u + q);
      ReachesStep(u, q);
      ReachesFind(u[1..], q);
      DropTwice(u, 1, i - 1 + |SEPARATOR|);
    }
  }

  lemma ReachesStep(u: string, q: string)
    requires Reaches(u, q) && u != ""
    ensures if SEPARATOR <= u + q then |u| >= |SEPARATOR| && Reaches(u[|SEPARATOR|..], q) else Reaches(u[1..], q)
  {}

  lemma DropTwice(u: string, k: nat, n: nat)
    requires k <= |u| && n <= |u[k..]|
    ensures u[k..][n..] == u[k + n..]
  {}

  lemma FirstIsHere(s: string)
    requires SEPARATOR <= s
    ensures Find(s, SEPARATOR) == 0
  {
    FindIs(s, SEPARATOR, 0);
  }

  lemma FirstIsLater(s: string)
    requires s != "" && !(SEPARATOR <= s) && Find(s, SEPARATOR) >= 0
    ensures Find(s, SEPARATOR) > 0 && Find(s[1..], SEPARATOR) == Find(s, SEPARATOR) - 1
  {
    var i := Find(s, SEPARATOR);
    assert i == 0 ==> SEPARATOR <= s;
    assert s == [s[0]] + s[1..];
    forall j: nat
      ensures At(s[1..], SEPARATOR, j) <==> At(s, SEPARATOR, j + 1)
    {
      AtConcat([s[0]], s[1..], SEPARATOR, j + 1);
    }
    FindIs(s[1..], SEPARATOR, i - 1);
  }

  lemma {:induction false} ReachesStrip(u: string, q: string)
    requires Reaches(u, q) && q != "" && !IsSpace(q[0])
    ensures LStrip(u + q) == LStrip(u) + q && Reaches(LStrip(u), q)
    decreases |u|
  {
    hide AllSpace;
    if u == "" {
      NilLeft(q);
    } else {
      Drop(u, q, 1);
      if IsSpace(u[0]) {
        SpaceStart(u + q);
        hide IsSpace;
        ReachesStrip(u[1..], q);
      }
    }
  }

  /** What follows the last whole separator is kept. */
  lemma {:induction false} SepSubTail(u: string, q: string) returns (a: string)
    requires Reaches(u, q) && NoOcc(q, SEPARATOR) && q != "" && !IsSpace(q[0])
    ensures SepSub(u + q) == a + q && (u == "" ==> a == "")
    decreases |u|
  {
    hide IsSpace, AllSpace, NoOcc, LStrip, RStrip, SepSub, Reaches, At;
    if Find(u + q, SEPARATOR) < 0 {
      a := u;
      NoSepSub(u + q);
    } else {
      ReachesFind(u, q);
      var w, y := SepSubParts(u + q);
      var n := |w| + |SEPARATOR|;
      assert y == (u + q)[n..];
      Drop(u, q, n);
      ReachesStrip(u[n..], q);
      LStripShort(u[n..]);
      var more := SepSubTail(LStrip(u[n..]), q);
      a := RStrip(w) + "\n" + more;
      Assoc(RStrip(w) + "\n", more, q);
    }
  }

  lemma {:induction false} RoleSubTail(a: string, q: string, lineStart: bool) returns (b: string)
    requires q != "" && OneLine(q) && !IsSpace(q[0]) && q[0] != 'U' && q[0] != 'A' && (a != "" ==> q[0] == '|')
    ensures RoleSub(a + q, lineStart) == b + q && (a == "" ==> b == "")
    decreases |a|
  {
    hide RoleSub, RoleLen, IsSpace;
    var s := a + q;
    if a == "" {
      b := "";
      NilLeft(q);
      NoRoleFirst(q);
      Unfold(q, lineStart);
      OneLineDrop(q);
      OneLineUnchanged(q[1..]);
      assert q == [q[0]] + q[1..];
    } else {
      var m := if lineStart then RoleLen(s) else 0;
      var n := if m > 0 then m else 1;
      if m > 0 { RoleBeforeBar(a, q); }
      Unfold(s, lineStart);
      Drop(a, q, n);
      var rest := RoleSubTail(a[n..], q, s[n - 1] == '\n');
      var head := if m > 0 then "" else [s[0]];
      b := head + rest;
      Assoc(head, rest, q);
    }
  }

  lemma OneLineDrop(q: string)
    requires OneLine(q) && q != ""
    ensures OneLine(q[1..])
  {}

  lemma NoRoleFirst(q: string)
    requires q != "" && !IsSpace(q[0]) && q[0] != 'U' && q[0] != 'A'
    ensures RoleLen(q) == 0
  {
    assert q[0..] == q;
    TokenFacts(q);
  }

  /** A role marker is not removed across a bar. */
  lemma RoleBeforeBar(a: string, q: string)
    requires q != "" && q[0] == '|' && RoleLen(a + q) > 0
    ensures RoleLen(a + q) <= |a|
  {
    var s := a + q;
    var n := RoleLen(s);
    var blanks, marker, ws := RoleParts(s);
    hide RoleLen, OnlyBlanks;
    SpaceBar(ws);
    NoBarInside(blanks, marker, ws);
    assert s[|a|] == '|';
    SliceChar(s, n, |a|);
  }

  lemma SliceChar(s: string, n: nat, i: nat)
    requires n <= |s| && i < |s|
    ensures i < n ==> s[i] in s[..n]
  {
    if i < n { assert s[..n][i] == s[i]; }
  }

  lemma NoBarInside(blanks: string, marker: string, ws: string)
    requires OnlyBlanks(blanks) && (marker == USER || marker == ASSISTANT) && '|' !in ws
    ensures '|' !in blanks + (marker + ws)
  {
    assert '|' !in USER && '|' !in ASSISTANT && '|' !in blanks;
  }

  lemma {:induction false} CollapseTail(a: string, q: string) returns (b: string)
    requires q != "" && OneLine(q)
    ensures Collapse(a + q) == b + q && (a == "" ==> b == "")
    decreases |a|
  {
    hide Collapse, NoOcc, AllSpace, OnlyNewlines;
    if Find(a + q, EXCESS) < 0 {
      b := a;
      NoCollapse(a + q);
    } else {
      var w, run, z := CollapseParts(a + q);
      var a' := TailLonger(a, q, w + run, z, run);
      var more := CollapseTail(a', q);
      b := w + PARAGRAPH + more;
      Assoc(w + PARAGRAPH, more, q);
    }
  }

  lemma TailLonger(a: string, q: string, h: string, z: string, run: string) returns (a': string)
    requires a + q == h + z && OneLine(q) && q != "" && run != "" && OnlyNewlines(run)
    requires |h| >= |run| && h[|h| - |run|..] == run
    ensures z == a' + q && |a'| < |a|
  {
    assert run[|run| - 1] in run && h[|h| - 1] == run[|run| - 1];
    assert (a + q)[|h| - 1] == '\n';
    BreakBefore(a, q, |h| - 1);
    a' := a[|h|..];
    assert z == (a + q)[|h|..];
  }

  lemma BreakBefore(a: string, q: string, i: nat)
    requires OneLine(q) && i < |a + q| && (a + q)[i] == '\n'
    ensures i < |a|
  {}

  // ----- the first chunk -----

  /** Characters of a separator and the first character of a gap. */
  predicate Cut(q: string, j: nat, n: nat) {
    && j < n < |SEPARATOR| && |q| == n - j + 1 && q[..n - j] == SEPARATOR[j..n]
    && (Blank(q[n - j]) || q[n - j] == 'U' || q[n - j] == 'A')
  }

  lemma CutFacts(q: string, j: nat, n: nat)
    requires Cut(q, j, n)
    ensures q != "" && OneLine(q) && !IsSpace(q[0]) && q[0] != 'U' && q[0] != 'A' && NoOcc(q, SEPARATOR)
    ensures j == 0 ==> q[0] == '|'
  {
    SeparatorSolid();
    MarkerChars();
    forall k | 0 <= k < n - j
      ensures q[k] == SEPARATOR[j + k]
    {
      assert q[k] == q[..n - j][k];
    }
    forall k | 0 <= k < |q|
      ensures q[k] != '\n'
    {
      if k < n - j { assert q[k] == SEPARATOR[j + k]; }
    }
    assert q[|q| - 1] !in SEPARATOR;
    forall i: nat
      ensures !At(q, SEPARATOR, i)
    {
      if At(q, SEPARATOR, i) { LastIn(q, i); }
    }
  }

  lemma LastIn(q: string, i: nat)
    requires At(q, SEPARATOR, i) && |q| <= |SEPARATOR|
    ensures q[|q| - 1] in SEPARATOR
  {
    AtChar(q, SEPARATOR, i, |SEPARATOR| - 1);
  }

  lemma LastOfPrefix(x: string, p: string)
    requires x != "" && x <= p
    ensures x[|x| - 1] in p
  {
    assert x[|x| - 1] == p[|x| - 1];
  }

  /** What stands at the end of a settled text is emitted but for the last character. */
  lemma CutWithheld(a: string, q: string, j: nat, n: nat)
    requires Cut(q, j, n)
    ensures Withheld(false, a + q) == 1
  {
    hide MarkerTailLen;
    var t := a + q;
    var g, s := q[n - j], q[n - j - 1];
    assert q[n - j - 1] == q[..n - j][n - j - 1] == SEPARATOR[n - 1];
    assert t[|t| - 1] == g && t[|t| - 2] == s;
    SeparatorSolid();
    var k := Withheld(false, t);
    SomeWithheld(t);
    TailForm(false, t, k);
    var tail := t[|t| - k..];
    assert tail[k - 1] == g;
    if k >= 2 { TailPair(tail, s, g, n - 1); }
  }

  lemma SomeWithheld(t: string)
    requires t != "" && (Blank(t[|t| - 1]) || t[|t| - 1] == 'U' || t[|t| - 1] == 'A')
    ensures MarkerTailLen(false, t) >= 1
  {
    var g := t[|t| - 1];
    if Blank(g) {
      assert |RStrip(t)| < |t|;
    } else {
      var p := if g == 'U' then USER else ASSISTANT;
      assert t[|t| - 1..] == [g] == p[..1];
      assert Dangling(t, p, 1);
      MarkersWithheld(false, t);
    }
  }

  lemma TailPair(tail: string, s: char, g: char, k: nat)
    requires |tail| >= 2 && tail[|tail| - 1] == g && tail[|tail| - 2] == s && k < |SEPARATOR| && s == SEPARATOR[k]
    requires Blank(g) || g == 'U' || g == 'A'
    ensures !Growing(tail)
  {
    SeparatorSolid();
    assert s in tail;
    assert g !in SEPARATOR;
    if tail <= SEPARATOR { LastOfPrefix(tail, SEPARATOR); }
    PairIn(tail, USER, s, g, k);
    PairIn(tail, ASSISTANT, s, g, k);
  }

  lemma PairIn(tail: string, p: string, s: char, g: char, k: nat)
    requires (p == USER || p == ASSISTANT) && |tail| >= 2 && tail[|tail| - 1] == g && tail[|tail| - 2] == s
    requires k < |SEPARATOR| && s == SEPARATOR[k] && (Blank(g) || g == 'U' || g == 'A')
    ensures !(tail <= p)
  {
    assert forall k | 0 <= k < |SEPARATOR| :: SEPARATOR[k] != 'T';
    if tail <= p {
      var i := |tail| - 2;
      assert s == p[i] && g == p[i + 1];
      PairLetters(p, i);
    }
  }

  lemma PairLetters(p: string, i: nat)
    requires (p == USER || p == ASSISTANT) && i + 1 < |p|
    ensures !Blank(p[i + 1]) && p[i + 1] != 'U' && (p[i + 1] == 'A' ==> p[i] == 'T')
  {}

  /** The characters are emitted, the start of the gap is not. */
  lemma CutOut(u: string, q: string, j: nat, n: nat) returns (e: string)
    requires Cut(q, j, n) && Reaches(u, q) && (u != "" ==> j == 0)
    ensures Absorb(false, START, u + q) == (e + SEPARATOR[j..n], State([q[n - j]], None)) && (u == "" ==> e == "")
  {
    hide *;
    e := CutSettles(u, q, j, n);
    NilLeft(u + q);
    BufferEmpty();
    CutWithheld(e, q, j, n);
    AbsorbsTo(START, u + q, e + q, 1);
    CutEnds(q, j, n);
    LastCut(e, q);
  }

  lemma BufferEmpty()
    ensures START.buffer == "" && START.grade == None
  {}

  lemma CutEnds(q: string, j: nat, n: nat)
    requires Cut(q, j, n)
    ensures q != "" && q[..|q| - 1] == SEPARATOR[j..n] && |q| - 1 == n - j
  {}

  lemma CutSettles(u: string, q: string, j: nat, n: nat) returns (e: string)
    requires Cut(q, j, n) && Reaches(u, q) && (u != "" ==> j == 0)
    ensures Settle(false, u + q) == Graded(e + q, None) && (u == "" ==> e == "")
  {
    hide SepSub, RoleSub, Collapse, Withheld, NoOcc, IsSpace, Reaches, OneLine, Cut;
    CutFacts(q, j, n);
    var a := SepSubTail(u, q);
    var b := RoleSubTail(a, q, true);
    e := CollapseTail(b, q);
  }

  lemma LastCut(d: string, q: string)
    requires q != ""
    ensures var t := d + q; t[..|t| - 1] == d + q[..|q| - 1] && t[|t| - 1..] == [q[|q| - 1]]
  {}

  lemma SettlesIs(b: string, t: string)
    requires Substitute(b) == t
    ensures Settle(false, b) == Graded(t, None)
  {}

  lemma AbsorbsTo(st: State, c: string, t: string, k: nat)
    requires Settle(false, st.buffer + c) == Graded(t, None) && Withheld(false, t) == k
    ensures Absorb(false, st, c) == (t[..|t| - k], State(t[|t| - k..], st.grade))
  {
    hide Settle, Withheld;
  }

  /** The rest of a gap goes, and the buffer is empty again. */
  lemma GapOut(g: string, c: string, blanks: string, marker: string, run: string)
    requires g + c == blanks + (marker + run)
    requires OnlyBlanks(blanks) && (marker == USER || marker == ASSISTANT) && Soaked(run)
    ensures Absorb(false, State(g, None), c) == ("", START)
  {
    hide Settle, Absorb, Soaked;
    GapGone(blanks, marker, run);
    NothingWithheld();
    AbsorbsNothing(State(g, None), c);
  }

  lemma AbsorbsNothing(st: State, c: string)
    requires Settle(false, st.buffer + c) == Graded("", None) && Withheld(false, "") == 0
    ensures Absorb(false, st, c) == ("", State("", st.grade))
  {
    hide Settle, Withheld;
  }

  lemma NothingWithheld()
    ensures Withheld(false, "") == 0
  {}

  // ----- the last chunk -----

  /** What stands at the start of a chunk stays there. */
  lemma PrefixKept(p: string, s: string)
    requires p != "" && OneLine(p) && !IsSpace(p[0]) && p[0] != 'U' && p[0] != 'A' && !IsSpace(p[|p| - 1])
    requires Startless(p, s)
    ensures p <= Substitute(p + s)
  {
    hide SepSub, RoleSub, Collapse, IsSpace, Startless, OneLine;
    SepSubPrefix(p, s);
    var x := SepSub(p + s);
    RoleSubPrefix(p, x);
    CollapsePrefix(p, RoleSub(x, true));
  }

  lemma SepSubPrefix(p: string, s: string)
    requires p != "" && !IsSpace(p[|p| - 1]) && Startless(p, s)
    ensures p <= SepSub(p + s)
  {
    hide IsSpace, AllSpace, LStrip, RStrip, SepSub, NoOcc;
    if Find(p + s, SEPARATOR) < 0 {
      NoSepSub(p + s);
    } else {
      var w, y := SepSubParts(p + s);
      AtPlace(p + s, |w|);
      assert |w| >= |p|;
      assert w == (p + s)[..|w|];
      assert w == p + w[|p|..];
      RStripPrefix(p, w[|p|..]);
    }
  }

  lemma AtPlace(s: string, i: nat)
    requires At(s, SEPARATOR, i)
    ensures SEPARATOR <= s[i..]
  {}

  lemma {:induction false} RStripPrefix(p: string, x: string)
    requires p != "" && !IsSpace(p[|p| - 1])
    ensures p <= RStrip(p + x)
    decreases |x|
  {
    hide IsSpace, AllSpace;
    if x == "" {
      NilRight(p);
    } else {
      var s := p + x;
      assert s[..|s| - 1] == p + x[..|x| - 1];
      RStripPrefix(p, x[..|x| - 1]);
    }
  }

  lemma RoleSubPrefix(p: string, x: string)
    requires p != "" && p <= x && OneLine(p) && !IsSpace(p[0]) && p[0] != 'U' && p[0] != 'A'
    ensures p <= RoleSub(x, true)
  {
    hide RoleSub, RoleLen, IsSpace;
    NoRoleFirst(x);
    Unfold(x, true);
    Unfold(x, false);
    assert x == p + x[|p|..];
    RoleSubAlong(p, x[|p|..]);
  }

  lemma CollapsePrefix(p: string, x: string)
    requires p <= x && OneLine(p)
    ensures p <= Collapse(x)
  {
    hide Collapse, NoOcc;
    if Find(x, EXCESS) < 0 {
      NoCollapse(x);
    } else {
      var w, run, z := CollapseParts(x);
      AtChar(x, EXCESS, |w|, 0);
      BreakBehind(p, x, |w|);
      assert w == x[..|w|];
    }
  }

  lemma BreakBehind(p: string, x: string, i: nat)
    requires p <= x && OneLine(p) && i < |x| && x[i] == '\n'
    ensures |p| <= i
  {}

  /** The rest of a separator comes out, however much of it is withheld at first. */
  lemma LastOut(j: nat, s: string)
    requires 0 < j < |SEPARATOR| && Startless(SEPARATOR[j..], s)
    ensures SEPARATOR[j..] <= Streamed(false, START, [SEPARATOR[j..] + s]).text
  {
    hide Absorb, Flush, Substitute, Startless, NoOcc, Growing, View;
    var p := SEPARATOR[j..];
    var c := p + s;
    SeparatorSolid();
    assert forall k | 0 <= k < |p| :: p[k] == SEPARATOR[j + k];
    OneLinePart(j);
    PrefixKept(p, s);
    NilLeft(c);
    var t := Substitute(c);
    AbsorbParts(false, START, c);
    AbsorbGrowing(START, c);
    var (emit, st) := Absorb(false, START, c);
    LastChunk(false, START, c);
    NoneWhole(c);
    if |emit| < |p| { TailFlushes(p, emit, st, j); }
  }

  lemma OneLinePart(j: nat)
    requires j < |SEPARATOR|
    ensures OneLine(SEPARATOR[j..])
  {
    MarkerChars();
  }

  lemma NoneWhole(c: string)
    ensures NoOcc(Substitute(c), SEPARATOR)
  {
    hide Substitute, View, NoOcc;
    NilRight(c);
    UngradedSettled(c);
    SubstituteKeeps(false, c, "");
  }

  /** What is withheld of it comes out in the flush. */
  lemma TailFlushes(p: string, emit: string, st: State, j: nat)
    requires 0 < j < |SEPARATOR| && p == SEPARATOR[j..] && p <= emit + st.buffer && |emit| < |p|
    requires Growing(st.buffer) && NoOcc(emit + st.buffer, SEPARATOR)
    ensures Flush(false, st).text == st.buffer
  {
    hide Settle, NoOcc;
    var tail := st.buffer;
    assert tail != "" && tail[0] == (emit + tail)[|emit|] == p[|emit|] == SEPARATOR[j + |emit|];
    SeparatorSolid();
    assert tail[0] in tail;
    assert tail <= SEPARATOR;
    SuffixFree(emit, tail, SEPARATOR);
    BeginsPending(tail, SEPARATOR);
    PendingPart(tail);
    SettlesIs(tail, tail);
  }

  lemma PendingPart(x: string)
    requires x <= SEPARATOR && NoOcc(x, SEPARATOR)
    ensures Substitute(x) == x
  {
    hide SepSub, RoleSub, Collapse;
    MarkerChars();
    FindNone(x);
    NoSepSub(x);
    BeginsPending(x, SEPARATOR);
    assert x == "" || x[0] == '|';
    assert USER[0] == 'U' && ASSISTANT[0] == 'A';
    RoleFreeUnchanged(x, true);
    OneLineUnchanged(x);
  }

  // ----- putting it together -----

  lemma {:induction false} ReachesPart(u: string, q: string, z: string)
    requires Reaches(u, q + z)
    ensures Reaches(u, q)
    decreases |u|
  {
    if u != "" {
      Assoc(u, q, z);
      PrefixOfConcat(SEPARATOR, u + q, z);
      var n := if SEPARATOR <= u + (q + z) then |SEPARATOR| else 1;
      ReachesPart(u[n..], q, z);
    }
  }

  lemma MarkerWalk(n: nat, s: string)
    requires 0 < n < |SEPARATOR| && MarkerLen(s) > 0 && Completes(Gap(n), s)
    ensures Completes(Gap(n), s[MarkerLen(s)..])
  {
    hide Reach;
    TokenFacts(s);
    ReachStep(Gap(n), s);
  }

  lemma FirstCharacter(n: nat, s: string)
    requires 0 < n < |SEPARATOR| && Completes(Gap(n), s) && s != "" && Beyond(s) && MarkerLen(s) == 0
    ensures s[0] == SEPARATOR[n] && !(SEPARATOR <= s) && Completes(Solid(n + 1), s[1..])
  {
    hide Reach, MarkerLen;
    ReachStep(Gap(n), s);
    ReachEnd(Lost, s[Width(s)..]);
  }

  /** Pieces up to a gap are emitted, the gap goes, and the rest follows. */
  lemma {:induction false} ThroughGap(u: string, j: nat, n: nat, s: string) returns (e: string, chunks: seq<string>)
    requires j < n < |SEPARATOR| && Completes(Solid(n), s) && Opens(s)
    requires Reaches(u, SEPARATOR[j..n] + s) && (u != "" ==> j == 0)
    ensures Concat(chunks) == u + (SEPARATOR[j..n] + s) && (u == "" ==> e == "")
    ensures e + SEPARATOR[j..] <= Streamed(false, START, chunks).text
    decreases |s|
  {
    hide Reach, Absorb, Flush, Streamed, Concat, MarkerLen, Startless, Soaked, Reaches, Opens, Beyond, OnlyBlanks;
    var blanks, marker, run, more := GapParts(n, s);
    var g, c := GapSplit(blanks, marker, run);
    var q := SEPARATOR[j..n] + g;
    CutIs(g, blanks, marker, run, c, j, n);
    Regrouped(u, q, j, n, g, c, more, s, blanks, marker, run);
    ReachesPart(u, q, c + more);
    e := CutOut(u, q, j, n);
    assert [q[n - j]] == g;
    GapOut(g, c, blanks, marker, run);
    var later := StreamRest(n, more);
    chunks := [u + q] + ([c] + later);
    FirstChunk(false, START, u + q, [c] + later);
    FirstChunk(false, State(g, None), c, later);
    var text := Streamed(false, START, later).text;
    NilLeft(text);
    PieceLonger(e, j, n, text);
  }

  lemma GapSplit(blanks: string, marker: string, run: string) returns (g: string, c: string)
    requires marker == USER || marker == ASSISTANT
    ensures g + c == blanks + (marker + run) && |g| == 1
  {
    var s := blanks + (marker + run);
    g, c := s[..1], s[1..];
  }

  lemma CutIs(g: string, blanks: string, marker: string, run: string, c: string, j: nat, n: nat)
    requires g + c == blanks + (marker + run) && |g| == 1 && OnlyBlanks(blanks) && (marker == USER || marker == ASSISTANT)
    requires j < n < |SEPARATOR|
    ensures Cut(SEPARATOR[j..n] + g, j, n)
  {
    assert g[0] == (g + c)[0];
    if blanks == "" { NilLeft(marker + run); } else { assert blanks[0] in blanks; }
  }

  lemma Regrouped(u: string, q: string, j: nat, n: nat, g: string, c: string, more: string, s: string,
                  blanks: string, marker: string, run: string)
    requires j < n < |SEPARATOR| && q == SEPARATOR[j..n] + g && g + c == blanks + (marker + run)
    requires s == blanks + (marker + (run + more))
    ensures SEPARATOR[j..n] + s == q + (c + more) && u + q + (c + more) == u + (SEPARATOR[j..n] + s)
  {
    var x := SEPARATOR[j..n];
    Assoc(marker, run, more);
    Assoc(blanks, marker + run, more);
    Assoc(g, c, more);
    Assoc(x, g, c + more);
    Assoc(u, q, c + more);
  }

  lemma PieceLonger(e: string, j: nat, n: nat, text: string)
    requires j <= n <= |SEPARATOR| && SEPARATOR[n..] <= text
    ensures e + SEPARATOR[j..] <= e + SEPARATOR[j..n] + text
  {
    assert SEPARATOR[j..] == SEPARATOR[j..n] + SEPARATOR[n..];
    assert text == SEPARATOR[n..] + text[|SEPARATOR| - n..];
    Assoc(e, SEPARATOR[j..n], SEPARATOR[n..]);
    Assoc(e + SEPARATOR[j..n], SEPARATOR[n..], text[|SEPARATOR| - n..]);
  }

  /** With nothing buffered and a gap behind it, the rest of a separator can be streamed. */
  lemma {:induction false} StreamRest(n: nat, s: string) returns (chunks: seq<string>)
    requires 0 < n < |SEPARATOR| && Completes(Gap(n), s) && Beyond(s)
    ensures Concat(chunks) == s && SEPARATOR[n..] <= Streamed(false, START, chunks).text
    decreases |s|
  {
    hide Reach, Absorb, Flush, Streamed, Concat, MarkerLen, Startless, Soaked, Opens;
    ReachSome(Gap(n), s);
    if MarkerLen(s) > 0 {
      var m := MarkerLen(s);
      MarkerIs(s);
      MarkerWalk(n, s);
      var run, more := GapEnd(n, s[m..]);
      var later := StreamRest(n, more);
      var gap := s[..m] + run;
      NilLeft(gap);
      NoBlanks();
      GapOut("", gap, "", s[..m], run);
      chunks := [gap] + later;
      FirstChunk(false, START, gap, later);
      Halves(s, m, "");
      Assoc(s[..m], run, more);
      NilLeft(Streamed(false, START, later).text);
    } else {
      FirstCharacter(n, s);
      var k, rest := Characters(n + 1, s[1..]);
      CharacterBefore(n, k, s, rest);
      if k == |SEPARATOR| {
        assert SEPARATOR[n..k] == SEPARATOR[n..];
        chunks := [s];
        OneChunk(s);
        LastOut(n, rest);
      } else {
        var e;
        NilLeft(s);
        e, chunks := ThroughGap("", n, k, rest);
        NilLeft(SEPARATOR[n..]);
      }
    }
  }

  lemma NoBlanks()
    ensures OnlyBlanks("")
  {}

  lemma OneChunk(s: string)
    ensures Concat([s]) == s
  {
    assert [s][1..] == [];
    NilRight(s);
  }

  // ----- the exact condition -----

  ghost predicate SealedHoweverCut(raw: string) {
    forall chunks: seq<string> | Concat(chunks) == raw :: NoOcc(Streamed(false, START, chunks).text, SEPARATOR)
  }

  /** Pieces that stand in the answer can be streamed together. */
  lemma PiecesLeak(raw: string) returns (chunks: seq<string>)
    requires Pieced(raw)
    ensures Concat(chunks) == raw && !NoOcc(Streamed(false, START, chunks).text, SEPARATOR)
  {
    hide Reach, Absorb, Flush, Streamed, Concat, Startless, Opens, Reaches, Pieced;
    var u, x := FirstPiece(raw);
    var n, rest := Characters(1, x[1..]);
    CharacterZero(n, x, rest);
    var e;
    e, chunks := ThroughGap(u, 0, n, rest);
    assert SEPARATOR[0..] == SEPARATOR;
    HoldsOne(e, Streamed(false, START, chunks).text);
  }

  lemma CharacterZero(n: nat, x: string, rest: string)
    requires 1 <= n <= |SEPARATOR| && x != "" && x[0] == SEPARATOR[0] && !(SEPARATOR <= x)
    requires x[1..] == SEPARATOR[1..n] + rest
    ensures n < |SEPARATOR| && x == SEPARATOR[0..n] + rest
  {
    assert SEPARATOR[0..n] == [SEPARATOR[0]] + SEPARATOR[1..n];
    assert x == [x[0]] + x[1..];
    Assoc([x[0]], SEPARATOR[1..n], rest);
    if n == |SEPARATOR| { WholePrefix(x, rest); }
  }

  lemma WholePrefix(x: string, rest: string)
    requires x == SEPARATOR[0..|SEPARATOR|] + rest
    ensures SEPARATOR <= x
  {
    assert SEPARATOR[0..|SEPARATOR|] == SEPARATOR;
  }

  lemma HoldsOne(e: string, s: string)
    requires e + SEPARATOR <= s
    ensures !NoOcc(s, SEPARATOR)
  {
    assert s[|e|..|e| + |SEPARATOR|] == (e + SEPARATOR)[|e|..] == SEPARATOR;
    assert At(s, SEPARATOR, |e|);
  }

  /** Without grading, a client can be made to read a separator if and only if its pieces stand in
      the answer with gaps between them. */
  lemma SealedExactly(raw: string)
    ensures SealedHoweverCut(raw) <==> !Pieced(raw)
  {
    hide Streamed, Pieced, NoOcc;
    if Pieced(raw) {
      var chunks := PiecesLeak(raw);
      assert Concat(chunks) == raw;
    } else {
      forall chunks: seq<string> | Concat(chunks) == raw
        ensures NoOcc(Streamed(false, START, chunks).text, SEPARATOR)
      {
        UnpiecedStream(chunks);
      }
    }
  }
}
