/** Separators that a client could put together: out of pieces that stand apart in the answer, with
    nothing between them but what the clean-up of a chunk removes. */
module Pieces {
  import opened Text
  import opened StreamFilter
  import opened Substitutions
  import opened RoleMarkers
  import opened Reading

  // ----- what a separator can be put together from -----

  /** How far a separator has been put together: `k` characters and nothing after them; then blanks;
      then a role marker and what goes with it; or no further. */
  datatype Trail = Solid(k: nat) | Blanked(k: nat) | Gap(k: nat) | Lost

  const WHOLE := Solid(|SEPARATOR|)

  predicate Blank(c: char) {
    c == ' ' || c == '\t'
  }

  function Walk(m: Trail, c: char): Trail {
    match m
    case Lost => Lost
    case Solid(k) => if k < |SEPARATOR| && c == SEPARATOR[k] then Solid(k + 1) else if Blank(c) then Blanked(k) else Lost
    case Blanked(k) => if Blank(c) then m else Lost
    case Gap(k) => if k < |SEPARATOR| && c == SEPARATOR[k] then Solid(k + 1) else if IsSpace(c) then m else Lost
  }

  /** Behind the first token or character of `s`: a role marker opens a gap, whitespace and whole
      separators widen it. */
  function Turn(m: Trail, s: string): Trail
    requires s != ""
  {
    if m == WHOLE || m.Lost? then m
    else if SEPARATOR <= s then (if m.Gap? then m else Lost)
    else if MarkerLen(s) > 0 then Gap(m.k)
    else Walk(m, s[0])
  }

  function Reach(m: Trail, s: string): Trail
    decreases |s|
  {
    if s == "" then m else Reach(Turn(m, s), s[Width(s)..])
  }

  predicate Completes(m: Trail, s: string) {
    Reach(m, s) == WHOLE
  }

  /** From some place outside the whole separators on, pieces of a separator follow in order, with
      gaps between them. */
  predicate Pieced(s: string)
    decreases |s|
  {
    s != "" &&
    if SEPARATOR <= s then Pieced(s[|SEPARATOR|..])
    else (s[0] == SEPARATOR[0] && Completes(Solid(1), s[1..])) || Pieced(s[1..])
  }

  // ----- trails -----

  lemma {:induction false} ReachEnd(m: Trail, s: string)
    requires m == WHOLE || m.Lost?
    ensures Reach(m, s) == m
    decreases |s|
  {
    if s != "" {
      hide Token;
      ReachEnd(m, s[Width(s)..]);
    }
  }

  lemma ReachStep(m: Trail, s: string)
    requires s != ""
    ensures Reach(m, s) == Reach(Turn(m, s), s[Width(s)..])
  {}

  lemma ReachNothing(m: Trail)
    ensures Reach(m, "") == m
  {}

  /** Where nothing straddles, a trail goes through one part and then through the other. */
  lemma {:induction false} ReachCut(m: Trail, x: string, y: string)
    requires NoStraddle(x, y)
    ensures Reach(m, x + y) == Reach(Reach(m, x), y)
    decreases |x|
  {
    hide Reach, Token, MarkerLen, NoStraddle, Walk;
    if x == "" {
      NilLeft(y);
      ReachNothing(m);
    } else {
      SameToken(x, y);
      var n := Width(x);
      Drop(x, y, n);
      NoStraddleSuffix(x, y, n);
      ReachCut(Turn(m, x), x[n..], y);
      ReachStep(m, x);
      ReachStep(m, x + y);
    }
  }

  /** `m'` gets at least as far as `m`. */
  predicate Ahead(m: Trail, m': Trail) {
    m == m' || m.Lost? || (!m'.Lost? && m.k == m'.k && (m.Blanked? || (m.Solid? && m'.Gap? && m.k < |SEPARATOR|)))
  }

  lemma TurnAhead(m: Trail, m': Trail, s: string)
    requires s != "" && Ahead(m, m') && m != WHOLE && m' != WHOLE
    ensures Ahead(Turn(m, s), Turn(m', s))
  {
    hide MarkerLen;
    SeparatorSolid();
  }

  lemma SeparatorSolid()
    ensures forall k | 0 <= k < |SEPARATOR| :: !IsSpace(SEPARATOR[k]) && SEPARATOR[k] != 'U' && SEPARATOR[k] != 'A'
  {}

  lemma {:induction false} AheadCompletes(m: Trail, m': Trail, s: string)
    requires Ahead(m, m') && Completes(m, s)
    ensures Completes(m', s)
    decreases |s|
  {
    hide Token, MarkerLen, Walk, Turn;
    if m == m' {
    } else if m.Lost? {
      ReachEnd(m, s);
    } else if m' == WHOLE {
      ReachEnd(m', s);
    } else if s != "" {
      TurnAhead(m, m', s);
      AheadCompletes(Turn(m, s), Turn(m', s), s[Width(s)..]);
    }
  }

  // ----- what holds of one text and of another one as well -----

  /** Whatever can be put together out of `a` can be put together out of `b`. */
  ghost predicate Reflects(a: string, b: string) {
    (Pieced(a) ==> Pieced(b)) && forall m :: Completes(m, a) ==> Completes(m, b)
  }

  lemma ReflectsThrough(a: string, b: string, c: string)
    requires Reflects(a, b) && Reflects(b, c)
    ensures Reflects(a, c)
  {
    hide Completes, Pieced;
  }

  lemma {:induction false} ReflectsPrefix(u: string, a: string, b: string)
    requires NoStraddle(u, a) && NoStraddle(u, b) && Reflects(a, b)
    ensures Reflects(u + a, u + b)
    decreases |u|
  {
    hide Reach, Token, MarkerLen, NoStraddle;
    forall m: Trail | Completes(m, u + a)
      ensures Completes(m, u + b)
    {
      ReachCut(m, u, a);
      ReachCut(m, u, b);
      assert Completes(Reach(m, u), a);
    }
    if Pieced(u + a) { PiecedPrefix(u, a, b); }
  }

  lemma {:induction false} PiecedPrefix(u: string, a: string, b: string)
    requires NoStraddle(u, a) && NoStraddle(u, b) && Reflects(a, b) && Pieced(u + a)
    ensures Pieced(u + b)
    decreases |u|
  {
    hide Reach, Token, MarkerLen, NoStraddle;
    if u == "" {
      NilLeft(a);
      NilLeft(b);
    } else {
      SameToken(u, a);
      SameToken(u, b);
      var n := if SEPARATOR <= u then |SEPARATOR| else 1;
      Drop(u, a, n);
      Drop(u, b, n);
      NoStraddleSuffix(u, a, n);
      NoStraddleSuffix(u, b, n);
      if Pieced(u[n..] + a) {
        PiecedPrefix(u[n..], a, b);
      } else {
        ReachCut(Solid(1), u[n..], a);
        ReachCut(Solid(1), u[n..], b);
        assert Completes(Reach(Solid(1), u[n..]), a);
      }
    }
  }

  /** One more character in front that starts no token. */
  lemma ReflectsChar(c: char, a: string, b: string)
    requires Token([c] + a) == 0 && Token([c] + b) == 0 && Reflects(a, b)
    ensures Reflects([c] + a, [c] + b)
  {
    assert ([c] + a)[1..] == a && ([c] + b)[1..] == b;
    hide Completes, Pieced, Reflects, Walk, IsSpace, MarkerLen;
    StepChar(c, a);
    StepChar(c, b);
    ReflectsOut(a, b);
    forall m: Trail | Completes(m, [c] + a)
      ensures Completes(m, [c] + b)
    {
      StepTrail(m, c, a);
      StepTrail(m, c, b);
    }
    ReflectsIn([c] + a, [c] + b);
  }

  lemma ReflectsOut(a: string, b: string)
    requires Reflects(a, b)
    ensures (Pieced(a) ==> Pieced(b)) && forall m :: Completes(m, a) ==> Completes(m, b)
  {}

  lemma ReflectsIn(a: string, b: string)
    requires (Pieced(a) ==> Pieced(b)) && forall m :: Completes(m, a) ==> Completes(m, b)
    ensures Reflects(a, b)
  {}

  lemma StepChar(c: char, a: string)
    requires Token([c] + a) == 0
    ensures Pieced([c] + a) <==> (c == SEPARATOR[0] && Completes(Solid(1), a)) || Pieced(a)
  {
    assert ([c] + a)[1..] == a;
    hide Completes;
  }

  lemma StepTrail(m: Trail, c: char, a: string)
    requires Token([c] + a) == 0
    ensures Completes(m, [c] + a) <==> Completes(if m == WHOLE then m else Walk(m, c), a)
  {
    assert ([c] + a)[1..] == a;
    hide Walk;
    ReachStep(m, [c] + a);
    if m.Lost? {
      ReachEnd(m, a);
    }
  }

  lemma ReflectsSame(a: string)
    ensures Reflects(a, a)
  {}

  // ----- the clean-up of a chunk adds no pieces -----

  /** Whitespace widens a gap, and no separator starts in it. */
  lemma {:induction false} SpacesWiden(m: Trail, ws: string, x: string)
    requires AllSpace(ws)
    ensures m.Gap? || m == WHOLE ==> Reach(m, ws + x) == Reach(m, x)
    ensures Pieced(ws + x) <==> Pieced(x)
    decreases |ws|
  {
    hide Reach, Token, MarkerLen, Pieced, IsSpace;
    if ws == "" {
      NilLeft(x);
    } else {
      var c, y := ws[0], ws[1..] + x;
      assert c in ws && ws + x == [c] + y;
      assert forall d | d in ws[1..] :: d in ws;
      SpacesWiden(m, ws[1..], x);
      SpaceTurns(m, c, y);
    }
  }

  lemma SpaceTurns(m: Trail, c: char, y: string)
    requires IsSpace(c)
    ensures Token([c] + y) == 0
    ensures m.Gap? || m == WHOLE ==> Reach(m, [c] + y) == Reach(m, y)
    ensures Pieced([c] + y) <==> Pieced(y)
  {
    hide Reach;
    TokenFacts([c] + y);
    SeparatorSolid();
    assert ([c] + y)[1..] == y;
    ReachStep(m, [c] + y);
  }

  lemma SeparatorWidens(m: Trail, y: string)
    ensures m.Gap? || m == WHOLE ==> Reach(m, SEPARATOR + y) == Reach(m, y)
    ensures Pieced(SEPARATOR + y) <==> Pieced(y)
  {
    hide Reach;
    var s := SEPARATOR + y;
    assert SEPARATOR <= s && s[|SEPARATOR|..] == y;
    TokenFacts(s);
    ReachStep(m, s);
  }

  /** A line break ends every trail but a gap. */
  lemma BreakStops(m: Trail, z: string)
    ensures Completes(m, "\n" + z) <==> (m.Gap? || m == WHOLE) && Completes(m, z)
  {
    hide Reach;
    assert IsSpace('\n') && !Blank('\n');
    SeparatorSolid();
    SpaceTurns(m, '\n', z);
    StepTrail(m, '\n', z);
    ReachEnd(Lost, z);
  }

  /** For a line break there was whitespace, or a separator with whitespace around it. */
  lemma BreakReflects(z: string, ws: string, y: string, separated: bool)
    requires AllSpace(ws) && Reflects(z, y)
    ensures Reflects("\n" + z, ws + if separated then SEPARATOR + y else y)
  {
    hide Reach, AllSpace, IsSpace;
    var b := if separated then SEPARATOR + y else y;
    NewlineIsSpace();
    forall m: Trail | Completes(m, "\n" + z)
      ensures Completes(m, ws + b)
    {
      BreakStops(m, z);
      SpacesWiden(m, ws, b);
      SeparatorWidens(m, y);
    }
    SpaceTurns(Lost, '\n', z);
    SpacesWiden(Lost, ws, b);
    SeparatorWidens(Lost, y);
  }

  /** Whitespace in front of what may be reflected. */
  lemma LeadReflects(z: string, lead: string, y: string)
    requires AllSpace(lead) && Reflects("\n" + z, SEPARATOR + y)
    ensures Reflects("\n" + z, SEPARATOR + (lead + y))
  {
    hide Reach, AllSpace, IsSpace;
    forall m: Trail | Completes(m, "\n" + z)
      ensures Completes(m, SEPARATOR + (lead + y))
    {
      BreakStops(m, z);
      SeparatorWidens(m, y);
      SeparatorWidens(m, lead + y);
      SpacesWiden(m, lead, y);
    }
    SeparatorWidens(Lost, y);
    SeparatorWidens(Lost, lead + y);
    SpacesWiden(Lost, lead, y);
  }

  lemma NothingSpace()
    ensures AllSpace("")
  {}

  lemma {:induction false} SepSubReflects(b: string, r: string)
    ensures Reflects(SepSub(b) + r, b + r)
    decreases |b|
  {
    hide Reflects, SepSub, LStrip, RStrip, AllSpace, IsSpace, NoOcc, At;
    if Find(b, SEPARATOR) < 0 {
      NoSepSub(b);
      ReflectsSame(b + r);
    } else {
      var w, y := SepSubParts(b);
      SepSubReflects(LStrip(y), r);
      FindPrefix(b, r, SEPARATOR);
      Assoc4(w, SEPARATOR, y, r);
      CutReflects(w, y, SepSub(LStrip(y)), r);
    }
  }

  lemma CutReflects(w: string, y: string, z: string, r: string)
    requires Find(w + (SEPARATOR + (y + r)), SEPARATOR) == |w| && Reflects(z + r, LStrip(y) + r)
    ensures Reflects(RStrip(w) + "\n" + z + r, w + (SEPARATOR + (y + r)))
  {
    hide Reflects, AllSpace, IsSpace, NoOcc, At, NoStraddle, Find, LStrip, RStrip;
    var u := RStrip(w);
    var ws, k := w[|u|..], |y| - |LStrip(y)|;
    RStripSplit(w);
    Halves(y, k, r);
    var x := SEPARATOR + (y + r);
    NothingSpace();
    BreakReflects(z + r, "", LStrip(y) + r, true);
    NilLeft(SEPARATOR + (LStrip(y) + r));
    LeadReflects(z + r, y[..k], LStrip(y) + r);
    SpacesReflect("\n" + (z + r), ws, x);
    StripSeam(w, y + r);
    SpaceOutsideBreak(u, z + r);
    ReflectsPrefix(u, "\n" + (z + r), ws + x);
    Assoc4(u, "\n", z, r);
    Assoc(u, ws, x);
  }

  /** Whitespace before a separator. */
  lemma SpacesReflect(a: string, ws: string, x: string)
    requires AllSpace(ws) && a != "" && a[0] == '\n' && Reflects(a, x)
    ensures Reflects(a, ws + x)
  {
    hide Reach, AllSpace, IsSpace;
    assert a == "\n" + a[1..];
    forall m: Trail | Completes(m, a)
      ensures Completes(m, ws + x)
    {
      BreakStops(m, a[1..]);
      SpacesWiden(m, ws, x);
    }
    SpacesWiden(Lost, ws, x);
  }

  lemma StripSeam(w: string, y: string)
    requires Find(w + (SEPARATOR + y), SEPARATOR) == |w|
    ensures var u := RStrip(w); NoStraddle(u, w[|u|..] + (SEPARATOR + y))
  {
    hide Find, NoStraddle, IsSpace;
    var u := RStrip(w);
    var ws := w[|u|..];
    if ws == "" {
      NilLeft(SEPARATOR + y);
      assert u == w;
      SeparatorSeam(w, y);
    } else {
      assert ws[0] in ws;
      SpaceOutside(ws[0]);
      OutsideSeam(u, ws + (SEPARATOR + y));
    }
  }

  lemma SpaceOutsideBreak(u: string, z: string)
    ensures NoStraddle(u, "\n" + z)
  {
    hide NoStraddle;
    NewlineIsSpace();
    SpaceOutside('\n');
    OutsideSeam(u, "\n" + z);
  }

  // ----- role markers -----

  /** Blanks, a role marker and whitespace are a gap. */
  lemma GapReflects(blanks: string, marker: string, ws: string, x: string)
    requires OnlyBlanks(blanks) && AllSpace(blanks) && (marker == USER || marker == ASSISTANT) && AllSpace(ws)
    ensures Reflects(x, blanks + (marker + (ws + x)))
  {
    hide Reach, AllSpace, IsSpace, OnlyBlanks;
    forall m: Trail | Completes(m, x)
      ensures Completes(m, blanks + (marker + (ws + x)))
    {
      if m == WHOLE || m.Lost? {
        ReachEnd(m, x);
        ReachEnd(m, blanks + (marker + (ws + x)));
      } else {
        var m' := BlanksAhead(m, blanks, marker + (ws + x));
        MarkerOpens(m', marker, ws + x);
        SpacesWiden(Gap(m.k), ws, x);
        if m != WHOLE { AheadOfGap(m, x); }
      }
    }
    SpacesWiden(Lost, blanks, marker + (ws + x));
    SpacesWiden(Lost, ws, x);
    MarkerPieced(marker, ws + x);
  }

  lemma AheadOfGap(m: Trail, x: string)
    requires !m.Lost? && m != WHOLE && Completes(m, x)
    ensures Completes(Gap(m.k), x)
  {
    hide Reach;
    if m.Solid? && m.k >= |SEPARATOR| {
      TooFar(m, x);
    } else {
      AheadCompletes(m, Gap(m.k), x);
    }
  }

  /** More characters than a separator has lead nowhere. */
  lemma {:induction false} TooFar(m: Trail, x: string)
    requires m != WHOLE && (m.Lost? || m.k >= |SEPARATOR|)
    ensures !Completes(m, x)
    decreases |x|
  {
    if x != "" {
      hide Token, MarkerLen;
      TooFar(Turn(m, x), x[Width(x)..]);
    }
  }

  /** Behind blanks a role marker still opens a gap. */
  lemma {:induction false} BlanksAhead(m: Trail, blanks: string, x: string) returns (m': Trail)
    requires OnlyBlanks(blanks) && !m.Lost? && m != WHOLE
    ensures !m'.Lost? && m' != WHOLE && m'.k == m.k && Reach(m, blanks + x) == Reach(m', x)
    decreases |blanks|
  {
    hide Reach;
    if blanks == "" {
      m' := m;
      NilLeft(x);
    } else {
      var c, y := blanks[0], blanks[1..] + x;
      assert c in blanks && blanks + x == [c] + y;
      assert forall d | d in blanks[1..] :: d in blanks;
      SeparatorSolid();
      TokenFacts([c] + y);
      ReachStep(m, [c] + y);
      assert ([c] + y)[1..] == y;
      m' := BlanksAhead(Walk(m, c), blanks[1..], x);
    }
  }

  lemma MarkerOpens(m: Trail, marker: string, x: string)
    requires (marker == USER || marker == ASSISTANT) && !m.Lost? && m != WHOLE
    ensures Reach(m, marker + x) == Reach(Gap(m.k), x)
  {
    hide Reach;
    var s := marker + x;
    assert marker <= s && s[|marker|..] == x;
    TokenFacts(s);
    ReachStep(m, s);
  }

  /** Where there is no bar, no separator starts. */
  lemma {:induction false} NoBar(u: string, x: string)
    requires '|' !in u
    ensures Pieced(u + x) <==> Pieced(x)
    decreases |u|
  {
    hide Completes, Pieced;
    if u == "" {
      NilLeft(x);
    } else {
      assert forall c | c in u[1..] :: c in u;
      assert u[0] in u;
      NoBar(u[1..], x);
      Drop(u, x, 1);
      NoBarFirst(u + x);
    }
  }

  lemma NoBarFirst(s: string)
    requires s != "" && s[0] != '|'
    ensures Pieced(s) <==> Pieced(s[1..])
  {
    hide Completes;
    assert SEPARATOR[0] == '|';
  }

  /** No separator starts in a role marker. */
  lemma MarkerPieced(marker: string, x: string)
    requires marker == USER || marker == ASSISTANT
    ensures Pieced(marker + x) <==> Pieced(x)
  {
    hide Pieced;
    assert '|' !in USER && '|' !in ASSISTANT;
    NoBar(marker, x);
  }

  /** Inside a role marker no token starts. */
  lemma MarkerSeam(p: string, x: string)
    requires p == USER || p == ASSISTANT
    ensures NoStraddle(p, x)
  {
    forall j: nat | j < |p|
      ensures j + Token((p + x)[j..]) <= |p|
    {
      var s := (p + x)[j..];
      assert s[0] == p[j];
      if j == 0 {
        assert s == p + x && p <= s;
        TokenFacts(s);
      } else if Token(s) > 0 {
        var q := TokenIs(s);
        assert q[0] == p[j] && (j + 1 < |p| ==> s[1] == p[j + 1] == q[1]);
      }
    }
  }

  lemma {:induction false} RoleSubReflects(s: string, r: string, lineStart: bool)
    requires NoOcc(s, SEPARATOR)
    ensures Reflects(RoleSub(s, lineStart) + r, s + r)
    decreases |s|
  {
    hide RoleLen, NoOcc, Token, RoleSub, Reflects;
    if s == "" {
      NothingToRemove(lineStart);
      ReflectsSame(s + r);
    } else if lineStart && RoleLen(s) > 0 {
      var n := RoleLen(s);
      Removed(s);
      NoSeparatorDrop(s, n);
      RoleSubReflects(s[n..], r, s[n - 1] == '\n');
      RemovedReflects(s, r);
      ReflectsThrough(RoleSub(s, lineStart) + r, s[n..] + r, s + r);
    } else if |s| < Token(s + r) {
      PartialToken(s, r);
      RoleFreeUnchanged(s, lineStart);
      ReflectsSame(s + r);
    } else if Token(s + r) > 0 {
      var m := Token(s + r);
      NoSeparatorDrop(s, m);
      TokenStays(s, r, lineStart);
      RoleSubReflects(s[m..], r, false);
      var rest := RoleSub(s[m..], false);
      MarkerSeam(s[..m], rest + r);
      MarkerSeam(s[..m], s[m..] + r);
      ReflectsPrefix(s[..m], rest + r, s[m..] + r);
      Assoc(s[..m], rest, r);
      Halves(s, m, r);
    } else {
      NoSeparatorDrop(s, 1);
      RoleSubReflects(s[1..], r, s[0] == '\n');
      CharReflects(s, r, lineStart);
    }
  }

  lemma RemovedReflects(s: string, r: string)
    requires RoleLen(s) > 0
    ensures Reflects(s[RoleLen(s)..] + r, s + r)
  {
    hide Reflects, RoleLen;
    var blanks, marker, ws := RoleParts(s);
    var rest := s[RoleLen(s)..];
    RoleMarkers.Regroup(blanks, marker, ws, rest, r);
    GapReflects(blanks, marker, ws, rest + r);
  }

  lemma CharReflects(s: string, r: string, lineStart: bool)
    requires s != "" && Token(s + r) == 0 && (lineStart ==> RoleLen(s) == 0)
    requires Reflects(RoleSub(s[1..], s[0] == '\n') + r, s[1..] + r)
    ensures Reflects(RoleSub(s, lineStart) + r, s + r)
  {
    SameMarker(s, r);
    Unfold(s, lineStart);
    hide RoleSub, RoleLen, Reflects, MarkerLen;
    var rest := RoleSub(s[1..], s[0] == '\n');
    Assoc([s[0]], rest, r);
    Halves(s, 1, r);
    assert s[..1] == [s[0]];
    ReflectsChar(s[0], rest + r, s[1..] + r);
  }

  // ----- runs of newlines, and what follows a sentinel -----

  lemma {:induction false} CollapseReflects(t: string, r: string)
    ensures Reflects(Collapse(t) + r, t + r)
    decreases |t|
  {
    hide Reflects, Collapse, AllSpace, OnlyNewlines, NoOcc, NoStraddle;
    if Find(t, EXCESS) < 0 {
      NoCollapse(t);
      ReflectsSame(t + r);
    } else {
      var w, run, z := CollapseParts(t);
      CollapseReflects(z, r);
      RunReflects(w, run, Collapse(z) + r, z + r);
      Assoc4(w, run, z, r);
      Assoc4(w, PARAGRAPH, Collapse(z), r);
    }
  }

  lemma RunReflects(w: string, run: string, z: string, y: string)
    requires run != "" && OnlyNewlines(run) && Reflects(z, y)
    ensures Reflects(w + (PARAGRAPH + z), w + (run + y))
  {
    hide Reflects, AllSpace, OnlyNewlines, NoStraddle;
    Newlines(run);
    NothingSpace();
    BreakReflects(z, "", y, false);
    NilLeft(y);
    BreakReflects("\n" + z, run, y, false);
    assert PARAGRAPH + z == "\n" + ("\n" + z);
    SpaceOutsideBreak(w, "\n" + z);
    NewlineIsSpace();
    SpaceOutside('\n');
    OutsideSeam(w, run + y);
    ReflectsPrefix(w, PARAGRAPH + z, run + y);
  }

  lemma SubstituteReflects(b: string, r: string)
    ensures Reflects(Substitute(b) + r, b + r)
  {
    hide Reflects, SepSub, RoleSub, Collapse;
    MarkerChars();
    SepSubComplete(b, SEPARATOR);
    var s, t := SepSub(b), Roleless(b);
    SepSubReflects(b, r);
    RoleSubReflects(s, r, true);
    CollapseReflects(t, r);
    ReflectsThrough(t + r, s + r, b + r);
    ReflectsThrough(Substitute(b) + r, t + r, b + r);
  }

  lemma {:induction false} SpacesIdle(m: Trail, r: string)
    requires AllSpace(r)
    ensures !Pieced(r) && (Completes(m, r) ==> m == WHOLE)
    decreases |r|
  {
    SeparatorSolid();
    if r == "" {
      ReachNothing(m);
    } else {
      hide MarkerLen, Reach, IsSpace;
      assert r[0] in r;
      assert forall c | c in r[1..] :: c in r;
      TokenFacts(r);
      ReachStep(m, r);
      SpacesIdle(Turn(m, r), r[1..]);
    }
  }

  /** A text that only whitespace follows. */
  lemma EndReflects(u: string, r: string, x: string)
    requires AllSpace(r) && (x == "" || Outside(x[0]))
    ensures Reflects(u + r, u + x)
  {
    hide Reach, AllSpace, IsSpace, Outside, NoStraddle;
    SpaceSeam(u, r);
    if x == "" { NothingStraddles(u); } else { OutsideSeam(u, x); }
    forall m: Trail | Completes(m, r)
      ensures Completes(m, x)
    {
      SpacesIdle(m, r);
      ReachEnd(m, x);
    }
    SpacesIdle(Lost, r);
    ReflectsPrefix(u, r, x);
  }

  lemma SpaceSeam(u: string, r: string)
    requires AllSpace(r)
    ensures NoStraddle(u, r)
  {
    hide NoStraddle;
    if r == "" {
      NothingStraddles(u);
    } else {
      assert r[0] in r;
      SpaceOutside(r[0]);
      OutsideSeam(u, r);
    }
  }

  // ----- answers that hold no pieces -----

  /** With a character of a separator before it, a clean text does not complete it. */
  lemma {:induction false} CleanIncomplete(m: Trail, s: string)
    requires Clean(Inside, s, true) && (m.Solid? || m.Blanked?) && 0 < m.k < |SEPARATOR|
    requires m.Solid? ==> !(SEPARATOR[m.k..] <= s)
    ensures !Completes(m, s)
    decreases |s|
  {
    SeparatorSolid();
    if s == "" {
      ReachNothing(m);
    } else {
      hide Reach, MarkerLen;
      ReachStep(m, s);
      var rest := s[Width(s)..];
      if SEPARATOR <= s {
        ReachEnd(Lost, rest);
      } else if MarkerLen(s) > 0 {
        assert rest == "";
        ReachNothing(Gap(m.k));
      } else if Walk(m, s[0]).Lost? {
        ReachEnd(Lost, rest);
      } else {
        CleanChar(m, s);
        CleanIncomplete(Walk(m, s[0]), rest);
      }
    }
  }

  lemma CleanChar(m: Trail, s: string)
    requires s != "" && Token(s) == 0 && Clean(Inside, s, true) && (m.Solid? || m.Blanked?) && 0 < m.k < |SEPARATOR|
    requires (m.Solid? ==> !(SEPARATOR[m.k..] <= s)) && !Walk(m, s[0]).Lost?
    ensures var m' := Walk(m, s[0]);
      && Clean(Inside, s[1..], true) && (m'.Solid? || m'.Blanked?) && 0 < m'.k < |SEPARATOR|
      && (m'.Solid? ==> !(SEPARATOR[m'.k..] <= s[1..]))
  {
    SeparatorSolid();
    hide MarkerLen;
    if m.Solid? && s[0] == SEPARATOR[m.k] {
      assert SEPARATOR[m.k..][1..] == SEPARATOR[m.k + 1..];
      OneLetter(SEPARATOR[m.k..], s);
    }
  }

  lemma OneLetter(p: string, s: string)
    requires p != "" && s != "" && p[0] == s[0]
    ensures p[1..] <= s[1..] <==> p <= s
  {
    assert p == [p[0]] + p[1..] && s == [s[0]] + s[1..];
  }

  /** Where all role markers can be removed however the text is cut, none stands between pieces. */
  lemma {:induction false} CleanUnpieced(q: Place, s: string)
    requires Clean(q, s, true)
    ensures !Pieced(s)
    decreases |s|
  {
    if s != "" {
      TokenFacts(s);
      if MarkerLen(s) > 0 {
        CleanUnpieced(Next(q, s), s[MarkerLen(s)..]);
        BehindMarker(s);
      } else if SEPARATOR <= s {
        CleanUnpieced(Next(q, s), s[|SEPARATOR|..]);
      } else {
        CleanUnpieced(Next(q, s), s[1..]);
        if s[0] == SEPARATOR[0] { CleanBar(q, s); }
      }
    }
  }

  lemma CleanBar(q: Place, s: string)
    requires Clean(q, s, true) && s != "" && Token(s) == 0 && s[0] == SEPARATOR[0]
    ensures !Completes(Solid(1), s[1..])
  {
    hide Reach, MarkerLen;
    SeparatorSolid();
    OneLetter(SEPARATOR, s);
    CleanIncomplete(Solid(1), s[1..]);
  }

  lemma BehindMarker(s: string)
    requires MarkerLen(s) > 0
    ensures Pieced(s) <==> Pieced(s[MarkerLen(s)..])
  {
    MarkerIs(s);
    hide MarkerLen, Pieced;
    var n := MarkerLen(s);
    Halves(s, n, "");
    MarkerPieced(s[..n], s[n..]);
  }
}
