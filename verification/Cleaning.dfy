/** Cleaning the beginning of a text early takes nothing away that the markers after it need:
    what was going to be removed is still going to be removed. */
module Cleaning {
  import opened Text
  import opened StreamFilter
  import opened Substitutions
  import opened RoleMarkers

  // ----- role markers -----

  /** `q` is a place in a text whose next characters are `s`, `q'` the same place once what
      stands before it has been cleaned. */
  predicate Follows(q: Place, q': Place, s: string, lineStart: bool) {
    && Below(q, q') && (q'.Fresh? || q'.Inside?)
    && (lineStart ==> q'.Fresh? && Open(q))
    && (q.EatenLine? ==> lineStart)
    && (q.Eaten? || q.EatenLine? ==> s == "" || !IsSpace(s[0]))
    && (q.Fresh? ==> q'.Fresh? && (!lineStart ==> RoleLen(s) == 0))
  }

  lemma {:induction false} Simulates(q: Place, q': Place, s: string, r: string, lineStart: bool)
    requires NoOcc(s, SEPARATOR) && Follows(q, q', s, lineStart) && Clean(q, s + r, true)
    ensures Clean(q', RoleSub(s, lineStart) + r, true)
    decreases |s|
  {
    hide RoleLen, Clean, NoOcc, Token, Follows, RoleSub;
    if s == "" {
      NothingToRemove(lineStart);
      FollowsBelow(q, q', s, lineStart);
      CleanMono(q, q', s + r, true);
    } else if lineStart && RoleLen(s) > 0 {
      var n := RoleLen(s);
      Removed(s);
      NoSeparatorDrop(s, n);
      var q1 := FollowsRemoved(q, q', s, r);
      Simulates(q1, q', s[n..], r, s[n - 1] == '\n');
    } else if Token(s + r) > 0 {
      KeptToken(q, q', s, r, lineStart);
      FollowsBelow(q, q', s, lineStart);
      CleanMono(q, q', s + r, true);
    } else {
      NoSeparatorDrop(s, 1);
      FollowsKept(q, q', s, lineStart);
      OneOn(q, s, r);
      Simulates(Move(q, s[0]), Move(q', s[0]), s[1..], r, s[0] == '\n');
      OneKept(q', s, r, lineStart);
    }
  }

  lemma FollowsBelow(q: Place, q': Place, s: string, lineStart: bool)
    requires Follows(q, q', s, lineStart)
    ensures Below(q, q')
  {}

  lemma FollowsKept(q: Place, q': Place, s: string, lineStart: bool)
    requires s != "" && Follows(q, q', s, lineStart) && (lineStart ==> RoleLen(s) == 0)
    ensures Follows(Move(q, s[0]), Move(q', s[0]), s[1..], s[0] == '\n')
  {
    if q.Fresh? { BlankStep(s); }
    hide RoleLen;
  }

  lemma OneOn(q: Place, s: string, r: string)
    requires s != "" && Token(s + r) == 0 && Clean(q, s + r, true)
    ensures Clean(Move(q, s[0]), s[1..] + r, true)
  {
    Drop(s, r, 1);
    hide MarkerLen, Move;
  }

  lemma OneKept(q': Place, s: string, r: string, lineStart: bool)
    requires s != "" && Token(s + r) == 0 && (lineStart ==> RoleLen(s) == 0)
    requires Clean(Move(q', s[0]), RoleSub(s[1..], s[0] == '\n') + r, true)
    ensures Clean(q', RoleSub(s, lineStart) + r, true)
  {
    SameMarker(s, r);
    Unfold(s, lineStart);
    hide RoleSub, MarkerLen, Move, RoleLen;
    var rest := RoleSub(s[1..], s[0] == '\n');
    Assoc([s[0]], rest, r);
    assert ([s[0]] + (rest + r))[1..] == rest + r;
  }

  /** A token is kept only where nothing of the text is removed any more. */
  lemma KeptToken(q: Place, q': Place, s: string, r: string, lineStart: bool)
    requires s != "" && Token(s + r) > 0 && NoOcc(s, SEPARATOR) && Follows(q, q', s, lineStart)
    requires (lineStart ==> RoleLen(s) == 0) && Clean(q, s + r, true)
    ensures RoleSub(s, lineStart) == s
  {
    if Token(s + r) > |s| {
      PartialToken(s, r);
      RoleFreeUnchanged(s, lineStart);
    } else {
      Shared(s, r);
      NoSeparatorDrop(s, 0);
      MarkerRemovable(s);
      hide RoleSub, RoleLen, NoOcc;
      assert MarkerLen(s + r) == |s + r|;
      assert s == s[..MarkerLen(s)];
      MarkerIs(s);
      MarkerChars();
      OneLineUnchanged(s);
    }
  }

  lemma FollowsRemoved(q: Place, q': Place, s: string, r: string) returns (q1: Place)
    requires RoleLen(s) > 0 && Follows(q, q', s, true) && Clean(q, s + r, true)
    ensures var n := RoleLen(s); Follows(q1, q', s[n..], s[n - 1] == '\n') && Clean(q1, s[n..] + r, true)
  {
    var n := RoleLen(s);
    var blanks, marker, ws := RoleParts(s);
    q1 := MoveAll(Eaten, ws);
    EatenWhere(ws);
    LastOf(s, n, blanks, marker, ws);
    CleanMono(q, Fresh, s + r, true) by { assert Below(q, Fresh); }
    hide *;
    Regroup(blanks, marker, ws, s[n..], r);
    BehindMarker(blanks, marker, ws, s[n..] + r);
    AfterEaten(q', ws, s[n..], s[n - 1] == '\n');
  }

  lemma LastOf(s: string, n: nat, blanks: string, marker: string, ws: string)
    requires 0 < n <= |s| && s[..n] == blanks + (marker + ws) && (marker == USER || marker == ASSISTANT)
    ensures s[n - 1] == if ws == "" then ':' else ws[|ws| - 1]
  {
    EndOf(blanks, marker, ws);
    assert s[n - 1] == s[..n][n - 1];
  }

  lemma AfterEaten(q': Place, ws: string, rest: string, newline: bool)
    requires AllSpace(ws) && q'.Fresh? && (rest == "" || !IsSpace(rest[0]))
    requires newline <==> ws != "" && ws[|ws| - 1] == '\n'
    ensures Follows(MoveAll(Eaten, ws), q', rest, newline)
  {
    EatenWhere(ws);
    hide AllSpace, IsSpace, RoleLen, MoveAll;
  }

  lemma BehindMarker(blanks: string, marker: string, ws: string, x: string)
    requires OnlyBlanks(blanks) && AllSpace(blanks) && (marker == USER || marker == ASSISTANT) && AllSpace(ws)
    requires Clean(Fresh, blanks + (marker + (ws + x)), true)
    ensures Clean(MoveAll(Eaten, ws), x, true)
  {
    hide *;
    CleanSpaces(Fresh, blanks, marker + (ws + x), true);
    BlanksStay(blanks);
    MarkerFirst(marker, ws + x, true);
    CleanSpaces(Eaten, ws, x, true);
  }

  // ----- separators -----

  lemma {:induction false} SepSubLead(y: string)
    requires y == "" || !IsSpace(y[0])
    ensures LeadNewlines(SepSub(y))
    decreases |y|
  {
    hide IsSpace, AllSpace, LeadNewlines, LStrip, RStrip, NoOcc;
    if Find(y, SEPARATOR) >= 0 {
      var w, x := SepSubParts(y);
      SepSubLead(LStrip(x));
      StrippedStart(w, x);
      LeadBehind(RStrip(w), SepSub(LStrip(x)));
    } else {
      LeadNone(y);
    }
  }

  lemma StrippedStart(w: string, x: string)
    requires var y := w + SEPARATOR + x; !IsSpace(y[0])
    ensures RStrip(w) == "" || !IsSpace(RStrip(w)[0])
  {
    hide IsSpace, AllSpace;
    assert RStrip(w) != "" ==> RStrip(w)[0] == w[0] == (w + SEPARATOR + x)[0];
  }

  lemma LeadBehind(u: string, z: string)
    requires (u == "" || !IsSpace(u[0])) && LeadNewlines(z)
    ensures LeadNewlines(u + "\n" + z)
  {
    hide IsSpace, LeadNewlines;
    if u == "" {
      NilLeft("\n");
      LeadNewline(z);
    } else {
      assert (u + "\n" + z)[0] == u[0];
      LeadNone(u + "\n" + z);
    }
  }

  lemma LeadNone(s: string)
    requires s == "" || !IsSpace(s[0])
    ensures LeadNewlines(s)
  {
    assert LStrip(s) == s;
    assert s[..0] == "";
  }

  lemma LeadNewline(z: string)
    requires LeadNewlines(z)
    ensures LeadNewlines("\n" + z)
  {
    hide IsSpace, AllSpace, LStrip, OnlyNewlines;
    LStripNewline(z);
    var n := |z| - |LStrip(z)|;
    assert ("\n" + z)[..n + 1] == "\n" + z[..n];
    OneNewlineMore(z[..n]);
  }

  lemma OneNewlineMore(x: string)
    requires OnlyNewlines(x)
    ensures OnlyNewlines("\n" + x)
  {}

  /** Behind a line end that nothing is removed from, a clean text stays clean. */
  lemma {:induction false} CleanLine(q: Place, x: string, y: string)
    requires RoleFree(x) && NoOcc(x, SEPARATOR) && x != "" && x[|x| - 1] == '\n'
    requires (q.Fresh? || q.Inside?) && Clean(Fresh, y, true)
    ensures Clean(q, x + y, true)
    decreases |x|
  {
    hide Clean;
    NoTokenBefore(x, y);
    hide NoOcc;
    OneCharOn(q, x, y);
    if |x| > 1 {
      Halves(x, 1, "");
      SuffixFree(x[..1], x[1..], USER);
      SuffixFree(x[..1], x[1..], ASSISTANT);
      SuffixFree(x[..1], x[1..], SEPARATOR);
      CleanLine(Move(q, x[0]), x[1..], y);
    } else {
      assert x[1..] == "";
      NilLeft(y);
    }
  }

  lemma OneCharOn(q: Place, x: string, y: string)
    requires x != "" && Token(x + y) == 0
    ensures Clean(q, x + y, true) <==> Clean(Move(q, x[0]), x[1..] + y, true)
  {
    Drop(x, y, 1);
    hide MarkerLen, Move;
  }

  lemma NoTokenBefore(x: string, y: string)
    requires RoleFree(x) && NoOcc(x, SEPARATOR) && x != "" && x[|x| - 1] == '\n'
    ensures Token(x + y) == 0
  {
    MarkerChars();
    BrokenPrefix(x, y, USER);
    BrokenPrefix(x, y, ASSISTANT);
    BrokenPrefix(x, y, SEPARATOR);
    assert !At(x, USER, 0) && !At(x, ASSISTANT, 0) && !At(x, SEPARATOR, 0);
  }

  /** Removing separators and role markers from a beginning leaves the whole clean, and the
      beginning without role markers other than one at its end. */
  lemma {:induction false} RolelessKeeps(b: string, r: string)
    requires Clean(Fresh, b + r, true)
    ensures Bare(Roleless(b), true) && Clean(Fresh, Roleless(b) + r, true)
    decreases |b|
  {
    hide Clean, Bare, RoleSub, IsSpace, AllSpace, LStrip, RStrip, NoOcc, LeadNewlines, RoleFree;
    if Find(b, SEPARATOR) < 0 {
      Whole(b, r);
    } else {
      var w, y := SepSubParts(b);
      Behind(w, y, r);
      RolelessKeeps(LStrip(y), r);
      RStripEnd(w);
      SepSubLead(LStrip(y));
      RolelessStep(RStrip(w), SepSub(LStrip(y)), r);
    }
  }

  lemma RStripEnd(w: string)
    ensures RStrip(w) == "" || !IsSpace(RStrip(w)[|RStrip(w)| - 1])
  {}

  lemma RolelessStep(u: string, z: string, r: string)
    requires (u == "" || !IsSpace(u[|u| - 1])) && LeadNewlines(z)
    requires RoleFree(RoleSub(u, true)) && NoOcc(RoleSub(u, true), SEPARATOR)
    requires Bare(RoleSub(z, true), true) && Clean(Fresh, RoleSub(z, true) + r, true)
    ensures var t := RoleSub(u + "\n" + z, true); Bare(t, true) && Clean(Fresh, t + r, true)
  {
    hide *;
    Assoc(u, "\n", z);
    var ate := RoleSubJoin(u, z, true);
    Joined(RoleSub(u, true), z, r, ate);
  }

  lemma Whole(b: string, r: string)
    requires Find(b, SEPARATOR) < 0 && Clean(Fresh, b + r, true)
    ensures Bare(Roleless(b), true) && Clean(Fresh, Roleless(b) + r, true)
  {
    assert SepSub(b) == b;
    hide Clean, Bare, RoleSub, RoleLen, SepSub;
    CleanPrefix(Fresh, b, r);
    Kept(b, true, true);
    Simulates(Fresh, Fresh, b, r, true);
  }

  /** What the first separator of a clean text divides is clean on both sides. */
  lemma Behind(w: string, y: string, r: string)
    requires Find(w + SEPARATOR + y, SEPARATOR) == |w| && Clean(Fresh, w + SEPARATOR + y + r, true)
    ensures Clean(Fresh, LStrip(y) + r, true)
    ensures var s := RoleSub(RStrip(w), true); RoleFree(s) && NoOcc(s, SEPARATOR)
  {
    hide Find, At, NoOcc, IsSpace, AllSpace, LStrip, RStrip, RoleSub, Clean, Bare;
    FirstSeparator(w, y);
    FindPrefix(w + SEPARATOR + y, r, SEPARATOR);
    Assoc4(w, SEPARATOR, y, r);
    FirstStretch(w, y + r);
    var k := |y| - |LStrip(y)|;
    Halves(y, k, r);
    WithoutLead(y[..k], LStrip(y) + r, true);
    var u := RStrip(w);
    RStripSplit(w);
    WithoutTrail(Fresh, u, w[|u|..]);
    Kept(u, true, false);
    BareFree(RoleSub(u, true));
    MarkerChars();
    RoleSubFree(u, true, SEPARATOR);
  }

  lemma Joined(s: string, z: string, r: string, ate: bool)
    requires RoleFree(s) && NoOcc(s, SEPARATOR) && (ate ==> Ended(s, true)) && LeadNewlines(z)
    requires Bare(RoleSub(z, true), true) && Clean(Fresh, RoleSub(z, true) + r, true)
    ensures var t := s + Rest(z, ate); Bare(t, true) && Clean(Fresh, t + r, true)
  {
    hide Clean, Bare, RoleSub, LeadNewlines, NoOcc;
    BareFree(s);
    if ate {
      LeadGone(z, r);
      var x := RoleSub(LStrip(z), true);
      JoinAt(s, x, r);
    } else {
      var x := RoleSub(z, true);
      NewlineEnds(s);
      BareNewline(s, x);
      CleanLine(Fresh, s + "\n", x + r);
      Assoc(s, "\n", x);
      Assoc(s + "\n", x, r);
    }
  }

  lemma JoinAt(s: string, x: string, r: string)
    requires RoleFree(s) && NoOcc(s, SEPARATOR) && Ended(s, true) && Bare(x, true) && Clean(Fresh, x + r, true)
    ensures Bare(s + x, true) && Clean(Fresh, s + x + r, true)
  {
    hide Clean, Bare, NoOcc;
    BareFree(s);
    BareJoin(s, x, true);
    if s == "" {
      NilLeft(x);
    } else {
      CleanLine(Fresh, s, x + r);
      Assoc(s, x, r);
    }
  }

  lemma NewlineEnds(s: string)
    requires RoleFree(s) && NoOcc(s, SEPARATOR)
    ensures RoleFree(s + "\n") && NoOcc(s + "\n", SEPARATOR)
  {
    MarkerChars();
    hide NoOcc;
    NilRight(s + "\n");
    NewlineJoin(s, "", USER) by { TooShort("", USER); }
    NewlineJoin(s, "", ASSISTANT) by { TooShort("", ASSISTANT); }
    NewlineJoin(s, "", SEPARATOR) by { TooShort("", SEPARATOR); }
  }

  lemma BareNewline(s: string, x: string)
    requires Bare(s, false) && Bare(x, true)
    ensures Bare(s + ("\n" + x), true)
  {
    var y := "\n" + x;
    assert y[1..] == x;
    MarkerChars();
    BareJoin(s, y, true);
    BareJoin("\n", x, true);
  }

  /** Line breaks at the start come out as they are. */
  lemma {:induction false} LeadKept(lead: string, x: string)
    requires OnlyNewlines(lead)
    ensures RoleSub(lead + x, true) == lead + RoleSub(x, true)
    decreases |lead|
  {
    if lead == "" {
      NilLeft(x);
      NilLeft(RoleSub(x, true));
    } else {
      var more := lead[1..];
      assert lead[0] in lead && lead == "\n" + more;
      assert OnlyNewlines(more) by { assert forall c | c in more :: c in lead; }
      LeadKept(more, x);
      Assoc("\n", more, x);
      Assoc("\n", more, RoleSub(x, true));
      NewlineFirst(more + x, true);
    }
  }

  lemma LeadGone(z: string, r: string)
    requires LeadNewlines(z)
    requires Bare(RoleSub(z, true), true) && Clean(Fresh, RoleSub(z, true) + r, true)
    ensures var x := RoleSub(LStrip(z), true); Bare(x, true) && Clean(Fresh, x + r, true)
  {
    hide Clean, Bare, RoleSub, LStrip, OnlyNewlines, AllSpace;
    var k := |z| - |LStrip(z)|;
    var lead, x := z[..k], RoleSub(LStrip(z), true);
    Halves(z, k, "");
    LeadKept(lead, LStrip(z));
    BareSuffix(lead + x, k, true);
    assert (lead + x)[k..] == x;
    Assoc(lead, x, r);
    WithoutLead(lead, x + r, true);
  }

  // ----- runs of newlines -----

  lemma {:induction false} CollapseClean(q: Place, t: string, r: string)
    requires Clean(q, t + r, true)
    ensures Clean(q, Collapse(t) + r, true)
    decreases |t|
  {
    hide Clean, Collapse;
    if Find(t, EXCESS) < 0 {
      NoCollapse(t);
    } else {
      var w, run, z := CollapseParts(t);
      CleanRun(q, w, run, z + r);
      CleanRun(q, w, PARAGRAPH, Collapse(z) + r);
      Assoc4(w, run, z, r);
      Assoc4(w, PARAGRAPH, Collapse(z), r);
      CollapseClean(Move(PlaceAfter(q, w), '\n'), z, r);
    }
  }

  lemma CleanRun(q: Place, w: string, run: string, x: string)
    requires run != "" && OnlyNewlines(run)
    ensures Clean(q, w + (run + x), true) <==> Clean(q, w, false) && Clean(Move(PlaceAfter(q, w), '\n'), x, true)
  {
    hide Clean, PlaceAfter;
    assert run[0] in run && (run + x)[0] == '\n';
    SpaceOutside('\n');
    OutsideSeam(w, run + x);
    CleanCut(q, w, run + x, true);
    NewlinesMove(PlaceAfter(q, w), run);
    CleanSpaces(PlaceAfter(q, w), run, x, true);
  }

  lemma {:induction false} NewlinesMove(q: Place, run: string)
    requires run != "" && OnlyNewlines(run)
    ensures AllSpace(run) && MoveAll(q, run) == Move(q, '\n')
    decreases |run|
  {
    assert run[0] in run && forall c | c in run[1..] :: c in run;
    if |run| > 1 { NewlinesMove(Move(q, '\n'), run[1..]); }
  }

  lemma {:induction false} CollapseBare(t: string, last: bool)
    ensures Bare(Collapse(t), last) <==> Bare(t, last)
    decreases |t|
  {
    hide Bare, Collapse;
    if Find(t, EXCESS) < 0 {
      NoCollapse(t);
    } else {
      var w, run, z := CollapseParts(t);
      BareRun(w, run, z, last);
      BareRun(w, PARAGRAPH, Collapse(z), last);
      CollapseBare(z, last);
    }
  }

  lemma BareRun(w: string, run: string, z: string, last: bool)
    requires run != "" && OnlyNewlines(run)
    ensures Bare(w + run + z, last) <==> Bare(w, false) && Bare(z, last)
  {
    hide Bare;
    assert run[0] in run && run[|run| - 1] in run;
    Assoc(w, run, z);
    BareJoin(w, run + z, last);
    BareJoin(run, z, last);
    LetterFree(run, USER, 'U');
    LetterFree(run, ASSISTANT, 'A');
    BareFree(run);
  }

  /** The substitutions leave a clean text clean. */
  lemma SubstituteClean(b: string, r: string)
    requires Clean(Fresh, b + r, true)
    ensures Clean(Fresh, Substitute(b) + r, true) && Bare(Substitute(b), true)
  {
    hide Clean, Bare, Collapse, RoleSub, SepSub;
    RolelessKeeps(b, r);
    CollapseClean(Fresh, Roleless(b), r);
    CollapseBare(Roleless(b), true);
  }
}
