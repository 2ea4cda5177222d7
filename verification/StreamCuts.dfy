/** Answers on which the exact condition is simpler, and answers that do not meet it. */
module StreamCuts {
  import opened Text
  import opened StreamFilter
  import opened Substitutions
  import opened RoleMarkers
  import opened Cleaning
  import opened Reading
  import opened StreamAgreement
  import opened StreamExactness

  // ----- ordinary whitespace -----

  /** All whitespace is blanks, tabs and line breaks. */
  predicate Ordinary(s: string) {
    forall c | c in s :: IsSpace(c) ==> c == ' ' || c == '\t' || c == '\n'
  }

  /** With ordinary whitespace it is enough that the batch clean-up leaves no role marker. */
  lemma OrdinaryRemovable(raw: string)
    requires Ordinary(raw)
    ensures Removable(raw) <==> RoleFree(Roleless(raw))
  {
    hide Clean, Roleless, Separable, Ordinary, RoleFree;
    if RoleFree(Roleless(raw)) {
      OrdinaryClean(raw);
      SeparableClean(raw);
    }
  }

  lemma {:induction false} OrdinaryClean(b: string)
    requires Ordinary(b) && RoleFree(Roleless(b))
    ensures Clean(Fresh, b, true)
    decreases |b|
  {
    hide Clean, Bare, RoleSub, IsSpace, AllSpace, LStrip, RStrip, NoOcc, LeadNewlines, RoleFree, Ordinary;
    if Find(b, SEPARATOR) < 0 {
      WholeClean(b);
    } else {
      var w, y := SepSubParts(b);
      OrdinaryRest(w, y);
      FirstSeparator(w, y);
      RStripEnd(w);
      SepSubLead(LStrip(y));
      PartsFree(RStrip(w), SepSub(LStrip(y)));
      OrdinaryClean(LStrip(y));
      OrdinaryLead(y);
      Assoc(w, SEPARATOR, y);
      StretchClean(w);
      FirstStretch(w, y);
    }
  }

  lemma WholeClean(b: string)
    requires Find(b, SEPARATOR) < 0 && RoleFree(Roleless(b))
    ensures Clean(Fresh, b, true)
  {
    hide Clean, Bare, RoleSub, RoleFree;
    Kept(b, true, false);
    BareFree(RoleSub(b, true));
    CleanLast(Fresh, b);
  }

  lemma StretchClean(w: string)
    requires NoOcc(RStrip(w), SEPARATOR) && RoleFree(RoleSub(RStrip(w), true))
    ensures Clean(Fresh, w, false)
  {
    hide Clean, Bare, RoleSub, RoleFree, AllSpace, RStrip;
    var u := RStrip(w);
    Kept(u, true, false);
    BareFree(RoleSub(u, true));
    RStripSplit(w);
    WithoutTrail(Fresh, u, w[|u|..]);
  }

  /** What is free of role markers is so on both sides of a line break. */
  lemma PartsFree(u: string, z: string)
    requires (u == "" || !IsSpace(u[|u| - 1])) && LeadNewlines(z)
    requires RoleFree(RoleSub(u + "\n" + z, true))
    ensures RoleFree(RoleSub(u, true)) && RoleFree(RoleSub(z, true))
  {
    hide Bare, RoleSub, IsSpace, LeadNewlines, RoleFree, LStrip, AllSpace;
    Assoc(u, "\n", z);
    var ate := RoleSubJoin(u, z, true);
    var s, x := RoleSub(u, true), Rest(z, ate);
    BrokenRest(s, z, ate);
    BareJoin(s, x, false);
    BareFree(s);
    BareFree(s + x);
    BareFree(RoleSub(z, true));
    RestBare(z, ate);
  }

  lemma RestBare(z: string, ate: bool)
    requires LeadNewlines(z) && Bare(Rest(z, ate), false)
    ensures Bare(RoleSub(z, true), false)
  {
    hide RoleSub, LStrip, OnlyNewlines, AllSpace;
    var x := RoleSub(z, true);
    if ate {
      var k := |z| - |LStrip(z)|;
      Halves(z, k, "");
      LeadKept(z[..k], LStrip(z));
      NewlinesBare(z[..k], RoleSub(LStrip(z), true));
    } else {
      assert ("\n" + x)[1..] == x;
    }
  }

  lemma NewlinesBare(lead: string, x: string)
    requires OnlyNewlines(lead) && Bare(x, false)
    ensures Bare(lead + x, false)
  {
    hide Bare;
    if lead == "" {
      NilLeft(x);
    } else {
      assert lead[|lead| - 1] in lead;
      LetterFree(lead, USER, 'U');
      LetterFree(lead, ASSISTANT, 'A');
      BareFree(lead);
      BareJoin(lead, x, false);
    }
  }

  lemma OrdinaryRest(w: string, y: string)
    requires Ordinary(w + SEPARATOR + y)
    ensures Ordinary(LStrip(y)) && Ordinary(y)
  {
    hide IsSpace, AllSpace;
    assert forall c | c in y :: c in w + SEPARATOR + y;
    assert forall c | c in LStrip(y) :: c in y;
  }

  /** Ordinary whitespace behind a separator does not hide the line start. */
  lemma OrdinaryLead(y: string)
    requires Ordinary(y) && Clean(Fresh, LStrip(y), true)
    ensures Clean(Fresh, y, true)
  {
    hide Clean, IsSpace, LStrip;
    var k := |y| - |LStrip(y)|;
    var lead := y[..k];
    Halves(y, k, "");
    assert forall c | c in lead :: c in y;
    LeadStays(lead);
    CleanSpaces(Fresh, lead, LStrip(y), true);
  }

  lemma {:induction false} LeadStays(lead: string)
    requires Ordinary(lead) && AllSpace(lead)
    ensures MoveAll(Fresh, lead) == Fresh
    decreases |lead|
  {
    hide IsSpace;
    if lead != "" {
      assert lead[0] in lead;
      assert forall c | c in lead[1..] :: c in lead;
      LeadStays(lead[1..]);
    }
  }

  // ----- answers on which the cut shows -----

  /** Characters that neither end a line nor begin or continue a marker. */
  predicate Inert(c: char) {
    !IsSpace(c) && c !in SEPARATOR && c !in USER && c !in ASSISTANT
  }

  lemma InertEnd(t: string)
    requires t != "" && Inert(t[|t| - 1])
    ensures Withheld(false, t) == 0
  {
    var n := MarkerTailLen(false, t);
    assert RStrip(t) == t;
    forall marker: string, m: nat | 0 < m && Dangling(t, marker, m)
      ensures t[|t| - 1] in marker
    {
      assert t[|t| - m..][m - 1] == marker[..m][m - 1];
    }
    assert Dangling(t, SEPARATOR, MarkerOverlap(t, SEPARATOR)) && Dangling(t, USER, MarkerOverlap(t, USER));
    assert Dangling(t, ASSISTANT, MarkerOverlap(t, ASSISTANT));
  }

  lemma ShortUnchanged(content: string)
    requires |content| < |SEPARATOR|
    ensures SepSub(content) == content
  {}

  lemma SettlesTo(b: string, t: string)
    requires |b| < |SEPARATOR| && OneLine(t) && RoleSub(b, true) == t
    ensures Settle(false, b) == Graded(t, None)
  {
    ShortUnchanged(b);
    OneLineUnchanged(t);
  }

  /** A short one-line chunk that role substitution leaves at `t` comes out as `t`. */
  lemma EmitsAll(b: string, t: string)
    requires |b| < |SEPARATOR| && OneLine(t) && t != "" && Inert(t[|t| - 1])
    requires RoleSub(b, true) == t
    ensures Absorb(false, START, b) == (t, START)
  {
    NilLeft(b);
    SettlesTo(b, t);
    InertEnd(t);
    AbsorbParts(false, START, b);
    var (emit, st') := Absorb(false, START, b);
    NilRight(emit);
  }

  lemma StreamedOne(c: string, t: string)
    requires Absorb(false, START, c) == (t, START)
    ensures Streamed(false, START, [c]).text == t
  {
    NilRight(t);
    assert [c][1..] == [];
    assert Streamed(false, START, []) == Graded("", None);
  }

  lemma StreamedTwo(c: string, t: string, c': string, t': string)
    requires Absorb(false, START, c) == (t, START) && Absorb(false, START, c') == (t', START)
    ensures Streamed(false, START, [c, c']).text == t + t'
  {
    StreamedOne(c', t');
    assert [c, c'][1..] == [c'];
  }

  /** A role marker within a line stays. */
  lemma InlineRoleStays(x: char, s: string)
    requires Inert(x) && OneLine(s)
    ensures RoleSub([x] + s, true) == [x] + s
  {
    var t := [x] + s;
    assert t[1..] == s && t[0..] == t;
    assert USER[0] in USER && ASSISTANT[0] in ASSISTANT;
    assert RoleLen(t) == 0;
    OneLineUnchanged(s);
  }

  lemma RoleLenUser(t: string)
    requires USER <= t && |t| > |USER| && !IsSpace(t[|USER|])
    ensures RoleLen(t) == |USER|
  {
    assert t[0] == USER[0];
    NotBlank(t);
    assert t[0..] == t;
    Unstripped(t[|USER|..]);
    hide BlankPrefix, LStrip, IsSpace;
  }

  lemma NotBlank(t: string)
    requires t != "" && t[0] == 'U'
    ensures BlankPrefix(t) == 0
  {}

  lemma Unstripped(y: string)
    requires y != "" && !IsSpace(y[0])
    ensures LStrip(y) == y
  {}

  /** The same marker at the start of a chunk goes. */
  lemma LeadingRoleGoes(y: char)
    requires Inert(y)
    ensures RoleSub(USER + [y], true) == [y]
  {
    var t := USER + [y];
    hide RoleLen;
    RoleLenUser(t);
    assert t[|USER| - 1] == USER[|USER| - 1] == ':';
    Drop(USER, [y], |USER|);
    NilLeft([y]);
    OneLineUnchanged([y]);
  }

  lemma InertOneLine(x: char, y: char)
    requires Inert(x) && Inert(y)
    ensures OneLine([x] + (USER + [y])) && OneLine(USER + [y]) && OneLine([x]) && OneLine([y])
    ensures Concat([[x] + (USER + [y])]) == Concat([[x], USER + [y]])
  {
    var t := USER + [y];
    NilRight([x] + t);
    NilRight(t);
    assert [[x], t][1..] == [t] && [t][1..] == [] && [[x] + t][1..] == [];
    assert Concat([t]) == t + "";
    assert forall k | 0 <= k < |USER| :: USER[k] != '\n';
  }

  /** With a role marker in it, the same text comes out differently when cut differently. */
  lemma RoleMarkersDependOnTheCut(x: char, y: char)
    requires Inert(x) && Inert(y)
    ensures var whole, cut := [[x] + (USER + [y])], [[x], USER + [y]];
      && Concat(whole) == Concat(cut)
      && Streamed(false, START, whole).text == [x] + (USER + [y])
      && Streamed(false, START, cut).text == [x] + [y]
  {
    InertOneLine(x, y);
    var t := USER + [y];
    InlineRoleStays(x, t);
    EmitsAll([x] + t, [x] + t);
    StreamedOne([x] + t, [x] + t);
    InlineRoleStays(x, "");
    NilRight([x]);
    EmitsAll([x], [x]);
    LeadingRoleGoes(y);
    EmitsAll(t, [y]);
    StreamedTwo([x], [x], t, [y]);
  }

  // ----- why whitespace matters -----

  /** Whitespace other than blanks, tabs and line breaks keeps a role marker off the line start
      in the stream, while the batch clean-up has taken it away with the separator. */
  lemma OddWhitespace(x: char, y: char)
    requires Inert(x) && Inert(y)
    ensures var raw := [x] + (SEPARATOR + ("\r" + (USER + [y])));
      RoleFree(Roleless(raw)) && !AgreesHoweverCut(raw)
  {
    hide AgreesHoweverCut, Clean, RoleFree, Roleless;
    var rest := "\r" + (USER + [y]);
    var raw := [x] + (SEPARATOR + rest);
    SeparatorSecond(x, rest);
    OddRoleless(x, y);
    OddUnclean(y);
    FirstStretch([x], rest);
    SeparableClean(raw);
    AgreementExactly(raw);
  }

  lemma SeparatorSecond(x: char, rest: string)
    requires Inert(x)
    ensures Find([x] + (SEPARATOR + rest), SEPARATOR) == 1
  {
    var raw := [x] + (SEPARATOR + rest);
    assert raw[1..1 + |SEPARATOR|] == SEPARATOR;
    if At(raw, SEPARATOR, 0) { AtChar(raw, SEPARATOR, 0, 0); }
    FindIs(raw, SEPARATOR, 1);
  }

  lemma OddRoleless(x: char, y: char)
    requires Inert(x) && Inert(y)
    requires Find([x] + (SEPARATOR + ("\r" + (USER + [y]))), SEPARATOR) == 1
    ensures RoleFree(Roleless([x] + (SEPARATOR + ("\r" + (USER + [y])))))
  {
    hide RoleSub, RoleLen, NoOcc;
    var z := USER + [y];
    OddSepSub(x, z);
    InlineRoleStays(x, "");
    NilRight([x]);
    assert z[0] == 'U';
    LeadNone(z);
    Assoc([x], "\n", z);
    var ate := RoleSubJoin([x], z, true);
    LeadingRoleGoes(y);
    var t := [x] + ("\n" + [y]);
    TooShort(t, USER);
    TooShort(t, ASSISTANT);
  }

  lemma OddSepSub(x: char, z: string)
    requires Inert(x) && z != "" && !IsSpace(z[0]) && |z| < |SEPARATOR|
    requires Find([x] + (SEPARATOR + ("\r" + z)), SEPARATOR) == 1
    ensures SepSub([x] + (SEPARATOR + ("\r" + z))) == [x] + "\n" + z
  {
    hide IsSpace, LStrip, RStrip, SepSub, At;
    SepSubAt([x], "\r" + z);
    Unspaced(x);
    BehindReturn(z);
    ShortUnchanged(z);
  }

  lemma Unspaced(x: char)
    requires Inert(x)
    ensures RStrip([x]) == [x]
  {}

  lemma BehindReturn(z: string)
    requires z != "" && !IsSpace(z[0])
    ensures LStrip("\r" + z) == z
  {
    assert ("\r" + z)[1..] == z;
    Unstripped(z);
  }

  lemma OddUnclean(y: char)
    requires Inert(y)
    ensures !Clean(Fresh, "\r" + (USER + [y]), true)
  {
    var s := USER + [y];
    CleanSpaces(Fresh, "\r", s, true);
    assert "\r"[1..] == "";
    assert MoveAll(Fresh, "\r") == Inside;
    TokenFacts(s);
  }

  // ----- what a client can put together -----

  const PIECE := "|<-MU"
  const OTHER := "SER:SG->|"

  /** A role marker that arrives in two chunks goes from between two pieces of a separator: the
      client sees a separator that the answer does not hold. */
  lemma SeparatorPutTogether()
    ensures NoOcc(Concat([PIECE, OTHER]), SEPARATOR) && Streamed(false, START, [PIECE, OTHER]).text == SEPARATOR
  {
    hide Absorb, Flush, Streamed, Concat, NoOcc;
    FirstPiece();
    SecondPiece();
    LastPiece();
    WholePieces();
    TwoChunks(PIECE, OTHER);
    LastChunk(false, State("U", None), OTHER);
    assert "|<-M" + ("SG->" + "|") == SEPARATOR;
  }

  lemma WholePieces()
    ensures NoOcc(Concat([PIECE, OTHER]), SEPARATOR)
  {
    assert [PIECE, OTHER][1..] == [OTHER] && [OTHER][1..] == [];
    NilRight(OTHER);
    assert Concat([OTHER]) == OTHER + "";
    var s := PIECE + OTHER;
    forall i: nat
      ensures !At(s, SEPARATOR, i)
    {
      if At(s, SEPARATOR, i) {
        AtChar(s, SEPARATOR, i, 0);
        AtChar(s, SEPARATOR, i, 4);
      }
    }
  }

  lemma AbsorbsTo(st: State, c: string, t: string, k: nat)
    requires Settle(false, st.buffer + c) == Graded(t, None) && Withheld(false, t) == k
    ensures Absorb(false, st, c) == (t[..|t| - k], State(t[|t| - k..], st.grade))
  {
    hide Settle, Withheld;
  }

  lemma FirstPiece()
    ensures Absorb(false, START, PIECE) == ("|<-M", State("U", None))
  {
    hide Settle, Withheld, RoleSub, RoleFree, Absorb;
    NilLeft(PIECE);
    PieceFree();
    RoleFreeUnchanged(PIECE, true);
    assert OneLine(PIECE);
    SettlesTo(PIECE, PIECE);
    WithheldPiece();
    AbsorbsTo(START, PIECE, PIECE, 1);
    assert PIECE[..4] == "|<-M" && PIECE[4..] == "U";
  }

  lemma PieceFree()
    ensures RoleFree(PIECE)
  {
    TooShort(PIECE, ASSISTANT);
    forall i: nat
      ensures !At(PIECE, USER, i)
    {
      if At(PIECE, USER, i) { AtChar(PIECE, USER, i, 0); }
    }
  }

  lemma WithheldPiece()
    ensures Withheld(false, PIECE) == 1
  {
    hide MarkerTailLen;
    var n := Withheld(false, PIECE);
    MarkersWithheld(false, PIECE);
    assert Dangling(PIECE, USER, 1);
    assert PIECE[4] != SEPARATOR[4] && PIECE[0..] == PIECE;
    TailForm(false, PIECE, n);
    var tail := PIECE[|PIECE| - n..];
    assert tail[0] == PIECE[|PIECE| - n] && tail[n - 1] == 'U' && tail[n - 1] in tail;
  }

  lemma SecondPiece()
    ensures Absorb(false, State("U", None), OTHER) == ("SG->", State("|", None))
  {
    hide Settle, Withheld, Absorb;
    var t := "SG->|";
    assert "U" + OTHER == USER + t;
    SettlesOther(t);
    WithheldBar(t);
    AbsorbsTo(State("U", None), OTHER, t, 1);
    assert t[..4] == "SG->" && t[4..] == "|";
  }

  lemma SettlesOther(t: string)
    requires t == "SG->|"
    ensures Settle(false, USER + t) == Graded(t, None)
  {
    hide RoleSub, RoleLen, Collapse;
    var b := USER + t;
    assert forall i | 0 <= i < |USER| :: USER[i] != '|';
    forall i: nat
      ensures !At(b, SEPARATOR, i)
    {
      if At(b, SEPARATOR, i) { AtChar(b, SEPARATOR, i, 0); }
    }
    assert SepSub(b) == b;
    RoleLenUser(b);
    Removed(b);
    assert b[|USER| - 1] == ':' && b[|USER|..] == t;
    OneLineUnchanged(t);
  }

  lemma WithheldBar(t: string)
    requires t == "SG->|"
    ensures Withheld(false, t) == 1
  {
    hide MarkerTailLen;
    var n := Withheld(false, t);
    MarkersWithheld(false, t);
    assert Dangling(t, SEPARATOR, 1);
    TailForm(false, t, n);
    var tail := t[|t| - n..];
    assert tail[0] == t[|t| - n] && tail[n - 1] == '|' && tail[n - 1] in tail;
  }

  lemma LastPiece()
    ensures Flush(false, State("|", None)).text == "|"
  {
    hide Settle, RoleSub;
    TooShort("|", USER);
    TooShort("|", ASSISTANT);
    RoleFreeUnchanged("|", true);
    SettlesTo("|", "|");
  }
}
