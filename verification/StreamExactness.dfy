/** Exactly which answers come out the same however they are cut. */
module StreamExactness {
  import opened Text
  import opened StreamFilter
  import opened Substitutions
  import opened RoleMarkers
  import opened Cleaning
  import opened Reading
  import opened StreamAgreement
  import opened StreamSeal

  // ----- what shows and what is read -----

  /** Each separator and role marker that shows is more than what is read. */
  lemma {:induction false} ViewShorter(t: string)
    ensures |View(false, t).text| <= |Erase(t)|
    ensures !RoleFree(t) ==> |View(false, t).text| < |Erase(t)|
    decreases |t|
  {
    hide Token, MarkerLen, View, IsSpace, Erase, RoleFree;
    if t == "" {
      ViewNothing(false);
      NothingFree();
    } else {
      var n := Width(t);
      ViewShorter(t[n..]);
      ViewWord(false, t);
      Halves(t, n, "");
      EraseConcat(t[..n], t[n..]);
      if Token(t) > 0 {
        TokenShows(t);
      } else {
        assert t[..1] == [t[0]];
        EraseOne(t[0]);
        RoleFreeStep(t);
      }
    }
  }

  lemma NothingFree()
    ensures RoleFree("")
  {
    TooShort("", USER);
    TooShort("", ASSISTANT);
  }

  lemma RoleFreeStep(t: string)
    requires t != "" && Token(t) == 0
    ensures RoleFree(t) <==> RoleFree(t[1..])
  {
    TokenAt(t, 0);
    assert t[0..] == t;
    FreeStep(t, USER);
    FreeStep(t, ASSISTANT);
  }

  lemma TokenShows(t: string)
    requires Token(t) > 0
    ensures |Erase(t[..Token(t)])| > 0
  {
    var p := TokenIs(t);
    assert t[..Token(t)] == p;
    TokenFacts(t);
    hide Token, MarkerLen, IsSpace;
    Halves(p, 1, "");
    EraseConcat(p[..1], p[1..]);
    assert p[..1] == [t[0]];
    EraseOne(t[0]);
  }

  /** The batch text shows exactly what is read if and only if the batch clean-up leaves no
      role marker. */
  lemma BatchReads(raw: string)
    ensures Erase(Batch(false, raw).text) == View(false, raw).text <==> RoleFree(Roleless(raw))
  {
    hide View, Erase, RoleFree, Substitute, RoleSub, SepSub, Bare, NoOcc;
    var t := Substitute(raw);
    NilRight(raw);
    NilRight(t);
    UngradedSettled(raw);
    SubstituteKeeps(false, raw, "");
    ViewShorter(t);
    SubstituteRoles(raw);
    if RoleFree(t) { FlushedText(false, t); }
  }

  lemma SubstituteRoles(raw: string)
    ensures RoleFree(Substitute(raw)) <==> RoleFree(Roleless(raw))
  {
    hide RoleSub, SepSub, Bare, RoleFree;
    CollapseBare(Roleless(raw), false);
    BareFree(Roleless(raw));
    BareFree(Substitute(raw));
  }

  /** One step without grading, if what it leaves has no role marker inside. */
  lemma StepReads(st: State, c: string, rest: string)
    requires Bare(Substitute(st.buffer + c), true)
    ensures var (emit, st') := Absorb(false, st, c);
      && View(false, st.buffer + c + rest).text == Erase(emit) + View(false, st'.buffer + rest).text
      && Pending(st'.buffer)
  {
    hide View, Erase, Absorb, Substitute, Withheld, Bare, NoOcc, Pending;
    var b := st.buffer + c;
    UngradedSettled(b + rest);
    SubstituteKeeps(false, b, rest);
    AbsorbParts(false, st, c);
    var (emit, st') := Absorb(false, st, c);
    EmitKeeps(false, Substitute(b), rest, emit, st'.buffer);
  }

  /** The final flush shows what is read of a pending buffer. */
  lemma FlushReads(st: State)
    requires Pending(st.buffer)
    ensures Erase(Flush(false, st).text) == View(false, st.buffer).text
  {
    hide View, Settle, Pending, RoleFree, Clean;
    if st.buffer == "" {
      ViewNothing(false);
    } else {
      PendingProper(st.buffer);
      SettleWhole(false, st.buffer);
    }
  }

  lemma PendingProper(x: string)
    requires Pending(x)
    ensures Clean(Fresh, x, true) && Proper(false, x)
  {
    hide Clean, View;
    PendingGoes(x);
    if RoleFree(x) {
      RoleFreeClean(Fresh, x, true);
    } else {
      NilRight(x);
      MarkerFirst(x, "", true);
      CleanNothing(Eaten);
    }
    UngradedSettled(x);
    ProperSound(false, x);
  }

  lemma CleanNothing(q: Place)
    ensures Clean(q, "", true)
  {}

  // ----- character by character -----

  /** An answer cut into its characters. */
  function Singles(s: string): seq<string> {
    if s == "" then [] else [[s[0]]] + Singles(s[1..])
  }

  lemma {:induction false} ConcatSingles(s: string)
    ensures Concat(Singles(s)) == s
  {
    if s != "" {
      ConcatSingles(s[1..]);
      assert Singles(s)[1..] == Singles(s[1..]);
    }
  }

  /** Whitespace, or the beginning of a token. */
  predicate Growing(x: string) {
    AllSpace(x) || x <= SEPARATOR || x <= USER || x <= ASSISTANT
  }

  lemma GrowingPending(x: string)
    requires Growing(x)
    ensures Pending(x)
  {
    hide Pending, AllSpace;
    if AllSpace(x) { SpacePending(x); }
    if x <= SEPARATOR { BeginsPending(x, SEPARATOR); }
    if x <= USER { BeginsPending(x, USER); }
    if x <= ASSISTANT { BeginsPending(x, ASSISTANT); }
  }

  /** One more character completes a marker at the start only. */
  lemma GrowingClean(x: string, c: char)
    requires Growing(x)
    ensures Clean(Fresh, x + [c], true)
  {
    hide Clean, AllSpace;
    TooShort([c], USER);
    TooShort([c], ASSISTANT);
    if AllSpace(x) {
      RoleFreeClean(MoveAll(Fresh, x), [c], true);
      CleanSpaces(Fresh, x, [c], true);
    } else {
      var p := if x <= SEPARATOR then SEPARATOR else if x <= USER then USER else ASSISTANT;
      if x == SEPARATOR {
        SeparatorFirst(Fresh, [c], true);
        RoleFreeClean(Fresh, [c], true);
      } else if x == p {
        MarkerFirst(x, [c], true);
        RoleFreeClean(Eaten, [c], true);
      } else {
        NextChar(x, c, p);
        PendingProper(x + [c]);
      }
    }
  }

  lemma NextChar(x: string, c: char, p: string)
    requires (p == SEPARATOR || p == USER || p == ASSISTANT) && x <= p && x != p
    ensures Pending(x + [c])
  {
    var y := x + [c];
    if y <= p {
      BeginsPending(y, p);
    } else {
      ProperBeginning(x, p);
      NotCompleted(x, c, p, USER);
      NotCompleted(x, c, p, ASSISTANT);
    }
  }

  lemma ProperBeginning(x: string, p: string)
    requires (p == SEPARATOR || p == USER || p == ASSISTANT) && x <= p && x != p
    ensures RoleFree(x)
  {
    assert p == x + p[|x|..];
    TokenFacts(p);
    PartialToken(x, p[|x|..]);
  }

  lemma NotCompleted(x: string, c: char, p: string, q: string)
    requires p == SEPARATOR || p == USER || p == ASSISTANT
    requires q == USER || q == ASSISTANT
    requires x <= p && x != p && !(x + [c] <= p) && NoOcc(x, q)
    ensures NoOcc(x + [c], q)
  {
    forall i: nat
      ensures !At(x + [c], q, i)
    {
      AtConcat(x, [c], q, i);
      if At(x + [c], q, i) {
        assert i + |q| == |x| + 1;
        AtChar(x + [c], q, i, 0);
        assert x[i] == p[i] == q[0];
        assert i == 0 ==> x + [c] == q;
        OnlyFirst(p, q, i);
      }
    }
  }

  /** The first letter of a marker begins no proper ending of a token of the same length. */
  lemma OnlyFirst(p: string, q: string, i: nat)
    requires p == SEPARATOR || p == USER || p == ASSISTANT
    requires q == USER || q == ASSISTANT
    requires i + |q| <= |p| && p[i] == q[0]
    ensures i == 0 && p == q
  {}

  lemma {:induction false} SinglesRead(st: State, s: string)
    requires Growing(st.buffer)
    ensures Erase(Streamed(false, st, Singles(s)).text) == View(false, st.buffer + s).text
    decreases |s|
  {
    hide View, Erase, Absorb, Flush, Growing;
    if s == "" {
      GrowingPending(st.buffer);
      FlushReads(st);
      NilRight(st.buffer);
    } else {
      var c, rest := [s[0]], s[1..];
      assert s == c + rest;
      assert Singles(s)[0] == c && Singles(s)[1..] == Singles(rest);
      GrowingStep(st, s[0]);
      StepReads(st, c, rest);
      Assoc(st.buffer, c, rest);
      var (emit, st') := Absorb(false, st, c);
      SinglesRead(st', rest);
      EraseConcat(emit, Streamed(false, st', Singles(rest)).text);
    }
  }

  lemma GrowingStep(st: State, c: char)
    requires Growing(st.buffer)
    ensures Bare(Substitute(st.buffer + [c]), true) && Growing(Absorb(false, st, [c]).1.buffer)
  {
    hide Absorb, Substitute, Bare, Clean, AllSpace;
    var b := st.buffer + [c];
    GrowingClean(st.buffer, c);
    NilRight(b);
    SubstituteClean(b, "");
    AbsorbGrowing(st, [c]);
  }

  /** Without grading, what stays buffered is whitespace or begins a token. */
  lemma AbsorbGrowing(st: State, c: string)
    ensures Growing(Absorb(false, st, c).1.buffer)
  {
    hide Absorb, Substitute, MarkerTailLen, AllSpace;
    var t := Substitute(st.buffer + c);
    AbsorbParts(false, st, c);
    var (emit, st') := Absorb(false, st, c);
    TailForm(false, t, MarkerTailLen(false, t));
    assert t[|emit|..] == st'.buffer;
  }

  /** Character by character, every answer shows exactly what is read. */
  lemma SinglesStreamed(raw: string)
    ensures Concat(Singles(raw)) == raw
    ensures Erase(Streamed(false, START, Singles(raw)).text) == View(false, raw).text
  {
    hide View, Erase, Streamed;
    ConcatSingles(raw);
    NilLeft(raw);
    SinglesRead(START, raw);
  }

  // ----- a cut that keeps a marker -----

  /** A text of whole stretches, each with the separator behind it. */
  predicate Sections(u: string)
    decreases |u|
  {
    u == "" || (Find(u, SEPARATOR) >= 0 && Sections(u[Find(u, SEPARATOR) + |SEPARATOR|..]))
  }

  /** The first stretch, cleaned by itself, keeps a role marker where it must not. */
  predicate Spoiled(z: string) {
    var i := Find(z, SEPARATOR);
    if i < 0 then !Bare(RoleSub(z, true), true) else !Bare(RoleSub(z[..i], true), false)
  }

  lemma {:induction false} FirstSpoiled(raw: string) returns (u: string, z: string)
    requires !Separable(raw)
    ensures raw == u + z && Sections(u) && Clean(Fresh, u, true) && Spoiled(z)
    decreases |raw|
  {
    hide Clean, Bare, RoleSub, NoOcc, Sections;
    if Spoiled(raw) {
      u, z := "", raw;
      NilLeft(raw);
      CleanNothing(Fresh);
      NoSections();
    } else {
      var i := Find(raw, SEPARATOR);
      var w, y := raw[..i], raw[i + |SEPARATOR|..];
      AtCut(raw, SEPARATOR, i);
      Assoc(w, SEPARATOR, y);
      var v;
      v, z := FirstSpoiled(y);
      u := w + (SEPARATOR + v);
      SectionMore(w, v, z);
    }
  }

  lemma NoSections()
    ensures Sections("")
  {}

  lemma SectionMore(w: string, v: string, z: string)
    requires Find(w + (SEPARATOR + (v + z)), SEPARATOR) == |w| && Bare(RoleSub(w, true), false)
    requires Sections(v) && Clean(Fresh, v, true)
    ensures var u := w + (SEPARATOR + v);
      w + (SEPARATOR + (v + z)) == u + z && Sections(u) && Clean(Fresh, u, true)
  {
    hide Clean, Bare, RoleSub, NoOcc, At;
    var u := w + (SEPARATOR + v);
    Assoc(SEPARATOR, v, z);
    Assoc(w, SEPARATOR + v, z);
    FirstAgain(w, v, z);
    FirstStretch(w, v);
    assert u[|w| + |SEPARATOR|..] == v;
  }

  lemma FindIs(s: string, p: string, i: nat)
    requires At(s, p, i) && forall j: nat | j < i :: !At(s, p, j)
    ensures Find(s, p) == i
  {}

  lemma FirstAgain(w: string, v: string, z: string)
    requires Find(w + (SEPARATOR + (v + z)), SEPARATOR) == |w|
    ensures Find(w + (SEPARATOR + v), SEPARATOR) == |w|
  {
    var u := w + (SEPARATOR + v);
    Assoc(SEPARATOR, v, z);
    Assoc(w, SEPARATOR + v, z);
    forall j: nat | j <= |w|
      ensures At(u, SEPARATOR, j) <==> At(u + z, SEPARATOR, j)
    {
      AtConcat(u, z, SEPARATOR, j);
    }
    FindIs(u, SEPARATOR, |w|);
  }

  /** Empty, or up to the end of a line. */
  predicate Lined(s: string) {
    s == "" || s[|s| - 1] == '\n'
  }

  lemma {:induction false} SectionsLined(u: string)
    requires Sections(u)
    ensures Lined(SepSub(u))
    decreases |u|
  {
    hide IsSpace, AllSpace, NoOcc;
    if u != "" {
      var w, y := SepSubParts(u);
      SectionsRest(w, y);
      StrippedSections(y);
      SectionsLined(LStrip(y));
    }
  }

  lemma SectionsRest(w: string, y: string)
    requires Sections(w + SEPARATOR + y) && Find(w + SEPARATOR + y, SEPARATOR) == |w|
    ensures Sections(y)
  {
    var u := w + SEPARATOR + y;
    assert u[|w| + |SEPARATOR|..] == y;
  }

  lemma StrippedSections(y: string)
    requires Sections(y)
    ensures Sections(LStrip(y))
  {
    hide LStrip, AllSpace, IsSpace, NoOcc;
    if y != "" {
      var i, k := Find(y, SEPARATOR), |y| - |LStrip(y)|;
      var x := LStrip(y);
      Halves(y, k, "");
      FindShift(y[..k], x);
      assert x[i - k + |SEPARATOR|..] == y[i + |SEPARATOR|..];
    } else {
      assert |LStrip(y)| == 0;
    }
  }

  /** A line that is cleaned up to its end ends there. */
  lemma {:induction false} RoleSubLined(s: string, lineStart: bool)
    requires Lined(s)
    ensures Lined(RoleSub(s, lineStart))
    ensures RoleSub(s, lineStart) == "" && s != "" ==> lineStart
    decreases |s|
  {
    hide RoleLen, RoleSub;
    if s == "" {
      NothingToRemove(lineStart);
    } else {
      var m := if lineStart then RoleLen(s) else 0;
      var n := if m > 0 then m else 1;
      assert s[n..] != "" ==> s[n..][|s[n..]| - 1] == s[|s| - 1];
      RoleSubLined(s[n..], s[n - 1] == '\n');
      Unfold(s, lineStart);
      LinedStep(if m > 0 then "" else [s[0]], RoleSub(s[n..], s[n - 1] == '\n'), s, n);
      NothingToRemove(s[n - 1] == '\n');
    }
  }

  lemma LinedStep(head: string, x: string, s: string, n: nat)
    requires s != "" && 0 < n <= |s| && Lined(s) && (head == "" || (n == 1 && head == [s[0]])) && Lined(x)
    requires x == "" && s[n..] != "" ==> s[n - 1] == '\n'
    ensures Lined(head + x)
    ensures head + x == "" ==> head == ""
  {
    if head == "" { NilLeft(x); }
    if x == "" { NilRight(head); }
  }

  lemma {:induction false} CollapseLined(s: string)
    requires Lined(s)
    ensures Lined(Collapse(s))
    decreases |s|
  {
    hide Collapse, NoOcc, OnlyNewlines, AllSpace;
    if Find(s, EXCESS) < 0 {
      NoCollapse(s);
    } else {
      var w, run, z := CollapseParts(s);
      assert z != "" ==> z[|z| - 1] == s[|s| - 1];
      CollapseLined(z);
    }
  }

  /** Behind whole stretches a line starts. */
  lemma AfterSections(u: string)
    requires Sections(u)
    ensures var ws := Absorb(false, START, u).1.buffer; AllSpace(ws) && MoveAll(Fresh, ws) == Fresh
  {
    hide Absorb, Substitute, MarkerTailLen, AllSpace;
    NilLeft(u);
    var t := Substitute(u);
    SubstituteLined(u);
    AbsorbParts(false, START, u);
    AbsorbGrowing(START, u);
    var (emit, st') := Absorb(false, START, u);
    LinedTail(t);
    LineStartAfter(t, emit, st'.buffer);
  }

  lemma SubstituteLined(u: string)
    requires Sections(u)
    ensures Lined(Substitute(u))
  {
    hide SepSub, RoleSub, Collapse;
    SectionsLined(u);
    RoleSubLined(SepSub(u), true);
    CollapseLined(Roleless(u));
  }

  lemma LinedTail(t: string)
    requires Lined(t)
    ensures t != "" ==> MarkerTailLen(false, t) > 0
  {
    hide MarkerOverlap;
    assert IsSpace('\n');
    assert t != "" ==> |RStrip(t)| < |t|;
  }

  lemma LineStartAfter(t: string, head: string, tail: string)
    requires Lined(t) && t == head + tail && Growing(tail) && (t != "" ==> tail != "")
    ensures AllSpace(tail) && MoveAll(Fresh, tail) == Fresh
  {
    if tail != "" {
      var n := |tail| - 1;
      assert tail[n] == t[|t| - 1] == '\n';
      NoLineEnd(tail, SEPARATOR);
      NoLineEnd(tail, USER);
      NoLineEnd(tail, ASSISTANT);
      assert tail == tail[..n] + [tail[n]];
      assert forall c | c in tail[..n] :: c in tail;
      MoveSpaces(Fresh, tail[..n]);
      MoveLast(Fresh, tail[..n], '\n');
    }
  }

  lemma NoLineEnd(x: string, p: string)
    requires x != "" && x[|x| - 1] == '\n' && (p == SEPARATOR || p == USER || p == ASSISTANT)
    ensures !(x <= p)
  {
    MarkerChars();
  }

  /** Whitespace before it does not mend a spoiled stretch. */
  lemma StillSpoiled(ws: string, z: string)
    requires AllSpace(ws) && MoveAll(Fresh, ws) == Fresh && Spoiled(z)
    ensures !Bare(Substitute(ws + z), true)
  {
    hide Clean, Bare, SepSub, RoleSub, AllSpace, IsSpace, Collapse;
    FindShift(ws, z);
    if Find(z, SEPARATOR) < 0 {
      LastSpoiled(ws, z);
    } else {
      MiddleSpoiled(ws, z);
    }
    CollapseBare(Roleless(ws + z), true);
  }

  lemma FindShift(ws: string, z: string)
    requires AllSpace(ws)
    ensures Find(ws + z, SEPARATOR) == if Find(z, SEPARATOR) < 0 then -1 else |ws| + Find(z, SEPARATOR)
  {
    var s := ws + z;
    forall j: nat
      ensures At(s, SEPARATOR, j) <==> j >= |ws| && At(z, SEPARATOR, j - |ws|)
    {
      AtConcat(ws, z, SEPARATOR, j);
      assert j < |ws| ==> s[j] in ws;
      if At(s, SEPARATOR, j) { AtChar(s, SEPARATOR, j, 0); }
    }
    if Find(z, SEPARATOR) >= 0 {
      FindIs(s, SEPARATOR, |ws| + Find(z, SEPARATOR));
    } else {
      assert NoOcc(s, SEPARATOR);
    }
  }

  lemma LastSpoiled(ws: string, z: string)
    requires AllSpace(ws) && MoveAll(Fresh, ws) == Fresh && Spoiled(z)
    requires Find(z, SEPARATOR) < 0 && Find(ws + z, SEPARATOR) < 0
    ensures !Bare(Roleless(ws + z), true)
  {
    hide Clean, Bare, RoleSub, AllSpace, IsSpace;
    Kept(ws + z, true, true);
    Kept(z, true, true);
    CleanSpaces(Fresh, ws, z, true);
  }

  lemma MiddleSpoiled(ws: string, z: string)
    requires AllSpace(ws) && MoveAll(Fresh, ws) == Fresh && Spoiled(z)
    requires Find(z, SEPARATOR) >= 0 && Find(ws + z, SEPARATOR) == |ws| + Find(z, SEPARATOR)
    ensures !Bare(Roleless(ws + z), true)
  {
    hide Clean, Bare, RoleSub, AllSpace, IsSpace, LStrip, RStrip, LeadNewlines, NoOcc, At;
    var i := Find(z, SEPARATOR);
    var x, y := SepSubParts(ws + z);
    Halves(z, i, "");
    assert x == (ws + z)[..|ws| + i] == ws + z[..i];
    StretchSpoiled(ws, z, x);
    RStripEnd(x);
    SepSubLead(LStrip(y));
    SpoiledFirst(RStrip(x), SepSub(LStrip(y)));
  }

  /** A role marker left before a line break is left. */
  lemma SpoiledFirst(u: string, z: string)
    requires (u == "" || !IsSpace(u[|u| - 1])) && LeadNewlines(z) && !Bare(RoleSub(u, true), false)
    ensures !Bare(RoleSub(u + "\n" + z, true), true)
  {
    hide Bare, RoleSub, IsSpace, LeadNewlines, LStrip;
    Assoc(u, "\n", z);
    var ate := RoleSubJoin(u, z, true);
    BrokenRest(RoleSub(u, true), z, ate);
    BareJoin(RoleSub(u, true), Rest(z, ate), true);
  }

  lemma BrokenRest(s: string, z: string, ate: bool)
    requires ate ==> Ended(s, true)
    ensures Broken(s, Rest(z, ate))
  {
    hide RoleSub;
  }

  lemma StretchSpoiled(ws: string, z: string, x: string)
    requires AllSpace(ws) && MoveAll(Fresh, ws) == Fresh && Spoiled(z)
    requires Find(z, SEPARATOR) >= 0 && x == ws + z[..Find(z, SEPARATOR)]
    requires Find(ws + z, SEPARATOR) == |x|
    ensures !Bare(RoleSub(RStrip(x), true), false)
  {
    hide Clean, Bare, RoleSub, AllSpace, IsSpace, RStrip;
    var w := z[..Find(z, SEPARATOR)];
    Halves(z, |w|, "");
    BeforeFirst(w, z[|w|..], SEPARATOR);
    Assoc(ws, w, z[|w|..]);
    BeforeFirst(x, z[|w|..], SEPARATOR);
    RStripFree(x, SEPARATOR);
    Kept(RStrip(x), true, false);
    Kept(w, true, false);
    RStripSplit(x);
    WithoutTrail(Fresh, RStrip(x), x[|RStrip(x)|..]);
    CleanSpaces(Fresh, ws, w, false);
  }

  /** No token runs from what is emitted into what is withheld. */
  lemma WithheldSeam(head: string, tail: string)
    requires NoOcc(head + tail, SEPARATOR) && Growing(tail)
    ensures NoStraddle(head, tail) && Foreign(tail)
  {
    hide Token, NoOcc;
    if tail == "" {
      NothingStraddles(head);
    } else if AllSpace(tail) {
      assert tail[0] in tail;
      SpaceOutside(tail[0]);
      OutsideSeam(head, tail);
    } else {
      var t := head + tail;
      forall j: nat | j < |head|
        ensures j + Token(t[j..]) <= |head|
      {
        NoSeparatorDrop(t, j);
        NoSeparatorDrop(t[j..], 0);
        if j + Token(t[j..]) > |head| { NotAcross(head, tail, j); }
      }
      assert tail[0] == SEPARATOR[0] || tail[0] == USER[0] || tail[0] == ASSISTANT[0];
    }
  }

  lemma NotAcross(head: string, tail: string, j: nat)
    requires tail != "" && (tail <= SEPARATOR || tail <= USER || tail <= ASSISTANT)
    requires j < |head| && !(SEPARATOR <= (head + tail)[j..])
    ensures j + Token((head + tail)[j..]) <= |head|
  {
    var s, o := (head + tail)[j..], |head| - j;
    if o < Token(s) {
      var p := TokenIs(s);
      assert p[o] == s[o] == tail[0];
      assert o + 1 < |p| ==> p[o + 1] == s[o + 1] == tail[1];
      NoSecondStart(p, tail, o);
    }
  }

  /** No token but at its start looks like the start of a token. */
  lemma NoSecondStart(p: string, tail: string, o: nat)
    requires (p == USER || p == ASSISTANT) && 0 < o < |p| <= o + |tail|
    requires tail <= SEPARATOR || tail <= USER || tail <= ASSISTANT
    ensures p[o] != tail[0] || (o + 1 < |p| && p[o + 1] != tail[1])
  {}

  lemma {:induction false} BareAcross(x: string, y: string)
    requires RoleFree(x) && NoStraddle(x, y) && Bare(y, true)
    ensures Bare(x + y, true)
    decreases |x|
  {
    hide NoOcc, NoStraddle, Token, MarkerLen;
    if x == "" {
      NilLeft(y);
    } else {
      SameToken(x, y);
      NoMarkerFirst(x);
      Drop(x, y, 1);
      NoStraddleSuffix(x, y, 1);
      Halves(x, 1, "");
      SuffixFree(x[..1], x[1..], USER);
      SuffixFree(x[..1], x[1..], ASSISTANT);
      BareAcross(x[1..], y);
    }
  }

  lemma NoMarkerFirst(x: string)
    requires RoleFree(x)
    ensures MarkerLen(x) == 0
  {
    TokenAt(x, 0);
    assert x[0..] == x;
  }

  lemma PendingBare(x: string)
    requires Pending(x)
    ensures Bare(x, true)
  {
    if RoleFree(x) {
      RoleFreeBare(x, true);
    } else {
      TokenFacts(x);
      ShortFree(x[1..], x);
    }
  }

  /** A role marker that is kept, but not at the end, is emitted. */
  lemma SpoiledHead(head: string, tail: string)
    requires NoOcc(head + tail, SEPARATOR) && Growing(tail) && !Bare(head + tail, true)
    ensures !RoleFree(head)
  {
    hide Bare, Growing, NoOcc, NoStraddle, Foreign;
    WithheldSeam(head, tail);
    GrowingPending(tail);
    PendingBare(tail);
    if RoleFree(head) { BareAcross(head, tail); }
  }

  /** Then more shows than is read. */
  lemma SpoiledShows(st: State, c: string)
    requires !Bare(Substitute(st.buffer + c), true)
    ensures |View(false, st.buffer + c).text| < |Erase(Streamed(false, st, [c]).text)|
  {
    hide View, Erase, Absorb, Flush, Substitute, Bare, NoOcc, Growing, NoStraddle, RoleFree, Settled;
    var b := st.buffer + c;
    var t := Substitute(b);
    NilRight(b);
    NilRight(t);
    UngradedSettled(b);
    SubstituteKeeps(false, b, "");
    AbsorbParts(false, st, c);
    AbsorbGrowing(st, c);
    var (emit, st') := Absorb(false, st, c);
    SpoiledHead(emit, st'.buffer);
    WithheldSeam(emit, st'.buffer);
    ViewCut(false, emit, st'.buffer);
    Ungraded(emit);
    ViewShorter(emit);
    GrowingPending(st'.buffer);
    FlushReads(st');
    LastChunk(false, st, c);
    EraseConcat(emit, Flush(false, st').text);
  }

  lemma TwoChunks(u: string, z: string)
    ensures var (emit, st) := Absorb(false, START, u);
      Streamed(false, START, [u, z]).text == emit + Streamed(false, st, [z]).text
    ensures Concat([u, z]) == u + z
  {
    hide Absorb, Flush;
    assert [u, z][1..] == [z] && [z][1..] == [];
    NilRight(z);
    assert Concat([z]) == z + "";
  }

  /** Cut before its first spoiled stretch, an answer shows more than is read. */
  lemma CutShowsMore(u: string, z: string)
    requires Sections(u) && Clean(Fresh, u, true) && Spoiled(z)
    ensures |View(false, u + z).text| < |Erase(Streamed(false, START, [u, z]).text)|
  {
    hide View, Erase, Absorb, Substitute, Bare, Clean, Streamed, AllSpace, Pending, Spoiled, Sections;
    var (emit, st) := Absorb(false, START, u);
    NilLeft(u);
    NilRight(u);
    SubstituteClean(u, "");
    StepReads(START, u, z);
    AfterSections(u);
    StillSpoiled(st.buffer, z);
    SpoiledShows(st, z);
    TwoChunks(u, z);
    EraseConcat(emit, Streamed(false, st, [z]).text);
  }

  // ----- the exact condition -----

  ghost predicate AgreesHoweverCut(raw: string) {
    forall chunks: seq<string> | Concat(chunks) == raw ::
      Erase(Streamed(false, START, chunks).text) == Erase(Batch(false, raw).text)
  }

  /** Without grading, an answer shows the same however it is cut if and only if its role
      markers can be removed. */
  lemma AgreementExactly(raw: string)
    ensures AgreesHoweverCut(raw) <==> Removable(raw)
  {
    hide Streamed, Erase, Batch, Separable, RoleFree, Roleless, View, Clean, Spoiled, Sections;
    if Removable(raw) {
      forall chunks: seq<string> | Concat(chunks) == raw
        ensures Erase(Streamed(false, START, chunks).text) == Erase(Batch(false, raw).text)
      {
        RemovableStream(chunks);
      }
    } else {
      BatchReads(raw);
      if RoleFree(Roleless(raw)) {
        var u, z := FirstSpoiled(raw);
        CutShowsMore(u, z);
        TwoChunks(u, z);
        assert Concat([u, z]) == raw;
      } else {
        SinglesStreamed(raw);
        assert Concat(Singles(raw)) == raw;
      }
    }
  }
}
