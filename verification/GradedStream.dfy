/** Why the stream agrees with the batch form on every tidy self-graded answer without role markers. */
module GradedStream {
  import opened Text
  import opened StreamFilter
  import opened Substitutions
  import opened RoleMarkers
  import opened Reading
  import opened StreamAgreement
  import opened Grades

  // ----- substitution -----

  lemma SubstituteFree(b: string, r: string)
    requires RoleFree(b + r)
    ensures RoleFree(Substitute(b) + r)
  {
    hide SepSub, RoleSub, Collapse, NoOcc;
    MarkerChars();
    PrefixFree(b, r, USER);
    PrefixFree(b, r, ASSISTANT);
    NilRight(b);
    NilRight(SepSub(b));
    SepSubFree(b, "", USER);
    SepSubFree(b, "", ASSISTANT);
    RoleFreeUnchanged(SepSub(b), true);
    SepSubFree(b, r, USER);
    SepSubFree(b, r, ASSISTANT);
    CollapseFree(SepSub(b), r, USER);
    CollapseFree(SepSub(b), r, ASSISTANT);
  }

  /** The notes of an answer that came through substitution in part. */
  lemma SubstituteTidy(b: string, r: string)
    requires RoleFree(b + r) && Tidy(Read(BLANK, b + r))
    ensures var t := Substitute(b);
      NoOcc(t, SEPARATOR) && RoleFree(t + r) && Read(BLANK, t + r) == Read(BLANK, b + r)
  {
    hide Read, Substitute, NoOcc;
    PrefixFree(b, r, USER);
    PrefixFree(b, r, ASSISTANT);
    SubstituteFree(b, r);
    ReadSubstitute(BLANK, b, r);
  }

  /** The batch form shows and captures what the notes say. */
  lemma BatchNoted(raw: string)
    requires RoleFree(raw)
    ensures var g, o := Batch(true, raw), Outcome(Read(BLANK, raw));
      Erase(g.text) == o.text && g.grade == o.grade
  {
    hide Read, Substitute, Extract, NoOcc;
    NilRight(raw);
    NilRight(Substitute(raw));
    ReadSubstitute(BLANK, raw, "");
    Interpret(Substitute(raw));
  }

  // ----- extraction -----

  /** Behind a complete sentinel only whitespace and separators are in time. */
  lemma {:induction false} FinalRest(n: Notes, r: string)
    requires Final(n) && !Read(n, r).broken
    ensures Soaked(r) && Read(n, r).mark == n.mark && Read(n, r).all == n.all
    ensures SEPARATOR <= r ==> !n.mark.value.hinged
    decreases |r|
  {
    hide Read, IsSpace, Take, Final;
    if r == "" {
      ReadNothing(n);
    } else {
      ReadOn(n, r);
      var m := Take(n, r);
      if m.broken {
        BrokenOn(m, r[Pace(r)..]);
        assert false;
      } else {
        FinalTake(n, r);
        FinalRest(m, r[Pace(r)..]);
      }
    }
  }

  lemma FinalTake(n: Notes, r: string)
    requires Final(n) && r != "" && !Take(n, r).broken
    ensures !(SENTINEL <= r) && (SEPARATOR <= r || IsSpace(r[0])) && (SEPARATOR <= r ==> !n.mark.value.hinged)
    ensures Final(Take(n, r)) && Take(n, r).mark == n.mark && Take(n, r).all == n.all
  {
    hide NatValue, Hinge;
    assert SENTINEL[0] != SEPARATOR[0];
  }

  lemma {:induction false} SoakedRead(n: Notes, r: string)
    requires n.mark.None? && Soaked(r)
    ensures Read(n, r) == n.(apart := n.apart || r != "")
    decreases |r|
  {
    hide Read, IsSpace;
    if r == "" {
      ReadNothing(n);
    } else {
      ReadOn(n, r);
      SoakedTake(n, r);
      SoakedRead(Take(n, r), r[Pace(r)..]);
    }
  }

  lemma SoakedTake(n: Notes, r: string)
    requires n.mark.None? && Soaked(r) && r != ""
    ensures Take(n, r) == n.(apart := true) && Soaked(r[Pace(r)..])
  {
    PrefixChar(r, SENTINEL, 0);
    assert r[0] == '|' || IsSpace(r[0]);
    assert SENTINEL[0] == '[' && !IsSpace('[');
  }

  /** Whitespace or a separator continues no marker but a hinge. */
  lemma SoakedApart(u: string, r: string)
    requires Soaked(r) && !(SEPARATOR <= r && Hinge(u))
    ensures Apart(u, r)
  {
    if r == "" || !(SEPARATOR <= r) {
      if r != "" { SpaceForeign(r[0]); }
      BehindApart(u, r);
    } else {
      forall j: nat | j < |u|
        ensures SENTINEL <= (u + r)[j..] ==> j + |SENTINEL| <= |u|
        ensures SEPARATOR <= (u + r)[j..] ==> j + |SEPARATOR| <= |u|
      {
        var s := (u + r)[j..];
        assert s[|u| - j] == r[0] == '|';
        NotThrough(s, SENTINEL, |u| - j);
        HingeOnly(u, r, j);
      }
    }
  }

  lemma HingeOnly(u: string, r: string, j: nat)
    requires j < |u| && r != "" && r[0] == '|' && !Hinge(u)
    ensures SEPARATOR <= (u + r)[j..] ==> j + |SEPARATOR| <= |u|
  {
    var s, k := (u + r)[j..], |u| - j;
    assert s[k] == '|';
    PrefixChar(s, SEPARATOR, k);
    if k == |SEPARATOR| - 1 { HingeFrom(u, r, j); }
  }

  lemma HingeFrom(u: string, r: string, j: nat)
    requires j < |u| && |u| - j == |SEPARATOR| - 1
    ensures SEPARATOR <= (u + r)[j..] ==> Hinge(u)
  {
    if SEPARATOR <= (u + r)[j..] { DanglingFromAt(u, r, SEPARATOR, j); }
  }

  lemma {:induction false} ScanEnd(t: Tail, s: string)
    requires s != "" && Scan(t, s).Closed?
    ensures s[|s| - 1] == ']' || IsSpace(s[|s| - 1])
    decreases |s|
  {
    hide IsSpace;
    if |s| == 1 {
      LastStep(t, s[0]);
    } else {
      ScanEnd(Step(t, s[0]), s[1..]);
    }
  }

  lemma LastStep(t: Tail, c: char)
    requires Step(t, c).Closed?
    ensures c == ']' || IsSpace(c)
  {}

  /** Nothing continues a complete sentinel to another marker. */
  lemma FinalApart(t: string, r: string)
    requires NoOcc(t, SEPARATOR) && Final(Read(BLANK, t))
    ensures Apart(t, r)
  {
    hide Read, NoOcc, Scan, Apart;
    var j := MarkThere(BLANK, t);
    ReadMark(t, j);
    var after := t[j + |SENTINEL|..];
    ScanNothing();
    ScanEnd(Lead, after);
    LastClosed(t, after);
    BeforeApart(t, r);
  }

  lemma ScanNothing()
    ensures Scan(Lead, "") == Lead
  {}

  lemma LastClosed(t: string, after: string)
    requires |after| <= |t| && after == t[|t| - |after|..] && after != ""
    requires after[|after| - 1] == ']' || IsSpace(after[|after| - 1])
    ensures t[|t| - 1] !in SENTINEL && t[|t| - 1] !in SEPARATOR
  {
    assert t[|t| - 1] == after[|after| - 1];
    if IsSpace(t[|t| - 1]) { SpaceForeign(t[|t| - 1]); }
  }

  lemma AheadFree(u: string, r: string, p: string)
    requires NoOcc(u, p) && NoOcc(r, p) && (r == "" || r[0] !in p) && p != ""
    ensures NoOcc(u + r, p)
  {
    forall i: nat
      ensures !At(u + r, p, i)
    {
      AtConcat(u, r, p, i);
      if At(u + r, p, i) && i < |u| < i + |p| {
        AtChar(u + r, p, i, |u| - i);
      }
    }
  }

  lemma SoakedFree(u: string, r: string)
    requires RoleFree(u) && RoleFree(r) && Soaked(r)
    ensures RoleFree(u + r)
  {
    hide NoOcc;
    if r != "" { SoakedFirst(r); }
    AheadFree(u, r, USER);
    AheadFree(u, r, ASSISTANT);
  }

  lemma SoakedFirst(r: string)
    requires Soaked(r) && r != ""
    ensures r[0] !in USER && r[0] !in ASSISTANT
  {}

  /** Taking a sentinel out leaves tidy notes of the same outcome. */
  lemma ExtractTidy(t: string, r: string)
    requires NoOcc(t, SEPARATOR) && RoleFree(t + r) && Tidy(Read(BLANK, t + r))
    ensures var g := Extract(t);
      var o, n := Outcome(Read(BLANK, t + r)), Read(BLANK, g.text + r);
      && NoOcc(g.text, SEPARATOR) && RoleFree(g.text + r) && Tidy(n)
      && Outcome(n).text == o.text && o.grade == Latest(Outcome(n).grade, g.grade)
  {
    hide *;
    Interpret(t);
    var n := Read(BLANK, t);
    if Final(n) {
      FinalRests(t, r);
      ExtractNotes(t, r);
      ExtractRoleFree(t, r);
      FinalOutcome(n, Read(BLANK, t + r));
    } else {
      Unfinished(n);
    }
    LatestNone(Outcome(Read(BLANK, t + r)).grade);
    LatestNone(Extract(t).grade);
  }

  lemma LatestNone(g: Option<nat>)
    ensures Latest(g, None) == g && Latest(None, g) == g
  {}

  lemma FinalOutcome(m: Notes, n: Notes)
    requires Final(m) && n.mark == m.mark
    ensures Outcome(n) == Outcome(m) && Outcome(m).text == m.mark.value.before
  {}

  lemma Unfinished(n: Notes)
    requires !Final(n)
    ensures Outcome(n).grade == None
  {}

  lemma FinalRests(t: string, r: string)
    requires NoOcc(t, SEPARATOR) && Final(Read(BLANK, t)) && Tidy(Read(BLANK, t + r))
    ensures var m, n := Read(BLANK, t), Read(BLANK, t + r);
      && n.mark == m.mark && n.all == m.all && !m.broken && !m.mark.value.stale
      && Soaked(r) && (SEPARATOR <= r ==> !m.mark.value.hinged)
  {
    hide Read, NoOcc, Soaked, Hinge, Apart;
    FinalApart(t, r);
    ReadCut(BLANK, t, r);
    FinalRest(Read(BLANK, t), r);
    if Read(BLANK, t).broken { BrokenOn(Read(BLANK, t), r); }
  }

  lemma ExtractNotes(t: string, r: string)
    requires NoOcc(t, SEPARATOR) && Final(Read(BLANK, t)) && Soaked(r)
    requires var m := Read(BLANK, t); !m.broken && !m.mark.value.stale && (SEPARATOR <= r ==> !m.mark.value.hinged)
    ensures var u := Extract(t).text; var n := Read(BLANK, u + r);
      && NoOcc(u, SEPARATOR) && u <= t
      && Tidy(n) && Outcome(n) == Graded(Read(BLANK, t).mark.value.before, None)
  {
    hide Read, Extract, NoOcc, Erase, Soaked, Hinge, Apart;
    var u := Extract(t).text;
    Interpret(t);
    MarkMeans(t);
    Interpret(u);
    SoakedApart(u, r);
    ReadCut(BLANK, u, r);
    SoakedRead(Read(BLANK, u), r);
  }

  lemma ExtractRoleFree(t: string, r: string)
    requires RoleFree(t + r) && Soaked(r) && Extract(t).text <= t
    ensures RoleFree(Extract(t).text + r)
  {
    hide NoOcc, Soaked, Extract;
    var u := Extract(t).text;
    assert t == u + t[|u|..];
    PrefixFree(t, r, USER);
    PrefixFree(t, r, ASSISTANT);
    PrefixFree(u, t[|u|..], USER);
    PrefixFree(u, t[|u|..], ASSISTANT);
    SuffixFree(t, r, USER);
    SuffixFree(t, r, ASSISTANT);
    SoakedFree(u, r);
  }

  // ----- emission -----

  /** Notes `b` of a text whose part behind `p` has the notes `a`: the same text but for `p`, and
      no less trouble. */
  predicate Behind(p: string, a: Notes, b: Notes) {
    && b.all == p + a.all
    && |a.word| <= |b.word| && b.word[|b.word| - |a.word|..] == a.word && (b.apart ==> a.apart)
    && (a.broken ==> b.broken)
  }

  predicate MarkBehind(p: string, a: Option<Mark>, b: Option<Mark>) {
    && a.Some? == b.Some?
    && (a.Some? ==>
      var x, y := a.value, b.value;
      && y.before == p + x.before && x.tail == y.tail && (x.stale ==> y.stale) && (x.hinged ==> y.hinged))
  }

  predicate Under(p: string, a: Notes, b: Notes) {
    Behind(p, a, b) && MarkBehind(p, a.mark, b.mark)
  }

  lemma HingeBehind(p: string, a: Notes, b: Notes)
    requires Behind(p, a, b)
    ensures Hinge(a.word) ==> Hinge(b.word)
  {
    var k := |SEPARATOR| - 1;
    if k <= |a.word| { assert b.word[|b.word| - k..] == a.word[|a.word| - k..]; }
  }

  lemma GrownBehind(p: string, a: Notes, b: Notes, q: string)
    requires Behind(p, a, b)
    ensures var x, y := Grown(a, q), Grown(b, q); |x| <= |y| && y[|y| - |x|..] == x
    ensures b.all + q == p + (a.all + q)
  {
    Assoc(p, a.all, q);
  }

  lemma TakeUnder(p: string, a: Notes, b: Notes, s: string)
    requires s != "" && Under(p, a, b)
    ensures Under(p, Take(a, s), Take(b, s))
  {
    hide IsSpace, Under, Marked, Parted, Spaced, Added;
    SentinelUnder(p, a, b);
    SpaceUnder(p, a, b);
    CharUnder(p, a, b, s[0]);
  }

  lemma SentinelUnder(p: string, a: Notes, b: Notes)
    requires Under(p, a, b)
    ensures Under(p, Marked(a), Marked(b))
  {
    hide NatValue, Hinge, Grown;
    HingeBehind(p, a, b);
    GrownBehind(p, a, b, SENTINEL);
  }

  lemma SpaceUnder(p: string, a: Notes, b: Notes)
    requires Under(p, a, b)
    ensures Under(p, Spaced(a), Spaced(b)) && Under(p, Parted(a), Parted(b))
  {
    hide Step, NatValue, Hinge;
  }

  lemma CharUnder(p: string, a: Notes, b: Notes, c: char)
    requires Under(p, a, b)
    ensures Under(p, Added(a, c), Added(b, c))
  {
    hide Step, NatValue, Grown;
    GrownBehind(p, a, b, [c]);
  }

  lemma {:induction false} ReadUnder(p: string, a: Notes, b: Notes, s: string)
    requires Under(p, a, b)
    ensures Under(p, Read(a, s), Read(b, s))
    decreases |s|
  {
    hide Read, Under, Take;
    if s == "" {
      ReadNothing(a);
      ReadNothing(b);
    } else {
      ReadOn(a, s);
      ReadOn(b, s);
      TakeUnder(p, a, b, s);
      ReadUnder(p, Take(a, s), Take(b, s), s[Pace(s)..]);
    }
  }

  /** A bracket ends whatever was in progress. */
  lemma BracketUnder(p: string, a: Notes, b: Notes, s: string)
    requires Behind(p, a, b) && a.mark.None? && s != "" && s[0] == '['
    ensures Under(p, Take(a, s), Take(b, s))
  {
    hide Step, NatValue, Hinge, Grown;
    HingeBehind(p, a, b);
    GrownBehind(p, a, b, SENTINEL);
    GrownBehind(p, a, b, [s[0]]);
  }

  lemma UnderTidy(p: string, a: Notes, b: Notes)
    requires Under(p, a, b) && Tidy(b)
    ensures Tidy(a) && Outcome(b).text == p + Outcome(a).text && Outcome(b).grade == Outcome(a).grade
  {
    hide NatValue;
  }

  /** Read from the start, a later part has notes under those of the whole. */
  lemma ReadFrom(h: Notes, ws: string, z: string)
    requires AllSpace(ws)
    ensures Under(h.all, Read(BLANK, ws + ("[" + z)), Read(h, ws + ("[" + z)))
  {
    hide Read, Under, Take, Spaced;
    var s := "[" + z;
    ReadSpaces(BLANK, ws, s);
    ReadSpaces(h, ws, s);
    var a, b := if ws == "" then BLANK else Spaced(BLANK), if ws == "" then h else Spaced(h);
    SpacedBehind(h, ws == "");
    BracketUnder(h.all, a, b, s);
    ReadOn(a, s);
    ReadOn(b, s);
    ReadUnder(h.all, Take(a, s), Take(b, s), s[Pace(s)..]);
  }

  lemma SpacedBehind(h: Notes, same: bool)
    ensures var a, b := if same then BLANK else Spaced(BLANK), if same then h else Spaced(h);
      Behind(h.all, a, b) && a.mark.None?
  {
    NilRight(h.all);
  }

  /** What is withheld starts no later than a sentinel and not inside one. */
  lemma NotInside(t: string, j: nat)
    requires At(t, SENTINEL, j)
    ensures var k := |t| - Withheld(true, t); k <= j || j + |SENTINEL| <= k
  {
    hide MarkerTailLen, RStrip;
    var n, p := MarkerTailLen(true, t), PartialAt(t, 0);
    TailNotInside(t, j, n);
    if p >= 0 {
      var i: nat :| At(t, SENTINEL, i) && p == |RStrip(t[..i])|;
      StripNotInside(t, j, i);
    }
  }

  lemma StripNotInside(t: string, j: nat, i: nat)
    requires At(t, SENTINEL, j) && At(t, SENTINEL, i)
    ensures var p := |RStrip(t[..i])|; p <= j || j + |SENTINEL| <= p
  {
    var p := |RStrip(t[..i])|;
    StripSpaces(t, i);
    if j < p < j + |SENTINEL| {
      AtChar(t, SENTINEL, j, p - j);
      SentinelSolid();
      assert SENTINEL[p - j] in SENTINEL;
      SentinelsApart(t, j, i);
    }
  }

  lemma StripSpaces(t: string, i: nat)
    requires i <= |t|
    ensures forall k | |RStrip(t[..i])| <= k < i :: IsSpace(t[k])
  {
    var p := |RStrip(t[..i])|;
    forall k | p <= k < i
      ensures IsSpace(t[k])
    {
      assert t[k] == t[..i][p..][k - p];
    }
  }

  lemma SentinelsApart(t: string, j: nat, i: nat)
    requires At(t, SENTINEL, j) && At(t, SENTINEL, i) && j < i
    ensures j + |SENTINEL| <= i
  {
    AtChar(t, SENTINEL, i, 0);
    AtChar(t, SENTINEL, i, 1);
    PrefixAt(t, SENTINEL, j);
    NotTwice(t[j..], i - j);
  }

  lemma TailNotInside(t: string, j: nat, n: nat)
    requires At(t, SENTINEL, j) && n == MarkerTailLen(true, t)
    ensures var k := |t| - n; k <= j || j + |SENTINEL| <= k
  {
    hide MarkerTailLen;
    var k := |t| - n;
    if j < k < j + |SENTINEL| {
      TailForm(true, t, n);
      var tail := t[k..];
      AtChar(t, SENTINEL, j, k - j);
      assert tail[0] == SENTINEL[k - j] && SENTINEL[k - j] in SENTINEL && tail[0] in tail;
      if k + 1 < j + |SENTINEL| {
        AtChar(t, SENTINEL, j, k + 1 - j);
        assert tail[1] == SENTINEL[k + 1 - j];
      }
      InnerTail(tail, k - j);
    }
  }

  /** No marker begins inside a sentinel's prefix. */
  lemma InnerTail(tail: string, o: nat)
    requires 0 < o < |SENTINEL| && tail != "" && tail[0] == SENTINEL[o] && tail[0] in tail
    requires o + 1 < |SENTINEL| ==> |tail| > 1 && tail[1] == SENTINEL[o + 1]
    ensures !AllSpace(tail) && !(tail <= SEPARATOR) && !(tail <= USER) && !(tail <= ASSISTANT) && !(tail <= SENTINEL)
  {
    SentinelSolid();
    assert SENTINEL[o] in SENTINEL;
    assert o != 1 ==> SENTINEL[o] != '[';
  }

  /** No marker runs from the emitted head into what follows. */
  lemma HeadApart(t: string, r: string, head: string, tail: string)
    requires NoOcc(t, SEPARATOR) && t == head + tail && |tail| == Withheld(true, t)
    ensures Apart(head, tail + r)
  {
    hide Withheld;
    MarkersWithheld(true, t);
    Assoc(head, tail, r);
    forall j: nat | j < |head|
      ensures SENTINEL <= (head + (tail + r))[j..] ==> j + |SENTINEL| <= |head|
      ensures SEPARATOR <= (head + (tail + r))[j..] ==> j + |SEPARATOR| <= |head|
    {
      PrefixAt(t + r, SEPARATOR, j);
      AtConcat(t, r, SEPARATOR, j);
      if SEPARATOR <= (t + r)[j..] { DanglingFromAt(t, r, SEPARATOR, j); }
      PrefixAt(t + r, SENTINEL, j);
      AtConcat(t, r, SENTINEL, j);
      if SENTINEL <= (t + r)[j..] {
        if j + |SENTINEL| > |t| { DanglingFromAt(t, r, SENTINEL, j); } else { NotInside(t, j); }
      }
    }
  }

  /** Where the head holds a sentinel in progress, what is withheld opens with a bracket. */
  lemma TailBracket(t: string, head: string, tail: string) returns (ws: string, z: string)
    requires NoOcc(t, SEPARATOR) && t == head + tail && |tail| == Withheld(true, t)
    requires Read(BLANK, head).mark.Some?
    ensures tail == ws + ("[" + z) && AllSpace(ws)
  {
    hide MarkerTailLen, RStrip, Read, NoOcc, AllSpace;
    PrefixFree(head, tail, SEPARATOR);
    var j := MarkThere(BLANK, head);
    AtConcat(head, tail, SENTINEL, j);
    var n, p := MarkerTailLen(true, t), PartialAt(t, 0);
    assert tail == t[|head|..];
    if p >= 0 && |tail| == |t| - p {
      var i: nat :| At(t, SENTINEL, i) && p == |RStrip(t[..i])|;
      PartialParts(t, i);
      ws, z := t[p..i], SENTINEL[1..] + t[i + |SENTINEL|..];
      Assoc(ws, SENTINEL, t[i + |SENTINEL|..]);
      assert SENTINEL == "[" + SENTINEL[1..];
      Assoc("[", SENTINEL[1..], t[i + |SENTINEL|..]);
    } else {
      BracketWithheld(t, head, tail, j, p);
      TailForm(true, t, n);
      BracketFirst(tail);
      ws, z := "", tail[1..];
      NilLeft(tail);
      SpaceNothing();
    }
  }

  lemma SpaceNothing()
    ensures AllSpace("")
  {}

  lemma BracketWithheld(t: string, head: string, tail: string, j: nat, p: int)
    requires t == head + tail && j + |SENTINEL| <= |head| && At(t, SENTINEL, j) && '[' !in head[j + |SENTINEL|..]
    requires p == PartialAt(t, 0) && (p >= 0 ==> |head| <= p)
    ensures '[' in tail
  {
    hide RStrip, At, PartialAt;
    if p >= 0 {
      var i := PartialSome(t);
      BracketBehind(t, |head|, i);
      assert tail == t[|head|..];
    } else {
      PartialNone(t, j);
      Drop(head, tail, j + |SENTINEL|);
    }
  }

  lemma PartialSome(t: string) returns (i: nat)
    requires PartialAt(t, 0) >= 0
    ensures At(t, SENTINEL, i) && PartialAt(t, 0) == |RStrip(t[..i])| <= i
  {
    hide RStrip;
    i :| At(t, SENTINEL, i) && PartialAt(t, 0) == |RStrip(t[..i])|;
  }

  lemma PartialNone(t: string, j: nat)
    requires PartialAt(t, 0) < 0 && At(t, SENTINEL, j)
    ensures j + |SENTINEL| <= |t| && '[' in t[j + |SENTINEL|..]
  {}

  lemma BracketBehind(t: string, k: nat, i: nat)
    requires At(t, SENTINEL, i) && k <= i
    ensures k <= |t| && '[' in t[k..]
  {
    AtChar(t, SENTINEL, i, 0);
    assert t[k..][i - k] == t[i];
  }

  lemma BracketFirst(tail: string)
    requires '[' in tail
    requires AllSpace(tail) || tail <= SEPARATOR || tail <= USER || tail <= ASSISTANT || tail <= SENTINEL
    ensures tail == "[" + tail[1..]
  {
    assert !IsSpace('[');
    assert '[' !in SEPARATOR && '[' !in USER && '[' !in ASSISTANT;
    assert forall p: string, c | tail <= p && c in tail :: c in p;
  }

  /** What is emitted reads as itself. */
  lemma EmitTidy(t: string, r: string, head: string, tail: string)
    requires NoOcc(t, SEPARATOR) && Tidy(Read(BLANK, t + r))
    requires t == head + tail && |tail| == Withheld(true, t)
    ensures var o, n := Outcome(Read(BLANK, t + r)), Read(BLANK, tail + r);
      Tidy(n) && o.text == Erase(head) + Outcome(n).text && o.grade == Outcome(n).grade
  {
    hide *;
    Assoc(head, tail, r);
    HeadApart(t, r, head, tail);
    ReadCut(BLANK, head, tail + r);
    HeadNoted(head, tail);
    var h := Read(BLANK, head);
    if h.mark.None? {
      UnderBlank(h);
      ReadUnder(h.all, BLANK, h, tail + r);
    } else {
      var ws, z := TailBracket(t, head, tail);
      Assoc(ws, "[", z);
      Assoc4(ws, "[", z, r);
      ReadFrom(h, ws, z + r);
    }
    UnderTidy(h.all, Read(BLANK, tail + r), Read(h, tail + r));
  }

  lemma HeadNoted(head: string, tail: string)
    requires NoOcc(head + tail, SEPARATOR)
    ensures Read(BLANK, head).all == Erase(head)
  {
    hide Read, Erase, NoOcc;
    PrefixFree(head, tail, SEPARATOR);
    ReadAll(BLANK, head);
    NilLeft(Erase(head));
  }

  lemma UnderBlank(h: Notes)
    requires h.mark.None?
    ensures Under(h.all, BLANK, h)
  {
    NilRight(h.all);
  }

  // ----- the run -----

  /** What was emitted and the notes of what is still to come stand for `goal`. */
  ghost predicate Balanced(goal: Graded, emitted: string, st: State, rest: string) {
    var n := Read(BLANK, st.buffer + rest);
    && RoleFree(st.buffer + rest) && Tidy(n)
    && Erase(emitted) + Outcome(n).text == goal.text
    && goal.grade == Latest(Outcome(n).grade, st.grade)
  }

  /** One step moves text from what is still to be read to what is emitted. */
  lemma AbsorbTidy(st: State, c: string, rest: string)
    requires RoleFree(st.buffer + c + rest) && Tidy(Read(BLANK, st.buffer + c + rest))
    ensures var (emit, st') := Absorb(true, st, c);
      var o, n := Outcome(Read(BLANK, st.buffer + c + rest)), Read(BLANK, st'.buffer + rest);
      && RoleFree(st'.buffer + rest) && Tidy(n)
      && o.text == Erase(emit) + Outcome(n).text
      && Latest(Outcome(n).grade, st'.grade) == Latest(o.grade, st.grade)
  {
    hide Absorb, Read, Tidy, Outcome, Substitute, Extract, Withheld, NoOcc, Erase;
    var b := st.buffer + c;
    SubstituteTidy(b, rest);
    ExtractTidy(Substitute(b), rest);
    AbsorbParts(true, st, c);
    var (emit, st') := Absorb(true, st, c);
    var t := Settle(true, b).text;
    EmitTidy(t, rest, emit, st'.buffer);
    Assoc(emit, st'.buffer, rest);
    SuffixFree(emit, st'.buffer + rest, USER);
    SuffixFree(emit, st'.buffer + rest, ASSISTANT);
  }

  lemma AbsorbBalanced(goal: Graded, emitted: string, st: State, c: string, rest: string)
    requires Balanced(goal, emitted, st, c + rest)
    ensures var (emit, st') := Absorb(true, st, c); Balanced(goal, emitted + emit, st', rest)
  {
    hide Absorb, Read, Tidy, Outcome, RoleFree, Erase, Latest;
    Assoc(st.buffer, c, rest);
    AbsorbTidy(st, c, rest);
    var (emit, st') := Absorb(true, st, c);
    EraseConcat(emitted, emit);
    Assoc(Erase(emitted), Erase(emit), Outcome(Read(BLANK, st'.buffer + rest)).text);
  }

  /** At the end nothing is in progress any more. */
  lemma SettleTidy(b: string)
    requires RoleFree(b) && Tidy(Read(BLANK, b))
    ensures var g, o := Settle(true, b), Outcome(Read(BLANK, b));
      PartialAt(g.text, 0) < 0 && Erase(g.text) == o.text && g.grade == o.grade
  {
    hide Read, Substitute, Extract, NoOcc, Erase;
    NilRight(b);
    SubstituteTidy(b, "");
    var t := Substitute(b);
    NilRight(t);
    Interpret(t);
    if Final(Read(BLANK, t)) { MarkMeans(t); }
  }

  lemma FlushBalanced(goal: Graded, emitted: string, st: State)
    requires Balanced(goal, emitted, st, "")
    ensures var g := Flush(true, st); Erase(emitted + g.text) == goal.text && g.grade == goal.grade
  {
    hide Settle, Read, RoleFree, Erase;
    NilRight(st.buffer);
    if st.buffer == "" {
      NilRight(emitted);
      NilRight(Erase(emitted));
      ReadNothing(BLANK);
    } else {
      SettleTidy(st.buffer);
      EraseConcat(emitted, Settle(true, st.buffer).text);
    }
  }

  lemma {:induction false} RunBalanced(goal: Graded, emitted: string, st: State, chunks: seq<string>)
    requires Balanced(goal, emitted, st, Concat(chunks))
    ensures var g := Streamed(true, st, chunks); Erase(emitted + g.text) == goal.text && g.grade == goal.grade
    decreases |chunks|
  {
    hide Absorb, Flush, Balanced, Erase;
    if chunks == [] {
      FlushBalanced(goal, emitted, st);
    } else {
      AbsorbBalanced(goal, emitted, st, chunks[0], Concat(chunks[1..]));
      var (emit, st') := Absorb(true, st, chunks[0]);
      RunBalanced(goal, emitted + emit, st', chunks[1..]);
      Assoc(emitted, emit, Streamed(true, st', chunks[1..]).text);
    }
  }

  /** However a tidy answer is cut, the stream shows what the batch form shows, and captures the
      same grade. */
  lemma TidyAgrees(chunks: seq<string>)
    requires RoleFree(Concat(chunks)) && Tidy(Read(BLANK, Concat(chunks)))
    ensures var s, b := Streamed(true, START, chunks), Batch(true, Concat(chunks));
      Erase(s.text) == Erase(b.text) && s.grade == b.grade
  {
    hide Read, Tidy, Outcome, RoleFree, Streamed, Settle, Erase;
    var raw := Concat(chunks);
    var o := Outcome(Read(BLANK, raw));
    NilLeft(raw);
    NothingErased(o.text);
    NilLeft(Streamed(true, START, chunks).text);
    RunBalanced(o, "", START, chunks);
    BatchNoted(raw);
  }

  lemma NothingErased(x: string)
    ensures Erase("") + x == x
  {
    NilLeft(x);
  }
}
