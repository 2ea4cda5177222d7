/** What a self-graded answer without role markers comes to: one pass that notes the text, the last
    sentinel that may still be in progress, and whether an earlier one was complete. */
module Grades {
  import opened Text
  import opened StreamFilter
  import opened Substitutions
  import opened RoleMarkers
  import opened Reading
  import opened StreamAgreement

  // ----- the notes -----

  /** The last sentinel with no bracket after it: the text before it, how far it has come, whether
      in the text before it another one is still in progress, and whether that text ends in a
      separator that lacks its last character. */
  datatype Mark = Mark(before: string, tail: Tail, stale: bool, hinged: bool)

  /** All visible characters, the last word of them and whether whitespace or a separator followed
      it, the last sentinel, and whether text followed a complete one, or a separator followed a
      hinged one. */
  datatype Notes = Notes(all: string, word: string, apart: bool, mark: Option<Mark>, broken: bool)

  const BLANK := Notes("", "", true, None, false)

  predicate InRange(t: Tail) {
    t.Closed? && NatValue(t.ds) <= 100
  }

  predicate Final(n: Notes) {
    n.mark.Some? && InRange(n.mark.value.tail)
  }

  /** All of a separator but its last character. */
  predicate Hinge(s: string) {
    Dangling(s, SEPARATOR, |SEPARATOR| - 1)
  }

  function Stepped(m: Option<Mark>, c: char): Option<Mark> {
    if m.None? then None else Some(m.value.(tail := Step(m.value.tail, c)))
  }

  function Spaced(n: Notes): Notes {
    n.(mark := Stepped(n.mark, ' '), apart := true)
  }

  function Parted(n: Notes): Notes {
    Spaced(n).(broken := n.broken || (Final(n) && n.mark.value.hinged))
  }

  function Grown(n: Notes, p: string): string {
    if n.apart then p else n.word + p
  }

  function Added(n: Notes, c: char): Notes {
    Notes(n.all + [c], Grown(n, [c]), false, if c == '[' then None else Stepped(n.mark, c), n.broken || Final(n))
  }

  function Marked(n: Notes): Notes {
    Notes(n.all + SENTINEL, Grown(n, SENTINEL), false,
          Some(Mark(n.all, Lead, n.mark.Some?, Hinge(n.word))), n.broken || Final(n))
  }

  /** Behind the first sentinel prefix, separator or character. */
  function Take(n: Notes, s: string): Notes
    requires s != ""
  {
    if SENTINEL <= s then Marked(n)
    else if SEPARATOR <= s then Parted(n)
    else if IsSpace(s[0]) then Spaced(n)
    else Added(n, s[0])
  }

  function Pace(s: string): (k: nat)
    requires s != ""
    ensures 0 < k <= |s|
  {
    if SENTINEL <= s then |SENTINEL| else if SEPARATOR <= s then |SEPARATOR| else 1
  }

  function Read(n: Notes, s: string): Notes
    decreases |s|
  {
    if s == "" then n else Read(Take(n, s), s[Pace(s)..])
  }

  /** Nothing came too late, and a sentinel at the end is complete with nothing in progress
      before it. */
  predicate Tidy(n: Notes) {
    !n.broken && (n.mark.None? || (Final(n) && !n.mark.value.stale))
  }

  /** The visible text and the grade. */
  function Outcome(n: Notes): Graded {
    if Final(n) then Graded(n.mark.value.before, Some(NatValue(n.mark.value.tail.ds))) else Graded(n.all, None)
  }

  /** The same notes, but for trouble that only the second ones tell of. */
  predicate Eased(a: Notes, b: Notes) {
    a == b.(broken := a.broken) && (a.broken ==> b.broken)
  }

  lemma {:induction false} ReadEased(a: Notes, b: Notes, s: string)
    requires Eased(a, b)
    ensures Eased(Read(a, s), Read(b, s))
    decreases |s|
  {
    hide Step, IsSpace, InRange, Hinge;
    if s != "" { ReadEased(Take(a, s), Take(b, s), s[Pace(s)..]); }
  }

  // ----- reading in parts -----

  /** Neither a sentinel prefix nor a separator runs from `w` into `x`. */
  ghost predicate Apart(w: string, x: string) {
    forall j: nat | j < |w| ::
      && (SENTINEL <= (w + x)[j..] ==> j + |SENTINEL| <= |w|)
      && (SEPARATOR <= (w + x)[j..] ==> j + |SEPARATOR| <= |w|)
  }

  lemma ApartSuffix(w: string, x: string, n: nat)
    requires Apart(w, x) && n <= |w|
    ensures Apart(w[n..], x)
  {
    forall j: nat | j < |w[n..]|
      ensures SENTINEL <= (w[n..] + x)[j..] ==> j + |SENTINEL| <= |w[n..]|
      ensures SEPARATOR <= (w[n..] + x)[j..] ==> j + |SEPARATOR| <= |w[n..]|
    {
      assert (w[n..] + x)[j..] == (w + x)[j + n..];
    }
  }

  lemma ApartFirst(w: string, x: string)
    requires Apart(w, x) && w != ""
    ensures SENTINEL <= w + x <==> SENTINEL <= w
    ensures SEPARATOR <= w + x <==> SEPARATOR <= w
  {
    assert (w + x)[0..] == w + x;
    PrefixOfConcat(SENTINEL, w, x);
    PrefixOfConcat(SEPARATOR, w, x);
  }

  lemma {:induction false} ReadCut(n: Notes, w: string, x: string)
    requires Apart(w, x)
    ensures Read(n, w + x) == Read(Read(n, w), x)
    decreases |w|
  {
    hide Apart, Marked, Added, Spaced, Read, IsSpace;
    if w == "" {
      NilLeft(x);
      ReadNothing(n);
    } else {
      ApartFirst(w, x);
      var k := Pace(w);
      Drop(w, x, k);
      ApartSuffix(w, x, k);
      ReadCut(Take(n, w), w[k..], x);
      ReadOn(n, w);
      ReadOn(n, w + x);
    }
  }

  lemma ReadNothing(n: Notes)
    ensures Read(n, "") == n
  {}

  lemma ReadOn(n: Notes, s: string)
    requires s != ""
    ensures Read(n, s) == Read(Take(n, s), s[Pace(s)..])
  {}

  /** A character that neither has keeps them apart, behind the seam or before it. */
  lemma BehindApart(w: string, x: string)
    requires x == "" || (x[0] !in SENTINEL && x[0] !in SEPARATOR)
    ensures Apart(w, x)
  {
    forall j: nat | j < |w|
      ensures SENTINEL <= (w + x)[j..] ==> j + |SENTINEL| <= |w|
      ensures SEPARATOR <= (w + x)[j..] ==> j + |SEPARATOR| <= |w|
    {
      var s := (w + x)[j..];
      assert x != "" ==> s[|w| - j] == x[0];
      NotThrough(s, SENTINEL, |w| - j);
      NotThrough(s, SEPARATOR, |w| - j);
    }
  }

  lemma NotThrough(s: string, p: string, i: nat)
    requires i == |s| || (i < |s| && s[i] !in p)
    ensures p <= s ==> |p| <= i
  {
    if i < |s| { PrefixChar(s, p, i); }
  }

  lemma PrefixChar(s: string, p: string, i: nat)
    requires i < |s|
    ensures p <= s && i < |p| ==> s[i] == p[i] && s[i] in p
  {}

  lemma BeforeApart(w: string, x: string)
    requires w == "" || (w[|w| - 1] !in SENTINEL && w[|w| - 1] !in SEPARATOR)
    ensures Apart(w, x)
  {
    forall j: nat | j < |w|
      ensures SENTINEL <= (w + x)[j..] ==> j + |SENTINEL| <= |w|
      ensures SEPARATOR <= (w + x)[j..] ==> j + |SEPARATOR| <= |w|
    {
      var s := (w + x)[j..];
      assert s[|w| - 1 - j] == w[|w| - 1];
      NotThrough(s, SENTINEL, |w| - 1 - j);
      NotThrough(s, SEPARATOR, |w| - 1 - j);
    }
  }

  lemma SpaceForeign(c: char)
    requires IsSpace(c)
    ensures c !in SENTINEL && c !in SEPARATOR
  {}

  /** The separator starts behind `w`. */
  lemma FirstApart(w: string, y: string)
    requires Find(w + (SEPARATOR + y), SEPARATOR) == |w|
    ensures Apart(w, SEPARATOR + y)
  {
    var s := w + (SEPARATOR + y);
    forall j: nat | j < |w|
      ensures SENTINEL <= s[j..] ==> j + |SENTINEL| <= |w|
      ensures SEPARATOR <= s[j..] ==> j + |SEPARATOR| <= |w|
    {
      PrefixAt(s, SEPARATOR, j);
      assert s[j..][|w| - j] == '|' && '|' !in SENTINEL;
      NotThrough(s[j..], SENTINEL, |w| - j);
    }
  }

  // ----- whitespace counts once -----

  lemma SpacedTwice(n: Notes)
    ensures Spaced(Spaced(n)) == Spaced(n)
  {}

  lemma SpaceTaken(n: Notes, c: char, x: string)
    requires IsSpace(c)
    ensures Read(n, [c] + x) == Read(Spaced(n), x)
  {
    SpaceForeign(c);
    var s := [c] + x;
    assert s[0] == c && s[1..] == x;
    hide Spaced, Read, Marked, Added, Parted;
    PrefixChar(s, SENTINEL, 0);
    PrefixChar(s, SEPARATOR, 0);
    ReadOn(n, s);
  }

  lemma {:induction false} ReadSpaces(n: Notes, ws: string, x: string)
    requires AllSpace(ws)
    ensures Read(n, ws + x) == Read(if ws == "" then n else Spaced(n), x)
    decreases |ws|
  {
    hide Read, Spaced, IsSpace;
    if ws == "" {
      NilLeft(x);
    } else {
      assert ws[0] in ws && forall c | c in ws[1..] :: c in ws;
      assert ws + x == [ws[0]] + (ws[1..] + x);
      SpaceTaken(n, ws[0], ws[1..] + x);
      ReadSpaces(Spaced(n), ws[1..], x);
      SpacedTwice(n);
    }
  }

  lemma ReadSeparator(n: Notes, y: string)
    ensures Read(n, SEPARATOR + y) == Read(Parted(n), y)
  {
    var s := SEPARATOR + y;
    assert SEPARATOR <= s && s[|SEPARATOR|..] == y && s[0] == '|' && SENTINEL[0] == '[';
    hide Parted, Read;
    ReadOn(n, s);
  }

  /** A line break reads like whitespace and separators in its place, but for the trouble they make. */
  lemma {:induction false} ReadSepSub(n: Notes, b: string, r: string)
    ensures Eased(Read(n, SepSub(b) + r), Read(n, b + r))
    decreases |b|
  {
    hide Read, Spaced, SepSub, LStrip, RStrip, AllSpace, IsSpace, NoOcc, At;
    if Find(b, SEPARATOR) < 0 {
      NoSepSub(b);
    } else {
      var w, y := SepSubParts(b);
      FindPrefix(b, r, SEPARATOR);
      Assoc4(w, SEPARATOR, y, r);
      var m, m' := Spaced(Read(n, RStrip(w))), Parted(Read(n, w));
      ReadBefore(n, w, SepSub(LStrip(y)) + r, y + r);
      Assoc4(RStrip(w), "\n", SepSub(LStrip(y)), r);
      ReadSepSub(m, LStrip(y), r);
      SpacedTwice(Read(n, RStrip(w)));
      ReadLead(m, y, r);
      ReadEased(m, m', y + r);
      EasedThrough(Read(n, SepSub(b) + r), Read(m, y + r), Read(n, b + r));
    }
  }

  lemma EasedThrough(a: Notes, b: Notes, c: Notes)
    requires Eased(a, b) && Eased(b, c)
    ensures Eased(a, c)
  {}

  lemma ReadBefore(n: Notes, w: string, z: string, y: string)
    requires Find(w + (SEPARATOR + y), SEPARATOR) == |w|
    ensures var m, m' := Spaced(Read(n, RStrip(w))), Parted(Read(n, w));
      && Read(n, RStrip(w) + ("\n" + z)) == Read(m, z) && Read(n, w + (SEPARATOR + y)) == Read(m', y)
      && Eased(m, m')
  {
    hide Read, Spaced, Parted, Eased, RStrip, AllSpace, IsSpace, Apart, Find;
    var u := RStrip(w);
    var ws := w[|u|..];
    RStripSplit(w);
    NewlineIsSpace();
    SpaceForeign('\n');
    BehindApart(u, "\n" + z);
    ReadCut(n, u, "\n" + z);
    SpaceTaken(Read(n, u), '\n', z);
    FirstApart(w, y);
    ReadCut(n, w, SEPARATOR + y);
    ReadSeparator(Read(n, w), y);
    TrailApart(u, ws);
    ReadCut(n, u, ws);
    NilRight(ws);
    ReadSpaces(Read(n, u), ws, "");
    ReadNothing(if ws == "" then Read(n, u) else Spaced(Read(n, u)));
    PartedEased(Read(n, u));
  }

  lemma PartedEased(n: Notes)
    ensures Eased(Spaced(n), Parted(n)) && Eased(Spaced(n), Parted(Spaced(n)))
  {}

  lemma TrailApart(u: string, ws: string)
    requires AllSpace(ws)
    ensures Apart(u, ws)
  {
    hide Apart;
    if ws != "" {
      assert ws[0] in ws;
      SpaceForeign(ws[0]);
    }
    BehindApart(u, ws);
  }

  /** Whitespace behind whitespace. */
  lemma ReadLead(m: Notes, y: string, r: string)
    requires m == Spaced(m)
    ensures Read(m, LStrip(y) + r) == Read(m, y + r)
  {
    hide Read, Spaced, LStrip, AllSpace;
    var k := |y| - |LStrip(y)|;
    Halves(y, k, r);
    ReadSpaces(m, y[..k], LStrip(y) + r);
  }

  lemma {:induction false} ReadCollapse(n: Notes, t: string, r: string)
    ensures Read(n, Collapse(t) + r) == Read(n, t + r)
    decreases |t|
  {
    hide Read, Spaced, Collapse, AllSpace, OnlyNewlines, NoOcc;
    if Find(t, EXCESS) < 0 {
      NoCollapse(t);
    } else {
      var w, run, z := CollapseParts(t);
      Paragraph();
      ReadRun(n, w, run, z + r);
      ReadRun(n, w, PARAGRAPH, Collapse(z) + r);
      ReadCollapse(Spaced(Read(n, w)), z, r);
      Assoc4(w, run, z, r);
      Assoc4(w, PARAGRAPH, Collapse(z), r);
    }
  }

  lemma ReadRun(n: Notes, w: string, run: string, x: string)
    requires run != "" && OnlyNewlines(run)
    ensures Read(n, w + (run + x)) == Read(Spaced(Read(n, w)), x)
  {
    hide Read, Spaced, OnlyNewlines, Apart;
    Newlines(run);
    NewlineIsSpace();
    SpaceForeign('\n');
    BehindApart(w, run + x);
    ReadCut(n, w, run + x);
    ReadSpaces(Read(n, w), run, x);
  }

  /** The substitutions leave the notes of a role-free text as they are. */
  lemma ReadSubstitute(n: Notes, b: string, r: string)
    requires RoleFree(b)
    ensures Eased(Read(n, Substitute(b) + r), Read(n, b + r)) && NoOcc(Substitute(b), SEPARATOR)
  {
    hide Read, Eased, SepSub, RoleSub, Collapse, NoOcc;
    MarkerChars();
    NilRight(b);
    NilRight(SepSub(b));
    SepSubFree(b, "", USER);
    SepSubFree(b, "", ASSISTANT);
    RoleFreeUnchanged(SepSub(b), true);
    SepSubComplete(b, SEPARATOR);
    NilRight(Substitute(b));
    CollapseFree(SepSub(b), "", SEPARATOR);
    ReadSepSub(n, b, r);
    ReadCollapse(n, SepSub(b), r);
  }

  // ----- what the notes say of a settled text -----

  lemma {:induction false} ReadAll(n: Notes, t: string)
    requires NoOcc(t, SEPARATOR)
    ensures Read(n, t).all == n.all + Erase(t)
    decreases |t|
  {
    hide Read, Erase, NoOcc, IsSpace, Stepped;
    if t == "" {
      ReadNothing(n);
      EraseNothing();
      NilRight(n.all);
    } else {
      var k := Pace(t);
      NoSeparatorDrop(t, k);
      ReadOn(n, t);
      ReadAll(Take(n, t), t[k..]);
      Halves(t, k, "");
      EraseConcat(t[..k], t[k..]);
      if SENTINEL <= t {
        assert t[..k] == SENTINEL;
        EraseSentinel();
      } else {
        assert t[..1] == [t[0]];
        EraseOne(t[0]);
      }
      Assoc(n.all, Erase(t[..k]), Erase(t[k..]));
      if IsSpace(t[0]) { SentinelSolidStart(t); NilRight(n.all); NilLeft(Erase(t[k..])); }
    }
  }

  lemma EraseNothing()
    ensures Erase("") == ""
  {}

  lemma EraseSentinel()
    ensures Erase(SENTINEL) == SENTINEL
  {
    SentinelSolid();
    EraseSolid(SENTINEL);
  }

  lemma {:induction false} EraseSolid(p: string)
    requires forall c | c in p :: !IsSpace(c)
    ensures Erase(p) == p
    decreases |p|
  {
    if p != "" {
      assert p[0] in p && forall c | c in p[1..] :: c in p;
      assert p == [p[0]] + p[1..];
      EraseSolid(p[1..]);
    }
  }

  lemma SentinelSolidStart(t: string)
    requires t != "" && IsSpace(t[0])
    ensures !(SENTINEL <= t)
  {
    NotMarker(t);
  }

  /** With no bracket to come, the last sentinel stays the last one. */
  lemma {:induction false} ReadAfter(n: Notes, x: string)
    requires n.mark.Some? && '[' !in x && NoOcc(x, SEPARATOR)
    ensures Read(n, x).mark == Some(n.mark.value.(tail := Scan(n.mark.value.tail, x)))
    decreases |x|
  {
    hide Read, NoOcc, IsSpace, Step;
    if x == "" {
      ReadNothing(n);
    } else {
      NoSeparatorDrop(x, 1);
      assert x[0] in x && forall c | c in x[1..] :: c in x;
      assert SENTINEL[0] == '[';
      ReadOn(n, x);
      StepSpace(n.mark.value.tail, x[0]);
      ReadAfter(Take(n, x), x[1..]);
    }
  }

  lemma StepSpace(t: Tail, c: char)
    ensures IsSpace(c) ==> Step(t, c) == Step(t, ' ')
  {}

  /** Where a sentinel is the last one, its text and its stretch are noted. */
  lemma ReadMark(t: string, j: nat)
    requires NoOcc(t, SEPARATOR) && At(t, SENTINEL, j) && '[' !in t[j + |SENTINEL|..]
    ensures Read(BLANK, t).mark ==
      var m := Read(BLANK, t[..j]);
      Some(Mark(Erase(t[..j]), Scan(Lead, t[j + |SENTINEL|..]), m.mark.Some?, Hinge(m.word)))
  {
    hide Read, NoOcc, Erase, Apart, Scan;
    var w, after := t[..j], t[j + |SENTINEL|..];
    AtCut(t, SENTINEL, j);
    Assoc(w, SENTINEL, after);
    SentinelApart(w, after);
    ReadCut(BLANK, w, SENTINEL + after);
    SentinelTaken(Read(BLANK, w), after);
    Halves(t, j, "");
    PrefixFree(w, t[j..], SEPARATOR);
    NoSeparatorDrop(t, j + |SENTINEL|);
    ReadAll(BLANK, w);
    NilLeft(Erase(w));
    ReadAfter(Marked(Read(BLANK, w)), after);
  }

  lemma SentinelTaken(n: Notes, after: string)
    ensures Read(n, SENTINEL + after) == Read(Marked(n), after)
  {
    hide Read, Marked;
    var s := SENTINEL + after;
    assert SENTINEL <= s && s[|SENTINEL|..] == after;
    ReadOn(n, s);
  }

  lemma SentinelApart(w: string, after: string)
    ensures Apart(w, SENTINEL + after)
  {
    var x := SENTINEL + after;
    forall j: nat | j < |w|
      ensures SENTINEL <= (w + x)[j..] ==> j + |SENTINEL| <= |w|
      ensures SEPARATOR <= (w + x)[j..] ==> j + |SEPARATOR| <= |w|
    {
      var s := (w + x)[j..];
      assert s[|w| - j] == x[0] == '[' && s[|w| - j + 1] == x[1] == '[';
      assert '[' !in SEPARATOR;
      NotThrough(s, SEPARATOR, |w| - j);
      NotTwice(s, |w| - j);
    }
  }

  lemma NotTwice(s: string, i: nat)
    requires 0 < i && i + 1 < |s| && s[i] == '[' && s[i + 1] == '['
    ensures SENTINEL <= s ==> |SENTINEL| <= i
  {
    PrefixChar(s, SENTINEL, i);
    PrefixChar(s, SENTINEL, i + 1);
  }

  /** A sentinel is noted only where it is the last one. */
  lemma {:induction false} MarkThere(n: Notes, t: string) returns (j: int)
    requires NoOcc(t, SEPARATOR) && Read(n, t).mark.Some?
    ensures j < 0 ==> n.mark.Some? && '[' !in t
    ensures j >= 0 ==> At(t, SENTINEL, j) && '[' !in t[j + |SENTINEL|..]
    decreases |t|
  {
    hide Read, NoOcc, IsSpace, Step;
    if t == "" {
      ReadNothing(n);
      j := -1;
    } else {
      var k := Pace(t);
      NoSeparatorDrop(t, k);
      ReadOn(n, t);
      j := MarkThere(Take(n, t), t[k..]);
      MarkMoves(n, t, j);
      j := if j >= 0 then j + k else if SENTINEL <= t then 0 else -1;
    }
  }

  lemma MarkMoves(n: Notes, t: string, j: int)
    requires t != "" && !(SEPARATOR <= t)
    requires j < 0 ==> Take(n, t).mark.Some? && '[' !in t[Pace(t)..]
    requires j >= 0 ==> At(t[Pace(t)..], SENTINEL, j) && '[' !in t[Pace(t)..][j + |SENTINEL|..]
    ensures var k := Pace(t);
      if j >= 0 then At(t, SENTINEL, j + k) && '[' !in t[j + k + |SENTINEL|..]
      else if SENTINEL <= t then At(t, SENTINEL, 0) && '[' !in t[|SENTINEL|..]
      else n.mark.Some? && '[' !in t
  {
    var k := Pace(t);
    if j >= 0 {
      Halves(t, k, "");
      AtConcat(t[..k], t[k..], SENTINEL, j + k);
      assert t[k..][j + |SENTINEL|..] == t[j + k + |SENTINEL|..];
    } else if !(SENTINEL <= t) {
      assert t == [t[0]] + t[1..];
    }
  }

  /** The notes of a text without separators: what extraction and the final flush find in it. */
  lemma Interpret(t: string)
    requires NoOcc(t, SEPARATOR)
    ensures var n := Read(BLANK, t);
      && n.all == Erase(t)
      && (n.mark.None? <==> PartialAt(t, 0) < 0)
      && Extract(t).grade == Outcome(n).grade
      && (Final(n) ==> Erase(Extract(t).text) == n.mark.value.before && Extract(t).text <= t)
      && (!Final(n) ==> Extract(t).text == t)
  {
    hide Read, NoOcc, Erase, Scan;
    var n := Read(BLANK, t);
    ReadAll(BLANK, t);
    NilLeft(Erase(t));
    if n.mark.Some? {
      var j := MarkThere(BLANK, t);
      ReadMark(t, j);
      ExtractAt(t, j);
    } else {
      Noted(t);
    }
  }

  /** What extraction or the flush would find is noted. */
  lemma Noted(t: string)
    requires NoOcc(t, SEPARATOR)
    ensures PartialAt(t, 0) >= 0 || SentinelAt(t, 0) >= 0 ==> Read(BLANK, t).mark.Some?
  {
    hide Read, NoOcc;
    if PartialAt(t, 0) >= 0 {
      var j: nat :| At(t, SENTINEL, j) && '[' !in t[j + |SENTINEL|..];
      ReadMark(t, j);
    }
    if SentinelAt(t, 0) >= 0 { ScanRejects(Lead, t[SentinelAt(t, 0) + |SENTINEL|..]); }
  }

  lemma ExtractAt(t: string, j: nat)
    requires At(t, SENTINEL, j) && '[' !in t[j + |SENTINEL|..]
    ensures PartialAt(t, 0) >= 0
    ensures var tail := Scan(Lead, t[j + |SENTINEL|..]);
      if InRange(tail) then
        Extract(t) == Graded(RStrip(t[..j]), Some(NatValue(tail.ds))) && Erase(RStrip(t[..j])) == Erase(t[..j])
        && RStrip(t[..j]) <= t
      else Extract(t) == Graded(t, None)
  {
    hide RStrip, Erase;
    var i := SentinelAt(t, 0);
    if i >= 0 {
      ScanRejects(Lead, t[i + |SENTINEL|..]);
      if i <= j { OnlySentinel(t, i, j); } else { OnlySentinel(t, j, i); }
    }
    EraseRStrip(t[..j]);
    StripPart(t, j);
  }

  lemma StripPart(t: string, j: nat)
    requires j <= |t|
    ensures RStrip(t[..j]) <= t
  {
    assert t[..j] <= t;
  }

  // ----- words -----

  predicate Unspaced(p: string) {
    forall c | c in p :: !IsSpace(c)
  }

  /** The last word of a text without trailing whitespace. */
  predicate LastWord(r: string, word: string) {
    && |word| <= |r| && r[|r| - |word|..] == word && Unspaced(word)
    && (|word| < |r| ==> IsSpace(r[|r| - |word| - 1]))
  }

  predicate Open(p: string) {
    p == "" || IsSpace(p[|p| - 1])
  }

  /** The word noted is the last one of the text. */
  predicate Fits(p: string, n: Notes) {
    LastWord(RStrip(p), n.word) && n.apart == Open(p)
  }

  lemma FitsSpace(p: string, n: Notes, c: char)
    requires Fits(p, n) && IsSpace(c)
    ensures Fits(p + [c], Spaced(n))
  {
    hide IsSpace, LastWord, RStrip, Spaced;
    RStripOne(p, c);
    SpacedWord(n);
    assert (p + [c])[|p + [c]| - 1] == c;
  }

  lemma SpacedWord(n: Notes)
    ensures Spaced(n).word == n.word && Spaced(n).apart
  {}

  lemma RStripOne(p: string, c: char)
    requires IsSpace(c)
    ensures RStrip(p + [c]) == RStrip(p)
  {
    hide IsSpace, AllSpace;
    var s := p + [c];
    assert s[|s| - 1] == c && s[..|s| - 1] == p;
  }

  lemma RStripSolid(s: string)
    requires s != "" && !IsSpace(s[|s| - 1])
    ensures RStrip(s) == s
  {}

  lemma FitsWord(p: string, n: Notes, q: string, n': Notes)
    requires Fits(p, n) && q != "" && Unspaced(q) && n'.word == Grown(n, q) && !n'.apart
    ensures Fits(p + q, n')
  {
    hide IsSpace, RStrip;
    var s := p + q;
    assert s[|s| - 1] == q[|q| - 1] && q[|q| - 1] in q;
    RStripSolid(s);
    if n.apart {
      assert s[|s| - |q|..] == q;
    } else {
      RStripSolid(p);
      assert s[|s| - |n'.word|..] == p[|p| - |n.word|..] + q;
    }
  }

  lemma {:induction false} FitsOn(p: string, n: Notes, t: string)
    requires Fits(p, n) && NoOcc(t, SEPARATOR)
    ensures Fits(p + t, Read(n, t))
    decreases |t|
  {
    hide Fits, Read, NoOcc, IsSpace, Spaced, Stepped, Hinge, InRange;
    if t == "" {
      NilRight(p);
      ReadNothing(n);
    } else {
      var k := Pace(t);
      NoSeparatorDrop(t, k);
      ReadOn(n, t);
      FitsStep(p, n, t);
      FitsOn(p + t[..k], Take(n, t), t[k..]);
      Halves(t, k, "");
      Assoc(p, t[..k], t[k..]);
    }
  }

  lemma FitsStep(p: string, n: Notes, t: string)
    requires Fits(p, n) && t != "" && !(SEPARATOR <= t)
    ensures Fits(p + t[..Pace(t)], Take(n, t))
  {
    hide Fits, IsSpace, Spaced, Stepped, Hinge, InRange;
    if SENTINEL <= t {
      assert t[..Pace(t)] == SENTINEL;
      SentinelSolid();
      FitsWord(p, n, SENTINEL, Marked(n));
    } else {
      assert t[..1] == [t[0]];
      if IsSpace(t[0]) { FitsSpace(p, n, t[0]); } else { FitsWord(p, n, [t[0]], Added(n, t[0])); }
    }
  }

  lemma FitsHinge(p: string, n: Notes)
    requires Fits(p, n)
    ensures Hinge(n.word) <==> Hinge(RStrip(p))
  {
    hide IsSpace, RStrip;
    var r, k := RStrip(p), |SEPARATOR| - 1;
    if k <= |n.word| {
      assert r[|r| - k..] == n.word[|n.word| - k..];
    } else if k <= |r| {
      var i := k - |n.word| - 1;
      MarkerChars();
      assert r[|r| - k..][i] == r[|r| - |n.word| - 1];
      assert SEPARATOR[..k][i] == SEPARATOR[i] && SEPARATOR[i] in SEPARATOR;
    }
  }

  /** A hinge is noted where the stripped text ends in one. */
  lemma HingeNoted(t: string)
    requires NoOcc(t, SEPARATOR)
    ensures Hinge(Read(BLANK, t).word) <==> Hinge(RStrip(t))
  {
    hide Read, NoOcc, Fits, RStrip, Hinge;
    FitsNothing();
    NilLeft(t);
    FitsOn("", BLANK, t);
    FitsHinge(t, Read(BLANK, t));
  }

  lemma FitsNothing()
    ensures Fits("", BLANK)
  {}

  /** What is in progress in the text before an extracted sentinel, and how that text ends. */
  lemma MarkMeans(t: string)
    requires NoOcc(t, SEPARATOR) && Final(Read(BLANK, t))
    ensures var m, u := Read(BLANK, t).mark.value, Extract(t).text;
      && (m.stale <==> PartialAt(u, 0) >= 0) && (m.hinged <==> Hinge(u)) && NoOcc(u, SEPARATOR)
      && (!Read(BLANK, t).broken ==> !Read(BLANK, u).broken)
  {
    hide Read, NoOcc, Erase, Scan, RStrip, Hinge;
    var j := MarkThere(BLANK, t);
    ReadMark(t, j);
    ExtractAt(t, j);
    var w := t[..j];
    Halves(t, j, "");
    PrefixFree(w, t[j..], SEPARATOR);
    RStripFree(w, SEPARATOR);
    StripNotes(w);
    HingeNoted(w);
    Interpret(RStrip(w));
    Halves(t, j, "");
    BrokenStays(t, j);
  }

  /** What came too late once stays so. */
  lemma {:induction false} BrokenOn(n: Notes, s: string)
    requires n.broken
    ensures Read(n, s).broken
    decreases |s|
  {
    hide Step, IsSpace, InRange, Hinge;
    if s != "" { BrokenOn(Take(n, s), s[Pace(s)..]); }
  }

  lemma BrokenStays(t: string, j: nat)
    requires At(t, SENTINEL, j)
    ensures Read(BLANK, t[..j]).broken ==> Read(BLANK, t).broken
  {
    hide Read, Apart;
    var w, after := t[..j], t[j + |SENTINEL|..];
    AtCut(t, SENTINEL, j);
    Assoc(w, SENTINEL, after);
    SentinelApart(w, after);
    ReadCut(BLANK, w, SENTINEL + after);
    if Read(BLANK, w).broken { BrokenOn(Read(BLANK, w), SENTINEL + after); }
  }

  lemma StripNotes(w: string)
    ensures Read(BLANK, w).mark.Some? <==> Read(BLANK, RStrip(w)).mark.Some?
    ensures Read(BLANK, w).broken == Read(BLANK, RStrip(w)).broken
  {
    hide Read, RStrip, AllSpace, Apart;
    var u := RStrip(w);
    var ws := w[|u|..];
    RStripSplit(w);
    TrailApart(u, ws);
    ReadCut(BLANK, u, ws);
    NilRight(ws);
    ReadSpaces(Read(BLANK, u), ws, "");
    ReadNothing(if ws == "" then Read(BLANK, u) else Spaced(Read(BLANK, u)));
  }
}
