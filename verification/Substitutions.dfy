/** How the substitutions cut a text, and which markers they cannot create. */
module Substitutions {
  import opened Text
  import opened StreamFilter

  lemma PrefixOfConcat(p: string, w: string, x: string)
    ensures |p| <= |w| ==> (p <= w + x <==> p <= w)
    ensures |w| < |p| && p <= w + x ==> x != "" && x[0] == p[|w|]
  {
    if |w| < |p| && p <= w + x {
      assert (w + x)[|w|] == p[|w|];
    }
  }

  predicate OneLine(q: string) {
    forall k | 0 <= k < |q| :: q[k] != '\n'
  }

  lemma {:induction false} OneLineUnchanged(s: string)
    requires OneLine(s)
    ensures RoleSub(s, false) == s && Collapse(s) == s
    decreases |s|
  {
    if Find(s, EXCESS) >= 0 { AtChar(s, EXCESS, Find(s, EXCESS), 0); }
    if s != "" {
      OneLineUnchanged(s[1..]);
    }
  }

  /** Whitespace and whole separators. */
  predicate Soaked(run: string)
    decreases |run|
  {
    run == "" || if SEPARATOR <= run then Soaked(run[|SEPARATOR|..]) else IsSpace(run[0]) && Soaked(run[1..])
  }

  lemma FindPrefix(s: string, r: string, p: string)
    requires Find(s, p) >= 0
    ensures Find(s + r, p) == Find(s, p)
  {
    var i := Find(s, p);
    forall j: nat | j <= i ensures At(s + r, p, j) <==> At(s, p, j) { AtConcat(s, r, p, j); }
  }

  /** How `SepSub` cuts a text at its first separator. */
  lemma SepSubParts(b: string) returns (w: string, y: string)
    requires Find(b, SEPARATOR) >= 0
    ensures b == w + SEPARATOR + y && |w| == Find(b, SEPARATOR)
    ensures SepSub(b) == RStrip(w) + "\n" + SepSub(LStrip(y))
  {
    hide LStrip, RStrip, NoOcc, IsSpace, AllSpace;
    var i := Find(b, SEPARATOR);
    w, y := b[..i], b[i + |SEPARATOR|..];
    AtCut(b, SEPARATOR, i);
    SepSubUnfold(b);
  }

  lemma NoSepSub(b: string)
    requires Find(b, SEPARATOR) < 0
    ensures SepSub(b) == b
  {}

  lemma SepSubUnfold(b: string)
    requires Find(b, SEPARATOR) >= 0
    ensures var i := Find(b, SEPARATOR); SepSub(b) == RStrip(b[..i]) + "\n" + SepSub(LStrip(b[i + |SEPARATOR|..]))
  {
    hide LStrip, RStrip, Find, NoOcc, IsSpace, AllSpace;
  }

  /** How `SepSub` goes on behind a first separator. */
  lemma SepSubAt(w: string, y: string)
    requires Find(w + (SEPARATOR + y), SEPARATOR) == |w|
    ensures SepSub(w + (SEPARATOR + y)) == RStrip(w) + "\n" + SepSub(LStrip(y))
  {
    hide SepSub, LStrip, RStrip, Find, IsSpace, AllSpace;
    var b := w + (SEPARATOR + y);
    SepSubUnfold(b);
    assert b[..|w|] == w && b[|w| + |SEPARATOR|..] == y;
  }

  /** How `Collapse` cuts a text with a long run of newlines. */
  lemma CollapseParts(b: string) returns (w: string, run: string, z: string)
    requires Find(b, EXCESS) >= 0
    ensures |z| < |b| && run != "" && OnlyNewlines(run) && AllSpace(run)
    ensures b == w + run + z && |w| == Find(b, EXCESS)
    ensures Collapse(b) == w + PARAGRAPH + Collapse(z)
  {
    hide DropNewlines, NoOcc, AllSpace;
    w, z := b[..Find(b, EXCESS)], DropNewlines(b[Find(b, EXCESS) + |EXCESS|..]);
    run := NewlineRun(b);
    CollapseUnfold(b);
  }

  lemma NoCollapse(t: string)
    requires Find(t, EXCESS) < 0
    ensures Collapse(t) == t
  {}

  lemma CollapseUnfold(b: string)
    requires Find(b, EXCESS) >= 0
    ensures Collapse(b) == b[..Find(b, EXCESS)] + PARAGRAPH + Collapse(DropNewlines(b[Find(b, EXCESS) + |EXCESS|..]))
  {
    hide DropNewlines, Find;
  }

  lemma NewlineRun(b: string) returns (run: string)
    requires Find(b, EXCESS) >= 0
    ensures run != "" && OnlyNewlines(run) && AllSpace(run)
    ensures b == b[..Find(b, EXCESS)] + run + DropNewlines(b[Find(b, EXCESS) + |EXCESS|..])
  {
    hide Find, DropNewlines, OnlyNewlines, AllSpace, NoOcc;
    var i := Find(b, EXCESS);
    var y := b[i + |EXCESS|..];
    var more := NewlineParts(y);
    run := EXCESS + more;
    Glue(b, i, more, DropNewlines(y));
  }

  lemma Glue(b: string, i: nat, more: string, z: string)
    requires At(b, EXCESS, i) && b[i + |EXCESS|..] == more + z && OnlyNewlines(more)
    ensures OnlyNewlines(EXCESS + more) && AllSpace(EXCESS + more)
    ensures b == b[..i] + (EXCESS + more) + z
  {
    AtCut(b, EXCESS, i);
    Assoc4(b[..i], EXCESS, more, z);
    Assoc(b[..i], EXCESS, more);
  }

  predicate OnlyNewlines(s: string) {
    forall c | c in s :: c == '\n'
  }

  lemma {:induction false} NewlineParts(y: string) returns (more: string)
    ensures y == more + DropNewlines(y) && OnlyNewlines(more)
    decreases |y|
  {
    if y != "" && y[0] == '\n' {
      var rest := NewlineParts(y[1..]);
      more := "\n" + rest;
      assert y == "\n" + y[1..];
      Assoc("\n", rest, DropNewlines(y));
    } else {
      more := "";
      NilLeft(y);
    }
  }

  lemma AtCut(s: string, p: string, i: nat)
    requires At(s, p, i)
    ensures s == s[..i] + p + s[i + |p|..]
  {}

  predicate Solid(p: string) {
    p != "" && forall c | c in p :: !IsSpace(c)
  }

  ghost predicate RoleFree(s: string) {
    NoOcc(s, USER) && NoOcc(s, ASSISTANT)
  }

  lemma {:induction false} RoleFreeUnchanged(s: string, lineStart: bool)
    requires RoleFree(s)
    ensures RoleSub(s, lineStart) == s
    decreases |s|
  {
    if s != "" {
      var j := BlankPrefix(s);
      assert USER <= s[j..] ==> At(s, USER, j);
      assert ASSISTANT <= s[j..] ==> At(s, ASSISTANT, j);
      assert s == [s[0]] + s[1..];
      SuffixFree([s[0]], s[1..], USER);
      SuffixFree([s[0]], s[1..], ASSISTANT);
      RoleFreeUnchanged(s[1..], s[0] == '\n');
    }
  }

  lemma SuffixFree(x: string, y: string, p: string)
    requires NoOcc(x + y, p)
    ensures NoOcc(y, p)
  {
    assert x + y + "" == x + y;
    NoOccPart(x, y, "", p);
  }

  lemma PrefixFree(x: string, y: string, p: string)
    requires NoOcc(x + y, p)
    ensures NoOcc(x, p)
  {
    NilLeft(x);
    NoOccPart("", x, y, p);
  }

  lemma NewlineJoin(x: string, y: string, p: string)
    requires Solid(p) && NoOcc(x, p) && NoOcc(y, p)
    ensures NoOcc(x + "\n" + y, p)
  {
    NoOccCut(x, '\n', y, p);
  }

  lemma RStripFree(w: string, p: string)
    requires NoOcc(w, p)
    ensures NoOcc(RStrip(w), p)
  {
    RStripSplit(w);
    PrefixFree(RStrip(w), w[|RStrip(w)|..], p);
  }

  lemma LStripFree(y: string, r: string, p: string)
    requires NoOcc(y + r, p)
    ensures NoOcc(LStrip(y) + r, p)
  {
    var lead := y[..|y| - |LStrip(y)|];
    Halves(y, |y| - |LStrip(y)|, r);
    SuffixFree(lead, LStrip(y) + r, p);
  }

  lemma StripFree(w: string, y: string, r: string, p: string)
    requires NoOcc(w + SEPARATOR + y + r, p)
    ensures NoOcc(RStrip(w), p) && NoOcc(LStrip(y) + r, p)
  {
    Assoc4(w, SEPARATOR, y, r);
    PrefixFree(w, SEPARATOR + y + r, p);
    RStripFree(w, p);
    SuffixFree(w + SEPARATOR, y + r, p);
    LStripFree(y, r, p);
  }

  lemma NewlineJoin3(x: string, y: string, r: string, p: string)
    requires Solid(p) && NoOcc(x, p) && NoOcc(y + r, p)
    ensures NoOcc(x + "\n" + y + r, p)
  {
    NewlineJoin(x, y + r, p);
    Assoc4(x, "\n", y, r);
  }

  lemma {:induction false} SepSubFree(b: string, r: string, p: string)
    requires Solid(p) && NoOcc(b + r, p)
    ensures NoOcc(SepSub(b) + r, p)
    decreases |b|
  {
    if Find(b, SEPARATOR) >= 0 {
      var w, y := SepSubParts(b);
      StripFree(w, y, r, p);
      SepSubFree(LStrip(y), r, p);
      NewlineJoin3(RStrip(w), SepSub(LStrip(y)), r, p);
    }
  }

  lemma BeforeFirst(w: string, x: string, p: string)
    requires Find(w + x, p) == |w| && p != ""
    ensures NoOcc(w, p)
  {
    forall i: nat ensures !At(w, p, i) { AtConcat(w, x, p, i); }
  }

  lemma FirstSeparator(w: string, y: string)
    requires Find(w + SEPARATOR + y, SEPARATOR) == |w|
    ensures NoOcc(RStrip(w), SEPARATOR)
  {
    Assoc(w, SEPARATOR, y);
    BeforeFirst(w, SEPARATOR + y, SEPARATOR);
    RStripFree(w, SEPARATOR);
  }

  lemma {:induction false} SepSubComplete(b: string, p: string)
    requires p == SEPARATOR && Solid(p)
    ensures NoOcc(SepSub(b), p)
    decreases |b|
  {
    if Find(b, SEPARATOR) >= 0 {
      var w, y := SepSubParts(b);
      SepSubComplete(LStrip(y), p);
      FirstSeparator(w, y);
      NewlineJoin(RStrip(w), SepSub(LStrip(y)), p);
    }
  }

  lemma RunFree(w: string, run: string, z: string, r: string, p: string)
    requires NoOcc(w + run + z + r, p)
    ensures NoOcc(w, p) && NoOcc(z + r, p)
  {
    Assoc4(w, run, z, r);
    PrefixFree(w, run + z + r, p);
    SuffixFree(w + run, z + r, p);
  }

  lemma ParagraphJoin(w: string, z: string, r: string, p: string)
    requires Solid(p) && NoOcc(w, p) && NoOcc(z + r, p)
    ensures NoOcc(w + PARAGRAPH + z + r, p)
  {
    var y := "" + "\n" + (z + r);
    NewlineJoin("", z + r, p);
    NewlineJoin(w, y, p);
    assert w + PARAGRAPH + z + r == w + "\n" + y;
  }

  lemma {:induction false} CollapseFree(b: string, r: string, p: string)
    requires Solid(p) && NoOcc(b + r, p)
    ensures NoOcc(Collapse(b) + r, p)
    decreases |b|
  {
    if Find(b, EXCESS) >= 0 {
      var w, run, z := CollapseParts(b);
      RunFree(w, run, z, r, p);
      CollapseFree(z, r, p);
      ParagraphJoin(w, Collapse(z), r, p);
    }
  }

  // ----- role markers go at line starts only -----

  /** Within a line nothing is removed. */
  lemma {:induction false} RoleSubAlong(p: string, x: string)
    requires OneLine(p)
    ensures RoleSub(p + x, false) == p + RoleSub(x, false)
    decreases |p|
  {
    if p == "" {
      NilLeft(x);
      NilLeft(RoleSub(x, false));
    } else {
      Drop(p, x, 1);
      RoleSubAlong(p[1..], x);
      Halves(p, 1, RoleSub(x, false));
      assert p[..1] == [p[0]];
    }
  }

  /** What stands before the first line break afterwards stood there before. */
  lemma {:induction false} RoleSubHead(x: string, p: string)
    requires p <= RoleSub(x, false) && OneLine(p)
    ensures p <= x
    decreases |p|
  {
    if p != "" {
      var r := RoleSub(x[1..], x[0] == '\n');
      assert RoleSub(x, false) == [x[0]] + r && p[0] == x[0];
      assert p[1..] <= r && OneLine(p[1..]);
      RoleSubHead(x[1..], p[1..]);
      assert p == [p[0]] + p[1..] && x == [x[0]] + x[1..];
    }
  }

  lemma {:induction false} OneLineKept(x: string)
    requires OneLine(RoleSub(x, false))
    ensures RoleSub(x, false) == x
    decreases |x|
  {
    if x != "" {
      var r := RoleSub(x[1..], x[0] == '\n');
      assert RoleSub(x, false) == [x[0]] + r;
      assert ([x[0]] + r)[0] == x[0];
      forall k | 0 <= k < |r| ensures r[k] != '\n' { assert r[k] == ([x[0]] + r)[k + 1]; }
      OneLineKept(x[1..]);
    }
  }

  /** A text of one line starts what remains of `s`, followed by `r`, exactly when it starts `s` itself. */
  lemma KeepsHead(s: string, r: string, p: string)
    requires s != "" && OneLine(p) && p != ""
    ensures p <= [s[0]] + RoleSub(s[1..], s[0] == '\n') + r <==> p <= s + r
  {
    var kept := RoleSub(s, false);
    assert kept == [s[0]] + RoleSub(s[1..], s[0] == '\n');
    hide RoleSub;
    if p <= kept + r { HeadBack(s, r, p); }
    if p <= s + r { HeadOn(s, r, p); }
  }

  lemma HeadBack(s: string, r: string, p: string)
    requires OneLine(p) && p <= RoleSub(s, false) + r
    ensures p <= s + r
  {
    var kept := RoleSub(s, false);
    if |p| <= |kept| {
      assert p <= kept;
      RoleSubHead(s, p);
    } else {
      forall k | 0 <= k < |kept| ensures kept[k] != '\n' { assert p[k] == (kept + r)[k]; }
      OneLineKept(s);
    }
  }

  lemma HeadOn(s: string, r: string, p: string)
    requires OneLine(p) && p <= s + r
    ensures p <= RoleSub(s, false) + r
  {
    if |p| <= |s| {
      assert p <= s && s == p + s[|p|..];
      RoleSubAlong(p, s[|p|..]);
    } else {
      forall k | 0 <= k < |s| ensures s[k] != '\n' { assert p[k] == (s + r)[k]; }
      OneLineUnchanged(s);
    }
  }

  /** Removing role markers brings nothing of one line together. */
  lemma {:induction false} RoleSubFree(s: string, lineStart: bool, p: string)
    requires OneLine(p) && p != "" && NoOcc(s, p)
    ensures NoOcc(RoleSub(s, lineStart), p)
    decreases |s|
  {
    if s != "" {
      var m := if lineStart then RoleLen(s) else 0;
      var n := if m > 0 then m else 1;
      Halves(s, n, "");
      SuffixFree(s[..n], s[n..], p);
      if m > 0 {
        RoleSubFree(s[m..], s[m - 1] == '\n', p);
      } else {
        RoleSubFree(s[1..], s[0] == '\n', p);
        NilRight(s);
        NilRight(RoleSub(s, lineStart));
        KeepsHead(s, "", p);
        assert !(p <= s) by { assert !At(s, p, 0); }
        OneMore(s[0], RoleSub(s[1..], s[0] == '\n'), p);
      }
    }
  }

  lemma OneMore(c: char, x: string, p: string)
    requires NoOcc(x, p) && !(p <= [c] + x)
    ensures NoOcc([c] + x, p)
  {
    forall i: nat
      ensures !At([c] + x, p, i)
    {
      if i > 0 { AtConcat([c], x, p, i); }
    }
  }

  /** At the end of a kept line something may start anew. */
  predicate Ended(x: string, lineStart: bool) {
    if x == "" then lineStart else x[|x| - 1] == '\n'
  }

  /** Across a line break, either both sides are cleaned apart, or the first one ended in a
      removed marker that took the line break and the whitespace after it along. */
  lemma {:induction false} RoleSubJoin(u: string, z: string, lineStart: bool) returns (ate: bool)
    requires u == "" || !IsSpace(u[|u| - 1])
    requires LeadNewlines(z)
    ensures RoleSub(u + ("\n" + z), lineStart) == RoleSub(u, lineStart) + Rest(z, ate)
    ensures ate ==> Ended(RoleSub(u, lineStart), lineStart)
    decreases |u|
  {
    hide RoleLen, LStrip, IsSpace, LeadNewlines, Rest;
    if u == "" {
      ate := false;
      NilLeft("\n" + z);
      NewlineFirst(z, lineStart);
      NilLeft(Rest(z, false));
    } else if lineStart && RoleLen(u) == |u| {
      ate := true;
      MarkerBeforeBreak(u, z);
      WholeMarker(u);
      NilLeft(Rest(z, true));
    } else {
      var m := if lineStart then RoleLen(u) else 0;
      var n := if m > 0 then m else 1;
      LineBefore(u, z);
      if m > 0 { MarkerInside(u, z); }
      ate := RoleSubJoin(u[n..], z, u[n - 1] == '\n');
      RoleSubStep(u, z, lineStart, n);
      EndedStep(if m > 0 then "" else [u[0]], RoleSub(u[n..], u[n - 1] == '\n'), u[n - 1] == '\n', lineStart);
      Assoc(if m > 0 then "" else [u[0]], RoleSub(u[n..], u[n - 1] == '\n'), Rest(z, ate));
    }
  }

  lemma EndedStep(head: string, x: string, f: bool, lineStart: bool)
    requires if head == "" then lineStart else |head| == 1 && f == (head[0] == '\n')
    ensures Ended(x, f) ==> Ended(head + x, lineStart)
  {
    if x == "" { NilRight(head); }
  }

  /** What a line break and the text after it leave. */
  function Rest(z: string, ate: bool): string {
    if ate then RoleSub(LStrip(z), true) else "\n" + RoleSub(z, true)
  }

  /** One step of the removal. */
  lemma Unfold(s: string, lineStart: bool)
    requires s != ""
    ensures var m := if lineStart then RoleLen(s) else 0; var n := if m > 0 then m else 1;
      RoleSub(s, lineStart) == (if m > 0 then "" else [s[0]]) + RoleSub(s[n..], s[n - 1] == '\n')
  {
    hide RoleLen;
    var m := if lineStart then RoleLen(s) else 0;
    if m > 0 { NilLeft(RoleSub(s[m..], s[m - 1] == '\n')); }
  }

  lemma RoleSubStep(u: string, z: string, lineStart: bool, n: nat)
    requires u != "" && 0 < n <= |u|
    requires var m := if lineStart then RoleLen(u) else 0; n == if m > 0 then m else 1
    requires RoleLen(u + ("\n" + z)) > 0 <==> RoleLen(u) > 0
    requires lineStart && RoleLen(u) > 0 ==> RoleLen(u + ("\n" + z)) == RoleLen(u)
    ensures var s, f := u + ("\n" + z), u[n - 1] == '\n';
      var head := if lineStart && RoleLen(u) > 0 then "" else [u[0]];
      RoleSub(s, lineStart) == head + RoleSub(u[n..] + ("\n" + z), f) && RoleSub(u, lineStart) == head + RoleSub(u[n..], f)
  {
    hide RoleLen, RoleSub;
    var s := u + ("\n" + z);
    Unfold(u, lineStart);
    Unfold(s, lineStart);
    Drop(u, "\n" + z, n);
    assert s[n - 1] == u[n - 1];
  }

  /** Leading whitespace consists of line breaks. */
  predicate LeadNewlines(z: string) {
    OnlyNewlines(z[..|z| - |LStrip(z)|])
  }

  lemma NewlineFirst(z: string, lineStart: bool)
    ensures RoleSub("\n" + z, lineStart) == Rest(z, false)
  {
    var s := "\n" + z;
    assert s[1..] == z;
    NewlineNoMarker(s);
    hide RoleLen;
    Unfold(s, lineStart);
  }

  lemma NewlineNoMarker(s: string)
    requires s != "" && s[0] == '\n'
    ensures RoleLen(s) == 0
  {
    assert s[0..] == s;
    MarkerChars();
  }

  /** The marker test looks at the line only. */
  lemma LineBefore(u: string, z: string)
    requires u != "" && !IsSpace(u[|u| - 1])
    ensures BlankPrefix(u + ("\n" + z)) == BlankPrefix(u) < |u|
    ensures MarkerLen((u + ("\n" + z))[BlankPrefix(u)..]) == MarkerLen(u[BlankPrefix(u)..])
    ensures RoleLen(u + ("\n" + z)) > 0 <==> RoleLen(u) > 0
  {
    Blanks(u, "\n" + z);
    var j := BlankPrefix(u);
    Drop(u, "\n" + z, j);
    hide BlankPrefix, LStrip, IsSpace;
    MarkerLenBreak(u[j..], z);
  }

  lemma MarkerLenBreak(x: string, z: string)
    ensures MarkerLen(x + ("\n" + z)) == MarkerLen(x)
  {
    PrefixOfConcat(USER, x, "\n" + z);
    PrefixOfConcat(ASSISTANT, x, "\n" + z);
    MarkerChars();
  }

  lemma MarkerChars()
    ensures OneLine(USER) && OneLine(ASSISTANT) && OneLine(SEPARATOR)
    ensures Solid(USER) && Solid(ASSISTANT) && Solid(SEPARATOR)
  {}

  lemma {:induction false} Blanks(u: string, x: string)
    requires u != "" && !IsSpace(u[|u| - 1])
    ensures BlankPrefix(u + x) == BlankPrefix(u) < |u|
    decreases |u|
  {
    Drop(u, x, 1);
    if u[0] == ' ' || u[0] == '\t' { Blanks(u[1..], x); }
  }

  lemma {:induction false} LStripConcat(a: string, x: string)
    ensures LStrip(a + x) == if LStrip(a) != "" then LStrip(a) + x else LStrip(x)
    decreases |a|
  {
    hide IsSpace, AllSpace;
    if a == "" {
      NilLeft(x);
    } else {
      Drop(a, x, 1);
      LStripConcat(a[1..], x);
    }
  }

  /** Only whitespace strips to nothing. */
  lemma {:induction false} LStripEmpty(a: string)
    requires a == "" || !IsSpace(a[|a| - 1])
    ensures LStrip(a) == "" ==> a == ""
    decreases |a|
  {
    if |a| > 1 { LStripEmpty(a[1..]); }
  }

  lemma TailLast(u: string, k: nat)
    requires k <= |u| && u != "" && !IsSpace(u[|u| - 1])
    ensures u[k..] == "" || !IsSpace(u[k..][|u[k..]| - 1])
  {}

  lemma MarkerInside(u: string, z: string)
    requires u != "" && !IsSpace(u[|u| - 1]) && 0 < RoleLen(u) < |u|
    ensures RoleLen(u + ("\n" + z)) == RoleLen(u)
  {
    LineBefore(u, z);
    var k := BlankPrefix(u) + MarkerLen(u[BlankPrefix(u)..]);
    assert RoleLen(u) == |u| - |LStrip(u[k..])|;
    Drop(u, "\n" + z, k);
    LStripConcat(u[k..], "\n" + z);
    hide MarkerLen, LStrip, BlankPrefix, IsSpace;
  }

  lemma MarkerBeforeBreak(u: string, z: string)
    requires u != "" && !IsSpace(u[|u| - 1]) && RoleLen(u) == |u| && LeadNewlines(z)
    ensures RoleSub(u + ("\n" + z), true) == Rest(z, true)
  {
    hide RoleLen, LStrip, IsSpace, LeadNewlines, RoleSub, AllSpace;
    MarkerEats(u, z);
    var s := u + ("\n" + z);
    BehindBreak(u, z);
    Removed(s);
  }

  lemma WholeMarker(u: string)
    requires u != "" && RoleLen(u) == |u|
    ensures RoleSub(u, true) == ""
  {
    hide RoleLen, RoleSub;
    Removed(u);
    assert u[|u|..] == "";
    NothingToRemove(u[|u| - 1] == '\n');
  }

  lemma NothingToRemove(lineStart: bool)
    ensures RoleSub("", lineStart) == ""
  {}

  lemma Removed(s: string)
    requires RoleLen(s) > 0
    ensures RoleSub(s, true) == RoleSub(s[RoleLen(s)..], s[RoleLen(s) - 1] == '\n')
  {
    hide RoleLen;
  }

  lemma MarkerEats(u: string, z: string)
    requires u != "" && !IsSpace(u[|u| - 1]) && RoleLen(u) == |u|
    ensures RoleLen(u + ("\n" + z)) == |u| + 1 + |z| - |LStrip(z)|
  {
    var x := "\n" + z;
    LineBefore(u, z);
    var k := BlankPrefix(u) + MarkerLen(u[BlankPrefix(u)..]);
    TailLast(u, k);
    LStripEmpty(u[k..]);
    Drop(u, x, k);
    NilLeft(x);
    LStripNewline(z);
    hide MarkerLen, LStrip, BlankPrefix, IsSpace;
  }

  lemma LStripNewline(z: string)
    ensures LStrip("\n" + z) == LStrip(z)
  {
    var s := "\n" + z;
    assert s[1..] == z && IsSpace(s[0]);
    hide IsSpace, AllSpace;
    assert LStrip(s) == LStrip(s[1..]);
  }

  lemma BehindBreak(u: string, z: string)
    requires LeadNewlines(z)
    ensures var s, n := u + ("\n" + z), |LStrip(z)|; s[|s| - n..] == LStrip(z) && s[|s| - n - 1] == '\n'
  {
    hide LStrip, IsSpace, AllSpace;
    var s, n := u + ("\n" + z), |LStrip(z)|;
    assert s == (u + "\n") + z;
    assert s[|s| - n..] == z[|z| - n..];
    if n < |z| { assert z[..|z| - n][|z| - n - 1] in z[..|z| - n]; }
  }
}
