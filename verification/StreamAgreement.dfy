/** Why the streamed answer agrees with the batch answer, however the text was cut. */
module StreamAgreement {
  import opened Text
  import opened StreamFilter
  import opened Substitutions
  import opened RoleMarkers
  import opened Cleaning
  import opened Reading

  /** Everything the substitutions keep of a text `b` followed by `r`. */
  lemma SubstituteKeeps(grading: bool, b: string, r: string)
    requires Settled(View(grading, b + r))
    ensures View(grading, Substitute(b) + r) == View(grading, b + r) && NoOcc(Substitute(b), SEPARATOR)
    ensures Clean(Fresh, b + r, true) ==> Clean(Fresh, Substitute(b) + r, true) && Bare(Substitute(b), true)
  {
    hide View, Clean, Bare, SepSub, RoleSub, Collapse, NoOcc;
    var s, t := SepSub(b), Roleless(b);
    MarkerChars();
    ViewSepSub(grading, b, r);
    SepSubComplete(b, SEPARATOR);
    ViewRoleSub(grading, s, r, true);
    RoleSubFree(s, true, SEPARATOR);
    ViewCollapse(grading, t, r);
    NilRight(t);
    NilRight(Substitute(b));
    CollapseFree(t, "", SEPARATOR);
    if Clean(Fresh, b + r, true) { SubstituteClean(b, r); }
  }

  // ----- the sentinel -----

  /** A role marker in bare text ends it. */
  lemma BareAt(t: string, k: nat)
    requires Bare(t, true) && k < |t|
    ensures MarkerLen(t[k..]) > 0 ==> k + MarkerLen(t[k..]) == |t|
  {
    BareSuffix(t, k, true);
    hide MarkerLen;
  }

  /** Substituted text: no separator, and no role marker but one at its very end. */
  ghost predicate Substituted(t: string) {
    NoOcc(t, SEPARATOR) && Bare(t, true)
  }

  /** A token of a substituted text and what follows it reaches the end of that text. */
  lemma TokenEnds(t: string, r: string, k: nat)
    requires Substituted(t) && k < |t| && Token((t + r)[k..]) > 0
    ensures |t| <= k + Token((t + r)[k..])
  {
    hide Bare;
    Drop(t, r, k);
    if k + Token((t + r)[k..]) <= |t| {
      Shared(t[k..], r);
      NoSeparatorDrop(t, k);
      NoSeparatorDrop(t[k..], 0);
      BareAt(t, k);
    }
  }

  lemma OutsideAhead(s: string, i: nat)
    requires i < |s| && Outside(s[i])
    ensures Token(s) <= i
  {
    hide Token, Outside;
    if i < Token(s) { TokenChars(s, i); }
  }

  /** No token starts before an opening bracket. */
  lemma NoTokenAhead(t: string, r: string, k: nat, j: nat)
    requires Substituted(t) && k < j < |t| && t[j] == '['
    ensures Token((t + r)[k..]) == 0
  {
    assert Outside('[');
    hide Token, Outside, Substituted;
    assert (t + r)[k..][j - k] == '[';
    OutsideAhead((t + r)[k..], j - k);
    if Token((t + r)[k..]) > 0 { TokenEnds(t, r, k); }
  }

  /** The first sentinel prefix of separator-free text ends what is visible. */
  lemma SentinelInside(t: string, r: string)
    requires NoOcc(t, SEPARATOR) && Bare(t, true) && Find(t, SENTINEL) >= 0
    ensures var j := Find(t, SENTINEL);
      View(true, t + r) == Seen(Erase(t[..j]), Some(Scan(Lead, t[j + |SENTINEL|..] + r)))
  {
    var j := Find(t, SENTINEL);
    var w, x := t[..j], t[j..] + r;
    Halves(t, j, r);
    AtChar(t, SENTINEL, j, 0);
    hide Token, View, Bare, NoOcc, Find;
    forall k: nat | k < j
      ensures Token((w + x)[k..]) == 0 && !(SENTINEL <= (w + x)[k..])
    {
      NoTokenAhead(t, r, k, j);
      AtConcat(t, r, SENTINEL, k);
      PrefixAt(t + r, SENTINEL, k);
    }
    SentinelFirst(t, r, j);
    SeenThrough(w, x);
  }

  lemma PrefixAt(s: string, p: string, k: nat)
    requires k <= |s|
    ensures p <= s[k..] <==> At(s, p, k)
  {}

  lemma SeenThrough(w: string, x: string)
    requires Plain(true, w, x) && View(true, x).text == ""
    ensures View(true, w + x) == Seen(Erase(w), View(true, x).tail)
  {
    ViewPlain(true, w, x);
    NilRight(Erase(w));
  }

  lemma SentinelFirst(t: string, r: string, j: nat)
    requires At(t, SENTINEL, j)
    ensures View(true, t[j..] + r) == Seen("", Some(Scan(Lead, t[j + |SENTINEL|..] + r)))
  {
    AtCut(t, SENTINEL, j);
    assert t[j..] + r == SENTINEL + (t[j + |SENTINEL|..] + r);
    assert (t[j..] + r)[|SENTINEL|..] == t[j + |SENTINEL|..] + r;
  }

  lemma BracketIn(t: string, n: nat, k: nat)
    requires At(t, SENTINEL, k) && n <= k
    ensures '[' in t[n..]
  {
    AtChar(t, SENTINEL, k, 0);
    assert t[n..][k - n] == '[';
  }

  /** A sentinel prefix with no bracket after it is the last one. */
  lemma OnlySentinel(t: string, j: nat, k: nat)
    requires At(t, SENTINEL, j) && At(t, SENTINEL, k) && j <= k
    requires '[' !in t[j + |SENTINEL|..]
    ensures k == j
  {
    if k >= j + |SENTINEL| {
      BracketIn(t, j + |SENTINEL|, k);
    } else if j < k {
      AtChar(t, SENTINEL, j, k - j);
      AtChar(t, SENTINEL, k, 0);
      AtChar(t, SENTINEL, k, 1);
      if k + 1 < j + |SENTINEL| { AtChar(t, SENTINEL, j, k + 1 - j); }
    }
  }

  // ----- the invariant of a stream -----

  /** The visible text and the grade of a whole answer. */
  function Meaning(v: Seen): Graded {
    Graded(v.text, if v.tail.Some? && v.tail.value.Closed? then Some(NatValue(v.tail.value.ds)) else None)
  }

  /** Any sentinel is the last thing in the text, complete, and in range. */
  predicate Gradable(grading: bool, s: string) {
    var v := View(grading, s);
    Settled(v) && (v.tail.Some? ==> NatValue(v.tail.value.ds) <= 100)
  }

  /** Answers the two forms agree on: all role markers can be removed however the text is cut,
      and a sentinel is well placed. */
  ghost predicate Proper(grading: bool, raw: string) {
    Removable(raw) && Gradable(grading, raw)
  }

  /** The part of it that text still to be cleaned keeps. */
  predicate Sound(grading: bool, s: string) {
    Clean(Fresh, s, true) && Gradable(grading, s)
  }

  lemma ProperSound(grading: bool, raw: string)
    ensures Proper(grading, raw) <==> Sound(grading, raw) && RoleFree(Roleless(raw))
  {
    SeparableClean(raw);
  }

  lemma ExtractKeeps(t: string, r: string)
    requires Substituted(t) && Sound(true, t + r)
    ensures var v, g := View(true, t + r), Extract(t);
      && Sound(true, g.text + r) && Substituted(g.text)
      && if g.grade.None? then g.text == t
         else v.tail.Some? && g.grade == Meaning(v).grade && View(true, g.text + r) == Seen(v.text, None)
  {
    hide View, Clean, Bare, Find;
    if Extract(t).grade.Some? {
      var i := SentinelAt(t, 0);
      var j := Find(t, SENTINEL);
      SentinelInside(t, r);
      var after := t[j + |SENTINEL|..];
      ScanRejects(Lead, after + r);
      assert forall c | c in after :: c in after + r;
      OnlySentinel(t, j, i);
      ScanConcat(Lead, after, r);
      ScanClosed(Scan(Lead, after).ds, r);
      SentinelRemoved(t, j, r);
    }
  }

  /** With the sentinel and the whitespace before it gone, only whitespace can follow. */
  lemma SentinelRemoved(t: string, j: nat, r: string)
    requires Substituted(t) && AllSpace(r) && j == Find(t, SENTINEL)
    ensures Substituted(RStrip(t[..j])) && Clean(Fresh, RStrip(t[..j]) + r, true)
    ensures View(true, RStrip(t[..j]) + r) == Seen(Erase(t[..j]), None)
  {
    hide View, Clean, Bare, IsSpace, AllSpace, RStrip;
    var w := t[..j];
    Halves(t, j, "");
    PrefixFree(w, t[j..], SEPARATOR);
    BeforeFirst(w, t[j..], SENTINEL);
    BareBefore(t, j);
    MarkerChars();
    StrippedFree(w, r, USER);
    StrippedFree(w, r, ASSISTANT);
    RoleFreeClean(Fresh, RStrip(w) + r, true);
    PrefixFree(RStrip(w), r, USER);
    PrefixFree(RStrip(w), r, ASSISTANT);
    RoleFreeBare(RStrip(w), true);
    RStripFree(w, SEPARATOR);
    ViewUnmarked(w, r);
  }

  lemma BareBefore(t: string, j: nat)
    requires Bare(t, true) && j < |t|
    ensures RoleFree(t[..j])
  {
    hide Bare;
    forall i: nat
      ensures !At(t[..j], USER, i) && !At(t[..j], ASSISTANT, i)
    {
      Halves(t, j, "");
      AtConcat(t[..j], t[j..], USER, i);
      AtConcat(t[..j], t[j..], ASSISTANT, i);
      if i < j {
        BareAt(t, i);
        TokenFacts(t[i..]);
        PrefixAt(t, USER, i);
        PrefixAt(t, ASSISTANT, i);
      }
    }
  }

  lemma StrippedFree(w: string, r: string, p: string)
    requires Solid(p) && NoOcc(w, p) && AllSpace(r)
    ensures NoOcc(RStrip(w) + r, p)
  {
    RStripFree(w, p);
    var u := RStrip(w);
    forall i: nat
      ensures !At(u + r, p, i)
    {
      AtConcat(u, r, p, i);
      if At(u + r, p, i) { SolidEnd(u, r, p, i); }
    }
  }

  lemma SolidEnd(u: string, r: string, p: string, i: nat)
    requires Solid(p) && AllSpace(r) && At(u + r, p, i)
    ensures i + |p| <= |u|
  {
    assert p[|p| - 1] in p;
    AtChar(u + r, p, i, |p| - 1);
    SpaceBeyond(u, r, i + |p| - 1);
  }

  lemma SpaceBeyond(u: string, r: string, k: nat)
    requires AllSpace(r) && k < |u + r|
    ensures k >= |u| ==> IsSpace((u + r)[k])
  {
    if k >= |u| { assert r[k - |u|] in r; }
  }

  lemma ViewUnmarked(w: string, r: string)
    requires NoOcc(w, SEPARATOR) && RoleFree(w) && NoOcc(w, SENTINEL) && AllSpace(r)
    ensures View(true, RStrip(w) + r) == Seen(Erase(w), None)
  {
    hide View, IsSpace, AllSpace, RStrip;
    var u := RStrip(w);
    MarkerChars();
    SentinelSolid();
    StrippedFree(w, r, SEPARATOR);
    StrippedFree(w, r, USER);
    StrippedFree(w, r, ASSISTANT);
    StrippedFree(w, r, SENTINEL);
    FreePlain(true, u, r);
    ViewPlain(true, u, r);
    NilRight(r);
    ViewSpaces(true, r, "");
    ViewNothing(true);
    NilRight(Erase(u));
    EraseRStrip(w);
  }

  lemma SentinelSolid()
    ensures Solid(SENTINEL)
  {}

  lemma FreePlain(grading: bool, u: string, r: string)
    requires NoOcc(u + r, SEPARATOR) && RoleFree(u + r) && (grading ==> NoOcc(u + r, SENTINEL))
    ensures Plain(grading, u, r)
  {
    forall k: nat | k < |u|
      ensures Token((u + r)[k..]) == 0 && !(grading && SENTINEL <= (u + r)[k..])
    {
      TokenAt(u + r, k);
      PrefixAt(u + r, SENTINEL, k);
    }
  }

  lemma DanglingFromAt(t: string, r: string, p: string, j: nat)
    requires j <= |t| <= j + |p| && p <= (t + r)[j..]
    ensures Dangling(t, p, |t| - j)
  {
    var n := |t| - j;
    assert t[j..] == (t + r)[j..][..n];
  }

  lemma HeadHasNoMarker(grading: bool, t: string, r: string, head: string, x: string)
    requires Substituted(t) && Settled(View(grading, t + r))
    requires t + r == head + x && |head| == |t| - Withheld(grading, t)
    ensures Plain(grading, head, x)
  {
    hide Token, View, Bare, NoOcc, Withheld;
    forall k: nat | k < |head|
      ensures Token((head + x)[k..]) == 0 && !(grading && SENTINEL <= (head + x)[k..])
    {
      NoTokenInHead(grading, t, r, k);
      if grading { NoSentinelInHead(t, r, k); }
    }
  }

  /** Whatever begins a marker at the end of a text is withheld. */
  lemma MarkersWithheld(grading: bool, t: string)
    ensures Holds(t, SEPARATOR, Withheld(grading, t))
    ensures Holds(t, USER, Withheld(grading, t)) && Holds(t, ASSISTANT, Withheld(grading, t))
    ensures grading ==> Holds(t, SENTINEL, Withheld(grading, t))
  {
    var n := MarkerTailLen(grading, t);
    assert MarkerOverlap(t, SEPARATOR) <= n && MarkerOverlap(t, USER) <= n && MarkerOverlap(t, ASSISTANT) <= n;
    assert grading ==> MarkerOverlap(t, SENTINEL) <= n;
  }

  lemma NoTokenInHead(grading: bool, t: string, r: string, k: nat)
    requires Substituted(t) && k < |t| - Withheld(grading, t)
    ensures Token((t + r)[k..]) == 0
  {
    hide Withheld, Bare;
    MarkersWithheld(grading, t);
    var s := (t + r)[k..];
    if Token(s) > 0 {
      var p := TokenIs(s);
      hide Token, MarkerLen;
      TokenEnds(t, r, k);
      DanglingFromAt(t, r, p, k);
    }
  }

  lemma NoSentinelInHead(t: string, r: string, k: nat)
    requires Substituted(t) && Settled(View(true, t + r)) && k < |t| - Withheld(true, t)
    ensures !(SENTINEL <= (t + r)[k..])
  {
    hide View, Bare;
    AtConcat(t, r, SENTINEL, k);
    PrefixAt(t + r, SENTINEL, k);
    MarkersWithheld(true, t);
    if At(t + r, SENTINEL, k) {
      if k + |SENTINEL| > |t| { DanglingFromAt(t, r, SENTINEL, k); } else { WithheldSentinel(t, r, k); }
    }
  }

  lemma WithheldSentinel(t: string, r: string, k: nat)
    requires Substituted(t) && Settled(View(true, t + r)) && At(t, SENTINEL, k)
    ensures 0 <= PartialAt(t, 0) <= k
  {
    var i := PartialSentinel(t, r);
    OnlySentinel(t, Find(t, SENTINEL), k);
    OnlySentinel(t, Find(t, SENTINEL), i);
  }

  /** Of settled text, what follows a sentinel's prefix belongs to it. */
  lemma PartialSentinel(t: string, r: string) returns (i: nat)
    requires Substituted(t) && Settled(View(true, t + r)) && (Find(t, SENTINEL) >= 0 || PartialAt(t, 0) >= 0)
    ensures 0 <= Find(t, SENTINEL) && '[' !in t[Find(t, SENTINEL) + |SENTINEL|..]
    ensures At(t, SENTINEL, i) && PartialAt(t, 0) == |RStrip(t[..i])|
    ensures Find(t, SENTINEL) <= i && '[' !in t[i + |SENTINEL|..]
    ensures 'U' !in t[i + |SENTINEL|..] && 'A' !in t[i + |SENTINEL|..]
  {
    hide View, Bare, RStrip;
    var j := Find(t, SENTINEL);
    SentinelInside(t, r);
    var after := t[j + |SENTINEL|..];
    ScanRejects(Lead, after + r);
    assert forall c | c in after :: c in after + r;
    i :| At(t, SENTINEL, i) && '[' !in t[i + |SENTINEL|..] && PartialAt(t, 0) == |RStrip(t[..i])|;
    OnlySentinel(t, j, i);
  }

  // ----- what stays buffered -----

  /** Text that holds no role marker, or is one. */
  ghost predicate Pending(t: string) {
    RoleFree(t) || t == USER || t == ASSISTANT
  }

  /** The longest tail that could grow into a marker is whitespace or begins one. */
  lemma TailForm(grading: bool, t: string, n: nat)
    requires n == MarkerTailLen(grading, t)
    ensures var tail := t[|t| - n..];
      AllSpace(tail) || tail <= SEPARATOR || tail <= USER || tail <= ASSISTANT || (grading && tail <= SENTINEL)
  {
    hide *;
    var space := Min(|t| - |RStrip(t)|, MAX_TRAILING_SPACE);
    TailChoice(grading, t, space);
    TailSpace(t, space);
    OverlapDangles(t, SEPARATOR);
    OverlapDangles(t, USER);
    OverlapDangles(t, ASSISTANT);
    OverlapDangles(t, SENTINEL);
  }

  lemma TailChoice(grading: bool, t: string, space: nat)
    requires space == Min(|t| - |RStrip(t)|, MAX_TRAILING_SPACE)
    ensures space <= |t| - |RStrip(t)|
    ensures MarkerTailLen(grading, t) in
      {space, MarkerOverlap(t, SEPARATOR), MarkerOverlap(t, USER), MarkerOverlap(t, ASSISTANT)}
      || (grading && MarkerTailLen(grading, t) == MarkerOverlap(t, SENTINEL))
  {
    hide MarkerOverlap, RStrip;
  }

  lemma TailSpace(t: string, n: nat)
    requires n <= |t| - |RStrip(t)|
    ensures AllSpace(t[|t| - n..])
  {
    assert forall c | c in t[|t| - n..] :: c in t[|RStrip(t)|..];
  }

  lemma OverlapDangles(t: string, p: string)
    ensures MarkerOverlap(t, p) <= |t| && t[|t| - MarkerOverlap(t, p)..] <= p
  {
    assert Dangling(t, p, MarkerOverlap(t, p));
  }

  lemma BeginsPending(x: string, p: string)
    requires p == SEPARATOR || p == USER || p == ASSISTANT || p == SENTINEL
    requires x <= p
    ensures Pending(x)
  {
    if p == SENTINEL || p == SEPARATOR {
      assert 'U' !in p && 'A' !in p;
      assert forall c | c in x :: c in p;
      LetterFree(x, USER, 'U');
      LetterFree(x, ASSISTANT, 'A');
    } else if x != p {
      assert p == x + p[|x|..];
      assert Token(p) > |x| by { TokenFacts(p); }
      PartialToken(x, p[|x|..]);
    }
  }

  lemma SpacePending(x: string)
    requires AllSpace(x)
    ensures Pending(x)
  {
    assert 'U' in x ==> IsSpace('U');
    assert 'A' in x ==> IsSpace('A');
    LetterFree(x, USER, 'U');
    LetterFree(x, ASSISTANT, 'A');
  }

  /** What is withheld holds no role marker, or is one. */
  lemma WithheldPending(grading: bool, t: string, r: string)
    requires Substituted(t) && Settled(View(grading, t + r))
    ensures Pending(t[|t| - Withheld(grading, t)..])
  {
    hide MarkerTailLen, View, Bare, AllSpace, NoOcc, RStrip;
    var p := if grading then PartialAt(t, 0) else -1;
    var n := MarkerTailLen(grading, t);
    if p >= 0 && |t| - p > n {
      PartialPending(t, r);
    } else {
      TailForm(grading, t, n);
      var tail := t[|t| - n..];
      if AllSpace(tail) { SpacePending(tail); }
      if tail <= SEPARATOR { BeginsPending(tail, SEPARATOR); }
      if tail <= USER { BeginsPending(tail, USER); }
      if tail <= ASSISTANT { BeginsPending(tail, ASSISTANT); }
      if tail <= SENTINEL { BeginsPending(tail, SENTINEL); }
    }
  }

  lemma PartialPending(t: string, r: string)
    requires Substituted(t) && Settled(View(true, t + r)) && PartialAt(t, 0) >= 0
    ensures RoleFree(t[PartialAt(t, 0)..])
  {
    hide View, Bare, Substituted, Find, At;
    var i := PartialSentinel(t, r);
    PartialParts(t, i);
    var ws, after := t[|RStrip(t[..i])|..i], t[i + |SENTINEL|..];
    NoLetter(ws, after, 'U');
    NoLetter(ws, after, 'A');
    var tail := t[PartialAt(t, 0)..];
    LetterFree(tail, USER, 'U');
    LetterFree(tail, ASSISTANT, 'A');
  }

  lemma PartialParts(t: string, i: nat)
    requires At(t, SENTINEL, i)
    ensures i + |SENTINEL| <= |t|
    ensures var k := |RStrip(t[..i])|; AllSpace(t[k..i]) && t[k..] == t[k..i] + SENTINEL + t[i + |SENTINEL|..]
  {
    var k := |RStrip(t[..i])|;
    assert t[..i][k..] == t[k..i];
    hide RStrip, AllSpace;
    assert t[k..] == t[k..i] + t[i..];
    assert t[i..] == SENTINEL + t[i + |SENTINEL|..];
    Assoc(t[k..i], SENTINEL, t[i + |SENTINEL|..]);
  }

  lemma NoLetter(ws: string, after: string, c: char)
    requires AllSpace(ws) && c !in after && (c == 'U' || c == 'A')
    ensures c !in ws + SENTINEL + after
  {
    assert c in ws ==> IsSpace(c);
    assert c !in SENTINEL;
  }

  /** By itself it is removed. */
  lemma PendingGoes(x: string)
    requires Pending(x)
    ensures RoleFree(Roleless(x))
  {
    if RoleFree(x) {
      RolelessFree(x);
    } else {
      assert |x| < |SEPARATOR| || x == ASSISTANT;
      NoSeparatorIn(x);
      TokenFacts(x);
      assert x[0..] == x && x[|x|..] == "";
      assert BlankPrefix(x) == 0;
      WholeMarker(x);
      TooShort("", USER);
      TooShort("", ASSISTANT);
    }
  }

  lemma NoSeparatorIn(x: string)
    requires x == USER || x == ASSISTANT
    ensures SepSub(x) == x
  {
    LetterFree(x, SEPARATOR, '|');
  }

  // ----- the main theorems -----

  /** What holds of a running stream: `emitted` and the state stand for `goal` once
      the text still to come, `rest`, has come. */
  ghost predicate Running(grading: bool, goal: Graded, emitted: string, st: State, rest: string) {
    var v := View(grading, st.buffer + rest);
    && Sound(grading, st.buffer + rest) && Pending(st.buffer)
    && Erase(emitted) + v.text == goal.text
    && goal.grade == Latest(Meaning(v).grade, st.grade)
  }

  lemma SettleKeeps(grading: bool, b: string, r: string)
    requires Sound(grading, b + r)
    ensures var v, g := View(grading, b + r), Settle(grading, b);
      && Sound(grading, g.text + r) && Substituted(g.text)
      && View(grading, g.text + r).text == v.text
      && Meaning(v).grade == Latest(Meaning(View(grading, g.text + r)).grade, g.grade)
      && (g.grade.Some? ==> Meaning(View(grading, g.text + r)).grade.None?)
  {
    hide View, Clean, Bare, Substitute, Extract;
    SubstituteKeeps(grading, b, r);
    if grading { ExtractKeeps(Substitute(b), r); }
  }

  /** The emitted head reads as itself: every marker starts in what is withheld. */
  lemma EmitKeeps(grading: bool, t: string, r: string, head: string, tail: string)
    requires Substituted(t) && Settled(View(grading, t + r))
    requires t == head + tail && |tail| == Withheld(grading, t)
    ensures View(grading, t + r) == Before(Erase(head), View(grading, tail + r))
    ensures Sound(grading, t + r) ==> Sound(grading, tail + r)
    ensures Pending(tail)
  {
    hide View, Clean, Bare, Withheld, Pending;
    Assoc(head, tail, r);
    HeadHasNoMarker(grading, t, r, head, tail + r);
    ViewPlain(grading, head, tail + r);
    WithheldPending(grading, t, r);
    assert t[|head|..] == tail;
    if Clean(Fresh, t + r, true) { CleanTail(grading, Fresh, head, tail + r); }
  }

  /** Behind text without markers, a new line may as well start. */
  lemma {:induction false} CleanTail(grading: bool, q: Place, head: string, x: string)
    requires Plain(grading, head, x) && Clean(q, head + x, true)
    ensures Clean(Fresh, x, true)
    decreases |head|
  {
    hide Clean;
    if head == "" {
      NilLeft(x);
      CleanMono(q, Fresh, x, true);
    } else {
      assert (head + x)[0..] == head + x;
      OneCharOn(q, head, x);
      PlainSuffix(grading, head, x);
      CleanTail(grading, Move(q, head[0]), head[1..], x);
    }
  }

  lemma AbsorbParts(grading: bool, st: State, c: string)
    ensures var g, e := Settle(grading, st.buffer + c), Absorb(grading, st, c);
      && g.text == e.0 + e.1.buffer && |e.1.buffer| == Withheld(grading, g.text)
      && e.1.grade == Latest(g.grade, st.grade)
  {
    hide Settle, Withheld, Latest;
    var g := Settle(grading, st.buffer + c);
    Halves(g.text, |g.text| - Withheld(grading, g.text), "");
  }

  lemma AbsorbKeeps(grading: bool, goal: Graded, emitted: string, st: State, c: string, rest: string)
    requires Running(grading, goal, emitted, st, c + rest)
    ensures var (emit, st') := Absorb(grading, st, c); Running(grading, goal, emitted + emit, st', rest)
  {
    hide Absorb, Settle, Erase, View, Meaning, Pending, Sound, Latest;
    var b := st.buffer + c;
    Assoc(st.buffer, c, rest);
    AbsorbReads(grading, st, c, rest);
    var (emit, st') := Absorb(grading, st, c);
    EraseConcat(emitted, emit);
    Assoc(Erase(emitted), Erase(emit), View(grading, st'.buffer + rest).text);
  }

  /** One step moves text from what is still to be read to what is emitted. */
  lemma AbsorbReads(grading: bool, st: State, c: string, rest: string)
    requires Sound(grading, st.buffer + c + rest)
    ensures var (emit, st') := Absorb(grading, st, c);
      var v, v' := View(grading, st.buffer + c + rest), View(grading, st'.buffer + rest);
      && Sound(grading, st'.buffer + rest) && Pending(st'.buffer)
      && Erase(emit) + v'.text == v.text
      && Latest(Meaning(v').grade, st'.grade) == Latest(Meaning(v).grade, st.grade)
  {
    hide Absorb, Settle, Erase, Withheld, View, Clean, Bare, Pending;
    var b := st.buffer + c;
    SettleKeeps(grading, b, rest);
    var (emit, st') := Absorb(grading, st, c);
    AbsorbParts(grading, st, c);
    EmitKeeps(grading, Settle(grading, b).text, rest, emit, st'.buffer);
  }

  /** At the end of an answer its sentinel is found. */
  lemma ExtractComplete(t: string)
    requires Sound(true, t) && RoleFree(t) && NoOcc(t, SEPARATOR)
    ensures Extract(t).grade == Meaning(View(true, t)).grade
  {
    hide View, Clean, Bare, RoleFree;
    RoleFreeBare(t, true);
    NilRight(t);
    ExtractKeeps(t, "");
    if Find(t, SENTINEL) < 0 {
      FlushedText(true, t);
    } else {
      var j := Find(t, SENTINEL);
      SentinelInside(t, "");
      var after := t[j + |SENTINEL|..];
      NilRight(after);
      var i := SentinelAt(t, 0);
      ScanRejects(Lead, after);
      OnlySentinel(t, j, i);
    }
  }

  /** Without a sentinel, nothing is left to drop: every character is visible. */
  lemma FlushedText(grading: bool, t: string)
    requires NoOcc(t, SEPARATOR) && RoleFree(t)
    requires grading ==> View(grading, t).tail.None? || Find(t, SENTINEL) < 0
    ensures View(grading, t) == Seen(Erase(t), None)
    ensures grading ==> PartialAt(t, 0) < 0
  {
    NilRight(t);
    if grading && Find(t, SENTINEL) >= 0 {
      RoleFreeBare(t, true);
      SentinelInside(t, "");
    }
    hide View;
    FreePlain(grading, t, "");
    ViewPlain(grading, t, "");
    ViewNothing(grading);
    NilRight(Erase(t));
  }

  /** Settling a whole answer leaves exactly its meaning. */
  lemma SettleWhole(grading: bool, raw: string)
    requires Proper(grading, raw)
    ensures var v, g := View(grading, raw), Settle(grading, raw);
      && Erase(g.text) == v.text && g.grade == Meaning(v).grade
      && (grading ==> PartialAt(g.text, 0) < 0)
  {
    hide View, Clean, Bare, Substitute, Extract, RoleFree;
    NilRight(raw);
    ProperSound(grading, raw);
    var g := Settle(grading, raw);
    NilRight(g.text);
    SettleKeeps(grading, raw, "");
    RolelessSubstitute(raw);
    if grading {
      NilRight(Substitute(raw));
      SubstituteKeeps(grading, raw, "");
      ExtractComplete(Substitute(raw));
      ExtractFree(Substitute(raw));
    } else {
      Ungraded(raw);
    }
    FlushedText(grading, g.text);
  }

  lemma RolelessSubstitute(raw: string)
    requires RoleFree(Roleless(raw))
    ensures RoleFree(Substitute(raw))
  {
    hide RoleSub, SepSub, Collapse, NoOcc;
    MarkerChars();
    NilRight(Roleless(raw));
    NilRight(Substitute(raw));
    CollapseFree(Roleless(raw), "", USER);
    CollapseFree(Roleless(raw), "", ASSISTANT);
  }

  lemma ExtractFree(t: string)
    requires RoleFree(t)
    ensures RoleFree(Extract(t).text)
  {
    hide NoOcc, RStrip;
    var i := SentinelAt(t, 0);
    if i >= 0 {
      Halves(t, i, "");
      PrefixFree(t[..i], t[i..], USER);
      PrefixFree(t[..i], t[i..], ASSISTANT);
      RStripFree(t[..i], USER);
      RStripFree(t[..i], ASSISTANT);
    }
  }

  lemma {:induction false} Ungraded(s: string)
    ensures View(false, s).tail.None?
    decreases |s|
  {
    if s != "" {
      hide Token, IsSpace;
      if Token(s) > 0 { Ungraded(s[Token(s)..]); } else { Ungraded(s[1..]); }
    }
  }

  lemma FlushKeeps(grading: bool, goal: Graded, emitted: string, st: State)
    requires Running(grading, goal, emitted, st, "")
    ensures var g := Flush(grading, st); Erase(emitted + g.text) == goal.text && g.grade == goal.grade
  {
    hide Settle, View, Clean, Pending;
    NilRight(st.buffer);
    if st.buffer == "" {
      NilRight(emitted);
      NilRight(Erase(emitted));
      ViewNothing(grading);
    } else {
      PendingGoes(st.buffer);
      ProperSound(grading, st.buffer);
      SettleWhole(grading, st.buffer);
      EraseConcat(emitted, Settle(grading, st.buffer).text);
    }
  }

  lemma {:induction false} RunKeeps(grading: bool, goal: Graded, emitted: string, st: State, chunks: seq<string>)
    requires Running(grading, goal, emitted, st, Concat(chunks))
    ensures var g := Streamed(grading, st, chunks); Erase(emitted + g.text) == goal.text && g.grade == goal.grade
    decreases |chunks|
  {
    hide Absorb, Flush, View, Erase, Sound, Pending;
    if chunks == [] {
      FlushKeeps(grading, goal, emitted, st);
    } else {
      AbsorbKeeps(grading, goal, emitted, st, chunks[0], Concat(chunks[1..]));
      var (emit, st') := Absorb(grading, st, chunks[0]);
      RunKeeps(grading, goal, emitted + emit, st', chunks[1..]);
      Assoc(emitted, emit, Streamed(grading, st', chunks[1..]).text);
    }
  }

  lemma FirstChunk(grading: bool, st: State, c: string, later: seq<string>)
    ensures var (emit, st'), rest := Absorb(grading, st, c), Streamed(grading, Absorb(grading, st, c).1, later);
      Streamed(grading, st, [c] + later) == Graded(emit + rest.text, rest.grade)
    ensures Concat([c] + later) == c + Concat(later)
  {
    hide Absorb, Flush;
    assert ([c] + later)[1..] == later;
  }

  lemma LastChunk(grading: bool, st: State, c: string)
    ensures var (emit, st') := Absorb(grading, st, c);
      Streamed(grading, st, [c]).text == emit + Flush(grading, st').text
  {
    hide Absorb, Flush;
    assert [c][1..] == [];
  }

  /** However a proper answer is cut into chunks, the streamed text shows exactly the
      characters the batch clean-up shows, and captures the same grade. */
  lemma StreamAgreesWithBatch(grading: bool, chunks: seq<string>)
    requires Proper(grading, Concat(chunks))
    ensures var s, b := Streamed(grading, START, chunks), Batch(grading, Concat(chunks));
      Erase(s.text) == Erase(b.text) && s.grade == b.grade
  {
    hide View, Streamed, Settle, Removable, Sound, Gradable;
    var raw := Concat(chunks);
    NilLeft(raw);
    NilLeft(View(grading, raw).text);
    NilLeft(Streamed(grading, START, chunks).text);
    ProperSound(grading, raw);
    SpacePending("");
    RunKeeps(grading, Meaning(View(grading, raw)), "", START, chunks);
    SettleWhole(grading, raw);
  }

  /** Without grading, removable role markers are all it takes, and what shows is the
      answer without its separators and role markers. */
  lemma RemovableStream(chunks: seq<string>)
    requires Removable(Concat(chunks))
    ensures var s := Streamed(false, START, chunks);
      && Erase(s.text) == Erase(Batch(false, Concat(chunks)).text) == View(false, Concat(chunks)).text
      && s.grade == None
  {
    hide Streamed, Settle, Erase, Removable;
    Ungraded(Concat(chunks));
    StreamAgreesWithBatch(false, chunks);
    SettleWhole(false, Concat(chunks));
  }

  /** An answer that ends in a well-formed sentinel shows its body and none of the sentinel. */
  lemma SentinelStream(chunks: seq<string>, body: string, w1: string, ds: string, w2: string, w3: string)
    requires Concat(chunks) == body + (SENTINEL + (w1 + (ds + (w2 + ("]]" + w3)))))
    requires Removable(Concat(chunks)) && NoOcc(body, SENTINEL)
    requires AllSpace(w1) && AllSpace(w2) && AllSpace(w3)
    requires 1 <= |ds| <= 3 && (forall c | c in ds :: Digit(c)) && NatValue(ds) <= 100
    ensures var s := Streamed(true, START, chunks);
      Erase(s.text) == View(true, body).text && s.grade == Some(NatValue(ds))
  {
    hide Streamed, Settle, Erase, Scan, View, Removable;
    var x := SENTINEL + (w1 + (ds + (w2 + ("]]" + w3))));
    SentinelTail(w1, ds, w2, w3);
    SentinelAfterBody(body, w1 + (ds + (w2 + ("]]" + w3))));
    StreamAgreesWithBatch(true, chunks);
    SettleWhole(true, Concat(chunks));
  }

  lemma {:induction false} SentinelAfterBody(body: string, after: string)
    requires NoOcc(body, SENTINEL)
    ensures View(true, body + (SENTINEL + after)) == Seen(View(true, body).text, Some(Scan(Lead, after)))
    decreases |body|
  {
    hide Token, View, IsSpace, NoOcc;
    var x := SENTINEL + after;
    assert x[|SENTINEL|..] == after && x[0] == '[' && x[1] == '[';
    if body == "" {
      NilLeft(x);
      ViewSentinel(x);
      ViewNothing(true);
    } else {
      NoEarlierSentinel(body, x);
      var n := Width(body);
      Drop(body, x, n);
      Halves(body, n, "");
      SuffixFree(body[..n], body[n..], SENTINEL);
      SentinelAfterBody(body[n..], after);
      ViewWord(true, body);
      ViewWord(true, body + x);
    }
  }

  /** The sentinel prefix overlaps neither itself nor a token. */
  lemma NoEarlierSentinel(body: string, x: string)
    requires body != "" && |x| > 1 && x[0] == '[' && x[1] == '[' && NoOcc(body, SENTINEL)
    ensures !(SENTINEL <= body + x) && !(SENTINEL <= body) && Token(body + x) == Token(body)
  {
    var s := body + x;
    assert s[0..] == s && body[0..] == body;
    assert s[|body|] == '[' && s[|body| + 1] == '[';
    PrefixAt(body, SENTINEL, 0);
    PrefixOfConcat(SENTINEL, body, x);
    assert Outside('[');
    OutsideSeam(body, x);
    SameToken(body, x);
  }

  lemma SentinelTail(w1: string, ds: string, w2: string, w3: string)
    requires AllSpace(w1) && AllSpace(w2) && AllSpace(w3)
    requires 1 <= |ds| <= 3 && (forall c | c in ds :: Digit(c))
    ensures Scan(Lead, w1 + (ds + (w2 + ("]]" + w3)))) == Closed(ds)
  {
    ScanConcat(Lead, w1, ds + (w2 + ("]]" + w3)));
    if w1 != "" { ScanSpaces(Lead, w1); }
    ScanDigits(ds);
    ScanConcat(Lead, ds, w2 + ("]]" + w3));
    SentinelClose(ds, w2, w3);
  }

  lemma SentinelClose(ds: string, w2: string, w3: string)
    requires AllSpace(w2) && AllSpace(w3)
    ensures Scan(Digits(ds), w2 + ("]]" + w3)) == Closed(ds)
  {
    ScanConcat(Digits(ds), w2, "]]" + w3);
    AfterSpaces(ds, w2);
    Assoc("]", "]", w3);
    assert "]]" == "]" + "]";
    ScanOne(Scan(Digits(ds), w2), ']', "]" + w3);
    ScanOne(Half(ds), ']', w3);
    if w3 != "" {
      assert w3[0] in w3;
      ScanSpaces(Closed(ds), w3);
    }
  }

  lemma AfterSpaces(ds: string, w: string)
    requires AllSpace(w)
    ensures Scan(Digits(ds), w) == if w == "" then Digits(ds) else After(ds)
  {
    if w != "" {
      assert w[0] in w;
      ScanSpaces(Digits(ds), w);
    }
  }

  lemma ScanOne(t: Tail, c: char, s: string)
    ensures Scan(t, [c] + s) == Scan(Step(t, c), s)
  {
    assert ([c] + s)[1..] == s;
  }

  lemma {:induction false} ScanDigits(ds: string)
    requires 1 <= |ds| <= 3 && (forall c | c in ds :: Digit(c))
    ensures Scan(Lead, ds) == Digits(ds)
    decreases |ds|
  {
    var n := |ds| - 1;
    if n == 0 {
      assert ds[1..] == "" && ds == [ds[0]];
    } else {
      ScanDigits(ds[..n]);
      assert ds == ds[..n] + [ds[n]];
      ScanConcat(Lead, ds[..n], [ds[n]]);
      assert [ds[n]][1..] == "";
    }
  }
}
