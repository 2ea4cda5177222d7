/** Where role markers stand in an answer: which of them a clean-up removes, and how that
    changes when the text is cleaned in pieces. */
module RoleMarkers {
  import opened Text
  import opened StreamFilter
  import opened Substitutions

  // ----- tokens -----

  /** Length of the separator or role marker that `s` starts with, 0 for none. */
  function Token(s: string): (n: nat)
    ensures n <= |s|
    ensures n > 0 <==> SEPARATOR <= s || MarkerLen(s) > 0
  {
    if SEPARATOR <= s then |SEPARATOR| else MarkerLen(s)
  }

  function Width(s: string): (n: nat)
    requires s != ""
    ensures 0 < n <= |s|
  {
    if Token(s) > 0 then Token(s) else 1
  }

  lemma TokenFacts(s: string)
    ensures Token(s) > 0 ==> !IsSpace(s[0])
    ensures SEPARATOR <= s ==> MarkerLen(s) == 0
    ensures MarkerLen(s) > 0 ==> Token(s) == MarkerLen(s) && (s[0] == 'U' || s[0] == 'A') && s[MarkerLen(s) - 1] == ':'
    ensures USER <= s ==> MarkerLen(s) == |USER|
    ensures ASSISTANT <= s ==> MarkerLen(s) == |ASSISTANT|
  {
    assert SEPARATOR[0] == '|' && USER[0] == 'U' && ASSISTANT[0] == 'A';
    assert USER[|USER| - 1] == ':' && ASSISTANT[|ASSISTANT| - 1] == ':';
  }

  lemma TokenIs(s: string) returns (p: string)
    requires Token(s) > 0
    ensures (p == SEPARATOR || p == USER || p == ASSISTANT) && p <= s && |p| == Token(s)
  {
    p := if SEPARATOR <= s then SEPARATOR else if USER <= s then USER else ASSISTANT;
  }

  /** No token runs from `w` into `x`. */
  ghost predicate NoStraddle(w: string, x: string) {
    forall j: nat | j < |w| :: j + Token((w + x)[j..]) <= |w|
  }

  lemma NoStraddleSuffix(w: string, x: string, n: nat)
    requires NoStraddle(w, x) && n <= |w|
    ensures NoStraddle(w[n..], x)
  {
    hide Token;
    forall j: nat | j < |w[n..]|
      ensures j + Token((w[n..] + x)[j..]) <= |w[n..]|
    {
      assert (w[n..] + x)[j..] == (w + x)[j + n..];
      assert j + n + Token((w + x)[j + n..]) <= |w|;
    }
  }

  /** Where no token straddles, both texts start with the same token. */
  lemma SameToken(w: string, x: string)
    requires w != "" && NoStraddle(w, x)
    ensures Token(w + x) == Token(w) && MarkerLen(w + x) == MarkerLen(w)
    ensures SEPARATOR <= w + x <==> SEPARATOR <= w
  {
    assert (w + x)[0..] == w + x;
    assert Token(w + x) <= |w|;
    Shared(w, x);
  }

  lemma Shared(w: string, x: string)
    requires w != "" && Token(w + x) <= |w|
    ensures Token(w + x) == Token(w) && MarkerLen(w + x) == MarkerLen(w)
    ensures SEPARATOR <= w + x <==> SEPARATOR <= w
  {
    TokenFacts(w + x);
    TokenFacts(w);
    PrefixOfConcat(SEPARATOR, w, x);
    PrefixOfConcat(USER, w, x);
    PrefixOfConcat(ASSISTANT, w, x);
  }

  lemma NothingStraddles(w: string)
    ensures NoStraddle(w, "")
  {
    NilRight(w);
    forall j: nat | j < |w|
      ensures j + Token((w + "")[j..]) <= |w|
    {
      assert |(w + "")[j..]| == |w| - j;
    }
  }

  predicate Outside(c: char) {
    c !in SEPARATOR && c !in USER && c !in ASSISTANT
  }

  lemma TokenChars(s: string, k: nat)
    requires k < Token(s)
    ensures !Outside(s[k])
  {
    if SEPARATOR <= s {
      assert s[k] == SEPARATOR[k];
    } else if USER <= s {
      assert s[k] == USER[k];
    } else {
      assert s[k] == ASSISTANT[k];
    }
  }

  /** A character that no token has keeps tokens apart. */
  lemma OutsideSeam(w: string, x: string)
    requires x != "" && Outside(x[0])
    ensures NoStraddle(w, x)
  {
    hide Token, Outside;
    forall j: nat | j < |w|
      ensures j + Token((w + x)[j..]) <= |w|
    {
      var s := (w + x)[j..];
      assert s[|w| - j] == x[0];
      if |w| - j < Token(s) { TokenChars(s, |w| - j); }
    }
  }

  lemma SpaceOutside(c: char)
    requires IsSpace(c)
    ensures Outside(c)
  {
    MarkerChars();
  }

  /** Nothing straddles into the first separator of a text. */
  lemma SeparatorSeam(w: string, y: string)
    requires Find(w + (SEPARATOR + y), SEPARATOR) == |w|
    ensures NoStraddle(w, SEPARATOR + y)
  {
    var s := w + (SEPARATOR + y);
    forall j: nat | j < |w|
      ensures j + Token(s[j..]) <= |w|
    {
      assert !At(s, SEPARATOR, j);
      TokenAt(s, j);
      if MarkerLen(s[j..]) > 0 && j + MarkerLen(s[j..]) > |w| { MarkerChar(s[j..], |w| - j); }
    }
  }

  lemma TokenAt(s: string, j: nat)
    requires j <= |s|
    ensures SEPARATOR <= s[j..] <==> At(s, SEPARATOR, j)
    ensures MarkerLen(s[j..]) > 0 <==> At(s, USER, j) || At(s, ASSISTANT, j)
  {}

  lemma MarkerChar(s: string, k: nat)
    requires k < MarkerLen(s)
    ensures s[k] != '|'
  {
    if USER <= s { assert s[k] == USER[k]; } else { assert s[k] == ASSISTANT[k]; }
  }

  // ----- bare texts -----

  /** Role markers stand at most at the very end, and only if `last`. */
  predicate Bare(t: string, last: bool)
    decreases |t|
  {
    t == "" || ((MarkerLen(t) > 0 ==> last && MarkerLen(t) == |t|) && Bare(t[1..], last))
  }

  lemma {:induction false} BareFree(t: string)
    ensures Bare(t, false) <==> RoleFree(t)
    decreases |t|
  {
    if t != "" {
      BareFree(t[1..]);
      TokenAt(t, 0);
      assert t[0..] == t && t == [t[0]] + t[1..];
      hide MarkerLen;
      FreeStep(t, USER);
      FreeStep(t, ASSISTANT);
    }
  }

  lemma FreeStep(t: string, p: string)
    requires t != "" && p != ""
    ensures NoOcc(t, p) <==> !At(t, p, 0) && NoOcc(t[1..], p)
  {
    assert t == [t[0]] + t[1..];
    if NoOcc(t, p) { SuffixFree([t[0]], t[1..], p); }
    if !At(t, p, 0) && NoOcc(t[1..], p) {
      assert p <= t ==> At(t, p, 0);
      OneMore(t[0], t[1..], p);
    }
  }

  lemma {:induction false} FreeBare(t: string, last: bool)
    requires Bare(t, false)
    ensures Bare(t, last)
    decreases |t|
  {
    if t != "" { FreeBare(t[1..], last); }
  }

  lemma RoleFreeBare(t: string, last: bool)
    requires RoleFree(t)
    ensures Bare(t, last)
  {
    BareFree(t);
    FreeBare(t, last);
  }

  /** A line break lies where two texts meet. */
  predicate Broken(x: string, y: string) {
    x == "" || x[|x| - 1] == '\n' || (y != "" && y[0] == '\n')
  }

  lemma BrokenMarker(x: string, y: string)
    requires x != "" && Broken(x, y)
    ensures MarkerLen(x + y) == MarkerLen(x) && (MarkerLen(x) > 0 ==> MarkerLen(x) < |x + y|)
  {
    MarkerChars();
    BrokenPrefix(x, y, USER);
    BrokenPrefix(x, y, ASSISTANT);
  }

  lemma BrokenPrefix(x: string, y: string, p: string)
    requires x != "" && Broken(x, y) && OneLine(p) && p != ""
    ensures p <= x + y <==> p <= x
    ensures p <= x ==> |p| < |x + y|
  {
    PrefixOfConcat(p, x, y);
    assert |p| >= |x| && p <= x + y ==> p[|x| - 1] == (x + y)[|x| - 1] == x[|x| - 1];
  }

  /** Across a line break, markers count on each side. */
  lemma {:induction false} BareJoin(x: string, y: string, last: bool)
    requires Broken(x, y)
    ensures Bare(x + y, last) <==> Bare(x, false) && Bare(y, last)
    decreases |x|
  {
    if x == "" {
      NilLeft(y);
    } else {
      hide MarkerLen;
      Drop(x, y, 1);
      BrokenMarker(x, y);
      BareJoin(x[1..], y, last);
    }
  }

  lemma {:induction false} BareSuffix(t: string, n: nat, last: bool)
    requires Bare(t, last) && n <= |t|
    ensures Bare(t[n..], last)
    decreases |t|
  {
    if n > 0 {
      BareSuffix(t[1..], n - 1, last);
      assert t[1..][n - 1..] == t[n..];
    } else {
      assert t[0..] == t;
    }
  }

  // ----- places -----

  /** Where a marker would stand: at a line start, with blanks before it at most; inside a
      line; in the whitespace that a removed marker takes along; right behind a line break there. */
  datatype Place = Fresh | Inside | Eaten | EatenLine

  function Move(q: Place, c: char): Place {
    if c == '\n' then (if q.Fresh? || q.Inside? then Fresh else EatenLine)
    else if c == ' ' || c == '\t' then (if q.EatenLine? then Eaten else q)
    else if IsSpace(c) then (if q.Fresh? || q.Inside? then Inside else Eaten)
    else Inside
  }

  /** A marker that stands here is removed. */
  predicate Open(q: Place) {
    q.Fresh? || q.EatenLine?
  }

  function Next(q: Place, s: string): Place
    requires s != ""
  {
    if SEPARATOR <= s then Fresh else if MarkerLen(s) > 0 then Eaten else Move(q, s[0])
  }

  predicate Allowed(q: Place, s: string, last: bool) {
    MarkerLen(s) > 0 ==> Open(q) || (last && MarkerLen(s) == |s|)
  }

  /** Every marker stands where it is removed; if `last`, one at the very end may stand anywhere. */
  predicate Clean(q: Place, s: string, last: bool)
    decreases |s|
  {
    s == "" || (Allowed(q, s, last) && Clean(Next(q, s), s[Width(s)..], last))
  }

  /** The place behind a text. */
  function PlaceAfter(q: Place, s: string): Place
    decreases |s|
  {
    if s == "" then q else PlaceAfter(Next(q, s), s[Width(s)..])
  }

  /** At `q'` markers are removed whenever they are at `q`. */
  predicate Below(q: Place, q': Place) {
    q == q' || q.Eaten? || q'.Fresh?
  }

  lemma {:induction false} CleanMono(q: Place, q': Place, s: string, last: bool)
    requires Below(q, q') && Clean(q, s, last)
    ensures Clean(q', s, last)
    decreases |s|
  {
    if s != "" {
      hide Width, MarkerLen, IsSpace;
      CleanMono(Next(q, s), Next(q', s), s[Width(s)..], last);
    }
  }

  lemma {:induction false} CleanLast(q: Place, s: string)
    requires Clean(q, s, false)
    ensures Clean(q, s, true)
    decreases |s|
  {
    if s != "" {
      hide Width, MarkerLen, IsSpace, Next;
      CleanLast(Next(q, s), s[Width(s)..]);
    }
  }

  /** Where nothing straddles, a text is clean exactly when its two parts are; what ends the
      first part does not end the text. */
  lemma {:induction false} CleanCut(q: Place, x: string, y: string, last: bool)
    requires NoStraddle(x, y) && y != ""
    ensures Clean(q, x + y, last) <==> Clean(q, x, false) && Clean(PlaceAfter(q, x), y, last)
    decreases |x|
  {
    if x == "" {
      NilLeft(y);
    } else {
      SameToken(x, y);
      hide MarkerLen, Token, NoStraddle, IsSpace;
      var n := Width(x);
      Drop(x, y, n);
      NoStraddleSuffix(x, y, n);
      CleanCut(Next(q, x), x[n..], y, last);
    }
  }

  /** A beginning of a clean text is clean. */
  lemma {:induction false} CleanPrefix(q: Place, x: string, y: string)
    requires Clean(q, x + y, true)
    ensures Clean(q, x, true)
    decreases |x|
  {
    if x != "" {
      if Token(x + y) <= |x| {
        Shared(x, y);
        hide MarkerLen, Token, IsSpace;
        var n := Width(x);
        Drop(x, y, n);
        CleanPrefix(Next(q, x), x[n..], y);
      } else {
        PartialToken(x, y);
        RoleFreeClean(q, x, true);
      }
    }
  }

  /** The beginning of a token holds no marker. */
  lemma PartialToken(x: string, y: string)
    requires Token(x + y) > |x|
    ensures RoleFree(x) && OneLine(x) && NoOcc(x, SEPARATOR)
  {
    MarkerChars();
    if SEPARATOR <= x + y {
      assert x <= SEPARATOR;
      LetterFree(x, USER, 'U');
      LetterFree(x, ASSISTANT, 'A');
    } else if USER <= x + y {
      assert x <= USER;
      LetterFree(x, SEPARATOR, '|');
      TooShort(x, USER);
      TooShort(x, ASSISTANT);
    } else {
      assert x <= ASSISTANT;
      LetterFree(x, SEPARATOR, '|');
      LetterFree(x, USER, 'U');
      TooShort(x, ASSISTANT);
    }
  }

  lemma LetterFree(x: string, p: string, c: char)
    requires p != "" && p[0] == c && c !in x
    ensures NoOcc(x, p)
  {
    forall i: nat
      ensures !At(x, p, i)
    {
      if At(x, p, i) { AtChar(x, p, i, 0); }
    }
  }

  lemma TooShort(x: string, p: string)
    requires |x| < |p|
    ensures NoOcc(x, p)
  {}

  lemma {:induction false} RoleFreeClean(q: Place, s: string, last: bool)
    requires RoleFree(s)
    ensures Clean(q, s, last)
    decreases |s|
  {
    if s != "" {
      TokenAt(s, 0);
      assert s[0..] == s;
      var n := Width(s);
      Halves(s, n, "");
      SuffixFree(s[..n], s[n..], USER);
      SuffixFree(s[..n], s[n..], ASSISTANT);
      RoleFreeClean(Next(q, s), s[n..], last);
    }
  }

  function MoveAll(q: Place, ws: string): Place
    decreases |ws|
  {
    if ws == "" then q else MoveAll(Move(q, ws[0]), ws[1..])
  }

  lemma {:induction false} CleanSpaces(q: Place, ws: string, x: string, last: bool)
    requires AllSpace(ws)
    ensures Clean(q, ws + x, last) <==> Clean(MoveAll(q, ws), x, last)
    decreases |ws|
  {
    if ws == "" {
      NilLeft(x);
    } else {
      Drop(ws, x, 1);
      assert IsSpace((ws + x)[0]);
      TokenFacts(ws + x);
      hide IsSpace, MarkerLen, Token;
      CleanSpaces(Move(q, ws[0]), ws[1..], x, last);
    }
  }

  lemma {:induction false} MoveSpaces(q: Place, ws: string)
    requires AllSpace(ws) && (q.Fresh? || q.Inside?)
    ensures MoveAll(q, ws).Fresh? || MoveAll(q, ws).Inside?
    decreases |ws|
  {
    if ws != "" { MoveSpaces(Move(q, ws[0]), ws[1..]); }
  }

  /** Whitespace at a line start makes nothing cleaner. */
  lemma WithoutLead(ws: string, x: string, last: bool)
    requires AllSpace(ws) && Clean(Fresh, ws + x, last)
    ensures Clean(Fresh, x, last)
  {
    CleanSpaces(Fresh, ws, x, last);
    MoveSpaces(Fresh, ws);
    CleanMono(MoveAll(Fresh, ws), Fresh, x, last);
  }

  /** Whitespace at the end plays no part. */
  lemma WithoutTrail(q: Place, x: string, ws: string)
    requires AllSpace(ws)
    ensures Clean(q, x + ws, false) <==> Clean(q, x, false)
  {
    if ws == "" {
      NilRight(x);
    } else {
      assert ws[0] in ws;
      SpaceOutside(ws[0]);
      OutsideSeam(x, ws);
      CleanCut(q, x, ws, false);
      NilRight(ws);
      CleanSpaces(PlaceAfter(q, x), ws, "", false);
    }
  }

  // ----- one line start after the other -----

  /** Right behind removed whitespace, text starts or the text ends. */
  lemma SolidStart(s: string, last: bool)
    requires s == "" || !IsSpace(s[0])
    ensures Clean(EatenLine, s, last) <==> Clean(Fresh, s, last)
    ensures Clean(Eaten, s, last) <==> Clean(Inside, s, last)
  {
    hide Width, MarkerLen;
  }

  /** No marker after the blanks: it does not matter whether the line starts here. */
  lemma {:induction false} BlankSame(x: string, last: bool)
    requires RoleLen(x) == 0
    ensures Clean(Fresh, x, last) <==> Clean(Inside, x, last)
    decreases |x|
  {
    if x != "" {
      BlankStep(x);
      if x[0] == ' ' || x[0] == '\t' {
        TokenFacts(x);
        BlankSame(x[1..], last);
      }
      hide RoleLen, MarkerLen;
    }
  }

  lemma BlankStep(x: string)
    requires x != "" && RoleLen(x) == 0
    ensures x[0] == ' ' || x[0] == '\t' ==> RoleLen(x[1..]) == 0
    ensures !(x[0] == ' ' || x[0] == '\t') ==> MarkerLen(x) == 0
  {
    var j := BlankPrefix(x);
    if x[0] == ' ' || x[0] == '\t' {
      assert x[1..][j - 1..] == x[j..];
    } else {
      assert x[0..] == x;
    }
    hide LStrip;
  }

  function StartAt(lineStart: bool): Place {
    if lineStart then Fresh else Inside
  }

  /** A stretch without separators keeps no marker exactly when it is clean. */
  lemma {:induction false} Kept(s: string, lineStart: bool, last: bool)
    requires NoOcc(s, SEPARATOR)
    ensures Bare(RoleSub(s, lineStart), last) <==> Clean(StartAt(lineStart), s, last)
    decreases |s|
  {
    if s != "" {
      var m := if lineStart then RoleLen(s) else 0;
      var n := if m > 0 then m else 1;
      Unfold(s, lineStart);
      NoSeparatorDrop(s, n);
      Kept(s[n..], s[n - 1] == '\n', last);
      hide RoleSub, RoleLen, NoOcc;
      if m > 0 {
        NilLeft(RoleSub(s[m..], s[m - 1] == '\n'));
        RemovedClean(s, last);
      } else {
        KeptStep(s, lineStart, last);
      }
    }
  }

  lemma NoSeparatorDrop(s: string, n: nat)
    requires NoOcc(s, SEPARATOR) && n <= |s|
    ensures NoOcc(s[n..], SEPARATOR) && !(SEPARATOR <= s)
  {
    Halves(s, n, "");
    SuffixFree(s[..n], s[n..], SEPARATOR);
    assert SEPARATOR <= s ==> At(s, SEPARATOR, 0);
  }

  /** Behind a removed marker the next line start or line inside follows. */
  lemma RemovedClean(s: string, last: bool)
    requires RoleLen(s) > 0
    ensures Clean(Fresh, s, last) <==> Clean(StartAt(s[RoleLen(s) - 1] == '\n'), s[RoleLen(s)..], last)
  {
    var n := RoleLen(s);
    var blanks, marker, ws := RoleParts(s);
    var rest := s[n..];
    hide RoleLen;
    CleanSpaces(Fresh, blanks, marker + (ws + rest), last);
    BlanksStay(blanks);
    MarkerFirst(marker, ws + rest, last);
    CleanSpaces(Eaten, ws, rest, last);
    EatenWhere(ws);
    SolidStart(rest, last);
    EndOf(blanks, marker, ws);
  }

  lemma EndOf(blanks: string, marker: string, ws: string)
    requires marker == USER || marker == ASSISTANT
    ensures var x := blanks + (marker + ws); x[|x| - 1] == if ws == "" then ':' else ws[|ws| - 1]
  {
    assert USER[|USER| - 1] == ':' && ASSISTANT[|ASSISTANT| - 1] == ':';
  }

  predicate OnlyBlanks(s: string) {
    forall c | c in s :: c == ' ' || c == '\t'
  }

  /** The match of a role marker: blanks, the marker, whitespace; behind it comes no whitespace. */
  lemma RoleParts(s: string) returns (blanks: string, marker: string, ws: string)
    requires RoleLen(s) > 0
    ensures OnlyBlanks(blanks) && AllSpace(blanks) && (marker == USER || marker == ASSISTANT) && AllSpace(ws)
    ensures s[..RoleLen(s)] == blanks + (marker + ws)
    ensures s == blanks + (marker + (ws + s[RoleLen(s)..]))
    ensures s[RoleLen(s)..] == "" || !IsSpace(s[RoleLen(s)])
  {
    hide *;
    var j, m, k := RoleShape(s);
    blanks, marker, ws := s[..j], s[j..j + m], s[j + m..j + m + k];
    FourParts(s, j, m, k);
  }

  lemma RoleShape(s: string) returns (j: nat, m: nat, k: nat)
    requires RoleLen(s) > 0
    ensures j + m + k == RoleLen(s)
    ensures OnlyBlanks(s[..j]) && AllSpace(s[..j])
    ensures s[j..j + m] == USER || s[j..j + m] == ASSISTANT
    ensures AllSpace(s[j + m..j + m + k]) && (s[j + m + k..] == "" || !IsSpace(s[j + m + k]))
  {
    hide BlankPrefix, MarkerLen, AllSpace, IsSpace, LStrip, OnlyBlanks, RoleLen;
    j, m, k := RoleLenSum(s);
    BlanksAre(s);
    MarkerIs(s[j..]);
    SpacesAhead(s[j + m..]);
    SliceOfDrop(s, j, m);
    SliceOfDrop(s, j + m, k);
  }

  lemma RoleLenSum(s: string) returns (j: nat, m: nat, k: nat)
    requires RoleLen(s) > 0
    ensures j == BlankPrefix(s) && m == MarkerLen(s[j..]) > 0
    ensures k == |s[j + m..]| - |LStrip(s[j + m..])| && j + m + k == RoleLen(s)
  {
    j := BlankPrefix(s);
    m := MarkerLen(s[j..]);
    hide BlankPrefix, MarkerLen, LStrip;
    k := |s[j + m..]| - |LStrip(s[j + m..])|;
  }

  lemma SliceOfDrop(s: string, j: nat, m: nat)
    requires j + m <= |s|
    ensures s[j..][..m] == s[j..j + m] && s[j..][m..] == s[j + m..]
  {}

  lemma MarkerIs(s: string)
    requires MarkerLen(s) > 0
    ensures s[..MarkerLen(s)] == USER || s[..MarkerLen(s)] == ASSISTANT
  {}

  lemma SpacesAhead(y: string)
    ensures AllSpace(y[..|y| - |LStrip(y)|])
    ensures y[|y| - |LStrip(y)|..] == "" || !IsSpace(y[|y| - |LStrip(y)|])
  {}

  lemma FourParts(s: string, j: nat, m: nat, k: nat)
    requires j + m + k <= |s|
    ensures s[j..j + m] == s[j..][..m]
    ensures s[j + m..][..k] == s[j + m..j + m + k]
    ensures s[..j + m + k] == s[..j] + (s[j..j + m] + s[j + m..j + m + k])
    ensures s == s[..j] + (s[j..j + m] + (s[j + m..j + m + k] + s[j + m + k..]))
  {
    Thirds(s, j, j + m, j + m + k);
  }

  lemma Thirds(s: string, i: nat, j: nat, n: nat)
    requires i <= j <= n <= |s|
    ensures s[..n] == s[..i] + (s[i..j] + s[j..n])
    ensures s == s[..i] + (s[i..j] + (s[j..n] + s[n..]))
  {
    assert s[i..] == s[i..j] + s[j..];
    assert s[j..] == s[j..n] + s[n..];
    assert s == s[..i] + s[i..];
    assert s[..n] == s[..i] + s[i..n] && s[i..n] == s[i..j] + s[j..n];
  }

  lemma {:induction false} BlanksAre(s: string)
    ensures OnlyBlanks(s[..BlankPrefix(s)]) && AllSpace(s[..BlankPrefix(s)])
    decreases |s|
  {
    if s != "" && (s[0] == ' ' || s[0] == '\t') {
      BlanksAre(s[1..]);
      var n := BlankPrefix(s);
      assert s[..n] == [s[0]] + s[1..][..n - 1];
    }
  }

  lemma {:induction false} BlanksStay(blanks: string)
    requires OnlyBlanks(blanks)
    ensures MoveAll(Fresh, blanks) == Fresh
    decreases |blanks|
  {
    if blanks != "" {
      assert blanks[0] in blanks;
      assert forall c | c in blanks[1..] :: c in blanks;
      BlanksStay(blanks[1..]);
    }
  }

  lemma MarkerFirst(marker: string, x: string, last: bool)
    requires marker == USER || marker == ASSISTANT
    ensures Clean(Fresh, marker + x, last) <==> Clean(Eaten, x, last)
  {
    var s := marker + x;
    assert marker <= s;
    TokenFacts(s);
    assert s[|marker|..] == x;
  }

  lemma {:induction false} EatenWhere(ws: string)
    requires AllSpace(ws)
    ensures MoveAll(Eaten, ws) == if ws != "" && ws[|ws| - 1] == '\n' then EatenLine else Eaten
    decreases |ws|
  {
    if ws != "" {
      var n := |ws| - 1;
      assert ws[n] in ws && ws == ws[..n] + [ws[n]];
      EatenWhere(ws[..n]);
      MoveLast(Eaten, ws[..n], ws[n]);
    }
  }

  lemma {:induction false} MoveLast(q: Place, x: string, c: char)
    ensures MoveAll(q, x + [c]) == Move(MoveAll(q, x), c)
    decreases |x|
  {
    if x == "" {
      NilLeft([c]);
      assert [c][1..] == "";
    } else {
      Drop(x, [c], 1);
      MoveLast(Move(q, x[0]), x[1..], c);
    }
  }

  /** A kept character. */
  lemma KeptStep(s: string, lineStart: bool, last: bool)
    requires s != "" && !(SEPARATOR <= s) && (lineStart ==> RoleLen(s) == 0)
    requires Bare(RoleSub(s[1..], s[0] == '\n'), last) <==> Clean(StartAt(s[0] == '\n'), s[1..], last)
    ensures Bare([s[0]] + RoleSub(s[1..], s[0] == '\n'), last) <==> Clean(StartAt(lineStart), s, last)
  {
    hide RoleSub, RoleLen, MarkerLen, Clean, Bare;
    if MarkerLen(s) > 0 { KeptMarkerStep(s, lineStart, last); } else { KeptPlainStep(s, lineStart, last); }
  }

  lemma KeptMarkerStep(s: string, lineStart: bool, last: bool)
    requires MarkerLen(s) > 0 && !(SEPARATOR <= s) && (lineStart ==> RoleLen(s) == 0)
    ensures Bare([s[0]] + RoleSub(s[1..], s[0] == '\n'), last) <==> Clean(StartAt(lineStart), s, last)
  {
    hide RoleSub, RoleLen;
    var t := [s[0]] + RoleSub(s[1..], s[0] == '\n');
    SameMarker(s, "");
    NilRight(s);
    NilRight(t);
    MarkerKept(s, lineStart);
    assert t[1..] == RoleSub(s[1..], s[0] == '\n');
    hide MarkerLen;
    if MarkerLen(s) == |s| { assert s[MarkerLen(s)..] == ""; }
  }

  lemma KeptPlainStep(s: string, lineStart: bool, last: bool)
    requires s != "" && MarkerLen(s) == 0 && !(SEPARATOR <= s) && (lineStart ==> RoleLen(s) == 0)
    requires Bare(RoleSub(s[1..], s[0] == '\n'), last) <==> Clean(StartAt(s[0] == '\n'), s[1..], last)
    ensures Bare([s[0]] + RoleSub(s[1..], s[0] == '\n'), last) <==> Clean(StartAt(lineStart), s, last)
  {
    hide RoleSub;
    var t := [s[0]] + RoleSub(s[1..], s[0] == '\n');
    SameMarker(s, "");
    NilRight(s);
    NilRight(t);
    assert t[1..] == RoleSub(s[1..], s[0] == '\n');
    if lineStart {
      BlankStep(s);
      if s[0] == ' ' || s[0] == '\t' { BlankSame(s[1..], last); }
    }
    hide RoleLen, MarkerLen;
  }

  /** The first marker is the same after the removal. */
  lemma SameMarker(s: string, r: string)
    requires s != ""
    ensures MarkerLen([s[0]] + RoleSub(s[1..], s[0] == '\n') + r) == MarkerLen(s + r)
    ensures SEPARATOR <= [s[0]] + RoleSub(s[1..], s[0] == '\n') + r <==> SEPARATOR <= s + r
  {
    hide RoleSub;
    MarkerChars();
    KeepsHead(s, r, USER);
    KeepsHead(s, r, ASSISTANT);
    KeepsHead(s, r, SEPARATOR);
  }

  /** A marker that is kept ends the text before and after, or neither. */
  lemma MarkerKept(s: string, lineStart: bool)
    requires MarkerLen(s) > 0 && (lineStart ==> RoleLen(s) == 0)
    ensures !lineStart
    ensures var t := [s[0]] + RoleSub(s[1..], s[0] == '\n'); MarkerLen(s) == |t| <==> MarkerLen(s) == |s|
    ensures MarkerLen(s) == |s| ==> Bare(RoleSub(s[1..], s[0] == '\n'), true)
  {
    TokenFacts(s);
    assert BlankPrefix(s) == 0 && s[0..] == s;
    MarkerChars();
    var t := [s[0]] + RoleSub(s[1..], s[0] == '\n');
    assert t == RoleSub(s, false);
    SameMarker(s, "");
    NilRight(s);
    NilRight(t);
    var p := s[..MarkerLen(s)];
    assert p == USER || p == ASSISTANT;
    if MarkerLen(s) == |t| {
      assert t == p;
      OneLineKept(s);
    }
    if MarkerLen(s) == |s| {
      assert s == p;
      OneLineUnchanged(s);
      hide RoleSub;
      assert t[1..] == s[1..];
      ShortFree(s[1..], p);
    }
  }

  lemma ShortFree(x: string, p: string)
    requires (p == USER || p == ASSISTANT) && x == p[1..]
    ensures Bare(x, true)
  {
    if p == USER {
      TooShort(x, USER);
      TooShort(x, ASSISTANT);
    } else {
      assert 'U' !in ASSISTANT;
      assert forall c | c in x :: c in p;
      LetterFree(x, USER, 'U');
      TooShort(x, ASSISTANT);
    }
    RoleFreeBare(x, true);
  }

  lemma MarkerRemovable(s: string)
    requires MarkerLen(s) > 0
    ensures RoleLen(s) > 0
  {
    TokenFacts(s);
    assert s[0..] == s;
    hide LStrip, MarkerLen;
  }

  lemma Regroup(a: string, b: string, c: string, d: string, r: string)
    ensures a + (b + (c + d)) + r == a + (b + (c + (d + r)))
  {
    Assoc(c, d, r);
    Assoc(b, c + d, r);
    Assoc(a, b + (c + d), r);
  }

  // ----- stretches between separators -----

  /** Each stretch between separators, cleaned by itself, keeps no role marker; the last one
      may keep one at its very end. */
  predicate Separable(s: string)
    decreases |s|
  {
    var i := Find(s, SEPARATOR);
    if i < 0 then Bare(RoleSub(s, true), true)
    else Bare(RoleSub(s[..i], true), false) && Separable(s[i + |SEPARATOR|..])
  }

  lemma {:induction false} SeparableClean(s: string)
    ensures Separable(s) <==> Clean(Fresh, s, true)
    decreases |s|
  {
    var i := Find(s, SEPARATOR);
    if i < 0 {
      Kept(s, true, true);
    } else {
      var w, y := s[..i], s[i + |SEPARATOR|..];
      AtCut(s, SEPARATOR, i);
      Assoc(w, SEPARATOR, y);
      SeparableClean(y);
      FirstStretch(w, y);
    }
  }

  lemma FirstStretch(w: string, y: string)
    requires Find(w + (SEPARATOR + y), SEPARATOR) == |w|
    ensures NoOcc(w, SEPARATOR)
    ensures Clean(Fresh, w + (SEPARATOR + y), true) <==> Clean(Fresh, w, false) && Clean(Fresh, y, true)
    ensures Clean(Fresh, w, false) <==> Bare(RoleSub(w, true), false)
  {
    BeforeFirst(w, SEPARATOR + y, SEPARATOR);
    Kept(w, true, false);
    SeparatorSeam(w, y);
    CleanCut(Fresh, w, SEPARATOR + y, true);
    SeparatorFirst(PlaceAfter(Fresh, w), y, true);
  }

  lemma SeparatorFirst(q: Place, y: string, last: bool)
    ensures Clean(q, SEPARATOR + y, last) <==> Clean(Fresh, y, last)
  {
    var s := SEPARATOR + y;
    assert SEPARATOR <= s;
    TokenFacts(s);
    assert s[|SEPARATOR|..] == y;
  }

  /** The text without separators and without the role markers the batch clean-up removes. */
  function Roleless(s: string): string {
    RoleSub(SepSub(s), true)
  }

  /** The batch clean-up removes every role marker, and so does cleaning each stretch between
      separators by itself. */
  ghost predicate Removable(raw: string) {
    RoleFree(Roleless(raw)) && Separable(raw)
  }

  lemma RolelessFree(x: string)
    requires RoleFree(x)
    ensures RoleFree(Roleless(x))
  {
    hide SepSub, RoleSub, NoOcc;
    MarkerChars();
    NilRight(x);
    NilRight(SepSub(x));
    SepSubFree(x, "", USER);
    SepSubFree(x, "", ASSISTANT);
    RoleFreeUnchanged(SepSub(x), true);
  }

  lemma RoleFreeRemovable(raw: string)
    requires RoleFree(raw)
    ensures Removable(raw)
  {
    hide Roleless, Separable, Clean;
    RolelessFree(raw);
    RoleFreeClean(Fresh, raw, true);
    SeparableClean(raw);
  }
}
