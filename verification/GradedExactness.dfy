/** Exactly which self-graded answers without role markers come out the same however they are cut. */
module GradedExactness {
  import opened Text
  import opened StreamFilter
  import opened Substitutions
  import opened RoleMarkers
  import opened Reading
  import opened StreamAgreement
  import opened Grades
  import opened GradedStream

  // ----- how much the notes show -----

  /** A sentinel in progress has its prefix behind what is before it. */
  predicate Sane(n: Notes) {
    n.mark.Some? ==> |n.mark.value.before| + |SENTINEL| <= |n.all|
  }

  lemma {:induction false} SaneOn(n: Notes, s: string)
    requires Sane(n)
    ensures Sane(Read(n, s))
    decreases |s|
  {
    hide Step, IsSpace, InRange, Hinge, Grown;
    if s != "" { SaneOn(Take(n, s), s[Pace(s)..]); }
  }

  lemma ShownWithin(s: string)
    ensures var n := Read(BLANK, s); |Outcome(n).text| <= |n.all| && (Final(n) ==> |Outcome(n).text| < |n.all|)
  {
    hide Read;
    SaneOn(BLANK, s);
  }

  lemma EraseCut(t: string, k: nat)
    requires k <= |t|
    ensures |Erase(t)| == |Erase(t[..k])| + |Erase(t[k..])|
  {
    hide Erase;
    Halves(t, k, "");
    EraseConcat(t[..k], t[k..]);
  }

  /** Before a sentinel in progress less shows than in all. */
  lemma PartialCut(t: string)
    requires PartialAt(t, 0) >= 0
    ensures |Erase(t[..PartialAt(t, 0)])| < |Erase(t)|
  {
    hide Erase, RStrip, At, PartialAt;
    var i := PartialSome(t);
    var p := PartialAt(t, 0);
    SentinelThere(t, i);
    EraseCut(t, p);
    EraseCut(t[p..], i - p);
    assert t[p..][i - p..] == t[i..];
    EraseConcat(SENTINEL, t[i + |SENTINEL|..]);
    EraseSentinel();
  }

  lemma SentinelThere(t: string, i: nat)
    requires At(t, SENTINEL, i)
    ensures i + |SENTINEL| <= |t| && t[i..] == SENTINEL + t[i + |SENTINEL|..]
  {}

  /** The flush shows no more than what is buffered, and less if a sentinel is in progress. */
  lemma FlushShows(st: State)
    requires RoleFree(st.buffer) && NoOcc(st.buffer, SEPARATOR)
    ensures |Erase(Flush(true, st).text)| <= |Erase(st.buffer)|
    ensures Read(BLANK, st.buffer).mark.Some? ==> |Erase(Flush(true, st).text)| < |Erase(st.buffer)|
  {
    hide Read, Settle, Erase, RoleFree, NoOcc, PartialAt, Outcome;
    var b := st.buffer;
    ReadAll(BLANK, b);
    NilLeft(Erase(b));
    if b == "" {
      ReadNothing(BLANK);
    } else {
      var t := Settle(true, b).text;
      BatchNoted(b);
      ShownWithin(b);
      if PartialAt(t, 0) >= 0 { PartialCut(t); }
      StillThere(b);
    }
  }

  /** A sentinel that is incomplete in a text is in progress when it is settled. */
  lemma StillThere(b: string)
    requires RoleFree(b)
    ensures var n, g := Read(BLANK, b), Settle(true, b);
      && RoleFree(g.text) && NoOcc(g.text, SEPARATOR)
      && (n.mark.Some? && !(Final(n) && !n.mark.value.stale) ==> PartialAt(g.text, 0) >= 0)
      && (Final(n) && !n.mark.value.stale ==> PartialAt(g.text, 0) < 0)
      && (Final(n) ==> (n.mark.value.hinged <==> Hinge(g.text)) && g.text == Extract(Substitute(b)).text)
  {
    hide *;
    var t := Substitute(b);
    NilRight(b);
    NilRight(t);
    ReadSubstitute(BLANK, b, "");
    EasedMark(Read(BLANK, t), Read(BLANK, b));
    SubstituteFree(b, "");
    SettleExtracts(b);
    ExtractFound(t);
    Interpret(t);
    CutFree(t, Extract(t).text);
  }

  lemma EasedMark(a: Notes, b: Notes)
    requires Eased(a, b)
    ensures a.mark == b.mark && Final(a) == Final(b)
  {
    hide InRange;
  }

  lemma SettleExtracts(b: string)
    ensures Settle(true, b) == Extract(Substitute(b))
  {}

  lemma CutFree(t: string, u: string)
    requires RoleFree(t) && u <= t
    ensures RoleFree(u)
  {
    hide NoOcc;
    assert t == u + t[|u|..];
    PrefixFree(u, t[|u|..], USER);
    PrefixFree(u, t[|u|..], ASSISTANT);
  }

  /** What extraction leaves of a settled text. */
  lemma ExtractFound(t: string)
    requires NoOcc(t, SEPARATOR)
    ensures var n, u := Read(BLANK, t), Extract(t).text;
      && u <= t && NoOcc(u, SEPARATOR)
      && (n.mark.Some? && !(Final(n) && !n.mark.value.stale) ==> PartialAt(u, 0) >= 0)
      && (Final(n) && !n.mark.value.stale ==> PartialAt(u, 0) < 0)
      && (Final(n) ==> (n.mark.value.hinged <==> Hinge(u)))
  {
    hide Read, Extract, NoOcc, Erase, PartialAt, Hinge, Outcome, InRange;
    Interpret(t);
    if Final(Read(BLANK, t)) { MarkMeans(t); }
  }

  /** A single chunk behind an empty buffer shows no more than its notes. */
  lemma OneShows(st: State, z: string)
    requires st.buffer == "" && RoleFree(z)
    ensures |Erase(Streamed(true, st, [z]).text)| <= |Outcome(Read(BLANK, z)).text|
  {
    hide Read, Settle, Erase, Absorb, Flush, RoleFree, NoOcc, PartialAt, Outcome, Withheld;
    NilLeft(z);
    AbsorbParts(true, st, z);
    var (emit, st') := Absorb(true, st, z);
    LastChunk(true, st, z);
    StillThere(z);
    BatchNoted(z);
    RestFree(emit, st'.buffer);
    FlushShows(st');
    EraseConcat(emit, st'.buffer);
    EraseConcat(emit, Flush(true, st').text);
  }

  lemma RestFree(head: string, tail: string)
    requires RoleFree(head + tail) && NoOcc(head + tail, SEPARATOR)
    ensures RoleFree(tail) && NoOcc(tail, SEPARATOR)
  {
    hide NoOcc;
    SuffixFree(head, tail, USER);
    SuffixFree(head, tail, ASSISTANT);
    SuffixFree(head, tail, SEPARATOR);
  }

  // ----- a sentinel in progress at the end -----

  /** In one chunk, a sentinel that stays in progress is dropped by the flush. */
  lemma ProgressDropped(raw: string)
    requires RoleFree(raw)
    requires var n := Read(BLANK, raw); n.mark.Some? && !(Final(n) && !n.mark.value.stale)
    ensures |Erase(Streamed(true, START, [raw]).text)| < |Erase(Batch(true, raw).text)|
  {
    hide Read, Settle, Erase, Absorb, Flush, RoleFree, NoOcc, PartialAt, Withheld, Final;
    NilLeft(raw);
    AbsorbParts(true, START, raw);
    var (emit, st) := Absorb(true, START, raw);
    LastChunk(true, START, raw);
    StillThere(raw);
    RestFree(emit, st.buffer);
    TailMarked(emit, st.buffer);
    FlushShows(st);
    EraseConcat(emit, st.buffer);
    EraseConcat(emit, Flush(true, st).text);
  }

  lemma TailMarked(head: string, tail: string)
    requires var t := head + tail; PartialAt(t, 0) >= 0 && |tail| == Withheld(true, t) && NoOcc(t, SEPARATOR)
    ensures Read(BLANK, tail).mark.Some?
  {
    hide MarkerTailLen, Read, NoOcc, RStrip, At;
    var t := head + tail;
    var i := PartialLast(t);
    AtConcat(head, tail, SENTINEL, i);
    SuffixFree(head, tail, SEPARATOR);
    SentinelThere(t, i);
    NoBracketLater(head, tail, i);
    ReadMark(tail, i - |head|);
  }

  lemma PartialLast(t: string) returns (i: nat)
    requires PartialAt(t, 0) >= 0
    ensures At(t, SENTINEL, i) && PartialAt(t, 0) == |RStrip(t[..i])| <= i && '[' !in t[i + |SENTINEL|..]
  {
    hide RStrip;
    i :| At(t, SENTINEL, i) && PartialAt(t, 0) == |RStrip(t[..i])| && '[' !in t[i + |SENTINEL|..];
  }

  lemma NoBracketLater(head: string, tail: string, i: nat)
    requires |head| <= i && i + |SENTINEL| <= |head + tail| && '[' !in (head + tail)[i + |SENTINEL|..]
    ensures '[' !in tail[i - |head| + |SENTINEL|..]
  {
    assert tail[i - |head| + |SENTINEL|..] == (head + tail)[i + |SENTINEL|..];
  }

  // ----- where the last sentinel stands -----

  /** Reading only part of what is left. */
  lemma PartTake(n: Notes, s: string, a: string)
    requires s != "" && a <= s[Pace(s)..]
    ensures var r := s[..Pace(s)] + a;
      Read(n, r) == Read(Take(n, s), a)
  {
    hide Read, Marked, Added, Spaced, Parted;
    var k := Pace(s);
    var r := s[..k] + a;
    assert r <= s && r[k..] == a && r[0] == s[0];
    PrefixesOf(r, s, SENTINEL);
    PrefixesOf(r, s, SEPARATOR);
    ReadOn(n, r);
  }

  lemma PrefixesOf(r: string, s: string, p: string)
    requires r <= s
    ensures p <= r ==> p <= s
    ensures p <= s && |p| <= |r| ==> p <= r
  {}

  /** The last sentinel of an answer, if the notes do not have it from before. */
  lemma {:induction false} MarkFrom(n: Notes, s: string) returns (found: bool, w: string, x: string)
    requires Read(n, s).mark.Some?
    ensures found ==> s == w + (SENTINEL + x) && Read(n, s) == Read(Marked(Read(n, w)), x)
    ensures found ==> Read(n, s).mark.value.before == Read(n, w).all
    ensures !found ==> n.mark.Some? && Read(n, s).mark.value.before == n.mark.value.before
    decreases |s|
  {
    hide Read, IsSpace, Step;
    if s == "" {
      ReadNothing(n);
      found, w, x := false, "", "";
    } else {
      var k := Pace(s);
      ReadOn(n, s);
      found, w, x := MarkFrom(Take(n, s), s[k..]);
      if found {
        PartTake(n, s, w);
        Assoc(s[..k], w, SENTINEL + x);
        assert s == s[..k] + s[k..];
        w := s[..k] + w;
      } else if SENTINEL <= s {
        ReadNothing(n);
        found, w, x := true, "", s[k..];
        assert s == SENTINEL + x;
        NilLeft(s);
      }
    }
  }

  // ----- what comes too late -----

  /** Text, not whitespace or a separator. */
  predicate Texty(s: string) {
    s != "" && !(SEPARATOR <= s) && !IsSpace(s[0])
  }

  /** Where something came too late: text, or nothing but whitespace and separators behind a hinge. */
  lemma {:induction false} Late(n: Notes, s: string) returns (w: string, x: string)
    requires Read(n, s).broken && (!n.broken || (Final(n) && !Soaked(s)))
    ensures s == w + x && Final(Read(n, w)) && Read(n, s) == Read(Read(n, w), x)
    ensures Texty(x) || (Soaked(x) && SEPARATOR <= x && Read(n, w).mark.value.hinged)
    decreases |s|
  {
    hide Read, IsSpace, Take, Final, Texty;
    LateStep(n, s);
    if s != "" && Final(n) && (Texty(s) || (SEPARATOR <= s && Soaked(s))) {
      w, x := "", s;
      NilLeft(s);
      ReadNothing(n);
    } else {
      var k := Pace(s);
      ReadOn(n, s);
      w, x := Late(Take(n, s), s[k..]);
      assert s == s[..k] + s[k..];
      PartTake(n, s, w);
      Assoc(s[..k], w, x);
      w := s[..k] + w;
    }
  }

  lemma LateStep(n: Notes, s: string)
    requires Read(n, s).broken && (!n.broken || (Final(n) && !Soaked(s)))
    ensures s != ""
    ensures Final(n) && SEPARATOR <= s && Soaked(s) ==> n.mark.value.hinged
    ensures !(Final(n) && (Texty(s) || (SEPARATOR <= s && Soaked(s)))) ==>
      var m := Take(n, s); !m.broken || (Final(m) && !Soaked(s[Pace(s)..]))
  {
    hide Read;
    ReadNothing(n);
    if Final(n) && Soaked(s) && !n.broken && !n.mark.value.hinged { Unhinged(n, s); }
    if !(Final(n) && (Texty(s) || (SEPARATOR <= s && Soaked(s)))) { LateTake(n, s); }
  }

  lemma LateTake(n: Notes, s: string)
    requires s != "" && (!n.broken || (Final(n) && !Soaked(s)))
    requires !(Final(n) && (Texty(s) || (SEPARATOR <= s && Soaked(s))))
    ensures var m := Take(n, s); !m.broken || (Final(m) && !Soaked(s[Pace(s)..]))
  {
    assert SENTINEL[0] == '[' && SEPARATOR[0] == '|' && !IsSpace('[');
    PrefixChar(s, SENTINEL, 0);
    PrefixChar(s, SEPARATOR, 0);
    hide NatValue, Hinge, IsSpace;
  }

  lemma {:induction false} Unhinged(n: Notes, s: string)
    requires Final(n) && Soaked(s) && !n.broken && !n.mark.value.hinged
    ensures !Read(n, s).broken
    decreases |s|
  {
    hide Read;
    if s == "" {
      ReadNothing(n);
    } else {
      ReadOn(n, s);
      UnhingedTake(n, s);
      Unhinged(Take(n, s), s[Pace(s)..]);
    }
  }

  lemma UnhingedTake(n: Notes, s: string)
    requires s != "" && Final(n) && Soaked(s) && !n.broken && !n.mark.value.hinged
    ensures var m := Take(n, s);
      Final(m) && !m.broken && !m.mark.value.hinged && Soaked(s[Pace(s)..])
  {
    assert SENTINEL[0] == '[' && SEPARATOR[0] == '|' && !IsSpace('[');
    PrefixChar(s, SENTINEL, 0);
    hide NatValue, Hinge;
  }

  // ----- text behind a complete sentinel -----

  /** What is in progress in `b` is so in the later part `a`, unless it cannot be completed. */
  predicate Over(p: string, a: Notes, b: Notes) {
    && b.all == p + a.all
    && (b.mark.Some? && b.mark.value.tail != Bad ==>
        && a.mark.Some? && a.mark.value.tail == b.mark.value.tail
        && b.mark.value.before == p + a.mark.value.before)
  }

  lemma TakeOver(p: string, a: Notes, b: Notes, s: string)
    requires s != "" && Over(p, a, b)
    ensures Over(p, Take(a, s), Take(b, s))
  {
    hide IsSpace, NatValue, Hinge, Grown;
    Assoc(p, a.all, SENTINEL);
    Assoc(p, a.all, [s[0]]);
  }

  lemma {:induction false} ReadOver(p: string, a: Notes, b: Notes, s: string)
    requires Over(p, a, b)
    ensures Over(p, Read(a, s), Read(b, s))
    decreases |s|
  {
    hide Read, Over, Take;
    if s == "" {
      ReadNothing(a);
      ReadNothing(b);
    } else {
      ReadOn(a, s);
      ReadOn(b, s);
      TakeOver(p, a, b, s);
      ReadOver(p, Take(a, s), Take(b, s), s[Pace(s)..]);
    }
  }

  lemma TextOver(n: Notes, x: string)
    requires Final(n) && Texty(x)
    ensures Over(n.all, Take(BLANK, x), Take(n, x))
  {
    hide NatValue, Hinge, Grown;
    NilLeft(SENTINEL);
  }

  /** Text behind a complete sentinel makes the sentinel visible. */
  lemma TextShows(n: Notes, x: string)
    requires Final(n) && Texty(x)
    ensures |Outcome(Read(n, x)).text| >= |n.all| + |Outcome(Read(BLANK, x)).text|
  {
    hide Read, Take, Final, Texty;
    TextSome(x);
    TextOver(n, x);
    ReadOn(n, x);
    ReadOn(BLANK, x);
    ReadOver(n.all, Take(BLANK, x), Take(n, x), x[Pace(x)..]);
    ShownWithin(x);
    OverShows(n.all, Read(BLANK, x), Read(n, x));
  }

  lemma TextSome(x: string)
    requires Texty(x)
    ensures x != ""
  {}

  lemma OverShows(p: string, a: Notes, b: Notes)
    requires Over(p, a, b) && |Outcome(a).text| <= |a.all|
    ensures |Outcome(b).text| >= |p| + |Outcome(a).text|
  {
    hide NatValue;
  }

  lemma WithheldPartial(t: string)
    requires PartialAt(t, 0) >= 0
    ensures Withheld(true, t) == |t| - PartialAt(t, 0)
  {
    hide MarkerTailLen, RStrip, At, PartialAt;
    var n, p := MarkerTailLen(true, t), PartialAt(t, 0);
    if |t| - p < n {
      var i := PartialSome(t);
      SentinelThere(t, i);
      TailForm(true, t, n);
      BracketBehind(t, |t| - n, i);
      BracketShort(t[|t| - n..]);
    }
  }

  lemma BracketShort(tail: string)
    requires '[' in tail
    requires AllSpace(tail) || tail <= SEPARATOR || tail <= USER || tail <= ASSISTANT || tail <= SENTINEL
    ensures |tail| <= |SENTINEL|
  {
    assert !IsSpace('[');
    assert '[' !in SEPARATOR && '[' !in USER && '[' !in ASSISTANT;
    assert forall p: string, c | tail <= p && c in tail :: c in p;
  }

  lemma {:induction false} ScanLead(t: Tail, s: string)
    requires Scan(t, s) == Lead
    ensures t == Lead && AllSpace(s)
    decreases |s|
  {
    hide IsSpace;
    if s != "" {
      ScanLead(Step(t, s[0]), s[1..]);
      assert s == [s[0]] + s[1..];
    }
  }

  lemma OpenNotes(p: string)
    ensures Read(BLANK, p + SENTINEL) == Marked(Read(BLANK, p))
  {
    hide Read, Marked, Apart;
    NilRight(SENTINEL);
    SentinelApart(p, "");
    ReadCut(BLANK, p, SENTINEL);
    SentinelTaken(Read(BLANK, p), "");
    ReadNothing(Marked(Read(BLANK, p)));
  }

  /** A chunk that ends in the prefix of a sentinel leaves just the prefix buffered. */
  lemma OpenChunk(p: string) returns (ws: string, after: string)
    requires RoleFree(p + SENTINEL)
    ensures var (emit, st) := Absorb(true, START, p + SENTINEL);
      && Erase(emit) == Read(BLANK, p).all
      && st == State(ws + (SENTINEL + after), None) && AllSpace(ws) && AllSpace(after)
    ensures RoleFree(Absorb(true, START, p + SENTINEL).0 + Absorb(true, START, p + SENTINEL).1.buffer)
  {
    hide *;
    var b := p + SENTINEL;
    NilLeft(b);
    BufferBlank();
    var t := OpenSettled(p);
    AbsorbParts(true, START, b);
    WithheldPartial(t);
    var (emit, st) := Absorb(true, START, b);
    var i := PartialLast(t);
    ws, after := OpenParts(t, i, emit, st.buffer);
    OpenMark(p, t, i);
    LatestNone(None);
  }

  lemma BufferBlank()
    ensures START.buffer == "" && START.grade == None
  {}

  lemma OpenSettled(p: string) returns (t: string)
    requires RoleFree(p + SENTINEL)
    ensures Settle(true, p + SENTINEL) == Graded(t, None) && RoleFree(t) && NoOcc(t, SEPARATOR)
    ensures PartialAt(t, 0) >= 0
    ensures Read(BLANK, t).mark.Some? && Read(BLANK, t).mark.value.before == Read(BLANK, p).all
    ensures Read(BLANK, t).mark.value.tail == Lead
  {
    hide Read, Substitute, Extract, NoOcc, Erase, PartialAt;
    var b := p + SENTINEL;
    OpenNotes(p);
    NilRight(b);
    t := Substitute(b);
    NilRight(t);
    ReadSubstitute(BLANK, b, "");
    SubstituteFree(b, "");
    Interpret(t);
  }

  lemma OpenMark(p: string, t: string, i: nat)
    requires NoOcc(t, SEPARATOR) && At(t, SENTINEL, i) && '[' !in t[i + |SENTINEL|..]
    requires Read(BLANK, t).mark.Some? && Read(BLANK, t).mark.value.before == Read(BLANK, p).all
    requires Read(BLANK, t).mark.value.tail == Lead
    ensures Erase(RStrip(t[..i])) == Read(BLANK, p).all && AllSpace(t[i + |SENTINEL|..])
  {
    hide Read, NoOcc, Erase, RStrip, AllSpace;
    ReadMark(t, i);
    ScanLead(Lead, t[i + |SENTINEL|..]);
    EraseRStrip(t[..i]);
  }

  lemma OpenParts(t: string, i: nat, emit: string, buffer: string) returns (ws: string, after: string)
    requires At(t, SENTINEL, i) && PartialAt(t, 0) == |RStrip(t[..i])|
    requires t == emit + buffer && |buffer| == |t| - PartialAt(t, 0)
    ensures emit == RStrip(t[..i]) && buffer == ws + (SENTINEL + after) && AllSpace(ws)
    ensures i + |SENTINEL| <= |t| && after == t[i + |SENTINEL|..]
  {
    hide PartialAt, RStrip, AllSpace;
    PartialParts(t, i);
    var k := |RStrip(t[..i])|;
    StripPart(t, i);
    ws, after := t[k..i], t[i + |SENTINEL|..];
    Assoc(ws, SENTINEL, after);
    assert buffer == t[k..] && emit == t[..k];
  }

  /** Notes of a sentinel by itself. */
  lemma CloseNotes(n: Notes, ws: string, after: string, y: string)
    requires AllSpace(ws) && AllSpace(after)
    ensures Under(n.all, Read(BLANK, ws + (SENTINEL + after) + y), Read(Marked(n), y))
  {
    hide Read, Under, Spaced, Marked;
    Assoc(SENTINEL, after, y);
    Assoc(ws, SENTINEL + after, y);
    ReadSpaces(BLANK, ws, SENTINEL + (after + y));
    var a := if ws == "" then BLANK else Spaced(BLANK);
    SentinelTaken(a, after + y);
    ReadSpaces(Marked(a), after, y);
    var m := if after == "" then Marked(a) else Spaced(Marked(a));
    MarkedUnder(n, ws == "", after == "");
    ReadUnder(n.all, m, Marked(n), y);
  }

  lemma MarkedUnder(n: Notes, f: bool, g: bool)
    ensures var a := if f then BLANK else Spaced(BLANK);
      Under(n.all, if g then Marked(a) else Spaced(Marked(a)), Marked(n))
  {
    NilRight(n.all);
    NilLeft(SENTINEL);
    assert !Hinge("");
    hide Hinge, NatValue;
  }

  /** A chunk that completes a sentinel with nothing before it leaves nothing. */
  lemma CloseChunk(n: Notes, ws: string, after: string, y: string)
    requires AllSpace(ws) && AllSpace(after) && RoleFree(ws + (SENTINEL + after) + y)
    requires var m := Read(Marked(n), y); Final(m) && m.mark.value.before == n.all
    ensures var (emit, st) := Absorb(true, State(ws + (SENTINEL + after), None), y); emit == "" && st.buffer == ""
  {
    hide Read, Marked, Substitute, Extract, Settle, Absorb, Withheld, Erase, RoleFree, AllSpace;
    var st, b := State(ws + (SENTINEL + after), None), ws + (SENTINEL + after) + y;
    CloseNotes(n, ws, after, y);
    CloseOutcome(n.all, Read(BLANK, b), Read(Marked(n), y));
    BatchNoted(b);
    StillThere(b);
    SettleExtracts(b);
    ExtractEmpty(Substitute(b));
    AbsorbParts(true, st, y);
  }

  lemma CloseOutcome(p: string, a: Notes, b: Notes)
    requires Under(p, a, b) && Final(b) && b.mark.value.before == p
    ensures Final(a) && Outcome(a).text == "" && Outcome(a).grade.Some?
  {
    assert |b.mark.value.before| == |p| + |a.mark.value.before|;
  }

  lemma ExtractEmpty(t: string)
    requires Extract(t).grade.Some? && Erase(Extract(t).text) == ""
    ensures Extract(t).text == ""
  {
    hide Erase, RStrip;
    SolidLast(RStrip(t[..SentinelAt(t, 0)]));
  }

  lemma SolidLast(u: string)
    requires u == "" || !IsSpace(u[|u| - 1])
    ensures Erase(u) == "" ==> u == ""
  {
    hide IsSpace, Erase;
    if u != "" {
      var k := |u| - 1;
      assert u[k..] == [u[k]];
      EraseCut(u, k);
      EraseOne(u[k]);
    }
  }

  /** Cut inside a sentinel and behind it, an answer with text behind it shows less. */
  lemma TextLate(raw: string, w: string, x: string) returns (chunks: seq<string>)
    requires RoleFree(raw) && raw == w + x && Texty(x)
    requires Final(Read(BLANK, w)) && Read(BLANK, raw) == Read(Read(BLANK, w), x)
    ensures Concat(chunks) == raw
    ensures |Erase(Streamed(true, START, chunks).text)| < |Erase(Batch(true, raw).text)|
  {
    hide *;
    FinalSome(Read(BLANK, w));
    BlankNone();
    var found, p, y := MarkFrom(BLANK, w);
    var ws, after := ThreeChunks(raw, p, y, x);
    chunks := [p + SENTINEL] + ([y] + [x]);
    var emit := Absorb(true, START, p + SENTINEL).0;
    var st := Absorb(true, State(ws + (SENTINEL + after), None), y).1;
    var last := Streamed(true, st, [x]).text;
    FirstChunk(true, START, p + SENTINEL, [y] + [x]);
    FirstChunk(true, State(ws + (SENTINEL + after), None), y, [x]);
    ConcatOne(x);
    Regroup(raw, p, y, x);
    NilLeft(last);
    EraseConcat(emit, last);
    PartFree(w, x);
    OneShows(st, x);
    TextShows(Read(BLANK, w), x);
    MarkShows(w);
    BatchNoted(raw);
  }

  lemma FinalSome(n: Notes)
    requires Final(n)
    ensures n.mark.Some?
  {}

  lemma BlankNone()
    ensures BLANK.mark.None?
  {}

  lemma ConcatOne(x: string)
    ensures Concat([x]) == x
  {
    assert [x][1..] == [];
    NilRight(x);
  }

  lemma Regroup(raw: string, p: string, y: string, x: string)
    requires raw == p + (SENTINEL + y) + x
    ensures raw == p + SENTINEL + (y + x)
  {
    Assoc(p, SENTINEL + y, x);
    Assoc(SENTINEL, y, x);
    Assoc(p, SENTINEL, y + x);
  }

  lemma PartFree(w: string, x: string)
    requires RoleFree(w + x)
    ensures RoleFree(w) && RoleFree(x)
  {
    hide NoOcc;
    PrefixFree(w, x, USER);
    PrefixFree(w, x, ASSISTANT);
    SuffixFree(w, x, USER);
    SuffixFree(w, x, ASSISTANT);
  }

  lemma MarkShows(w: string)
    requires Final(Read(BLANK, w))
    ensures |Read(BLANK, w).mark.value.before| < |Read(BLANK, w).all|
  {
    hide Read;
    SaneOn(BLANK, w);
  }

  /** The first two of the three chunks. */
  lemma ThreeChunks(raw: string, p: string, y: string, x: string) returns (ws: string, after: string)
    requires RoleFree(raw) && raw == p + (SENTINEL + y) + x
    requires var m := Read(Marked(Read(BLANK, p)), y); Final(m) && m.mark.value.before == Read(BLANK, p).all
    ensures var (emit, st) := Absorb(true, START, p + SENTINEL);
      Erase(emit) == Read(BLANK, p).all && st == State(ws + (SENTINEL + after), None)
    ensures var (emit, st) := Absorb(true, State(ws + (SENTINEL + after), None), y); emit == "" && st.buffer == ""
  {
    hide Read, Marked, Absorb, Erase, RoleFree, Final, AllSpace;
    Assoc(p, SENTINEL, y);
    PartFree(p + SENTINEL + y, x);
    PartFree(p + SENTINEL, y);
    ws, after := OpenChunk(p);
    OpenFree(p, y);
    CloseChunk(Read(BLANK, p), ws, after, y);
  }

  lemma OpenFree(p: string, y: string)
    requires RoleFree(p + SENTINEL + y)
    ensures RoleFree(Absorb(true, START, p + SENTINEL).1.buffer + y)
  {
    hide Absorb, Substitute, Withheld, Extract, RoleFree;
    var b := p + SENTINEL;
    NilLeft(b);
    PartFree(b, y);
    var t := OpenSettled(p);
    SettleExtracts(b);
    SubstituteFree(b, y);
    ExtractSame(Substitute(b));
    AbsorbParts(true, START, b);
    var (emit, st) := Absorb(true, START, b);
    Assoc(emit, st.buffer, y);
    PartFree(emit, st.buffer + y);
  }

  lemma ExtractSame(t: string)
    ensures Extract(t).grade.None? ==> Extract(t).text == t
  {}

  // ----- a separator behind a hinge -----

  lemma {:induction false} SoakedKeeps(n: Notes, x: string)
    requires Final(n) && Soaked(x)
    ensures Read(n, x).mark == n.mark
    decreases |x|
  {
    hide Read;
    if x == "" {
      ReadNothing(n);
    } else {
      ReadOn(n, x);
      SoakedStays(n, x);
      SoakedKeeps(Take(n, x), x[Pace(x)..]);
    }
  }

  lemma SoakedStays(n: Notes, x: string)
    requires Final(n) && Soaked(x) && x != ""
    ensures Take(n, x).mark == n.mark && Soaked(x[Pace(x)..])
  {
    assert SENTINEL[0] == '[' && SEPARATOR[0] == '|' && !IsSpace('[');
    PrefixChar(x, SENTINEL, 0);
    hide NatValue, Hinge;
  }

  const HINGE := SEPARATOR[..|SEPARATOR| - 1]

  /** What ends in a separator that lacks its last character keeps just that buffered. */
  lemma HingeWithheld(u: string)
    requires Hinge(u) && NoOcc(u, SEPARATOR) && PartialAt(u, 0) < 0
    ensures Withheld(true, u) == |HINGE|
  {
    hide Withheld, NoOcc, PartialAt, MarkerTailLen;
    var n := MarkerTailLen(true, u);
    NoneInProgress(u);
    HingeHeld(u);
    TailForm(true, u, n);
    var tail := u[|u| - n..];
    HingeEnds(u, n);
    HingeTail(tail);
    Halves(u, |u| - n, "");
    SuffixFree(u[..|u| - n], tail, SEPARATOR);
    if n == |SEPARATOR| { WholeThere(tail); }
  }

  lemma NoneInProgress(u: string)
    requires PartialAt(u, 0) < 0
    ensures Withheld(true, u) == MarkerTailLen(true, u)
  {
    hide MarkerTailLen, PartialAt;
  }

  lemma HingeHeld(u: string)
    requires Hinge(u)
    ensures Withheld(true, u) >= |HINGE|
  {
    hide Withheld, Dangling;
    MarkersWithheld(true, u);
  }

  lemma HingeEnds(u: string, n: nat)
    requires Hinge(u) && |HINGE| <= n <= |u|
    ensures var tail := u[|u| - n..]; |tail| >= |HINGE| && tail[|tail| - |HINGE|..] == HINGE
  {
    assert u[|u| - n..][n - |HINGE|..] == u[|u| - |HINGE|..];
  }

  lemma WholeThere(tail: string)
    requires tail <= SEPARATOR && |tail| == |SEPARATOR|
    ensures !NoOcc(tail, SEPARATOR)
  {
    assert At(tail, SEPARATOR, 0);
  }

  lemma HingeTail(tail: string)
    requires |tail| >= |HINGE| && tail[|tail| - |HINGE|..] == HINGE
    requires AllSpace(tail) || tail <= SEPARATOR || tail <= USER || tail <= ASSISTANT || tail <= SENTINEL
    ensures tail <= SEPARATOR
  {
    var c := tail[|tail| - 1];
    assert c == tail[|tail| - |HINGE|..][|HINGE| - 1] == '>';
    assert c in tail && !IsSpace('>');
    assert '>' !in USER && '>' !in ASSISTANT && '>' !in SENTINEL;
    assert forall p: string | tail <= p :: c in p;
  }

  lemma {:induction false} Plainly(n: Notes, t: string)
    requires n.mark.None? && '[' !in t && NoOcc(t, SEPARATOR)
    ensures Read(n, t).mark.None? && Read(n, t).broken == n.broken
    decreases |t|
  {
    hide Read, NoOcc, IsSpace;
    if t == "" {
      ReadNothing(n);
    } else {
      NoSeparatorDrop(t, 1);
      assert t[0] in t && forall c | c in t[1..] :: c in t;
      PrefixChar(t, SENTINEL, 0);
      ReadOn(n, t);
      Plainly(Take(n, t), t[1..]);
    }
  }

  /** The separator that the hinge and the first character behind it make leaves the rest visible. */
  lemma HingeNotes(x: string)
    requires SEPARATOR <= x && Soaked(x)
    ensures var n := Read(BLANK, HINGE + x); Tidy(n) && Outcome(n) == Graded(SEPARATOR[1..], None)
  {
    hide Read, NoOcc, Soaked, IsSpace, Apart, Erase;
    var y, q := x[|SEPARATOR|..], SEPARATOR[1..];
    HingeSplit(x);
    ReadSeparator(BLANK, q + y);
    PartedBlank();
    NotAHinge();
    SoakedDrop(x);
    SoakedApart(q, y);
    ReadCut(BLANK, q, y);
    TooShort(q, SEPARATOR);
    Plainly(BLANK, q);
    ReadAll(BLANK, q);
    NilLeft(Erase(q));
    RestSolid();
    EraseSolid(q);
    SoakedRead(Read(BLANK, q), y);
  }

  lemma HingeSplit(x: string)
    requires SEPARATOR <= x
    ensures HINGE + x == SEPARATOR + (SEPARATOR[1..] + x[|SEPARATOR|..])
  {
    assert x == SEPARATOR + x[|SEPARATOR|..];
    assert HINGE + SEPARATOR == SEPARATOR + SEPARATOR[1..];
    Assoc(HINGE, SEPARATOR, x[|SEPARATOR|..]);
    Assoc(SEPARATOR, SEPARATOR[1..], x[|SEPARATOR|..]);
  }

  lemma PartedBlank()
    ensures Parted(BLANK) == BLANK
  {}

  lemma NotAHinge()
    ensures !Hinge(SEPARATOR[1..]) && '[' !in SEPARATOR[1..] && HINGE != SEPARATOR[1..]
  {
    assert SEPARATOR[1..][0] != HINGE[0];
  }

  lemma SoakedDrop(x: string)
    requires SEPARATOR <= x && Soaked(x)
    ensures Soaked(x[|SEPARATOR|..])
  {}

  lemma RestSolid()
    ensures forall c | c in SEPARATOR[1..] :: !IsSpace(c)
    ensures forall c | c in HINGE :: !IsSpace(c)
  {}

  lemma HingeFree(x: string)
    requires RoleFree(x) && Soaked(x)
    ensures RoleFree(HINGE + x)
  {
    LetterFree(HINGE, USER, 'U');
    LetterFree(HINGE, ASSISTANT, 'A');
    SoakedFree(HINGE, x);
  }

  /** With a hinge buffered, a separator comes out the wrong way round. */
  lemma HingeShows(g: Option<nat>, x: string)
    requires RoleFree(x) && SEPARATOR <= x && Soaked(x)
    ensures Erase(Streamed(true, State(HINGE, g), [x]).text) == SEPARATOR[1..]
  {
    hide Read, Streamed, RoleFree, Tidy, Outcome, Soaked, Erase;
    HingeNotes(x);
    HingeFree(x);
    ConcatOne(x);
    NilLeft(Streamed(true, State(HINGE, g), [x]).text);
    NothingErased(SEPARATOR[1..]);
    LatestNone(g);
    RunBalanced(Graded(SEPARATOR[1..], g), "", State(HINGE, g), [x]);
  }

  /** Cut behind the sentinel, an answer with a separator behind a hinge shows something else. */
  lemma HingeLate(raw: string, w: string, x: string)
    requires RoleFree(raw) && raw == w + x && SEPARATOR <= x && Soaked(x)
    requires Final(Read(BLANK, w)) && Read(BLANK, raw) == Read(Read(BLANK, w), x)
    requires var m := Read(BLANK, w).mark.value; m.hinged && !m.stale
    ensures Concat([w] + [x]) == raw
    ensures Erase(Streamed(true, START, [w] + [x]).text) != Erase(Batch(true, raw).text)
  {
    hide *;
    FirstChunk(true, START, w, [x]);
    ConcatOne(x);
    PartFree(w, x);
    var (emit, st) := Absorb(true, START, w);
    var u := HingeChunk(w, emit, st);
    HingeShows(st.grade, x);
    EraseConcat(emit, Streamed(true, st, [x]).text);
    SoakedKeeps(Read(BLANK, w), x);
    FinalOutcome(Read(BLANK, w), Read(BLANK, raw));
    BatchNoted(raw);
    Unlike(Erase(emit));
  }

  lemma Unlike(a: string)
    ensures a + HINGE != a + SEPARATOR[1..]
  {
    NotAHinge();
    assert (a + HINGE)[|a|..] == HINGE && (a + SEPARATOR[1..])[|a|..] == SEPARATOR[1..];
  }

  lemma HingeChunk(w: string, emit: string, st: State) returns (u: string)
    requires RoleFree(w) && Absorb(true, START, w) == (emit, st)
    requires Final(Read(BLANK, w))
    requires var m := Read(BLANK, w).mark.value; m.hinged && !m.stale
    ensures st.buffer == HINGE && Erase(emit) + HINGE == Outcome(Read(BLANK, w)).text
  {
    hide Read, Absorb, Settle, Erase, NoOcc, PartialAt, Withheld, Outcome, NatValue;
    NilLeft(w);
    StillThere(w);
    BatchNoted(w);
    AbsorbParts(true, START, w);
    u := Settle(true, w).text;
    HingeWithheld(u);
    assert st.buffer == u[|u| - |HINGE|..];
    EraseConcat(emit, st.buffer);
    RestSolid();
    EraseSolid(HINGE);
  }

  // ----- the exact condition -----

  ghost predicate GradedHoweverCut(raw: string) {
    forall chunks: seq<string> | Concat(chunks) == raw ::
      var s, b := Streamed(true, START, chunks), Batch(true, raw);
      Erase(s.text) == Erase(b.text) && s.grade == b.grade
  }

  /** Cuts that make an untidy answer come out differently. */
  lemma UntidyCut(raw: string) returns (chunks: seq<string>)
    requires RoleFree(raw) && !Tidy(Read(BLANK, raw))
    ensures Concat(chunks) == raw
    ensures Erase(Streamed(true, START, chunks).text) != Erase(Batch(true, raw).text)
  {
    hide Read, Streamed, Erase, RoleFree, Concat, Texty, Soaked, InRange;
    var n := Read(BLANK, raw);
    if n.mark.Some? && !(Final(n) && !n.mark.value.stale) {
      chunks := [raw];
      ConcatOne(raw);
      ProgressDropped(raw);
    } else {
      var w, x := Late(BLANK, raw);
      if Texty(x) {
        chunks := TextLate(raw, w, x);
      } else {
        SoakedKeeps(Read(BLANK, w), x);
        chunks := [w] + [x];
        HingeLate(raw, w, x);
      }
    }
  }

  /** A self-graded answer without role markers comes out the same, text and grade, however it is
      cut, if and only if its notes are tidy. */
  lemma GradedExactly(raw: string)
    requires RoleFree(raw)
    ensures GradedHoweverCut(raw) <==> Tidy(Read(BLANK, raw))
  {
    hide Read, Streamed, Erase, RoleFree, Tidy, Concat, Settle;
    if Tidy(Read(BLANK, raw)) {
      forall chunks: seq<string> | Concat(chunks) == raw
        ensures var s, b := Streamed(true, START, chunks), Batch(true, raw);
          Erase(s.text) == Erase(b.text) && s.grade == b.grade
      {
        TidyAgrees(chunks);
      }
    } else {
      var chunks := UntidyCut(raw);
      assert Concat(chunks) == raw;
    }
  }
}
