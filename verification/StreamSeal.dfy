/** Why a separator leaves the stream only where its pieces stood in the answer. */
module StreamSeal {
  import opened Text
  import opened StreamFilter
  import opened Substitutions
  import opened RoleMarkers
  import opened Cleaning
  import opened Reading
  import opened StreamAgreement
  import opened Pieces

  // ----- the invariant -----

  /** A separator is there, or can still be put together: out of the end of what was emitted and
      of text to come, or out of that text alone. */
  ghost predicate Danger(emitted: string, rest: string) {
    || !NoOcc(emitted, SEPARATOR) || Pieced(rest)
    || exists k: nat | 0 < k < |SEPARATOR| :: Dangling(emitted, SEPARATOR, k) && Completes(Solid(k), rest)
  }

  lemma DangerReflects(emitted: string, a: string, b: string)
    requires Reflects(a, b) && Danger(emitted, a)
    ensures Danger(emitted, b)
  {
    hide Completes, Pieced, Dangling, NoOcc;
  }

  /** No separator starts in `h`. */
  ghost predicate Startless(h: string, x: string) {
    forall j: nat | j < |h| :: !(SEPARATOR <= (h + x)[j..])
  }

  lemma StartlessRest(h: string, x: string, n: nat)
    requires Startless(h, x) && n <= |h|
    ensures Startless(h[n..], x)
  {
    forall j: nat | j < |h[n..]|
      ensures !(SEPARATOR <= (h[n..] + x)[j..])
    {
      assert (h[n..] + x)[j..] == (h + x)[j + n..];
    }
  }

  lemma StartlessFirst(h: string, x: string)
    requires Startless(h, x) && h != ""
    ensures !(SEPARATOR <= h + x) && (h + x)[0] == h[0] && (h + x)[1..] == h[1..] + x
  {
    assert (h + x)[0..] == h + x;
  }

  /** Further characters of a separator. */
  lemma {:induction false} Through(k: nat, q: string, x: string)
    requires k + |q| <= |SEPARATOR| && q == SEPARATOR[k..k + |q|] && Startless(q, x)
    ensures Reach(Solid(k), q + x) == Reach(Solid(k + |q|), x)
    decreases |q|
  {
    hide Reach, Startless;
    if q == "" {
      NilLeft(x);
    } else {
      StartlessFirst(q, x);
      StartlessRest(q, x, 1);
      assert q[0] == SEPARATOR[k] && q[1..] == SEPARATOR[k + 1..k + |q|];
      SeparatorSolid();
      NotARole(q + x);
      ReachStep(Solid(k), q + x);
      Through(k + 1, q[1..], x);
    }
  }

  lemma NotARole(s: string)
    requires s != "" && s[0] != 'U' && s[0] != 'A'
    ensures MarkerLen(s) == 0
  {
    TokenFacts(s);
  }

  lemma {:induction false} PiecedBehind(h: string, x: string)
    requires Startless(h, x) && Pieced(x)
    ensures Pieced(h + x)
    decreases |h|
  {
    hide Completes, Startless;
    if h == "" {
      NilLeft(x);
    } else {
      StartlessFirst(h, x);
      StartlessRest(h, x, 1);
      PiecedBehind(h[1..], x);
    }
  }

  /** Emitting text in which no separator starts adds no danger. */
  lemma EmitDanger(emitted: string, head: string, x: string)
    requires Startless(head, x) && Danger(emitted + head, x)
    ensures Danger(emitted, head + x)
  {
    hide Completes, Pieced, Startless, NoOcc, Dangling, At;
    if !NoOcc(emitted + head, SEPARATOR) {
      WholeAcross(emitted, head, x);
    } else if Pieced(x) {
      PiecedBehind(head, x);
    } else {
      var k: nat :| 0 < k < |SEPARATOR| && Dangling(emitted + head, SEPARATOR, k) && Completes(Solid(k), x);
      PieceAcross(emitted, head, x, k);
    }
  }

  /** A separator that is complete now was nearly so before. */
  lemma WholeAcross(emitted: string, head: string, x: string)
    requires Startless(head, x) && !NoOcc(emitted + head, SEPARATOR)
    ensures Danger(emitted, head + x)
  {
    hide Reach, Pieced;
    var i: nat :| At(emitted + head, SEPARATOR, i);
    AtConcat(emitted, head, SEPARATOR, i);
    if i + |SEPARATOR| > |emitted| {
      if i >= |emitted| {
        AtHead(head, x, i - |emitted|);
      } else {
        var k := |emitted| - i;
        var n := |SEPARATOR| - k;
        Straddles(emitted, head, i);
        StartlessPrefix(head, x, n);
        Through(k, head[..n], head[n..] + x);
        Halves(head, n, x);
        ReachEnd(WHOLE, head[n..] + x);
        assert Dangling(emitted, SEPARATOR, k) && Completes(Solid(k), head + x);
      }
    }
  }

  lemma AtHead(head: string, x: string, j: nat)
    requires At(head, SEPARATOR, j)
    ensures !Startless(head, x)
  {
    AtConcat(head, x, SEPARATOR, j);
    assert SEPARATOR <= (head + x)[j..];
  }

  lemma Straddles(e: string, h: string, i: nat)
    requires At(e + h, SEPARATOR, i) && i < |e| < i + |SEPARATOR|
    ensures var k, n := |e| - i, i + |SEPARATOR| - |e|;
      n <= |h| && Dangling(e, SEPARATOR, k) && h[..n] == SEPARATOR[k..k + n]
  {
    var k, n := |e| - i, i + |SEPARATOR| - |e|;
    var s := (e + h)[i..i + |SEPARATOR|];
    assert s == SEPARATOR;
    assert s[..k] == e[i..] && s[k..] == h[..n];
  }

  lemma StartlessPrefix(h: string, x: string, n: nat)
    requires Startless(h, x) && n <= |h|
    ensures Startless(h[..n], h[n..] + x)
  {
    Halves(h, n, x);
  }

  /** A piece at the end of what was emitted began in the new part or before it. */
  lemma PieceAcross(emitted: string, head: string, x: string, k: nat)
    requires Startless(head, x) && 0 < k < |SEPARATOR|
    requires Dangling(emitted + head, SEPARATOR, k) && Completes(Solid(k), x)
    ensures Danger(emitted, head + x)
  {
    hide Reach;
    var s := emitted + head;
    if k <= |head| {
      var n := |head| - k;
      assert s[|s| - k..] == head[n..];
      StartlessRest(head, x, n);
      PieceStarts(head[n..], x, k);
      StartlessPrefix(head, x, n);
      PiecedBehind(head[..n], head[n..] + x);
      Halves(head, n, x);
    } else {
      var j := k - |head|;
      assert s[|s| - k..] == emitted[|emitted| - j..] + head;
      assert SEPARATOR[..k] == SEPARATOR[..j] + SEPARATOR[j..k];
      Pairs(emitted[|emitted| - j..], head, SEPARATOR[..j], SEPARATOR[j..k]);
      Through(j, head, x);
      assert Dangling(emitted, SEPARATOR, j) && Completes(Solid(j), head + x);
    }
  }

  lemma Pairs(a: string, b: string, c: string, d: string)
    requires a + b == c + d && |a| == |c|
    ensures a == c && b == d
  {
    assert a == (a + b)[..|a|] && c == (c + d)[..|c|] && b == (a + b)[|a|..] && d == (c + d)[|c|..];
  }

  lemma PieceStarts(q: string, x: string, k: nat)
    requires 0 < k < |SEPARATOR| && q == SEPARATOR[..k] && Startless(q, x) && Completes(Solid(k), x)
    ensures Pieced(q + x)
  {
    hide Reach;
    StartlessFirst(q, x);
    StartlessRest(q, x, 1);
    assert q[1..] == SEPARATOR[1..k];
    Through(1, q[1..], x);
  }

  // ----- one chunk -----

  lemma HeadStartless(grading: bool, t: string, rest: string, head: string, tail: string)
    requires NoOcc(t, SEPARATOR) && t == head + tail && |tail| == Withheld(grading, t)
    ensures Startless(head, tail + rest)
  {
    hide Withheld;
    MarkersWithheld(grading, t);
    Assoc(head, tail, rest);
    forall j: nat | j < |head|
      ensures !(SEPARATOR <= (head + (tail + rest))[j..])
    {
      PrefixAt(t + rest, SEPARATOR, j);
      AtConcat(t, rest, SEPARATOR, j);
      if SEPARATOR <= (t + rest)[j..] { DanglingFromAt(t, rest, SEPARATOR, j); }
    }
  }

  /** Behind an extracted sentinel only whitespace comes. */
  lemma ExtractShut(t: string, r: string)
    requires Substituted(t) && Settled(View(true, t + r))
    ensures Extract(t).text <= t
    ensures Extract(t).grade.None? ==> Extract(t).text == t
    ensures Extract(t).grade.Some? ==> AllSpace(r) && (Extract(t).text < t ==> Outside(t[|Extract(t).text|]))
  {
    hide View, Bare, RStrip, NoOcc, AllSpace, Outside;
    if Extract(t).grade.Some? {
      var i := SentinelAt(t, 0);
      var j := Find(t, SENTINEL);
      SentinelInside(t, r);
      var after := t[j + |SENTINEL|..];
      ScanRejects(Lead, after + r);
      assert forall c | c in after :: c in after + r;
      OnlySentinel(t, j, i);
      ScanConcat(Lead, after, r);
      ScanClosed(Scan(Lead, after).ds, r);
      StrippedBefore(t, i);
    }
  }

  lemma StrippedBefore(t: string, i: nat)
    requires At(t, SENTINEL, i)
    ensures var u := RStrip(t[..i]); u < t && Outside(t[|u|])
  {
    var w := t[..i];
    var u := RStrip(w);
    AtChar(t, SENTINEL, i, 0);
    assert Outside('[');
    if |u| < i {
      assert t[|u|] == w[|u|..][0] && w[|u|..][0] in w[|u|..];
      SpaceOutside(t[|u|]);
    }
  }

  lemma SettleReflects(grading: bool, b: string, r: string)
    requires grading ==> Sound(true, b + r)
    ensures var g := Settle(grading, b);
      Reflects(g.text + r, b + r) && NoOcc(g.text, SEPARATOR) && g.text <= Substitute(b)
  {
    hide View, Clean, Bare, Substitute, Extract, Reflects, NoOcc;
    SubstituteReflects(b, r);
    var t := Substitute(b);
    UngradedSettled(b + r);
    if grading {
      SubstituteKeeps(true, b, r);
      ExtractShut(t, r);
      var u := Extract(t).text;
      if u < t { ExtractReflects(t, u, r); }
      assert t == u + t[|u|..];
      PrefixFree(u, t[|u|..], SEPARATOR);
      ReflectsSame(u + r);
      ReflectsThrough(u + r, t + r, b + r) by { if !(u < t) { assert u == t; } }
    } else {
      SubstituteKeeps(false, b, r);
    }
  }

  lemma ExtractReflects(t: string, u: string, r: string)
    requires u < t && AllSpace(r) && Outside(t[|u|])
    ensures Reflects(u + r, t + r)
  {
    hide Reflects, AllSpace, Outside;
    assert t == u + t[|u|..];
    Assoc(u, t[|u|..], r);
    EndReflects(u, r, t[|u|..] + r);
  }

  lemma UngradedSettled(s: string)
    ensures Gradable(false, s) && Settled(View(false, s))
  {
    hide View;
    Ungraded(s);
  }

  lemma AbsorbDanger(grading: bool, emitted: string, st: State, c: string, rest: string)
    requires !Danger(emitted, st.buffer + c + rest) && (grading ==> Sound(true, st.buffer + c + rest))
    ensures var (emit, st') := Absorb(grading, st, c); !Danger(emitted + emit, st'.buffer + rest)
  {
    hide Absorb, Settle, Danger, Sound, Substitute, Withheld, NoOcc, Reflects, Startless;
    var b := st.buffer + c;
    SettleReflects(grading, b, rest);
    AbsorbParts(grading, st, c);
    var (emit, st') := Absorb(grading, st, c);
    var t := Settle(grading, b).text;
    HeadStartless(grading, t, rest, emit, st'.buffer);
    Assoc(emit, st'.buffer, rest);
    if Danger(emitted + emit, st'.buffer + rest) {
      EmitDanger(emitted, emit, st'.buffer + rest);
      DangerReflects(emitted, t + rest, b + rest);
    }
  }

  lemma FlushDanger(grading: bool, emitted: string, st: State)
    requires !Danger(emitted, st.buffer) && (grading ==> Sound(true, st.buffer))
    ensures NoOcc(emitted + Flush(grading, st).text, SEPARATOR)
  {
    hide Settle, Danger, Sound, Substitute, NoOcc, Reflects, Startless, PartialAt;
    var b := st.buffer;
    if b == "" {
      NilRight(emitted);
      SafeFree(emitted, b);
    } else {
      NilRight(b);
      SettleReflects(grading, b, "");
      var t := Settle(grading, b).text;
      NilRight(t);
      FlushedFree(emitted, t, b);
      var x := Flush(grading, st).text;
      assert x <= t && t == x + t[|x|..];
      Assoc(emitted, x, t[|x|..]);
      PrefixFree(emitted + x, t[|x|..], SEPARATOR);
    }
  }

  lemma SafeFree(emitted: string, rest: string)
    requires !Danger(emitted, rest)
    ensures NoOcc(emitted, SEPARATOR)
  {}

  lemma FlushedFree(emitted: string, t: string, b: string)
    requires !Danger(emitted, b) && Reflects(t, b) && NoOcc(t, SEPARATOR)
    ensures NoOcc(emitted + t, SEPARATOR)
  {
    hide Danger, Reflects, NoOcc;
    NothingStarts(t);
    NilRight(t);
    if Danger(emitted + t, "") {
      EmitDanger(emitted, t, "");
      DangerReflects(emitted, t, b);
    }
    SafeFree(emitted + t, "");
  }

  lemma NothingStarts(t: string)
    requires NoOcc(t, SEPARATOR)
    ensures Startless(t, "")
  {
    NilRight(t);
    forall j: nat | j < |t|
      ensures !(SEPARATOR <= (t + "")[j..])
    {
      PrefixAt(t, SEPARATOR, j);
    }
  }

  // ----- the run -----

  lemma {:induction false} StreamSealed(grading: bool, emitted: string, st: State, chunks: seq<string>)
    requires !Danger(emitted, st.buffer + Concat(chunks)) && (grading ==> Sound(true, st.buffer + Concat(chunks)))
    ensures NoOcc(emitted + Streamed(grading, st, chunks).text, SEPARATOR)
    decreases |chunks|
  {
    hide Absorb, Flush, Danger, Sound, NoOcc;
    if chunks == [] {
      NilRight(st.buffer);
      FlushDanger(grading, emitted, st);
    } else {
      var c, rest := chunks[0], Concat(chunks[1..]);
      Assoc(st.buffer, c, rest);
      AbsorbDanger(grading, emitted, st, c, rest);
      if grading { AbsorbReads(true, st, c, rest); }
      var (emit, st') := Absorb(grading, st, c);
      StreamSealed(grading, emitted + emit, st', chunks[1..]);
      Assoc(emitted, emit, Streamed(grading, st', chunks[1..]).text);
    }
  }

  lemma NothingEmitted(raw: string)
    requires !Pieced(raw)
    ensures !Danger("", raw)
  {
    TooShort("", SEPARATOR);
  }

  /** Without grading, no separator is streamed unless its pieces stand in the answer. */
  lemma UnpiecedStream(chunks: seq<string>)
    requires !Pieced(Concat(chunks))
    ensures NoOcc(Streamed(false, START, chunks).text, SEPARATOR)
  {
    hide Streamed, Concat, Pieced, Danger, NoOcc;
    var raw, out := Concat(chunks), Streamed(false, START, chunks).text;
    NilLeft(raw);
    NilLeft(out);
    NothingEmitted(raw);
    StreamSealed(false, "", START, chunks);
  }

  /** A proper answer, graded or not, never leaks a separator. */
  lemma NoSeparatorStreamed(grading: bool, chunks: seq<string>)
    requires Sound(grading, Concat(chunks))
    ensures NoOcc(Streamed(grading, START, chunks).text, SEPARATOR)
  {
    hide Streamed, Concat, Gradable, Pieced, Danger, NoOcc, Clean;
    var raw, out := Concat(chunks), Streamed(grading, START, chunks).text;
    CleanUnpieced(Fresh, raw);
    NilLeft(raw);
    NilLeft(out);
    NothingEmitted(raw);
    StreamSealed(grading, "", START, chunks);
  }
}
