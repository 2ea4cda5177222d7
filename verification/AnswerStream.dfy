/** The streaming loop itself: a buffer rewritten chunk by chunk. */
module AnswerStream {
  import opened Text
  import opened StreamFilter
  import opened RoleMarkers
  import opened Pieces
  import opened StreamAgreement
  import opened StreamSeal
  import opened Grades
  import opened GradedStream
  import opened Layout
  import opened Substitutions

  /** Length of the longest buffer suffix that could grow into one of the markers. */
  method StreamingMarkerTailLen(grading: bool, buffer: string) returns (best: nat)
    ensures best == MarkerTailLen(grading, buffer)
    ensures best <= |buffer| && best <= MAX_TRAILING_SPACE
    ensures Holds(buffer, SEPARATOR, best) && Holds(buffer, USER, best) && Holds(buffer, ASSISTANT, best)
    ensures grading ==> Holds(buffer, SENTINEL, best)
  {
    hide MarkerOverlap, RStrip, Holds;
    var n := |buffer|;
    if n == 0 {
      TailFacts(grading, buffer);
      return 0;
    }
    best := 0;
    var trailing := n - |RStrip(buffer)|;
    if trailing > 0 {
      best := Min(trailing, MAX_TRAILING_SPACE);
    }
    best := LongerOverlap(buffer, SEPARATOR, best);
    best := LongerOverlap(buffer, USER, best);
    best := LongerOverlap(buffer, ASSISTANT, best);
    if grading {
      best := LongerOverlap(buffer, SENTINEL, best);
    }
    TailFacts(grading, buffer);
  }

  /** One marker of the search: the longest overlap, tried from the longest down. */
  method LongerOverlap(buffer: string, marker: string, best: nat) returns (longer: nat)
    ensures longer == Max(best, MarkerOverlap(buffer, marker))
  {
    longer := best;
    var k: nat := Min(|buffer|, |marker|);
    while k > 0
      invariant k <= |buffer| && k <= |marker|
      invariant MarkerOverlap(buffer, marker) == Overlap(buffer, marker, k)
      invariant longer == best
    {
      if buffer[|buffer| - k..] == marker[..k] {
        if k > longer {
          longer := k;
        }
        return;
      }
      k := k - 1;
    }
  }

  lemma TailFacts(grading: bool, s: string)
    ensures var n := MarkerTailLen(grading, s);
      && n <= MAX_TRAILING_SPACE && Holds(s, SEPARATOR, n) && Holds(s, USER, n) && Holds(s, ASSISTANT, n)
      && (grading ==> Holds(s, SENTINEL, n))
  {
    var n := MarkerTailLen(grading, s);
    assert MarkerOverlap(s, SEPARATOR) <= n && MarkerOverlap(s, USER) <= n && MarkerOverlap(s, ASSISTANT) <= n;
  }

  /** The state of one streamed answer. */
  class AnswerFilter {
    const grading: bool
    var buffer: string
    var grade: Option<nat>
    ghost var emitted: string

    ghost function Now(): State
      reads this
    {
      State(buffer, grade)
    }

    constructor (grading: bool)
      ensures this.grading == grading && Now() == START && emitted == ""
    {
      this.grading := grading;
      buffer, grade, emitted := "", None, "";
    }

    /** Substitute, and take a completed sentinel out. */
    method Clean(text: string) returns (g: Graded)
      ensures g == Settle(grading, text)
    {
      hide SepSub, RoleSub, Collapse, Extract;
      var b := SepSub(text);
      b := RoleSub(b, true);
      b := Collapse(b);
      g := Graded(b, None);
      if grading {
        g := Extract(b);
      }
    }

    /** One chunk of answer text: the settled head is emitted, the rest stays buffered. */
    method Push(content: string) returns (emit: string)
      modifies this
      ensures (emit, Now()) == Absorb(grading, old(Now()), content)
      ensures emitted == old(emitted) + emit
      ensures !grading ==> |buffer| <= 32
    {
      hide Settle, PartialAt, MarkerTailLen, Holds;
      var g := Clean(buffer + content);
      if g.grade.Some? {
        grade := g.grade;
      }
      var partialTail := 0;
      if grading {
        var p := PartialAt(g.text, 0);
        partialTail := if p >= 0 then |g.text| - p else 0;
      }
      var tail := StreamingMarkerTailLen(grading, g.text);
      tail := Max(tail, partialTail);
      assert tail == Withheld(grading, g.text) && (!grading ==> tail <= MAX_TRAILING_SPACE);
      hide Withheld, Max, MAX_TRAILING_SPACE;
      if tail >= |g.text| {
        emit, buffer := "", g.text;
      } else {
        emit, buffer := g.text[..|g.text| - tail], g.text[|g.text| - tail..];
      }
      emitted := emitted + emit;
    }

    /** The final flush. */
    method Finish() returns (emit: string)
      modifies this
      ensures Graded(emit, grade) == Flush(grading, old(Now()))
      ensures emitted == old(emitted) + emit
    {
      hide Settle, PartialAt;
      emit := "";
      if buffer != "" {
        var g := Clean(buffer);
        emit := g.text;
        if g.grade.Some? {
          grade := g.grade;
        }
        if grading {
          var p := PartialAt(emit, 0);
          if p >= 0 {
            emit := emit[..p];
          }
        }
      }
      emitted := emitted + emit;
    }
  }

  /** A chunk of the token stream, as the decoder classifies it. */
  datatype Event = Done | Unparseable(text: string) | UsageOnly | Content(text: string)

  datatype Frame = Data(text: string) | Verbatim(text: string)

  function Contents(events: seq<Event>): seq<string> {
    if events == [] then []
    else (if events[0].Content? then [events[0].text] else []) + Contents(events[1..])
  }

  function Unparsed(events: seq<Event>): seq<string> {
    if events == [] then []
    else (if events[0].Unparseable? then [events[0].text] else []) + Unparsed(events[1..])
  }

  /** The answer text a client reads from the frames. */
  function AnswerText(frames: seq<Frame>): string {
    if frames == [] then ""
    else AnswerText(frames[..|frames| - 1]) + if frames[|frames| - 1].Data? then frames[|frames| - 1].text else ""
  }

  function Verbatims(frames: seq<Frame>): seq<string> {
    if frames == [] then []
    else Verbatims(frames[..|frames| - 1]) + if frames[|frames| - 1].Verbatim? then [frames[|frames| - 1].text] else []
  }

  lemma FrameAdded(frames: seq<Frame>, f: Frame)
    ensures AnswerText(frames + [f]) == AnswerText(frames) + if f.Data? then f.text else ""
    ensures Verbatims(frames + [f]) == Verbatims(frames) + if f.Verbatim? then [f.text] else []
  {
    assert (frames + [f])[..|frames|] == frames;
  }

  /** An emission is one frame, an empty one none. */
  function Framed(text: string): seq<Frame> {
    if text == "" then [] else [Data(text)]
  }

  /** What one event sends, and the state it leaves. */
  function Handled(grading: bool, st: State, e: Event): (seq<Frame>, State) {
    match e
    case Done => ([], st)
    case UsageOnly => ([], st)
    case Unparseable(text) => ([Verbatim(text)], st)
    case Content(text) => (Framed(Absorb(grading, st, text).0), Absorb(grading, st, text).1)
  }

  /** The frames in the order in which they are sent. */
  function Sent(grading: bool, st: State, events: seq<Event>): seq<Frame>
    decreases |events|
  {
    if events == [] then Framed(Flush(grading, st).text)
    else
      var handled := Handled(grading, st, events[0]);
      handled.0 + Sent(grading, handled.1, events[1..])
  }

  lemma {:induction false} FramesJoin(a: seq<Frame>, b: seq<Frame>)
    ensures AnswerText(a + b) == AnswerText(a) + AnswerText(b)
    ensures Verbatims(a + b) == Verbatims(a) + Verbatims(b)
    decreases |b|
  {
    if b == [] {
      NilRight(a);
      NilRight(AnswerText(a));
      NilRight(Verbatims(a));
    } else {
      var x, f := b[..|b| - 1], b[|b| - 1];
      assert b == x + [f] && a + b == (a + x) + [f];
      FramesJoin(a, x);
      FrameAdded(a + x, f);
      FrameAdded(x, f);
      Assoc(AnswerText(a), AnswerText(x), if f.Data? then f.text else "");
      Assoc(Verbatims(a), Verbatims(x), if f.Verbatim? then [f.text] else []);
    }
  }

  lemma FramedIs(text: string)
    ensures AnswerText(Framed(text)) == text && Verbatims(Framed(text)) == []
    ensures forall f | f in Framed(text) && f.Data? :: f.text != ""
  {
    NothingSent();
    NilLeft(text);
    FrameAdded([], Data(text));
    NilLeft([Data(text)]);
  }

  lemma NothingSent()
    ensures AnswerText([]) == "" && Verbatims([]) == []
  {}

  lemma OneVerbatim(text: string)
    ensures AnswerText([Verbatim(text)]) == "" && Verbatims([Verbatim(text)]) == [text]
  {
    NothingSent();
    FrameAdded([], Verbatim(text));
    NilLeft([Verbatim(text)]);
    NilLeft([text]);
  }

  /** What a client reads of the frames: the streamed answer, the unparseable chunks in order, and
      no empty frame. */
  lemma {:induction false} SentReads(grading: bool, st: State, events: seq<Event>)
    ensures var frames := Sent(grading, st, events);
      && AnswerText(frames) == Streamed(grading, st, Contents(events)).text
      && Verbatims(frames) == Unparsed(events)
      && forall f | f in frames && f.Data? :: f.text != ""
    decreases |events|
  {
    hide Absorb, Flush, AnswerText, Verbatims, Framed;
    if events == [] {
      FramedIs(Flush(grading, st).text);
    } else {
      var rest := events[1..];
      NilLeft(Contents(rest));
      NilLeft(Unparsed(rest));
      match events[0] {
        case Done =>
          SentReads(grading, st, rest);
          NilLeft(Sent(grading, st, rest));
        case UsageOnly =>
          SentReads(grading, st, rest);
          NilLeft(Sent(grading, st, rest));
        case Unparseable(text) =>
          SentReads(grading, st, rest);
          FramesJoin([Verbatim(text)], Sent(grading, st, rest));
          OneVerbatim(text);
          NilLeft(Streamed(grading, st, Contents(rest)).text);
        case Content(text) =>
          var (emit, st') := Absorb(grading, st, text);
          SentReads(grading, st', rest);
          FramesJoin(Framed(emit), Sent(grading, st', rest));
          FramedIs(emit);
          FirstChunk(grading, st, text, Contents(rest));
      }
    }
  }

  /** The loop over the token stream, then the flush. Unparseable chunks pass through. */
  method StreamAnswer(grading: bool, events: seq<Event>) returns (frames: seq<Frame>, grade: Option<nat>)
    ensures frames == Sent(grading, START, events)
    ensures Graded(AnswerText(frames), grade) == Streamed(grading, START, Contents(events))
    ensures Verbatims(frames) == Unparsed(events)
    ensures forall f | f in frames && f.Data? :: f.text != ""
    ensures var raw := Concat(Contents(events));
      Unmarked(grading, raw) ==> AnswerText(frames) == Shortened(raw, 0) && grade == None
    ensures var raw := Concat(Contents(events));
      Proper(grading, raw) || (grading && RoleFree(raw) && Tidy(Read(BLANK, raw))) ==>
        Erase(AnswerText(frames)) == Erase(Batch(grading, raw).text) && grade == Batch(grading, raw).grade
    ensures var raw := Concat(Contents(events));
      Sound(grading, raw) || (!grading && !Pieced(raw)) ==> NoOcc(AnswerText(frames), SEPARATOR)
  {
    hide Sent, AnswerText, Verbatims, Contents, Unparsed, Streamed;
    frames, grade := StreamFrames(grading, events);
    SentReads(grading, START, events);
    ghost var raw := Concat(Contents(events));
    if Unmarked(grading, raw) { UnmarkedStream(grading, Contents(events)); }
    if Proper(grading, raw) {
      StreamAgreesWithBatch(grading, Contents(events));
    } else if grading && RoleFree(raw) && Tidy(Read(BLANK, raw)) {
      TidyAgrees(Contents(events));
    }
    if Sound(grading, raw) {
      NoSeparatorStreamed(grading, Contents(events));
    } else if !grading && !Pieced(raw) {
      UnpiecedStream(Contents(events));
    }
  }

  lemma GradeStep(grading: bool, st: State, events: seq<Event>)
    requires events != []
    ensures var st' := if events[0].Content? then Absorb(grading, st, events[0].text).1 else st;
      Streamed(grading, st, Contents(events)).grade == Streamed(grading, st', Contents(events[1..])).grade
  {
    hide Absorb, Flush;
    NilLeft(Contents(events[1..]));
    if events[0].Content? { FirstChunk(grading, st, events[0].text, Contents(events[1..])); }
  }

  /** The frames as they are sent. */
  method StreamFrames(grading: bool, events: seq<Event>) returns (frames: seq<Frame>, grade: Option<nat>)
    ensures frames == Sent(grading, START, events)
    ensures grade == Streamed(grading, START, Contents(events)).grade
  {
    hide Absorb, Contents, Streamed, Flush, Framed;
    var filter := new AnswerFilter(grading);
    frames := [];
    assert events[0..] == events;
    NilLeft(Sent(grading, START, events));
    var i := 0;
    while i < |events|
      invariant 0 <= i <= |events| && filter.grading == grading
      invariant frames + Sent(grading, filter.Now(), events[i..]) == Sent(grading, START, events)
      invariant Streamed(grading, filter.Now(), Contents(events[i..])).grade
        == Streamed(grading, START, Contents(events)).grade
    {
      ghost var rest := events[i + 1..];
      assert events[i..][1..] == rest && events[i..][0] == events[i];
      GradeStep(grading, filter.Now(), events[i..]);
      match events[i] {
        case Done => NilLeft(Sent(grading, filter.Now(), rest));
        case UsageOnly => NilLeft(Sent(grading, filter.Now(), rest));
        case Unparseable(text) =>
          Assoc(frames, [Verbatim(text)], Sent(grading, filter.Now(), rest));
          frames := frames + [Verbatim(text)];
        case Content(text) =>
          var emit := filter.Push(text);
          Assoc(frames, Framed(emit), Sent(grading, filter.Now(), rest));
          frames := Yield(frames, emit);
      }
      i := i + 1;
    }
    assert events[i..] == [];
    Exhausted(grading, filter.Now());
    var emit := filter.Finish();
    frames := Yield(frames, emit);
    grade := filter.grade;
  }

  lemma Exhausted(grading: bool, st: State)
    ensures Contents([]) == [] && Streamed(grading, st, []) == Flush(grading, st)
    ensures Sent(grading, st, []) == Framed(Flush(grading, st).text)
  {}

  /** Empty emissions produce no frame. */
  method Yield(frames: seq<Frame>, emit: string) returns (more: seq<Frame>)
    ensures more == frames + Framed(emit)
  {
    more := frames;
    NilRight(frames);
    if emit != "" {
      more := frames + [Data(emit)];
    }
  }
}
