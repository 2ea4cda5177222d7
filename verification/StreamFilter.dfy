/** The clean-up of an LLM answer: the batch form applied to the assembled text,
    and the streaming form applied to it chunk by chunk. */
module StreamFilter {
  import opened Text

  const SEPARATOR := "|<-MSG->|"
  const USER := "USER:"
  const ASSISTANT := "ASSISTANT:"
  const SENTINEL := "[[CONF:"
  const EXCESS := "\n\n\n"
  const PARAGRAPH := "\n\n"
  const MAX_TRAILING_SPACE: nat := 32

  // ----- the shared substitutions -----

  /** Every separator, with the whitespace around it, becomes one newline. */
  function SepSub(s: string): string
    decreases |s|
  {
    var i := Find(s, SEPARATOR);
    if i < 0 then s else RStrip(s[..i]) + "\n" + SepSub(LStrip(s[i + |SEPARATOR|..]))
  }

  function BlankPrefix(s: string): (n: nat)
    ensures n <= |s|
  {
    if s != "" && (s[0] == ' ' || s[0] == '\t') then 1 + BlankPrefix(s[1..]) else 0
  }

  /** Length of the role marker that `s` starts with, 0 for none. */
  function MarkerLen(s: string): (n: nat)
    ensures n <= |s|
  {
    if USER <= s then |USER| else if ASSISTANT <= s then |ASSISTANT| else 0
  }

  /** Length of the match of a role marker at a line start, with the blanks before it and the
      whitespace after it; 0 for none. */
  function RoleLen(s: string): (n: nat)
    ensures n <= |s|
  {
    var j := BlankPrefix(s);
    var m := MarkerLen(s[j..]);
    if m == 0 then 0 else |s| - |LStrip(s[j + m..])|
  }

  /** Role markers at a line start disappear; the flag says whether `s` starts a line. */
  function RoleSub(s: string, lineStart: bool): string
    decreases |s|
  {
    if s == "" then ""
    else
      var m := if lineStart then RoleLen(s) else 0;
      if m > 0 then RoleSub(s[m..], s[m - 1] == '\n')
      else [s[0]] + RoleSub(s[1..], s[0] == '\n')
  }

  function DropNewlines(s: string): (r: string)
    ensures |r| <= |s| && r == s[|s| - |r|..] && AllSpace(s[..|s| - |r|])
  {
    if s != "" && s[0] == '\n' then
      var r := DropNewlines(s[1..]);
      assert s[..|s| - |r|] == [s[0]] + s[1..][..|s| - 1 - |r|];
      r
    else s
  }

  /** Runs of three or more newlines become two. */
  function Collapse(s: string): string
    decreases |s|
  {
    var i := Find(s, EXCESS);
    if i < 0 then s else s[..i] + PARAGRAPH + Collapse(DropNewlines(s[i + |EXCESS|..]))
  }

  // ----- the self-grade sentinel -----

  /** How far the text after the sentinel's literal prefix has come towards a
      complete sentinel that nothing but whitespace follows. */
  datatype Tail = Lead | Digits(ds: string) | After(ds: string) | Half(ds: string) | Closed(ds: string) | Bad

  function Step(t: Tail, c: char): Tail {
    match t
    case Lead => if IsSpace(c) then Lead else if Digit(c) then Digits([c]) else Bad
    case Digits(ds) =>
      if Digit(c) && |ds| < 3 then Digits(ds + [c])
      else if IsSpace(c) then After(ds)
      else if c == ']' then Half(ds)
      else Bad
    case After(ds) => if IsSpace(c) then t else if c == ']' then Half(ds) else Bad
    case Half(ds) => if c == ']' then Closed(ds) else Bad
    case Closed(ds) => if IsSpace(c) then t else Bad
    case Bad => Bad
  }

  function Scan(t: Tail, s: string): Tail
    decreases |s|
  {
    if s == "" then t else Scan(Step(t, s[0]), s[1..])
  }

  /** First position at which a complete terminal sentinel starts, -1 for none. */
  function SentinelAt(s: string, k: nat): (i: int)
    requires k <= |s|
    ensures i == -1 || k <= i
    ensures i >= 0 ==> At(s, SENTINEL, i) && Scan(Lead, s[i + |SENTINEL|..]).Closed?
    ensures i < 0 ==> forall j: nat | k <= j && At(s, SENTINEL, j) :: !Scan(Lead, s[j + |SENTINEL|..]).Closed?
    decreases |s| - k
  {
    if At(s, SENTINEL, k) && Scan(Lead, s[k + |SENTINEL|..]).Closed? then k
    else if k == |s| then -1
    else SentinelAt(s, k + 1)
  }

  /** Answer text together with the self-grade (in percent) that was taken from it. */
  datatype Graded = Graded(text: string, grade: Option<nat>)

  /** The text without its terminal sentinel, and the grade it carried. */
  function Extract(s: string): Graded {
    var i := SentinelAt(s, 0);
    if i < 0 then Graded(s, None)
    else
      var raw := NatValue(Scan(Lead, s[i + |SENTINEL|..]).ds);
      if raw <= 100 then Graded(RStrip(s[..i]), Some(raw)) else Graded(s, None)
  }

  /** Start of a trailing sentinel still in progress, with its leading whitespace; -1 for none. */
  function PartialAt(s: string, k: nat): (i: int)
    requires k <= |s|
    ensures -1 <= i <= |s|
    ensures i < 0 ==> forall j: nat | k <= j && At(s, SENTINEL, j) :: '[' in s[j + |SENTINEL|..]
    ensures i >= 0 ==> exists j: nat ::
      k <= j && At(s, SENTINEL, j) && '[' !in s[j + |SENTINEL|..] && i == |RStrip(s[..j])|
    decreases |s| - k
  {
    if At(s, SENTINEL, k) && '[' !in s[k + |SENTINEL|..] then |RStrip(s[..k])|
    else if k == |s| then -1
    else PartialAt(s, k + 1)
  }

  // ----- batch form -----

  function Substitute(s: string): string {
    Collapse(RoleSub(SepSub(s), true))
  }

  /** The substituted text with a completed sentinel taken out of it. */
  function Settle(grading: bool, b: string): Graded {
    if grading then Extract(Substitute(b)) else Graded(Substitute(b), None)
  }

  /** The batch clean-up of an assembled answer. */
  function Batch(grading: bool, raw: string): Graded {
    Settle(grading, raw)
  }

  // ----- streaming form -----

  /** The last `n` characters of `s` begin `marker`. */
  predicate Dangling(s: string, marker: string, n: nat) {
    n <= |s| && n <= |marker| && s[|s| - n..] == marker[..n]
  }

  /** Keeping the last `n` characters back keeps every beginning of `marker` back. */
  ghost predicate Holds(s: string, marker: string, n: nat) {
    forall m: nat | n < m :: !Dangling(s, marker, m)
  }

  /** Longest dangling suffix of at most `k` characters. */
  function Overlap(s: string, marker: string, k: nat): (n: nat)
    requires k <= |s| && k <= |marker|
    ensures n <= k && Dangling(s, marker, n)
    ensures forall m: nat | n < m <= k :: !Dangling(s, marker, m)
  {
    if Dangling(s, marker, k) then k else assert k > 0; Overlap(s, marker, k - 1)
  }

  function Max(a: nat, b: nat): nat {
    if a < b then b else a
  }

  function Min(a: nat, b: nat): nat {
    if a < b then a else b
  }

  function MarkerOverlap(s: string, marker: string): (n: nat)
    ensures n <= |s| && n <= |marker| && Holds(s, marker, n)
  {
    Overlap(s, marker, Min(|s|, |marker|))
  }

  /** Length of the longest suffix that could still grow into a marker. */
  function MarkerTailLen(grading: bool, s: string): (n: nat)
    ensures n <= |s|
  {
    var space := Min(|s| - |RStrip(s)|, MAX_TRAILING_SPACE);
    var conversation := Max(MarkerOverlap(s, SEPARATOR), Max(MarkerOverlap(s, USER), MarkerOverlap(s, ASSISTANT)));
    Max(space, Max(conversation, if grading then MarkerOverlap(s, SENTINEL) else 0))
  }

  datatype State = State(buffer: string, grade: Option<nat>)

  function Latest(found: Option<nat>, earlier: Option<nat>): Option<nat> {
    if found.Some? then found else earlier
  }

  /** How much of a settled buffer stays buffered. */
  function Withheld(grading: bool, text: string): (n: nat)
    ensures MarkerTailLen(grading, text) <= n <= |text|
  {
    var p := if grading then PartialAt(text, 0) else -1;
    Max(MarkerTailLen(grading, text), if p >= 0 then |text| - p else 0)
  }

  /** What one chunk of answer text emits, and the state it leaves. */
  function Absorb(grading: bool, st: State, content: string): (string, State) {
    var g := Settle(grading, st.buffer + content);
    var n := |g.text| - Withheld(grading, g.text);
    (g.text[..n], State(g.text[n..], Latest(g.grade, st.grade)))
  }

  /** The final flush of what is still buffered. */
  function Flush(grading: bool, st: State): Graded {
    if st.buffer == "" then Graded("", st.grade)
    else
      var g := Settle(grading, st.buffer);
      var p := if grading then PartialAt(g.text, 0) else -1;
      Graded(if p >= 0 then g.text[..p] else g.text, Latest(g.grade, st.grade))
  }

  /** Everything a stream of answer chunks emits, and the grade it captured. */
  function Streamed(grading: bool, st: State, chunks: seq<string>): Graded
    decreases |chunks|
  {
    if chunks == [] then Flush(grading, st)
    else
      var (emit, st') := Absorb(grading, st, chunks[0]);
      var rest := Streamed(grading, st', chunks[1..]);
      Graded(emit + rest.text, rest.grade)
  }

  const START := State("", None)

  function Concat(chunks: seq<string>): string {
    if chunks == [] then "" else chunks[0] + Concat(chunks[1..])
  }
}
