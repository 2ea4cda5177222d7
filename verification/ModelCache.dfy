/** What a model server says about itself, cached per endpoint. */
module ModelCache {
  import opened Text

  const NEGATIVE_CACHE_TTL := 60.0
  const MAX_SANE_MODEL_WINDOW_TOKENS := 10000000

  // ----- numbers in payloads -----

  /** A JSON scalar as the payload carries it. */
  datatype Json = Null | Bool(b: bool) | Int(i: int) | Float(r: real) | NotFinite | Str(s: string) | Other

  /** Digits, with single underscores between them. */
  predicate DigitGroups(t: string) {
    && t != "" && Digit(t[0]) && Digit(t[|t| - 1])
    && (forall c | c in t :: Digit(c) || c == '_')
    && (forall i | 0 <= i < |t| - 1 :: t[i] == '_' ==> t[i + 1] != '_')
  }

  function DropUnderscores(t: string): string {
    if t == "" then "" else (if t[0] == '_' then "" else [t[0]]) + DropUnderscores(t[1..])
  }

  function ParseInt(s: string): Option<int> {
    var t := Strip(s);
    var signed := t != "" && (t[0] == '-' || t[0] == '+');
    var digits := if signed then t[1..] else t;
    if !DigitGroups(digits) then None
    else
      var n: int := NatValue(DropUnderscores(digits));
      Some(if signed && t[0] == '-' then -n else n)
  }

  function CoerceInt(value: Json): Option<int> {
    match value
    case Int(i) => Some(i)
    case Float(r) => if r.Floor as real == r then Some(r.Floor) else None
    case Str(s) => ParseInt(s)
    case _ => None
  }

  /** A usable context window, or None. */
  function CoerceMaxModelLen(value: Json): (r: Option<int>)
    ensures r.Some? ==> 0 < r.value <= 10000000 && CoerceInt(value) == r
    ensures r.None? <==> CoerceInt(value).None? || !(0 < CoerceInt(value).value <= 10000000)
  {
    var coerced := CoerceInt(value);
    if coerced.Some? && 0 < coerced.value <= MAX_SANE_MODEL_WINDOW_TOKENS then coerced else None
  }

  lemma {:induction false} NoUnderscores(t: string)
    requires forall c | c in t :: Digit(c)
    ensures DropUnderscores(t) == t
  {
    if t != "" {
      assert t[0] in t && t == [t[0]] + t[1..];
      NoUnderscores(t[1..]);
    }
  }

  lemma PlainGroups(digits: string)
    requires Digits(digits)
    ensures DigitGroups(digits) && DropUnderscores(digits) == digits
  {
    NoUnderscores(digits);
    assert digits[0] in digits && digits[|digits| - 1] in digits;
    forall i | 0 <= i < |digits| - 1
      ensures digits[i] != '_'
    {
      assert digits[i] in digits;
    }
  }

  /** Groups of digits with underscores between them. */
  function Grouped(groups: seq<string>): string {
    if groups == [] then "" else if |groups| == 1 then groups[0] else groups[0] + ("_" + Grouped(groups[1..]))
  }

  function Flat(groups: seq<string>): string {
    if groups == [] then "" else groups[0] + Flat(groups[1..])
  }

  lemma DropConcat(a: string, b: string)
    ensures DropUnderscores(a + b) == DropUnderscores(a) + DropUnderscores(b)
  {
    if a == "" {
      NilLeft(b);
    } else {
      Drop(a, b, 1);
      DropConcat(a[1..], b);
    }
  }

  lemma DropOne(rest: string)
    ensures DropUnderscores("_" + rest) == DropUnderscores(rest)
  {
    Drop("_", rest, 1);
    NilLeft(rest);
  }

  /** Underscores between groups of digits do not count. */
  lemma {:induction false} GroupsRead(groups: seq<string>)
    requires groups != [] && forall g | g in groups :: Digits(g)
    ensures DigitGroups(Grouped(groups)) && DropUnderscores(Grouped(groups)) == Flat(groups)
    decreases |groups|
  {
    var g := groups[0];
    assert g in groups;
    PlainGroups(g);
    if |groups| == 1 {
      NilRight(g);
      assert Flat(groups[1..]) == "";
    } else {
      GroupsRead(groups[1..]);
      var rest := Grouped(groups[1..]);
      assert Grouped(groups) == g + ("_" + rest) && Flat(groups) == g + Flat(groups[1..]);
      hide Grouped, Flat, Digits, DigitGroups, DropUnderscores;
      DropConcat(g, "_" + rest);
      DropOne(rest);
      GroupsPut(g, rest);
    }
  }

  lemma GroupsPut(g: string, rest: string)
    requires Digits(g) && DigitGroups(rest)
    ensures DigitGroups(g + ("_" + rest))
  {
    var t := g + ("_" + rest);
    assert g[0] in g && t[0] == g[0] && t[|t| - 1] == rest[|rest| - 1];
    forall c | c in t
      ensures Digit(c) || c == '_'
    {
      assert c in g || c == '_' || c in rest;
    }
    forall i | 0 <= i < |t| - 1
      ensures t[i] == '_' ==> t[i + 1] != '_'
    {
      if i < |g| {
        assert t[i] == g[i] && g[i] in g;
      } else if i > |g| {
        assert rest[i - |g| - 1] == t[i] && rest[i - |g|] == t[i + 1];
      } else {
        assert t[i + 1] == rest[0];
      }
    }
  }

  /** What remains when the whitespace around a number is gone. */
  lemma Bare(sign: string, t: string, before: string, behind: string)
    requires DigitGroups(t) && (sign == "" || sign == "-" || sign == "+") && AllSpace(before) && AllSpace(behind)
    ensures Strip(before + (sign + t) + behind) == sign + t && (sign != "" ==> (sign + t)[1..] == t)
    ensures (sign + t)[0] == if sign == "" then t[0] else sign[0]
  {
    var x := sign + t;
    assert x[|x| - 1] == t[|t| - 1] && x[0] == if sign == "" then t[0] else sign[0];
    hide Strip;
    StripAround(before, x, behind);
  }

  lemma ParseStripped(s: string, x: string, t: string)
    requires Strip(s) == x && x != "" && DigitGroups(t)
    requires x[0] == '-' || x[0] == '+' || x == t
    requires x[0] == '-' || x[0] == '+' ==> x[1..] == t
    ensures var n: int := NatValue(DropUnderscores(t)); ParseInt(s) == Some(if x[0] == '-' then -n else n)
  {
    assert t[0] != '-' && t[0] != '+';
    hide Strip, DigitGroups, DropUnderscores, NatValue, Digit, LStrip, RStrip, AllSpace;
    if x[0] != '-' && x[0] != '+' { assert ParseInt(s) == Some(NatValue(DropUnderscores(t)) as int); }
  }

  /** A sign counts as such; whitespace around a number and underscores between its digits do not. */
  lemma ParseReads(t: string, sign: string, before: string, behind: string)
    requires DigitGroups(t) && (sign == "" || sign == "-" || sign == "+") && AllSpace(before) && AllSpace(behind)
    ensures var n: int := NatValue(DropUnderscores(t));
      ParseInt(before + (sign + t) + behind) == Some(if sign == "-" then -n else n)
  {
    Bare(sign, t, before, behind);
    NilLeft(t);
    assert Digit(t[0]);
    hide *;
    ParseStripped(before + (sign + t) + behind, sign + t, t);
  }

  lemma ParseIntText(n: int)
    ensures ParseInt(IntText(n)) == Some(n)
  {
    var m := if n < 0 then -n else n;
    var t := NatText(m);
    NatTextCanonical(m);
    NatRoundTrip(m);
    PlainGroups(t);
    ParseReads(t, "", "", "");
    ParseReads(t, "-", "", "");
    hide NatText, NatValue, ParseInt, Canonical, DigitGroups;
    NilLeft(t);
    NilRight(t);
    NilLeft("-" + t);
    NilRight("-" + t);
  }

  /** However a server spells a whole number, it is the same number. */
  lemma SpellingsAgree(n: int)
    ensures CoerceInt(Int(n)) == CoerceInt(Float(n as real)) == CoerceInt(Str(IntText(n))) == Some(n)
  {
    ParseIntText(n);
    hide ParseInt, IntText;
    assert (n as real).Floor == n;
  }

  // ----- the cache -----

  /** The first entry a probe returned; Json fields as sent, the id None when absent or null. */
  datatype Payload = Payload(id: Option<string>, window: Json)

  /** None when the probe failed. */
  type Reply = Option<Payload>

  datatype Field = ModelId | MaxModelLen

  datatype Value = Nothing | Id(id: string) | Window(tokens: int)

  datatype Entry = Entry(id: Option<string>, window: Option<int>, ts: Option<real>, lastFail: Option<real>)

  function Pick(e: Entry, field: Field): Value {
    match field
    case ModelId => if e.id.Some? then Id(e.id.value) else Nothing
    case MaxModelLen => if e.window.Some? then Window(e.window.value) else Nothing
  }

  /** One call, at time `now`; `reply` is what a probe would give. */
  datatype Call = Call(url: string, ttl: int, field: Field, now: real, reply: Reply)

  /** A probe that was sent: the call that sent it. */
  type Log = seq<Call>

  datatype State = State(cache: map<string, Entry>, log: Log, clock: real)

  predicate Good(reply: Reply) {
    reply.Some? && reply.value.id.Some?
  }

  /** The answer comes from the cache, without a probe. */
  predicate Hit(e: Option<Entry>, c: Call) {
    e.Some? && (
      || (e.value.ts.Some? && c.now - e.value.ts.value < c.ttl as real)
      || (c.field.MaxModelLen? && e.value.lastFail.Some? && c.now - e.value.lastFail.value < NEGATIVE_CACHE_TTL))
  }

  function Lookup(cache: map<string, Entry>, url: string): Option<Entry> {
    if url in cache then Some(cache[url]) else None
  }

  function Filled(c: Call): Entry
    requires Good(c.reply)
  {
    Entry(c.reply.value.id, CoerceMaxModelLen(c.reply.value.window), Some(c.now), None)
  }

  /** The entry after a probe. */
  function Probed(e: Option<Entry>, c: Call): Option<Entry> {
    if Good(c.reply) then Some(Filled(c))
    else if c.field.ModelId? then e
    else if e.Some? then Some(e.value.(lastFail := Some(c.now)))
    else Some(Entry(None, None, None, Some(c.now)))
  }

  function Ask(s: State, c: Call): (State, Value) {
    var e := Lookup(s.cache, c.url);
    if c.url == "" then (s.(clock := c.now), Nothing)
    else if Hit(e, c) then (s.(clock := c.now), Pick(e.value, c.field))
    else
      var after := Probed(e, c);
      var cache := if after.Some? then s.cache[c.url := after.value] else s.cache;
      (State(cache, s.log + [c], c.now), if after.Some? then Pick(after.value, c.field) else Nothing)
  }

  /** The process-wide cache. */
  class Cache {
    var cache: map<string, Entry>
    ghost var log: Log
    ghost var clock: real

    ghost function Now(): State
      reads this
    {
      State(cache, log, clock)
    }

    constructor (clock: real)
      ensures Now() == State(map[], [], clock)
    {
      cache, log, this.clock := map[], [], clock;
    }

    method CachedField(url: string, ttl: int, field: Field, now: real, reply: Reply) returns (value: Value)
      modifies this
      ensures (Now(), value) == Ask(old(Now()), Call(url, ttl, field, now, reply))
    {
      clock := now;
      if url == "" {
        return Nothing;
      }
      if url in cache {
        var entry := cache[url];
        if entry.ts.Some? && now - entry.ts.value < ttl as real {
          return Pick(entry, field);
        }
        if field.MaxModelLen? && entry.lastFail.Some? && now - entry.lastFail.value < NEGATIVE_CACHE_TTL {
          return Pick(entry, field);
        }
      }
      log := log + [Call(url, ttl, field, now, reply)];
      if reply.Some? && reply.value.id.Some? {
        cache := cache[url := Entry(reply.value.id, CoerceMaxModelLen(reply.value.window), Some(now), None)];
        return Pick(cache[url], field);
      }
      if url in cache {
        var entry := cache[url];
        if field.MaxModelLen? {
          cache := cache[url := entry.(lastFail := Some(now))];
        }
        assert cache == cache[url := cache[url]];
        return Pick(entry, field);
      }
      if field.MaxModelLen? {
        cache := cache[url := Entry(None, None, None, Some(now))];
      }
      return Nothing;
    }
  }

  // ----- what every run keeps -----

  /** The last probe of the endpoint that carried an id. */
  function LatestGood(log: Log, url: string): (r: Option<Call>)
    ensures r.Some? ==> Good(r.value.reply) && r.value in log && r.value.url == url
  {
    if log == [] then None
    else
      var last := log[|log| - 1];
      if last.url == url && Good(last.reply) then Some(last) else LatestGood(log[..|log| - 1], url)
  }

  /** What callers should see: both fields of that one probe. */
  function Reported(log: Log, url: string, field: Field): Value {
    match LatestGood(log, url)
    case None => Nothing
    case Some(c) =>
      match field
      case ModelId => Id(c.reply.value.id.value)
      case MaxModelLen =>
        match CoerceMaxModelLen(c.reply.value.window)
        case None => Nothing
        case Some(tokens) => Window(tokens)
  }

  /** The last window probe that failed since the last one that carried an id. */
  function LatestFailure(log: Log, url: string): Option<real> {
    if log == [] then None
    else
      var last := log[|log| - 1];
      if last.url == url && Good(last.reply) then None
      else if last.url == url && last.field.MaxModelLen? then Some(last.now)
      else LatestFailure(log[..|log| - 1], url)
  }

  /** The probes that `get_max_model_len` sent to the endpoint. */
  function WindowProbes(log: Log, url: string): Log {
    if log == [] then []
    else
      var last := log[|log| - 1];
      WindowProbes(log[..|log| - 1], url) + if last.url == url && last.field.MaxModelLen? then [last] else []
  }

  function Gap(c: Call): real {
    if c.ttl as real < NEGATIVE_CACHE_TTL then c.ttl as real else NEGATIVE_CACHE_TTL
  }

  predicate Spaced(probes: Log, clock: real) {
    && (forall a, b | 0 <= a < b < |probes| :: probes[b].now - probes[a].now >= Gap(probes[b]))
    && (forall a, b | 0 <= a <= b < |probes| :: probes[a].now <= probes[b].now)
    && (forall a | 0 <= a < |probes| :: probes[a].now <= clock)
  }

  /** The entry is the latest good probe, or a stub that remembers a failure. */
  predicate Faithful(e: Option<Entry>, good: Option<Call>) {
    match good
    case Some(c) => Good(c.reply) && e.Some? && e.value == Filled(c).(lastFail := e.value.lastFail)
    case None => e.Some? ==> e.value == Entry(None, None, None, e.value.lastFail)
  }

  /** The last window probe is remembered, as a success or as a failure. */
  predicate Remembered(e: Option<Entry>, probes: Log) {
    probes != [] ==>
      && e.Some?
      && var last := probes[|probes| - 1].now;
         || (e.value.ts.Some? && e.value.ts.value >= last)
         || (e.value.lastFail.Some? && e.value.lastFail.value >= last)
  }

  /** What holds of one endpoint. */
  predicate Inv(s: State, url: string) {
    && Faithful(Lookup(s.cache, url), LatestGood(s.log, url))
    && Remembered(Lookup(s.cache, url), WindowProbes(s.log, url))
    && Spaced(WindowProbes(s.log, url), s.clock)
  }

  lemma LogGrows(log: Log, c: Call, url: string)
    ensures LatestGood(log + [c], url) == if c.url == url && Good(c.reply) then Some(c) else LatestGood(log, url)
    ensures WindowProbes(log + [c], url) ==
      WindowProbes(log, url) + if c.url == url && c.field.MaxModelLen? then [c] else []
  {
    assert (log + [c])[..|log|] == log;
  }

  /** A probe that the cache did not spare comes late enough after the last one. */
  lemma NextSpaced(e: Option<Entry>, probes: Log, clock: real, c: Call)
    requires Remembered(e, probes) && Spaced(probes, clock) && clock <= c.now && c.field.MaxModelLen? && !Hit(e, c)
    ensures Spaced(probes + [c], c.now)
  {
    var after := probes + [c];
    assert forall a | 0 <= a < |probes| :: after[a] == probes[a];
    assert after[|probes|] == c;
    forall a | 0 <= a < |probes|
      ensures c.now - probes[a].now >= Gap(c)
    {
      assert probes[a].now <= probes[|probes| - 1].now;
    }
  }

  lemma SpacedLater(probes: Log, clock: real, later: real)
    requires Spaced(probes, clock) && clock <= later
    ensures Spaced(probes, later)
  {}

  lemma ProbeKeeps(e: Option<Entry>, good: Option<Call>, probes: Log, clock: real, c: Call)
    requires Faithful(e, good) && Remembered(e, probes) && Spaced(probes, clock) && clock <= c.now && !Hit(e, c)
    ensures var more := probes + if c.field.MaxModelLen? then [c] else [];
      && Faithful(Probed(e, c), if Good(c.reply) then Some(c) else good)
      && Remembered(Probed(e, c), more)
      && Spaced(more, c.now)
  {
    SpacedLater(probes, clock, c.now);
    NilRight(probes);
    if c.field.MaxModelLen? { NextSpaced(e, probes, clock, c); }
    assert probes != [] ==> probes[|probes| - 1].now <= clock;
    hide Spaced, Hit, Gap, CoerceMaxModelLen;
  }

  lemma AskElsewhere(s: State, c: Call, url: string)
    requires c.url != url || c.url == "" || Hit(Lookup(s.cache, url), c)
    ensures Lookup(Ask(s, c).0.cache, url) == Lookup(s.cache, url)
    ensures Ask(s, c).0.log == s.log || (Ask(s, c).0.log == s.log + [c] && c.url != url)
    ensures Ask(s, c).0.clock == c.now
  {}

  lemma AskProbes(s: State, c: Call)
    requires c.url != "" && !Hit(Lookup(s.cache, c.url), c)
    ensures Lookup(Ask(s, c).0.cache, c.url) == Probed(Lookup(s.cache, c.url), c)
    ensures Ask(s, c).0.log == s.log + [c] && Ask(s, c).0.clock == c.now
  {}

  lemma AskKeeps(s: State, c: Call, url: string)
    requires Inv(s, url) && s.clock <= c.now
    ensures Inv(Ask(s, c).0, url)
  {
    var e, probes := Lookup(s.cache, url), WindowProbes(s.log, url);
    LogGrows(s.log, c, url);
    SpacedLater(probes, s.clock, c.now);
    NilRight(probes);
    hide LatestGood, WindowProbes, Spaced, Faithful, Remembered, Hit, Probed, Ask, Lookup, Good;
    if c.url == url && url != "" && !Hit(e, c) {
      AskProbes(s, c);
      ProbeKeeps(e, LatestGood(s.log, url), probes, s.clock, c);
    } else {
      AskElsewhere(s, c, url);
    }
  }

  /** The clock never runs backwards. */
  predicate Monotone(calls: seq<Call>, clock: real) {
    && (forall c | c in calls :: clock <= c.now)
    && (forall i, j | 0 <= i < j < |calls| :: calls[i].now <= calls[j].now)
  }

  function Run(calls: seq<Call>, clock: real): State {
    if calls == [] then State(map[], [], clock)
    else Ask(Run(calls[..|calls| - 1], clock), calls[|calls| - 1]).0
  }

  lemma {:induction false} RunKeeps(calls: seq<Call>, clock: real, url: string)
    requires Monotone(calls, clock)
    ensures Inv(Run(calls, clock), url)
    ensures Run(calls, clock).clock == if calls == [] then clock else calls[|calls| - 1].now
  {
    if calls != [] {
      var before, c := calls[..|calls| - 1], calls[|calls| - 1];
      assert c in calls && forall x | x in before :: x in calls;
      RunKeeps(before, clock, url);
      if before != [] { assert before[|before| - 1].now <= c.now; }
      AskClock(Run(before, clock), c);
      hide Inv, Ask;
      AskKeeps(Run(before, clock), c, url);
    }
  }

  lemma AskClock(s: State, c: Call)
    ensures Ask(s, c).0.clock == c.now
  {}

  lemma AskAnswers(s: State, c: Call)
    requires Inv(s, c.url) && c.url != ""
    ensures Ask(s, c).1 == Reported(Ask(s, c).0.log, c.url, c.field)
  {
    LogGrows(s.log, c, c.url);
    hide LatestGood, WindowProbes, Spaced, CoerceMaxModelLen;
  }

  lemma MonotonePrefix(calls: seq<Call>, c: Call, clock: real)
    requires Monotone(calls + [c], clock)
    ensures Monotone(calls, clock)
  {
    var all := calls + [c];
    assert forall i | 0 <= i < |calls| :: calls[i] == all[i];
    assert forall x | x in calls :: x in all;
  }

  /** Whatever happened before, a call answers with the field of the latest probe that carried
      an id, so id and window always come from one payload. */
  lemma AnswersFromLatest(calls: seq<Call>, clock: real, c: Call)
    requires Monotone(calls + [c], clock) && c.url != ""
    ensures var (t, value) := Ask(Run(calls, clock), c);
      value == Reported(t.log, c.url, c.field)
  {
    MonotonePrefix(calls, c, clock);
    RunKeeps(calls, clock, c.url);
    hide Inv, Run, Ask;
    AskAnswers(Run(calls, clock), c);
  }

  /** An id once found is never lost again. */
  lemma {:induction false} IdNeverLost(calls: seq<Call>, more: seq<Call>, clock: real, c: Call)
    requires Monotone(calls + more + [c], clock) && c.url != "" && c.field.ModelId?
    requires LatestGood(Run(calls, clock).log, c.url).Some?
    ensures Ask(Run(calls + more, clock), c).1.Id?
  {
    hide Run, Ask, LatestGood, Monotone;
    GoodStays(calls, more, clock, c.url);
    AnswersFromLatest(calls + more, clock, c);
    AskLog(Run(calls + more, clock), c, c.url);
  }

  lemma AskLog(s: State, c: Call, url: string)
    ensures LatestGood(s.log, url).Some? ==> LatestGood(Ask(s, c).0.log, url).Some?
  {
    LogGrows(s.log, c, url);
    hide LatestGood;
  }

  lemma {:induction false} GoodStays(calls: seq<Call>, more: seq<Call>, clock: real, url: string)
    requires LatestGood(Run(calls, clock).log, url).Some?
    ensures LatestGood(Run(calls + more, clock).log, url).Some?
    decreases |more|
  {
    if more == [] {
      NilRight(calls);
    } else {
      var front, last, all := more[..|more| - 1], more[|more| - 1], calls + more;
      assert all[..|all| - 1] == calls + front && all[|all| - 1] == last;
      hide LatestGood, Ask;
      GoodStays(calls, front, clock, url);
      AskLog(Run(calls + front, clock), last, url);
    }
  }

  /** The entry remembers when the endpoint last answered and when a window probe last failed. */
  predicate Timed(e: Option<Entry>, log: Log, url: string) {
    && (LatestGood(log, url).Some? || LatestFailure(log, url).Some? <==> e.Some?)
    && (e.Some? ==>
      && e.value.lastFail == LatestFailure(log, url)
      && e.value.ts == if LatestGood(log, url).Some? then Some(LatestGood(log, url).value.now) else None)
  }

  lemma FailureGrows(log: Log, c: Call, url: string)
    ensures LatestFailure(log + [c], url) ==
      if c.url != url then LatestFailure(log, url)
      else if Good(c.reply) then None
      else if c.field.MaxModelLen? then Some(c.now)
      else LatestFailure(log, url)
  {
    assert (log + [c])[..|log|] == log;
  }

  lemma {:induction false} RunTimed(calls: seq<Call>, clock: real, url: string)
    ensures Timed(Lookup(Run(calls, clock).cache, url), Run(calls, clock).log, url)
  {
    if calls != [] {
      var s, c := Run(calls[..|calls| - 1], clock), calls[|calls| - 1];
      RunTimed(calls[..|calls| - 1], clock, url);
      LogGrows(s.log, c, url);
      FailureGrows(s.log, c, url);
      hide LatestGood, LatestFailure, CoerceMaxModelLen, WindowProbes;
      if c.url == url && url != "" && !Hit(Lookup(s.cache, url), c) {
        AskProbes(s, c);
      } else {
        AskElsewhere(s, c, url);
      }
    }
  }

  /** A call probes exactly when the endpoint last answered with an id at least its time to live
      ago, or never, and, if it asks for the window, no window probe failed since within a minute. */
  lemma ProbesExactly(calls: seq<Call>, clock: real, c: Call)
    ensures var s := Run(calls, clock);
      var good, failure := LatestGood(s.log, c.url), LatestFailure(s.log, c.url);
      Ask(s, c).0.log == (if c.url != ""
        && (good.Some? ==> c.now - good.value.now >= c.ttl as real)
        && (c.field.MaxModelLen? && failure.Some? ==> c.now - failure.value >= 60.0)
      then s.log + [c] else s.log)
  {
    RunTimed(calls, clock, c.url);
    hide LatestGood, LatestFailure, Run;
  }

  /** Window probes of one endpoint are at least `min(ttl, 60)` seconds apart, however other
      calls and failures fall between them. */
  lemma ProbesSpaced(calls: seq<Call>, clock: real, url: string, a: nat, b: nat)
    requires Monotone(calls, clock) && a < b < |WindowProbes(Run(calls, clock).log, url)|
    ensures var probes := WindowProbes(Run(calls, clock).log, url);
      probes[b].now - probes[a].now >= Gap(probes[b])
  {
    RunKeeps(calls, clock, url);
  }

  lemma SpacedPrefix(probes: Log, n: nat, clock: real)
    requires Spaced(probes, clock) && n <= |probes|
    ensures Spaced(probes[..n], clock)
  {
    hide Gap;
  }

  /** `n` gaps. */
  function Times(n: nat, gap: real): real {
    if n == 0 then 0.0 else Times(n - 1, gap) + gap
  }

  lemma {:induction false} SpacedBounded(probes: Log, clock: real, gap: real)
    requires Spaced(probes, clock) && probes != [] && forall p | p in probes :: Gap(p) >= gap
    ensures Times(|probes| - 1, gap) <= probes[|probes| - 1].now - probes[0].now
  {
    if |probes| > 1 {
      var n := |probes| - 1;
      var front := probes[..n];
      assert forall p | p in front :: p in probes;
      SpacedPrefix(probes, n, clock);
      assert Gap(probes[n]) <= probes[n].now - probes[n - 1].now;
      hide Gap, Spaced;
      SpacedBounded(front, clock, gap);
      assert probes[n] in probes;
      assert front[n - 1] == probes[n - 1] && front[0] == probes[0];
    }
  }

  lemma OneMore(a: real, gap: real)
    ensures (a + 1.0) * gap == a * gap + gap
  {}

  lemma {:induction false} TimesIs(n: nat, gap: real)
    ensures Times(n, gap) == n as real * gap
  {
    if n > 0 {
      TimesIs(n - 1, gap);
      OneMore((n - 1) as real, gap);
    }
  }

  /** So in every run `n` window probes of one endpoint span at least `n - 1` of the shortest
      such gaps. */
  lemma ProbesBounded(calls: seq<Call>, clock: real, url: string, gap: real)
    requires Monotone(calls, clock)
    requires forall p | p in WindowProbes(Run(calls, clock).log, url) :: Gap(p) >= gap
    ensures var probes := WindowProbes(Run(calls, clock).log, url);
      probes != [] ==> Times(|probes| - 1, gap) <= probes[|probes| - 1].now - probes[0].now
  {
    RunKeeps(calls, clock, url);
    hide *;
    var t := Run(calls, clock);
    var probes := WindowProbes(t.log, url);
    if probes != [] { SpacedBounded(probes, t.clock, gap); }
  }
}
