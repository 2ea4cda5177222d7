/** Scanning a long text region by region, with the result of scanning it whole. */
module Regions {
  import opened Text

  /** A region: where it starts in the text, and what it holds. */
  type Region = (nat, string)

  // ----- where to cut -----

  /** `s.rfind(c, low, high)`. */
  function RFind(s: string, c: char, low: nat, high: nat): (i: int)
    requires high <= |s|
    ensures i == -1 || (low <= i < high && s[i] == c)
    decreases high
  {
    if high <= low then -1 else if s[high - 1] == c then high - 1 else RFind(s, c, low, high - 1)
  }

  /** Nothing matches after the found index, or anywhere when there is none. */
  lemma {:induction false} RFindIsLast(s: string, c: char, low: nat, high: nat)
    requires high <= |s|
    ensures forall k | low <= k < high && RFind(s, c, low, high) < k :: s[k] != c
    decreases high
  {
    if low < high && s[high - 1] != c { RFindIsLast(s, c, low, high - 1); }
  }

  /** The end of the region that starts at `start`: the last line break in the window, else
      the last space, else the end of the window. */
  function Cut(text: string, start: nat, maxChars: nat): (end: nat)
    requires start < |text| && maxChars > 0
    ensures start < end <= |text| && end - start <= maxChars
  {
    if start + maxChars >= |text| then |text|
    else
      var window := start + maxChars;
      var newline := RFind(text, '\n', start + 1, window);
      var space := RFind(text, ' ', start + 1, window);
      if newline > start then newline else if newline < 0 && space > start then space else window
  }

  /** `text[start:end]`. */
  function Piece(text: string, start: nat, end: nat): (r: string)
    requires start <= end <= |text|
    ensures |r| == end - start
  {
    text[start..end]
  }

  function RegionsFrom(text: string, start: nat, maxChars: nat): seq<Region>
    requires start < |text| && maxChars > 0
    decreases |text| - start
  {
    var end := Cut(text, start, maxChars);
    [(start, Piece(text, start, end))] + if end >= |text| then [] else RegionsFrom(text, end, maxChars)
  }

  function Split(text: string, maxChars: int): seq<Region> {
    if maxChars <= 0 || |text| <= maxChars then [(0, text)] else RegionsFrom(text, 0, maxChars)
  }

  lemma RegionsStep(text: string, start: nat, maxChars: nat)
    requires start < |text| && maxChars > 0
    ensures var end := Cut(text, start, maxChars); var head := (start, Piece(text, start, end));
      && (end < |text| ==> RegionsFrom(text, start, maxChars) == [head] + RegionsFrom(text, end, maxChars))
      && (end == |text| ==> RegionsFrom(text, start, maxChars) == [head])
  {}

  /** Where one region ends: the search of the loop's body. */
  method FindCut(text: string, start: nat, maxChars: nat) returns (end: nat)
    requires start < |text| && maxChars > 0
    ensures end == Cut(text, start, maxChars)
  {
    hide RFind;
    end := if start + maxChars < |text| then start + maxChars else |text|;
    if end < |text| {
      var brk := RFind(text, '\n', start + 1, end);
      if brk == -1 {
        brk := RFind(text, ' ', start + 1, end);
      }
      if brk > start {
        end := brk;
      }
    }
  }

  /** The splitting loop. */
  method SplitRegions(text: string, maxChars: int) returns (regions: seq<Region>)
    ensures regions == Split(text, maxChars)
  {
    if maxChars <= 0 || |text| <= maxChars {
      return [(0, text)];
    }
    hide RegionsFrom, Cut, Piece;
    regions := [];
    var start, n := 0, |text|;
    NilLeft(RegionsFrom(text, 0, maxChars));
    while start < n
      invariant 0 <= start < n && n == |text|
      invariant regions + RegionsFrom(text, start, maxChars) == RegionsFrom(text, 0, maxChars)
      decreases n - start
    {
      var end := FindCut(text, start, maxChars);
      RegionsStep(text, start, maxChars);
      var chunk := Piece(text, start, end);
      if end < n { Assoc(regions, [(start, chunk)], RegionsFrom(text, end, maxChars)); }
      if chunk != "" {
        regions := regions + [(start, chunk)];
      }
      if end >= n {
        break;
      }
      start := end;
    }
  }

  // ----- what the cuts keep -----

  function Joined(regions: seq<Region>): string {
    if regions == [] then "" else regions[0].1 + Joined(regions[1..])
  }

  /** The regions follow one another without a gap, from `offset` on. */
  predicate Tiled(regions: seq<Region>, offset: nat) {
    regions == [] || (regions[0].0 == offset && Tiled(regions[1..], offset + |regions[0].1|))
  }

  /** The character does not stand strictly between the two positions. */
  predicate Free(text: string, c: char, after: nat, before: nat)
    requires before <= |text|
  {
    forall k | after < k < before :: text[k] != c
  }

  /** The last region reaches the end of the text. Any other is cut at the last line break of its
      window; without one, at the last space; and is as long as the window when that holds neither. */
  predicate CleanCut(text: string, start: nat, end: nat, maxChars: nat)
    requires start <= end <= |text|
  {
    var window := start + maxChars;
    if window >= |text| then end == |text|
    else
      || (start < end < window && text[end] == '\n' && Free(text, '\n', end, window))
      || (start < end < window && text[end] == ' ' && Free(text, '\n', start, window) && Free(text, ' ', end, window))
      || (end == window && Free(text, '\n', start, window) && Free(text, ' ', start, window))
  }

  /** What a region of the original text looks like. */
  predicate Fits(text: string, r: Region, maxChars: nat) {
    && r.0 + |r.1| <= |text| && r.1 == text[r.0..r.0 + |r.1|]
    && 0 < |r.1| <= maxChars
    && CleanCut(text, r.0, r.0 + |r.1|, maxChars)
  }

  lemma {:induction false} RegionsTile(text: string, start: nat, maxChars: nat)
    requires start < |text| && maxChars > 0
    ensures Tiled(RegionsFrom(text, start, maxChars), start)
    ensures Joined(RegionsFrom(text, start, maxChars)) == Piece(text, start, |text|)
    ensures forall r | r in RegionsFrom(text, start, maxChars) :: Fits(text, r, maxChars)
    decreases |text| - start
  {
    var end := Cut(text, start, maxChars);
    var head := (start, Piece(text, start, end));
    CutIsClean(text, start, maxChars);
    assert Fits(text, head, maxChars);
    RegionsStep(text, start, maxChars);
    hide Cut, Fits, CleanCut, RegionsFrom, Piece;
    if end < |text| {
      RegionsTile(text, end, maxChars);
      PieceSplit(text, start, end);
      TileCons(head, RegionsFrom(text, end, maxChars), start);
    } else {
      TileCons(head, [], start);
      NilRight(head.1);
    }
  }

  lemma PieceSplit(text: string, start: nat, end: nat)
    requires start <= end <= |text|
    ensures Piece(text, start, |text|) == Piece(text, start, end) + Piece(text, end, |text|)
  {}

  lemma TileCons(head: Region, rest: seq<Region>, start: nat)
    requires head.0 == start && Tiled(rest, start + |head.1|)
    ensures Tiled([head] + rest, start) && Joined([head] + rest) == head.1 + Joined(rest)
  {
    assert ([head] + rest)[1..] == rest;
  }

  lemma CutIsClean(text: string, start: nat, maxChars: nat)
    requires start < |text| && maxChars > 0
    ensures CleanCut(text, start, Cut(text, start, maxChars), maxChars)
  {
    if start + maxChars < |text| {
      RFindIsLast(text, '\n', start + 1, start + maxChars);
      RFindIsLast(text, ' ', start + 1, start + maxChars);
    }
  }

  /** The regions tile the text exactly; each is at most `maxChars` long, never empty, and cut at the
      last line break, else the last space, else the end of its window. */
  lemma SplitTiles(text: string, maxChars: int)
    ensures Joined(Split(text, maxChars)) == text && Tiled(Split(text, maxChars), 0)
    ensures 0 < maxChars < |text| ==> forall r | r in Split(text, maxChars) :: Fits(text, r, maxChars)
  {
    if maxChars <= 0 || |text| <= maxChars {
      var one: seq<Region> := [(0, text)];
      assert one[1..] == [];
      NilRight(text);
    } else {
      RegionsTile(text, 0, maxChars);
      assert Piece(text, 0, |text|) == text;
    }
  }

  // ----- redaction -----

  datatype Hit = Hit(kind: string, start: nat, end: nat)

  /** In order, without overlap, inside a text of this length. */
  predicate Ordered(hits: seq<Hit>, from: nat, length: nat) {
    if hits == [] then from <= length
    else from <= hits[0].start <= hits[0].end && Ordered(hits[1..], hits[0].end, length)
  }

  function Mark(kind: string): string {
    "[PII:" + kind + "]"
  }

  /** The text from `from` on, with each hit replaced by its mark. */
  function RedactFrom(text: string, hits: seq<Hit>, from: nat): string
    requires Ordered(hits, from, |text|)
    decreases hits
  {
    if hits == [] then text[from..]
    else
      OrderedFits(hits, from, |text|);
      text[from..hits[0].start] + (Mark(hits[0].kind) + RedactFrom(text, hits[1..], hits[0].end))
  }

  lemma {:induction false} OrderedFits(hits: seq<Hit>, from: nat, length: nat)
    requires Ordered(hits, from, length)
    ensures from <= length && (hits != [] ==> hits[0].end <= length)
    decreases hits
  {
    if hits != [] { OrderedFits(hits[1..], hits[0].end, length); }
  }

  lemma OrderedHead(hits: seq<Hit>, from: nat, length: nat)
    requires Ordered(hits, from, length) && hits != []
    ensures from <= hits[0].start <= hits[0].end <= length && Ordered(hits[1..], hits[0].end, length)
  {
    OrderedFits(hits, from, length);
  }

  lemma RedactHead(text: string, hits: seq<Hit>, from: nat)
    requires Ordered(hits, from, |text|) && hits != []
    ensures from <= hits[0].start <= hits[0].end <= |text| && Ordered(hits[1..], hits[0].end, |text|)
    ensures RedactFrom(text, hits, from) ==
      text[from..hits[0].start] + (Mark(hits[0].kind) + RedactFrom(text, hits[1..], hits[0].end))
  {
    OrderedHead(hits, from, |text|);
  }

  function Redact(text: string, hits: seq<Hit>): string
    requires Ordered(hits, 0, |text|)
  {
    RedactFrom(text, hits, 0)
  }

  function Shift(hits: seq<Hit>, offset: nat): seq<Hit> {
    if hits == [] then []
    else [Hit(hits[0].kind, hits[0].start + offset, hits[0].end + offset)] + Shift(hits[1..], offset)
  }

  lemma {:induction false} ShiftOrdered(hits: seq<Hit>, from: nat, length: nat, offset: nat)
    requires Ordered(hits, from, length)
    ensures Ordered(Shift(hits, offset), from + offset, length + offset)
    decreases hits
  {
    if hits != [] {
      assert Shift(hits, offset)[1..] == Shift(hits[1..], offset);
      ShiftOrdered(hits[1..], hits[0].end, length, offset);
    }
  }

  /** Redacting behind a prefix. */
  lemma {:induction false} RedactShifted(a: string, b: string, hits: seq<Hit>, from: nat)
    requires Ordered(hits, from, |b|)
    ensures Ordered(Shift(hits, |a|), from + |a|, |a + b|)
    ensures RedactFrom(a + b, Shift(hits, |a|), from + |a|) == RedactFrom(b, hits, from)
    decreases hits
  {
    hide Ordered, Mark, Shift, RedactFrom;
    ShiftOrdered(hits, from, |b|, |a|);
    OrderedFits(hits, from, |b|);
    if hits == [] {
      ShiftNone(|a|);
      RedactNone(b, from);
      RedactNone(a + b, from + |a|);
      TailBehind(a, b, from);
    } else {
      ShiftHead(hits, |a|);
      RedactHead(b, hits, from);
      RedactHead(a + b, Shift(hits, |a|), from + |a|);
      SliceBehind(a, b, from, hits[0].start);
      RedactShifted(a, b, hits[1..], hits[0].end);
    }
  }

  lemma ShiftNone(offset: nat)
    ensures Shift([], offset) == []
  {}

  lemma RedactNone(text: string, from: nat)
    requires from <= |text|
    ensures Ordered([], from, |text|) && RedactFrom(text, [], from) == text[from..]
  {}

  lemma TailBehind(a: string, b: string, from: nat)
    requires from <= |b|
    ensures (a + b)[from + |a|..] == b[from..]
  {}

  lemma SliceBehind(a: string, b: string, i: nat, j: nat)
    requires i <= j <= |b|
    ensures (a + b)[i + |a|..j + |a|] == b[i..j]
  {}

  lemma ShiftHead(hits: seq<Hit>, offset: nat)
    requires hits != []
    ensures var s := Shift(hits, offset);
      && s != [] && s[0] == Hit(hits[0].kind, hits[0].start + offset, hits[0].end + offset)
      && s[1..] == Shift(hits[1..], offset)
  {}

  lemma {:induction false} OrderedJoin(x: seq<Hit>, y: seq<Hit>, from: nat, mid: nat, length: nat)
    requires Ordered(x, from, mid) && Ordered(y, mid, length)
    ensures Ordered(x + y, from, length)
    decreases x
  {
    if x == [] {
      NilLeft(y);
      OrderedWiden(y, from, mid, length);
    } else {
      Drop(x, y, 1);
      OrderedJoin(x[1..], y, x[0].end, mid, length);
    }
  }

  lemma OrderedWiden(y: seq<Hit>, from: nat, mid: nat, length: nat)
    requires from <= mid && Ordered(y, mid, length)
    ensures Ordered(y, from, length)
  {}

  /** Redacting two adjacent texts apart, or together at translated hits. */
  lemma {:induction false} RedactJoin(a: string, b: string, x: seq<Hit>, y: seq<Hit>, from: nat)
    requires Ordered(x, from, |a|) && Ordered(y, 0, |b|)
    ensures Ordered(x + Shift(y, |a|), from, |a + b|)
    ensures RedactFrom(a + b, x + Shift(y, |a|), from) == RedactFrom(a, x, from) + Redact(b, y)
    decreases x
  {
    OrderedFits(x, from, |a|);
    RedactShifted(a, b, y, 0);
    OrderedJoin(x, Shift(y, |a|), from, |a|, |a + b|);
    var s := Shift(y, |a|);
    if x == [] {
      NilLeft(s);
      RedactGap(a, b, s, from);
    } else {
      hide Ordered, Mark, Shift, RedactFrom;
      Drop(x, s, 1);
      RedactHead(a, x, from);
      RedactHead(a + b, x + s, from);
      RedactJoin(a, b, x[1..], y, x[0].end);
      SliceBefore(a, b, from, x[0].start);
      var head, mark := a[from..x[0].start], Mark(x[0].kind);
      Assoc(mark, RedactFrom(a, x[1..], x[0].end), Redact(b, y));
      Assoc(head, mark + RedactFrom(a, x[1..], x[0].end), Redact(b, y));
    }
  }

  lemma SliceBefore(a: string, b: string, i: nat, j: nat)
    requires i <= j <= |a|
    ensures (a + b)[i..j] == a[i..j]
  {}

  /** Nothing is hit in the rest of the prefix. */
  lemma RedactGap(a: string, b: string, s: seq<Hit>, from: nat)
    requires from <= |a| && Ordered(s, |a|, |a + b|) && Ordered(s, from, |a + b|)
    ensures RedactFrom(a + b, s, from) == a[from..] + RedactFrom(a + b, s, |a|)
  {
    OrderedFits(s, |a|, |a + b|);
    if s == [] {
      assert (a + b)[from..] == a[from..] + (a + b)[|a|..];
    } else {
      var rest := Mark(s[0].kind) + RedactFrom(a + b, s[1..], s[0].end);
      assert (a + b)[from..s[0].start] == a[from..] + (a + b)[|a|..s[0].start];
      Assoc(a[from..], (a + b)[|a|..s[0].start], rest);
    }
  }

  /** Nothing is hit, nothing is replaced. */
  lemma RedactNothing(text: string)
    ensures Ordered([], 0, |text|) && Redact(text, []) == text
  {}

  /** Redaction, read on the text itself: around what is hit everything stays, in its place stands
      `[PII:` with the kind and `]`, and the rest is redacted at the remaining hits. */
  lemma RedactReplaces(before: string, secret: string, rest: string, kind: string, hits: seq<Hit>)
    requires Ordered(hits, 0, |rest|)
    ensures var text, first := (before + secret) + rest, Hit(kind, |before|, |before + secret|);
      var all := [first] + Shift(hits, |before + secret|);
      && Ordered(all, 0, |text|)
      && Redact(text, all) == before + (("[PII:" + kind + "]") + Redact(rest, hits))
  {
    var head := before + secret;
    var shifted := Shift(hits, |head|);
    var first := Hit(kind, |before|, |head|);
    RedactShifted(head, rest, hits, 0);
    assert ([first] + shifted)[1..] == shifted;
    OrderedCons(first, shifted, |head + rest|);
    RedactHead(head + rest, [first] + shifted, 0);
    hide Ordered, Mark, Shift, RedactFrom;
    SliceBefore(head, rest, 0, |before|);
    SliceBefore(before, secret, 0, |before|);
    assert before[0..|before|] == before;
    MarkText(kind);
  }

  lemma MarkText(kind: string)
    ensures Mark(kind) == "[PII:" + kind + "]"
  {}

  lemma OrderedCons(first: Hit, rest: seq<Hit>, length: nat)
    requires first.start <= first.end && Ordered(rest, first.end, length)
    ensures Ordered([first] + rest, 0, length)
  {
    assert ([first] + rest)[1..] == rest;
  }

  // ----- the scan -----

  /** What the analyzer reports for each region. */
  type Found = seq<seq<Hit>>

  predicate AllOrdered(regions: seq<Region>, found: Found)
    requires |regions| == |found|
  {
    forall i | 0 <= i < |regions| :: Ordered(found[i], 0, |regions[i].1|)
  }

  /** The hits at their place in the whole text. */
  function Translated(regions: seq<Region>, found: Found): seq<Hit>
    requires |regions| == |found|
  {
    if regions == [] then []
    else
      var n := |regions| - 1;
      Translated(regions[..n], found[..n]) + Shift(found[n], regions[n].0)
  }

  /** The regions redacted one by one. */
  function RedactedParts(regions: seq<Region>, found: Found): string
    requires |regions| == |found| && AllOrdered(regions, found)
  {
    if regions == [] then ""
    else
      var n := |regions| - 1;
      RedactedParts(regions[..n], found[..n]) + Redact(regions[n].1, found[n])
  }

  lemma {:induction false} TiledLast(regions: seq<Region>, offset: nat)
    requires Tiled(regions, offset) && regions != []
    ensures var n := |regions| - 1;
      && Tiled(regions[..n], offset) && regions[n].0 == offset + |Joined(regions[..n])|
      && Joined(regions) == Joined(regions[..n]) + regions[n].1
  {
    var n := |regions| - 1;
    if n == 0 {
      NilRight(regions[0].1);
      NilLeft(regions[0].1);
    } else {
      var rest := regions[1..];
      TiledLast(rest, offset + |regions[0].1|);
      assert regions[..n][1..] == rest[..n - 1];
      Assoc(regions[0].1, Joined(rest[..n - 1]), regions[n].1);
    }
  }

  /** Redacting region by region and joining is redacting the whole text at the translated hits. */
  lemma {:induction false} PartsAreWhole(regions: seq<Region>, found: Found)
    requires |regions| == |found| && AllOrdered(regions, found) && Tiled(regions, 0)
    ensures Ordered(Translated(regions, found), 0, |Joined(regions)|)
    ensures RedactedParts(regions, found) == Redact(Joined(regions), Translated(regions, found))
    decreases |regions|
  {
    if regions != [] {
      var n := |regions| - 1;
      TiledLast(regions, 0);
      PartsAreWhole(regions[..n], found[..n]);
      RedactJoin(Joined(regions[..n]), regions[n].1, Translated(regions[..n], found[..n]), found[n], 0);
    }
  }

  function CountOf(hits: seq<Hit>, kind: string): nat {
    if hits == [] then 0 else CountOf(hits[..|hits| - 1], kind) + if hits[|hits| - 1].kind == kind then 1 else 0
  }

  function Places(hits: seq<Hit>, kind: string): set<nat> {
    set i: nat | i < |hits| && hits[i].kind == kind
  }

  /** How many places of the list hold a hit of that kind. */
  lemma {:induction false} CountIs(hits: seq<Hit>, kind: string)
    ensures CountOf(hits, kind) == |Places(hits, kind)|
  {
    if hits != [] {
      CountIs(hits[..|hits| - 1], kind);
      PlacesStep(hits, kind);
      hide Places;
    }
  }

  lemma PlacesStep(hits: seq<Hit>, kind: string)
    requires hits != []
    ensures var n := |hits| - 1;
      |Places(hits, kind)| == |Places(hits[..n], kind)| + if hits[n].kind == kind then 1 else 0
  {
    var n := |hits| - 1;
    assert Places(hits, kind) == Places(hits[..n], kind) + if hits[n].kind == kind then {n} else {};
  }

  /** The hit is one of these, moved by the offset. */
  predicate From(h: Hit, hits: seq<Hit>, offset: nat) {
    exists g :: g in hits && h == Hit(g.kind, g.start + offset, g.end + offset)
  }

  predicate FromSome(h: Hit, regions: seq<Region>, found: Found)
    requires |regions| == |found|
  {
    exists i :: 0 <= i < |regions| && From(h, found[i], regions[i].0)
  }

  lemma {:induction false} ShiftHas(hits: seq<Hit>, offset: nat, h: Hit)
    ensures h in Shift(hits, offset) <==> From(h, hits, offset)
  {
    if hits != [] {
      var m := Hit(hits[0].kind, hits[0].start + offset, hits[0].end + offset);
      ShiftHas(hits[1..], offset, h);
      assert hits == [hits[0]] + hits[1..] && Shift(hits, offset) == [m] + Shift(hits[1..], offset);
    }
  }

  lemma FromLast(h: Hit, regions: seq<Region>, found: Found)
    requires |regions| == |found| && regions != []
    ensures var n := |regions| - 1;
      FromSome(h, regions, found) <==> FromSome(h, regions[..n], found[..n]) || From(h, found[n], regions[n].0)
  {
    hide From;
    var n := |regions| - 1;
    assert forall i | 0 <= i < n :: regions[..n][i] == regions[i] && found[..n][i] == found[i];
  }

  /** The hits reported are those of the regions, each moved to where its region starts. */
  lemma {:induction false} HitsInPlace(regions: seq<Region>, found: Found, h: Hit)
    requires |regions| == |found|
    ensures h in Translated(regions, found) <==> FromSome(h, regions, found)
  {
    if regions != [] {
      var n := |regions| - 1;
      HitsInPlace(regions[..n], found[..n], h);
      ShiftHas(found[n], regions[n].0, h);
      FromLast(h, regions, found);
      hide From, FromSome, Shift;
    }
  }

  /** A hit moved with its region covers the same characters of the text. */
  lemma SameCharacters(text: string, region: Region, maxChars: nat, g: Hit)
    requires Fits(text, region, maxChars) && g.start <= g.end <= |region.1|
    ensures region.0 + |region.1| <= |text| && text[g.start + region.0..g.end + region.0] == region.1[g.start..g.end]
  {
    hide CleanCut;
    forall k | 0 <= k < g.end - g.start
      ensures text[g.start + region.0..g.end + region.0][k] == region.1[g.start..g.end][k]
    {
      assert region.1[g.start + k] == text[region.0..region.0 + |region.1|][g.start + k];
    }
  }

  /** What a scan of one text reports. */
  datatype Report = Report(hits: seq<Hit>, counts: map<string, nat>, redacted: string)

  /** The analyzer's hits, region by region. */
  function Findings(regions: seq<Region>, analyze: string -> seq<Hit>): Found {
    seq(|regions|, i requires 0 <= i < |regions| => analyze(regions[i].1))
  }

  /** Which of a region's hits are replaced: the anonymizer's choice, in order and without overlap. */
  type Choice = (string, seq<Hit>) -> seq<Hit>

  ghost predicate Orderly(choose: Choice) {
    forall s, hits :: Ordered(choose(s, hits), 0, |s|)
  }

  /** The hits that are replaced, region by region. */
  function Chosen(regions: seq<Region>, analyze: string -> seq<Hit>, choose: Choice): Found {
    seq(|regions|, i requires 0 <= i < |regions| => choose(regions[i].1, analyze(regions[i].1)))
  }

  ghost predicate ChoosesAll(analyze: string -> seq<Hit>, choose: Choice) {
    forall s :: choose(s, analyze(s)) == analyze(s)
  }

  lemma AllChosen(regions: seq<Region>, analyze: string -> seq<Hit>, choose: Choice)
    requires ChoosesAll(analyze, choose)
    ensures Chosen(regions, analyze, choose) == Findings(regions, analyze)
  {
    var a, b := Chosen(regions, analyze, choose), Findings(regions, analyze);
    forall i | 0 <= i < |regions|
      ensures a[i] == b[i]
    {
      var s := regions[i].1;
      assert b[i] == analyze(s) && a[i] == choose(s, analyze(s));
    }
  }

  /** The region loop: analyze, redact and translate one region after the other. */
  method ScanRegions(regions: seq<Region>, analyze: string -> seq<Hit>, choose: Choice)
    returns (hits: seq<Hit>, redacted: string)
    requires Orderly(choose) && Tiled(regions, 0)
    ensures hits == Translated(regions, Findings(regions, analyze))
    ensures var replaced := Translated(regions, Chosen(regions, analyze, choose));
      Ordered(replaced, 0, |Joined(regions)|) && redacted == Redact(Joined(regions), replaced)
  {
    hide Redact, Shift, Ordered, Tiled, Joined;
    ghost var found, chosen := Findings(regions, analyze), Chosen(regions, analyze, choose);
    assert AllOrdered(regions, chosen);
    hits, redacted := [], "";
    for i := 0 to |regions|
      invariant hits == Translated(regions[..i], found[..i])
      invariant redacted == RedactedParts(regions[..i], chosen[..i])
    {
      assert regions[..i + 1][..i] == regions[..i] && found[..i + 1][..i] == found[..i];
      assert chosen[..i + 1][..i] == chosen[..i];
      var results := analyze(regions[i].1);
      redacted := redacted + Redact(regions[i].1, choose(regions[i].1, results));
      hits := hits + Shift(results, regions[i].0);
    }
    assert regions[..|regions|] == regions && found[..|regions|] == found && chosen[..|regions|] == chosen;
    PartsAreWhole(regions, chosen);
  }

  ghost predicate Counted(counts: map<string, nat>, hits: seq<Hit>) {
    forall kind :: (kind in counts <==> CountOf(hits, kind) > 0) && (kind in counts ==> counts[kind] == CountOf(hits, kind))
  }

  method CountKinds(hits: seq<Hit>) returns (counts: map<string, nat>)
    ensures Counted(counts, hits)
  {
    counts := map[];
    for i := 0 to |hits|
      invariant Counted(counts, hits[..i])
    {
      assert hits[..i + 1][..i] == hits[..i];
      var kind := hits[i].kind;
      counts := counts[kind := (if kind in counts then counts[kind] else 0) + 1];
    }
    assert hits[..|hits|] == hits;
  }

  /** The scan of one text: the hits found in its regions at their place in the text, how many
      of each kind, and the text redacted at exactly the hits chosen for it, all of them if none
      is left out. */
  method Scan(text: string, maxChars: int, analyze: string -> seq<Hit>, choose: Choice) returns (r: Report)
    requires Orderly(choose)
    ensures r.hits == Translated(Split(text, maxChars), Findings(Split(text, maxChars), analyze))
    ensures Counted(r.counts, r.hits)
    ensures var replaced := Translated(Split(text, maxChars), Chosen(Split(text, maxChars), analyze, choose));
      Ordered(replaced, 0, |text|) && r.redacted == Redact(text, replaced)
    ensures ChoosesAll(analyze, choose) ==>
      Ordered(r.hits, 0, |text|) && r.redacted == Redact(text, r.hits)
  {
    hide Split, Ordered, Redact, Tiled, Joined, Translated, Counted, AllOrdered, Orderly;
    var regions := SplitRegions(text, maxChars);
    SplitTiles(text, maxChars);
    var hits, redacted := ScanRegions(regions, analyze, choose);
    var counts := CountKinds(hits);
    if ChoosesAll(analyze, choose) { AllChosen(regions, analyze, choose); }
    r := Report(hits, counts, redacted);
  }
}
