/** Which installed copy of a module doctor works from, and whether the order in which
    the copies are listed can change its mind. */
module Selection {
  import opened Text
  import opened SemVer
  import Trees

  type Payload = seq<Trees.Script>

  /** An installed copy: its manifest bytes, the version they declare, and its scripts, None
      when a declared script cannot be read. */
  datatype Copy = Copy(skill: string, raw: Trees.Bytes, version: string, payload: Option<Payload>)

  datatype Reason = Unordered | Manifests | Payloads

  /** What becomes of the module; Failed when reading a needed payload stops the run. */
  datatype Verdict = Selected(raw: Trees.Bytes, scripts: Payload) | Blocked(reason: Reason) | Failed

  predicate AllOrderable(copies: seq<Copy>) {
    forall c | c in copies :: Orderable(c.version).Some?
  }

  /** Both versions have a place in the order and `d` does not come after `c`. */
  predicate NotAbove(d: Copy, c: Copy) {
    CompareSemver(d.version, c.version).Some? && CompareSemver(d.version, c.version).value <= 0
  }

  predicate Maximal(c: Copy, all: seq<Copy>) {
    forall d | d in all :: NotAbove(d, c)
  }

  /** The copies of `list` that no copy of `all` comes after, in order. */
  function Keep(list: seq<Copy>, all: seq<Copy>): seq<Copy> {
    if list == [] then []
    else (if Maximal(list[0], all) then [list[0]] else []) + Keep(list[1..], all)
  }

  function Tops(copies: seq<Copy>): seq<Copy> {
    Keep(copies, copies)
  }

  /** The copies whose manifests and payloads decide. */
  function Contenders(copies: seq<Copy>): seq<Copy> {
    if |copies| > 1 && AllOrderable(copies) then Tops(copies) else copies
  }

  predicate SameRaw(copies: seq<Copy>) {
    forall c, d | c in copies && d in copies :: c.raw == d.raw
  }

  /** Compare the rest against the first, one after the other. */
  function Poll(first: Copy, rest: seq<Copy>, reason: Reason): Verdict
    requires first.payload.Some?
  {
    if rest == [] then Selected(first.raw, first.payload.value)
    else if rest[0].raw != first.raw then Blocked(reason)
    else if rest[0].payload.None? then Failed
    else if rest[0].payload != first.payload then Blocked(reason)
    else Poll(first, rest[1..], reason)
  }

  function Survey(list: seq<Copy>, reason: Reason): Verdict
    requires list != []
  {
    if list[0].payload.None? then Failed else Poll(list[0], list[1..], reason)
  }

  function Decide(copies: seq<Copy>): Verdict
    requires copies != []
  {
    TopsNonEmpty(copies);
    if !AllOrderable(copies) then Survey(copies, Unordered)
    else if !SameRaw(Contenders(copies)) then Blocked(Manifests)
    else Survey(Contenders(copies), Payloads)
  }

  // ----- the scan -----

  lemma {:induction false} KeepMembers(list: seq<Copy>, all: seq<Copy>, c: Copy)
    ensures c in Keep(list, all) <==> c in list && Maximal(c, all)
  {
    if list != [] {
      assert list == [list[0]] + list[1..];
      KeepMembers(list[1..], all, c);
    }
  }

  lemma {:induction false} KeepAppend(list: seq<Copy>, c: Copy, all: seq<Copy>)
    ensures Keep(list + [c], all) == Keep(list, all) + if Maximal(c, all) then [c] else []
  {
    hide Maximal;
    if list == [] {
      assert list + [c] == [c] && [c][1..] == [];
    } else {
      Drop(list, [c], 1);
      KeepAppend(list[1..], c, all);
      Assoc(if Maximal(list[0], all) then [list[0]] else [], Keep(list[1..], all), if Maximal(c, all) then [c] else []);
    }
  }

  lemma {:induction false} KeepSame(list: seq<Copy>, all: seq<Copy>, other: seq<Copy>)
    requires forall c | c in list :: Maximal(c, all) == Maximal(c, other)
    ensures Keep(list, all) == Keep(list, other)
  {
    if list != [] {
      assert list[0] in list;
      KeepSame(list[1..], all, other);
    }
  }

  lemma {:induction false} KeepNone(list: seq<Copy>, all: seq<Copy>)
    requires forall c | c in list :: !Maximal(c, all)
    ensures Keep(list, all) == []
  {
    if list != [] {
      assert list[0] in list;
      KeepNone(list[1..], all);
    }
  }

  lemma Reflexive(c: Copy)
    requires Orderable(c.version).Some?
    ensures NotAbove(c, c)
  {
    SemverOrder(c.version, c.version, c.version);
  }

  /** One more copy: what the scan keeps depends only on how it compares with the highest so far. */
  lemma ScanStep(seen: seq<Copy>, highest: Copy, c: Copy)
    requires highest in seen && AllOrderable(seen + [c]) && Maximal(highest, seen)
    ensures var r := CompareSemver(c.version, highest.version).value;
      Tops(seen + [c]) == if r > 0 then [c] else if r == 0 then Tops(seen) + [c] else Tops(seen)
    ensures Maximal(if CompareSemver(c.version, highest.version).value > 0 then c else highest, seen + [c])
  {
    var all := seen + [c];
    assert c in all && highest in all && forall x | x in seen :: x in all;
    KeepAppend(seen, c, all);
    Reflexive(c);
    SemverOrder(c.version, highest.version, c.version);
    var r := CompareSemver(c.version, highest.version).value;
    forall x | x in seen
      ensures r >= 0 ==> NotAbove(x, c)
      ensures r > 0 ==> !NotAbove(c, x)
      ensures r <= 0 && NotAbove(highest, x) ==> NotAbove(c, x)
    {
      Compared(x, highest, c);
    }
    hide NotAbove;
    if r > 0 { KeepNone(seen, all); } else { KeepSame(seen, all, seen); }
  }

  /** Where a newcomer stands towards a copy below the highest. */
  lemma Compared(x: Copy, highest: Copy, c: Copy)
    requires Orderable(x.version).Some? && Orderable(highest.version).Some? && Orderable(c.version).Some?
    requires NotAbove(x, highest)
    ensures var r := CompareSemver(c.version, highest.version).value;
      && (r >= 0 ==> NotAbove(x, c))
      && (r > 0 ==> !NotAbove(c, x))
      && (r <= 0 && NotAbove(highest, x) ==> NotAbove(c, x))
  {
    hide Orderable, CompareSemver;
    SemverOrder(x.version, highest.version, c.version);
    SemverOrder(c.version, x.version, highest.version);
    SemverOrder(c.version, highest.version, x.version);
    SemverOrder(highest.version, c.version, x.version);
    SemverOrder(x.version, c.version, highest.version);
  }

  lemma SingleScan(c: Copy)
    requires Orderable(c.version).Some?
    ensures Tops([c]) == [c] && Maximal(c, [c])
  {
    Reflexive(c);
    hide NotAbove;
    var one := [c];
    assert Maximal(one[0], one) && one[1..] == [];
    assert Keep(one, one) == [c] + Keep([], one);
  }

  /** What stays is what no copy exceeds. */
  lemma TopsHighest(copies: seq<Copy>)
    requires AllOrderable(copies)
    ensures forall c :: c in Tops(copies) <==> c in copies && forall d | d in copies ::
      !Precedes(Orderable(c.version).value, Orderable(d.version).value)
  {
    hide Precedes, Orderable, CompareSemver;
    forall c
      ensures c in Tops(copies) <==> c in copies && forall d | d in copies ::
        !Precedes(Orderable(c.version).value, Orderable(d.version).value)
    {
      KeepMembers(copies, copies, c);
      if c in copies {
        forall d | d in copies
          ensures NotAbove(d, c) <==> !Precedes(Orderable(c.version).value, Orderable(d.version).value)
        {
          SemverOrder(d.version, c.version, d.version);
        }
      }
    }
  }

  /** The scan for the highest release: it ends with exactly the copies of maximal
      precedence, in order, headed by the highest. */
  method Scan(copies: seq<Copy>) returns (highest: Copy, tied: seq<Copy>)
    requires copies != [] && AllOrderable(copies)
    ensures tied == Tops(copies) && tied != [] && tied[0] == highest
    ensures Maximal(highest, copies)
    ensures forall c :: c in tied <==> c in copies && forall d | d in copies ::
      !Precedes(Orderable(c.version).value, Orderable(d.version).value)
  {
    hide NotAbove, Keep, Precedes, Orderable;
    highest, tied := copies[0], [copies[0]];
    assert copies[0] in copies;
    Reflexive(copies[0]);
    SingleScan(copies[0]);
    assert copies[..1] == [copies[0]];
    for i := 1 to |copies|
      invariant tied == Tops(copies[..i]) && tied != [] && tied[0] == highest
      invariant highest in copies[..i] && Maximal(highest, copies[..i])
    {
      var candidate := copies[i];
      assert copies[..i + 1] == copies[..i] + [candidate];
      assert highest in copies && candidate in copies;
      assert AllOrderable(copies[..i + 1]);
      ScanStep(copies[..i], highest, candidate);
      var comparison := CompareSemver(candidate.version, highest.version);
      if comparison.Some? && comparison.value > 0 {
        highest, tied := candidate, [candidate];
      } else if comparison.Some? && comparison.value == 0 {
        tied := tied + [candidate];
      }
    }
    assert copies[..|copies|] == copies;
    TopsHighest(copies);
  }

  lemma {:induction false} HighestExists(copies: seq<Copy>) returns (highest: Copy)
    requires copies != [] && AllOrderable(copies)
    ensures highest in copies && Maximal(highest, copies)
  {
    var front, last := copies[..|copies| - 1], copies[|copies| - 1];
    assert last in copies && copies == front + [last];
    if front == [] {
      Reflexive(last);
      highest := last;
    } else {
      highest := HighestExists(front);
      ScanStep(front, highest, last);
      if CompareSemver(last.version, highest.version).value > 0 { highest := last; }
    }
  }

  lemma TopsNonEmpty(copies: seq<Copy>)
    requires copies != []
    ensures Contenders(copies) != []
  {
    if AllOrderable(copies) {
      var h := HighestExists(copies);
      KeepMembers(copies, copies, h);
    }
  }

  lemma SingleTop(copies: seq<Copy>)
    requires |copies| == 1
    ensures Contenders(copies) == copies && SameRaw(copies)
  {}

  /** The decision for one module, branch by branch. */
  method SelectModule(copies: seq<Copy>) returns (r: Verdict)
    requires copies != []
    ensures r == Decide(copies)
  {
    if |copies| == 1 {
      SingleTop(copies);
      return if copies[0].payload.None? then Failed else Selected(copies[0].raw, copies[0].payload.value);
    }
    if !AllOrderable(copies) {
      if copies[0].payload.None? {
        return Failed;
      }
      r := PollCopies(copies[0], copies[1..], Unordered);
    } else {
      var highest, tied := Scan(copies);
      if exists c | c in tied[1..] :: c.raw != highest.raw {
        assert !SameRaw(tied) by {
          var c :| c in tied[1..] && c.raw != highest.raw;
          assert c in tied && highest in tied;
        }
        return Blocked(Manifests);
      }
      HeadAgrees(tied);
      if highest.payload.None? {
        return Failed;
      }
      r := PollCopies(highest, tied[1..], Payloads);
    }
  }

  lemma HeadAgrees(tied: seq<Copy>)
    requires tied != [] && forall c | c in tied[1..] :: c.raw == tied[0].raw
    ensures SameRaw(tied)
  {
    assert tied == [tied[0]] + tied[1..];
  }

  /** The comparing loop over the remaining copies. */
  method PollCopies(first: Copy, rest: seq<Copy>, reason: Reason) returns (r: Verdict)
    requires first.payload.Some?
    ensures r == Poll(first, rest, reason)
  {
    var i := 0;
    assert rest[0..] == rest;
    while i < |rest|
      invariant 0 <= i <= |rest|
      invariant Poll(first, rest[i..], reason) == Poll(first, rest, reason)
    {
      assert rest[i..][1..] == rest[i + 1..];
      if rest[i].raw != first.raw {
        return Blocked(reason);
      }
      if rest[i].payload.None? {
        return Failed;
      }
      if rest[i].payload != first.payload {
        return Blocked(reason);
      }
      i := i + 1;
    }
    return Selected(first.raw, first.payload.value);
  }

  // ----- what the verdict means -----

  /** Reading `c` first and `d` next blocks the module. */
  predicate Conflict(c: Copy, d: Copy) {
    c.payload.Some? && (d.raw != c.raw || (d.payload.Some? && d.payload != c.payload))
  }

  lemma {:induction false} PollMeaning(first: Copy, rest: seq<Copy>, reason: Reason)
    requires first.payload.Some?
    ensures var v := Poll(first, rest, reason);
      && (v.Selected? <==> forall c | c in rest :: c.raw == first.raw && c.payload == first.payload)
      && (v.Selected? ==> v == Selected(first.raw, first.payload.value))
      && (v.Blocked? ==> v.reason == reason && exists d | d in rest :: Conflict(first, d))
      && (v.Failed? ==> exists u | u in rest :: u.payload.None?)
  {
    if rest != [] {
      assert rest == [rest[0]] + rest[1..] && rest[0] in rest;
      PollMeaning(first, rest[1..], reason);
    }
  }

  predicate Unanimous(list: seq<Copy>, raw: Trees.Bytes, scripts: Payload) {
    forall c | c in list :: c.raw == raw && c.payload == Some(scripts)
  }

  lemma SurveyMeaning(list: seq<Copy>, reason: Reason)
    requires list != []
    ensures var v := Survey(list, reason);
      && (v.Selected? ==> Unanimous(list, v.raw, v.scripts))
      && (v.Blocked? ==> v.reason == reason && exists c, d | c in list && d in list :: Conflict(c, d))
      && (v.Failed? ==> exists u | u in list :: u.payload.None?)
    ensures forall raw, scripts :: Unanimous(list, raw, scripts) ==> Survey(list, reason) == Selected(raw, scripts)
  {
    assert list == [list[0]] + list[1..] && list[0] in list;
    if list[0].payload.Some? { PollMeaning(list[0], list[1..], reason); }
  }

  /** A copy is selected exactly when every contender carries the same manifest and scripts. */
  lemma SelectedExactly(copies: seq<Copy>, raw: Trees.Bytes, scripts: Payload)
    requires copies != []
    ensures Decide(copies) == Selected(raw, scripts) <==> Unanimous(Contenders(copies), raw, scripts)
  {
    TopsNonEmpty(copies);
    SurveyMeaning(Contenders(copies), Unordered);
    SurveyMeaning(Contenders(copies), Payloads);
  }

  // ----- the order of the copies -----

  predicate Shuffled(a: seq<Copy>, b: seq<Copy>) {
    multiset(a) == multiset(b)
  }

  lemma ShuffledMembers(a: seq<Copy>, b: seq<Copy>)
    requires Shuffled(a, b)
    ensures |a| == |b| && forall c :: c in a <==> c in b
  {
    assert |multiset(a)| == |multiset(b)|;
    forall c ensures c in a <==> c in b { assert c in multiset(a) <==> c in multiset(b); }
  }

  lemma SameContenders(a: seq<Copy>, b: seq<Copy>)
    requires Shuffled(a, b)
    ensures AllOrderable(a) == AllOrderable(b)
    ensures forall c :: c in Contenders(a) <==> c in Contenders(b)
    ensures SameRaw(Contenders(a)) == SameRaw(Contenders(b))
  {
    ShuffledMembers(a, b);
    forall c
      ensures c in Contenders(a) <==> c in Contenders(b)
    {
      KeepMembers(a, a, c);
      KeepMembers(b, b, c);
    }
  }

  /** Listing the copies in another order never turns one selection or refusal into another. */
  lemma OrderIrrelevant(a: seq<Copy>, b: seq<Copy>)
    requires a != [] && b != [] && Shuffled(a, b)
    ensures Decide(a).Selected? ==> Decide(b) == Decide(a)
    ensures !Decide(a).Failed? && !Decide(b).Failed? ==> Decide(a) == Decide(b)
  {
    SameContenders(a, b);
    if Decide(a).Selected? {
      SelectedExactly(a, Decide(a).raw, Decide(a).scripts);
      SelectedExactly(b, Decide(a).raw, Decide(a).scripts);
    } else if Decide(b).Selected? {
      SelectedExactly(a, Decide(b).raw, Decide(b).scripts);
      SelectedExactly(b, Decide(b).raw, Decide(b).scripts);
    } else {
      DecideMeaning(a);
      DecideMeaning(b);
    }
  }

  function Grounds(a: seq<Copy>): Reason {
    if !AllOrderable(a) then Unordered else if !SameRaw(Contenders(a)) then Manifests else Payloads
  }

  lemma DecideMeaning(a: seq<Copy>)
    requires a != []
    ensures Decide(a).Blocked? ==> Decide(a).reason == Grounds(a)
    ensures Decide(a).Blocked? && (AllOrderable(a) ==> SameRaw(Contenders(a))) ==>
      exists c, d | c in Contenders(a) && d in Contenders(a) :: Conflict(c, d)
    ensures Decide(a).Failed? ==> (AllOrderable(a) ==> SameRaw(Contenders(a)))
    ensures Decide(a).Failed? ==> exists u | u in Contenders(a) :: u.payload.None?
  {
    TopsNonEmpty(a);
    SurveyMeaning(Contenders(a), Unordered);
    SurveyMeaning(Contenders(a), Payloads);
  }

  /** Two contenders are found to differ when they are read one after the other, and a contender,
      perhaps the second of those two, cannot be read. */
  predicate Fragile(copies: seq<Copy>) {
    && (AllOrderable(copies) ==> SameRaw(Contenders(copies)))
    && (exists u | u in Contenders(copies) :: u.payload.None?)
    && (exists c, d | c in Contenders(copies) && d in Contenders(copies) :: Conflict(c, d))
  }

  function Without(copies: seq<Copy>, c: Copy): (r: seq<Copy>)
    requires c in copies
    ensures multiset([c] + r) == multiset(copies)
  {
    if copies[0] == c then
      assert copies == [c] + copies[1..];
      copies[1..]
    else
      assert copies == [copies[0]] + copies[1..];
      var r := Without(copies[1..], c);
      assert multiset([c] + ([copies[0]] + r)) == multiset([copies[0]]) + multiset([c] + r);
      assert multiset(copies) == multiset([copies[0]]) + multiset(copies[1..]);
      [copies[0]] + r
  }

  lemma ContendersHead(c: Copy, rest: seq<Copy>)
    requires c in Contenders([c] + rest)
    ensures Contenders([c] + rest)[0] == c
  {
    var all := [c] + rest;
    if |all| > 1 && AllOrderable(all) {
      KeepMembers(all, all, c);
      assert all[1..] == rest;
    }
  }

  lemma ContendersSecond(c: Copy, d: Copy, rest: seq<Copy>)
    requires c in Contenders([c, d] + rest) && d in Contenders([c, d] + rest)
    ensures var t := Contenders([c, d] + rest); |t| >= 2 && t[0] == c && t[1] == d
  {
    var all := [c, d] + rest;
    if AllOrderable(all) {
      KeepMembers(all, all, c);
      KeepMembers(all, all, d);
      assert all[1..] == [d] + rest && ([d] + rest)[1..] == rest;
      assert Keep(all, all) == [c] + ([d] + Keep(rest, all));
    }
  }

  /** Two copies are enough: with versions that have no order and different manifests, the one
      that can be read blocks the module if it comes first, the other one stops the run. */
  lemma TwoCopiesAreEnough(good: Copy, bad: Copy)
    requires !AllOrderable([good, bad]) && good.raw != bad.raw && good.payload.Some? && bad.payload.None?
    ensures Fragile([good, bad]) && Decide([good, bad]) == Blocked(Unordered) && Decide([bad, good]) == Failed
  {
    assert [good, bad][1..] == [bad];
    assert good in [good, bad] && bad in [good, bad];
    assert forall c :: c in [good, bad] <==> c in [bad, good];
    assert Conflict(good, bad);
  }

  /** With an unreadable contender in front the run fails. */
  lemma FailingOrder(copies: seq<Copy>) returns (p: seq<Copy>)
    requires copies != [] && Fragile(copies)
    ensures Shuffled(copies, p) && p != [] && Decide(p) == Failed
  {
    var u :| u in Contenders(copies) && u.payload.None?;
    KeepMembers(copies, copies, u);
    p := [u] + Without(copies, u);
    SameContenders(copies, p);
    ContendersHead(u, Without(copies, u));
  }

  /** With two differing contenders in front, a readable one first, it reports the module blocked. */
  lemma BlockingOrder(copies: seq<Copy>) returns (p: seq<Copy>)
    requires copies != [] && Fragile(copies)
    ensures Shuffled(copies, p) && p != [] && Decide(p).Blocked?
  {
    var c, d :| c in Contenders(copies) && d in Contenders(copies) && Conflict(c, d);
    KeepMembers(copies, copies, c);
    KeepMembers(copies, copies, d);
    var rest := FrontTwo(copies, c, d);
    p := [c, d] + rest;
    SameContenders(copies, p);
    hide Contenders, Conflict, SameRaw, AllOrderable;
    ContendersSecond(c, d, rest);
    FirstTwoConflict(Contenders(p), Unordered);
    FirstTwoConflict(Contenders(p), Payloads);
  }

  lemma FrontTwo(copies: seq<Copy>, c: Copy, d: Copy) returns (rest: seq<Copy>)
    requires c in copies && d in copies && c != d
    ensures Shuffled(copies, [c, d] + rest)
  {
    hide Without;
    var r := Without(copies, c);
    ShuffledMembers(copies, [c] + r);
    rest := Without(r, d);
    assert [c, d] + rest == [c] + ([d] + rest);
    hide Shuffled;
    MultisetPair([c], [d] + rest);
    MultisetPair([c], r);
    PairShuffled(copies, [c] + ([d] + rest));
  }

  lemma PairShuffled(a: seq<Copy>, b: seq<Copy>)
    requires multiset(a) == multiset(b)
    ensures Shuffled(a, b)
  {}

  lemma MultisetPair(a: seq<Copy>, b: seq<Copy>)
    ensures multiset(a + b) == multiset(a) + multiset(b)
  {}

  lemma FirstTwoConflict(list: seq<Copy>, reason: Reason)
    requires |list| >= 2 && Conflict(list[0], list[1])
    ensures Survey(list, reason) == Blocked(reason)
  {}

  /** The order of the copies matters exactly when a contender cannot be read and two contenders
      differ, of which it may be one: the run then stops or reports, whichever it meets first. */
  lemma OrderMattersExactly(copies: seq<Copy>)
    requires copies != []
    ensures (forall p | p != [] && Shuffled(copies, p) :: Decide(p) == Decide(copies)) <==> !Fragile(copies)
  {
    if Fragile(copies) {
      var p := FailingOrder(copies);
      var q := BlockingOrder(copies);
    } else {
      forall p | p != [] && Shuffled(copies, p)
        ensures Decide(p) == Decide(copies)
      {
        SameContenders(copies, p);
        OrderIrrelevant(copies, p);
        OrderIrrelevant(p, copies);
        DecideMeaning(copies);
        DecideMeaning(p);
      }
    }
  }

  // ----- setup's stricter rule -----

  /** Setup takes the first copy, once all manifests are the same bytes. */
  function Discover(copies: seq<Copy>): Option<(Trees.Bytes, Payload)>
    requires copies != []
  {
    if !SameRaw(copies) || copies[0].payload.None? then None
    else Some((copies[0].raw, copies[0].payload.value))
  }

  /** The same manifest bytes declare the same version. */
  predicate Coherent(copies: seq<Copy>) {
    forall c, d | c in copies && d in copies && c.raw == d.raw :: c.version == d.version
  }

  predicate NoSpread(copies: seq<Copy>) {
    forall c, d | c in copies && d in copies :: c.version == d.version
  }

  lemma {:induction false} KeepAll(list: seq<Copy>, all: seq<Copy>)
    requires forall c | c in list :: Maximal(c, all)
    ensures Keep(list, all) == list
  {
    if list != [] {
      assert list[0] in list;
      KeepAll(list[1..], all);
    }
  }

  lemma NoSpreadContenders(copies: seq<Copy>)
    requires NoSpread(copies)
    ensures Contenders(copies) == copies
  {
    if AllOrderable(copies) {
      forall c | c in copies
        ensures Maximal(c, copies)
      {
        Reflexive(c);
      }
      KeepAll(copies, copies);
    }
  }

  /** What doctor selects without a version spread, setup installs; and what setup installs,
      doctor selects exactly when every copy carries those scripts. */
  lemma DoctorAndSetupAgree(copies: seq<Copy>)
    requires copies != [] && Coherent(copies)
    ensures NoSpread(copies) && Decide(copies).Selected? ==>
      Discover(copies) == Some((Decide(copies).raw, Decide(copies).scripts))
    ensures Discover(copies).Some? ==>
      var (raw, scripts) := Discover(copies).value;
      Decide(copies) == Selected(raw, scripts) <==> forall c | c in copies :: c.payload == Some(scripts)
  {
    assert copies[0] in copies;
    if NoSpread(copies) {
      NoSpreadContenders(copies);
      if Decide(copies).Selected? { SelectedExactly(copies, Decide(copies).raw, Decide(copies).scripts); }
    }
    if Discover(copies).Some? {
      SelectedExactly(copies, Discover(copies).value.0, Discover(copies).value.1);
    }
  }
}
