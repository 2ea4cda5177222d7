/** The team configuration: the keep-existing merge, and the questions that fill in
    what the installed modules still miss. */
module Config {
  import opened Text
  import opened Toml

  // ----- keep-existing merge -----

  /** Everything the template has and the existing value lacks, on top of the existing value. */
  function FillKeep(template: Toml, existing: Toml): Toml
    decreases existing
  {
    if template.Table? && existing.Table? then
      Table(map k | k in template.m.Keys + existing.m.Keys ::
        if k !in existing.m then template.m[k]
        else if k in template.m then FillKeep(template.m[k], existing.m[k])
        else existing.m[k])
    else existing
  }

  /** Wherever both are tables, the value has every key of the template. */
  predicate Covers(value: Toml, template: Toml)
    decreases value
  {
    template.Table? && value.Table? ==>
      template.m.Keys <= value.m.Keys && forall k | k in template.m :: Covers(value.m[k], template.m[k])
  }

  /** The value has everything the base has, with the same contents. */
  predicate Keeps(value: Toml, base: Toml)
    decreases base
  {
    if value.Table? && base.Table? then
      base.m.Keys <= value.m.Keys && forall k | k in base.m :: Keeps(value.m[k], base.m[k])
    else value == base
  }

  /** Merging changes nothing exactly when nothing of the template is missing. */
  lemma {:induction false} FillKeepFixpoint(template: Toml, existing: Toml)
    ensures FillKeep(template, existing) == existing <==> Covers(existing, template)
    decreases existing
  {
    if template.Table? && existing.Table? {
      var merged := FillKeep(template, existing);
      assert merged.m.Keys == template.m.Keys + existing.m.Keys;
      forall k | k in template.m && k in existing.m
        ensures merged.m[k] == existing.m[k] <==> Covers(existing.m[k], template.m[k])
      {
        FillKeepFixpoint(template.m[k], existing.m[k]);
      }
      if Covers(existing, template) {
        assert merged.m == existing.m;
      }
    }
  }

  lemma {:induction false} CoversItself(t: Toml)
    ensures Covers(t, t)
    decreases t
  {
    if t.Table? {
      forall k | k in t.m ensures Covers(t.m[k], t.m[k]) { CoversItself(t.m[k]); }
    }
  }

  /** The merge misses nothing of the template and loses nothing of the existing value. */
  lemma {:induction false} FillKeepResult(template: Toml, existing: Toml)
    ensures Covers(FillKeep(template, existing), template)
    ensures Keeps(FillKeep(template, existing), existing)
    decreases existing
  {
    var merged := FillKeep(template, existing);
    if template.Table? && existing.Table? {
      forall k | k in merged.m
        ensures k in template.m ==> Covers(merged.m[k], template.m[k])
        ensures k in existing.m ==> Keeps(merged.m[k], existing.m[k])
      {
        if k !in existing.m {
          CoversItself(template.m[k]);
        } else if k in template.m {
          FillKeepResult(template.m[k], existing.m[k]);
        } else {
          KeepsItself(existing.m[k]);
        }
      }
    } else {
      KeepsItself(existing);
    }
  }

  lemma {:induction false} KeepsItself(t: Toml)
    ensures Keeps(t, t)
    decreases t
  {
    if t.Table? {
      forall k | k in t.m ensures Keeps(t.m[k], t.m[k]) { KeepsItself(t.m[k]); }
    }
  }

  lemma {:induction false} KeepsTrans(a: Toml, b: Toml, c: Toml)
    requires Keeps(a, b) && Keeps(b, c)
    ensures Keeps(a, c)
    decreases c
  {
    if a.Table? && b.Table? && c.Table? {
      forall k | k in c.m ensures Keeps(a.m[k], c.m[k]) { KeepsTrans(a.m[k], b.m[k], c.m[k]); }
    }
  }

  /** Filling an older value from a newer one that keeps it gives the newer one. */
  lemma {:induction false} FillKeepNewer(newer: Toml, older: Toml)
    requires Keeps(newer, older)
    ensures FillKeep(newer, older) == newer
    decreases older
  {
    if newer.Table? && older.Table? {
      var merged := FillKeep(newer, older);
      forall k | k in newer.m
        ensures merged.m[k] == newer.m[k]
      {
        if k in older.m { FillKeepNewer(newer.m[k], older.m[k]); }
      }
      assert merged.m == newer.m;
    }
  }

  /** Merging the same template twice is merging it once. */
  lemma FillKeepIdempotent(template: Toml, existing: Toml)
    ensures FillKeep(template, FillKeep(template, existing)) == FillKeep(template, existing)
  {
    FillKeepResult(template, existing);
    FillKeepFixpoint(template, FillKeep(template, existing));
  }

  // ----- paths -----

  /** A path is present, is vacant, or is blocked by a value that is no table. */
  datatype Presence = Present | Vacant | Blocked

  function HasPath(data: Toml, path: seq<string>): Presence
    decreases |path|
  {
    if path == [] then Present
    else if !data.Table? then Blocked
    else if path[0] !in data.m then Vacant
    else HasPath(data.m[path[0]], path[1..])
  }

  /** What the table holds at the path, if anything. */
  function ValueAt(data: Toml, path: seq<string>): Option<Toml>
    decreases |path|
  {
    if path == [] then Some(data)
    else if data.Table? && path[0] in data.m then ValueAt(data.m[path[0]], path[1..])
    else None
  }

  /** A path is present where it has a value, and blocked where a part of it has one that is no table. */
  lemma {:induction false} PresenceMeans(data: Toml, path: seq<string>)
    ensures HasPath(data, path) == Present <==> ValueAt(data, path).Some?
    ensures HasPath(data, path) == Blocked <==>
      exists n: nat :: n < |path| && ValueAt(data, path[..n]).Some? && !ValueAt(data, path[..n]).value.Table?
    decreases |path|
  {
    if path != [] {
      assert path[..0] == [];
      if data.Table? {
        forall n: nat | 0 < n <= |path|
          ensures path[..n][0] == path[0] && path[..n][1..] == path[1..][..n - 1]
        {}
        if path[0] in data.m {
          PresenceMeans(data.m[path[0]], path[1..]);
          BlockedBelow(data, path);
        }
      }
    }
  }

  lemma BlockedBelow(data: Toml, path: seq<string>)
    requires path != [] && data.Table? && path[0] in data.m
    ensures (exists n: nat :: n < |path| && ValueAt(data, path[..n]).Some? && !ValueAt(data, path[..n]).value.Table?) <==>
      var child, rest := data.m[path[0]], path[1..];
      exists n: nat :: n < |rest| && ValueAt(child, rest[..n]).Some? && !ValueAt(child, rest[..n]).value.Table?
  {
    var child, rest := data.m[path[0]], path[1..];
    assert ValueAt(data, path[..0]) == Some(data);
    forall n: nat | n < |rest|
      ensures ValueAt(data, path[..n + 1]) == ValueAt(child, rest[..n])
    {
      assert path[..n + 1][1..] == rest[..n];
    }
    if n: nat :| n < |path| && ValueAt(data, path[..n]).Some? && !ValueAt(data, path[..n]).value.Table? {
      assert n > 0;
      assert ValueAt(data, path[..n - 1 + 1]) == ValueAt(child, rest[..n - 1]);
    }
  }

  /** The merge keeps every configured value and takes from the template what no value is in the way of. */
  lemma {:induction false} FillKeepAt(template: Toml, existing: Toml, path: seq<string>)
    requires template.Table?
    ensures HasPath(existing, path) == Vacant ==> ValueAt(FillKeep(template, existing), path) == ValueAt(template, path)
    ensures HasPath(existing, path) == Blocked ==> ValueAt(FillKeep(template, existing), path) == None
    ensures ValueAt(existing, path).Some? && !ValueAt(existing, path).value.Table? ==>
      ValueAt(FillKeep(template, existing), path) == ValueAt(existing, path)
    decreases |path|
  {
    PresenceMeans(existing, path);
    if path != [] && existing.Table? {
      var merged := FillKeep(template, existing);
      var k := path[0];
      if k in template.m && k in existing.m {
        assert merged.m[k] == FillKeep(template.m[k], existing.m[k]);
        if template.m[k].Table? {
          FillKeepAt(template.m[k], existing.m[k], path[1..]);
        } else {
          OtherKeeps(template.m[k], existing.m[k], path[1..]);
        }
      } else if k in existing.m {
        OtherKeeps(Leaf(Bool(true)), existing.m[k], path[1..]);
      }
    }
  }

  lemma {:induction false} OtherKeeps(template: Toml, existing: Toml, path: seq<string>)
    requires !template.Table?
    ensures FillKeep(template, existing) == existing
    ensures HasPath(existing, path) == Vacant ==> ValueAt(existing, path) == None == ValueAt(template, path)
    ensures HasPath(existing, path) == Blocked ==> ValueAt(existing, path) == None
  {
    PresenceMeans(existing, path);
  }

  /** The walk that looks a path up. */
  method LookUp(data: Toml, path: seq<string>) returns (found: Presence)
    ensures found == HasPath(data, path)
  {
    var current := data;
    var i := 0;
    assert path[0..] == path;
    while i < |path|
      invariant 0 <= i <= |path|
      invariant HasPath(current, path[i..]) == HasPath(data, path)
    {
      assert path[i..][1..] == path[i + 1..];
      if !current.Table? {
        return Blocked;
      }
      if path[i] !in current.m {
        return Vacant;
      }
      current := current.m[path[i]];
      i := i + 1;
    }
    return Present;
  }

  /** The table with a new string at the path; None when that would overwrite something. */
  function SetMissing(data: Toml, path: seq<string>, value: string): Option<Toml>
    requires path != []
    decreases |path|
  {
    if !data.Table? then None
    else if |path| == 1 then
      if path[0] in data.m then None else Some(Table(data.m[path[0] := Leaf(Str(value))]))
    else
      match SetMissing(if path[0] in data.m then data.m[path[0]] else Table(map[]), path[1..], value)
      case None => None
      case Some(child) => Some(Table(data.m[path[0] := child]))
  }

  /** Neither path leads to or through the other. */
  predicate Apart(p: seq<string>, q: seq<string>) {
    !(p <= q) && !(q <= p)
  }

  /** An answer can be inserted exactly where a question is pending, and then it is there. */
  lemma {:induction false} SetMissingFills(data: Toml, path: seq<string>, value: string)
    requires path != [] && data.Table?
    ensures SetMissing(data, path, value).Some? <==> HasPath(data, path) == Vacant
    ensures var r := SetMissing(data, path, value);
      r.Some? ==> r.value.Table? && HasPath(r.value, path) == Present && ValueAt(r.value, path) == Some(Leaf(Str(value)))
    decreases |path|
  {
    if |path| == 1 {
      assert path[1..] == [];
    } else {
      var child := if path[0] in data.m then data.m[path[0]] else Table(map[]);
      if child.Table? { SetMissingFills(child, path[1..], value); }
    }
  }

  /** Inserting an answer neither blocks nor satisfies a question elsewhere. */
  lemma {:induction false} SetMissingElsewhere(data: Toml, p: seq<string>, value: string, q: seq<string>)
    requires p != [] && Apart(p, q) && SetMissing(data, p, value).Some?
    ensures HasPath(SetMissing(data, p, value).value, q) == HasPath(data, q)
    ensures ValueAt(SetMissing(data, p, value).value, q) == ValueAt(data, q)
    decreases |p|
  {
    if p[0] == q[0] && |p| > 1 && |q| > 1 {
      var child := if p[0] in data.m then data.m[p[0]] else Table(map[]);
      assert p == [p[0]] + p[1..] && q == [q[0]] + q[1..];
      SetMissingElsewhere(child, p[1..], value, q[1..]);
    }
  }

  /** Inserting an answer loses nothing, and never removes what a template asks for. */
  lemma {:induction false} SetMissingKeeps(data: Toml, path: seq<string>, value: string, template: Toml)
    requires path != [] && SetMissing(data, path, value).Some?
    ensures Keeps(SetMissing(data, path, value).value, data)
    ensures Covers(data, template) ==> Covers(SetMissing(data, path, value).value, template)
    decreases |path|
  {
    forall k | k in data.m ensures Keeps(data.m[k], data.m[k]) { KeepsItself(data.m[k]); }
    if |path| > 1 {
      var k := path[0];
      var child := if k in data.m then data.m[k] else Table(map[]);
      var below := if template.Table? && k in template.m then template.m[k] else Leaf(Bool(true));
      SetMissingKeeps(child, path[1..], value, below);
    }
  }
}
