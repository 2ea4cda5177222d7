/** Merging configuration layers: tables by key, keyed arrays by identity, the rest by replacement. */
module Merge {
  import opened Text
  import opened Toml

  /** The field that identifies the items; Invalid when an identifier is no usable string. */
  datatype Identity = Keyed(field: string) | Unkeyed | Invalid

  predicate AllTables(items: seq<Toml>) {
    forall t | t in items :: t.Table?
  }

  predicate AllHave(items: seq<Toml>, field: string) {
    forall t | t in items :: t.Table? && field in t.m
  }

  /** Every item is a table whose `field` is a non-empty string. */
  predicate Identified(items: seq<Toml>, field: string) {
    forall t | t in items :: t.Table? && field in t.m && t.m[field].Leaf? && t.m[field].a.Str? && t.m[field].a.s != ""
  }

  function Detect(items: seq<Toml>): (r: Identity)
    ensures r.Keyed? ==> Identified(items, r.field)
  {
    if items == [] || !AllTables(items) then Unkeyed
    else if AllHave(items, "code") then (if Identified(items, "code") then Keyed("code") else Invalid)
    else if AllHave(items, "id") then (if Identified(items, "id") then Keyed("id") else Invalid)
    else Unkeyed
  }

  function IdOf(t: Toml, field: string): string
    requires Identified([t], field)
  {
    assert t in [t];
    t.m[field].a.s
  }

  function Ids(items: seq<Toml>, field: string): (r: seq<string>)
    requires Identified(items, field)
    ensures |r| == |items|
  {
    if items == [] then []
    else
      assert items[0] in items;
      [items[0].m[field].a.s] + Ids(items[1..], field)
  }

  lemma {:induction false} IdsAt(items: seq<Toml>, field: string, i: nat)
    requires Identified(items, field) && i < |items|
    ensures Identified([items[i]], field) && Ids(items, field)[i] == IdOf(items[i], field)
  {
    assert items[i] in items;
    if i > 0 { IdsAt(items[1..], field, i - 1); }
  }

  /** Index of the last item with this identifier, -1 if there is none. */
  function LastIndex(ids: seq<string>, id: string): (i: int)
    ensures -1 <= i < |ids|
    ensures i >= 0 ==> ids[i] == id
    ensures forall k | i < k < |ids| :: ids[k] != id
  {
    if ids == [] then -1
    else if ids[|ids| - 1] == id then |ids| - 1
    else LastIndex(ids[..|ids| - 1], id)
  }

  /** Replace the item of that identifier, or add it at the end. */
  function Upsert(items: seq<Toml>, item: Toml, field: string): seq<Toml>
    requires Identified(items, field) && Identified([item], field)
  {
    var i := LastIndex(Ids(items, field), IdOf(item, field));
    if i >= 0 then items[i := item] else items + [item]
  }

  lemma UpsertIdentified(items: seq<Toml>, item: Toml, field: string)
    requires Identified(items, field) && Identified([item], field)
    ensures Identified(Upsert(items, item, field), field)
  {
    assert item in [item];
  }

  function Overlay(base: seq<Toml>, override: seq<Toml>, field: string): (r: seq<Toml>)
    requires Identified(base, field) && Identified(override, field)
    ensures Identified(r, field)
  {
    if override == [] then base
    else
      var n := |override| - 1;
      assert override[n] in override;
      assert forall t | t in override[..n] :: t in override;
      UpsertIdentified(Overlay(base, override[..n], field), override[n], field);
      Upsert(Overlay(base, override[..n], field), override[n], field)
  }

  function MergedArrays(base: seq<Toml>, override: seq<Toml>): Option<seq<Toml>> {
    match Detect(base + override)
    case Invalid => None
    case Unkeyed => Some(base + override)
    case Keyed(field) =>
      IdentifiedParts(base, override, field);
      Some(Overlay(base, override, field))
  }

  lemma IdentifiedParts(base: seq<Toml>, override: seq<Toml>, field: string)
    requires Identified(base + override, field)
    ensures Identified(base, field) && Identified(override, field)
  {
    assert forall t | t in base :: t in base + override;
    assert forall t | t in override :: t in base + override;
  }

  /** The index that the loop carries: the last position of each identifier. */
  ghost predicate Indexed(index: map<string, nat>, ids: seq<string>) {
    && (forall id | id in index :: LastIndex(ids, id) == index[id])
    && (forall id | id !in index :: LastIndex(ids, id) == -1)
  }

  lemma {:induction false} IdsAppend(items: seq<Toml>, item: Toml, field: string)
    requires Identified(items, field) && Identified([item], field)
    ensures Identified(items + [item], field) && Ids(items + [item], field) == Ids(items, field) + [IdOf(item, field)]
  {
    assert item in [item];
    if items == [] {
      NilLeft([item]);
      assert [item][1..] == [];
    } else {
      assert forall t | t in items[1..] :: t in items;
      Drop(items, [item], 1);
      IdsAppend(items[1..], item, field);
      assert items[0] in items;
      Assoc([items[0].m[field].a.s], Ids(items[1..], field), [IdOf(item, field)]);
    }
  }

  lemma IdsReplace(items: seq<Toml>, i: nat, item: Toml, field: string)
    requires Identified(items, field) && Identified([item], field) && i < |items|
    requires Ids(items, field)[i] == IdOf(item, field)
    ensures Identified(items[i := item], field) && Ids(items[i := item], field) == Ids(items, field)
  {
    assert item in [item];
    var r := items[i := item];
    assert Identified(r, field);
    hide Ids, IdOf, Identified;
    forall k | 0 <= k < |items|
      ensures Ids(r, field)[k] == Ids(items, field)[k]
    {
      IdsAt(r, field, k);
      IdsAt(items, field, k);
    }
  }

  lemma LastIndexAppend(ids: seq<string>, id: string)
    ensures LastIndex(ids + [id], id) == |ids|
    ensures forall other | other != id :: LastIndex(ids + [id], other) == LastIndex(ids, other)
  {
    assert (ids + [id])[..|ids|] == ids;
  }

  lemma IndexedAppend(index: map<string, nat>, ids: seq<string>, id: string)
    requires Indexed(index, ids)
    ensures Indexed(index[id := |ids|], ids + [id])
  {
    LastIndexAppend(ids, id);
  }

  /** The two loops over base and override. */
  method MergeArrays(base: seq<Toml>, override: seq<Toml>) returns (r: Option<seq<Toml>>)
    ensures r == MergedArrays(base, override)
  {
    var identity := Detect(base + override);
    if identity.Invalid? {
      return None;
    }
    if identity.Unkeyed? {
      return Some(base + override);
    }
    var field := identity.field;
    IdentifiedParts(base, override, field);
    var index: map<string, nat>;
    index := IndexBase(base, field);
    var items := base;
    for i := 0 to |override|
      invariant Identified(override[..i], field) && Identified(items, field)
      invariant items == Overlay(base, override[..i], field)
      invariant Indexed(index, Ids(items, field))
    {
      assert override[i] in override && Identified([override[i]], field);
      assert Identified(override[..i + 1], field);
      var key := IdOf(override[i], field);
      hide Overlay, Ids, Identified, IdOf, LastIndex;
      PrefixStep(override, i);
      OverlayStep(base, override[..i + 1], field);
      if key in index {
        IdsReplace(items, index[key], override[i], field);
        items := items[index[key] := override[i]];
      } else {
        IdsAppend(items, override[i], field);
        IndexedAppend(index, Ids(items, field), key);
        index := index[key := |items|];
        items := items + [override[i]];
      }
    }
    assert override[..|override|] == override;
    r := Some(items);
  }

  lemma PrefixStep(items: seq<Toml>, i: nat)
    requires i < |items|
    ensures items[..i + 1][..i] == items[..i] && items[..i + 1][i] == items[i]
  {}

  lemma OverlayStep(base: seq<Toml>, override: seq<Toml>, field: string)
    requires Identified(base, field) && Identified(override, field) && override != []
    ensures var n := |override| - 1;
      && Identified(override[..n], field) && Identified([override[n]], field)
      && Overlay(base, override, field) == Upsert(Overlay(base, override[..n], field), override[n], field)
  {
    var n := |override| - 1;
    assert override[n] in override && forall t | t in override[..n] :: t in override;
  }

  method IndexBase(base: seq<Toml>, field: string) returns (index: map<string, nat>)
    requires Identified(base, field)
    ensures Indexed(index, Ids(base, field))
  {
    index := map[];
    for i := 0 to |base|
      invariant Indexed(index, Ids(base, field)[..i])
    {
      var ids := Ids(base, field);
      assert ids[..i + 1] == ids[..i] + [ids[i]];
      IndexedAppend(index, ids[..i], ids[i]);
      index := index[ids[i] := i];
    }
    assert Ids(base, field)[..|base|] == Ids(base, field);
  }

  // ----- what a keyed merge gives -----

  predicate Distinct(ids: seq<string>) {
    forall i, j | 0 <= i < j < |ids| :: ids[i] != ids[j]
  }

  /** The identifiers that `known` lacks, in order of first appearance. */
  function NewIds(ids: seq<string>, known: seq<string>): seq<string> {
    if ids == [] then []
    else
      var before, id := NewIds(ids[..|ids| - 1], known), ids[|ids| - 1];
      if id in known || id in before then before else before + [id]
  }

  lemma LastIndexIn(ids: seq<string>, id: string)
    ensures LastIndex(ids, id) >= 0 <==> id in ids
  {}

  lemma Snoc(items: seq<Toml>)
    requires items != []
    ensures items[..|items| - 1] + [items[|items| - 1]] == items
  {}

  lemma UpsertIds(items: seq<Toml>, item: Toml, field: string)
    requires Identified(items, field) && Identified([item], field)
    ensures Identified(Upsert(items, item, field), field)
    ensures var ids, id := Ids(items, field), IdOf(item, field);
      Ids(Upsert(items, item, field), field) == if id in ids then ids else ids + [id]
  {
    var ids, id := Ids(items, field), IdOf(item, field);
    LastIndexIn(ids, id);
    hide Ids, Identified, IdOf;
    var i := LastIndex(ids, id);
    if i >= 0 { IdsReplace(items, i, item, field); } else { IdsAppend(items, item, field); }
  }

  lemma NewIdsStep(ids: seq<string>, id: string, known: seq<string>)
    ensures NewIds(ids + [id], known) ==
      if id in known || id in NewIds(ids, known) then NewIds(ids, known) else NewIds(ids, known) + [id]
  {
    assert (ids + [id])[..|ids|] == ids;
  }

  /** The merged array has the base identifiers in base order, then the new ones. */
  lemma {:induction false} OverlayIds(base: seq<Toml>, override: seq<Toml>, field: string)
    requires Identified(base, field) && Identified(override, field)
    ensures Ids(Overlay(base, override, field), field) == Ids(base, field) + NewIds(Ids(override, field), Ids(base, field))
    decreases |override|
  {
    if override == [] {
      NilRight(Ids(base, field));
    } else {
      hide Overlay, Ids, Identified, IdOf, Upsert, NewIds;
      var n := |override| - 1;
      var front, item := override[..n], override[n];
      OverlayStep(base, override, field);
      OverlayIds(base, front, field);
      UpsertIds(Overlay(base, front, field), item, field);
      IdsAppend(front, item, field);
      Snoc(override);
      NewIdsStep(Ids(front, field), IdOf(item, field), Ids(base, field));
      Assoc(Ids(base, field), NewIds(Ids(front, field), Ids(base, field)), [IdOf(item, field)]);
    }
  }

  lemma {:induction false} NewIdsDistinct(ids: seq<string>, known: seq<string>)
    ensures Distinct(NewIds(ids, known)) && forall id | id in NewIds(ids, known) :: id !in known
  {
    if ids != [] { NewIdsDistinct(ids[..|ids| - 1], known); }
  }

  lemma DistinctConcat(a: seq<string>, b: seq<string>)
    requires Distinct(b) && forall id | id in b :: id !in a
    ensures Distinct(a + b) <==> Distinct(a)
  {
    var all := a + b;
    if Distinct(all) {
      forall i, j | 0 <= i < j < |a|
        ensures a[i] != a[j]
      {
        assert all[i] == a[i] && all[j] == a[j];
      }
    } else {
      assert forall i | 0 <= i < |a| :: all[i] == a[i];
      assert forall i | |a| <= i < |all| :: all[i] == b[i - |a|] && all[i] in b;
    }
  }

  /** The merged identifiers are distinct exactly when the base identifiers are. */
  lemma OverlayDistinct(base: seq<Toml>, override: seq<Toml>, field: string)
    requires Identified(base, field) && Identified(override, field)
    ensures Distinct(Ids(Overlay(base, override, field), field)) <==> Distinct(Ids(base, field))
  {
    hide Overlay, NewIds, Ids, Identified, Distinct;
    OverlayIds(base, override, field);
    NewIdsDistinct(Ids(override, field), Ids(base, field));
    DistinctConcat(Ids(base, field), NewIds(Ids(override, field), Ids(base, field)));
  }

  /** The last item with this identifier. */
  function Latest(items: seq<Toml>, field: string, id: string): Option<Toml>
    requires Identified(items, field)
  {
    var i := LastIndex(Ids(items, field), id);
    if i >= 0 then Some(items[i]) else None
  }

  lemma LatestUpsert(items: seq<Toml>, item: Toml, field: string, id: string)
    requires Identified(items, field) && Identified([item], field)
    ensures Identified(Upsert(items, item, field), field)
    ensures Latest(Upsert(items, item, field), field, id) ==
      if id == IdOf(item, field) then Some(item) else Latest(items, field, id)
  {
    hide Ids, Identified, IdOf, LastIndex;
    var ids, key := Ids(items, field), IdOf(item, field);
    var i := LastIndex(ids, key);
    if i >= 0 {
      IdsReplace(items, i, item, field);
    } else {
      IdsAppend(items, item, field);
      LastIndexAppend(ids, key);
    }
  }

  lemma LatestSnoc(items: seq<Toml>, item: Toml, field: string, id: string)
    requires Identified(items, field) && Identified([item], field)
    ensures Identified(items + [item], field)
    ensures Latest(items + [item], field, id) == if id == IdOf(item, field) then Some(item) else Latest(items, field, id)
  {
    hide Ids, Identified, IdOf, LastIndex;
    IdsAppend(items, item, field);
    LastIndexAppend(Ids(items, field), IdOf(item, field));
  }

  /** Each identifier is bound to its last override, or else to its last base item. */
  lemma {:induction false} OverlayBinds(base: seq<Toml>, override: seq<Toml>, field: string, id: string)
    requires Identified(base, field) && Identified(override, field)
    ensures Latest(Overlay(base, override, field), field, id) ==
      match Latest(override, field, id) case Some(t) => Some(t) case None => Latest(base, field, id)
    decreases |override|
  {
    if override != [] {
      hide Overlay, Ids, Identified, IdOf, Latest, Upsert;
      var n := |override| - 1;
      var front, item := override[..n], override[n];
      OverlayStep(base, override, field);
      OverlayBinds(base, front, field, id);
      LatestUpsert(Overlay(base, front, field), item, field, id);
      Snoc(override);
      LatestSnoc(front, item, field, id);
    } else {
      assert Latest(override, field, id) == None;
    }
  }

  lemma {:induction false} LastIndexConcat(a: seq<string>, b: seq<string>, id: string)
    requires id !in b
    ensures LastIndex(a + b, id) == LastIndex(a, id)
    decreases |b|
  {
    if b == [] {
      NilRight(a);
    } else {
      var n := |b| - 1;
      assert (a + b)[..|a + b| - 1] == a + b[..n] && b[n] in b && forall x | x in b[..n] :: x in b;
      LastIndexConcat(a, b[..n], id);
    }
  }

  /** In the place of a base item stands the last override with its identifier, if it is the last
      base item with that identifier and there is one, and the base item itself otherwise. */
  lemma {:induction false} OverlayAt(base: seq<Toml>, override: seq<Toml>, field: string, i: nat)
    requires Identified(base, field) && Identified(override, field) && i < |base|
    ensures var r, id := Overlay(base, override, field), Ids(base, field)[i];
      i < |r| && r[i] ==
        if LastIndex(Ids(base, field), id) == i && Latest(override, field, id).Some? then Latest(override, field, id).value
        else base[i]
    decreases |override|
  {
    var ids, id := Ids(base, field), Ids(base, field)[i];
    if override == [] {
      assert Latest(override, field, id) == None;
    } else {
      var n := |override| - 1;
      var front, item := override[..n], override[n];
      OverlayStep(base, override, field);
      hide Overlay, Ids, Identified, IdOf, LastIndex, Latest, NewIds;
      OverlayAt(base, front, field, i);
      OverlayIds(base, front, field);
      Snoc(override);
      LatestSnoc(front, item, field, id);
      var news := NewIds(Ids(front, field), ids);
      NewIdsDistinct(Ids(front, field), ids);
      assert id in ids;
      LastIndexConcat(ids, news, id);
      var key := IdOf(item, field);
      SharedIndex(ids, news, key, i);
    }
  }

  lemma SharedIndex(ids: seq<string>, news: seq<string>, key: string, i: nat)
    requires i < |ids| && forall x | x in news :: x !in ids
    ensures LastIndex(ids + news, key) == i ==> key == ids[i]
  {
    assert (ids + news)[i] == ids[i];
  }

  lemma UnkeyedAppends(base: seq<Toml>, override: seq<Toml>)
    requires var all := base + override;
      || (exists t :: t in all && !t.Table?)
      || ((exists t :: t in all && t.Table? && "code" !in t.m) && (exists t :: t in all && t.Table? && "id" !in t.m))
    ensures MergedArrays(base, override) == Some(base + override)
  {}

  /** Arrays of tables that all have a `code`, or else all an `id`, are merged by it when every one
      is a non-empty string, and are an error otherwise. */
  lemma KeyedMerges(base: seq<Toml>, override: seq<Toml>, field: string)
    requires base + override != [] && forall t | t in base + override :: t.Table? && field in t.m
    requires field == "code" || (field == "id" && exists t :: t in base + override && t.Table? && "code" !in t.m)
    ensures Identified(base + override, field) <==>
      forall t | t in base + override :: exists c, rest :: t.m[field] == Leaf(Str([c] + rest))
    ensures MergedArrays(base, override).Some? <==> Identified(base + override, field)
    ensures Identified(base + override, field) ==>
      && Identified(base, field) && Identified(override, field)
      && MergedArrays(base, override) == Some(Overlay(base, override, field))
  {
    forall t | t in base + override
      ensures (t.m[field].Leaf? && t.m[field].a.Str? && t.m[field].a.s != "") <==>
        exists c, rest :: t.m[field] == Leaf(Str([c] + rest))
    {
      var v := t.m[field];
      if v.Leaf? && v.a.Str? && v.a.s != "" {
        assert v.a.s == [v.a.s[0]] + v.a.s[1..];
      }
    }
    if Identified(base + override, field) { IdentifiedParts(base, override, field); }
    hide Overlay;
  }

  // ----- tables and layers -----

  /** None when an array identifier is invalid. */
  function StructuralMerge(base: Toml, override: Toml): Option<Toml>
    decreases override
  {
    if base.Table? && override.Table? then
      if exists k | k in override.m && k in base.m :: StructuralMerge(base.m[k], override.m[k]).None? then None
      else
        Some(Table(map k | k in base.m.Keys + override.m.Keys ::
          if k !in override.m then base.m[k]
          else if k in base.m then StructuralMerge(base.m[k], override.m[k]).value
          else override.m[k]))
    else if base.List? && override.List? then
      match MergedArrays(base.items, override.items)
      case None => None
      case Some(items) => Some(List(items))
    else Some(override)
  }

  function Layered(layers: seq<Toml>): Option<Toml> {
    if layers == [] then Some(Table(map[]))
    else
      var n := |layers| - 1;
      match Layered(layers[..n])
      case None => None
      case Some(merged) => StructuralMerge(merged, layers[n])
  }

  lemma {:induction false} LayeredPrefix(layers: seq<Toml>, n: nat)
    requires n <= |layers| && Layered(layers).Some?
    ensures Layered(layers[..n]).Some?
  {
    if n < |layers| {
      LayeredPrefix(layers[..|layers| - 1], n);
      assert layers[..|layers| - 1][..n] == layers[..n];
    } else {
      assert layers[..n] == layers;
    }
  }

  /** The folding loop. */
  method MergeLayers(layers: seq<Toml>) returns (r: Option<Toml>)
    ensures r == Layered(layers)
  {
    hide StructuralMerge;
    var merged: Toml := Table(map[]);
    for i := 0 to |layers|
      invariant Layered(layers[..i]) == Some(merged)
    {
      assert layers[..i + 1][..i] == layers[..i];
      var next := StructuralMerge(merged, layers[i]);
      if next.None? {
        if Layered(layers).Some? { LayeredPrefix(layers, i + 1); }
        return None;
      }
      merged := next.value;
    }
    assert layers[..|layers|] == layers;
    r := Some(merged);
  }

  type Path = seq<string>

  function Resolve(t: Toml, path: Path): Option<Toml>
    decreases path
  {
    if path == [] then Some(t)
    else if t.Table? && path[0] in t.m then Resolve(t.m[path[0]], path[1..])
    else None
  }

  /** As far as the path exists, its parents are tables. */
  predicate Clear(t: Toml, path: Path)
    decreases path
  {
    path == [] || (t.Table? && (path[0] in t.m ==> Clear(t.m[path[0]], path[1..])))
  }

  /** One value over another, where either may be missing. */
  function Combine(base: Option<Toml>, override: Option<Toml>): Option<Toml> {
    match (base, override)
    case (_, None) => base
    case (None, _) => override
    case (Some(b), Some(o)) => StructuralMerge(b, o)
  }

  /** Merging and looking up a path is looking it up on both sides and merging. */
  lemma {:induction false} MergeAtPath(base: Toml, override: Toml, path: Path)
    requires StructuralMerge(base, override).Some? && Clear(base, path) && Clear(override, path)
    ensures var merged := StructuralMerge(base, override).value;
      Clear(merged, path) && Resolve(merged, path) == Combine(Resolve(base, path), Resolve(override, path))
    decreases path
  {
    if path != [] {
      var k := path[0];
      if k in base.m && k in override.m {
        assert StructuralMerge(base.m[k], override.m[k]).Some?;
        MergeAtPath(base.m[k], override.m[k], path[1..]);
      }
    }
  }

  /** Two arrays merge as arrays, and anything but two tables or two arrays is replaced. */
  lemma MergeOther(base: Toml, override: Toml)
    requires !(base.Table? && override.Table?)
    ensures base.List? && override.List? ==>
      StructuralMerge(base, override) ==
        match MergedArrays(base.items, override.items) case Some(items) => Some(List(items)) case None => None
    ensures !(base.List? && override.List?) ==> StructuralMerge(base, override) == Some(override)
  {}

  /** The arrays both sides have at a path cannot be merged. */
  ghost predicate Clashes(base: Toml, override: Toml, path: Path) {
    var b, o := Resolve(base, path), Resolve(override, path);
    b.Some? && o.Some? && b.value.List? && o.value.List? && MergedArrays(b.value.items, o.value.items).None?
  }

  /** A merge fails exactly when somewhere two arrays with an invalid identifier meet. */
  lemma {:induction false} MergeFails(base: Toml, override: Toml)
    ensures StructuralMerge(base, override).None? <==> exists path :: Clashes(base, override, path)
    decreases override
  {
    hide MergedArrays;
    assert Clashes(base, override, []) <==> base.List? && override.List? && MergedArrays(base.items, override.items).None?;
    if base.Table? && override.Table? {
      forall k | k in override.m && k in base.m
        ensures StructuralMerge(base.m[k], override.m[k]).None? <==> exists path :: Clashes(base.m[k], override.m[k], path)
      {
        MergeFails(base.m[k], override.m[k]);
      }
      if StructuralMerge(base, override).None? {
        var k :| k in override.m && k in base.m && StructuralMerge(base.m[k], override.m[k]).None?;
        var path :| Clashes(base.m[k], override.m[k], path);
        assert ([k] + path)[1..] == path;
        assert Clashes(base, override, [k] + path);
      }
      if path :| Clashes(base, override, path) {
        ClashBelow(base, override, path);
      }
    } else if path :| Clashes(base, override, path) {
      assert path == [];
    }
  }

  lemma ClashBelow(base: Toml, override: Toml, path: Path)
    requires base.Table? && override.Table? && Clashes(base, override, path)
    ensures path != [] && path[0] in base.m && path[0] in override.m
    ensures Clashes(base.m[path[0]], override.m[path[0]], path[1..])
  {}

  /** What the layers have at a path, merged in order. */
  function CombineAll(layers: seq<Toml>, path: Path): Option<Toml> {
    if layers == [] then None
    else Combine(CombineAll(layers[..|layers| - 1], path), Resolve(layers[|layers| - 1], path))
  }

  lemma {:induction false} LayersAtPath(layers: seq<Toml>, path: Path)
    requires Layered(layers).Some? && path != [] && forall t | t in layers :: Clear(t, path)
    ensures Clear(Layered(layers).value, path) && Resolve(Layered(layers).value, path) == CombineAll(layers, path)
  {
    if layers != [] {
      var n := |layers| - 1;
      assert layers[n] in layers && forall t | t in layers[..n] :: t in layers;
      LayeredPrefix(layers, n);
      LayersAtPath(layers[..n], path);
      hide Resolve, Clear, StructuralMerge, Combine;
      MergeAtPath(Layered(layers[..n]).value, layers[n], path);
    }
  }

  /** What the last layer that defines the path has there. */
  function LastDefined(layers: seq<Toml>, path: Path): Option<Toml> {
    if layers == [] then None
    else if Resolve(layers[|layers| - 1], path).Some? then Resolve(layers[|layers| - 1], path)
    else LastDefined(layers[..|layers| - 1], path)
  }

  lemma {:induction false} LastWins(layers: seq<Toml>, path: Path)
    requires LastDefined(layers, path).Some? ==> LastDefined(layers, path).value.Leaf?
    ensures CombineAll(layers, path) == LastDefined(layers, path)
  {
    if layers != [] && Resolve(layers[|layers| - 1], path).None? { LastWins(layers[..|layers| - 1], path); }
  }

  /** A path resolves to what the last layer defining it says, when that is a scalar and its
      parents are tables in every layer that has them; and to nothing when no layer defines it. */
  lemma LastLayerWins(layers: seq<Toml>, path: Path)
    requires Layered(layers).Some? && path != [] && forall t | t in layers :: Clear(t, path)
    requires LastDefined(layers, path).Some? ==> LastDefined(layers, path).value.Leaf?
    ensures Resolve(Layered(layers).value, path) == LastDefined(layers, path)
  {
    LayersAtPath(layers, path);
    LastWins(layers, path);
  }
}
