/** How setup writes a module's scripts: one file at a time, over whatever is there. */
module Staging {
  import opened Text
  import opened Trees

  /** Write one file: anything but a folder above it, and whatever stands at the path
      itself, gives way. */
  function Stage(items: map<Path, Item>, p: Path, content: Bytes): map<Path, Item>
    requires p != []
  {
    var cleared := items + map q | q in Parents({p}) :: Folder;
    (map q | q in cleared && !(p <= q) :: cleared[q])[p := File(content)]
  }

  function StageAll(items: map<Path, Item>, scripts: seq<Script>): map<Path, Item>
    requires forall s | s in scripts :: |s.0| >= 2
    decreases |scripts|
  {
    if scripts == [] then items
    else
      var last := scripts[|scripts| - 1];
      assert last in scripts && last.0[1..] != [];
      Stage(StageAll(items, scripts[..|scripts| - 1]), last.0[1..], last.1)
  }

  /** The `scripts` directory of a module after setup. */
  function StagedRoot(root: Root, scripts: seq<Script>): Root
    requires forall s | s in scripts :: |s.0| >= 2
  {
    if root.Obstacle? && scripts == [] then root
    else Tree(StageAll(if root.Tree? then root.items else map[], scripts))
  }

  /** Something else in the place of the directory stays when no script is declared, and gives way
      to one otherwise; a directory keeps what it has. */
  lemma StagedRootMeans(root: Root, scripts: seq<Script>)
    requires forall s | s in scripts :: |s.0| >= 2
    ensures StagedRoot(root, scripts) == Obstacle <==> root == Obstacle && scripts == []
    ensures root.Tree? ==> StagedRoot(root, scripts) == Tree(StageAll(root.items, scripts))
    ensures root.Absent? || (root.Obstacle? && scripts != []) ==>
      StagedRoot(root, scripts) == Tree(StageAll(map[], scripts))
  {}

  /** The declared scripts, written one after the other. */
  method StageScripts(root: Root, scripts: seq<Script>) returns (r: Root)
    requires forall s | s in scripts :: |s.0| >= 2
    ensures r == StagedRoot(root, scripts)
  {
    hide Stage;
    if root.Obstacle? && scripts == [] {
      return root;
    }
    var items: map<Path, Item> := if root.Tree? then root.items else map[];
    ghost var start := items;
    for i := 0 to |scripts|
      invariant items == StageAll(start, scripts[..i])
    {
      assert scripts[..i + 1][..i] == scripts[..i];
      assert scripts[i] in scripts && scripts[i].0[1..] != [];
      items := Stage(items, scripts[i].0[1..], scripts[i].1);
    }
    assert scripts[..|scripts|] == scripts;
    r := Tree(items);
  }

  /** One file written: it is there, folders lead to it, nothing is below it, and the rest stays. */
  lemma StageMeans(items: map<Path, Item>, p: Path, content: Bytes, q: Path)
    requires p != []
    ensures var after := Stage(items, p, content);
      && (q == p ==> q in after && after[q] == File(content))
      && (p <= q && q != p ==> q !in after)
      && (q in Parents({p}) ==> q in after && after[q] == Folder)
      && (!(p <= q) && q !in Parents({p}) ==> (q in after <==> q in items) && (q in items ==> after[q] == items[q]))
  {
    NotAbove(p, q);
  }

  /** After setup every declared script is there with its content, whatever stood there before. */
  lemma {:induction false} StagedFile(items: map<Path, Item>, scripts: seq<Script>, q: Path)
    requires (forall s | s in scripts :: |s.0| >= 2) && Writable(DeclaredTree(scripts)) && q in ByPath(scripts)
    ensures q in StageAll(items, scripts) && StageAll(items, scripts)[q] == File(ByPath(scripts)[q])
    decreases |scripts|
  {
    hide Stage, Writable, DeclaredTree, Parents;
    var before, last := scripts[..|scripts| - 1], scripts[|scripts| - 1];
    assert last in scripts && last.0[1..] != [];
    var p := last.0[1..];
    ByPathStep(scripts);
    var mid := StageAll(items, before);
    StageMeans(mid, p, last.1, q);
    if q != p {
      WritablePrefix(scripts);
      StagedFile(items, before, q);
      FilesApart(scripts, p, q);
    }
  }

  /** What is neither above nor below a declared path stays. */
  lemma {:induction false} StagedElsewhere(items: map<Path, Item>, scripts: seq<Script>, q: Path)
    requires forall s | s in scripts :: |s.0| >= 2
    requires forall p | p in ByPath(scripts) :: !(p <= q) && q !in Parents({p})
    ensures q in StageAll(items, scripts) <==> q in items
    ensures q in items ==> StageAll(items, scripts)[q] == items[q]
    decreases |scripts|
  {
    hide Stage, Parents;
    if scripts != [] {
      var before, last := scripts[..|scripts| - 1], scripts[|scripts| - 1];
      assert last in scripts && last.0[1..] != [];
      ByPathStep(scripts);
      assert last.0[1..] in ByPath(scripts) && forall p | p in ByPath(before) :: p in ByPath(scripts);
      StagedElsewhere(items, before, q);
      StageMeans(StageAll(items, before), last.0[1..], last.1, q);
    }
  }

  lemma BelowInParents(paths: set<Path>, p: Path, q: Path)
    requires p in paths && q in paths && p != []
    ensures p <= q && p != q ==> p in Parents(paths)
    ensures q in Parents({p}) ==> q in Parents(paths)
  {
    if p <= q && p != q { assert q[..|p|] == p; }
  }

  /** No declared file stands above another. */
  lemma FilesApart(scripts: seq<Script>, p: Path, q: Path)
    requires (forall s | s in scripts :: |s.0| >= 2) && Writable(DeclaredTree(scripts))
    requires p in ByPath(scripts) && q in ByPath(scripts) && p != [] && p != q
    ensures !(p <= q) && q !in Parents({p})
  {
    BelowInParents(ByPath(scripts).Keys, p, q);
    DeclaredFolders(scripts);
    hide Parents;
  }

  /** The last declaration of a path decides. */
  lemma {:induction false} LastDeclared(scripts: seq<Script>, i: nat)
    requires i < |scripts| && forall s | s in scripts :: |s.0| >= 2
    requires forall j | i < j < |scripts| :: scripts[j].0[1..] != scripts[i].0[1..]
    ensures scripts[i].0[1..] in ByPath(scripts) && ByPath(scripts)[scripts[i].0[1..]] == scripts[i].1
    decreases |scripts|
  {
    ByPathStep(scripts);
    if i < |scripts| - 1 { LastDeclared(scripts[..|scripts| - 1], i); }
  }

  lemma ByPathStep(scripts: seq<Script>)
    requires scripts != [] && forall s | s in scripts :: |s.0| >= 2
    ensures var last := scripts[|scripts| - 1];
      ByPath(scripts) == ByPath(scripts[..|scripts| - 1])[last.0[1..] := last.1]
  {}

  /** Declaring fewer scripts never makes a tree unwritable. */
  lemma WritablePrefix(scripts: seq<Script>)
    requires scripts != [] && forall s | s in scripts :: |s.0| >= 2
    requires Writable(DeclaredTree(scripts))
    ensures Writable(DeclaredTree(scripts[..|scripts| - 1]))
  {
    var before := scripts[..|scripts| - 1];
    ByPathStep(scripts);
    DeclaredClosed(scripts);
    DeclaredClosed(before);
    assert ByPath(before).Keys <= ByPath(scripts).Keys;
    forall q | q in Parents(ByPath(before).Keys)
      ensures q in Parents(ByPath(scripts).Keys)
    {
      var p, i :| p in ByPath(before).Keys && 1 <= i < |p| && q == p[..i];
      assert p in ByPath(scripts).Keys;
    }
  }

  /** Into an empty directory, setup writes exactly the declared tree. */
  lemma {:induction false} StagedIsBuilt(scripts: seq<Script>)
    requires forall s | s in scripts :: |s.0| >= 2
    requires Writable(DeclaredTree(scripts))
    ensures StageAll(map[], scripts) == Built(DeclaredTree(scripts))
    decreases |scripts|
  {
    if scripts == [] {
      assert FolderSet(DeclaredTree(scripts)) == {};
    } else {
      var before, last := scripts[..|scripts| - 1], scripts[|scripts| - 1];
      assert last in scripts && last.0[1..] != [];
      WritablePrefix(scripts);
      StagedIsBuilt(before);
      StageStep(before, last, scripts);
    }
  }

  lemma DeclaredFolders(scripts: seq<Script>)
    requires forall s | s in scripts :: |s.0| >= 2
    ensures var t := DeclaredTree(scripts);
      FolderSet(t) == Parents(ByPath(scripts).Keys) && t.files == ByPath(scripts) && t.folders == FolderSet(t)
  {
    DeclaredClosed(scripts);
  }

  lemma StageStep(before: seq<Script>, last: Script, scripts: seq<Script>)
    requires scripts == before + [last] && forall s | s in scripts :: |s.0| >= 2
    requires last.0[1..] != [] && Writable(DeclaredTree(scripts))
    ensures Stage(Built(DeclaredTree(before)), last.0[1..], last.1) == Built(DeclaredTree(scripts))
  {
    var p := last.0[1..];
    assert scripts[..|scripts| - 1] == before && scripts[|scripts| - 1] == last;
    ByPathStep(scripts);
    hide Stage;
    DeclaredFolders(before);
    DeclaredFolders(scripts);
    var earlier, all := ByPath(before), ByPath(scripts);
    assert Built(DeclaredTree(before)) == Items(Parents(earlier.Keys), earlier) by { DeclaredFolders(before); }
    assert Built(DeclaredTree(scripts)) == Items(Parents(all.Keys), all) by { DeclaredFolders(scripts); }
    assert all.Keys == earlier.Keys + {p};
    UnderAdd(earlier.Keys, p);
    assert Parents(all.Keys) == Parents(earlier.Keys) + Parents({p});
    forall q | q in Parents(earlier.Keys) + earlier.Keys && p <= q
      ensures q == p
    {
      if q != p { BelowIsParent(earlier.Keys, p, q); }
    }
    StageItems(Parents(earlier.Keys), earlier, p, last.1);
  }

  /** A path with anything below it is a folder. */
  lemma BelowIsParent(paths: set<Path>, p: Path, q: Path)
    requires p != [] && q in Parents(paths) + paths && p <= q && q != p
    ensures p in Parents(paths)
  {
    if q in paths {
      assert p == q[..|p|];
    } else {
      var f, i :| f in paths && 1 <= i < |f| && q == f[..i];
      assert p == f[..|p|];
    }
  }

  function Items(folders: set<Path>, files: map<Path, Bytes>): map<Path, Item> {
    map q | q in folders + files.Keys :: if q in files then File(files[q]) else Folder
  }

  lemma StageItems(folders: set<Path>, files: map<Path, Bytes>, p: Path, content: Bytes)
    requires p != [] && p !in folders && Parents({p}) !! files.Keys && p !in Parents({p})
    requires forall q | q in folders + files.Keys && p <= q :: q == p
    ensures Stage(Items(folders, files), p, content) == Items(folders + Parents({p}), files[p := content])
  {
    forall q
      ensures q in Stage(Items(folders, files), p, content) <==> q in Items(folders + Parents({p}), files[p := content])
      ensures q in Stage(Items(folders, files), p, content) ==>
        Stage(Items(folders, files), p, content)[q] == Items(folders + Parents({p}), files[p := content])[q]
    {
      NotAbove(p, q);
      StageItemsAt(folders, files, p, content, q);
    }
    hide Stage, Items, Parents;
    var a, b := Stage(Items(folders, files), p, content), Items(folders + Parents({p}), files[p := content]);
    assert a.Keys == b.Keys;
  }

  lemma NotAbove(p: Path, q: Path)
    ensures q in Parents({p}) ==> !(p <= q)
  {
    if q in Parents({p}) {
      var i :| 1 <= i < |p| && q == p[..i];
    }
  }

  lemma StageItemsAt(folders: set<Path>, files: map<Path, Bytes>, p: Path, content: Bytes, q: Path)
    requires p != [] && p !in folders && Parents({p}) !! files.Keys && p !in Parents({p})
    requires q in folders + files.Keys && p <= q ==> q == p
    requires q in Parents({p}) ==> !(p <= q)
    ensures q in Stage(Items(folders, files), p, content) <==> q in Items(folders + Parents({p}), files[p := content])
    ensures q in Stage(Items(folders, files), p, content) ==>
      Stage(Items(folders, files), p, content)[q] == Items(folders + Parents({p}), files[p := content])[q]
  {
    hide Parents;
  }

  /** After setup into an empty directory doctor finds the declared tree. */
  lemma FreshScriptsMatch(scripts: seq<Script>)
    requires Readable(scripts) && forall s | s in scripts :: |s.0| >= 2 && s.0[0] == "scripts"
    ensures Matches(StagedRoot(Absent, scripts), DeclaredTree(scripts))
  {
    ReadableWritable(scripts);
    DeclaredClosed(scripts);
    StagedIsBuilt(scripts);
    BuiltReads(DeclaredTree(scripts));
  }
}
