/** Script trees on disk: reading them, comparing them, and writing them afresh. */
module Trees {
  import opened Text

  type Path = seq<string>
  newtype byte = x: int | 0 <= x < 256
  type Bytes = seq<byte>

  datatype Item = Folder | File(content: Bytes) | Special

  /** What stands at the root of a tree: nothing, something that is no plain directory, or its items. */
  datatype Root = Absent | Obstacle | Tree(items: map<Path, Item>)

  /** A tree of folders and files only. Its sorted listings compare as sets. */
  datatype PlainTree = PlainTree(folders: set<Path>, files: map<Path, Bytes>)

  /** Every item lies in a folder of the tree. */
  ghost predicate WellFormed(root: Root) {
    root.Tree? ==> forall p | p in root.items ::
      p != [] && (|p| > 1 ==> p[..|p| - 1] in root.items && root.items[p[..|p| - 1]].Folder?)
  }

  function Read(root: Root): Option<PlainTree> {
    if !root.Tree? || (exists p | p in root.items :: root.items[p].Special?) then None
    else
      Some(PlainTree(set p | p in root.items && root.items[p].Folder?,
                     map p | p in root.items && root.items[p].File? :: root.items[p].content))
  }

  predicate Matches(root: Root, expected: PlainTree) {
    Read(root) == Some(expected)
  }

  // ----- path closure -----

  /** The paths and everything above them. */
  function Under(paths: set<Path>): set<Path> {
    set p, i | p in paths && 1 <= i <= |p| :: p[..i]
  }

  /** Everything strictly above the paths. */
  function Parents(paths: set<Path>): set<Path> {
    set p, i | p in paths && 1 <= i < |p| :: p[..i]
  }

  function FolderSet(source: PlainTree): set<Path> {
    Under(source.folders) + Parents(source.files.Keys)
  }

  /** No file stands where a folder is needed. */
  predicate Writable(source: PlainTree) {
    FolderSet(source) !! source.files.Keys
  }

  /** The listing names every folder that its entries need, and no entry is the root itself. */
  predicate Closed(source: PlainTree) {
    FolderSet(source) == source.folders && [] !in source.files
  }

  lemma ParentsClosed(paths: set<Path>)
    ensures Under(Parents(paths)) == Parents(paths)
  {
    forall q | q in Under(Parents(paths))
      ensures q in Parents(paths)
    {
      var p, i :| p in Parents(paths) && 1 <= i <= |p| && q == p[..i];
      var f, j :| f in paths && 1 <= j < |f| && p == f[..j];
      assert q == f[..i];
    }
    forall q | q in Parents(paths)
      ensures q in Under(Parents(paths))
    {
      var f, j :| f in paths && 1 <= j < |f| && q == f[..j];
      assert q == q[..|q|];
    }
  }

  lemma {:induction false} ReadParent(root: Root, p: Path, i: nat)
    requires WellFormed(root) && root.Tree? && p in root.items && 1 <= i < |p|
    ensures p[..i] in root.items && root.items[p[..i]].Folder?
    decreases |p|
  {
    if i < |p| - 1 {
      ReadParent(root, p[..|p| - 1], i);
      assert p[..|p| - 1][..i] == p[..i];
    }
  }

  /** A tree read from disk is closed. */
  lemma ReadClosed(root: Root)
    requires WellFormed(root) && Read(root).Some?
    ensures Closed(Read(root).value)
  {
    var t := Read(root).value;
    forall q | q in FolderSet(t)
      ensures q in t.folders
    {
      if q in Under(t.folders) {
        var p, i :| p in t.folders && 1 <= i <= |p| && q == p[..i];
        if i < |p| { ReadParent(root, p, i); } else { assert q == p; }
      } else {
        var p, i :| p in t.files.Keys && 1 <= i < |p| && q == p[..i];
        ReadParent(root, p, i);
      }
    }
    forall q | q in t.folders
      ensures q in FolderSet(t)
    {
      assert q == q[..|q|];
    }
  }

  // ----- declared scripts -----

  /** A script path as declared, with the leading `scripts` component, and its content. */
  type Script = (Path, Bytes)

  /** Later declarations of the same path win. */
  function ByPath(scripts: seq<Script>): map<Path, Bytes>
    requires forall s | s in scripts :: |s.0| >= 2
  {
    if scripts == [] then map[]
    else
      var last := scripts[|scripts| - 1];
      ByPath(scripts[..|scripts| - 1])[last.0[1..] := last.1]
  }

  function DeclaredTree(scripts: seq<Script>): (t: PlainTree)
    requires forall s | s in scripts :: |s.0| >= 2
  {
    var files := ByPath(scripts);
    PlainTree(Parents(files.Keys), files)
  }

  lemma {:induction false} ByPathNonEmpty(scripts: seq<Script>)
    requires forall s | s in scripts :: |s.0| >= 2
    ensures [] !in ByPath(scripts)
    decreases |scripts|
  {
    if scripts != [] {
      var last := scripts[|scripts| - 1];
      assert last in scripts && |last.0[1..]| >= 1;
      ByPathNonEmpty(scripts[..|scripts| - 1]);
    }
  }

  /** A declared tree is closed: its folders are exactly the parents of its files. */
  lemma DeclaredClosed(scripts: seq<Script>)
    requires forall s | s in scripts :: |s.0| >= 2
    ensures Closed(DeclaredTree(scripts))
  {
    ParentsClosed(ByPath(scripts).Keys);
    ByPathNonEmpty(scripts);
  }

  /** The scripts are files of one directory tree, where they were read. */
  ghost predicate ReadFrom(scripts: seq<Script>, root: Root) {
    && root.Tree? && WellFormed(root)
    && forall s | s in scripts :: s.0 in root.items && root.items[s.0] == File(s.1)
  }

  ghost predicate Readable(scripts: seq<Script>) {
    exists root: Root :: ReadFrom(scripts, root)
  }

  lemma {:induction false} ByPathFrom(scripts: seq<Script>, p: Path) returns (s: Script)
    requires (forall s | s in scripts :: |s.0| >= 2) && p in ByPath(scripts)
    ensures s in scripts && s.0[1..] == p
    decreases |scripts|
  {
    var last := scripts[|scripts| - 1];
    assert last in scripts;
    if last.0[1..] == p { s := last; } else { s := ByPathFrom(scripts[..|scripts| - 1], p); }
  }

  lemma ByPathFile(scripts: seq<Script>, root: Root, p: Path)
    requires ReadFrom(scripts, root) && forall s | s in scripts :: |s.0| >= 2 && s.0[0] == "scripts"
    requires p in ByPath(scripts)
    ensures ["scripts"] + p in root.items && root.items[["scripts"] + p].File?
  {
    var s := ByPathFrom(scripts, p);
    assert s.0 == ["scripts"] + p;
  }

  /** A script that could be read stands nowhere another one needs a folder. */
  lemma ReadableWritable(scripts: seq<Script>)
    requires Readable(scripts) && forall s | s in scripts :: |s.0| >= 2 && s.0[0] == "scripts"
    ensures Writable(DeclaredTree(scripts))
  {
    var root: Root :| ReadFrom(scripts, root);
    var files := ByPath(scripts);
    ParentsClosed(files.Keys);
    forall q | q in Parents(files.Keys)
      ensures q !in files
    {
      var p, i :| p in files.Keys && 1 <= i < |p| && q == p[..i];
      ByPathFile(scripts, root, p);
      ReadParent(root, ["scripts"] + p, i + 1);
      assert (["scripts"] + p)[..i + 1] == ["scripts"] + q;
      if q in files { ByPathFile(scripts, root, q); }
    }
  }

  // ----- writing -----

  /** The items of a freshly written tree. */
  function Built(source: PlainTree): map<Path, Item> {
    map p | p in FolderSet(source) + source.files.Keys :: if p in source.files then File(source.files[p]) else Folder
  }

  lemma BuiltReads(source: PlainTree)
    requires Closed(source) && Writable(source)
    ensures Matches(Tree(Built(source)), source)
  {
    hide FolderSet;
    var items := Built(source);
    assert forall p | p in items :: !items[p].Special?;
    assert (set p | p in items && items[p].Folder?) == source.folders;
    assert (map p | p in items && items[p].File? :: items[p].content) == source.files;
  }

  lemma ReadItem(root: Root, p: Path)
    requires Read(root).Some?
    ensures var t := Read(root).value;
      && (p in root.items <==> p in t.folders || p in t.files)
      && (p in t.files ==> root.items[p] == File(t.files[p]))
      && (p in t.folders ==> root.items[p] == Folder && p !in t.files)
  {
    if p in root.items { assert !root.items[p].Special?; }
  }

  lemma BuiltItem(source: PlainTree, p: Path)
    requires Closed(source)
    ensures p in Built(source) <==> p in source.folders || p in source.files
    ensures p in source.files ==> Built(source)[p] == File(source.files[p])
    ensures p in source.folders && p !in source.files ==> Built(source)[p] == Folder
  {
    hide FolderSet;
  }

  /** A tree that reads back is exactly the written one: nothing of it is left out of the reading. */
  lemma ReadRebuilds(root: Root)
    requires WellFormed(root) && Read(root).Some?
    ensures root == Tree(Built(Read(root).value))
  {
    ReadClosed(root);
    ReadTree(root);
    hide *;
    var t := Read(root).value;
    forall p
      ensures p in root.items <==> p in Built(t)
      ensures p in root.items ==> root.items[p] == Built(t)[p]
    {
      ReadItem(root, p);
      BuiltItem(t, p);
    }
    assert root.items == Built(t);
  }

  lemma ReadTree(root: Root)
    requires Read(root).Some?
    ensures root.Tree?
  {}

  lemma ParentInFolders(source: PlainTree, p: Path)
    requires Closed(source) && p in source.folders + source.files.Keys
    ensures p != [] && (|p| > 1 ==> p[..|p| - 1] in source.folders)
  {
    if |p| > 1 { assert p[..|p| - 1] in FolderSet(source); }
  }

  lemma BuiltWellFormed(source: PlainTree)
    requires Closed(source) && Writable(source)
    ensures WellFormed(Tree(Built(source)))
  {
    hide FolderSet;
    var items := Built(source);
    forall p | p in items
      ensures p != [] && (|p| > 1 ==> p[..|p| - 1] in items && items[p[..|p| - 1]].Folder?)
    {
      ParentInFolders(source, p);
    }
  }

  /** A directory being written. */
  class Disk {
    var items: map<Path, Item>

    constructor ()
      ensures items == map[]
    {
      items := map[];
    }

    /** `mkdir` with parents; existing folders are fine, anything else is an error. */
    method MakeFolder(p: Path) returns (ok: bool)
      modifies this
      ensures ok <==> forall q | q in Under({p}) && q in old(items) :: old(items)[q].Folder?
      ensures ok ==> items == old(items) + map q | q in Under({p}) :: Folder
    {
      ghost var done: set<Path> := {};
      var i := 1;
      while i <= |p|
        invariant 1 <= i && (p == [] || i <= |p| + 1)
        invariant done == set j | 1 <= j < i && j <= |p| :: p[..j]
        invariant items == old(items) + map q | q in done :: Folder
        invariant forall q | q in done && q in old(items) :: old(items)[q].Folder?
      {
        var q := p[..i];
        assert q in Under({p});
        if q in items && !items[q].Folder? {
          assert q !in done;
          return false;
        }
        items := items[q := Folder];
        done := done + {q};
        i := i + 1;
      }
      assert done == Under({p});
      ok := true;
    }

    /** Write one file, making the folders it needs. */
    method WriteFile(p: Path, content: Bytes) returns (ok: bool)
      requires p != []
      modifies this
      ensures ok <==> (forall q | q in Parents({p}) && q in old(items) :: old(items)[q].Folder?) &&
                      (p in old(items) ==> !old(items)[p].Folder?)
      ensures ok ==> items == (old(items) + map q | q in Parents({p}) :: Folder)[p := File(content)]
    {
      var above := p[..|p| - 1];
      assert Under({above}) == Parents({p}) by { Above(p); }
      ok := MakeFolder(above);
      if ok {
        assert p !in Parents({p});
        if p in items && items[p].Folder? {
          return false;
        }
        items := items[p := File(content)];
      }
    }
  }

  lemma Above(p: Path)
    requires p != []
    ensures Under({p[..|p| - 1]}) == Parents({p})
  {
    var above := p[..|p| - 1];
    forall q
      ensures q in Under({above}) <==> q in Parents({p})
    {
      if q in Under({above}) {
        var i :| 1 <= i <= |above| && q == above[..i];
        assert q == p[..i];
      }
      if q in Parents({p}) {
        var i :| 1 <= i < |p| && q == p[..i];
        assert q == above[..i];
      }
    }
  }

  /** Folders of a set of paths, added one path at a time. */
  lemma UnderAdd(paths: set<Path>, p: Path)
    ensures Under(paths + {p}) == Under(paths) + Under({p}) && Parents(paths + {p}) == Parents(paths) + Parents({p})
  {}

  ghost predicate PartlyWritten(items: map<Path, Item>, source: PlainTree, done: set<Path>) {
    Holding(items, Under(source.folders) + Parents(done), done, source.files)
  }

  method WriteFolders(disk: Disk, folders: set<Path>)
    requires disk.items == map[]
    modifies disk
    ensures disk.items == map q | q in Under(folders) :: Folder
  {
    var todo, done := folders, {};
    while todo != {}
      invariant done + todo == folders
      invariant disk.items == map q | q in Under(done) :: Folder
      decreases |todo|
    {
      var p :| p in todo;
      UnderAdd(done, p);
      todo, done := todo - {p}, done + {p};
      var ok := disk.MakeFolder(p);
    }
    assert done == folders;
  }

  method WriteFiles(disk: Disk, source: PlainTree) returns (ok: bool)
    requires [] !in source.files && PartlyWritten(disk.items, source, {})
    modifies disk
    ensures ok <==> Writable(source)
    ensures ok ==> disk.items == Built(source)
  {
    hide Under, Parents, FolderSet, Writable, PartlyWritten, Built;
    var todo, done := source.files.Keys, {};
    while todo != {}
      invariant done + todo == source.files.Keys && done !! todo
      invariant PartlyWritten(disk.items, source, done)
      decreases |todo|
    {
      var p :| p in todo;
      ghost var before := disk.items;
      ok := disk.WriteFile(p, source.files[p]);
      if !ok {
        FailedWrite(before, source, done, p);
        return;
      }
      FileWritten(before, source, done, p);
      todo, done := todo - {p}, done + {p};
    }
    assert done == source.files.Keys;
    AllWritten(disk.items, source);
    ok := true;
  }

  /** Write the whole tree into an empty directory: folders first, then files. */
  method WriteTree(source: PlainTree) returns (r: Option<Root>)
    requires [] !in source.files
    ensures r.Some? <==> Writable(source)
    ensures r.Some? ==> r.value == Tree(Built(source))
  {
    var disk := new Disk();
    WriteFolders(disk, source.folders);
    var ok := WriteFiles(disk, source);
    r := if ok then Some(Tree(disk.items)) else None;
  }

  lemma FailedWrite(items: map<Path, Item>, source: PlainTree, done: set<Path>, p: Path)
    requires PartlyWritten(items, source, done) && p in source.files && p !in done
    requires !(forall q | q in Parents({p}) && q in items :: items[q].Folder?) || (p in items && items[p].Folder?)
    ensures !Writable(source)
  {
    if p in items && items[p].Folder? {
      if p in Parents(done) {
        var f, i :| f in done && 1 <= i < |f| && p == f[..i];
        assert p in Parents(source.files.Keys);
      }
      assert p in FolderSet(source);
    } else {
      var q :| q in Parents({p}) && q in items && !items[q].Folder?;
      var i :| 1 <= i < |p| && q == p[..i];
      assert q in Parents(source.files.Keys) && q in source.files;
    }
  }

  lemma FileWritten(items: map<Path, Item>, source: PlainTree, done: set<Path>, p: Path)
    requires PartlyWritten(items, source, done) && p in source.files && p !in done
    requires forall q | q in Parents({p}) && q in items :: items[q].Folder?
    requires p in items ==> !items[p].Folder?
    ensures PartlyWritten((items + map q | q in Parents({p}) :: Folder)[p := File(source.files[p])], source, done + {p})
  {
    UnderAdd(done, p);
    assert p !in Parents({p});
    AddFile(items, Under(source.folders) + Parents(done), done, source.files, Parents({p}), p);
    assert Under(source.folders) + Parents(done + {p}) == Under(source.folders) + Parents(done) + Parents({p});
  }

  ghost predicate Holding(items: map<Path, Item>, folders: set<Path>, done: set<Path>, files: map<Path, Bytes>) {
    && done <= files.Keys && items.Keys == folders + done
    && (forall q | q in folders :: items[q] == Folder) && (forall q | q in done :: items[q] == File(files[q]))
  }

  lemma AddFile(items: map<Path, Item>, folders: set<Path>, done: set<Path>, files: map<Path, Bytes>,
                above: set<Path>, p: Path)
    requires Holding(items, folders, done, files) && p in files && p !in done && p !in above
    requires forall q | q in above && q in items :: items[q].Folder?
    requires p in items ==> !items[p].Folder?
    ensures Holding((items + map q | q in above :: Folder)[p := File(files[p])], folders + above, done + {p}, files)
  {}

  lemma AllWritten(items: map<Path, Item>, source: PlainTree)
    requires PartlyWritten(items, source, source.files.Keys)
    ensures Writable(source) && items == Built(source)
  {}

  /** Leave a matching tree alone; otherwise replace whatever is there by the tree. */
  method EnsurePlainTree(root: Root, source: PlainTree) returns (r: Option<Root>)
    requires Closed(source)
    ensures Matches(root, source) ==> r == Some(root)
    ensures r.Some? <==> Matches(root, source) || Writable(source)
    ensures r.Some? ==> Matches(r.value, source) && (WellFormed(root) ==> WellFormed(r.value))
  {
    if Matches(root, source) {
      return Some(root);
    }
    r := WriteTree(source);
    if r.Some? {
      BuiltReads(source);
      BuiltWellFormed(source);
    }
  }
}
