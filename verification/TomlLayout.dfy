/** Which lines a printed document has, and in which order: its values first, then one block for
    each table that has a header. */
module TomlLayout {
  import opened Text
  import opened Toml

  /** A table with a header of its own. */
  datatype Section = Section(header: seq<string>, body: seq<Entry>)

  /** The tables that get a header, depth first. */
  function Sections(entries: seq<Entry>, prefix: seq<string>): seq<Section>
    decreases entries
  {
    if entries == [] then []
    else if !entries[0].value.Dict? then Sections(entries[1..], prefix)
    else
      assert entries[0] in entries;
      var sub, header := entries[0].value.entries, prefix + [entries[0].key];
      (if HasScalars(sub) || sub == [] then [Section(header, sub)] else [])
      + Sections(sub, header) + Sections(entries[1..], prefix)
  }

  /** Their lines, with a blank line before every header that is not the first line. */
  function Blocks(sections: seq<Section>, started: bool): seq<string>
    requires forall s | s in sections :: s.header != []
  {
    if sections == [] then []
    else
      assert sections[0] in sections;
      (if started then [""] else []) + [HeaderText(sections[0].header)] + ScalarLines(sections[0].body)
      + Blocks(sections[1..], true)
  }

  lemma {:induction false} BlocksConcat(a: seq<Section>, b: seq<Section>, started: bool)
    requires forall s | s in a + b :: s.header != []
    ensures (forall s | s in a :: s.header != []) && (forall s | s in b :: s.header != [])
    ensures Blocks(a + b, started) == Blocks(a, started) + Blocks(b, started || a != [])
    ensures Blocks(a, started) != [] <==> a != []
    decreases |a|
  {
    hide HeaderText, ScalarLines;
    assert forall s | s in a :: s in a + b;
    assert forall s | s in b :: s in a + b;
    if a == [] {
      NilLeft(b);
      NilLeft(Blocks(b, started));
    } else {
      Drop(a, b, 1);
      assert forall s | s in a[1..] + b :: s in a + b;
      BlocksConcat(a[1..], b, true);
      var head := (if started then [""] else []) + [HeaderText(a[0].header)] + ScalarLines(a[0].body);
      Assoc(head, Blocks(a[1..], true), Blocks(b, true));
    }
  }

  lemma {:induction false} SectionsBelow(entries: seq<Entry>, prefix: seq<string>)
    ensures forall s | s in Sections(entries, prefix) :: prefix < s.header
    decreases entries
  {
    hide HasScalars;
    if entries != [] {
      assert entries[0] in entries;
      if entries[0].value.Dict? { SectionsBelow(entries[0].value.entries, prefix + [entries[0].key]); }
      SectionsBelow(entries[1..], prefix);
    }
  }

  lemma SomeEntry(sub: seq<Entry>)
    ensures HasScalars(sub) || !HasTables(sub) <==> HasScalars(sub) || sub == []
  {
    if sub != [] { assert sub[0] in sub; }
  }

  /** What the walk prints is the blocks of those tables. */
  lemma {:induction false} TablesAreBlocks(entries: seq<Entry>, prefix: seq<string>, started: bool)
    ensures forall s | s in Sections(entries, prefix) :: s.header != []
    ensures TableLines(entries, prefix, started) == Blocks(Sections(entries, prefix), started)
    decreases entries
  {
    SectionsBelow(entries, prefix);
    if entries != [] {
      if !entries[0].value.Dict? {
        TablesAreBlocks(entries[1..], prefix, started);
      } else {
        assert entries[0] in entries;
        var sub, header := entries[0].value.entries, prefix + [entries[0].key];
        var own := if HasScalars(sub) || sub == [] then [Section(header, sub)] else [];
        SomeEntry(sub);
        OwnBlock(sub, header, started);
        hide HasScalars, HasTables, ScalarLines, HeaderText, SectionLines, Blocks;
        var section := SectionLines(sub, header, started);
        TablesAreBlocks(sub, header, started || section != []);
        var below := TableLines(sub, header, started || section != []);
        TablesAreBlocks(entries[1..], prefix, started || section + below != []);
        BlocksConcat(own + Sections(sub, header), Sections(entries[1..], prefix), started);
        BlocksConcat(own, Sections(sub, header), started);
      }
    }
  }

  lemma OwnBlock(sub: seq<Entry>, header: seq<string>, started: bool)
    requires header != []
    ensures var own := if HasScalars(sub) || sub == [] then [Section(header, sub)] else [];
      && (forall s | s in own :: s.header != []) && Blocks(own, started) == SectionLines(sub, header, started)
      && (own != [] <==> SectionLines(sub, header, started) != [])
  {
    SomeEntry(sub);
    hide HasScalars, HasTables, ScalarLines, HeaderText;
    assert Blocks([], true) == [];
    NilRight((if started then [""] else []) + [HeaderText(header)] + ScalarLines(sub));
    assert [Section(header, sub)][1..] == [];
  }

  /** A document is its values, then the blocks. */
  lemma DocumentIs(entries: seq<Entry>)
    ensures forall s | s in Sections(entries, []) :: s.header != []
    ensures DocumentLines(entries) == ScalarLines(entries) + Blocks(Sections(entries, []), ScalarLines(entries) != [])
  {
    hide ScalarLines, TableLines, Sections, Blocks;
    TablesAreBlocks(entries, [], ScalarLines(entries) != []);
  }

  /** The table stands at this path. */
  predicate TableAt(entries: seq<Entry>, path: seq<string>, sub: seq<Entry>)
    decreases |path|, 1
  {
    path != [] && exists e :: e in entries && Under(e, path, sub)
  }

  predicate Under(e: Entry, path: seq<string>, sub: seq<Entry>)
    requires path != []
    decreases |path|, 0
  {
    && e.value.Dict? && e.key == path[0]
    && if |path| == 1 then sub == e.value.entries else TableAt(e.value.entries, path[1..], sub)
  }

  /** The table holds a value, or nothing at all. */
  predicate Titled(sub: seq<Entry>) {
    sub == [] || exists e :: e in sub && !e.value.Dict?
  }

  /** A header is printed for the tables that hold a value or nothing at all, and for those only. */
  lemma {:induction false} SectionsAre(entries: seq<Entry>, prefix: seq<string>, path: seq<string>, sub: seq<Entry>)
    ensures Section(prefix + path, sub) in Sections(entries, prefix) <==> TableAt(entries, path, sub) && Titled(sub)
    decreases entries
  {
    if entries != [] {
      assert entries[0] in entries;
      var e, rest := entries[0], entries[1..];
      SectionsAre(rest, prefix, path, sub);
      TableSplit(entries, path, sub);
      hide Titled, TableAt, HasScalars;
      if e.value.Dict? {
        var header := prefix + [e.key];
        SectionsBelow(e.value.entries, header);
        OwnSection(e.value.entries, prefix, e.key, path, sub);
        if path != [] && |path| > 1 && path[0] == e.key {
          Assoc(prefix, [e.key], path[1..]);
          assert path == [e.key] + path[1..];
          SectionsAre(e.value.entries, header, path[1..], sub);
        } else {
          BelowKey(prefix, e.key, path);
        }
      }
    }
  }

  lemma TableSplit(entries: seq<Entry>, path: seq<string>, sub: seq<Entry>)
    requires entries != []
    ensures path == [] ==> !TableAt(entries, path, sub)
    ensures path != [] ==>
      (TableAt(entries, path, sub) <==> Under(entries[0], path, sub) || TableAt(entries[1..], path, sub))
  {
    hide Under;
    assert entries == [entries[0]] + entries[1..];
  }

  lemma OwnSection(below: seq<Entry>, prefix: seq<string>, key: string, path: seq<string>, sub: seq<Entry>)
    ensures var own := if HasScalars(below) || below == [] then [Section(prefix + [key], below)] else [];
      Section(prefix + path, sub) in own <==> path == [key] && sub == below && Titled(sub)
  {
    assert prefix + path == prefix + [key] ==> path == [key] by {
      assert (prefix + path)[|prefix|..] == path && (prefix + [key])[|prefix|..] == [key];
    }
  }

  lemma BelowKey(prefix: seq<string>, key: string, path: seq<string>)
    ensures prefix + [key] < prefix + path ==> |path| > 1 && path[0] == key
  {
    assert (prefix + [key])[|prefix|] == key && (path != [] ==> (prefix + path)[|prefix|] == path[0]);
  }

  /** How arrays, inline tables, pairs, headers and lines look. */
  lemma ItemsForm(a: Doc, b: Doc)
    ensures ItemsText([a, b]) == ValueText(a) + (", " + ValueText(b))
    ensures ValueText(Array([a])) == "[ " + ValueText(a) + " ]"
  {
    NilRight(ValueText(a));
    NilRight(ValueText(b));
    assert [a, b][1..] == [b];
  }

  lemma EntriesForm(a: Entry, b: Entry)
    ensures EntriesText([a, b]) == PairText(a.key, ValueText(a.value)) + (", " + PairText(b.key, ValueText(b.value)))
    ensures ValueText(Dict([a])) == "{ " + PairText(a.key, ValueText(a.value)) + " }"
  {
    hide PairText;
    NilRight(PairText(a.key, ValueText(a.value)));
    NilRight(PairText(b.key, ValueText(b.value)));
    assert [a, b][1..] == [b];
  }

  lemma LinesForm(key: string, value: string, a: string, b: string)
    ensures PairText(key, value) == TomlKey(key) + " = " + value
    ensures HeaderText([a, b]) == "[" + (TomlKey(a) + ("." + TomlKey(b))) + "]"
    ensures JoinLines([a, b]) == a + ("\n" + b)
  {
    hide TomlKey;
    NilRight(TomlKey(b));
    NilRight(b);
    assert [a, b][1..] == [b];
    assert PathText([b]) == TomlKey(b) && JoinLines([b]) == b;
    assert PathText([a, b]) == TomlKey(a) + ("." + PathText([b]));
    assert JoinLines([a, b]) == a + ("\n" + JoinLines([b]));
  }
}
