/** Which documents an answer cites, how they score, and whether the answer is grounded. */
module SourceAssembly {
  import opened Text
  import Confidence

  /** What the document repository knows about a file. */
  datatype Metadata = Metadata(name: string, author: string, sourceUrl: Option<string>, labels: seq<string>)

  /** A document to display: its orchestrator id, its raw score (None when it is no number), and
      what the repository answers when asked for its file, None when the lookup fails. */
  datatype Item = Item(doc: string, score: Option<real>, meta: Option<Metadata>)

  /** What the retriever says: files and graphs by orchestrator id, and the served texts when
      contexts are wanted; and how scores are calibrated. */
  datatype Context = Context(fileIds: map<string, string>, graphs: map<string, string>, texts: map<string, string>,
                             includeContexts: bool, calibrate: Option<real> -> real)

  datatype Source = Source(documentId: string, name: string, url: string, labels: seq<string>,
                           score: real, text: Option<string>, concept: bool)

  /** The file of an item, empty when it has none. */
  function FileOf(c: Context, item: Item): string {
    if item.doc in c.fileIds then c.fileIds[item.doc] else ""
  }

  /** The hit comes from a concept graph. */
  predicate FromConcepts(c: Context, item: Item) {
    item.doc in c.graphs && "OKF_" <= c.graphs[item.doc]
  }

  /** A file can be surfaced when its metadata is there, or its provenance vouches for it. */
  predicate Resolvable(c: Context, item: Item) {
    item.meta.Some? || FromConcepts(c, item)
  }

  /** The served text of an item, when contexts are wanted and it has one. */
  function TextOf(c: Context, item: Item): Option<string> {
    if c.includeContexts && item.doc in c.texts && c.texts[item.doc] != "" then Some(c.texts[item.doc]) else None
  }

  function EndsWith(s: string, suffix: string): bool {
    |suffix| <= |s| && s[|s| - |suffix|..] == suffix
  }

  /** Underscores as spaces, stripped. */
  function ConceptName(file: string): string {
    Strip(Spaced(file))
  }

  function Spaced(s: string): (r: string)
    ensures |r| == |s| && forall i | 0 <= i < |s| :: r[i] == if s[i] == '_' then ' ' else s[i]
  {
    if s == "" then "" else [if s[0] == '_' then ' ' else s[0]] + Spaced(s[1..])
  }

  function MakeSource(c: Context, item: Item): Source {
    var file, score, text := FileOf(c, item), c.calibrate(item.score), TextOf(c, item);
    match item.meta
    case Some(m) =>
      var crawled := m.author == "crawler" && EndsWith(m.name, ".html") && m.sourceUrl.Some?;
      Source(file, m.name, if crawled then m.sourceUrl.value else "", m.labels, score, text, false)
    case None => Source(file, ConceptName(file), "", [], score, text, true)
  }

  /** A later text under an earlier one. */
  function MoreText(text: Option<string>, more: string): Option<string> {
    match text
    case Some(t) => Some(t + "\n" + more)
    case None => Some(more)
  }

  /** Add the text to the first source of that file. */
  function AddText(sources: seq<Source>, file: string, more: string): seq<Source> {
    if sources == [] then []
    else if sources[0].documentId == file then [sources[0].(text := MoreText(sources[0].text, more))] + sources[1..]
    else [sources[0]] + AddText(sources[1..], file, more)
  }

  datatype State = State(sources: seq<Source>, scores: seq<real>, files: seq<string>)

  function Step(c: Context, s: State, item: Item): State {
    var file := FileOf(c, item);
    if file == "" then s
    else if file in s.files then
      State(if TextOf(c, item).Some? then AddText(s.sources, file, TextOf(c, item).value) else s.sources,
            s.scores + [c.calibrate(item.score)], s.files)
    else if Resolvable(c, item) then
      State(s.sources + [MakeSource(c, item)], s.scores + [c.calibrate(item.score)], s.files + [file])
    else s
  }

  function Assembled(c: Context, items: seq<Item>): State {
    if items == [] then State([], [], []) else Step(c, Assembled(c, items[..|items| - 1]), items[|items| - 1])
  }

  /** The merging loop over the sources so far. */
  method MergeText(sources: seq<Source>, file: string, more: string) returns (r: seq<Source>)
    ensures r == AddText(sources, file, more)
  {
    hide AddText, MoreText;
    r := sources;
    var i := 0;
    NilLeft(AddText(sources, file, more));
    assert sources[0..] == sources;
    while i < |sources|
      invariant 0 <= i <= |sources| && r == sources
      invariant sources[..i] + AddText(sources[i..], file, more) == AddText(sources, file, more)
    {
      AddTextStep(sources, i, file, more);
      if sources[i].documentId == file {
        r := sources[i := sources[i].(text := MoreText(sources[i].text, more))];
        return;
      }
      assert sources[..i + 1] == sources[..i] + [sources[i]];
      Assoc(sources[..i], [sources[i]], AddText(sources[i + 1..], file, more));
      i := i + 1;
    }
    AddTextNowhere(file, more);
    assert sources[i..] == [] && sources[..i] == sources;
    NilRight(sources);
  }

  lemma AddTextStep(sources: seq<Source>, i: nat, file: string, more: string)
    requires i < |sources|
    ensures var s := sources[i];
      if s.documentId == file then
        sources[..i] + AddText(sources[i..], file, more) == sources[i := s.(text := MoreText(s.text, more))]
      else AddText(sources[i..], file, more) == [s] + AddText(sources[i + 1..], file, more)
  {
    hide MoreText;
    assert sources[i..][1..] == sources[i + 1..];
    if sources[i].documentId == file {
      var s := sources[i].(text := MoreText(sources[i].text, more));
      assert AddText(sources[i..], file, more) == [s] + sources[i + 1..];
      hide AddText;
      assert sources[i := s] == sources[..i] + ([s] + sources[i + 1..]);
    }
  }

  lemma AddTextNowhere(file: string, more: string)
    ensures AddText([], file, more) == []
  {}

  /** The assembly loop, the confidence over the collected scores, and the grounding decision. */
  method AssembleSources(c: Context, items: seq<Item>, q: real)
    returns (sources: seq<Source>, confidence: real, grounded: bool)
    requires 0.0 < q <= 1.0
    ensures sources == Assembled(c, items).sources
    ensures confidence == Confidence.RankWeighted(q, Assembled(c, items).scores)
    ensures grounded == (sources != [])
  {
    hide AddText, MakeSource, TextOf, Resolvable;
    grounded := items != [];
    sources := [];
    var scores: seq<real>, files: seq<string> := [], [];
    for i := 0 to |items|
      invariant State(sources, scores, files) == Assembled(c, items[..i])
    {
      assert items[..i + 1][..i] == items[..i];
      var item := items[i];
      var file := FileOf(c, item);
      if file == "" {
        continue;
      }
      var score := c.calibrate(item.score);
      if file in files {
        scores := scores + [score];
        if TextOf(c, item).Some? {
          sources := MergeText(sources, file, TextOf(c, item).value);
        }
        continue;
      }
      if !Resolvable(c, item) {
        continue;
      }
      files, sources, scores := files + [file], sources + [MakeSource(c, item)], scores + [score];
    }
    assert items[..|items|] == items;
    confidence := Confidence.RankWeighted(q, scores);
    if sources == [] && grounded {
      grounded := false;
    }
  }

  // ----- which items count -----

  /** The item's score enters the confidence: its file was surfaced by it or before it. */
  predicate Counts(c: Context, before: seq<Item>, item: Item) {
    FileOf(c, item) != "" && (Resolvable(c, item) || exists j :: j in before && Resolves(c, j, FileOf(c, item)))
  }

  predicate Resolves(c: Context, j: Item, file: string) {
    FileOf(c, j) == file && Resolvable(c, j)
  }

  /** The items that count, in display order. */
  function Counted(c: Context, items: seq<Item>): seq<Item> {
    if items == [] then []
    else
      var n := |items| - 1;
      Counted(c, items[..n]) + if Counts(c, items[..n], items[n]) then [items[n]] else []
  }

  function Scores(c: Context, items: seq<Item>): seq<real> {
    if items == [] then []
    else Scores(c, items[..|items| - 1]) + [c.calibrate(items[|items| - 1].score)]
  }

  /** The files of these items, each at its first appearance. */
  function Files(c: Context, items: seq<Item>): seq<string> {
    if items == [] then []
    else
      var before, file := Files(c, items[..|items| - 1]), FileOf(c, items[|items| - 1]);
      if file in before then before else before + [file]
  }

  /** The texts of the items of this file, joined by line breaks. */
  function Served(c: Context, items: seq<Item>, file: string): Option<string> {
    if items == [] then None
    else
      var before, last := Served(c, items[..|items| - 1], file), items[|items| - 1];
      if FileOf(c, last) == file && TextOf(c, last).Some? then MoreText(before, TextOf(c, last).value) else before
  }

  lemma {:induction false} FilesAre(c: Context, items: seq<Item>, file: string)
    ensures file in Files(c, items) <==> exists j :: j in items && FileOf(c, j) == file
  {
    if items != [] {
      var n := |items| - 1;
      FilesAre(c, items[..n], file);
      assert items == items[..n] + [items[n]];
    }
  }

  lemma {:induction false} CountedAre(c: Context, items: seq<Item>, file: string)
    ensures (exists j :: j in Counted(c, items) && FileOf(c, j) == file) <==>
            (file != "" && exists j :: j in items && Resolves(c, j, file))
  {
    if items != [] {
      var n := |items| - 1;
      CountedAre(c, items[..n], file);
      assert items == items[..n] + [items[n]];
      hide Resolvable, FileOf;
      if file != "" && Resolves(c, items[n], file) { assert items[n] in Counted(c, items); }
    }
  }

  /** A file has been surfaced exactly when an item of it that could be resolved was seen. */
  lemma FilesSeen(c: Context, items: seq<Item>, file: string)
    ensures file in Files(c, Counted(c, items)) <==> file != "" && exists j :: j in items && Resolves(c, j, file)
  {
    CountedAre(c, items, file);
    FilesAre(c, Counted(c, items), file);
  }

  predicate Distinct(files: seq<string>) {
    forall i, j | 0 <= i < j < |files| :: files[i] != files[j]
  }

  /** The sources belong to the surfaced files, one each, in order, with their served texts. */
  predicate Belong(c: Context, sources: seq<Source>, files: seq<string>, counted: seq<Item>) {
    |sources| == |files| && forall i | 0 <= i < |files| ::
      sources[i].documentId == files[i] && sources[i].text == Served(c, counted, files[i])
  }

  lemma {:induction false} AddTextAt(sources: seq<Source>, file: string, more: string, k: nat)
    requires k < |sources| && sources[k].documentId == file
    requires forall i | 0 <= i < |sources| && i != k :: sources[i].documentId != file
    ensures AddText(sources, file, more) == sources[k := sources[k].(text := MoreText(sources[k].text, more))]
  {
    if k > 0 {
      AddTextAt(sources[1..], file, more, k - 1);
      assert sources == [sources[0]] + sources[1..];
    }
  }

  lemma ServedElsewhere(c: Context, counted: seq<Item>, item: Item, file: string)
    ensures Served(c, counted + [item], file) ==
      if FileOf(c, item) == file && TextOf(c, item).Some? then MoreText(Served(c, counted, file), TextOf(c, item).value)
      else Served(c, counted, file)
    ensures Files(c, counted + [item]) ==
      if FileOf(c, item) in Files(c, counted) then Files(c, counted) else Files(c, counted) + [FileOf(c, item)]
    ensures Scores(c, counted + [item]) == Scores(c, counted) + [c.calibrate(item.score)]
  {
    assert (counted + [item])[..|counted|] == counted;
  }

  /** Nothing is served yet for a file that was not surfaced. */
  lemma {:induction false} ServedNothing(c: Context, counted: seq<Item>, file: string)
    requires file !in Files(c, counted)
    ensures Served(c, counted, file) == None
  {
    if counted != [] { ServedNothing(c, counted[..|counted| - 1], file); }
  }

  predicate Described(c: Context, s: State, counted: seq<Item>) {
    && s.scores == Scores(c, counted)
    && s.files == Files(c, counted) && Distinct(s.files)
    && Belong(c, s.sources, s.files, counted)
  }

  /** A duplicate adds its score, and its text to the source of its file. */
  lemma DuplicateStep(c: Context, s: State, counted: seq<Item>, item: Item)
    requires Described(c, s, counted) && FileOf(c, item) != "" && FileOf(c, item) in s.files
    ensures Described(c, Step(c, s, item), counted + [item])
  {
    var file := FileOf(c, item);
    hide Served, Files, Scores, MoreText, TextOf, FileOf, Resolvable, MakeSource, AddText;
    var k :| 0 <= k < |s.files| && s.files[k] == file;
    if TextOf(c, item).Some? { AddTextAt(s.sources, file, TextOf(c, item).value, k); }
    ServedElsewhere(c, counted, item, file);
    forall i | 0 <= i < |s.files|
      ensures Step(c, s, item).sources[i].text == Served(c, counted + [item], s.files[i])
    {
      ServedElsewhere(c, counted, item, s.files[i]);
    }
  }

  /** A resolvable item of a new file adds a source. */
  lemma FreshStep(c: Context, s: State, counted: seq<Item>, item: Item)
    requires Described(c, s, counted) && FileOf(c, item) != "" && FileOf(c, item) !in s.files && Resolvable(c, item)
    ensures Described(c, Step(c, s, item), counted + [item])
  {
    hide AddText, Served, Files, Scores, TextOf, FileOf, MakeSource, Resolvable, MoreText;
    var file := FileOf(c, item);
    ServedElsewhere(c, counted, item, file);
    ServedNothing(c, counted, file);
    forall i | 0 <= i < |s.files|
      ensures Served(c, counted + [item], s.files[i]) == Served(c, counted, s.files[i])
    {
      ServedElsewhere(c, counted, item, s.files[i]);
    }
    SourceShape(c, item);
  }

  lemma SourceShape(c: Context, item: Item)
    ensures MakeSource(c, item).documentId == FileOf(c, item) && MakeSource(c, item).text == TextOf(c, item)
    ensures MakeSource(c, item).score == c.calibrate(item.score)
    ensures TextOf(c, item).Some? ==> MoreText(None, TextOf(c, item).value) == TextOf(c, item)
  {}

  /** What the loop collects: the scores of the items that count, their files at first
      appearance, one source for each, with every served text of the file in order. */
  lemma {:induction false} AssembledIs(c: Context, items: seq<Item>)
    ensures Described(c, Assembled(c, items), Counted(c, items))
  {
    if items != [] {
      var n := |items| - 1;
      var before, item, counted := Assembled(c, items[..n]), items[n], Counted(c, items[..n]);
      AssembledIs(c, items[..n]);
      FilesSeen(c, items[..n], FileOf(c, item));
      assert before.files == Files(c, counted);
      NilRight(counted);
      CountsIff(c, items[..n], item, counted);
      hide Described, Files, Resolvable;
      if Counts(c, items[..n], item) {
        if FileOf(c, item) in before.files {
          DuplicateStep(c, before, counted, item);
        } else {
          FreshStep(c, before, counted, item);
        }
      }
    }
  }

  lemma CountsIff(c: Context, before: seq<Item>, item: Item, counted: seq<Item>)
    requires FileOf(c, item) in Files(c, counted) <==>
      FileOf(c, item) != "" && exists j :: j in before && Resolves(c, j, FileOf(c, item))
    ensures Counts(c, before, item) <==>
      FileOf(c, item) != "" && (FileOf(c, item) in Files(c, counted) || Resolvable(c, item))
  {}

  /** A file can be resolved when its metadata is there, or the name of its graph starts with `OKF_`. */
  lemma ResolvableMeans(c: Context, item: Item)
    ensures Resolvable(c, item) <==>
      item.meta.Some? || (item.doc in c.graphs && exists rest :: c.graphs[item.doc] == "OKF_" + rest)
  {
    if item.doc in c.graphs && "OKF_" <= c.graphs[item.doc] {
      var graph := c.graphs[item.doc];
      assert graph == "OKF_" + graph[4..];
    }
  }

  /** What a source shows of the item it was made from: the calibrated score; name and labels of the
      metadata, and its own address for a crawled page alone; without metadata, the file id as a name. */
  ghost predicate Presents(c: Context, item: Item, source: Source) {
    && item.doc in c.fileIds && source.documentId == c.fileIds[item.doc]
    && source.score == c.calibrate(item.score)
    && match item.meta
       case Some(m) =>
         && !source.concept && source.name == m.name && source.labels == m.labels
         && (if m.author == "crawler" && (exists page :: m.name == page + ".html") && m.sourceUrl.Some?
             then source.url == m.sourceUrl.value else source.url == "")
       case None =>
         && source.concept && source.labels == [] && source.url == ""
         && exists spaced :: |spaced| == |source.documentId| && source.name == Strip(spaced) &&
              forall i | 0 <= i < |spaced| ::
                spaced[i] == if source.documentId[i] == '_' then ' ' else source.documentId[i]
  }

  lemma MadePresents(c: Context, item: Item)
    requires FileOf(c, item) != ""
    ensures Presents(c, item, MakeSource(c, item))
  {
    match item.meta
    case Some(m) =>
      if EndsWith(m.name, ".html") { assert m.name == m.name[..|m.name| - 5] + ".html"; }
    case None =>
      var spaced := Spaced(FileOf(c, item));
      assert MakeSource(c, item).name == Strip(spaced);
  }

  /** The source shows the first of these items that has its file. */
  ghost predicate ShowsFirst(c: Context, counted: seq<Item>, source: Source) {
    exists j :: 0 <= j < |counted| && Presents(c, counted[j], source)
      && forall i | 0 <= i < j :: FileOf(c, counted[i]) != source.documentId
  }

  /** The text of a source has no part in it. */
  lemma PresentsAnyText(c: Context, item: Item, source: Source, more: Option<string>)
    requires Presents(c, item, source)
    ensures Presents(c, item, source.(text := more))
  {}

  lemma ShowsFirstGrows(c: Context, counted: seq<Item>, item: Item, source: Source, more: Option<string>)
    requires ShowsFirst(c, counted, source)
    ensures ShowsFirst(c, counted + [item], source.(text := more))
  {
    var all := counted + [item];
    var j :| 0 <= j < |counted| && Presents(c, counted[j], source)
      && forall i | 0 <= i < j :: FileOf(c, counted[i]) != source.documentId;
    hide FileOf, Presents;
    PresentsAnyText(c, counted[j], source, more);
    assert all[j] == counted[j] && forall i | 0 <= i < j :: all[i] == counted[i];
  }

  lemma ShowsLast(c: Context, counted: seq<Item>, item: Item)
    requires FileOf(c, item) != "" && FileOf(c, item) !in Files(c, counted)
    ensures ShowsFirst(c, counted + [item], MakeSource(c, item))
  {
    var all := counted + [item];
    MadePresents(c, item);
    SourceShape(c, item);
    FilesAre(c, counted, FileOf(c, item));
    hide Presents, FileOf, MakeSource, Files;
    assert all[|counted|] == item;
    forall i | 0 <= i < |counted|
      ensures FileOf(c, all[i]) != FileOf(c, item)
    {
      assert all[i] in counted;
    }
  }

  /** Every source shows the first item of its file that counts, one source for each such file. */
  lemma {:induction false} AssembledPresents(c: Context, items: seq<Item>)
    ensures forall s | s in Assembled(c, items).sources :: ShowsFirst(c, Counted(c, items), s)
  {
    if items != [] {
      var n := |items| - 1;
      var before, item, counted := Assembled(c, items[..n]), items[n], Counted(c, items[..n]);
      AssembledPresents(c, items[..n]);
      AssembledIs(c, items[..n]);
      FilesSeen(c, items[..n], FileOf(c, item));
      CountsIff(c, items[..n], item, counted);
      NilRight(counted);
      hide Files, Presents, ShowsFirst, Resolvable, MakeSource, AddText, FileOf;
      forall s | s in Assembled(c, items).sources
        ensures ShowsFirst(c, Counted(c, items), s)
      {
        PresentsStep(c, before, counted, item, s);
      }
    }
  }

  /** A source after a step was there before, up to its text, or is the item's. */
  lemma PresentsStep(c: Context, before: State, counted: seq<Item>, item: Item, s: Source)
    requires before.files == Files(c, counted) && s in Step(c, before, item).sources
    requires forall x | x in before.sources :: ShowsFirst(c, counted, x)
    ensures var file := FileOf(c, item);
      if file != "" && (file in Files(c, counted) || Resolvable(c, item)) then ShowsFirst(c, counted + [item], s)
      else ShowsFirst(c, counted, s)
  {
    hide Files, Presents, ShowsFirst, Resolvable, MakeSource, FileOf, AddText;
    var file := FileOf(c, item);
    if file != "" && file in before.files {
      if TextOf(c, item).Some? { AddedIsOld(before.sources, file, TextOf(c, item).value, s); }
      var x :| x in before.sources && s == x.(text := s.text);
      ShowsFirstGrows(c, counted, item, x, s.text);
    } else if file != "" && Resolvable(c, item) {
      if s in before.sources {
        ShowsFirstGrows(c, counted, item, s, s.text);
        assert s.(text := s.text) == s;
      } else {
        ShowsLast(c, counted, item);
      }
    }
  }

  lemma {:induction false} AddedIsOld(sources: seq<Source>, file: string, more: string, s: Source)
    requires s in AddText(sources, file, more)
    ensures exists x :: x in sources && s == x.(text := s.text)
  {
    if sources != [] {
      assert sources[0] in sources && forall x | x in sources[1..] :: x in sources;
      if s in sources[1..] {
        assert s == s.(text := s.text);
      } else if sources[0].documentId == file {
        assert s == sources[0].(text := s.text);
      } else if s == sources[0] {
        assert s == s.(text := s.text);
      } else {
        AddedIsOld(sources[1..], file, more, s);
      }
    }
  }

  /** The texts that were served of this file, in order. */
  function Texts(c: Context, items: seq<Item>, file: string): seq<string> {
    if items == [] then []
    else
      var before, last := Texts(c, items[..|items| - 1], file), items[|items| - 1];
      if c.includeContexts && FileOf(c, last) == file && last.doc in c.texts && c.texts[last.doc] != ""
      then before + [c.texts[last.doc]] else before
  }

  function JoinLines(texts: seq<string>): string
    requires texts != []
  {
    if |texts| == 1 then texts[0] else texts[0] + ("\n" + JoinLines(texts[1..]))
  }

  lemma {:induction false} JoinLinesSnoc(texts: seq<string>, more: string)
    requires texts != []
    ensures JoinLines(texts + [more]) == JoinLines(texts) + "\n" + more
    decreases |texts|
  {
    Drop(texts, [more], 1);
    if |texts| == 1 {
      NilLeft([more]);
      assert JoinLines([more]) == more;
      Assoc(texts[0], "\n", more);
    } else {
      JoinLinesSnoc(texts[1..], more);
      var rest := JoinLines(texts[1..]);
      hide JoinLines;
      Assoc4(texts[0], "\n" + rest, "\n", more);
      Assoc("\n", rest + "\n", more);
      Assoc("\n", rest, "\n");
    }
  }

  /** The text of a source is the served texts of its file with line breaks between them. */
  lemma {:induction false} ServedJoined(c: Context, items: seq<Item>, file: string)
    ensures var texts := Texts(c, items, file);
      Served(c, items, file) == if texts == [] then None else Some(JoinLines(texts))
  {
    hide JoinLines;
    if items != [] {
      var n := |items| - 1;
      ServedJoined(c, items[..n], file);
      var texts := Texts(c, items[..n], file);
      if TextOf(c, items[n]).Some? {
        var more := TextOf(c, items[n]).value;
        if texts != [] { JoinLinesSnoc(texts, more); }
        OneLine(more);
        NilLeft([more]);
      }
    }
  }

  lemma OneLine(text: string)
    ensures JoinLines([text]) == text
  {}

  /** Sources and scores are empty together, and the sources have distinct ids. */
  lemma SourcesAndScores(c: Context, items: seq<Item>)
    ensures var s := Assembled(c, items);
      && (s.sources == [] <==> s.scores == []) && |s.sources| <= |s.scores|
      && (forall i, j | 0 <= i < j < |s.sources| :: s.sources[i].documentId != s.sources[j].documentId)
  {
    AssembledIs(c, items);
    ScoresLength(c, Counted(c, items));
  }

  lemma {:induction false} ScoresLength(c: Context, counted: seq<Item>)
    ensures |Scores(c, counted)| == |counted| && |Files(c, counted)| <= |counted|
    ensures counted != [] ==> Files(c, counted) != []
  {
    if counted != [] { ScoresLength(c, counted[..|counted| - 1]); }
  }

  /** The answer is grounded exactly when some document to display has a file that could be
      resolved, whatever else could not. */
  lemma GroundedExactly(c: Context, items: seq<Item>)
    ensures Assembled(c, items).sources != [] <==>
      exists item :: item in items && Resolves(c, item, FileOf(c, item)) && FileOf(c, item) != ""
  {
    AssembledIs(c, items);
    ScoresLength(c, Counted(c, items));
    var files := Files(c, Counted(c, items));
    assert Assembled(c, items).files == files;
    if files != [] {
      FilesSeen(c, items, files[0]);
      var j :| j in items && Resolves(c, j, files[0]);
      assert Resolves(c, j, FileOf(c, j));
    }
    if item :| item in items && Resolves(c, item, FileOf(c, item)) && FileOf(c, item) != "" {
      FilesSeen(c, items, FileOf(c, item));
    }
  }

  // ----- the confidence -----

  /** Raw scores are numbers in the reranker's order. */
  predicate Ranked(items: seq<Item>) {
    && (forall i | 0 <= i < |items| :: items[i].score.Some?)
    && (forall i, j | 0 <= i < j < |items| :: items[i].score.value >= items[j].score.value)
  }

  ghost predicate Monotone(c: Context) {
    forall a, b :: a <= b ==> c.calibrate(Some(a)) <= c.calibrate(Some(b))
  }

  /** The calibration that the service uses keeps the reranker's order. */
  lemma CalibrationIsMonotone(c: Context, sigmoid: bool, temperature: real, exp: Confidence.Exp)
    requires Confidence.Exponential(exp) && temperature >= 0.0
    requires forall score :: c.calibrate(score) == Confidence.Calibrate(score, sigmoid, temperature, exp)
    ensures Monotone(c)
  {
    forall a, b | a <= b
      ensures c.calibrate(Some(a)) <= c.calibrate(Some(b))
    {
      Confidence.CalibrateMonotone(a, b, sigmoid, temperature, exp);
    }
  }

  lemma RankedSnoc(items: seq<Item>, item: Item)
    requires Ranked(items) && item.score.Some? && forall x | x in items :: x.score.Some? && x.score.value >= item.score.value
    ensures Ranked(items + [item])
  {}

  /** Dropping items keeps the ranking of the rest. */
  lemma {:induction false} CountedRanked(c: Context, items: seq<Item>)
    requires Ranked(items)
    ensures Ranked(Counted(c, items)) && forall x | x in Counted(c, items) :: x in items
  {
    if items != [] {
      var n := |items| - 1;
      CountedRanked(c, items[..n]);
      var counted := Counted(c, items[..n]);
      forall x | x in counted
        ensures x.score.Some? && x.score.value >= items[n].score.value && x in items
      {
        var i :| 0 <= i < n && items[..n][i] == x;
        assert items[i] == x;
      }
      RankedSnoc(counted, items[n]);
      assert items[n] in items;
    }
  }

  lemma {:induction false} ScoresDescend(c: Context, items: seq<Item>)
    requires Ranked(items) && Monotone(c)
    ensures Confidence.Descending(Scores(c, items)) && |Scores(c, items)| == |items|
    ensures forall i | 0 <= i < |items| :: Scores(c, items)[i] == c.calibrate(items[i].score)
  {
    if items != [] {
      var n := |items| - 1;
      ScoresDescend(c, items[..n]);
      assert forall i | 0 <= i < n :: items[..n][i] == items[i];
      forall i | 0 <= i < n
        ensures c.calibrate(items[i].score) >= c.calibrate(items[n].score)
      {
        assert items[n].score.value <= items[i].score.value;
      }
    }
  }

  /** With items in the reranker's order the confidence is between the least and greatest
      score that counts, and never below their flat mean; without any it is 0. */
  lemma ConfidenceOfSources(c: Context, items: seq<Item>, q: real, low: real, high: real)
    requires 0.0 < q <= 1.0 && Ranked(items) && Monotone(c)
    requires forall s | s in Assembled(c, items).scores :: low <= s <= high
    ensures var scores := Assembled(c, items).scores;
      if Assembled(c, items).sources == [] then Confidence.RankWeighted(q, scores) == 0.0
      else low <= Confidence.RankWeighted(q, scores) <= high
           && Confidence.Mean(scores) <= Confidence.RankWeighted(q, scores)
  {
    SourcesAndScores(c, items);
    AssembledIs(c, items);
    CountedRanked(c, items);
    ScoresDescend(c, Counted(c, items));
    var scores := Assembled(c, items).scores;
    if scores != [] {
      Confidence.ConfidenceBetween(q, scores, low, high);
      Confidence.NeverBelowMean(q, scores);
    }
  }

  /** With the service's sigmoid scores at any temperature that is not negative, the confidence of
      an answer with sources lies between 0 and 1 and is never below the mean of its scores. */
  lemma ServiceConfidence(c: Context, items: seq<Item>, q: real, temperature: real, exp: Confidence.Exp)
    requires 0.0 < q <= 1.0 && Ranked(items) && temperature >= 0.0 && Confidence.Exponential(exp)
    requires forall score :: c.calibrate(score) == Confidence.Calibrate(score, true, temperature, exp)
    ensures var scores := Assembled(c, items).scores; var confidence := Confidence.RankWeighted(q, scores);
      && 0.0 <= confidence <= 1.0
      && (Assembled(c, items).sources == [] ==> confidence == 0.0)
      && (Assembled(c, items).sources != [] ==> Confidence.Mean(scores) <= confidence)
  {
    CalibrationIsMonotone(c, true, temperature, exp);
    ScoresInRange(c, items, temperature, exp);
    ConfidenceOfSources(c, items, q, 0.0, 1.0);
  }

  lemma ScoresInRange(c: Context, items: seq<Item>, temperature: real, exp: Confidence.Exp)
    requires Confidence.Exponential(exp)
    requires forall score :: c.calibrate(score) == Confidence.Calibrate(score, true, temperature, exp)
    ensures forall s | s in Assembled(c, items).scores :: 0.0 <= s <= 1.0
  {
    AssembledIs(c, items);
    ScoresCalibrated(c, Counted(c, items));
    forall s | s in Assembled(c, items).scores
      ensures 0.0 <= s <= 1.0
    {
      var raw :| c.calibrate(raw) == s;
      Confidence.CalibratedRange(raw, temperature, exp);
    }
  }

  lemma {:induction false} ScoresCalibrated(c: Context, items: seq<Item>)
    ensures forall s | s in Scores(c, items) :: exists raw :: c.calibrate(raw) == s
  {
    if items != [] {
      ScoresCalibrated(c, items[..|items| - 1]);
    }
  }
}
