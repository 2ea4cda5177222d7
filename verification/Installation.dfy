/** Setting up and repairing a project's runtime from the installed skills. */
module Installation {
  import opened Text
  import opened Toml
  import opened TomlLoader
  import opened TomlRoundTrip
  import opened Config
  import opened Questions
  import opened Trees

  // ----- loading and printing -----

  /** The scalars a TOML library reads back from how they are printed: all strings, and of the
      other texts some that are single tokens. */
  ghost predicate Printable(scalars: Atom -> bool) {
    && (forall s :: scalars(Str(s)))
    && (forall text :: scalars(Opaque(text)) ==> OpaqueText(text))
  }

  /** All scalars of the table are such ones. */
  predicate Clean(t: Toml, scalars: Atom -> bool) {
    match t
    case Leaf(a) => scalars(a)
    case List(items) => forall x | x in items :: Clean(x, scalars)
    case Table(m) => forall k | k in m :: Clean(m[k], scalars)
  }

  /** What the model needs to know of the TOML library: on printed documents of its scalars it
      agrees with the loader above, it yields tables of its scalars, and a final newline is
      immaterial. What it makes of any other document is left open. */
  ghost predicate Faithful(loads: string -> Option<Toml>, scalars: Atom -> bool) {
    && Printable(scalars)
    && (forall entries | WfEntries(entries) && Clean(Mean(Dict(entries)), scalars) ::
          loads(Render(entries)) == Load(Render(entries)))
    && (forall text | loads(text).Some? :: loads(text).value.Table? && Clean(loads(text).value, scalars))
    && (forall text | loads(text).Some? :: loads(text + "\n") == loads(text))
  }

  /** The loader of this model, restricted to documents of these scalars. */
  function Loader(scalars: Atom -> bool): string -> Option<Toml> {
    text =>
      var t := Load(text);
      if t.Some? && t.value.Table? && Clean(t.value, scalars) then t else None
  }

  lemma {:induction false} SplitNewline(text: string)
    ensures SplitLines(text + "\n") == SplitLines(text) + [""]
    decreases |text|
  {
    var i := Find(text, "\n");
    if i < 0 {
      NilRight(text + "\n");
      forall j | 0 <= j < |text|
        ensures text[j] != '\n'
      {
        assert text[j..j + 1] == [text[j]] && !At(text, "\n", j);
      }
      SplitStep(text, "");
      LastLine();
    } else {
      var line, rest := text[..i], text[i + 1..];
      assert text[i..i + 1] == "\n" && text == line + "\n" + rest;
      forall j | 0 <= j < i
        ensures line[j] != '\n'
      {
        assert text[j..j + 1] == [line[j]] && !At(text, "\n", j);
      }
      SplitNewline(rest);
      SplitStep(line, rest + "\n");
      SplitStep(line, rest);
      Assoc(line + "\n", rest, "\n");
      Assoc([line], SplitLines(rest), [""]);
    }
  }

  /** Whatever its scalars are, the loader of this model is such a library, and it rejects every
      printed document with any other scalar in it. */
  lemma LoaderIsFaithful(scalars: Atom -> bool)
    requires Printable(scalars)
    ensures Faithful(Loader(scalars), scalars)
    ensures forall entries | WfEntries(entries) && !Clean(Mean(Dict(entries)), scalars) ::
      Loader(scalars)(Render(entries)) == None
  {
    forall entries | WfEntries(entries)
      ensures Load(Render(entries)) == Some(Mean(Dict(entries)))
    {
      RenderRoundTrip(entries);
      MeanDict(entries);
    }
    forall text
      ensures Load(text + "\n") == Load(text)
    {
      SplitNewline(text);
      RunConcat(EMPTY, SplitLines(text), [""]);
      BlankLine(Run(EMPTY, SplitLines(text)));
    }
  }

  lemma {:induction false} MeanItemsSnoc(items: seq<Doc>, d: Doc)
    ensures MeanItems(items + [d]) == MeanItems(items) + [Mean(d)]
    ensures WfItems(items) && Wf(d) ==> WfItems(items + [d])
    decreases |items|
  {
    if items == [] {
      assert items + [d] == [d];
      assert MeanItems([d]) == [Mean(d)] + MeanItems([]);
    } else {
      assert (items + [d])[1..] == items[1..] + [d];
      MeanItemsSnoc(items[1..], d);
    }
  }

  /** Some order of iteration over the table: the printer's result does not depend on which. */
  method OrderOf(t: Toml, ghost scalars: Atom -> bool) returns (d: Doc)
    requires Clean(t, scalars) && Printable(scalars)
    ensures Wf(d) && Mean(d) == t
    decreases t
  {
    match t
    case Leaf(a) => d := Scalar(a);
    case List(items) =>
      var docs: seq<Doc> := [];
      for i := 0 to |items|
        invariant WfItems(docs) && MeanItems(docs) == items[..i]
      {
        var x := OrderOf(items[i], scalars);
        MeanItemsSnoc(docs, x);
        docs := docs + [x];
      }
      d := Array(docs);
    case Table(m) =>
      var entries := OrderEntries(t, m.Keys, scalars);
      assert Part(m, m.Keys) == m;
      d := Dict(entries);
  }

  method OrderEntries(t: Toml, keys: set<string>, ghost scalars: Atom -> bool) returns (entries: seq<Entry>)
    requires t.Table? && Clean(t, scalars) && Printable(scalars) && keys <= t.m.Keys
    ensures WfEntries(entries) && Keys(entries) == keys
    ensures MeanEntries(entries) == Part(t.m, keys)
    decreases t, |keys|
  {
    hide Wf, Mean, MeanEntries, WfEntries, Part, Keys;
    if keys == {} {
      NoEntries();
      return [];
    }
    var k :| k in keys;
    var rest := OrderEntries(t, keys - {k}, scalars);
    var x := OrderOf(t.m[k], scalars);
    entries := [Entry(k, x)] + rest;
    AddEntry(k, x, rest);
    PartAdd(t.m, keys, k);
  }

  lemma PartAdd(m: map<string, Toml>, keys: set<string>, k: string)
    requires keys <= m.Keys && k in keys
    ensures Part(m, keys - {k})[k := m[k]] == Part(m, keys)
  {}

  function Part(m: map<string, Toml>, keys: set<string>): map<string, Toml>
    requires keys <= m.Keys
  {
    map k | k in keys :: m[k]
  }

  lemma NoEntries()
    ensures WfEntries([]) && MeanEntries([]) == map[] && Keys([]) == {}
    ensures forall m: map<string, Toml> :: Part(m, {}) == map[]
  {}

  lemma AddEntry(k: string, x: Doc, rest: seq<Entry>)
    requires WfEntries(rest) && k !in Keys(rest) && Wf(x)
    ensures WfEntries([Entry(k, x)] + rest) && Keys([Entry(k, x)] + rest) == Keys(rest) + {k}
    ensures MeanEntries([Entry(k, x)] + rest) == MeanEntries(rest)[k := Mean(x)]
  {
    assert ([Entry(k, x)] + rest)[1..] == rest;
  }

  lemma {:induction false} FillKeepClean(template: Toml, existing: Toml, scalars: Atom -> bool)
    requires Clean(template, scalars) && Clean(existing, scalars)
    ensures Clean(FillKeep(template, existing), scalars)
    decreases existing
  {
    if template.Table? && existing.Table? {
      forall k | k in template.m && k in existing.m
        ensures Clean(FillKeep(template.m[k], existing.m[k]), scalars)
      {
        FillKeepClean(template.m[k], existing.m[k], scalars);
      }
    }
  }

  lemma {:induction false} SetMissingClean(data: Toml, path: seq<string>, value: string, scalars: Atom -> bool)
    requires Printable(scalars) && path != [] && Clean(data, scalars) && SetMissing(data, path, value).Some?
    ensures Clean(SetMissing(data, path, value).value, scalars)
    decreases |path|
  {
    if |path| > 1 {
      SetMissingClean(if path[0] in data.m then data.m[path[0]] else Table(map[]), path[1..], value, scalars);
    }
  }

  lemma {:induction false} InsertClean(config: Toml, pending: seq<Question>, answers: map<Identifier, string>,
                                       scalars: Atom -> bool)
    requires Printable(scalars) && Ids(pending) <= answers.Keys
    requires Clean(config, scalars) && Insert(config, pending, answers).Some?
    ensures Clean(Insert(config, pending, answers).value, scalars)
    decreases |pending|
  {
    if pending != [] {
      assert pending[0] in pending && Ids(pending[1..]) <= Ids(pending);
      SetMissingClean(config, PathOf(pending[0]), answers[IdOf(pending[0])], scalars);
      var next := SetMissing(config, PathOf(pending[0]), answers[IdOf(pending[0])]).value;
      InsertClean(next, pending[1..], answers, scalars);
    }
  }

  // ----- the project -----

  datatype ConfigFile = NoFile | Regular(text: string) | Linked(text: string) | NotAFile

  /** A module's directory below the runtime, and the scripts in it. */
  datatype ModuleRoot = ModuleDir(scripts: Root) | NotADirectory

  datatype Installed = Installed(name: string, questions: seq<Question>, scripts: seq<Script>)

  function AllQuestions(modules: seq<Installed>): seq<Question> {
    if modules == [] then [] else modules[0].questions + AllQuestions(modules[1..])
  }

  predicate ScriptsNamed(scripts: seq<Script>) {
    forall s | s in scripts :: |s.0| >= 2 && s.0[0] == "scripts"
  }

  /** What accepted manifests guarantee: distinct names, script paths below `scripts` that were
      all read as files of the skill's directory, and question keys whose paths never meet. */
  ghost predicate Accepted(modules: seq<Installed>) {
    && (forall i, j | 0 <= i < j < |modules| :: modules[i].name != modules[j].name)
    && (forall m | m in modules :: ScriptsNamed(m.scripts) && Readable(m.scripts))
    && (forall m | m in modules :: forall q | q in m.questions :: q.moduleName == m.name)
    && (forall m | m in modules :: PairwiseApart(KeysOf(m.questions)))
  }

  function KeysOf(questions: seq<Question>): (keys: seq<string>)
    ensures |keys| == |questions| && forall i | 0 <= i < |keys| :: keys[i] == questions[i].key
  {
    seq(|questions|, i requires 0 <= i < |questions| => questions[i].key)
  }

  lemma {:induction false} IndependentModule(questions: seq<Question>, name: string)
    requires PairwiseApart(KeysOf(questions)) && forall q | q in questions :: q.moduleName == name
    ensures Independent(questions)
  {
    if questions != [] {
      var rest := questions[1..];
      forall i, j | 0 <= i < j < |rest|
        ensures Apart(Parts(KeysOf(rest)[i]), Parts(KeysOf(rest)[j]))
      {
        assert KeysOf(questions)[i + 1] == KeysOf(rest)[i] && KeysOf(questions)[j + 1] == KeysOf(rest)[j];
      }
      IndependentModule(rest, name);
      forall q | q in rest
        ensures Apart(PathOf(questions[0]), PathOf(q))
      {
        var j :| 0 <= j < |rest| && rest[j] == q;
        assert KeysOf(questions)[0] == questions[0].key && KeysOf(questions)[j + 1] == q.key;
        ModulesApart(questions[0], q);
      }
    }
  }

  lemma {:induction false} IndependentConcat(a: seq<Question>, b: seq<Question>)
    requires Independent(a) && Independent(b)
    requires forall p, q | p in a && q in b :: Apart(PathOf(p), PathOf(q))
    ensures Independent(a + b)
  {
    if a == [] {
      NilLeft(b);
    } else {
      Drop(a, b, 1);
      IndependentConcat(a[1..], b);
    }
  }

  lemma {:induction false} QuestionModules(modules: seq<Installed>)
    requires Accepted(modules)
    ensures forall q | q in AllQuestions(modules) :: exists m :: m in modules && m.name == q.moduleName
  {
    if modules != [] {
      RestAccepted(modules);
      QuestionModules(modules[1..]);
      forall q | q in AllQuestions(modules)
        ensures exists m :: m in modules && m.name == q.moduleName
      {
        if q in modules[0].questions { assert modules[0] in modules; } else {
          var m :| m in modules[1..] && m.name == q.moduleName;
          assert m in modules;
        }
      }
    }
  }

  lemma RestAccepted(modules: seq<Installed>)
    requires Accepted(modules) && modules != []
    ensures Accepted(modules[1..])
  {
    var rest := modules[1..];
    assert forall m | m in rest :: m in modules;
    forall i, j | 0 <= i < j < |rest| ensures rest[i].name != rest[j].name {
      assert rest[i] == modules[i + 1] && rest[j] == modules[j + 1];
    }
  }

  /** The questions of accepted manifests never get in each other's way. */
  lemma {:induction false} AllIndependent(modules: seq<Installed>)
    requires Accepted(modules)
    ensures Independent(AllQuestions(modules))
  {
    if modules != [] {
      var m, rest := modules[0], modules[1..];
      assert m in modules;
      RestAccepted(modules);
      AllIndependent(rest);
      IndependentModule(m.questions, m.name);
      QuestionModules(rest);
      forall p, q | p in m.questions && q in AllQuestions(rest)
        ensures Apart(PathOf(p), PathOf(q))
      {
        var m' :| m' in rest && m'.name == q.moduleName;
        var j :| 0 <= j < |rest| && rest[j] == m';
        assert modules[j + 1] == m';
        ModulesApart(p, q);
      }
      IndependentConcat(m.questions, AllQuestions(rest));
    }
  }

  // ----- the configuration file -----

  function Answered(supplied: Option<map<Identifier, string>>): map<Identifier, string> {
    if supplied.Some? then supplied.value else map[]
  }

  /** The table in a configuration file; None when it cannot be read as one. */
  function TableOf(loads: string -> Option<Toml>, file: ConfigFile): Option<Toml> {
    match file
    case NoFile => Some(Table(map[]))
    case Regular(text) => loads(text)
    case Linked(text) => loads(text)
    case NotAFile => None
  }

  lemma LoadedTable(loads: string -> Option<Toml>, scalars: Atom -> bool, file: ConfigFile)
    requires Faithful(loads, scalars) && TableOf(loads, file).Some?
    ensures TableOf(loads, file).value.Table? && Clean(TableOf(loads, file).value, scalars) && Printable(scalars)
  {}

  /** Print a table, in some order of its keys. */
  method Print(loads: string -> Option<Toml>, ghost scalars: Atom -> bool, t: Toml) returns (text: string)
    requires Faithful(loads, scalars) && t.Table? && Clean(t, scalars)
    ensures loads(text) == Some(t) && text != "" && text[|text| - 1] == '\n'
  {
    hide Clean, Render;
    var entries := OrderEntries(t, t.m.Keys, scalars);
    WholePart(t.m);
    RenderRoundTrip(entries);
    MeanDict(entries);
    text := RenderToml(entries);
    EndsWithNewline(entries);
  }

  lemma WholePart(m: map<string, Toml>)
    ensures Part(m, m.Keys) == m
  {}

  lemma EndsWithNewline(entries: seq<Entry>)
    ensures var text := Render(entries); text != "" && text[|text| - 1] == '\n'
  {}

  /** Merge two documents; the existing text itself when nothing is missing. */
  method FillToml(loads: string -> Option<Toml>, ghost scalars: Atom -> bool, existing: string, template: string)
    returns (text: Option<string>)
    requires Faithful(loads, scalars)
    ensures text.Some? <==> loads(existing).Some? && loads(template).Some?
    ensures text.Some? ==>
      var merged := FillKeep(loads(template).value, loads(existing).value);
      loads(text.value) == Some(merged) && (merged == loads(existing).value ==> text.value == existing)
  {
    var e, t := loads(existing), loads(template);
    if e.None? || t.None? {
      return None;
    }
    var merged := FillKeep(t.value, e.value);
    if merged == e.value {
      return Some(existing);
    }
    FillKeepClean(t.value, e.value, scalars);
    var printed := Print(loads, scalars, merged);
    text := Some(printed);
  }

  /** `write_text`: a final newline is added when there is none. */
  function Terminated(text: string): (r: string)
    ensures |r| > 0 && r[|r| - 1] == '\n' && (r == text || r == text + "\n")
    ensures forall line :: text == line + "\n" ==> r == text
  {
    if text != "" && text[|text| - 1] == '\n' then text else text + "\n"
  }

  /** Bring a configuration file up to the content, keeping what it already says. */
  method EnsureFile(loads: string -> Option<Toml>, ghost scalars: Atom -> bool, file: ConfigFile, content: string)
    returns (r: Option<ConfigFile>)
    requires Faithful(loads, scalars) && loads(content).Some?
    ensures r.Some? <==> (file.Regular? ==> loads(file.text).Some?)
    ensures r.Some? ==>
      var filled := if file.Regular? then Some(FillKeep(loads(content).value, loads(file.text).value)) else loads(content);
      r.value.Regular? && loads(r.value.text) == filled
    ensures file.Regular? && r.Some? ==>
      (FillKeep(loads(content).value, loads(file.text).value) == loads(file.text).value ==> r == Some(file))
  {
    match file {
      case Regular(existing) =>
        var filled := FillToml(loads, scalars, existing, content);
        if filled.None? {
          return None;
        }
        if filled.value == existing {
          return Some(file);
        }
        return Some(Regular(Terminated(filled.value)));
      case _ =>
        return Some(Regular(Terminated(content)));
    }
  }

  // ----- module directories -----

  function ScriptsOf(dirs: map<string, ModuleRoot>, name: string): Root {
    if name in dirs && dirs[name].ModuleDir? then dirs[name].scripts else Absent
  }

  predicate Matched(dirs: map<string, ModuleRoot>, m: Installed)
    requires ScriptsNamed(m.scripts)
  {
    Matches(ScriptsOf(dirs, m.name), DeclaredTree(m.scripts))
  }

  ghost predicate AllMatched(dirs: map<string, ModuleRoot>, modules: seq<Installed>)
    requires Accepted(modules)
  {
    forall m | m in modules :: Matched(dirs, m)
  }

  ghost predicate PlainRoots(dirs: map<string, ModuleRoot>, modules: seq<Installed>) {
    forall m | m in modules :: m.name in dirs ==> dirs[m.name].ModuleDir?
  }

  /** The names of the modules whose scripts differ from what is declared. */
  method ChangedModules(dirs: map<string, ModuleRoot>, modules: seq<Installed>) returns (names: set<string>)
    requires Accepted(modules)
    ensures names == set m | m in modules && !Matched(dirs, m) :: m.name
    ensures names == {} <==> AllMatched(dirs, modules)
  {
    names := {};
    for i := 0 to |modules|
      invariant names == set m | m in modules[..i] && !Matched(dirs, m) :: m.name
    {
      assert modules[..i + 1] == modules[..i] + [modules[i]];
      if !Matched(dirs, modules[i]) {
        names := names + {modules[i].name};
      }
    }
    assert modules[..|modules|] == modules;
    if names == {} {
      forall m | m in modules ensures Matched(dirs, m) { assert !Matched(dirs, m) ==> m.name in names; }
    }
  }

  /** Repair the scripts of one module. */
  method RepairModule(dirs: map<string, ModuleRoot>, m: Installed) returns (r: map<string, ModuleRoot>)
    requires ScriptsNamed(m.scripts) && Readable(m.scripts)
    ensures Matched(r, m)
    ensures m.name in r && r[m.name].ModuleDir? && r == dirs[m.name := r[m.name]]
    ensures Matched(dirs, m) && m.name in dirs && dirs[m.name].ModuleDir? ==> r == dirs
  {
    hide Matches, DeclaredTree, Writable, Closed, Readable;
    DeclaredClosed(m.scripts);
    ReadableWritable(m.scripts);
    var root := EnsurePlainTree(ScriptsOf(dirs, m.name), DeclaredTree(m.scripts));
    r := dirs[m.name := ModuleDir(root.value)];
  }

  /** Another module's directory has no part in what a module's scripts are. */
  lemma RepairedElsewhere(dirs: map<string, ModuleRoot>, m: Installed, name: string, root: ModuleRoot)
    requires ScriptsNamed(m.scripts) && m.name != name
    ensures Matched(dirs[name := root], m) == Matched(dirs, m)
  {}

  /** Repair the scripts of every module; the other directories stay. */
  method RepairModules(dirs: map<string, ModuleRoot>, modules: seq<Installed>) returns (r: map<string, ModuleRoot>)
    requires Accepted(modules)
    ensures AllMatched(r, modules)
    ensures forall name | name !in Names(modules) :: name in dirs <==> name in r
    ensures forall name | name !in Names(modules) && name in dirs :: r[name] == dirs[name]
    ensures PlainRoots(dirs, modules) ==> PlainRoots(r, modules)
  {
    hide Matched, Readable;
    r := dirs;
    for i := 0 to |modules|
      invariant forall j | 0 <= j < i :: Matched(r, modules[j])
      invariant forall name | name !in Names(modules) :: name in dirs <==> name in r
      invariant forall name | name !in Names(modules) && name in dirs :: r[name] == dirs[name]
      invariant PlainRoots(dirs, modules) ==> PlainRoots(r, modules)
    {
      var m := modules[i];
      assert m in modules;
      var next := RepairModule(r, m);
      forall j | 0 <= j < i
        ensures Matched(next, modules[j])
      {
        RepairedElsewhere(r, modules[j], m.name, next[m.name]);
      }
      r := next;
    }
  }

  function Names(modules: seq<Installed>): set<string> {
    set m | m in modules :: m.name
  }

  /** Insert the answers one question at a time. */
  method InsertAnswers(config: Toml, pending: seq<Question>, answers: map<Identifier, string>) returns (r: Option<Toml>)
    requires Ids(pending) <= answers.Keys
    ensures r == Insert(config, pending, answers)
  {
    hide SetMissing;
    var merged := config;
    for i := 0 to |pending|
      invariant Ids(pending[i..]) <= answers.Keys
      invariant Insert(merged, pending[i..], answers) == Insert(config, pending, answers)
    {
      var q := pending[i];
      assert q in pending[i..] && IdOf(q) in Ids(pending[i..]);
      assert pending[i..][0] == q && pending[i..][1..] == pending[i + 1..];
      assert Ids(pending[i + 1..]) <= Ids(pending[i..]);
      var next := SetMissing(merged, PathOf(q), answers[IdOf(q)]);
      if next.None? {
        return None;
      }
      merged := next.value;
    }
    r := Some(merged);
  }
}
