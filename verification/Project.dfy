/** The two commands that write a project's runtime: setup, and its repair by doctor. */
module Project {
  import opened Text
  import opened Toml
  import opened Config
  import opened Questions
  import opened Trees
  import opened Staging
  import opened Installation

  datatype Outcome = Raised | Report(changed: bool, sharedRepaired: bool, answered: seq<Question>, repaired: set<string>)

  class Runtime {
    const loads: string -> Option<Toml>
    ghost const scalars: Atom -> bool
    var config: ConfigFile
    var shared: Root
    var modules: map<string, ModuleRoot>

    constructor (loads: string -> Option<Toml>, ghost scalars: Atom -> bool)
      ensures this.loads == loads && this.scalars == scalars && config == NoFile && shared == Absent && modules == map[]
    {
      this.loads, this.scalars := loads, scalars;
      config, shared, modules := NoFile, Absent, map[];
    }

    /** Nothing is left for doctor to do: every question is answered and every tree matches. */
    ghost predicate Current(payload: Root, installed: seq<Installed>)
      requires Accepted(installed)
      reads this
    {
      && Read(payload).Some? && Matches(shared, Read(payload).value)
      && TableOf(loads, config).Some? && Pending(AllQuestions(installed), TableOf(loads, config).value) == Some([])
      && AllMatched(modules, installed)
    }

    /** Everything doctor asks for is there: a plain payload, a readable configuration, valid
        answers, and plain module directories. */
    ghost predicate Runnable(payload: Root, installed: seq<Installed>, supplied: Option<map<Identifier, string>>)
      requires Accepted(installed)
      reads this
    {
      && Read(payload).Some?
      && TableOf(loads, config).Some?
      && var pending := Pending(AllQuestions(installed), TableOf(loads, config).value);
      && pending.Some? && Answered(supplied).Keys == Ids(pending.value)
      && PlainRoots(modules, installed)
    }

    /** Doctor: answer what is pending, repair what differs, or change nothing at all. */
    method Doctor(payload: Root, installed: seq<Installed>, supplied: Option<map<Identifier, string>>)
      returns (o: Outcome)
      requires Faithful(loads, scalars) && Accepted(installed) && WellFormed(payload)
      modifies this
      ensures o.Report? <==> old(Runnable(payload, installed, supplied))
      ensures o.Raised? ==> unchanged(this)
      ensures o.Report? ==> Current(payload, installed) && PlainRoots(modules, installed)
      ensures o.Report? ==> (o.changed <==> !old(Current(payload, installed)))
      ensures o.Report? ==> (o.sharedRepaired <==> !Matches(old(shared), Read(payload).value))
      ensures o.Report? ==> o.repaired == set m | m in installed && !Matched(old(modules), m) :: m.name
      ensures o.Report? && !o.changed ==> unchanged(this)
      ensures o.Report? ==> var before := old(TableOf(loads, config)).value;
        && Some(o.answered) == Pending(AllQuestions(installed), before)
        && TableOf(loads, config) == Insert(before, o.answered, Answered(supplied))
        && Amended(before, TableOf(loads, config).value, o.answered, Answered(supplied))
        && Keeps(TableOf(loads, config).value, before)
        && (o.answered == [] ==> config == old(config))
      ensures o.Report? ==> forall name | name !in Names(installed) :: name in modules <==> name in old(modules)
      ensures o.Report? ==>
        forall name | name !in Names(installed) && name in modules :: modules[name] == old(modules)[name]
    {
      hide Matches, Pending, Insert, Closed, Faithful, Accepted, Amended, Keeps;
      var tree := Read(payload);
      var existing := TableOf(loads, config);
      if tree.None? || existing.None? {
        return Raised;
      }
      LoadedTable(loads, scalars, config);
      var plan := Prepare(existing.value, installed, supplied, scalars);
      if plan.None? {
        return Raised;
      }
      var (pending, merged) := plan.value;
      var plain := CheckRoots(modules, installed);
      if !plain {
        return Raised;
      }
      var sharedChanged := !Matches(shared, tree.value);
      var changedModules := ChangedModules(modules, installed);
      var changed := sharedChanged || pending != [] || changedModules != {};
      if changed {
        Materialize(payload, merged, pending != [], installed);
      }
      o := Report(changed, sharedChanged, pending, changedModules);
    }

    /** Build the repaired runtime aside and swap it in. */
    method Materialize(payload: Root, merged: Toml, rewrite: bool, installed: seq<Installed>)
      requires Faithful(loads, scalars) && Accepted(installed) && WellFormed(payload) && Read(payload).Some?
      requires TableOf(loads, config).Some? && merged.Table? && Clean(merged, scalars)
      requires Keeps(merged, TableOf(loads, config).value)
      modifies this
      ensures Matches(shared, Read(payload).value) && AllMatched(modules, installed)
      ensures old(PlainRoots(modules, installed)) ==> PlainRoots(modules, installed)
      ensures if rewrite then TableOf(loads, config) == Some(merged) else config == old(config)
      ensures forall name | name !in Names(installed) :: name in modules <==> name in old(modules)
      ensures forall name | name !in Names(installed) && name in modules :: modules[name] == old(modules)[name]
    {
      hide Matches, Closed, Render, Clean;
      ReadClosed(payload);
      ReadWritable(payload);
      var newShared := EnsurePlainTree(shared, Read(payload).value);
      var newConfig := config;
      if rewrite {
        var text := Print(loads, scalars, merged);
        FillKeepNewer(merged, TableOf(loads, config).value);
        var file := EnsureFile(loads, scalars, config, text);
        newConfig := file.value;
      }
      var newModules := RepairModules(modules, installed);
      shared, config, modules := newShared.value, newConfig, newModules;
    }

    /** Setup: merge the template under the existing configuration, add the answers, and
        write scripts; a configured project keeps its file to the byte. */
    method Setup(template: string, payload: Root, installed: seq<Installed>, supplied: Option<map<Identifier, string>>)
      returns (ok: bool)
      requires Faithful(loads, scalars) && Accepted(installed) && WellFormed(payload)
      modifies this
      ensures !ok ==> unchanged(this)
      ensures ok <==> Read(payload).Some? && PlainRoots(old(modules), installed)
                      && Configurable(loads, old(config), template, installed, supplied)
      ensures ok ==> Configured(loads, config, template, installed) && PlainRoots(modules, installed)
      ensures ok ==> TableOf(loads, config) == AfterSetup(loads, old(config), template, installed, supplied)
      ensures ok ==> Completed(loads, old(config), config, template, installed, supplied)
      ensures ok && Configured(loads, old(config), template, installed) ==> config == old(config)
      ensures ok ==> Matches(shared, Read(payload).value)
      ensures ok ==> forall m | m in installed :: StagedIn(old(modules), modules, m)
    {
      hide Configured, Configurable, AfterSetup, Completed, Closed, Matches, StagedRoot;
      var tree := Read(payload);
      if tree.None? {
        return false;
      }
      var file := SetUpConfig(loads, scalars, config, template, installed, supplied);
      if file.None? {
        return false;
      }
      var plain := CheckRoots(modules, installed);
      if !plain {
        return false;
      }
      ReadClosed(payload);
      ReadWritable(payload);
      var newShared := EnsurePlainTree(shared, tree.value);
      var staged := StageModules(modules, installed);
      shared, config, modules := newShared.value, file.value, staged;
      ok := true;
    }
  }

  // ----- the configuration that setup leaves -----

  /** The template and the file can be read, and the answers are those that are asked for. */
  ghost predicate Configurable(loads: string -> Option<Toml>, file: ConfigFile, template: string,
                               installed: seq<Installed>, supplied: Option<map<Identifier, string>>) {
    && loads(template).Some? && TableOf(loads, file).Some?
    && var pending := Pending(AllQuestions(installed), FillKeep(loads(template).value, TableOf(loads, file).value));
    pending.Some? && Answered(supplied).Keys == Ids(pending.value)
  }

  /** Template under existing configuration, and the answers in their places. */
  ghost function AfterSetup(loads: string -> Option<Toml>, file: ConfigFile, template: string,
                            installed: seq<Installed>, supplied: Option<map<Identifier, string>>): Option<Toml>
    requires Configurable(loads, file, template, installed, supplied)
  {
    var merged := FillKeep(loads(template).value, TableOf(loads, file).value);
    Insert(merged, Pending(AllQuestions(installed), merged).value, Answered(supplied))
  }

  /** Everything configured stays, what was missing comes from the template, and every question that
      was pending then has the answer given to it. */
  ghost predicate Completed(loads: string -> Option<Toml>, before: ConfigFile, after: ConfigFile, template: string,
                            installed: seq<Installed>, supplied: Option<map<Identifier, string>>)
    requires Configurable(loads, before, template, installed, supplied)
  {
    var merged := FillKeep(loads(template).value, TableOf(loads, before).value);
    && TableOf(loads, after).Some?
    && Amended(merged, TableOf(loads, after).value, Pending(AllQuestions(installed), merged).value, Answered(supplied))
    && Keeps(TableOf(loads, after).value, TableOf(loads, before).value)
  }

  /** Nothing of the template is missing from the configuration, and every question is answered. */
  ghost predicate Configured(loads: string -> Option<Toml>, file: ConfigFile, template: string, installed: seq<Installed>) {
    && file.Regular? && loads(template).Some? && TableOf(loads, file).Some?
    && Covers(TableOf(loads, file).value, loads(template).value)
    && Pending(AllQuestions(installed), TableOf(loads, file).value) == Some([])
  }

  method SetUpConfig(loads: string -> Option<Toml>, ghost scalars: Atom -> bool, config: ConfigFile,
                     template: string, installed: seq<Installed>, supplied: Option<map<Identifier, string>>)
    returns (r: Option<ConfigFile>)
    requires Faithful(loads, scalars) && Accepted(installed)
    ensures r.Some? <==> Configurable(loads, config, template, installed, supplied)
    ensures r.Some? ==> Configured(loads, r.value, template, installed)
    ensures r.Some? ==> TableOf(loads, r.value) == AfterSetup(loads, config, template, installed, supplied)
    ensures r.Some? ==> Completed(loads, config, r.value, template, installed, supplied)
    ensures r.Some? && Configured(loads, config, template, installed) ==> r.value == config
  {
    hide Pending, Insert, Accepted, Amended, Covers, Keeps, Clean, FillKeep;
    var t, existing := loads(template), TableOf(loads, config);
    if t.None? || existing.None? {
      return None;
    }
    LoadedTable(loads, scalars, config);
    var merged := FillKeep(t.value, existing.value);
    FillKeepClean(t.value, existing.value, scalars);
    FillKeepFixpoint(t.value, existing.value);
    FillKeepTable(t.value, existing.value);
    var plan := Prepare(merged, installed, supplied, scalars);
    if plan.None? {
      return None;
    }
    var (pending, answered) := plan.value;
    CoveredAfter(t.value, existing.value, pending, Answered(supplied), answered);
    var text;
    if pending == [] && merged == existing.value && !config.NoFile? {
      text := config.text;
    } else {
      text := Print(loads, scalars, answered);
    }
    FillKeepNewer(answered, existing.value);
    r := EnsureFile(loads, scalars, config, text);
  }

  lemma FillKeepTable(template: Toml, existing: Toml)
    requires existing.Table?
    ensures FillKeep(template, existing).Table?
  {}

  /** The pending questions, and the configuration with their answers in it. */
  method Prepare(existing: Toml, installed: seq<Installed>, supplied: Option<map<Identifier, string>>,
                 ghost scalars: Atom -> bool)
    returns (r: Option<(seq<Question>, Toml)>)
    requires Printable(scalars) && Accepted(installed) && existing.Table? && Clean(existing, scalars)
    ensures var pending := Pending(AllQuestions(installed), existing);
      && (r.Some? <==> pending.Some? && Answered(supplied).Keys == Ids(pending.value))
      && (r.Some? ==> r.value.0 == pending.value && Some(r.value.1) == Insert(existing, pending.value, Answered(supplied)))
    ensures r.Some? ==> Pending(AllQuestions(installed), r.value.1) == Some([])
    ensures r.Some? ==> Amended(existing, r.value.1, r.value.0, Answered(supplied))
    ensures r.Some? ==> r.value.1.Table? && Clean(r.value.1, scalars) && Keeps(r.value.1, existing)
    ensures r.Some? && r.value.0 == [] ==> r.value.1 == existing
  {
    hide Clean, Keeps, Accepted, Amended;
    var questions := AllQuestions(installed);
    var pending := Pending(questions, existing);
    if pending.None? {
      return None;
    }
    var v := ValidateAnswers(supplied, pending.value);
    if !v.Valid? {
      return None;
    }
    AllIndependent(installed);
    NothingPendingAfterInsert(questions, existing, v.answers);
    InsertClean(existing, pending.value, v.answers, scalars);
    InsertKeeps(existing, pending.value, v.answers, existing);
    NoInsertion(existing, v.answers);
    var merged := InsertAnswers(existing, pending.value, v.answers);
    r := Some((pending.value, merged.value));
  }

  /** What setup is about to write has all of the template and all that was configured. */
  lemma CoveredAfter(template: Toml, existing: Toml, pending: seq<Question>, answers: map<Identifier, string>, after: Toml)
    requires Ids(pending) <= answers.Keys && Insert(FillKeep(template, existing), pending, answers) == Some(after)
    ensures Covers(after, template) && Keeps(after, existing)
  {
    FillKeepResult(template, existing);
    InsertKeeps(FillKeep(template, existing), pending, answers, template);
    KeepsTrans(after, FillKeep(template, existing), existing);
  }

  /** The module's scripts are what staging makes of what was there. */
  ghost predicate StagedIn(before: map<string, ModuleRoot>, after: map<string, ModuleRoot>, m: Installed)
    requires ScriptsNamed(m.scripts)
  {
    m.name in after && after[m.name] == ModuleDir(StagedRoot(ScriptsOf(before, m.name), m.scripts))
  }

  /** Write the scripts of every module. */
  method StageModules(dirs: map<string, ModuleRoot>, installed: seq<Installed>) returns (r: map<string, ModuleRoot>)
    requires Accepted(installed)
    ensures forall m | m in installed :: StagedIn(dirs, r, m)
  {
    hide StagedRoot, Readable;
    r := dirs;
    for i := 0 to |installed|
      invariant forall j | 0 <= j < i :: StagedIn(dirs, r, installed[j])
      invariant forall j | i <= j < |installed| :: ScriptsOf(r, installed[j].name) == ScriptsOf(dirs, installed[j].name)
    {
      var m := installed[i];
      assert m in installed;
      var root := StageScripts(ScriptsOf(r, m.name), m.scripts);
      r := r[m.name := ModuleDir(root)];
    }
  }

  /** No module directory is anything but a plain directory. */
  method CheckRoots(dirs: map<string, ModuleRoot>, installed: seq<Installed>) returns (plain: bool)
    ensures plain <==> PlainRoots(dirs, installed)
  {
    for i := 0 to |installed|
      invariant forall j | 0 <= j < i :: installed[j].name in dirs ==> dirs[installed[j].name].ModuleDir?
    {
      var name := installed[i].name;
      if name in dirs && dirs[name].NotADirectory? {
        return false;
      }
    }
    plain := true;
  }

  lemma NoInsertion(config: Toml, answers: map<Identifier, string>)
    ensures Insert(config, [], answers) == Some(config)
  {}

  lemma ReadWritable(root: Root)
    requires WellFormed(root) && Read(root).Some?
    ensures Writable(Read(root).value)
  {
    ReadClosed(root);
  }

  // ----- running the commands again -----

  /** Whatever doctor did, a second run over the same skills asks nothing, repairs nothing,
      reports no change and makes none: the runtime stays what it was between the runs. Given
      answers again, the same ones included, it refuses them and changes nothing either. */
  method DoctorTwice(r: Runtime, payload: Root, installed: seq<Installed>, supplied: Option<map<Identifier, string>>,
                     again: Option<map<Identifier, string>>)
    returns (first: Outcome, second: Outcome,
             ghost config: ConfigFile, ghost shared: Root, ghost modules: map<string, ModuleRoot>)
    requires Faithful(r.loads, r.scalars) && Accepted(installed) && WellFormed(payload)
    modifies r
    ensures first.Report? <==> old(r.Runnable(payload, installed, supplied))
    ensures first.Raised? ==> unchanged(r)
    ensures first.Report? ==> second == if Answered(again) == map[] then Report(false, false, [], {}) else Raised
    ensures first.Report? ==> r.Current(payload, installed)
    ensures first.Report? ==>
      Amended(old(TableOf(r.loads, r.config)).value, TableOf(r.loads, r.config).value, first.answered, Answered(supplied))
    ensures r.config == config && r.shared == shared && r.modules == modules
    ensures first.Report? && !first.changed ==> unchanged(r)
  {
    hide Matches, Pending, Accepted, Faithful, Insert, Amended, Keeps, WellFormed, AllQuestions, PlainRoots, Names;
    first := r.Doctor(payload, installed, supplied);
    second := first;
    config, shared, modules := r.config, r.shared, r.modules;
    if first.Report? {
      CurrentIsRunnable(r, payload, installed, again);
      NothingDiffers(r, payload, installed);
      second := r.Doctor(payload, installed, again);
    }
  }

  lemma NothingDiffers(r: Runtime, payload: Root, installed: seq<Installed>)
    requires Accepted(installed) && r.Current(payload, installed)
    ensures (set m | m in installed && !Matched(r.modules, m) :: m.name) == {}
  {
    hide Matched;
  }

  lemma CurrentIsRunnable(r: Runtime, payload: Root, installed: seq<Installed>, again: Option<map<Identifier, string>>)
    requires Accepted(installed) && r.Current(payload, installed) && PlainRoots(r.modules, installed)
    ensures r.Runnable(payload, installed, again) <==> Answered(again) == map[]
  {
    hide Matches, Pending, Accepted;
  }

  /** After one setup a second one leaves the configuration file to the byte, unless it is given
      answers: those it refuses. */
  method SetupTwice(r: Runtime, template: string, payload: Root, installed: seq<Installed>,
                    supplied: Option<map<Identifier, string>>, again: Option<map<Identifier, string>>)
    returns (first: bool, second: bool, ghost between: ConfigFile)
    requires Faithful(r.loads, r.scalars) && Accepted(installed) && WellFormed(payload)
    modifies r
    ensures first <==> Read(payload).Some? && PlainRoots(old(r.modules), installed)
                       && Configurable(r.loads, old(r.config), template, installed, supplied)
    ensures first ==> (second <==> Answered(again) == map[]) && r.config == between
    ensures first ==> Configured(r.loads, between, template, installed)
    ensures first ==> TableOf(r.loads, between) == AfterSetup(r.loads, old(r.config), template, installed, supplied)
    ensures first ==> Completed(r.loads, old(r.config), between, template, installed, supplied)
    ensures !first ==> unchanged(r)
  {
    hide Configured, Configurable, AfterSetup, Completed;
    first := r.Setup(template, payload, installed, supplied);
    second, between := first, r.config;
    if first {
      ConfiguredIsConfigurable(r.loads, r.config, template, installed, again);
      second := r.Setup(template, payload, installed, again);
    }
  }

  lemma ConfiguredIsConfigurable(loads: string -> Option<Toml>, file: ConfigFile, template: string,
                                 installed: seq<Installed>, again: Option<map<Identifier, string>>)
    requires Configured(loads, file, template, installed)
    ensures Configurable(loads, file, template, installed, again) <==> Answered(again) == map[]
  {
    FillKeepFixpoint(loads(template).value, TableOf(loads, file).value);
  }

  /** A fresh setup leaves nothing for doctor to repair. */
  method SetupThenDoctor(template: string, loads: string -> Option<Toml>, ghost scalars: Atom -> bool, payload: Root,
                         installed: seq<Installed>, supplied: Option<map<Identifier, string>>)
    returns (r: Runtime, ok: bool)
    requires Faithful(loads, scalars) && Accepted(installed) && WellFormed(payload)
    ensures ok <==> Read(payload).Some? && Configurable(loads, NoFile, template, installed, supplied)
    ensures ok ==> r.Current(payload, installed)
  {
    r := new Runtime(loads, scalars);
    ok := r.Setup(template, payload, installed, supplied);
    if ok {
      forall m | m in installed
        ensures Matched(r.modules, m)
      {
        FreshScriptsMatch(m.scripts);
      }
    }
  }
}
