/** The questions installed modules ask, and how answers to them enter the configuration. */
module Questions {
  import opened Text
  import opened Toml
  import opened Config

  datatype Question = Question(moduleName: string, key: string, prompt: string, default: string)

  function PathOf(q: Question): seq<string> {
    ["modules", q.moduleName] + Parts(q.key)
  }

  /** The textual test for clashing keys: equal, or one begins with the other and a dot. */
  predicate Clash(a: string, b: string) {
    a == b || (b + ".") <= a || (a + ".") <= b
  }

  /** A key is its first part, alone or followed by a dot and the rest. */
  lemma FirstPart(key: string) returns (head: string, rest: Option<string>)
    ensures NoOcc(head, ".")
    ensures rest.None? ==> key == head && Parts(key) == [head]
    ensures rest.Some? ==> key == head + "." + rest.value && |rest.value| < |key| && Parts(key) == [head] + Parts(rest.value)
  {
    var i := Find(key, ".");
    if i < 0 {
      head, rest := key, None;
    } else {
      head, rest := key[..i], Some(key[i + 1..]);
      AtChar(key, ".", i, 0);
      assert key == head + "." + rest.value;
      forall j: nat
        ensures !At(head, ".", j)
      {
        AtConcat(head, key[i..], ".", j);
        assert key == head + key[i..];
      }
    }
  }

  lemma SameHead(h: string, a: string, h': string, b: string)
    requires NoOcc(h, ".") && NoOcc(h', ".")
    requires (h + "." + a) <= (h' + "." + b)
    ensures h == h' && a <= b
  {
    var s, t := h + "." + a, h' + "." + b;
    assert s[|h|] == '.' == t[|h|];
    assert t[|h'|] == '.';
    if |h| < |h'| {
      assert h'[|h|] == t[|h|];
      assert At(h', ".", |h|);
    } else if |h'| < |h| {
      assert h[|h'|] == s[|h'|] == t[|h'|];
      assert At(h, ".", |h'|);
    } else {
      assert h == s[..|h|] == t[..|h|] == h';
      assert a == s[|h| + 1..] && b == t[|h| + 1..];
    }
  }

  lemma PrefixStep(h: string, x: seq<string>, h': string, y: seq<string>)
    ensures [h] + x <= [h'] + y <==> h == h' && x <= y
  {
    assert ([h] + x)[1..] == x && ([h'] + y)[1..] == y;
    if [h] + x <= [h'] + y { assert ([h] + x)[0] == ([h'] + y)[0]; }
  }

  lemma DottedPrefix(a: string, b: string)
    requires (a + ".") <= b
    ensures !NoOcc(b, ".")
  {
    assert b[|a|] == (a + ".")[|a|] == '.';
    assert At(b, ".", |a|);
  }

  lemma UnderPrefix(c: string, s: string, t: string)
    requires s <= t
    ensures c + s <= c + t
  {
    assert t == s + t[|s|..];
    Assoc(c, s, t[|s|..]);
  }

  /** A key without dots leads through the keys it begins. */
  lemma PlainPrefix(a: string, h: string, y: string)
    requires NoOcc(a, ".") && NoOcc(h, ".")
    ensures [a] <= [h] + Parts(y) <==> (a + ".") <= (h + "." + y)
    ensures a != h + "." + y
  {
    NilRight([a]);
    PrefixStep(a, [], h, Parts(y));
    NilRight(a + ".");
    if (a + ".") <= (h + "." + y) { SameHead(a, "", h, y); }
    if a == h { UnderPrefix(a + ".", "", y); }
    if a == h + "." + y { DottedPrefix(h, a); }
  }

  /** One key's path leads through the other's exactly when the text says so. */
  lemma {:induction false} PartsPrefix(a: string, b: string)
    ensures Parts(a) <= Parts(b) <==> a == b || (a + ".") <= b
    decreases |a|
  {
    var h, r := FirstPart(a);
    var h', r' := FirstPart(b);
    match (r, r') {
      case (None, None) =>
        PrefixStep(a, [], b, []);
        if (a + ".") <= b { DottedPrefix(a, b); }
      case (None, Some(y)) =>
        PlainPrefix(a, h', y);
      case (Some(x), None) =>
        Assoc(h, ".", x);
        if a == b || (a + ".") <= b { DottedPrefix(h, b); }
      case (Some(x), Some(y)) =>
        PartsPrefix(x, y);
        if a == b { SameHead(h, x, h', y); SameHead(h', y, h, x); }
        if (a + ".") <= b {
          Assoc4(h, ".", x, ".");
          SameHead(h, x + ".", h', y);
        }
        Assoc4(h, ".", x, ".");
        Assoc(h + ".", x, ".");
        if h == h' && (x + ".") <= y { UnderPrefix(h + ".", x + ".", y); }
        assert Parts(a) <= Parts(b) <==> h == h' && Parts(x) <= Parts(y) by { PrefixStep(h, Parts(x), h', Parts(y)); }
    }
  }

  /** The textual test is exactly the test on paths. */
  lemma ClashIsPathClash(a: string, b: string)
    ensures Clash(a, b) <==> !Apart(Parts(a), Parts(b))
  {
    PartsPrefix(a, b);
    PartsPrefix(b, a);
  }

  ghost predicate PairwiseApart(keys: seq<string>) {
    forall i, j | 0 <= i < j < |keys| :: Apart(Parts(keys[i]), Parts(keys[j]))
  }

  /** The first accepted key that clashes with the candidate. */
  method ConflictingKey(keys: seq<string>, candidate: string) returns (conflict: Option<string>)
    ensures conflict.None? <==> forall k | k in keys :: Apart(Parts(k), Parts(candidate))
    ensures conflict.Some? ==> conflict.value in keys && !Apart(Parts(conflict.value), Parts(candidate))
  {
    for i := 0 to |keys|
      invariant forall j | 0 <= j < i :: Apart(Parts(keys[j]), Parts(candidate))
    {
      ClashIsPathClash(keys[i], candidate);
      if Clash(keys[i], candidate) {
        return Some(keys[i]);
      }
    }
    return None;
  }

  /** A manifest's keys are accepted exactly when no two of their paths meet. */
  method AcceptKeys(keys: seq<string>) returns (conflict: Option<string>)
    ensures conflict.None? <==> PairwiseApart(keys)
  {
    var seen := [];
    for i := 0 to |keys|
      invariant seen == keys[..i] && PairwiseApart(seen)
    {
      conflict := ConflictingKey(seen, keys[i]);
      if conflict.Some? {
        var j :| 0 <= j < i && keys[j] == conflict.value;
        return;
      }
      assert forall j | 0 <= j < i :: seen[j] in seen;
      seen := seen + [keys[i]];
    }
    conflict := None;
  }

  // ----- pending questions -----

  /** The questions whose path the configuration lacks; None when one cannot be inspected. */
  function Pending(questions: seq<Question>, config: Toml): Option<seq<Question>> {
    if questions == [] then Some([])
    else
      var q := questions[0];
      match (HasPath(config, PathOf(q)), Pending(questions[1..], config))
      case (Blocked, _) => None
      case (_, None) => None
      case (present, Some(rest)) => Some((if present.Present? then [] else [q]) + rest)
  }

  type Identifier = (string, string)

  function IdOf(q: Question): Identifier {
    (q.moduleName, q.key)
  }

  function Ids(questions: seq<Question>): set<Identifier> {
    set q | q in questions :: IdOf(q)
  }

  datatype Validation = Extra(id: Identifier) | Missing(q: Question) | Valid(answers: map<Identifier, string>)

  /** Answers are valid when they answer the pending questions and nothing else; an answer to
      none of them is reported before a question left out, and of those the first. */
  method ValidateAnswers(supplied: Option<map<Identifier, string>>, pending: seq<Question>) returns (v: Validation)
    ensures var answers := if supplied.Some? then supplied.value else map[];
      && (v.Valid? <==> answers.Keys == Ids(pending))
      && (v.Valid? ==> v.answers == answers)
      && (v.Extra? <==> !(answers.Keys <= Ids(pending)))
      && (v.Extra? ==> v.id in answers && v.id !in Ids(pending))
      && (v.Missing? ==> exists i :: 0 <= i < |pending| && v.q == pending[i] && IdOf(v.q) !in answers
                                     && forall j | 0 <= j < i :: IdOf(pending[j]) in answers)
  {
    var answers := if supplied.Some? then supplied.value else map[];
    var extra := answers.Keys - Ids(pending);
    if extra != {} {
      var id :| id in extra;
      return Extra(id);
    }
    assert answers.Keys <= Ids(pending) by {
      forall id | id in answers.Keys ensures id in Ids(pending) { assert id !in extra; }
    }
    for i := 0 to |pending|
      invariant forall j | 0 <= j < i :: IdOf(pending[j]) in answers
    {
      if IdOf(pending[i]) !in answers {
        assert IdOf(pending[i]) in Ids(pending);
        return Missing(pending[i]);
      }
    }
    forall id | id in Ids(pending) ensures id in answers { var q :| q in pending && IdOf(q) == id; }
    return Valid(answers);
  }

  /** The configuration with an answer for every pending question. */
  function Insert(config: Toml, pending: seq<Question>, answers: map<Identifier, string>): Option<Toml>
    requires Ids(pending) <= answers.Keys
    decreases |pending|
  {
    if pending == [] then Some(config)
    else
      assert pending[0] in pending;
      match SetMissing(config, PathOf(pending[0]), answers[IdOf(pending[0])])
      case None => None
      case Some(next) =>
        assert Ids(pending[1..]) <= Ids(pending);
        Insert(next, pending[1..], answers)
  }

  /** Every question has its answer at its path, and whatever stands apart from them stays. */
  ghost predicate Amended(before: Toml, after: Toml, questions: seq<Question>, answers: map<Identifier, string>) {
    && (forall q | q in questions ::
          IdOf(q) in answers && ValueAt(after, PathOf(q)) == Some(Leaf(Str(answers[IdOf(q)]))))
    && (forall path | (forall q | q in questions :: Apart(PathOf(q), path)) ::
          ValueAt(after, path) == ValueAt(before, path))
  }

  /** No question's path meets another's. */
  ghost predicate Independent(questions: seq<Question>) {
    questions == [] ||
    ((forall q | q in questions[1..] :: Apart(PathOf(questions[0]), PathOf(q))) && Independent(questions[1..]))
  }

  lemma PathPrefix(p: Question, q: Question)
    ensures PathOf(p) <= PathOf(q) <==> p.moduleName == q.moduleName && Parts(p.key) <= Parts(q.key)
  {
    var a, b := PathOf(p), PathOf(q);
    assert a[1] == p.moduleName && b[1] == q.moduleName && a[2..] == Parts(p.key) && b[2..] == Parts(q.key);
    assert a == a[..2] + a[2..] && b == b[..2] + b[2..];
  }

  /** Questions of different modules never meet, and within a module accepted keys do not. */
  lemma ModulesApart(p: Question, q: Question)
    requires p.moduleName != q.moduleName || Apart(Parts(p.key), Parts(q.key))
    ensures Apart(PathOf(p), PathOf(q))
  {
    PathPrefix(p, q);
    PathPrefix(q, p);
  }

  /** The pending questions are exactly those whose path is missing. */
  lemma {:induction false} PendingMembers(questions: seq<Question>, config: Toml)
    requires Pending(questions, config).Some?
    ensures forall q :: q in Pending(questions, config).value <==> q in questions && HasPath(config, PathOf(q)) == Vacant
    ensures forall q | q in questions :: !HasPath(config, PathOf(q)).Blocked?
  {
    hide HasPath, Parts;
    if questions != [] {
      PendingMembers(questions[1..], config);
      assert questions == [questions[0]] + questions[1..];
    }
  }

  /** Questions are asked in their order, each as by itself. */
  lemma {:induction false} PendingJoin(a: seq<Question>, b: seq<Question>, config: Toml)
    ensures Pending(a + b, config) ==
      match (Pending(a, config), Pending(b, config))
      case (Some(x), Some(y)) => Some(x + y)
      case _ => None
    decreases |a|
  {
    hide HasPath, PathOf;
    if a == [] {
      NilLeft(b);
      if Pending(b, config).Some? { NilLeft(Pending(b, config).value); }
    } else {
      Drop(a, b, 1);
      PendingJoin(a[1..], b, config);
      if Pending(a[1..], config).Some? && Pending(b, config).Some? {
        Assoc(if HasPath(config, PathOf(a[0])).Present? then [] else [a[0]],
              Pending(a[1..], config).value, Pending(b, config).value);
      }
    }
  }

  lemma PendingOne(q: Question, config: Toml)
    ensures Pending([q], config) ==
      match HasPath(config, PathOf(q))
      case Present => Some([])
      case Vacant => Some([q])
      case Blocked => None
  {
    hide HasPath, PathOf;
    assert Pending([q][1..], config) == Some([]);
    NilRight(if HasPath(config, PathOf(q)).Present? then [] else [q]);
  }

  /** A question's answer belongs under its module, at the parts of its key. */
  lemma {:induction false} PathOfDotted(name: string, parts: seq<string>, prompt: string, default: string)
    requires parts != [] && forall p | p in parts :: NoOcc(p, ".")
    ensures PathOf(Question(name, Dotted(parts), prompt, default)) == ["modules", name] + parts
  {
    PartsDotted(parts);
  }

  lemma {:induction false} PendingIndependent(questions: seq<Question>, config: Toml)
    requires Pending(questions, config).Some? && Independent(questions)
    ensures Independent(Pending(questions, config).value)
  {
    hide HasPath, PathOf, Apart;
    if questions != [] {
      PendingIndependent(questions[1..], config);
      PendingMembers(questions[1..], config);
      var more := Pending(questions[1..], config).value;
      assert ([questions[0]] + more)[1..] == more && [] + more == more;
    }
  }

  lemma {:induction false} NonePending(questions: seq<Question>, config: Toml)
    requires forall q | q in questions :: HasPath(config, PathOf(q)) == Present
    ensures Pending(questions, config) == Some([])
  {
    if questions != [] {
      assert questions[0] in questions;
      NonePending(questions[1..], config);
      NilLeft(Pending(questions[1..], config).value);
    }
  }

  /** Independent pending questions can all be answered: no insertion blocks or satisfies
      another, and afterwards every answer is in its place. */
  lemma {:induction false} InsertSucceeds(config: Toml, pending: seq<Question>, answers: map<Identifier, string>)
    requires Ids(pending) <= answers.Keys && Independent(pending) && config.Table?
    requires forall q | q in pending :: HasPath(config, PathOf(q)) == Vacant
    ensures Insert(config, pending, answers).Some? && Insert(config, pending, answers).value.Table?
    ensures forall q | q in pending :: HasPath(Insert(config, pending, answers).value, PathOf(q)) == Present
    ensures Amended(config, Insert(config, pending, answers).value, pending, answers)
    decreases |pending|
  {
    hide HasPath, ValueAt, Parts, SetMissing;
    if pending != [] {
      var p, rest := pending[0], pending[1..];
      assert p in pending && pending == [p] + rest;
      SetMissingFills(config, PathOf(p), answers[IdOf(p)]);
      var next := SetMissing(config, PathOf(p), answers[IdOf(p)]).value;
      forall q | q in rest
        ensures HasPath(next, PathOf(q)) == Vacant
      {
        SetMissingElsewhere(config, PathOf(p), answers[IdOf(p)], PathOf(q));
      }
      assert Ids(rest) <= Ids(pending);
      InsertSucceeds(next, rest, answers);
      InsertElsewhere(next, rest, answers, PathOf(p));
      forall path | (forall q | q in pending :: Apart(PathOf(q), path))
        ensures ValueAt(Insert(config, pending, answers).value, path) == ValueAt(config, path)
      {
        assert forall q | q in rest :: q in pending;
        InsertElsewhere(config, pending, answers, path);
      }
    }
  }

  lemma {:induction false} InsertElsewhere(config: Toml, pending: seq<Question>, answers: map<Identifier, string>,
                                           path: seq<string>)
    requires Ids(pending) <= answers.Keys && Insert(config, pending, answers).Some?
    requires forall p | p in pending :: Apart(PathOf(p), path)
    ensures HasPath(Insert(config, pending, answers).value, path) == HasPath(config, path)
    ensures ValueAt(Insert(config, pending, answers).value, path) == ValueAt(config, path)
    decreases |pending|
  {
    hide HasPath, ValueAt, Parts, SetMissing;
    if pending != [] {
      var p, rest := pending[0], pending[1..];
      assert p in pending && pending == [p] + rest;
      SetMissingElsewhere(config, PathOf(p), answers[IdOf(p)], path);
      assert Ids(rest) <= Ids(pending);
      InsertElsewhere(SetMissing(config, PathOf(p), answers[IdOf(p)]).value, rest, answers, path);
    }
  }

  /** Insertion keeps what was configured and what a template asked for. */
  lemma {:induction false} InsertKeeps(config: Toml, pending: seq<Question>, answers: map<Identifier, string>, template: Toml)
    requires Ids(pending) <= answers.Keys && Insert(config, pending, answers).Some?
    ensures Keeps(Insert(config, pending, answers).value, config)
    ensures Covers(config, template) ==> Covers(Insert(config, pending, answers).value, template)
    decreases |pending|
  {
    KeepsItself(config);
    if pending != [] {
      assert pending[0] in pending;
      assert Ids(pending[1..]) <= Ids(pending);
      var next := SetMissing(config, PathOf(pending[0]), answers[IdOf(pending[0])]).value;
      SetMissingKeeps(config, PathOf(pending[0]), answers[IdOf(pending[0])], template);
      InsertKeeps(next, pending[1..], answers, template);
      KeepsTrans(Insert(config, pending, answers).value, next, config);
    }
  }

  lemma Symmetric(questions: seq<Question>, p: Question, q: Question)
    requires Independent(questions) && p in questions && q in questions && PathOf(p) != PathOf(q)
    ensures Apart(PathOf(p), PathOf(q))
  {
    if questions != [] && p != questions[0] && q != questions[0] {
      Symmetric(questions[1..], p, q);
    }
  }

  /** Once the pending questions are answered, none is pending. */
  lemma NothingPendingAfterInsert(questions: seq<Question>, config: Toml, answers: map<Identifier, string>)
    requires Independent(questions) && config.Table? && Pending(questions, config).Some?
    requires Ids(Pending(questions, config).value) <= answers.Keys
    ensures var r := Insert(config, Pending(questions, config).value, answers);
      && r.Some? && r.value.Table? && Pending(questions, r.value) == Some([])
      && Amended(config, r.value, Pending(questions, config).value, answers)
  {
    hide HasPath, ValueAt, PathOf, Apart, Insert, Amended;
    var pending := Pending(questions, config).value;
    PendingMembers(questions, config);
    PendingIndependent(questions, config);
    InsertSucceeds(config, pending, answers);
    var r := Insert(config, pending, answers).value;
    forall q | q in questions
      ensures HasPath(r, PathOf(q)) == Present
    {
      if q !in pending {
        forall p | p in pending
          ensures Apart(PathOf(p), PathOf(q))
        {
          Symmetric(questions, p, q);
        }
        InsertElsewhere(config, pending, answers, PathOf(q));
      }
    }
    NonePending(questions, r);
  }
}
