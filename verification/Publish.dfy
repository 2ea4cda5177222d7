/** Publishing a rendered snapshot to one destination, by any number of racing publishers. */
module Publish {
  import opened Text
  import Trees

  type Bytes = Trees.Bytes
  type Digest = string
  type Files = map<string, Bytes>

  const MANIFEST := "manifest.json"

  /** Everything that determines a generation, and the digest of each output. */
  datatype Manifest = Manifest(identity: string, outputs: map<string, Digest>)

  /** The digest and the manifest encoding, left open. */
  datatype Scheme = Scheme(hash: Bytes -> Digest, encode: Manifest -> Bytes, decode: Bytes -> Option<Manifest>)

  /** No two contents share a digest, and a written manifest reads back. */
  ghost predicate Sound(c: Scheme) {
    && (forall a, b :: c.hash(a) == c.hash(b) ==> a == b)
    && (forall m :: c.decode(c.encode(m)) == Some(m))
  }

  /** What one publisher wants at the destination. */
  datatype Job = Job(outputs: seq<(string, Bytes)>, manifest: Manifest)

  predicate WellFormed(c: Scheme, job: Job) {
    && (forall i, j | 0 <= i < j < |job.outputs| :: job.outputs[i].0 != job.outputs[j].0)
    && (forall o | o in job.outputs :: o.0 != MANIFEST)
    && job.manifest.outputs.Keys == Names(job)
    && (forall o | o in job.outputs :: job.manifest.outputs[o.0] == c.hash(o.1))
  }

  function Names(job: Job): set<string> {
    set o | o in job.outputs :: o.0
  }

  function Written(outputs: seq<(string, Bytes)>): Files {
    if outputs == [] then map[]
    else
      var last := outputs[|outputs| - 1];
      Written(outputs[..|outputs| - 1])[last.0 := last.1]
  }

  /** The complete staging directory. */
  function Snapshot(c: Scheme, job: Job): Files {
    Written(job.outputs)[MANIFEST := c.encode(job.manifest)]
  }

  /** The directory holds exactly this publisher's outputs, and its manifest. */
  predicate Published(c: Scheme, files: Files, job: Job) {
    && files.Keys == Names(job) + {MANIFEST}
    && c.decode(files[MANIFEST]) == Some(job.manifest)
    && forall o | o in job.outputs :: files[o.0] == o.1
  }

  lemma {:induction false} WrittenIs(outputs: seq<(string, Bytes)>)
    requires forall i, j | 0 <= i < j < |outputs| :: outputs[i].0 != outputs[j].0
    ensures Written(outputs).Keys == set o | o in outputs :: o.0
    ensures forall o | o in outputs :: Written(outputs)[o.0] == o.1
  {
    if outputs != [] {
      var front, last := outputs[..|outputs| - 1], outputs[|outputs| - 1];
      WrittenIs(front);
      assert outputs == front + [last];
      forall o | o in outputs
        ensures o.0 in Written(outputs) && Written(outputs)[o.0] == o.1
      {
        if o.0 == last.0 {
          var i :| 0 <= i < |outputs| && outputs[i] == o;
          assert i == |outputs| - 1;
        } else {
          assert o in front;
        }
      }
    }
  }

  lemma SnapshotPublished(c: Scheme, job: Job)
    requires Sound(c) && WellFormed(c, job)
    ensures Published(c, Snapshot(c, job), job)
    ensures Snapshot(c, job).Keys == Names(job) + {"manifest.json"}
  {
    WrittenIs(job.outputs);
  }

  /** Two jobs published in the same directory are the same, up to the order of the outputs. */
  lemma PublishedAgree(c: Scheme, files: Files, a: Job, b: Job)
    requires Sound(c) && WellFormed(c, a) && WellFormed(c, b) && Published(c, files, a) && Published(c, files, b)
    ensures a.manifest == b.manifest && (forall o :: o in a.outputs <==> o in b.outputs)
  {
    assert MANIFEST !in Names(a) && MANIFEST !in Names(b);
    assert Names(a) == Names(b);
    forall o
      ensures o in a.outputs <==> o in b.outputs
    {
      if o in a.outputs { SameOutput(c, files, a, b, o); }
      if o in b.outputs { SameOutput(c, files, b, a, o); }
    }
  }

  lemma SameOutput(c: Scheme, files: Files, a: Job, b: Job, o: (string, Bytes))
    requires Published(c, files, a) && Published(c, files, b) && Names(a) == Names(b) && o in a.outputs
    ensures o in b.outputs
  {
    assert o.0 in Names(b);
    var p :| p in b.outputs && p.0 == o.0;
    assert p == o;
  }

  // ----- one publisher alone -----

  /** The destination: absent, or the files below it. */
  class Place {
    var dest: Option<Files>

    constructor (initial: Option<Files>)
      ensures dest == initial
    {
      dest := initial;
    }

    /** Compare what is there with the manifest, output by output; false when that raises. */
    method VerifyExisting(c: Scheme, job: Job) returns (ok: bool)
      requires Sound(c) && WellFormed(c, job)
      ensures ok <==> dest.Some? && Published(c, dest.value, job)
    {
      if dest.None? || MANIFEST !in dest.value || c.decode(dest.value[MANIFEST]) != Some(job.manifest) {
        return false;
      }
      if dest.value.Keys != job.manifest.outputs.Keys + {MANIFEST} {
        return false;
      }
      for i := 0 to |job.outputs|
        invariant forall j | 0 <= j < i :: dest.value[job.outputs[j].0] == job.outputs[j].1
      {
        assert job.outputs[i] in job.outputs && job.outputs[i].0 in Names(job);
        if c.hash(dest.value[job.outputs[i].0]) != job.manifest.outputs[job.outputs[i].0] {
          assert dest.value[job.outputs[i].0] != job.outputs[i].1;
          return false;
        }
      }
      return true;
    }

    /** Stage and rename, or verify what is already there. */
    method Publish(c: Scheme, job: Job) returns (ok: bool)
      requires Sound(c) && WellFormed(c, job)
      modifies this
      ensures old(dest).None? ==> ok && dest == Some(Snapshot(c, job))
      ensures old(dest).Some? ==> dest == old(dest)
      ensures ok <==> dest.Some? && Published(c, dest.value, job)
    {
      if dest.Some? {
        ok := VerifyExisting(c, job);
        return;
      }
      var staging: Files := map[];
      for i := 0 to |job.outputs|
        invariant staging == Written(job.outputs[..i])
      {
        assert job.outputs[..i + 1][..i] == job.outputs[..i];
        staging := staging[job.outputs[i].0 := job.outputs[i].1];
      }
      assert job.outputs[..|job.outputs|] == job.outputs;
      staging := staging[MANIFEST := c.encode(job.manifest)];
      SnapshotPublished(c, job);
      dest := Some(staging);
      ok := true;
    }
  }

  // ----- racing publishers -----

  /** Where a publisher stands; Hashing and Writing count the outputs done. */
  datatype Phase = Begin | Writing(k: nat) | Renaming | Reading | Listing | Hashing(k: nat) | Returned | Raised

  datatype Publisher = Publisher(job: Job, phase: Phase, staging: Option<Files>)

  datatype State = State(dest: Option<Files>, publishers: seq<Publisher>)

  /** Renaming a directory succeeds onto nothing, or onto an empty directory. */
  predicate Renamable(dest: Option<Files>) {
    dest.None? || dest.value == map[]
  }

  /** What the final clean-up leaves of a staging directory: nothing, or the directory with the
      files it could not remove. */
  function Swept(staging: Option<Files>, left: Option<set<string>>): Option<Files> {
    if staging.None? || left.None? then None
    else Some(map name | name in staging.value && name in left.value :: staging.value[name])
  }

  function Leave(p: Publisher, phase: Phase, left: Option<set<string>>): Publisher {
    p.(phase := phase, staging := Swept(p.staging, left))
  }

  /** One step of a publisher that succeeds or finds a mismatch; the destination after it
      and the publisher after it. */
  function Advance(c: Scheme, dest: Option<Files>, p: Publisher, left: Option<set<string>>): (Option<Files>, Publisher) {
    match p.phase
    case Begin =>
      (dest, if dest.Some? then p.(phase := Reading) else p.(phase := Writing(0), staging := Some(map[])))
    case Writing(k) =>
      if p.staging.None? then (dest, p)
      else if k < |p.job.outputs| then
        (dest, p.(phase := Writing(k + 1), staging := Some(p.staging.value[p.job.outputs[k].0 := p.job.outputs[k].1])))
      else
        (dest, p.(phase := Renaming, staging := Some(p.staging.value[MANIFEST := c.encode(p.job.manifest)])))
    case Renaming =>
      if Renamable(dest) then (p.staging, p.(phase := Returned, staging := None)) else (dest, p.(phase := Reading))
    case Reading =>
      (dest, if dest.Some? && MANIFEST in dest.value && c.decode(dest.value[MANIFEST]) == Some(p.job.manifest)
             then p.(phase := Listing) else Leave(p, Raised, left))
    case Listing =>
      (dest, if dest.Some? && dest.value.Keys == p.job.manifest.outputs.Keys + {MANIFEST}
             then p.(phase := Hashing(0)) else Leave(p, Raised, left))
    case Hashing(k) =>
      if k >= |p.job.outputs| then (dest, Leave(p, Returned, left))
      else
        var name := p.job.outputs[k].0;
        (dest, if dest.Some? && name in dest.value && name in p.job.manifest.outputs
                  && c.hash(dest.value[name]) == p.job.manifest.outputs[name]
               then p.(phase := Hashing(k + 1)) else Leave(p, Raised, left))
    case Returned => (dest, p)
    case Raised => (dest, p)
  }

  /** What the scheduler may do with a publisher: let it go on, raise an error in it, or
      refuse its rename for a reason of its own. If the publisher ends with that, `left` says
      what its clean-up leaves. */
  datatype Act = Go | Fail | Refuse

  datatype Move = Move(i: nat, act: Act, left: Option<set<string>>)

  function Apply(c: Scheme, s: State, m: Move): State {
    if m.i >= |s.publishers| || s.publishers[m.i].phase.Returned? || s.publishers[m.i].phase.Raised? then s
    else
      var p := s.publishers[m.i];
      match m.act
      case Go => var (d, q) := Advance(c, s.dest, p, m.left); State(d, s.publishers[m.i := q])
      case Fail => s.(publishers := s.publishers[m.i := Leave(p, Raised, m.left)])
      case Refuse =>
        if p.phase.Renaming? && s.dest.Some? then s.(publishers := s.publishers[m.i := p.(phase := Reading)]) else s
  }

  /** An error ends a publisher wherever it stands; a rename that is refused onto something goes on
      with the verification; and neither touches the destination. */
  lemma ErrorsMean(c: Scheme, s: State, i: nat, left: Option<set<string>>)
    requires i < |s.publishers| && !s.publishers[i].phase.Returned? && !s.publishers[i].phase.Raised?
    ensures var t := Apply(c, s, Move(i, Fail, left));
      t.dest == s.dest && |t.publishers| == |s.publishers| && t.publishers[i].phase == Raised
    ensures var t := Apply(c, s, Move(i, Refuse, left)); var p := s.publishers[i];
      t == if p.phase.Renaming? && s.dest.Some? then s.(publishers := s.publishers[i := p.(phase := Reading)]) else s
  {}

  /** Any interleaving. */
  function Exec(c: Scheme, s: State, moves: seq<Move>): State {
    if moves == [] then s else Apply(c, Exec(c, s, moves[..|moves| - 1]), moves[|moves| - 1])
  }

  predicate WellFormedState(c: Scheme, s: State) {
    forall p | p in s.publishers :: WellFormed(c, p.job)
  }

  /** All at the start; anything at all may be at the destination. */
  predicate Initial(c: Scheme, s: State) {
    && WellFormedState(c, s)
    && forall p | p in s.publishers :: p.phase == Begin && p.staging == None
  }

  /** Something is there. */
  predicate Present(dest: Option<Files>) {
    dest.Some? && dest.value != map[]
  }

  /** What a publisher has established about its staging directory and the destination. */
  predicate Holds(c: Scheme, dest: Option<Files>, p: Publisher) {
    match p.phase
    case Begin => p.staging == None
    case Writing(k) => k <= |p.job.outputs| && p.staging == Some(Written(p.job.outputs[..k]))
    case Renaming => p.staging == Some(Snapshot(c, p.job))
    case Reading => true
    case Listing => HasManifest(c, dest, p.job)
    case Hashing(k) => HasManifest(c, dest, p.job) && dest.value.Keys == Names(p.job) + {MANIFEST}
                       && k <= |p.job.outputs|
                       && forall o | o in p.job.outputs[..k] :: o.0 in dest.value && dest.value[o.0] == o.1
    case Returned => dest.Some? && Published(c, dest.value, p.job)
    case Raised => true
  }

  predicate HasManifest(c: Scheme, dest: Option<Files>, job: Job) {
    dest.Some? && MANIFEST in dest.value && c.decode(dest.value[MANIFEST]) == Some(job.manifest)
  }

  predicate Inv(c: Scheme, s: State) {
    WellFormedState(c, s) && forall p | p in s.publishers :: Holds(c, s.dest, p)
  }

  lemma WritingHolds(c: Scheme, dest: Option<Files>, p: Publisher, left: Option<set<string>>)
    requires p.phase.Writing? && Holds(c, dest, p)
    ensures Advance(c, dest, p, left).0 == dest && Holds(c, dest, Advance(c, dest, p, left).1)
  {
    var k, outputs := p.phase.k, p.job.outputs;
    if k < |outputs| {
      assert outputs[..k + 1][..k] == outputs[..k];
    } else {
      assert outputs[..k] == outputs;
    }
  }

  lemma HashingHolds(c: Scheme, dest: Option<Files>, p: Publisher, left: Option<set<string>>)
    requires Sound(c) && WellFormed(c, p.job) && p.phase.Hashing? && Holds(c, dest, p)
    ensures Advance(c, dest, p, left).0 == dest && Holds(c, dest, Advance(c, dest, p, left).1)
  {
    hide Names;
    var k, outputs := p.phase.k, p.job.outputs;
    if k < |outputs| {
      assert outputs[..k + 1] == outputs[..k] + [outputs[k]];
      assert outputs[k] in outputs;
    } else {
      assert outputs[..k] == outputs;
    }
  }

  lemma AdvanceHolds(c: Scheme, dest: Option<Files>, p: Publisher, left: Option<set<string>>)
    requires Sound(c) && WellFormed(c, p.job) && Holds(c, dest, p) && !p.phase.Returned? && !p.phase.Raised?
    ensures var (d, q) := Advance(c, dest, p, left);
      && q.job == p.job && Holds(c, d, q)
      && (Present(dest) ==> d == dest)
      && (d != dest ==> d == Some(Snapshot(c, p.job)) && q.phase.Returned?)
  {
    if p.phase.Writing? {
      WritingHolds(c, dest, p, left);
    } else if p.phase.Hashing? {
      HashingHolds(c, dest, p, left);
    } else {
      SnapshotPublished(c, p.job);
      assert p.job.outputs[..0] == [];
      hide Published, Snapshot, Written, Names;
    }
  }

  /** Another publisher's step cannot break what holds, since a present destination stays as it is. */
  lemma HoldsStable(c: Scheme, dest: Option<Files>, after: Option<Files>, p: Publisher)
    requires Holds(c, dest, p) && (Present(dest) ==> after == dest)
    ensures Holds(c, after, p)
  {
    if p.phase.Listing? || p.phase.Returned? || p.phase.Hashing? { assert MANIFEST in dest.value; }
  }

  /** A move touches one publisher, and the destination only to publish its snapshot. */
  lemma ApplyOne(c: Scheme, s: State, m: Move)
    requires Sound(c) && Inv(c, s) && m.i < |s.publishers|
    ensures var t := Apply(c, s, m);
      && |t.publishers| == |s.publishers|
      && (forall j | 0 <= j < |s.publishers| && j != m.i :: t.publishers[j] == s.publishers[j])
      && t.publishers[m.i].job == s.publishers[m.i].job && Holds(c, t.dest, t.publishers[m.i])
      && (Present(s.dest) ==> t.dest == s.dest)
      && (t.dest != s.dest ==> t.dest == Some(Snapshot(c, s.publishers[m.i].job)) && t.publishers[m.i].phase.Returned?)
  {
    var p := s.publishers[m.i];
    assert p in s.publishers;
    hide Advance, Published, WellFormed, Snapshot;
    if !p.phase.Returned? && !p.phase.Raised? { AdvanceHolds(c, s.dest, p, m.left); }
  }

  /** Every step keeps the invariant, a present destination never changes, and who puts its snapshot
      there has returned with that. */
  lemma StepKeeps(c: Scheme, s: State, m: Move)
    requires Sound(c) && Inv(c, s)
    ensures var t := Apply(c, s, m);
      && Inv(c, t) && |t.publishers| == |s.publishers|
      && (forall j | 0 <= j < |s.publishers| :: t.publishers[j].job == s.publishers[j].job)
      && (Present(s.dest) ==> t.dest == s.dest)
      && (t.dest != s.dest ==>
            m.i < |s.publishers| && t.dest == Some(Snapshot(c, s.publishers[m.i].job)) && t.publishers[m.i].phase.Returned?)
  {
    var t := Apply(c, s, m);
    if m.i < |s.publishers| {
      ApplyOne(c, s, m);
      hide Apply, Holds, WellFormed, Snapshot, Present;
      forall q | q in t.publishers
        ensures Holds(c, t.dest, q) && WellFormed(c, q.job)
      {
        var j :| 0 <= j < |t.publishers| && t.publishers[j] == q;
        assert s.publishers[j] in s.publishers;
        if j != m.i { HoldsStable(c, s.dest, t.dest, q); }
      }
    }
  }

  lemma {:induction false} ExecKeeps(c: Scheme, s: State, moves: seq<Move>)
    requires Sound(c) && Initial(c, s)
    ensures Inv(c, Exec(c, s, moves)) && |Exec(c, s, moves).publishers| == |s.publishers|
    ensures forall j | 0 <= j < |s.publishers| :: Exec(c, s, moves).publishers[j].job == s.publishers[j].job
  {
    if moves != [] {
      hide Inv, Apply;
      ExecKeeps(c, s, moves[..|moves| - 1]);
      StepKeeps(c, Exec(c, s, moves[..|moves| - 1]), moves[|moves| - 1]);
    }
  }

  /** Once something is at the destination it stays there unchanged. */
  lemma {:induction false} PresentForever(c: Scheme, s: State, moves: seq<Move>, more: seq<Move>)
    requires Sound(c) && Initial(c, s) && Present(Exec(c, s, moves).dest)
    ensures Exec(c, s, moves + more).dest == Exec(c, s, moves).dest
    decreases |more|
  {
    hide Inv, Apply, Initial;
    if more == [] {
      NilRight(moves);
    } else {
      var front, last := more[..|more| - 1], more[|more| - 1];
      var all := moves + more;
      assert all[..|all| - 1] == moves + front && all[|all| - 1] == last;
      PresentForever(c, s, moves, front);
      ExecKeeps(c, s, moves + front);
      StepKeeps(c, Exec(c, s, moves + front), last);
    }
  }

  /** The destination is as it was at first, or one publisher's complete snapshot: never a part. */
  lemma {:induction false} AbsentOrComplete(c: Scheme, s: State, moves: seq<Move>)
    requires Sound(c) && Initial(c, s)
    ensures Exec(c, s, moves).dest == s.dest
            || exists p :: p in s.publishers && Exec(c, s, moves).dest == Some(Snapshot(c, p.job))
  {
    if moves != [] {
      hide Inv, Apply, Initial, Snapshot;
      var front, last := moves[..|moves| - 1], moves[|moves| - 1];
      AbsentOrComplete(c, s, front);
      ExecKeeps(c, s, front);
      StepKeeps(c, Exec(c, s, front), last);
      if Exec(c, s, moves).dest != Exec(c, s, front).dest { assert s.publishers[last.i] in s.publishers; }
    }
  }

  /** A publisher that returned normally left its own outputs and manifest at the destination,
      from then on. */
  lemma ReturnedPublished(c: Scheme, s: State, moves: seq<Move>, more: seq<Move>, i: nat)
    requires Sound(c) && Initial(c, s) && i < |s.publishers|
    ensures |Exec(c, s, moves).publishers| == |s.publishers|
    ensures Exec(c, s, moves).publishers[i].phase.Returned? ==>
      Exec(c, s, moves + more).dest.Some? && Published(c, Exec(c, s, moves + more).dest.value, s.publishers[i].job)
  {
    hide Apply, Initial, Exec;
    ExecKeeps(c, s, moves);
    var t := Exec(c, s, moves);
    assert t.publishers[i] in t.publishers;
    if t.publishers[i].phase.Returned? {
      assert MANIFEST in t.dest.value;
      PresentForever(c, s, moves, more);
    }
  }

  /** Any two publishers that returned wanted the same files. */
  lemma ReturnedAgree(c: Scheme, s: State, moves: seq<Move>, a: nat, b: nat)
    requires Sound(c) && Initial(c, s) && a < |s.publishers| && b < |s.publishers|
    ensures |Exec(c, s, moves).publishers| == |s.publishers|
    ensures Exec(c, s, moves).publishers[a].phase.Returned? && Exec(c, s, moves).publishers[b].phase.Returned? ==>
      var (x, y) := (s.publishers[a].job, s.publishers[b].job);
      x.manifest == y.manifest && forall o :: o in x.outputs <==> o in y.outputs
  {
    assert s.publishers[a] in s.publishers && s.publishers[b] in s.publishers;
    ReturnedPublished(c, s, moves, [], a);
    ReturnedPublished(c, s, moves, [], b);
    NilRight(moves);
    var t := Exec(c, s, moves);
    hide Exec, Published;
    if t.publishers[a].phase.Returned? && t.publishers[b].phase.Returned? {
      PublishedAgree(c, t.dest.value, s.publishers[a].job, s.publishers[b].job);
    }
  }

  /** A publisher that finds its own files there cannot be turned away by the verification. */
  lemma SameFilesAccepted(c: Scheme, dest: Files, p: Publisher, left: Option<set<string>>)
    requires Sound(c) && WellFormed(c, p.job) && Holds(c, Some(dest), p) && Published(c, dest, p.job)
    requires !p.phase.Raised?
    ensures Advance(c, Some(dest), p, left).0 == Some(dest) && !Advance(c, Some(dest), p, left).1.phase.Raised?
  {
    assert MANIFEST in dest;
  }

  // ----- a publisher that nobody disturbs -----

  predicate Ended(p: Publisher) {
    p.phase.Returned? || p.phase.Raised?
  }

  /** So many steps of one publisher, its clean-up complete. */
  function Steps(c: Scheme, dest: Option<Files>, p: Publisher, n: nat): (Option<Files>, Publisher)
    decreases n
  {
    if n == 0 then (dest, p)
    else
      var (d, q) := Advance(c, dest, p, None);
      Steps(c, d, q, n - 1)
  }

  /** It has ended: with its files at the destination if and only if it returned. */
  predicate Concluded(c: Scheme, dest: Option<Files>, p: Publisher) {
    Ended(p) && p.staging == None && (p.phase.Returned? <==> dest.Some? && Published(c, dest.value, p.job))
  }

  lemma {:induction false} EndedStays(c: Scheme, dest: Option<Files>, p: Publisher, n: nat)
    requires Ended(p)
    ensures Steps(c, dest, p, n) == (dest, p)
  {
    if n > 0 { EndedStays(c, dest, p, n - 1); }
  }

  /** Some step leads there, and the rest of them from there on. */
  lemma OneStep(c: Scheme, dest: Option<Files>, p: Publisher, n: nat)
    requires n > 0
    ensures var (d, q) := Advance(c, dest, p, None); Steps(c, dest, p, n) == Steps(c, d, q, n - 1)
  {}

  lemma {:induction false} HashingEnds(c: Scheme, dest: Option<Files>, p: Publisher, n: nat)
    requires Sound(c) && WellFormed(c, p.job) && p.phase.Hashing? && Holds(c, dest, p) && p.staging == None
    requires n > 0 && n > |p.job.outputs| - p.phase.k
    ensures Steps(c, dest, p, n).0 == dest && Steps(c, dest, p, n).1.job == p.job
    ensures Concluded(c, dest, Steps(c, dest, p, n).1)
    decreases n
  {
    hide *;
    var (d, q) := Advance(c, dest, p, None);
    HashingHolds(c, dest, p, None);
    HashingStep(c, dest, p);
    OneStep(c, dest, p, n);
    if q.phase.Hashing? {
      HashingEnds(c, dest, q, n - 1);
    } else {
      ConcludedEnds(c, dest, q);
      EndedStays(c, dest, q, n - 1);
    }
  }

  lemma ConcludedEnds(c: Scheme, dest: Option<Files>, p: Publisher)
    requires Concluded(c, dest, p)
    ensures Ended(p)
  {}

  lemma NameOf(job: Job, o: (string, Bytes))
    requires o in job.outputs
    ensures o.0 in Names(job)
  {}

  lemma HashingStep(c: Scheme, dest: Option<Files>, p: Publisher)
    requires Sound(c) && WellFormed(c, p.job) && p.phase.Hashing? && Holds(c, dest, p) && p.staging == None
    ensures var (d, q) := Advance(c, dest, p, None);
      && d == dest && q.job == p.job && q.staging == None
      && (q.phase.Hashing? ==> q.phase.k == p.phase.k + 1 <= |p.job.outputs|)
      && (!q.phase.Hashing? ==> Concluded(c, dest, q))
  {
    var k, outputs := p.phase.k, p.job.outputs;
    if k < |outputs| {
      NameOf(p.job, outputs[k]);
      hide Names;
      assert outputs[k] in outputs;
    } else {
      hide Names;
      assert outputs[..k] == outputs;
    }
  }

  /** Until the first output is compared, a mismatch ends the publisher. */
  lemma ReadingStep(c: Scheme, dest: Option<Files>, p: Publisher)
    requires Sound(c) && WellFormed(c, p.job) && p.staging == None
    requires p.phase.Reading? || (p.phase.Listing? && Holds(c, dest, p))
    ensures var (d, q) := Advance(c, dest, p, None);
      && d == dest && q.job == p.job && q.staging == None
      && if p.phase.Reading? && q.phase.Listing? then Holds(c, dest, q)
         else if p.phase.Listing? && q.phase.Hashing? then q.phase.k == 0 && Holds(c, dest, q)
         else Concluded(c, dest, q)
  {
    hide Names;
    assert p.job.outputs[..0] == [];
  }

  /** With something at the destination: only the verification. */
  lemma ReadingEnds(c: Scheme, dest: Option<Files>, p: Publisher, n: nat)
    requires Sound(c) && WellFormed(c, p.job) && p.phase.Reading? && p.staging == None
    requires n >= |p.job.outputs| + 3
    ensures Steps(c, dest, p, n).0 == dest && Steps(c, dest, p, n).1.job == p.job
    ensures Concluded(c, dest, Steps(c, dest, p, n).1)
  {
    hide *;
    var (d, q) := Advance(c, dest, p, None);
    ReadingStep(c, dest, p);
    OneStep(c, dest, p, n);
    if q.phase.Listing? {
      var (e, r) := Advance(c, dest, q, None);
      ReadingStep(c, dest, q);
      OneStep(c, dest, q, n - 1);
      if r.phase.Hashing? {
        HashingEnds(c, dest, r, n - 2);
      } else {
        ConcludedEnds(c, dest, r);
        EndedStays(c, dest, r, n - 2);
      }
    } else {
      ConcludedEnds(c, dest, q);
      EndedStays(c, dest, q, n - 1);
    }
  }

  lemma {:induction false} WritingEnds(c: Scheme, p: Publisher, n: nat)
    requires Sound(c) && WellFormed(c, p.job) && p.phase.Writing? && Holds(c, None, p)
    requires n >= |p.job.outputs| - p.phase.k + 2
    ensures Steps(c, None, p, n).0 == Some(Snapshot(c, p.job)) && Steps(c, None, p, n).1.job == p.job
    ensures Steps(c, None, p, n).1.phase.Returned? && Steps(c, None, p, n).1.staging == None
    decreases n
  {
    var q := Advance(c, None, p, None).1;
    WritingHolds(c, None, p, None);
    hide Snapshot;
    if q.phase.Writing? {
      hide Holds;
      WritingEnds(c, q, n - 1);
    } else {
      var (d, r) := Advance(c, None, q, None);
      EndedStays(c, d, r, n - 2);
    }
  }

  /** A publisher that nobody disturbs ends, having done what `Place.Publish` promises: an absent
      destination becomes its snapshot, a present one stays and is verified. */
  lemma EndsAlone(c: Scheme, dest: Option<Files>, p: Publisher)
    requires Sound(c) && WellFormed(c, p.job) && p.phase.Begin? && p.staging == None
    ensures var (d, q) := Steps(c, dest, p, |p.job.outputs| + 4);
      && (dest.None? ==> d == Some(Snapshot(c, p.job)))
      && (dest.Some? ==> d == dest)
      && q.job == p.job && Concluded(c, d, q)
  {
    var q := Advance(c, dest, p, None).1;
    if dest.Some? {
      ReadingEnds(c, dest, q, |p.job.outputs| + 3);
    } else {
      WritingEnds(c, q, |p.job.outputs| + 3);
      SnapshotPublished(c, p.job);
    }
  }

  // ----- staging directories -----

  /** Files that belong to a publisher's snapshot, unchanged. */
  predicate PartOf(staging: Option<Files>, whole: Files) {
    staging.Some? ==> forall name | name in staging.value :: name in whole && staging.value[name] == whole[name]
  }

  /** What is true of a staging directory at any time; `tidy` says that no clean-up failed. */
  predicate Staged(c: Scheme, p: Publisher, tidy: bool) {
    && PartOf(p.staging, Snapshot(c, p.job))
    && (tidy && Ended(p) ==> p.staging == None)
  }

  lemma WrittenPart(c: Scheme, job: Job, k: nat)
    requires WellFormed(c, job) && k <= |job.outputs|
    ensures PartOf(Some(Written(job.outputs[..k])), Snapshot(c, job))
  {
    var front := job.outputs[..k];
    Distinguished(c, job, k);
    WrittenIs(front);
    hide Written, WellFormed, Names;
    forall name | name in Written(front)
      ensures name in Snapshot(c, job) && Written(front)[name] == Snapshot(c, job)[name]
    {
      var o :| o in front && o.0 == name;
      WrittenHas(c, job, o);
    }
  }

  lemma WrittenHas(c: Scheme, job: Job, o: (string, Bytes))
    requires WellFormed(c, job) && o in job.outputs
    ensures o.0 != MANIFEST && o.0 in Written(job.outputs) && Written(job.outputs)[o.0] == o.1
  {
    WrittenIs(job.outputs);
    hide Written, Names;
  }

  /** What stands in a part of the outputs. */
  lemma Distinguished(c: Scheme, job: Job, k: nat)
    requires WellFormed(c, job) && k <= |job.outputs|
    ensures var front := job.outputs[..k];
      && (forall i, j | 0 <= i < j < k :: front[i].0 != front[j].0)
      && (forall o | o in front :: o in job.outputs && o.0 != MANIFEST)
  {
    var front := job.outputs[..k];
    assert forall i | 0 <= i < k :: front[i] == job.outputs[i];
    hide Names;
  }

  lemma AdvanceStaged(c: Scheme, dest: Option<Files>, p: Publisher, left: Option<set<string>>)
    requires Sound(c) && WellFormed(c, p.job) && Holds(c, dest, p) && Staged(c, p, false) && !Ended(p)
    ensures Staged(c, Advance(c, dest, p, left).1, left.None?)
  {
    var q := Advance(c, dest, p, left).1;
    if q.phase.Writing? || q.phase.Renaming? {
      AdvanceHolds(c, dest, p, left);
      if q.phase.Writing? { WrittenPart(c, p.job, q.phase.k); }
    } else {
      hide Snapshot, Published, Names;
      assert q.staging == None || q.staging == p.staging || q.staging == Swept(p.staging, left);
    }
  }

  lemma StepStaged(c: Scheme, s: State, m: Move, i: nat, tidy: bool)
    requires Sound(c) && Inv(c, s) && i < |s.publishers| && Staged(c, s.publishers[i], tidy)
    requires tidy && m.i == i ==> m.left.None?
    ensures |Apply(c, s, m).publishers| == |s.publishers| && Staged(c, Apply(c, s, m).publishers[i], tidy)
  {
    hide Snapshot, Advance, Holds, WellFormed;
    var p := s.publishers[i];
    assert p in s.publishers;
    if m.i == i && !Ended(p) { AdvanceStaged(c, s.dest, p, m.left); }
  }

  /** Whatever a publisher leaves in a staging directory is a part of its own snapshot; and it
      leaves none behind when it ends, unless its clean-up failed. */
  lemma {:induction false} StagingLeft(c: Scheme, s: State, moves: seq<Move>, i: nat)
    requires Sound(c) && Initial(c, s) && i < |s.publishers|
    ensures |Exec(c, s, moves).publishers| == |s.publishers|
    ensures var p := Exec(c, s, moves).publishers[i];
      && PartOf(p.staging, Snapshot(c, s.publishers[i].job))
      && (Ended(p) && (forall m | m in moves && m.i == i :: m.left.None?) ==> p.staging == None)
  {
    var tidy := forall m | m in moves && m.i == i :: m.left.None?;
    StagedRun(c, s, moves, i, tidy);
    ExecKeeps(c, s, moves);
  }

  lemma {:induction false} StagedRun(c: Scheme, s: State, moves: seq<Move>, i: nat, tidy: bool)
    requires Sound(c) && Initial(c, s) && i < |s.publishers|
    requires tidy ==> forall m | m in moves && m.i == i :: m.left.None?
    ensures |Exec(c, s, moves).publishers| == |s.publishers| && Staged(c, Exec(c, s, moves).publishers[i], tidy)
  {
    if moves == [] {
      assert s.publishers[i] in s.publishers;
    } else {
      hide Inv, Apply, Initial, Staged;
      var front, last := moves[..|moves| - 1], moves[|moves| - 1];
      assert moves == front + [last];
      StagedRun(c, s, front, i, tidy);
      ExecKeeps(c, s, front);
      StepStaged(c, Exec(c, s, front), last, i, tidy);
    }
  }
}
