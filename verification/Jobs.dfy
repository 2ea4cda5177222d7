/** The registry of background jobs, and the coroutines that run them. */
module Jobs {
  import opened Text

  type Id = string

  datatype Status = Queued | Running | Done | Failed | Cancelled

  /** A registry entry. */
  datatype Job = Job(status: Status, phase: string, stop: bool, finishedAt: Option<real>, result: Option<string>)

  /** A job's coroutine: still to be spawned by its submitter, created, running, or over. */
  datatype Task = Unspawned | Created(cancel: bool) | Live(cancel: bool) | Over

  /** How a running coroutine can end: with a result, by cancellation, or with an error. */
  datatype Outcome = Completed(result: string) | Stopped | Broke

  /** `missed` records a lookup in the registry that found nothing. */
  datatype State = State(jobs: map<Id, Job>, tasks: map<Id, Task>, missed: bool)

  datatype Event =
    | Submit(id: Id, now: real)
    | Spawn(id: Id)
    | Begin(id: Id)
    | Drop(id: Id)
    | End(id: Id, outcome: Outcome, now: real)
    | Cancel(id: Id)
    | Report(id: Id, phase: string)

  datatype Limits = Limits(maxJobs: nat, ttl: real)

  predicate Terminal(s: Status) {
    s.Done? || s.Failed? || s.Cancelled?
  }

  /** A zero timestamp counts as absent. */
  predicate Expired(j: Job, now: real, ttl: real) {
    j.finishedAt.Some? && j.finishedAt.value != 0.0 && now - j.finishedAt.value > ttl
  }

  function Reap(jobs: map<Id, Job>, now: real, ttl: real): map<Id, Job> {
    map id | id in jobs && !Expired(jobs[id], now, ttl) :: jobs[id]
  }

  function Active(jobs: map<Id, Job>): set<Id> {
    set id | id in jobs && !Terminal(jobs[id].status)
  }

  function Final(outcome: Outcome): Status {
    match outcome
    case Completed(_) => Done
    case Stopped => Cancelled
    case Broke => Failed
  }

  function Admit(l: Limits, s: State, id: Id, now: real): State {
    var kept := Reap(s.jobs, now, l.ttl);
    if |Active(kept)| >= l.maxJobs then s.(jobs := kept)
    else s.(jobs := kept[id := Job(Queued, "", false, None, None)], tasks := s.tasks[id := Unspawned])
  }

  function Apply(l: Limits, s: State, e: Event): State {
    match e
    case Submit(id, now) => if id in s.tasks then s else Admit(l, s, id, now)
    case Spawn(id) =>
      if id !in s.tasks || !s.tasks[id].Unspawned? then s
      else if id !in s.jobs then s.(missed := true)
      else s.(tasks := s.tasks[id := Created(false)])
    case Begin(id) =>
      if id !in s.tasks || s.tasks[id] != Created(false) then s
      else if id !in s.jobs then s.(missed := true)
      else s.(tasks := s.tasks[id := Live(false)], jobs := s.jobs[id := s.jobs[id].(status := Running)])
    case Drop(id) =>
      if id in s.tasks && s.tasks[id] == Created(true) then s.(tasks := s.tasks[id := Over]) else s
    case End(id, outcome, now) =>
      if id !in s.tasks || !s.tasks[id].Live? then s
      else if id !in s.jobs then s.(missed := true)
      else
        s.(tasks := s.tasks[id := Over],
           jobs := s.jobs[id := s.jobs[id].(
             status := Final(outcome), finishedAt := Some(now), stop := s.jobs[id].stop || outcome.Stopped?,
             result := if outcome.Completed? then Some(outcome.result) else None)])
    case Cancel(id) =>
      if id in s.jobs && !Terminal(s.jobs[id].status) && id in s.tasks
         && (s.tasks[id].Created? || s.tasks[id].Live?) then
        s.(jobs := s.jobs[id := s.jobs[id].(stop := true)],
           tasks := s.tasks[id := if s.tasks[id].Created? then Created(true) else Live(true)])
      else s
    case Report(id, phase) =>
      if id in s.jobs && s.jobs[id].status.Running? then s.(jobs := s.jobs[id := s.jobs[id].(phase := phase)]) else s
  }

  function Run(l: Limits, s: State, events: seq<Event>): State {
    if events == [] then s else Apply(l, Run(l, s, events[..|events| - 1]), events[|events| - 1])
  }

  const EMPTY := State(map[], map[], false)

  /** The registry of the process. */
  class Registry {
    var jobs: map<Id, Job>
    var tasks: map<Id, Task>
    ghost var missed: bool
    const limits: Limits

    ghost function Now(): State
      reads this
    {
      State(jobs, tasks, missed)
    }

    constructor (limits: Limits)
      ensures Now() == EMPTY && this.limits == limits
    {
      jobs, tasks, missed, this.limits := map[], map[], false, limits;
    }

    /** Reap, count, and admit or refuse. */
    method StartJob(id: Id, now: real) returns (admitted: bool)
      requires id !in tasks
      modifies this
      ensures Now() == Apply(limits, old(Now()), Submit(id, now))
      ensures admitted <==> |Active(Reap(old(jobs), now, limits.ttl))| < limits.maxJobs
    {
      var expired := set k | k in jobs && Expired(jobs[k], now, limits.ttl);
      var todo := expired;
      while todo != {}
        invariant todo <= expired
        invariant jobs == map k | k in old(jobs) && k !in expired - todo :: old(jobs)[k]
        invariant tasks == old(tasks) && missed == old(missed)
        decreases |todo|
      {
        var k :| k in todo;
        jobs, todo := jobs - {k}, todo - {k};
      }
      assert expired - todo == expired;
      assert jobs == Reap(old(jobs), now, limits.ttl);
      admitted := |Active(jobs)| < limits.maxJobs;
      if admitted {
        jobs := jobs[id := Job(Queued, "", false, None, None)];
        tasks := tasks[id := Unspawned];
      }
    }

    method SpawnJob(id: Id)
      requires id in tasks && tasks[id].Unspawned?
      modifies this
      ensures Now() == Apply(limits, old(Now()), Spawn(id))
    {
      if id !in jobs {
        missed := true;
        return;
      }
      tasks := tasks[id := Created(false)];
    }

    /** The coroutine's first step: before it, a cancellation never reaches the handlers. */
    method BeginJob(id: Id)
      requires id in tasks && tasks[id] == Created(false)
      modifies this
      ensures Now() == Apply(limits, old(Now()), Begin(id))
    {
      if id !in jobs {
        missed := true;
        return;
      }
      jobs := jobs[id := jobs[id].(status := Running)];
      tasks := tasks[id := Live(false)];
    }

    /** The coroutine ends: record how, and when. */
    method EndJob(id: Id, outcome: Outcome, now: real)
      requires id in tasks && tasks[id].Live?
      modifies this
      ensures Now() == Apply(limits, old(Now()), End(id, outcome, now))
    {
      if id !in jobs {
        missed := true;
        return;
      }
      var job := jobs[id].(result := None);
      match outcome {
        case Completed(result) => job := job.(status := Done, result := Some(result));
        case Stopped => job := job.(status := Cancelled, stop := true);
        case Broke => job := job.(status := Failed);
      }
      jobs := jobs[id := job.(finishedAt := Some(now))];
      tasks := tasks[id := Over];
    }

    method CancelJob(id: Id) returns (known: bool)
      modifies this
      ensures Now() == Apply(limits, old(Now()), Cancel(id)) && known == (id in old(jobs))
    {
      known := id in jobs;
      if known && !Terminal(jobs[id].status) && id in tasks && (tasks[id].Created? || tasks[id].Live?) {
        jobs := jobs[id := jobs[id].(stop := true)];
        tasks := tasks[id := if tasks[id].Created? then Created(true) else Live(true)];
      }
    }
  }

  // ----- what every interleaving keeps -----

  /** An entry and its coroutine agree. */
  predicate Matched(j: Job, t: Task) {
    && (j.finishedAt.Some? <==> Terminal(j.status))
    && match t
       case Unspawned => j.status.Queued?
       case Created(_) => j.status.Queued?
       case Live(_) => j.status.Running?
       case Over => Terminal(j.status) || j.status.Queued?
  }

  predicate Inv(l: Limits, s: State) {
    && !s.missed
    && (forall id | id in s.jobs :: id in s.tasks && Matched(s.jobs[id], s.tasks[id]))
    && (forall id | id in s.tasks && !s.tasks[id].Over? :: id in s.jobs)
    && |Active(s.jobs)| <= l.maxJobs
  }

  lemma {:induction false} SubsetSize(a: set<Id>, b: set<Id>)
    requires a <= b
    ensures |a| <= |b|
  {
    if a != {} {
      var x :| x in a;
      SubsetSize(a - {x}, b - {x});
    }
  }

  /** Reaping drops terminal entries only. */
  lemma ReapKeeps(l: Limits, s: State, now: real)
    requires Inv(l, s)
    ensures Inv(l, s.(jobs := Reap(s.jobs, now, l.ttl)))
  {
    var kept := Reap(s.jobs, now, l.ttl);
    assert Active(kept) <= Active(s.jobs);
    SubsetSize(Active(kept), Active(s.jobs));
    hide Active;
  }

  lemma AdmitKeeps(l: Limits, s: State, id: Id)
    requires Inv(l, s) && id !in s.tasks && |Active(s.jobs)| < l.maxJobs
    ensures Inv(l, s.(jobs := s.jobs[id := Job(Queued, "", false, None, None)], tasks := s.tasks[id := Unspawned]))
  {
    ActiveMore(s.jobs, id);
    hide Active;
  }

  lemma ActiveMore(jobs: map<Id, Job>, id: Id)
    ensures |Active(jobs[id := Job(Queued, "", false, None, None)])| <= |Active(jobs)| + 1
  {
    var more := jobs[id := Job(Queued, "", false, None, None)];
    forall x | x in Active(more)
      ensures x in Active(jobs) + {id}
    {
      if x != id { assert more[x] == jobs[x]; }
    }
    hide Active;
    SubsetSize(Active(more), Active(jobs) + {id});
  }

  lemma ApplySubmit(l: Limits, s: State, e: Event)
    requires Inv(l, s) && e.Submit?
    ensures Inv(l, Apply(l, s, e))
  {
    var kept := s.(jobs := Reap(s.jobs, e.now, l.ttl));
    ReapKeeps(l, s, e.now);
    if e.id !in s.tasks && |Active(kept.jobs)| < l.maxJobs { AdmitKeeps(l, kept, e.id); }
    hide Inv, Reap, Active;
  }

  lemma NoneActivated(l: Limits, s: State, e: Event)
    requires Inv(l, s) && !e.Submit?
    ensures Active(Apply(l, s, e).jobs) <= Active(s.jobs)
  {}

  lemma ApplyOther(l: Limits, s: State, e: Event)
    requires Inv(l, s) && !e.Submit?
    ensures Inv(l, Apply(l, s, e))
  {
    NoneActivated(l, s, e);
    hide Active;
    SubsetSize(Active(Apply(l, s, e).jobs), Active(s.jobs));
  }

  /** Over every interleaving: at most `maxJobs` jobs are queued or running, a finishing time
      marks exactly the terminal ones, and no lookup by a submitter or a coroutine misses. */
  lemma {:induction false} RunKeeps(l: Limits, events: seq<Event>)
    ensures Inv(l, Run(l, EMPTY, events))
  {
    if events == [] {
      assert Active(EMPTY.jobs) == {};
    } else {
      hide Inv, Apply;
      RunKeeps(l, events[..|events| - 1]);
      var s, e := Run(l, EMPTY, events[..|events| - 1]), events[|events| - 1];
      if e.Submit? { ApplySubmit(l, s, e); } else { ApplyOther(l, s, e); }
    }
  }

  /** A terminal entry keeps its status, result and finishing time; only a submission removes an
      entry, and exactly those that ended, other than at time zero, longer ago than the time to live. */
  lemma TerminalStable(l: Limits, s: State, e: Event, id: Id)
    requires Inv(l, s) && id in s.jobs
    ensures var t := Apply(l, s, e);
      && (Terminal(s.jobs[id].status) && id in t.jobs ==> t.jobs[id] == s.jobs[id])
      && (id !in t.jobs <==>
        var ended := s.jobs[id].finishedAt;
        e.Submit? && e.id !in s.tasks && ended.Some? && ended.value != 0.0 && e.now - ended.value > l.ttl)
      && (id !in t.jobs ==> Terminal(s.jobs[id].status))
  {}

  // ----- where results come from -----

  /** The coroutine of this job ended like that, at that time. */
  predicate Ended(events: seq<Event>, id: Id, outcome: Outcome, at: real) {
    End(id, outcome, at) in events
  }

  /** The entry says how the coroutine ended. */
  ghost predicate Explained(events: seq<Event>, id: Id, j: Job) {
    match j.status
    case Done =>
      j.finishedAt.Some? && j.result.Some? && Ended(events, id, Completed(j.result.value), j.finishedAt.value)
    case Cancelled =>
      j.finishedAt.Some? && j.result.None? && j.stop && Ended(events, id, Stopped, j.finishedAt.value)
    case Failed => j.finishedAt.Some? && j.result.None? && Ended(events, id, Broke, j.finishedAt.value)
    case Queued => j.result.None?
    case Running => j.result.None?
  }

  lemma ExplainedLater(events: seq<Event>, e: Event, id: Id, j: Job)
    requires Explained(events, id, j)
    ensures Explained(events + [e], id, j)
  {}

  /** Over every interleaving a job is done exactly with the result its coroutine returned, cancelled
      because it was stopped and failed because it broke, each at the time of that. */
  lemma {:induction false} RunExplains(l: Limits, events: seq<Event>, id: Id)
    requires id in Run(l, EMPTY, events).jobs
    ensures Explained(events, id, Run(l, EMPTY, events).jobs[id])
  {
    if events != [] {
      var n := |events| - 1;
      var front, e := events[..n], events[n];
      assert events == front + [e];
      var s := Run(l, EMPTY, front);
      RunKeeps(l, front);
      if id in s.jobs {
        RunExplains(l, front, id);
        ExplainedLater(front, e, id, s.jobs[id]);
      }
      StepExplains(l, s, events, e, id);
    }
  }

  lemma StepExplains(l: Limits, s: State, events: seq<Event>, e: Event, id: Id)
    requires Inv(l, s) && e in events && id in Apply(l, s, e).jobs
    requires id in s.jobs ==> Explained(events, id, s.jobs[id])
    ensures Explained(events, id, Apply(l, s, e).jobs[id])
  {
    if id in s.jobs { assert Matched(s.jobs[id], s.tasks[id]); }
    hide Active;
  }

  /** A cancellation reaches exactly the jobs that are not over and whose coroutine exists: it asks
      the work to stop and interrupts the coroutine, and changes nothing else. */
  lemma CancelMeans(l: Limits, s: State, id: Id)
    ensures var t := Apply(l, s, Cancel(id));
      if id in s.jobs && s.jobs[id].status in {Queued, Running}
         && id in s.tasks && !s.tasks[id].Unspawned? && !s.tasks[id].Over? then
        && t.jobs == s.jobs[id := s.jobs[id].(stop := true)] && t.missed == s.missed
        && t.tasks == s.tasks[id := if s.tasks[id].Created? then Created(true) else Live(true)]
      else t == s
  {}

  /** Progress is recorded while a job runs. */
  lemma ReportMeans(l: Limits, s: State, id: Id, phase: string)
    ensures var t := Apply(l, s, Report(id, phase));
      if id in s.jobs && s.jobs[id].status == Running then
        t.jobs == s.jobs[id := s.jobs[id].(phase := phase)] && t.tasks == s.tasks && t.missed == s.missed
      else t == s
  {}

  // ----- the job that never ends -----

  /** Cancelled before its first step: the handlers that record the end never run. */
  predicate Doomed(s: State, id: Id) {
    id in s.jobs && s.jobs[id].status.Queued? && id in s.tasks && (s.tasks[id].Over? || s.tasks[id] == Created(true))
  }

  lemma DoomedStays(l: Limits, s: State, e: Event, id: Id)
    requires Inv(l, s) && Doomed(s, id)
    ensures Doomed(Apply(l, s, e), id)
  {}

  /** A job becomes doomed by a cancellation between its creation and its first step, and in
      no other way. */
  lemma DoomedByEarlyCancel(l: Limits, s: State, e: Event, id: Id)
    requires Inv(l, s) && !Doomed(s, id)
    ensures Doomed(Apply(l, s, e), id) <==> e == Cancel(id) && id in s.jobs && s.tasks[id] == Created(false)
  {
    if id in s.jobs { assert Matched(s.jobs[id], s.tasks[id]); }
  }

  lemma {:induction false} DoomedForever(l: Limits, s: State, events: seq<Event>, id: Id)
    requires Inv(l, s) && Doomed(s, id)
    ensures Inv(l, Run(l, s, events)) && Doomed(Run(l, s, events), id)
  {
    if events != [] {
      hide Inv, Apply, Doomed;
      DoomedForever(l, s, events[..|events| - 1], id);
      var t, e := Run(l, s, events[..|events| - 1]), events[|events| - 1];
      if e.Submit? { ApplySubmit(l, t, e); } else { ApplyOther(l, t, e); }
      DoomedStays(l, t, e, id);
    }
  }

  /** What it takes to bring a job to its end. */
  function Rescue(s: State, id: Id): seq<Event>
    requires id in s.tasks
  {
    match s.tasks[id]
    case Unspawned => [Spawn(id), Begin(id), End(id, Broke, 1.0)]
    case Created(_) => [Begin(id), End(id, Broke, 1.0)]
    case Live(_) => [End(id, Broke, 1.0)]
    case Over => []
  }

  lemma RunThree(l: Limits, s: State, a: Event, b: Event, c: Event)
    ensures Run(l, s, [a]) == Apply(l, s, a)
    ensures Run(l, s, [a, b]) == Apply(l, Apply(l, s, a), b)
    ensures Run(l, s, [a, b, c]) == Apply(l, Apply(l, Apply(l, s, a), b), c)
  {
    hide Apply;
    assert [a][..0] == [] && [a, b][..1] == [a] && [a, b, c][..2] == [a, b];
    assert Run(l, s, []) == s;
    assert Run(l, s, [a]) == Apply(l, Run(l, s, [a][..0]), a);
    assert Run(l, s, [a, b]) == Apply(l, Run(l, s, [a, b][..1]), b);
    assert Run(l, s, [a, b, c]) == Apply(l, Run(l, s, [a, b, c][..2]), c);
  }

  lemma RescueWorks(l: Limits, s: State, id: Id)
    requires Inv(l, s) && id in s.jobs && !Doomed(s, id)
    ensures var t := Run(l, s, Rescue(s, id)); id in t.jobs && Terminal(t.jobs[id].status)
  {
    assert Matched(s.jobs[id], s.tasks[id]);
    var a, b, c := Spawn(id), Begin(id), End(id, Broke, 1.0);
    RunThree(l, s, a, b, c);
    RunThree(l, s, b, c, c);
    RunThree(l, s, c, c, c);
    hide Run;
    if s.tasks[id].Over? { NothingRun(l, s); }
  }

  lemma NothingRun(l: Limits, s: State)
    ensures Run(l, s, []) == s
  {}

  /** A job can still reach a terminal status exactly when it was not cancelled before its
      first step. */
  lemma EndsUnlessDoomed(l: Limits, s: State, id: Id)
    requires Inv(l, s) && id in s.jobs
    ensures !Doomed(s, id) <==>
      exists events :: id in Run(l, s, events).jobs && Terminal(Run(l, s, events).jobs[id].status)
  {
    if !Doomed(s, id) {
      RescueWorks(l, s, id);
    } else {
      forall events
        ensures id in Run(l, s, events).jobs ==> !Terminal(Run(l, s, events).jobs[id].status)
      {
        DoomedForever(l, s, events, id);
      }
    }
  }

  /** Once as many jobs as there are slots are doomed, no later submission is admitted. */
  lemma SlotsLost(l: Limits, s: State, doomed: set<Id>, events: seq<Event>, id: Id, now: real)
    requires Inv(l, s) && |doomed| >= l.maxJobs && forall d | d in doomed :: Doomed(s, d)
    ensures var t := Run(l, s, events);
      id !in t.jobs ==> id !in Apply(l, t, Submit(id, now)).jobs
  {
    var t := Run(l, s, events);
    var kept := Reap(t.jobs, now, l.ttl);
    if doomed == {} {
      assert |Active(kept)| >= 0;
    } else {
      forall d | d in doomed
        ensures d in Active(kept)
      {
        DoomedForever(l, s, events, d);
        assert Matched(t.jobs[d], t.tasks[d]);
      }
    }
    SubsetSize(doomed, Active(kept));
  }
}
