/** The signing-key cache: coroutines on one event loop, one lock, one clock. */
module Jwks {
  import opened Text

  type Key = string
  type Keys = Option<seq<Key>>

  const TTL := 300.0

  /** What a request to the identity provider gives: an error, or a key set, None when the
      reply says null. */
  datatype Reply = Broken | Got(keys: Keys)

  datatype Outcome = Pending | Filled | Emptied | Lost

  /** One request: when it started and what became of it. */
  datatype Fetch = Fetch(start: real, outcome: Outcome)

  /** What a caller is about to do while its client closes: return keys, handle an error, or stop. */
  datatype Ending = Return(keys: Keys) | Raise | Stop

  datatype Task = Idle | Waiting | Fetching(start: real) | Closing(ending: Ending) | Served(keys: Keys) | Unavailable
                | Cancelled

  datatype State = State(keys: Keys, fetchedAt: real, holder: Option<nat>, tasks: seq<Task>, clock: real, log: seq<Fetch>)

  /** What happens at an await: time passes, a caller arrives, the lock is granted to a waiting
      caller, the reply to the running request arrives, its client has closed or failed to, a
      caller is cancelled. */
  datatype Event = Tick(d: real) | Call(i: nat) | Enter(i: nat) | Respond(i: nat, reply: Reply)
                 | Closed(i: nat, failed: bool) | Cancel(i: nat)

  /** `None` and the empty list both count as no keys. */
  predicate HasKeys(keys: Keys) {
    keys.Some? && keys.value != []
  }

  predicate Fresh(s: State) {
    HasKeys(s.keys) && s.clock - s.fetchedAt < TTL
  }

  function Close(log: seq<Fetch>, outcome: Outcome): seq<Fetch> {
    if log == [] then [] else log[|log| - 1 := log[|log| - 1].(outcome := outcome)]
  }

  /** The globals and the caller after a reply, the lock still held. */
  function Answer(s: State, i: nat, reply: Reply): State
    requires i < |s.tasks| && s.tasks[i].Fetching?
  {
    match reply
    case Broken => s.(log := Close(s.log, Lost), tasks := s.tasks[i := Closing(Raise)])
    case Got(keys) =>
      s.(keys := keys, fetchedAt := s.tasks[i].start,
         log := Close(s.log, if HasKeys(keys) then Filled else Emptied),
         tasks := s.tasks[i := Closing(if keys.Some? then Return(keys) else Raise)])
  }

  /** How a caller ends once its client has closed; any error falls back on cached keys. */
  function Conclude(keys: Keys, ending: Ending, failed: bool): Task {
    if failed || ending.Raise? then (if HasKeys(keys) then Served(keys) else Unavailable)
    else if ending.Return? then Served(ending.keys)
    else Cancelled
  }

  function Apply(s: State, e: Event): State {
    match e
    case Tick(d) => if d < 0.0 then s else s.(clock := s.clock + d)
    case Call(i) =>
      if i >= |s.tasks| || !s.tasks[i].Idle? then s
      else s.(tasks := s.tasks[i := if Fresh(s) then Served(s.keys) else Waiting])
    case Enter(i) =>
      if i >= |s.tasks| || !s.tasks[i].Waiting? || s.holder.Some? then s
      else if Fresh(s) then s.(tasks := s.tasks[i := Served(s.keys)])
      else s.(holder := Some(i), tasks := s.tasks[i := Fetching(s.clock)], log := s.log + [Fetch(s.clock, Pending)])
    case Respond(i, reply) =>
      if i >= |s.tasks| || !s.tasks[i].Fetching? then s else Answer(s, i, reply)
    case Closed(i, failed) =>
      if i >= |s.tasks| || !s.tasks[i].Closing? then s
      else s.(holder := None, tasks := s.tasks[i := Conclude(s.keys, s.tasks[i].ending, failed)])
    case Cancel(i) =>
      if i >= |s.tasks| then s
      else if s.tasks[i].Waiting? then s.(tasks := s.tasks[i := Cancelled])
      else if s.tasks[i].Fetching? then s.(tasks := s.tasks[i := Closing(Stop)], log := Close(s.log, Lost))
      else if s.tasks[i].Closing? then s.(holder := None, tasks := s.tasks[i := Cancelled])
      else s
  }

  /** Time passes by any amount; keys that are there are those of a list that is not empty. */
  lemma TickMeans(s: State, d: real)
    ensures d >= 0.0 ==> Apply(s, Tick(d)) == s.(clock := s.clock + d)
    ensures HasKeys(s.keys) <==> s.keys != None && s.keys != Some([])
  {}

  function Run(s: State, events: seq<Event>): State {
    if events == [] then s else Apply(Run(s, events[..|events| - 1]), events[|events| - 1])
  }

  /** The module globals, updated between awaits. */
  class Cache {
    var keys: Keys
    var fetchedAt: real
    var holder: Option<nat>
    var tasks: seq<Task>
    var clock: real
    ghost var log: seq<Fetch>

    ghost function Now(): State
      reads this
    {
      State(keys, fetchedAt, holder, tasks, clock, log)
    }

    constructor (callers: nat, clock: real)
      ensures Now() == Start(callers, clock)
    {
      keys, fetchedAt, holder, this.clock, log := None, 0.0, None, clock, [];
      tasks := seq(callers, _ => Idle);
    }

    /** The fast path, without the lock. */
    method Begin(i: nat)
      requires i < |tasks| && tasks[i].Idle?
      modifies this
      ensures Now() == Apply(old(Now()), Call(i))
    {
      if keys.Some? && keys.value != [] && clock - fetchedAt < TTL {
        tasks := tasks[i := Served(keys)];
      } else {
        tasks := tasks[i := Waiting];
      }
    }

    /** The lock is granted: look again, then start the request. */
    method Resume(i: nat)
      requires i < |tasks| && tasks[i].Waiting? && holder.None?
      modifies this
      ensures Now() == Apply(old(Now()), Enter(i))
    {
      if keys.Some? && keys.value != [] && clock - fetchedAt < TTL {
        tasks := tasks[i := Served(keys)];
      } else {
        holder := Some(i);
        tasks := tasks[i := Fetching(clock)];
        log := log + [Fetch(clock, Pending)];
      }
    }

    /** The reply arrives: the globals are set, and the client starts to close. */
    method Receive(i: nat, reply: Reply)
      requires i < |tasks| && tasks[i].Fetching?
      modifies this
      ensures Now() == Apply(old(Now()), Respond(i, reply))
    {
      match reply {
        case Got(received) =>
          keys, fetchedAt := received, tasks[i].start;
          log := Close(log, if HasKeys(received) then Filled else Emptied);
          tasks := tasks[i := Closing(if received.Some? then Return(received) else Raise)];
        case Broken =>
          log := Close(log, Lost);
          tasks := tasks[i := Closing(Raise)];
      }
    }

    /** The client has closed, or failed to: the caller ends and the lock is released on every path. */
    method Finish(i: nat, failed: bool)
      requires i < |tasks| && tasks[i].Closing?
      modifies this
      ensures Now() == Apply(old(Now()), Closed(i, failed))
    {
      var ending := tasks[i].ending;
      if failed || ending.Raise? {
        tasks := tasks[i := if keys.Some? && keys.value != [] then Served(keys) else Unavailable];
      } else {
        tasks := tasks[i := if ending.Return? then Served(ending.keys) else Cancelled];
      }
      holder := None;
    }
  }

  function Start(callers: nat, clock: real): State {
    State(None, 0.0, None, seq(callers, _ => Idle), clock, [])
  }

  // ----- what every interleaving keeps -----

  predicate Sets(f: Fetch) {
    f.outcome.Filled? || f.outcome.Emptied?
  }

  /** The last request that set the keys, counted from 1; 0 when there is none. */
  function LastSet(log: seq<Fetch>): (n: nat)
    ensures n <= |log|
    ensures n > 0 ==> Sets(log[n - 1])
    ensures forall k | n <= k < |log| :: !Sets(log[k])
  {
    if log == [] then 0
    else if Sets(log[|log| - 1]) then |log|
    else LastSet(log[..|log| - 1])
  }

  /** After a request that brought keys, none starts within the time to live. */
  predicate Spaced(log: seq<Fetch>) {
    forall a, b | 0 <= a < b < |log| && log[a].outcome.Filled? :: log[b].start >= log[a].start + TTL
  }

  /** Requests start in order, none in the future, and only the last can be running. */
  predicate Past(log: seq<Fetch>, clock: real, open: bool) {
    && (forall k | 0 <= k < |log| :: log[k].start <= clock)
    && (forall j, k | 0 <= j < k < |log| :: log[j].start <= log[k].start)
    && (forall k | 0 <= k < |log| - 1 :: !log[k].outcome.Pending?)
    && (log != [] ==> log[|log| - 1].outcome.Pending? == open)
    && (open ==> log != [])
  }

  /** The globals are what the last setting request left. */
  predicate Current(log: seq<Fetch>, keys: Keys, fetchedAt: real) {
    var n := LastSet(log);
    if n == 0 then !HasKeys(keys)
    else HasKeys(keys) == log[n - 1].outcome.Filled? && fetchedAt == log[n - 1].start
  }

  predicate Holding(task: Task) {
    task.Fetching? || task.Closing?
  }

  /** The lock holder is the one caller with a request in flight or a client to close; a request
      in flight is the last one logged. */
  predicate SingleFlight(tasks: seq<Task>, holder: Option<nat>, log: seq<Fetch>) {
    && (forall i | 0 <= i < |tasks| && Holding(tasks[i]) :: holder == Some(i))
    && (holder.Some? ==> holder.value < |tasks| && Holding(tasks[holder.value]))
    && (Flying(tasks, holder) ==> log != [] && log[|log| - 1].start == tasks[holder.value].start)
  }

  predicate Flying(tasks: seq<Task>, holder: Option<nat>) {
    holder.Some? && holder.value < |tasks| && tasks[holder.value].Fetching?
  }

  predicate Inv(s: State) {
    && Spaced(s.log)
    && Past(s.log, s.clock, Flying(s.tasks, s.holder))
    && Current(s.log, s.keys, s.fetchedAt)
    && SingleFlight(s.tasks, s.holder, s.log)
  }

  /** Nothing fresh: a request may start now without coming too soon after any other. */
  lemma LateEnough(s: State, a: nat)
    requires Inv(s) && !Fresh(s) && a < |s.log| && s.log[a].outcome.Filled?
    ensures s.clock >= s.log[a].start + TTL
  {
    var n := LastSet(s.log);
    assert Sets(s.log[a]);
    assert a < n;
    hide SingleFlight, LastSet;
    if a < n - 1 { assert s.log[n - 1].start >= s.log[a].start + TTL; }
  }

  lemma OpenKeeps(log: seq<Fetch>, clock: real)
    requires Spaced(log) && Past(log, clock, false)
    requires forall a | 0 <= a < |log| && log[a].outcome.Filled? :: clock >= log[a].start + TTL
    ensures Spaced(log + [Fetch(clock, Pending)]) && Past(log + [Fetch(clock, Pending)], clock, true)
  {
    var after := log + [Fetch(clock, Pending)];
    assert forall k | 0 <= k < |log| :: after[k] == log[k];
    assert after[|log|] == Fetch(clock, Pending);
    forall a, b | 0 <= a < b < |after| && after[a].outcome.Filled?
      ensures after[b].start >= after[a].start + TTL
    {
      assert log[a].outcome.Filled?;
    }
  }

  lemma OpenSetsNothing(log: seq<Fetch>, clock: real)
    ensures LastSet(log + [Fetch(clock, Pending)]) == LastSet(log)
  {
    assert (log + [Fetch(clock, Pending)])[..|log|] == log;
  }

  lemma CloseKeeps(log: seq<Fetch>, clock: real, outcome: Outcome)
    requires Spaced(log) && Past(log, clock, true) && !outcome.Pending?
    ensures Spaced(Close(log, outcome)) && Past(Close(log, outcome), clock, false)
  {
    hide LastSet;
  }

  lemma CloseSets(log: seq<Fetch>, outcome: Outcome)
    requires log != [] && log[|log| - 1].outcome.Pending? && !outcome.Pending?
    ensures outcome.Lost? ==> LastSet(Close(log, outcome)) == LastSet(log) < |log|
    ensures !outcome.Lost? ==> LastSet(Close(log, outcome)) == |log|
    ensures |Close(log, outcome)| == |log| && Close(log, outcome)[|log| - 1] == Fetch(log[|log| - 1].start, outcome)
    ensures forall k | 0 <= k < |log| - 1 :: Close(log, outcome)[k] == log[k]
  {
    var c := Close(log, outcome);
    assert c[..|c| - 1] == log[..|log| - 1];
  }

  lemma EnterKeeps(s: State, i: nat)
    requires Inv(s)
    ensures Inv(Apply(s, Enter(i)))
  {
    hide Spaced, Past, Current, LastSet, SingleFlight, Fresh;
    if i < |s.tasks| && s.tasks[i].Waiting? && s.holder.None? {
      if Fresh(s) {
        ServedKeeps(s.tasks, s.log, i);
      } else {
        OpenRequest(s);
        FlightStarts(s.tasks, s.log, s.clock, i);
      }
    }
  }

  lemma ServedKeeps(tasks: seq<Task>, log: seq<Fetch>, i: nat)
    requires i < |tasks| && SingleFlight(tasks, None, log)
    ensures forall keys :: SingleFlight(tasks[i := Served(keys)], None, log)
  {}

  lemma FlightStarts(tasks: seq<Task>, log: seq<Fetch>, clock: real, i: nat)
    requires i < |tasks| && SingleFlight(tasks, None, log)
    ensures SingleFlight(tasks[i := Fetching(clock)], Some(i), log + [Fetch(clock, Pending)])
  {}

  /** A request may start now. */
  lemma OpenRequest(s: State)
    requires Inv(s) && !Fresh(s) && s.holder.None?
    ensures var log := s.log + [Fetch(s.clock, Pending)];
      Spaced(log) && Past(log, s.clock, true) && Current(log, s.keys, s.fetchedAt)
  {
    forall a | 0 <= a < |s.log| && s.log[a].outcome.Filled?
      ensures s.clock >= s.log[a].start + TTL
    {
      LateEnough(s, a);
    }
    OpenKeeps(s.log, s.clock);
    OpenSetsNothing(s.log, s.clock);
    hide Spaced, Past, LastSet, SingleFlight;
  }

  /** The request in flight ends, whatever its outcome. */
  lemma EndKeeps(s: State, i: nat, outcome: Outcome, ending: Ending)
    requires Inv(s) && i < |s.tasks| && s.tasks[i].Fetching? && !outcome.Pending?
    ensures Spaced(Close(s.log, outcome)) && Past(Close(s.log, outcome), s.clock, false)
    ensures outcome.Lost? ==> Current(Close(s.log, outcome), s.keys, s.fetchedAt)
    ensures forall keys: Keys :: (outcome.Filled? && HasKeys(keys)) || (outcome.Emptied? && !HasKeys(keys)) ==>
      Current(Close(s.log, outcome), keys, s.tasks[i].start)
    ensures var tasks := s.tasks[i := Closing(ending)];
      SingleFlight(tasks, s.holder, Close(s.log, outcome)) && !Flying(tasks, s.holder)
  {
    assert Holding(s.tasks[i]) && s.holder == Some(i);
    CloseKeeps(s.log, s.clock, outcome);
    CloseSets(s.log, outcome);
    hide Spaced, LastSet, Close;
  }

  lemma RespondKeeps(s: State, i: nat, reply: Reply)
    requires Inv(s)
    ensures Inv(Apply(s, Respond(i, reply)))
  {
    if i < |s.tasks| && s.tasks[i].Fetching? {
      EndKeeps(s, i, match reply case Broken => Lost case Got(keys) => if HasKeys(keys) then Filled else Emptied,
               if reply.Got? && reply.keys.Some? then Return(reply.keys) else Raise);
      hide Spaced, Past, Current, SingleFlight, Close, Flying;
    }
  }

  /** Releasing the lock. */
  lemma ReleaseKeeps(s: State, i: nat, task: Task)
    requires Inv(s) && i < |s.tasks| && s.tasks[i].Closing? && !Holding(task)
    ensures SingleFlight(s.tasks[i := task], None, s.log) && !Flying(s.tasks, s.holder)
  {
    assert Holding(s.tasks[i]);
    hide Spaced, Past, Current;
  }

  lemma ClosedKeeps(s: State, i: nat, failed: bool)
    requires Inv(s)
    ensures Inv(Apply(s, Closed(i, failed)))
  {
    if i < |s.tasks| && s.tasks[i].Closing? {
      ReleaseKeeps(s, i, Conclude(s.keys, s.tasks[i].ending, failed));
      hide Spaced, Past, Current, SingleFlight;
    }
  }

  lemma CancelKeeps(s: State, i: nat)
    requires Inv(s)
    ensures Inv(Apply(s, Cancel(i)))
  {
    if i < |s.tasks| {
      if s.tasks[i].Fetching? {
        EndKeeps(s, i, Lost, Stop);
        hide Spaced, Past, Current, SingleFlight, Close, Flying;
      } else if s.tasks[i].Closing? {
        ReleaseKeeps(s, i, Cancelled);
        hide Spaced, Past, Current, SingleFlight;
      } else {
        hide Spaced, Past, Current, Close;
      }
    }
  }

  lemma QuietKeeps(s: State, e: Event)
    requires Inv(s) && (e.Tick? || e.Call?)
    ensures Inv(Apply(s, e))
  {
    hide Spaced, Current;
  }

  lemma {:induction false} RunKeeps(callers: nat, clock: real, events: seq<Event>)
    ensures Inv(Run(Start(callers, clock), events))
  {
    if events != [] {
      var s, e := Run(Start(callers, clock), events[..|events| - 1]), events[|events| - 1];
      RunKeeps(callers, clock, events[..|events| - 1]);
      hide Inv, Apply, Start;
      match e {
        case Enter(i) => EnterKeeps(s, i);
        case Respond(i, reply) => RespondKeeps(s, i, reply);
        case Closed(i, failed) => ClosedKeeps(s, i, failed);
        case Cancel(i) => CancelKeeps(s, i);
        case _ => QuietKeeps(s, e);
      }
    }
  }

  /** However calls, replies and cancellations interleave, at most one request is in flight, and
      after one that started at `t` and brought keys, no further one starts before `t + 300`. */
  lemma OneFlightAndSpaced(callers: nat, clock: real, events: seq<Event>)
    ensures var s := Run(Start(callers, clock), events);
      && (forall i, j | 0 <= i < |s.tasks| && 0 <= j < |s.tasks| && s.tasks[i].Fetching? && s.tasks[j].Fetching? :: i == j)
      && (forall a, b | 0 <= a < b < |s.log| && s.log[a].outcome.Filled? :: s.log[b].start >= s.log[a].start + TTL)
  {
    RunKeeps(callers, clock, events);
  }

  /** Keys are served without a request exactly while less than five minutes have passed since the
      start of the last request that set them, and that one brought some. */
  lemma ServedWhileFresh(callers: nat, clock: real, events: seq<Event>, i: nat)
    requires var s := Run(Start(callers, clock), events);
      i < |s.tasks| && (s.tasks[i].Idle? || (s.tasks[i].Waiting? && s.holder.None?))
    ensures var s := Run(Start(callers, clock), events);
      var t := Apply(s, if s.tasks[i].Idle? then Call(i) else Enter(i));
      var n := LastSet(s.log);
      && (t.tasks[i].Served? <==> n > 0 && s.log[n - 1].outcome.Filled? && s.clock - s.log[n - 1].start < 300.0)
      && (t.tasks[i].Served? ==> t.tasks[i].keys == s.keys && s.keys.Some? && s.keys.value != [])
  {
    RunKeeps(callers, clock, events);
    hide Run, LastSet, Spaced, Past;
  }

  /** A reply with an empty list serves the empty list, one that says null fails its caller, and
      from both on no keys are cached. */
  lemma NoKeysReply(s: State, i: nat, keys: Keys)
    requires i < |s.tasks| && s.tasks[i].Fetching? && (keys == None || keys == Some([]))
    ensures var t := Apply(Apply(s, Respond(i, Got(keys))), Closed(i, false));
      t.keys == keys && t.tasks[i] == if keys.Some? then Served(keys) else Unavailable
  {}

  /** Cached keys go exactly when a reply carries none; a failed refresh serves the old ones,
      whether or not its client closes properly. */
  lemma KeysSurvive(s: State, e: Event)
    requires Inv(s) && HasKeys(s.keys)
    ensures HasKeys(Apply(s, e).keys) <==>
      !(e.Respond? && e.i < |s.tasks| && s.tasks[e.i].Fetching? && e.reply.Got? && !HasKeys(e.reply.keys))
    ensures e.Respond? && e.reply.Broken? && e.i < |s.tasks| && s.tasks[e.i].Fetching? ==>
      forall failed :: var t := Apply(Apply(s, e), Closed(e.i, failed)); t.keys == s.keys && t.tasks[e.i] == Served(s.keys)
  {}

  /** Callers that waited for a request that brought keys are served those keys without
      another one, when they get the lock within the time to live. */
  lemma WaitersShare(s: State, i: nat, reply: Reply, failed: bool, j: nat)
    requires Inv(s) && i < |s.tasks| && s.tasks[i].Fetching? && reply.Got? && HasKeys(reply.keys)
    requires j < |s.tasks| && s.tasks[j].Waiting? && s.clock < s.tasks[i].start + TTL
    ensures var t := Apply(Apply(Apply(s, Respond(i, reply)), Closed(i, failed)), Enter(j));
      t.tasks[i] == t.tasks[j] == Served(reply.keys) && |t.log| == |s.log|
  {}

  /** A caller cancelled while its client closes leaves the keys it fetched to all others. */
  lemma CancelledAfterFetch(s: State, i: nat, reply: Reply)
    requires Inv(s) && i < |s.tasks| && s.tasks[i].Fetching? && reply.Got?
    ensures var t := Apply(Apply(s, Respond(i, reply)), Cancel(i));
      t.tasks[i] == Cancelled && t.holder == None && t.keys == reply.keys && t.fetchedAt == s.tasks[i].start
  {}

  /** The lock is never left behind: it is held exactly while a request is in flight or its
      client closes. */
  lemma LockFollowsFlight(callers: nat, clock: real, events: seq<Event>)
    ensures var s := Run(Start(callers, clock), events);
      s.holder.Some? <==> exists i :: 0 <= i < |s.tasks| && Holding(s.tasks[i])
  {
    RunKeeps(callers, clock, events);
  }
}
