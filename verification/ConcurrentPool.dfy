/** The pool that concurrent workers share: a map from ids to values behind a
    lock, beside the engine's pool of live ids (src/stateful.rs). Every
    interleaving of the threads' operations is a sequence of steps. */
module ConcurrentPool {
  import opened Wrappers
  import VP = VariablePool

  datatype Op<T> = Add(value: T) | Reuse | Consume

  datatype Pc<T> =
    | Idle
    | Waiting(op: Op<T>)             // for the lock
    | Holding(op: Op<T>)             // the lock; about to call the engine
    | Registered(id: int, value: T)  // the engine issued `id`
    | Chosen(id: int)                // the engine chose `id` to copy
    | Claimed(id: int)               // the engine consumed `id`
    | Broken                         // an unwrap or an internal assertion failed

  /** A completed operation. */
  datatype Event<T> = Added(id: int, value: T) | Copied(worker: nat, id: int, value: T) | Taken(worker: nat, id: int, value: T)

  /** `used` are the ids the engine has ever issued, to this pool or another. */
  datatype State<T> = State(
    threads: seq<Pc<T>>, holder: Option<nat>, poisoned: bool,
    values: map<int, T>, live: set<int>, used: set<int>, log: seq<Event<T>>)

  datatype Action<T> =
    | Begin(op: Op<T>)
    | Acquire
    | EngineIssues(id: int)
    | EngineChooses(id: int)
    | EngineRefuses        // an engine error, or a draw from an empty pool
    | Insert
    | Clone
    | ClonePanics
    | Remove

  datatype Step<T> = Act(thread: nat, action: Action<T>) | OtherPoolDraws(id: int)

  function Init<T>(n: nat): State<T> {
    State(seq(n, _ => Idle), None, false, map[], {}, {}, [])
  }

  /** Thread `w` goes on to `pc`. */
  function Goes<T>(s: State<T>, w: nat, pc: Pc<T>): State<T>
    requires w < |s.threads|
  {
    s.(threads := s.threads[w := pc])
  }

  /** Thread `w` lets go of the lock. */
  function Release<T>(s: State<T>, w: nat, pc: Pc<T>): State<T>
    requires w < |s.threads|
  {
    s.(threads := s.threads[w := pc], holder := None)
  }

  function Apply<T>(s: State<T>, step: Step<T>): Option<State<T>> {
    match step
    case OtherPoolDraws(id) => if id in s.used then None else Some(s.(used := s.used + {id}))
    case Act(w, a) => if w < |s.threads| then ActOf(s, w, a) else None
  }

  function ActOf<T>(s: State<T>, w: nat, a: Action<T>): Option<State<T>>
    requires w < |s.threads|
  {
    match (s.threads[w], a)
    case (Idle, Begin(op)) => Some(Goes(s, w, Waiting(op)))
    case (Waiting(op), Acquire) =>   // a poisoned lock is taken all the same
      if s.holder == None then Some(Goes(s, w, Holding(op)).(holder := Some(w))) else None
    case (Holding(Add(v)), EngineIssues(id)) =>
      if id in s.used then None
      else Some(Goes(s, w, Registered(id, v)).(used := s.used + {id}, live := s.live + {id}))
    case (Holding(Reuse), EngineChooses(id)) =>
      if id in s.live then Some(Goes(s, w, Chosen(id))) else None
    case (Holding(Consume), EngineChooses(id)) =>
      if id in s.live then Some(Goes(s, w, Claimed(id)).(live := s.live - {id})) else None
    case (Holding(_), EngineRefuses) => Some(Release(s, w, Idle))
    case (Registered(id, v), Insert) =>
      if id in s.values then Some(Release(s, w, Broken).(values := s.values[id := v], poisoned := true))
      else Some(Release(s, w, Idle).(values := s.values[id := v], log := s.log + [Added(id, v)]))
    case (Chosen(id), Clone) =>
      if id !in s.values then Some(Release(s, w, Broken).(poisoned := true))
      else Some(Release(s, w, Idle).(log := s.log + [Copied(w, id, s.values[id])]))
    case (Chosen(id), ClonePanics) =>
      if id !in s.values then Some(Release(s, w, Broken).(poisoned := true))
      else Some(Release(s, w, Idle).(poisoned := true))
    case (Claimed(id), Remove) =>
      if id !in s.values then Some(Release(s, w, Broken).(poisoned := true))
      else Some(Release(s, w, Idle).(values := s.values - {id}, log := s.log + [Taken(w, id, s.values[id])]))
    case _ => None
  }

  function Run<T>(s: State<T>, steps: seq<Step<T>>): Option<State<T>>
    decreases |steps|
  {
    if steps == [] then Some(s)
    else
      var next := Apply(s, steps[0]);
      if next == None then None else Run(next.value, steps[1..])
  }

  // ---------- one pool used by one thread ----------

  /** Every id an event of the log gave out. */
  function Issued<T>(log: seq<Event<T>>): set<int> {
    if log == [] then {}
    else
      var last := log[|log| - 1];
      Issued(log[..|log| - 1]) + (if last.Added? then {last.id} else {})
  }

  /** The values a sequential pool holds after `log`, if it allows it: ids are
      issued once, and what is copied or taken is the value held. */
  function Replay<T(==)>(log: seq<Event<T>>): Option<map<int, T>> {
    if log == [] then Some(map[])
    else
      var before := Replay(log[..|log| - 1]);
      if before == None then None
      else
        var m := before.value;
        match log[|log| - 1]
        case Added(id, v) => if id in Issued(log[..|log| - 1]) then None else Some(m[id := v])
        case Copied(_, id, v) => if id in m && m[id] == v then Some(m) else None
        case Taken(_, id, v) => if id in m && m[id] == v then Some(m - {id}) else None
  }

  // ---------- the invariant ----------

  predicate Locked<T>(pc: Pc<T>) { !pc.Idle? && !pc.Waiting? && !pc.Broken? }

  /** How the map relates to the engine's live ids at each point of an operation. */
  predicate InStep<T>(pc: Pc<T>, values: map<int, T>, live: set<int>, used: set<int>, issued: set<int>) {
    match pc
    case Registered(id, _) => live == values.Keys + {id} && id !in values && id in used && id !in issued
    case Chosen(id) => live == values.Keys && id in live
    case Claimed(id) => values.Keys == live + {id} && id !in live
    case _ => live == values.Keys
  }

  ghost predicate Inv<T>(s: State<T>) {
    && (forall w | 0 <= w < |s.threads| :: s.threads[w] != Broken && (Locked(s.threads[w]) <==> s.holder == Some(w)))
    && (s.holder != None ==>
          s.holder.value < |s.threads|
          && InStep(s.threads[s.holder.value], s.values, s.live, s.used, Issued(s.log)))
    && (s.holder == None ==> s.live == s.values.Keys)
    && Issued(s.log) <= s.used && s.live <= s.used
    && Replay(s.log) == Some(s.values)
  }

  predicate Finishes<T>(a: Action<T>) { a.Insert? || a.Clone? || a.ClonePanics? || a.Remove? }

  predicate Answers<T>(a: Action<T>) { a.EngineIssues? || a.EngineChooses? }

  lemma {:induction false} StepKeepsInv<T>(s: State<T>, step: Step<T>)
    requires Inv(s) && Apply(s, step) != None
    ensures Inv(Apply(s, step).value)
  {
    if step.Act? {
      if Finishes(step.action) {
        FinishKeepsInv(s, step.thread, step.action);
      } else if Answers(step.action) {
        AnswerKeepsInv(s, step.thread, step.action);
      } else {
        StartKeepsInv(s, step.thread, step.action);
      }
    }
  }

  lemma {:induction false} StartKeepsInv<T>(s: State<T>, w: nat, a: Action<T>)
    requires Inv(s) && w < |s.threads| && !Finishes(a) && !Answers(a) && ActOf(s, w, a) != None
    ensures Inv(ActOf(s, w, a).value)
  {}

  lemma {:induction false} AnswerKeepsInv<T>(s: State<T>, w: nat, a: Action<T>)
    requires Inv(s) && w < |s.threads| && Answers(a) && ActOf(s, w, a) != None
    ensures Inv(ActOf(s, w, a).value)
  {}

  lemma {:induction false} FinishKeepsInv<T>(s: State<T>, w: nat, a: Action<T>)
    requires Inv(s) && w < |s.threads| && Finishes(a) && ActOf(s, w, a) != None
    ensures Inv(ActOf(s, w, a).value)
  {
    if a.Insert? { InsertKeepsInv(s, w); } else { DrawKeepsInv(s, w, a); }
  }

  lemma {:induction false} InsertKeepsInv<T>(s: State<T>, w: nat)
    requires Inv(s) && w < |s.threads| && ActOf(s, w, Insert) != None
    ensures Inv(ActOf(s, w, Insert).value)
  {
    var t := ActOf(s, w, Insert).value;
    if t.log != s.log { assert t.log[..|t.log| - 1] == s.log; }
  }

  lemma {:induction false} DrawKeepsInv<T>(s: State<T>, w: nat, a: Action<T>)
    requires Inv(s) && w < |s.threads| && Finishes(a) && !a.Insert? && ActOf(s, w, a) != None
    ensures Inv(ActOf(s, w, a).value)
  {
    var t := ActOf(s, w, a).value;
    if t.log != s.log { assert t.log[..|t.log| - 1] == s.log; }
  }

  lemma {:induction false} RunKeepsInv<T>(s: State<T>, steps: seq<Step<T>>)
    requires Inv(s) && Run(s, steps) != None
    ensures Inv(Run(s, steps).value)
    decreases |steps|
  {
    if steps != [] {
      StepKeepsInv(s, steps[0]);
      RunKeepsInv(Apply(s, steps[0]).value, steps[1..]);
    }
  }

  ghost predicate Reachable<T(!new)>(n: nat, s: State<T>) {
    exists steps :: Run(Init(n), steps) == Some(s)
  }

  /** In every interleaving, with clones that panic and engine calls that fail:
      no unwrap fails, whoever holds the lock is alone, and the completed
      operations are a history of a sequential pool, which ends with exactly the
      map's values; with the lock free, the map's keys are the live ids. */
  lemma {:induction false} InterleavingsAreSequential<T(!new)>(n: nat, s: State<T>)
    requires Reachable(n, s)
    ensures Broken !in s.threads
    ensures forall v, w | 0 <= v < w < |s.threads| :: !(Locked(s.threads[v]) && Locked(s.threads[w]))
    ensures Replay(s.log) == Some(s.values)
    ensures s.holder == None ==> s.values.Keys == s.live
  {
    var steps :| Run(Init(n), steps) == Some(s);
    RunKeepsInv(Init<T>(n), steps);
  }

  // ---------- the engine's side ----------

  /** The engine's pool holds the live ids, and its registry the issued ones. */
  ghost predicate Mirrors<T>(pool: VP.Pool, used: seq<int>, s: State<T>)
    reads pool
  {
    && pool.Valid() && VP.Registry(used)
    && pool.Live() == s.live && VP.Elements(used) == s.used && s.live <= s.used
    && forall id <- pool.variables :: id in used
  }

  /** Registering a value with the engine is one of thread `w`'s engine steps. */
  method EngineAdds<T>(pool: VP.Pool, used: seq<int>, choice: VP.Choice, ghost s: State<T>, ghost w: nat)
    returns (id: Option<int>, used': seq<int>, ghost t: State<T>)
    requires Mirrors(pool, used, s) && w < |s.threads| && s.threads[w].Holding? && s.threads[w].op.Add?
    modifies pool
    ensures Apply(s, Act(w, if id.Some? then EngineIssues(id.value) else EngineRefuses)) == Some(t)
    ensures Mirrors(pool, used', t)
    ensures id.Some? ==> id.value !in used
    ensures pool.Live() == if id.Some? then old(pool.Live()) + {id.value} else old(pool.Live())
  {
    id, used' := VP.DrawFreshId(used, choice);
    if id.Some? {
      pool.Add(id.value);
      t := ActOf(s, w, EngineIssues(id.value)).value;
      SameElements(VP.Elements(used'), VP.Elements(used) + {id.value});
    } else {
      t := ActOf(s, w, EngineRefuses).value;
    }
  }

  /** So is drawing from the engine's pool, consuming or not. */
  method EngineDraws<T>(pool: VP.Pool, used: seq<int>, choice: VP.Choice, ghost s: State<T>, ghost w: nat, consume: bool)
    returns (r: VP.Generated, ghost t: State<T>)
    requires Mirrors(pool, used, s) && w < |s.threads| && s.threads[w] == Holding(if consume then Consume else Reuse)
    modifies pool
    ensures Apply(s, Act(w, if r.Id? then EngineChooses(r.id) else EngineRefuses)) == Some(t)
    ensures Mirrors(pool, used, t)
    ensures r == VP.Empty <==> old(pool.Contents()) == []
    ensures r.Id? ==> r.id in old(pool.Contents())
    ensures pool.Contents() == if r.Id? && consume then VP.Keep(old(pool.Contents()), {r.id}) else old(pool.Contents())
    ensures pool.Live() == if r.Id? && consume then old(pool.Live()) - {r.id} else old(pool.Live())
  {
    ContentsInWindow(pool, used, s);
    r := pool.Generate(VP.WindowHi(used) - 1, choice, consume);
    EngineAnswers(s, w, consume, r);
    t := Apply(s, Act(w, if r.Id? then EngineChooses(r.id) else EngineRefuses)).value;
  }

  /** What the engine's answer to a draw does to its live ids. */
  lemma {:induction false} EngineAnswers<T>(s: State<T>, w: nat, consume: bool, r: VP.Generated)
    requires w < |s.threads| && s.threads[w] == Holding(if consume then Consume else Reuse) && (r.Id? ==> r.id in s.live)
    ensures var t := Apply(s, Act(w, if r.Id? then EngineChooses(r.id) else EngineRefuses));
            t.Some? && t.value.used == s.used && t.value.live == if r.Id? && consume then s.live - {r.id} else s.live
  {}

  lemma {:induction false} ContentsInWindow<T>(pool: VP.Pool, used: seq<int>, s: State<T>)
    requires Mirrors(pool, used, s)
    ensures forall id <- pool.Contents() :: 0 <= id <= VP.WindowHi(used) - 1
    ensures forall id <- pool.Contents() :: id in s.live
  {
    VP.KeepMembers(pool.variables, pool.removed);
    VP.MembersInWindow(used);
  }

  lemma {:induction false} SameElements(a: set<int>, b: set<int>)
    requires forall x: int :: x in a <==> x in b
    ensures a == b
  {
    forall x: int | x in a ensures x in b {}
    forall x: int | x in b ensures x in a {}
    assert a <= b && b <= a;
  }

  // ---------- what a sequential history conserves ----------

  function AddedValues<T>(log: seq<Event<T>>): map<int, T> {
    if log == [] then map[]
    else
      var last := log[|log| - 1];
      var before := AddedValues(log[..|log| - 1]);
      if last.Added? then before[last.id := last.value] else before
  }

  function TakenValues<T>(log: seq<Event<T>>): map<int, T> {
    if log == [] then map[]
    else
      var last := log[|log| - 1];
      var before := TakenValues(log[..|log| - 1]);
      if last.Taken? then before[last.id := last.value] else before
  }

  predicate TakenOnce<T>(log: seq<Event<T>>) {
    forall i, j | 0 <= i < j < |log| && log[i].Taken? && log[j].Taken? :: log[i].id != log[j].id
  }

  lemma {:induction false} TakenIds<T>(log: seq<Event<T>>)
    ensures forall i | 0 <= i < |log| && log[i].Taken? :: log[i].id in TakenValues(log)
  {
    if log != [] { TakenIds(log[..|log| - 1]); }
  }

  lemma {:induction false} AddedIds<T>(log: seq<Event<T>>)
    ensures AddedValues(log).Keys == Issued(log)
  {
    if log != [] { AddedIds(log[..|log| - 1]); }
  }

  /** What was added is what is present together with what was consumed, and
      nothing is consumed twice. */
  lemma {:induction false} HistoriesConserve<T>(log: seq<Event<T>>)
    requires Replay(log) != None
    ensures Replay(log).value.Keys !! TakenValues(log).Keys
    ensures AddedValues(log) == Replay(log).value + TakenValues(log)
    ensures TakenOnce(log)
  {
    if log != [] {
      var before := log[..|log| - 1];
      HistoriesConserve(before);
      AddedIds(before);
      TakenIds(before);
      assert forall i | 0 <= i < |before| :: log[i] == before[i];
    }
  }

  /** Conservation, over every interleaving. */
  lemma {:induction false} NothingIsLostOrDuplicated<T(!new)>(n: nat, s: State<T>)
    requires Reachable(n, s)
    ensures s.values.Keys !! TakenValues(s.log).Keys
    ensures AddedValues(s.log) == s.values + TakenValues(s.log)
    ensures TakenOnce(s.log)
  {
    InterleavingsAreSequential(n, s);
    HistoriesConserve(s.log);
  }
}
