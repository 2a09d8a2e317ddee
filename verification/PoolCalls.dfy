/** What each call on the shared pool comes to, over every interleaving of the
    threads (src/stateful.rs). */
module PoolCalls {
  import opened Wrappers
  import opened ConcurrentPool

  /** The operation that thread `w` began last. */
  function LatestOp<T>(steps: seq<Step<T>>, w: nat): Option<Op<T>> {
    if steps == [] then None
    else
      var last := steps[|steps| - 1];
      if last.Act? && last.thread == w && last.action.Begin? then Some(last.action.op)
      else LatestOp(steps[..|steps| - 1], w)
  }

  /** Where a thread may stand in the course of `op`. */
  ghost predicate PartOf<T>(pc: Pc<T>, op: Option<Op<T>>) {
    match pc
    case Idle => true
    case Waiting(current) => op == Some(current)
    case Holding(current) => op == Some(current)
    case Registered(_, v) => op == Some(Add(v))
    case Chosen(_) => op == Some(Reuse)
    case Claimed(_) => op == Some(Consume)
    case Broken => false
  }

  lemma {:induction false} RunOn<T>(s: State<T>, steps: seq<Step<T>>, step: Step<T>)
    ensures Run(s, steps + [step]) == match Run(s, steps) case None => None case Some(t) => Apply(t, step)
    decreases |steps|
  {
    if steps != [] {
      assert (steps + [step])[1..] == steps[1..] + [step];
      var next := Apply(s, steps[0]);
      if next.Some? { RunOn(next.value, steps[1..], step); }
    } else {
      assert [step][1..] == [];
    }
  }

  lemma {:induction false} ThreadsRemain<T>(s: State<T>, step: Step<T>)
    requires Apply(s, step).Some?
    ensures |Apply(s, step).value.threads| == |s.threads|
  {}

  /** Wherever a thread stands is part of the operation it began last. */
  lemma {:induction false} ThreadsKeepTheirOps<T>(n: nat, steps: seq<Step<T>>, w: nat)
    requires Run(Init<T>(n), steps).Some? && w < |Run(Init<T>(n), steps).value.threads|
    ensures Inv(Run(Init<T>(n), steps).value)
    ensures PartOf(Run(Init<T>(n), steps).value.threads[w], LatestOp(steps, w))
    decreases |steps|
  {
    RunKeepsInv(Init<T>(n), steps);
    if steps != [] {
      var before, last := steps[..|steps| - 1], steps[|steps| - 1];
      assert steps == before + [last];
      RunOn(Init<T>(n), before, last);
      var s := Run(Init<T>(n), before).value;
      assert Apply(s, last).Some?;
      ThreadsRemain(s, last);
      ThreadsKeepTheirOps(n, before, w);
      StepKeepsOp(before, s, last, w);
    }
  }

  lemma {:induction false} StepKeepsOp<T>(steps: seq<Step<T>>, s: State<T>, step: Step<T>, w: nat)
    requires Apply(s, step).Some? && Broken !in Apply(s, step).value.threads
    requires w < |s.threads| && PartOf(s.threads[w], LatestOp(steps, w))
    ensures |Apply(s, step).value.threads| == |s.threads|
    ensures PartOf(Apply(s, step).value.threads[w], LatestOp(steps + [step], w))
  {
    assert (steps + [step])[..|steps|] == steps;
    if step.Act? && step.thread == w {
      OwnStepKeepsOp(s, w, step.action, LatestOp(steps, w));
    } else {
      OthersStay(s, step, w);
    }
  }

  lemma {:induction false} OwnStepKeepsOp<T>(s: State<T>, w: nat, a: Action<T>, op: Option<Op<T>>)
    requires w < |s.threads| && ActOf(s, w, a).Some? && PartOf(s.threads[w], op)
    ensures var t := ActOf(s, w, a).value;
            && w < |t.threads| == |s.threads|
            && (t.threads[w] != Broken ==> PartOf(t.threads[w], if a.Begin? then Some(a.op) else op))
  {}

  lemma {:induction false} OthersStay<T>(s: State<T>, step: Step<T>, w: nat)
    requires Apply(s, step).Some? && w < |s.threads| && (step.Act? ==> step.thread != w)
    ensures |Apply(s, step).value.threads| == |s.threads| && Apply(s, step).value.threads[w] == s.threads[w]
  {}

  // ---------- completed calls ----------

  predicate SamePool<T(==)>(s: State<T>, t: State<T>) { t.values == s.values && t.live == s.live && t.log == s.log }

  /** Adding `v` puts it under an id of its own. */
  predicate Adds<T(==)>(s: State<T>, t: State<T>, id: int, v: T) {
    && t.log == s.log + [Added(id, v)] && id !in s.values && t.values == s.values[id := v] && t.live == t.values.Keys
  }

  /** A reusable draw gives a copy of the value held under `id`, which stays. */
  predicate Copies<T(==)>(s: State<T>, t: State<T>, w: nat, id: int) {
    && id in s.values && t.log == s.log + [Copied(w, id, s.values[id])]
    && t.values == s.values && t.live == s.live == s.values.Keys
  }

  /** A consuming draw gives the value held under `id`, which is gone afterwards. */
  predicate Takes<T(==)>(s: State<T>, t: State<T>, w: nat, id: int) {
    && id in s.values && t.log == s.log + [Taken(w, id, s.values[id])]
    && t.values == s.values - {id} && t.live == t.values.Keys && id !in t.values && id !in t.live
  }

  /** What the end of a call to `op` does, unless the engine refuses or a clone
      panics, which change nothing. */
  ghost predicate Completes<T>(op: Op<T>, s: State<T>, t: State<T>, w: nat) {
    match op
    case Add(v) => exists id :: Adds(s, t, id, v)
    case Reuse => exists id :: Copies(s, t, w, id)
    case Consume => exists id :: Takes(s, t, w, id)
  }

  /** In every interleaving, a call ends as the operation it began as: an addition
      registers its own value, a reusable draw copies a value and leaves it, and a
      consuming draw takes it away, from the map and from the engine's live ids. A
      refused call, or a clone that panics, leaves the pool as it was. */
  lemma {:induction false} CallsDoWhatTheyBegan<T(!new)>(n: nat, steps: seq<Step<T>>, s: State<T>, w: nat, a: Action<T>, t: State<T>)
    requires Run(Init<T>(n), steps) == Some(s) && w < |s.threads| && !s.threads[w].Idle?
    requires Apply(s, Act(w, a)) == Some(t)
    ensures LatestOp(steps, w).Some? && w < |t.threads|
    ensures t.threads[w].Idle? ==>
              || ((a.EngineRefuses? || (a.ClonePanics? && LatestOp(steps, w) == Some(Reuse))) && SamePool(s, t))
              || Completes(LatestOp(steps, w).value, s, t, w)
    ensures !t.threads[w].Idle? ==> t.values == s.values && t.log == s.log
  {
    ThreadsKeepTheirOps(n, steps, w);
    StepKeepsInv(s, Act(w, a));
    match a {
      case Insert => assert Adds(s, t, s.threads[w].id, s.threads[w].value);
      case Clone => assert Copies(s, t, w, s.threads[w].id);
      case Remove => assert Takes(s, t, w, s.threads[w].id);
      case _ =>
    }
  }

  /** A value that some thread has taken is in the pool no more, and no thread gets
      it again: every later draw, of any kind, is of another id. */
  lemma {:induction false} TakenIsGone<T(!new)>(n: nat, steps: seq<Step<T>>, s: State<T>, i: nat, j: nat)
    requires Run(Init<T>(n), steps) == Some(s) && i < j < |s.log| && s.log[i].Taken?
    ensures s.log[i].id !in s.values
    ensures s.log[j].id != s.log[i].id
  {
    RunKeepsInv(Init<T>(n), steps);
    TakenStaysGone(s.log, i, j);
  }

  lemma {:induction false} TakenStaysGone<T>(log: seq<Event<T>>, i: nat, j: nat)
    requires i < j <= |log| && log[i].Taken? && Replay(log).Some?
    ensures log[i].id in Issued(log) && log[i].id !in Replay(log).value
    ensures j < |log| ==> log[j].id != log[i].id
  {
    var init := log[..|log| - 1];
    assert forall k | 0 <= k < |init| :: init[k] == log[k];
    IssuedIds(init);
    if i < |init| { TakenStaysGone(init, i, if j < |init| then j else |init|); }
  }

  /** Whatever is held was issued. */
  lemma {:induction false} IssuedIds<T>(log: seq<Event<T>>)
    ensures Replay(log).Some? ==> Replay(log).value.Keys <= Issued(log)
  {
    if log != [] { IssuedIds(log[..|log| - 1]); }
  }
}
