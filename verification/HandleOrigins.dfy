/** Whose call decides a test case, and with what outcome, over whole executions of
    the handle protocol (hegel-c/src/lib.rs). */
module HandleOrigins {
  import opened Wrappers
  import opened Abi
  import opened HandleProtocol

  /** The last call to complete a handle that thread `w` made. */
  function LatestCall(steps: seq<Step>, w: nat): Option<Action> {
    if steps == [] then None
    else
      var last := steps[|steps| - 1];
      if last.thread == w && last.action.LockToComplete? then Some(last.action) else LatestCall(steps[..|steps| - 1], w)
  }

  /** At step `i` thread `w` decides family `f`, until then open, as `o`: it completes
      a handle of `f` and its call said `o`, or it frees the run with `f` outstanding
      and `o` is valid. */
  ghost predicate Decides(n: nat, steps: seq<Step>, i: nat, f: nat, w: nat, o: Outcome) {
    && i < |steps| && steps[i].thread == w && Run(Init(n), steps[..i]).Some?
    && var before := Run(Init(n), steps[..i]).value;
    && f < |before.families| && !before.families[f].completed
    && (|| (steps[i].action == Claim && exists h: nat :: CallsFor(steps[..i], before, h, f, w, o))
        || (steps[i].action == FreeRun && before.current == Some(f) && o == Outcome.Valid))
  }

  predicate CallsFor(steps: seq<Step>, s: State, h: nat, f: nat, w: nat, o: Outcome) {
    LatestCall(steps, w) == Some(LockToComplete(h, o)) && h < |s.handles| && s.handles[h].family == f
  }

  ghost predicate DecidedBy(n: nat, steps: seq<Step>, f: nat, winner: Winner) {
    exists i: nat :: Decides(n, steps, i, f, winner.thread, winner.outcome)
  }

  /** At step `i` a draw concludes family `f`, until then without a conclusion, as
      `o`: it is made in an operation on a handle of `f`. */
  ghost predicate Draws(n: nat, steps: seq<Step>, i: nat, f: nat, o: Outcome) {
    && i < |steps| && steps[i].action == DrawConcludes(o) && Run(Init(n), steps[..i]).Some?
    && DrawsFor(Run(Init(n), steps[..i]).value, steps[i].thread, f)
  }

  predicate DrawsFor(s: State, w: nat, f: nat) {
    && w < |s.threads| && s.threads[w].InOperation? && s.threads[w].handle < |s.handles|
    && s.handles[s.threads[w].handle].family == f && f < |s.families| && s.families[f].concluded == None
  }

  ghost predicate DrawnBySome(n: nat, steps: seq<Step>, f: nat, o: Outcome) { exists i: nat :: Draws(n, steps, i, f, o) }

  /** A thread completing a handle was called to; a decided family was decided by a
      step of its winner. */
  ghost predicate Asked(n: nat, steps: seq<Step>, s: State) {
    && (forall w: nat | w < |s.threads| :: CallStands(steps, s.threads[w], w))
    && (forall f: nat | f < |s.families| && s.families[f].winner.Some? :: DecidedBy(n, steps, f, s.families[f].winner.value))
    && (forall f: nat | f < |s.families| && s.families[f].drawn ::
          s.families[f].concluded.Some? && DrawnBySome(n, steps, f, s.families[f].concluded.value))
  }

  predicate CallStands(steps: seq<Step>, pc: Pc, w: nat) {
    pc.Completing? || pc.Claiming? ==> LatestCall(steps, w) == Some(LockToComplete(pc.handle, pc.outcome))
  }

  lemma {:induction false} RunOn(s: State, steps: seq<Step>, step: Step)
    ensures Run(s, steps + [step]) == match Run(s, steps) case None => None case Some(t) => Apply(t, step)
    decreases |steps|
  {
    if steps != [] {
      assert (steps + [step])[1..] == steps[1..] + [step];
      var next := Apply(s, steps[0]);
      if next.Some? { RunOn(next.value, steps[1..], step); }
    } else {
      assert [step][1..] == [];
    }
  }

  // ---------- one step ----------

  /** A thread comes to complete a handle only by its own call. */
  lemma {:induction false} CallsStand(steps: seq<Step>, s: State, step: Step, v: nat)
    requires Inv(s) && Apply(s, step).Some? && v < |s.threads| && CallStands(steps, s.threads[v], v)
    ensures |Apply(s, step).value.threads| == |s.threads|
    ensures CallStands(steps + [step], Apply(s, step).value.threads[v], v)
  {
    assert (steps + [step])[..|steps|] == steps;
    if v == step.thread {
      OwnCall(s, step);
    } else {
      OthersStay(s, step, v);
    }
  }

  lemma {:induction false} OwnCall(s: State, step: Step)
    requires Inv(s) && Apply(s, step).Some?
    ensures var t, w := Apply(s, step).value, step.thread;
            && w < |s.threads| == |t.threads|
            && var pc, old_ := t.threads[w], s.threads[w];
            && (pc.Completing? ==> step.action == LockToComplete(pc.handle, pc.outcome))
            && (pc.Claiming? ==> step.action == MarkHandle && old_ == Completing(pc.handle, pc.outcome))
  {
    var w := step.thread;
    match s.threads[w]
    case Idle => OwnStart(s, w, step.action);
    case Checked(h) => assert Apply(s, step) == Locks(s, w, h);
    case InOperation(h) => assert Apply(s, step) == Operates(s, w, h, step.action);
    case Completing(h, outcome) => assert Apply(s, step) == Completes(s, w, h, outcome, step.action);
    case Claiming(h, outcome) => assert Apply(s, step) == Claims(s, w, h, outcome);
    case Reporting(_, f, outcome) => assert Apply(s, step) == Reports(s, w, f, outcome);
  }

  lemma {:induction false} OwnStart(s: State, w: nat, a: Action)
    requires w < |s.threads| && s.threads[w].Idle? && Starts(s, w, a).Some?
    ensures var t := Starts(s, w, a).value;
            && |t.threads| == |s.threads| && !t.threads[w].Claiming?
            && (t.threads[w].Completing? ==> a == LockToComplete(t.threads[w].handle, t.threads[w].outcome))
  {}

  /** Only completing a handle or freeing the run decides a family. */
  lemma {:induction false} WinnerArises(s: State, step: Step, f: nat)
    requires Inv(s) && Apply(s, step).Some? && f < |Apply(s, step).value.families|
    requires Apply(s, step).value.families[f].winner.Some?
    ensures var winner, w := Apply(s, step).value.families[f].winner.value, step.thread;
            && f < |s.families| && w < |s.threads|
            && (|| s.families[f].winner == Some(winner)
                || (!s.families[f].completed && winner.thread == w
                    && (|| ClaimsFor(s, step, f, winner.outcome)
                        || (step.action == FreeRun && s.current == Some(f) && winner.outcome == Outcome.Valid))))
  {
    var w := step.thread;
    assert ThreadOk(s, w);
    match s.threads[w]
    case Idle => StartDecides(s, w, step.action, f);
    case Claiming(h, outcome) => ClaimDecides(s, w, h, outcome, f);
    case _ => OthersDecideNothing(s, step, f);
  }

  lemma {:induction false} ClaimDecides(s: State, w: nat, h: nat, outcome: Outcome, f: nat)
    requires w < |s.threads| && s.threads[w] == Claiming(h, outcome) && Usable(s, h)
    requires f < |Claims(s, w, h, outcome).value.families| && Claims(s, w, h, outcome).value.families[f].winner.Some?
    ensures var winner := Claims(s, w, h, outcome).value.families[f].winner.value;
            && f < |s.families|
            && (|| s.families[f].winner == Some(winner)
                || (!s.families[f].completed && winner == Winner(w, outcome) && s.handles[h].family == f))
  {}

  lemma {:induction false} OthersDecideNothing(s: State, step: Step, f: nat)
    requires Apply(s, step).Some? && !s.threads[step.thread].Idle? && !s.threads[step.thread].Claiming?
    requires f < |Apply(s, step).value.families|
    ensures f < |s.families| && Apply(s, step).value.families[f].winner == s.families[f].winner
  {
    var w := step.thread;
    match s.threads[w]
    case Checked(h) => assert Apply(s, step) == Locks(s, w, h);
    case InOperation(h) => assert Apply(s, step) == Operates(s, w, h, step.action);
    case Completing(h, outcome) => assert Apply(s, step) == Completes(s, w, h, outcome, step.action);
    case Reporting(_, g, outcome) => assert Apply(s, step) == Reports(s, w, g, outcome);
  }

  predicate ClaimsFor(s: State, step: Step, f: nat, o: Outcome)
    requires step.thread < |s.threads|
  {
    var pc := s.threads[step.thread];
    step.action == Claim && pc.Claiming? && pc.outcome == o && pc.handle < |s.handles| && s.handles[pc.handle].family == f
  }

  lemma {:induction false} StartDecides(s: State, w: nat, a: Action, f: nat)
    requires w < |s.threads| && s.threads[w].Idle? && Starts(s, w, a).Some? && f < |Starts(s, w, a).value.families|
    requires Starts(s, w, a).value.families[f].winner.Some?
    ensures var winner := Starts(s, w, a).value.families[f].winner.value;
            && f < |s.families|
            && (|| s.families[f].winner == Some(winner)
                || (!s.families[f].completed && winner.thread == w
                    && a == FreeRun && s.current == Some(f) && winner.outcome == Outcome.Valid))
  {}

  /** Only a draw concludes a family by a draw. */
  lemma {:induction false} DrawArises(s: State, step: Step, f: nat)
    requires Inv(s) && Apply(s, step).Some? && f < |Apply(s, step).value.families|
    requires Apply(s, step).value.families[f].drawn
    ensures var after, w := Apply(s, step).value.families[f], step.thread;
            && f < |s.families| && after.concluded.Some?
            && (|| (s.families[f].drawn && s.families[f].concluded == after.concluded)
                || (step.action == DrawConcludes(after.concluded.value) && DrawsFor(s, w, f)))
  {
    var w := step.thread;
    assert ThreadOk(s, w);
    match s.threads[w]
    case Idle => assert Apply(s, step) == Starts(s, w, step.action); assert f < |s.families| ==> FamilyOk(s, f);
    case InOperation(h) => OperationDraws(s, w, h, step.action, f);
    case _ => OthersDrawNothing(s, step, f);
  }

  lemma {:induction false} OperationDraws(s: State, w: nat, h: nat, a: Action, f: nat)
    requires Inv(s) && w < |s.threads| && s.threads[w] == InOperation(h) && Operates(s, w, h, a).Some?
    requires f < |Operates(s, w, h, a).value.families| && Operates(s, w, h, a).value.families[f].drawn
    ensures var after := Operates(s, w, h, a).value.families[f];
            && f < |s.families| && after.concluded.Some?
            && (|| (s.families[f].drawn && s.families[f].concluded == after.concluded)
                || (a == DrawConcludes(after.concluded.value) && DrawsFor(s, w, f)))
  {
    assert FamilyOk(s, f);
  }

  lemma {:induction false} OthersDrawNothing(s: State, step: Step, f: nat)
    requires Inv(s) && Apply(s, step).Some? && !s.threads[step.thread].Idle? && !s.threads[step.thread].InOperation?
    requires f < |Apply(s, step).value.families| && Apply(s, step).value.families[f].drawn
    ensures f < |s.families| && s.families[f].drawn && s.families[f].concluded.Some?
    ensures Apply(s, step).value.families[f].concluded == s.families[f].concluded
  {
    var w := step.thread;
    assert f < |s.families| ==> FamilyOk(s, f);
    match s.threads[w]
    case Checked(h) => assert Apply(s, step) == Locks(s, w, h);
    case Completing(h, outcome) => assert Apply(s, step) == Completes(s, w, h, outcome, step.action);
    case Claiming(h, outcome) => assert Apply(s, step) == Claims(s, w, h, outcome);
    case Reporting(_, g, outcome) => assert Apply(s, step) == Reports(s, w, g, outcome);
  }

  /** A new handle is of the case just handed out, or of the family of the handle it
      was cloned from, and open. */
  lemma {:induction false} NewHandlesBelong(s: State, step: Step, h: nat)
    requires Inv(s) && Apply(s, step).Some? && |s.handles| <= h < |Apply(s, step).value.handles|
    ensures var t, w := Apply(s, step).value, step.thread;
            && h == |s.handles| && !t.handles[h].completed && !t.handles[h].freed && t.handles[h].lockedBy == None
            && w < |s.threads|
            && if step.action == FinishClone
               then s.threads[w].InOperation? && s.threads[w].handle < h
                    && t.handles[h].family == s.handles[s.threads[w].handle].family
               else step.action == NextTestCase(true) && t.current == Some(t.handles[h].family) == Some(|s.families|)
  {
    var w := step.thread;
    assert ThreadOk(s, w);
    match s.threads[w]
    case Idle => assert Apply(s, step) == Starts(s, w, step.action);
    case InOperation(g) => assert Apply(s, step) == Operates(s, w, g, step.action);
    case _ => OthersMakeNoHandle(s, step);
  }

  lemma {:induction false} OthersMakeNoHandle(s: State, step: Step)
    requires Apply(s, step).Some? && !s.threads[step.thread].Idle? && !s.threads[step.thread].InOperation?
    ensures |Apply(s, step).value.handles| == |s.handles|
  {
    var w := step.thread;
    match s.threads[w]
    case Checked(g) => assert Apply(s, step) == Locks(s, w, g);
    case Completing(g, outcome) => assert Apply(s, step) == Completes(s, w, g, outcome, step.action);
    case Claiming(g, outcome) => assert Apply(s, step) == Claims(s, w, g, outcome);
    case Reporting(_, f, outcome) => assert Apply(s, step) == Reports(s, w, f, outcome);
  }

  // ---------- executions ----------

  lemma {:induction false} StaysDecided(n: nat, steps: seq<Step>, step: Step, f: nat, winner: Winner)
    requires DecidedBy(n, steps, f, winner)
    ensures DecidedBy(n, steps + [step], f, winner)
  {
    var i: nat :| Decides(n, steps, i, f, winner.thread, winner.outcome);
    assert (steps + [step])[..i] == steps[..i];
    assert Decides(n, steps + [step], i, f, winner.thread, winner.outcome);
  }

  lemma {:induction false} StaysDrawn(n: nat, steps: seq<Step>, step: Step, f: nat, o: Outcome)
    requires DrawnBySome(n, steps, f, o)
    ensures DrawnBySome(n, steps + [step], f, o)
  {
    var i: nat :| Draws(n, steps, i, f, o);
    assert (steps + [step])[..i] == steps[..i];
    assert Draws(n, steps + [step], i, f, o);
  }

  lemma {:induction false} StepDraws(n: nat, steps: seq<Step>, s: State, step: Step, f: nat)
    requires Run(Init(n), steps) == Some(s) && Inv(s) && Asked(n, steps, s) && Apply(s, step).Some?
    requires f < |Apply(s, step).value.families| && Apply(s, step).value.families[f].drawn
    ensures var o := Apply(s, step).value.families[f].concluded; o.Some? && DrawnBySome(n, steps + [step], f, o.value)
  {
    DrawArises(s, step, f);
    var o := Apply(s, step).value.families[f].concluded.value;
    if s.families[f].drawn && s.families[f].concluded == Some(o) {
      StaysDrawn(n, steps, step, f, o);
    } else {
      assert (steps + [step])[..|steps|] == steps;
      assert Draws(n, steps + [step], |steps|, f, o);
    }
  }

  lemma {:induction false} StepAsks(n: nat, steps: seq<Step>, s: State, step: Step)
    requires Run(Init(n), steps) == Some(s) && Inv(s) && Asked(n, steps, s) && Apply(s, step).Some?
    ensures Asked(n, steps + [step], Apply(s, step).value)
  {
    var t, more := Apply(s, step).value, steps + [step];
    OthersStay(s, step, |s.threads|);
    forall v: nat | v < |t.threads| ensures CallStands(more, t.threads[v], v) { CallsStand(steps, s, step, v); }
    forall f: nat | f < |t.families| && t.families[f].winner.Some? ensures DecidedBy(n, more, f, t.families[f].winner.value) {
      WinnerArises(s, step, f);
      if s.families[f].winner == t.families[f].winner {
        StaysDecided(n, steps, step, f, t.families[f].winner.value);
      } else {
        NewlyDecided(n, steps, s, step, f, t.families[f].winner.value);
      }
    }
    forall f: nat | f < |t.families| && t.families[f].drawn
      ensures t.families[f].concluded.Some? && DrawnBySome(n, more, f, t.families[f].concluded.value)
    {
      StepDraws(n, steps, s, step, f);
    }
  }

  lemma {:induction false} NewlyDecided(n: nat, steps: seq<Step>, s: State, step: Step, f: nat, winner: Winner)
    requires Run(Init(n), steps) == Some(s) && step.thread < |s.threads|
    requires CallStands(steps, s.threads[step.thread], step.thread)
    requires f < |s.families| && !s.families[f].completed && winner.thread == step.thread
    requires || ClaimsFor(s, step, f, winner.outcome)
             || (step.action == FreeRun && s.current == Some(f) && winner.outcome == Outcome.Valid)
    ensures DecidedBy(n, steps + [step], f, winner)
  {
    var w := step.thread;
    assert (steps + [step])[..|steps|] == steps;
    if step.action == Claim { assert CallsFor(steps, s, s.threads[w].handle, f, w, winner.outcome); }
    assert Decides(n, steps + [step], |steps|, f, w, winner.outcome);
  }

  lemma {:induction false} ExecutionsAsk(n: nat, steps: seq<Step>)
    requires Run(Init(n), steps).Some?
    ensures Inv(Run(Init(n), steps).value) && Asked(n, steps, Run(Init(n), steps).value)
    decreases |steps|
  {
    RunKeepsInv(Init(n), steps);
    if steps != [] {
      var before, last := steps[..|steps| - 1], steps[|steps| - 1];
      assert steps == before + [last];
      RunOn(Init(n), before, last);
      ExecutionsAsk(n, before);
      StepAsks(n, before, Run(Init(n), before).value, last);
    }
  }

  /** What is reported of a test case is what was asked for: one step decided it, and
      the report carries the outcome that the deciding thread's call to complete a
      handle of that case came with, or valid if freeing the run decided it. */
  lemma {:induction false} ReportedAsAsked(n: nat, steps: seq<Step>, s: State, f: nat, o: Outcome)
    requires Run(Init(n), steps) == Some(s) && f < |s.families| && o in s.families[f].reports
    ensures s.families[f].reports == [o]
    ensures exists i: nat, w: nat :: Decides(n, steps, i, f, w, o)
  {
    ExecutionsAsk(n, steps);
    assert Reachable(n, s);
    FirstClaimIsTheOnlyReport(n, s, f);
    assert DecidedBy(n, steps, f, s.families[f].winner.value);
    var i: nat :| Decides(n, steps, i, f, s.families[f].winner.value.thread, o);
  }

  /** What the engine can read of a test case is what came first: what was asked for,
      if a report came first, or else what a draw on one of its handles found. */
  lemma {:induction false} ConcludedAsFound(n: nat, steps: seq<Step>, s: State, f: nat, o: Outcome)
    requires Run(Init(n), steps) == Some(s) && f < |s.families| && s.families[f].concluded == Some(o)
    ensures if s.families[f].drawn then exists i: nat :: Draws(n, steps, i, f, o)
            else exists i: nat, w: nat :: Decides(n, steps, i, f, w, o)
  {
    ExecutionsAsk(n, steps);
    if s.families[f].drawn {
      assert DrawnBySome(n, steps, f, o);
    } else {
      assert FamilyOk(s, f);
      ReportedAsAsked(n, steps, s, f, o);
    }
  }
}
