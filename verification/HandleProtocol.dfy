/** Handles onto one test case used from many threads, beside the run that hands
    test cases out (hegel-c/src/lib.rs). Completing a family is two steps: the
    flag is claimed, then the outcome is reported. */
module HandleProtocol {
  import opened Wrappers
  import opened Abi
  import RP = RunProtocol

  /** Who set a family's flag first, and the outcome they came with. */
  datatype Winner = Winner(thread: nat, outcome: Outcome)

  /** `concluded` is the engine's write-once conclusion of the case, which a draw
      (`drawn`) or a report sets. */
  datatype Family = Family(
    completed: bool, winner: Option<Winner>, reports: seq<Outcome>, concluded: Option<Outcome>, drawn: bool)

  datatype Handle = Handle(family: nat, completed: bool, lockedBy: Option<nat>, freed: bool)

  datatype Pc =
    | Idle
    | Checked(handle: nat)                                             // a guarded operation saw the family open
    | InOperation(handle: nat)                                         // and took the handle's lock
    | Completing(handle: nat, outcome: Outcome)                        // holds the lock
    | Claiming(handle: nat, outcome: Outcome)                          // marked the handle
    | Reporting(via: Option<nat>, family: nat, outcome: Outcome)    // set the flag

  /** `seen` is what the engine read off each case when it was resumed. */
  datatype State = State(
    engine: bool, current: Option<nat>, finished: bool, seen: seq<Option<Outcome>>,
    families: seq<Family>, handles: seq<Handle>, threads: seq<Pc>)

  datatype Action =
    | Check(handle: nat)
    | TryLock
    | FinishOperation
    | FinishClone
    | DrawConcludes(outcome: Outcome)   // a draw overruns, or finds the case invalid
    | LockToComplete(handle: nat, outcome: Outcome)
    | RejectStatus
    | MarkHandle
    | Claim
    | Report
    | FreeHandle(handle: nat)
    | NextTestCase(offers: bool)
    | FreeRun

  datatype Step = Step(thread: nat, action: Action)

  function Init(n: nat): State { State(true, None, false, [], [], [], seq(n, _ => Idle)) }

  function Uses(pc: Pc): Option<nat> {
    match pc
    case Idle => None
    case Checked(h) => Some(h)
    case InOperation(h) => Some(h)
    case Completing(h, _) => Some(h)
    case Claiming(h, _) => Some(h)
    case Reporting(h, _, _) => h
  }

  /** The handle whose lock a thread holds. */
  function Holds(pc: Pc): Option<nat> { if pc.Checked? then None else Uses(pc) }

  predicate InUse(s: State, h: nat) { exists v :: 0 <= v < |s.threads| && Uses(s.threads[v]) == Some(h) }

  predicate Usable(s: State, h: nat) { h < |s.handles| && !s.handles[h].freed && s.handles[h].family < |s.families| }

  function FamilyOf(s: State, h: nat): Family
    requires Usable(s, h)
  {
    s.families[s.handles[h].family]
  }

  function Goes(s: State, w: nat, pc: Pc): State
    requires w < |s.threads|
  {
    s.(threads := s.threads[w := pc])
  }

  /** Thread `w` lets go of what it holds and is idle. */
  function Leaves(s: State, w: nat): State
    requires w < |s.threads|
  {
    var held := Holds(s.threads[w]);
    var t := Goes(s, w, Idle);
    if held.Some? && held.value < |s.handles|
    then t.(handles := s.handles[held.value := s.handles[held.value].(lockedBy := None)])
    else t
  }

  /** Resumes the engine, which reads off the case it awaits. */
  function Resumed(s: State, offers: bool): State {
    var read := if s.current.Some? && s.current.value < |s.families| then [s.families[s.current.value].concluded] else [];
    if offers then
      s.(seen := s.seen + read, current := Some(|s.families|),
         families := s.families + [Family(false, None, [], None, false)],
         handles := s.handles + [Handle(|s.families|, false, None, false)])
    else
      s.(seen := s.seen + read, current := None, engine := false, finished := true)
  }

  function Apply(s: State, step: Step): Option<State> {
    var w := step.thread;
    if w >= |s.threads| then None
    else
      match s.threads[w]
      case Idle => Starts(s, w, step.action)
      case Checked(h) => if step.action.TryLock? then Locks(s, w, h) else None
      case InOperation(h) => Operates(s, w, h, step.action)
      case Completing(h, outcome) => Completes(s, w, h, outcome, step.action)
      case Claiming(h, outcome) => if step.action.Claim? then Claims(s, w, h, outcome) else None
      case Reporting(_, f, outcome) => if step.action.Report? then Reports(s, w, f, outcome) else None
  }

  function Starts(s: State, w: nat, a: Action): Option<State>
    requires w < |s.threads|
  {
    match a
    case Check(h) =>
      if !Usable(s, h) then None
      else if FamilyOf(s, h).completed then Some(s)                           // already complete
      else Some(Goes(s, w, Checked(h)))
    case LockToComplete(h, outcome) =>
      if !Usable(s, h) || s.handles[h].lockedBy.Some? then None               // waits
      else Some(Goes(s, w, Completing(h, outcome)).(handles := s.handles[h := s.handles[h].(lockedBy := Some(w))]))
    case FreeHandle(h) =>
      if !Usable(s, h) || InUse(s, h) then None
      else Some(s.(handles := s.handles[h := s.handles[h].(freed := true)]))
    case NextTestCase(offers) =>
      if !s.engine then Some(s)
      else if s.current.Some? && s.current.value < |s.families| && !s.families[s.current.value].completed
      then Some(s)                                                            // not complete
      else Some(Resumed(s, offers))
    case FreeRun =>
      var t := s.(engine := false, current := None);
      if s.current == None || s.current.value >= |s.families| || s.families[s.current.value].completed then Some(t)
      else Some(SetsFlag(t, w, None, s.current.value, Outcome.Valid))
    case _ => None
  }

  function Locks(s: State, w: nat, h: nat): Option<State>
    requires w < |s.threads|
  {
    if !Usable(s, h) then None
    else if s.handles[h].lockedBy.Some? then Some(Goes(s, w, Idle))           // concurrent use
    else Some(Goes(s, w, InOperation(h)).(handles := s.handles[h := s.handles[h].(lockedBy := Some(w))]))
  }

  function Operates(s: State, w: nat, h: nat, a: Action): Option<State>
    requires w < |s.threads|
  {
    if a.FinishOperation? then Some(Leaves(s, w))
    else if a.FinishClone? && Usable(s, h) then
      var t := Leaves(s, w);
      Some(t.(handles := t.handles + [Handle(s.handles[h].family, false, None, false)]))
    else if a.DrawConcludes? && !a.outcome.Interesting? && Usable(s, h) then Some(Drawn(s, s.handles[h].family, a.outcome))
    else None
  }

  /** A draw concludes the case, unless it is concluded already. */
  function Drawn(s: State, f: nat, outcome: Outcome): State
    requires f < |s.families|
  {
    if s.families[f].concluded.Some? then s
    else s.(families := s.families[f := s.families[f].(concluded := Some(outcome), drawn := true)])
  }

  function Reported(f: Family, outcome: Outcome): Family {
    f.(reports := f.reports + [outcome], concluded := if f.concluded.Some? then f.concluded else Some(outcome))
  }

  function Completes(s: State, w: nat, h: nat, outcome: Outcome, a: Action): Option<State>
    requires w < |s.threads|
  {
    if a.RejectStatus? then Some(Leaves(s, w))
    else if !a.MarkHandle? || !Usable(s, h) then None
    else if s.handles[h].completed then Some(Leaves(s, w))                    // already complete
    else Some(Goes(s, w, Claiming(h, outcome)).(handles := s.handles[h := s.handles[h].(completed := true)]))
  }

  function Claims(s: State, w: nat, h: nat, outcome: Outcome): Option<State>
    requires w < |s.threads|
  {
    if !Usable(s, h) then None
    else if FamilyOf(s, h).completed then Some(Leaves(s, w))
    else Some(SetsFlag(s, w, Some(h), s.handles[h].family, outcome))
  }

  function SetsFlag(s: State, w: nat, via: Option<nat>, f: nat, outcome: Outcome): State
    requires w < |s.threads| && f < |s.families|
  {
    Goes(s, w, Reporting(via, f, outcome)).(families := s.families[f := s.families[f].(completed := true, winner := Some(Winner(w, outcome)))])
  }

  function Reports(s: State, w: nat, f: nat, outcome: Outcome): Option<State>
    requires w < |s.threads|
  {
    if f >= |s.families| then None
    else Some(Leaves(s, w).(families := s.families[f := Reported(s.families[f], outcome)]))
  }

  function Run(s: State, steps: seq<Step>): Option<State>
    decreases |steps|
  {
    if steps == [] then Some(s)
    else
      var next := Apply(s, steps[0]);
      if next == None then None else Run(next.value, steps[1..])
  }

  // ---------- the invariant ----------

  predicate IsReporting(s: State, w: nat, f: nat) {
    w < |s.threads| && s.threads[w].Reporting? && s.threads[w].family == f
  }

  /** The winner's outcome is the only one ever reported; until it is, the winner
      is on the way to report it. */
  predicate FamilyOk(s: State, f: nat)
    requires f < |s.families|
  {
    var x := s.families[f];
    && (x.completed <==> x.winner.Some?)
    && (x.reports != [] ==> x.completed && x.reports == [x.winner.value.outcome])
    && (x.completed && x.reports == [] ==> IsReporting(s, x.winner.value.thread, f))
    && (x.drawn ==> x.concluded.Some? && !x.concluded.value.Interesting?)
    && (!x.drawn ==> x.concluded == if x.reports == [] then None else Some(x.reports[0]))
  }

  predicate HandleOk(s: State, h: nat)
    requires h < |s.handles|
  {
    && s.handles[h].family < |s.families|
    && (s.handles[h].lockedBy.Some? ==>
          s.handles[h].lockedBy.value < |s.threads| && Holds(s.threads[s.handles[h].lockedBy.value]) == Some(h))
  }

  predicate ThreadOk(s: State, w: nat)
    requires w < |s.threads|
  {
    var pc := s.threads[w];
    && (Uses(pc).Some? ==> Usable(s, Uses(pc).value))
    && (Holds(pc).Some? ==> s.handles[Holds(pc).value].lockedBy == Some(w))
    && (pc.Reporting? ==>
          && pc.family < |s.families| && s.families[pc.family].winner == Some(Winner(w, pc.outcome))
          && s.families[pc.family].reports == [])
  }

  ghost predicate Inv(s: State) {
    && (forall h: nat | h < |s.handles| :: HandleOk(s, h))
    && (forall f: nat | f < |s.families| :: FamilyOk(s, f))
    && (forall w: nat | w < |s.threads| :: ThreadOk(s, w))
    && (s.current.Some? ==> s.engine && s.current.value < |s.families|)
    && (s.finished ==> !s.engine)
  }

  lemma {:induction false} CheckKeepsInv(s: State, w: nat, g: nat)
    requires Inv(s) && w < |s.threads| && s.threads[w].Idle? && Starts(s, w, Check(g)) != None
    ensures Inv(Starts(s, w, Check(g)).value)
  {
    var t := Starts(s, w, Check(g)).value;
    assert ThreadOk(s, w);
    assert t.families == s.families && t.threads == s.threads[w := t.threads[w]] && |t.handles| == |s.handles|;
    forall h: nat | h < |t.handles| ensures HandleOk(t, h) { assert HandleOk(s, h); }
    forall f: nat | f < |t.families| ensures FamilyOk(t, f) { assert FamilyOk(s, f); }
    forall v: nat | v < |t.threads| ensures ThreadOk(t, v) { assert ThreadOk(s, v); }
  }

  lemma {:induction false} WaitForLockKeepsInv(s: State, w: nat, g: nat, outcome: Outcome)
    requires Inv(s) && w < |s.threads| && s.threads[w].Idle? && Starts(s, w, LockToComplete(g, outcome)) != None
    ensures Inv(Starts(s, w, LockToComplete(g, outcome)).value)
  {
    var t := Starts(s, w, LockToComplete(g, outcome)).value;
    assert ThreadOk(s, w);
    assert t.families == s.families && t.threads == s.threads[w := t.threads[w]] && |t.handles| == |s.handles|;
    forall h: nat | h < |t.handles| ensures HandleOk(t, h) { assert HandleOk(s, h); }
    forall f: nat | f < |t.families| ensures FamilyOk(t, f) { assert FamilyOk(s, f); }
    forall v: nat | v < |t.threads| ensures ThreadOk(t, v) { assert ThreadOk(s, v); }
  }

  lemma {:induction false} FreeHandleKeepsInv(s: State, w: nat, g: nat)
    requires Inv(s) && w < |s.threads| && s.threads[w].Idle? && Starts(s, w, FreeHandle(g)) != None
    ensures Inv(Starts(s, w, FreeHandle(g)).value)
  {
    var t := Starts(s, w, FreeHandle(g)).value;
    assert ThreadOk(s, w);
    assert t.families == s.families && t.threads == s.threads[w := t.threads[w]] && |t.handles| == |s.handles|;
    forall h: nat | h < |t.handles| ensures HandleOk(t, h) { assert HandleOk(s, h); }
    forall f: nat | f < |t.families| ensures FamilyOk(t, f) { assert FamilyOk(s, f); }
    forall v: nat | v < |t.threads| ensures ThreadOk(t, v) { assert ThreadOk(s, v); }
  }

  lemma {:induction false} DrawnKeepsInv(s: State, f: nat, outcome: Outcome)
    requires Inv(s) && f < |s.families| && !outcome.Interesting?
    ensures Inv(Drawn(s, f, outcome))
  {
    var t := Drawn(s, f, outcome);
    forall h: nat | h < |t.handles| ensures HandleOk(t, h) { assert HandleOk(s, h); }
    forall g: nat | g < |t.families| ensures FamilyOk(t, g) { assert FamilyOk(s, g); }
    forall v: nat | v < |t.threads| ensures ThreadOk(t, v) { assert ThreadOk(s, v); }
  }

  lemma {:induction false} ResumedKeepsInv(s: State, offers: bool)
    requires Inv(s)
    ensures s.engine ==> Inv(Resumed(s, offers))
  {
    var t := Resumed(s, offers);
    forall h: nat | h < |t.handles| ensures HandleOk(t, h) { assert h < |s.handles| ==> HandleOk(s, h); }
    forall f: nat | f < |t.families| ensures FamilyOk(t, f) { assert f < |s.families| ==> FamilyOk(s, f); }
    forall v: nat | v < |t.threads| ensures ThreadOk(t, v) { assert ThreadOk(s, v); }
  }

  lemma {:induction false} LocksKeepsInv(s: State, w: nat, h: nat)
    requires Inv(s) && w < |s.threads| && s.threads[w] == Checked(h) && Usable(s, h)
    ensures Inv(Locks(s, w, h).value)
  {
    var t := Locks(s, w, h).value;
    assert ThreadOk(s, w);
    forall h: nat | h < |t.handles| ensures HandleOk(t, h) { assert h < |s.handles| ==> HandleOk(s, h); }
    assert t.families == s.families && t.threads == s.threads[w := t.threads[w]] && |t.handles| == |s.handles|;
    forall f: nat | f < |t.families| ensures FamilyOk(t, f) { assert FamilyOk(s, f); }
    forall v: nat | v < |t.threads| ensures ThreadOk(t, v) { assert ThreadOk(s, v); }
  }

  lemma {:induction false} LeavesKeepsInv(s: State, w: nat)
    requires Inv(s) && w < |s.threads| && !s.threads[w].Reporting?
    ensures Inv(Leaves(s, w))
  {
    var t := Leaves(s, w);
    assert ThreadOk(s, w);
    forall h: nat | h < |t.handles| ensures HandleOk(t, h) { LeavesHandle(s, w, h); }
    forall f: nat | f < |t.families| ensures FamilyOk(t, f) { assert FamilyOk(s, f); }
    forall v: nat | v < |t.threads| ensures ThreadOk(t, v) { LeavesThread(s, w, v); }
  }

  lemma {:induction false} LeavesHandle(s: State, w: nat, h: nat)
    requires w < |s.threads| && h < |s.handles| && HandleOk(s, h) && ThreadOk(s, w)
    ensures h < |Leaves(s, w).handles| && HandleOk(Leaves(s, w), h)
  {}

  lemma {:induction false} LeavesThread(s: State, w: nat, v: nat)
    requires w < |s.threads| && v < |s.threads| && ThreadOk(s, v) && ThreadOk(s, w)
    ensures v < |Leaves(s, w).threads| && ThreadOk(Leaves(s, w), v)
  {}

  lemma {:induction false} CloneKeepsInv(s: State, w: nat, h: nat)
    requires Inv(s) && w < |s.threads| && s.threads[w] == InOperation(h) && Usable(s, h)
    ensures Inv(Operates(s, w, h, FinishClone).value)
  {
    var t := Operates(s, w, h, FinishClone).value;
    assert ThreadOk(s, w);
    LeavesKeepsInv(s, w);
    forall h: nat | h < |t.handles| ensures HandleOk(t, h) { assert h < |s.handles| ==> HandleOk(Leaves(s, w), h); }
    forall f: nat | f < |t.families| ensures FamilyOk(t, f) { assert FamilyOk(Leaves(s, w), f); }
    forall v: nat | v < |t.threads| ensures ThreadOk(t, v) { assert ThreadOk(Leaves(s, w), v); }
  }

  lemma {:induction false} MarkKeepsInv(s: State, w: nat, h: nat, outcome: Outcome)
    requires Inv(s) && w < |s.threads| && s.threads[w] == Completing(h, outcome) && Usable(s, h) && !s.handles[h].completed
    ensures Inv(Completes(s, w, h, outcome, MarkHandle).value)
  {
    var t := Completes(s, w, h, outcome, MarkHandle).value;
    assert ThreadOk(s, w);
    forall h: nat | h < |t.handles| ensures HandleOk(t, h) { assert h < |s.handles| ==> HandleOk(s, h); }
    forall f: nat | f < |t.families| ensures FamilyOk(t, f) { assert f < |s.families| ==> FamilyOk(s, f); }
    forall v: nat | v < |t.threads| ensures ThreadOk(t, v) { assert ThreadOk(s, v); }
  }

  lemma {:induction false} SetsFlagKeepsInv(s: State, w: nat, via: Option<nat>, f: nat, outcome: Outcome)
    requires Inv(s) && w < |s.threads| && ((s.threads[w] == Idle && via == None) || (via.Some? && s.threads[w] == Claiming(via.value, outcome)))
    requires f < |s.families| && !s.families[f].completed
    ensures Inv(SetsFlag(s, w, via, f, outcome))
  {
    var t := SetsFlag(s, w, via, f, outcome);
    assert ThreadOk(s, w);
    assert FamilyOk(s, f);
    forall h: nat | h < |t.handles| ensures HandleOk(t, h) { assert h < |s.handles| ==> HandleOk(s, h); }
    forall g: nat | g < |t.families| ensures FamilyOk(t, g) { assert FamilyOk(s, g); }
    forall v: nat | v < |t.threads| ensures ThreadOk(t, v) { assert ThreadOk(s, v); }
  }

  lemma {:induction false} ReportsKeepsInv(s: State, w: nat, f: nat, outcome: Outcome)
    requires Inv(s) && w < |s.threads| && f < |s.families|
    requires s.threads[w].Reporting? && s.threads[w].family == f && s.threads[w].outcome == outcome
    ensures Inv(Reports(s, w, f, outcome).value)
  {
    var t := Reports(s, w, f, outcome).value;
    assert ThreadOk(s, w) && FamilyOk(s, f);
    forall h: nat | h < |t.handles| ensures HandleOk(t, h) { LeavesHandle(s, w, h); }
    forall g: nat | g < |t.families| ensures FamilyOk(t, g) { ReportsFamily(s, w, f, outcome, g); }
    forall v: nat | v < |t.threads| ensures ThreadOk(t, v) { ReportsThread(s, w, f, outcome, v); }
  }

  lemma {:induction false} ReportsFamily(s: State, w: nat, f: nat, outcome: Outcome, g: nat)
    requires w < |s.threads| && f < |s.families| && g < |s.families| && ThreadOk(s, w) && FamilyOk(s, g)
    requires s.threads[w].Reporting? && s.threads[w].family == f && s.threads[w].outcome == outcome
    ensures g < |Reports(s, w, f, outcome).value.families| && FamilyOk(Reports(s, w, f, outcome).value, g)
  {}

  lemma {:induction false} ReportsThread(s: State, w: nat, f: nat, outcome: Outcome, v: nat)
    requires w < |s.threads| && f < |s.families| && v < |s.threads| && ThreadOk(s, w) && ThreadOk(s, v)
    requires s.threads[w].Reporting? && s.threads[w].family == f && s.threads[w].outcome == outcome
    ensures v < |Reports(s, w, f, outcome).value.threads| && ThreadOk(Reports(s, w, f, outcome).value, v)
  {
    LeavesThread(s, w, v);
  }

  lemma {:induction false} StepKeepsInv(s: State, step: Step)
    requires Inv(s) && Apply(s, step) != None
    ensures Inv(Apply(s, step).value)
  {
    var w := step.thread;
    assert ThreadOk(s, w);
    match s.threads[w]
    case Idle => StartsKeepsInv(s, w, step.action);
    case Checked(h) => LocksKeepsInv(s, w, h);
    case InOperation(h) =>
      if step.action.FinishClone? {
        CloneKeepsInv(s, w, h);
      } else if step.action.DrawConcludes? {
        DrawnKeepsInv(s, s.handles[h].family, step.action.outcome);
      } else {
        LeavesKeepsInv(s, w);
      }
    case Completing(h, outcome) =>
      if step.action.RejectStatus? || s.handles[h].completed {
        LeavesKeepsInv(s, w);
      } else {
        MarkKeepsInv(s, w, h, outcome);
      }
    case Claiming(h, outcome) =>
      if FamilyOf(s, h).completed {
        LeavesKeepsInv(s, w);
      } else {
        SetsFlagKeepsInv(s, w, Some(h), s.handles[h].family, outcome);
      }
    case Reporting(_, f, outcome) => ReportsKeepsInv(s, w, f, outcome);
  }

  lemma {:induction false} StartsKeepsInv(s: State, w: nat, a: Action)
    requires Inv(s) && w < |s.threads| && s.threads[w].Idle? && Starts(s, w, a) != None
    ensures Inv(Starts(s, w, a).value)
  {
    match a
    case Check(h) => CheckKeepsInv(s, w, h);
    case LockToComplete(h, outcome) => WaitForLockKeepsInv(s, w, h, outcome);
    case FreeHandle(h) => FreeHandleKeepsInv(s, w, h);
    case NextTestCase(offers) => ResumedKeepsInv(s, offers);
    case FreeRun => FreeRunKeepsInv(s, w);
    case _ =>
  }

  lemma {:induction false} FreeRunKeepsInv(s: State, w: nat)
    requires Inv(s) && w < |s.threads| && s.threads[w].Idle?
    ensures Starts(s, w, FreeRun) != None && Inv(Starts(s, w, FreeRun).value)
  {
    var t := s.(engine := false, current := None);
    forall h: nat | h < |t.handles| ensures HandleOk(t, h) { assert HandleOk(s, h); }
    forall f: nat | f < |t.families| ensures FamilyOk(t, f) { assert FamilyOk(s, f); }
    forall v: nat | v < |t.threads| ensures ThreadOk(t, v) { assert ThreadOk(s, v); }
    if s.current.Some? && !s.families[s.current.value].completed {
      SetsFlagKeepsInv(t, w, None, s.current.value, Outcome.Valid);
    }
  }

  lemma {:induction false} RunKeepsInv(s: State, steps: seq<Step>)
    requires Inv(s) && Run(s, steps) != None
    ensures Inv(Run(s, steps).value)
    decreases |steps|
  {
    if steps != [] {
      StepKeepsInv(s, steps[0]);
      RunKeepsInv(Apply(s, steps[0]).value, steps[1..]);
    }
  }

  ghost predicate Reachable(n: nat, s: State) { exists steps :: Run(Init(n), steps) == Some(s) }

  lemma {:induction false} ReachableOk(n: nat, s: State)
    requires Reachable(n, s)
    ensures Inv(s)
  {
    var steps :| Run(Init(n), steps) == Some(s);
    RunKeepsInv(Init(n), steps);
  }

  // ---------- completion ----------

  /** However handles are cloned, completed and freed: a family is reported at
      most once, with the outcome of whoever set its flag first, and it is
      complete but unreported exactly while that thread is on its way. */
  lemma {:induction false} FirstClaimIsTheOnlyReport(n: nat, s: State, f: nat)
    requires Reachable(n, s) && f < |s.families|
    ensures var x := s.families[f];
            && (x.completed <==> x.winner.Some?)
            && (x.reports == [] || (x.completed && x.reports == [x.winner.value.outcome]))
            && (x.completed && x.reports == [] <==> exists w: nat :: IsReporting(s, w, f))
  {
    ReachableOk(n, s);
    var x := s.families[f];
    assert FamilyOk(s, f);
    forall w: nat | IsReporting(s, w, f) ensures x.completed && x.reports == [] { assert ThreadOk(s, w); }
    if x.completed && x.reports == [] {
      assert IsReporting(s, x.winner.value.thread, f);
    }
  }

  /** What is decided of a family stays decided. */
  predicate Later(x: Family, y: Family) {
    && (x.completed ==> y.completed && y.winner == x.winner)
    && x.reports <= y.reports
    && (x.concluded.Some? ==> y.concluded == x.concluded && y.drawn == x.drawn)
  }

  lemma {:induction false} StepDecides(s: State, step: Step, f: nat)
    requires Inv(s) && Apply(s, step) != None && f < |s.families|
    ensures f < |Apply(s, step).value.families| && Later(s.families[f], Apply(s, step).value.families[f])
  {
    var w := step.thread;
    assert ThreadOk(s, w) && FamilyOk(s, f);
    match s.threads[w]
    case Idle => StartsDecides(s, w, step.action, f);
    case Checked(h) => assert Apply(s, step) == Locks(s, w, h);
    case InOperation(h) => OperatesDecides(s, w, h, step.action, f);
    case Completing(h, outcome) => assert Apply(s, step) == Completes(s, w, h, outcome, step.action);
    case Claiming(h, outcome) => assert Apply(s, step) == Claims(s, w, h, outcome);
    case Reporting(_, g, outcome) => assert Apply(s, step) == Reports(s, w, g, outcome);
  }

  lemma {:induction false} StartsDecides(s: State, w: nat, a: Action, f: nat)
    requires w < |s.threads| && f < |s.families| && FamilyOk(s, f) && Starts(s, w, a) != None
    ensures f < |Starts(s, w, a).value.families| && Later(s.families[f], Starts(s, w, a).value.families[f])
  {}

  lemma {:induction false} OperatesDecides(s: State, w: nat, h: nat, a: Action, f: nat)
    requires w < |s.threads| && f < |s.families| && FamilyOk(s, f) && Operates(s, w, h, a) != None
    ensures f < |Operates(s, w, h, a).value.families| && Later(s.families[f], Operates(s, w, h, a).value.families[f])
  {}

  /** Completion, its winner, its report and the conclusion are never undone. */
  lemma {:induction false} DecisionsStand(s: State, steps: seq<Step>, f: nat)
    requires Inv(s) && Run(s, steps) != None && f < |s.families|
    ensures f < |Run(s, steps).value.families| && Later(s.families[f], Run(s, steps).value.families[f])
    decreases |steps|
  {
    if steps != [] {
      StepKeepsInv(s, steps[0]);
      StepDecides(s, steps[0], f);
      DecisionsStand(Apply(s, steps[0]).value, steps[1..], f);
    }
  }

  /** Freeing a run leaves no case open: the outstanding one, unless it is complete
      already, is claimed as valid, and the engine is gone. */
  lemma {:induction false} FreeingConcludes(s: State, w: nat)
    requires Inv(s) && w < |s.threads| && s.threads[w].Idle?
    ensures Apply(s, Step(w, FreeRun)) != None
    ensures var t := Apply(s, Step(w, FreeRun)).value;
            && !t.engine && t.current == None
            && (s.current.Some? ==>
                  var f := s.current.value;
                  && f < |s.families| == |t.families| && t.families[f].completed
                  && if s.families[f].completed then t == s.(engine := false, current := None)
                     else IsReporting(t, w, f) && t.families[f].winner == Some(Winner(w, Outcome.Valid)))
  {
    FreeRunKeepsInv(s, w);
  }

  /** And so it stays: in any further execution, whatever threads and handles do,
      the case that was open when the run was freed is reported as nothing but
      valid. */
  lemma {:induction false} FreedCasesAreValid(s: State, w: nat, steps: seq<Step>)
    requires Inv(s) && w < |s.threads| && s.threads[w].Idle?
    requires s.current.Some? && s.current.value < |s.families| && !s.families[s.current.value].completed
    requires Run(s, [Step(w, FreeRun)] + steps) != None
    ensures var t, f := Run(s, [Step(w, FreeRun)] + steps).value, s.current.value;
            && f < |t.families| && t.families[f].completed
            && (t.families[f].reports == [] || t.families[f].reports == [Outcome.Valid])
            && (t.families[f].reports == [] ==> IsReporting(t, w, f))
  {
    var f, step := s.current.value, Step(w, FreeRun);
    var freed := Apply(s, step).value;
    assert ([step] + steps)[1..] == steps;
    FreeingConcludes(s, w);
    StepKeepsInv(s, step);
    RunKeepsInv(freed, steps);
    DecisionsStand(freed, steps, f);
    assert FamilyOk(Run(freed, steps).value, f);
  }

  // ---------- one thread's view ----------

  /** A family's object, in the state of this protocol. */
  ghost predicate Mirrors(o: RP.Family, f: Family)
    reads o, o.ds
  {
    o.completed == f.completed && o.ds.reports == f.reports && o.ds.concluded == f.concluded
  }

  /** Completing a family in one step is setting the flag and then reporting. */
  method CompleteAtOnce(o: RP.Family, outcome: Outcome, ghost s: State, ghost w: nat, ghost via: Option<nat>, ghost f: nat)
    returns (ghost t: State)
    requires o.Valid() && w < |s.threads| && f < |s.families| && Mirrors(o, s.families[f])
    modifies o, o.ds
    ensures o.Valid() && f < |t.families| && Mirrors(o, t.families[f])
    ensures if s.families[f].completed then t == s
            else Reports(SetsFlag(s, w, via, f, outcome), w, f, outcome) == Some(t)
  {
    o.Complete(outcome);
    t := if s.families[f].completed then s else Reports(SetsFlag(s, w, via, f, outcome), w, f, outcome).value;
  }

  // ---------- guarded operations ----------

  /** At most one thread is inside an operation on a handle, completing it
      included. */
  lemma {:induction false} OneOperationPerHandle(n: nat, s: State, v: nat, w: nat)
    requires Reachable(n, s) && v < |s.threads| && w < |s.threads| && v != w
    ensures Holds(s.threads[v]).Some? ==> Holds(s.threads[v]) != Holds(s.threads[w])
  {
    ReachableOk(n, s);
    assert ThreadOk(s, v) && ThreadOk(s, w);
  }

  /** The threads past the completion check on some handle of family `f`. */
  predicate InFlight(s: State, w: nat, f: nat) {
    && w < |s.threads| && (s.threads[w].Checked? || s.threads[w].InOperation?)
    && s.threads[w].handle < |s.handles| && s.handles[s.threads[w].handle].family == f
  }

  /** Once a family is complete no operation gets past the check on any handle,
      clones made later included: those in flight can only finish. */
  lemma {:induction false} CompleteFamiliesAdmitNothing(s: State, steps: seq<Step>, w: nat, f: nat)
    requires Inv(s) && f < |s.families| && s.families[f].completed && Run(s, steps) != None
    requires InFlight(Run(s, steps).value, w, f)
    ensures InFlight(s, w, f)
    decreases |steps|
  {
    if steps != [] {
      var t := Apply(s, steps[0]).value;
      StepKeepsInv(s, steps[0]);
      StepDecides(s, steps[0], f);
      CompleteFamiliesAdmitNothing(t, steps[1..], w, f);
      NothingNewInFlight(s, steps[0], w, f);
    }
  }

  lemma {:induction false} OthersStay(s: State, step: Step, v: nat)
    requires Apply(s, step) != None && v != step.thread
    ensures var t := Apply(s, step).value;
            |t.threads| == |s.threads| && (v < |s.threads| ==> t.threads[v] == s.threads[v])
  {
    var w := step.thread;
    match s.threads[w]
    case Idle =>
    case Checked(g) => assert Locks(s, w, g) == Apply(s, step);
    case Reporting(_, _, _) =>
    case _ => assert !s.threads[w].Reporting?;
  }

  lemma {:induction false} HandlesStay(s: State, step: Step, h: nat)
    requires Apply(s, step) != None && h < |s.handles|
    ensures var t := Apply(s, step).value;
            h < |t.handles| && t.handles[h].family == s.handles[h].family
  {
    var w := step.thread;
    match s.threads[w]
    case Idle =>
    case Checked(g) => assert Locks(s, w, g) == Apply(s, step);
    case Reporting(_, _, _) =>
    case _ => assert !s.threads[w].Reporting?;
  }

  lemma {:induction false} NothingNewInFlight(s: State, step: Step, w: nat, f: nat)
    requires Inv(s) && Apply(s, step) != None && f < |s.families| && s.families[f].completed
    requires InFlight(Apply(s, step).value, w, f)
    ensures InFlight(s, w, f)
  {
    var h := Apply(s, step).value.threads[w].handle;
    if w != step.thread {
      OthersStay(s, step, w);
      assert ThreadOk(s, w);
      HandlesStay(s, step, h);
    } else {
      OwnChecks(s, step);
    }
  }

  /** A thread is past the check only by passing it, or by having passed it. */
  lemma {:induction false} OwnChecks(s: State, step: Step)
    requires Inv(s) && Apply(s, step) != None
    ensures var t, w := Apply(s, step).value, step.thread;
            t.threads[w].Checked? || t.threads[w].InOperation? ==>
              var h := t.threads[w].handle;
              && h < |s.handles| && h < |t.handles| && t.handles[h].family == s.handles[h].family
              && (s.threads[w] == Checked(h) || s.threads[w] == InOperation(h) || (Usable(s, h) && !FamilyOf(s, h).completed))
  {
    var w := step.thread;
    var t := Apply(s, step).value;
    assert ThreadOk(s, w);
    match s.threads[w]
    case Idle => PassesCheck(s, w, step.action);
    case Checked(g) => assert t == Locks(s, w, g).value;
    case InOperation(_) => StaysInside(s, step);
    case _ => assert !t.threads[w].Checked?;
  }

  lemma {:induction false} PassesCheck(s: State, w: nat, a: Action)
    requires Inv(s) && w < |s.threads| && s.threads[w].Idle? && Starts(s, w, a) != None
    ensures var pc := Starts(s, w, a).value.threads[w];
            && !pc.InOperation?
            && (pc.Checked? ==>
                  Usable(s, pc.handle) && !FamilyOf(s, pc.handle).completed && Starts(s, w, a).value.handles == s.handles)
  {}

  lemma {:induction false} StaysInside(s: State, step: Step)
    requires Inv(s) && Apply(s, step) != None && s.threads[step.thread].InOperation?
    ensures var t, w := Apply(s, step).value, step.thread;
            !t.threads[w].Checked?
            && (t.threads[w].InOperation? ==> t.threads[w] == s.threads[w] && t.handles == s.handles)
  {}

  // ---------- the engine and the reports ----------

  /** Resumed after the flag is set, the engine finds no conclusion exactly when
      some thread has set the flag and not yet reported and no draw has concluded
      the case. Otherwise it reads the conclusion that came first: a draw's, which
      is never a failure, or else the winner's outcome. */
  lemma {:induction false} ResumedTooSoon(n: nat, s: State, w: nat, offers: bool)
    requires Reachable(n, s) && s.engine && s.current.Some?
    requires s.current.value < |s.families| && s.families[s.current.value].completed
    requires Apply(s, Step(w, NextTestCase(offers))) != None
    ensures var t, f := Apply(s, Step(w, NextTestCase(offers))).value, s.families[s.current.value];
            && |t.seen| == |s.seen| + 1
            && (t.seen[|s.seen|] == None <==> !f.drawn && exists v: nat :: IsReporting(s, v, s.current.value))
            && (f.drawn ==> t.seen[|s.seen|] == f.concluded)
            && (t.seen[|s.seen|].Some? && f.drawn ==> !t.seen[|s.seen|].value.Interesting?)
            && (t.seen[|s.seen|].Some? && !f.drawn ==> f.winner.Some? && t.seen[|s.seen|] == Some(f.winner.value.outcome))
  {
    FirstClaimIsTheOnlyReport(n, s, s.current.value);
    ReachableOk(n, s);
    assert FamilyOk(s, s.current.value);
  }

  /** Thread 1 is about to set the outstanding family's flag. */
  predicate AboutToClaim(s: State) {
    && |s.threads| == 2 && s.threads[0] == Idle && s.threads[1] == Claiming(0, Outcome.Valid)
    && s.engine && s.current == Some(0) && s.seen == []
    && |s.families| == 1 && s.families[0] == Family(false, None, [], None, false)
    && |s.handles| == 1 && s.handles[0] == Handle(0, true, Some(1), false)
  }

  lemma {:induction false} ClaimThenResume(s: State)
    requires AboutToClaim(s)
    ensures var steps := [Step(1, Claim)] + ([Step(0, NextTestCase(false))] + []);
            Run(s, steps).Some? && None in Run(s, steps).value.seen
  {
    var last := Step(0, NextTestCase(false));
    var t := Apply(s, Step(1, Claim)).value;
    var u := Apply(t, last).value;
    assert u.seen == [None];
    RunStep(t, last, [], u);
    RunStep(s, Step(1, Claim), [last] + [], t);
  }

  /** With the flag and the report two steps, that happens: two threads suffice. */
  lemma {:induction false} ResumedBeforeTheReport()
    ensures exists steps :: Run(Init(2), steps).Some? && None in Run(Init(2), steps).value.seen
  {
    var next, lock, mark := Step(0, NextTestCase(true)), Step(1, LockToComplete(0, Outcome.Valid)), Step(1, MarkHandle);
    var s0 := Init(2);
    var s1 := Apply(s0, next).value;
    var s2 := Apply(s1, lock).value;
    var s3 := Apply(s2, mark).value;
    ClaimThenResume(s3);
    var rest := [Step(1, Claim)] + ([Step(0, NextTestCase(false))] + []);
    RunStep(s2, mark, rest, s3);
    RunStep(s1, lock, [mark] + rest, s2);
    RunStep(s0, next, [lock] + ([mark] + rest), s1);
  }

  lemma {:induction false} RunStep(s: State, step: Step, rest: seq<Step>, t: State)
    requires Apply(s, step) == Some(t)
    ensures Run(s, [step] + rest) == Run(t, rest)
  {
    assert ([step] + rest)[1..] == rest;
  }

  /** A step, with the report following at once if it set a flag. */
  function ApplyAtomic(s: State, step: Step): Option<State> {
    var next := Apply(s, step);
    if next.Some? && step.thread < |next.value.threads| && next.value.threads[step.thread].Reporting?
    then Apply(next.value, Step(step.thread, Report))
    else next
  }

  function RunAtomic(s: State, steps: seq<Step>): Option<State>
    decreases |steps|
  {
    if steps == [] then Some(s)
    else
      var next := ApplyAtomic(s, steps[0]);
      if next == None then None else RunAtomic(next.value, steps[1..])
  }

  /** No thread is between the flag and the report, and the engine has read a
      conclusion off every case it was resumed after. */
  ghost predicate Settled(s: State) {
    && Inv(s)
    && (forall w | 0 <= w < |s.threads| :: !s.threads[w].Reporting?)
    && (forall i | 0 <= i < |s.seen| :: s.seen[i].Some?)
  }

  lemma {:induction false} AtomicStepsSettle(s: State, step: Step)
    requires Settled(s) && ApplyAtomic(s, step) != None
    ensures Settled(ApplyAtomic(s, step).value)
  {
    var t := Apply(s, step).value;
    StepKeepsInv(s, step);
    ReadsReports(s, step);
    forall v: nat | v < |t.threads| && v != step.thread ensures !t.threads[v].Reporting? {
      OthersStay(s, step, v);
    }
    if step.thread < |t.threads| && t.threads[step.thread].Reporting? {
      var report := Step(step.thread, Report);
      StepKeepsInv(t, report);
      forall v: nat | v < |t.threads| && v != step.thread ensures v < |Apply(t, report).value.threads| && !Apply(t, report).value.threads[v].Reporting? {
        OthersStay(t, report, v);
      }
    }
  }

  lemma {:induction false} ReadsReports(s: State, step: Step)
    requires Settled(s) && Apply(s, step) != None
    ensures forall i | 0 <= i < |Apply(s, step).value.seen| :: Apply(s, step).value.seen[i].Some?
  {
    if s.current.Some? { assert FamilyOk(s, s.current.value); }
  }

  /** With the report following the flag at once, the engine is never resumed
      before the outstanding case's outcome is recorded. */
  lemma {:induction false} OutcomesAreRecordedFirst(s: State, steps: seq<Step>)
    requires Settled(s) && RunAtomic(s, steps) != None
    ensures Settled(RunAtomic(s, steps).value)
    decreases |steps|
  {
    if steps != [] {
      AtomicStepsSettle(s, steps[0]);
      OutcomesAreRecordedFirst(ApplyAtomic(s, steps[0]).value, steps[1..]);
    }
  }

  lemma {:induction false} NeverResumedTooSoon(n: nat, steps: seq<Step>)
    requires RunAtomic(Init(n), steps) != None
    ensures None !in RunAtomic(Init(n), steps).value.seen
  {
    OutcomesAreRecordedFirst(Init(n), steps);
  }

  // ---------- the run ----------

  /** An outstanding case means a live engine; a run that has finished, or been
      freed, hands out nothing more. */
  lemma {:induction false} FinishedRunsStayFinished(n: nat, s: State, steps: seq<Step>)
    requires Reachable(n, s) && Run(s, steps) != None
    ensures s.current.Some? ==> s.engine
    ensures s.finished ==> !s.engine
    ensures !s.engine ==> SameRun(s, Run(s, steps).value)
  {
    ReachableOk(n, s);
    if !s.engine { EngineStaysGone(s, steps); }
  }

  predicate SameRun(s: State, t: State) {
    !t.engine && t.current == None && t.finished == s.finished && t.seen == s.seen && |t.families| == |s.families|
  }

  lemma {:induction false} EngineStaysGone(s: State, steps: seq<Step>)
    requires Inv(s) && !s.engine && Run(s, steps) != None
    ensures SameRun(s, Run(s, steps).value)
    decreases |steps|
  {
    if steps != [] {
      StepKeepsInv(s, steps[0]);
      StepStaysGone(s, steps[0]);
      EngineStaysGone(Apply(s, steps[0]).value, steps[1..]);
    }
  }

  lemma {:induction false} StepStaysGone(s: State, step: Step)
    requires Inv(s) && !s.engine && Apply(s, step) != None
    ensures SameRun(s, Apply(s, step).value)
  {}
}
