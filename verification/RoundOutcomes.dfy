/** What the main thread collects from a round against what each worker did in it,
    over whole executions of the concurrent runner (src/stateful.rs). */
module RoundOutcomes {
  import opened Wrappers
  import opened WorkerEvents
  import opened ConcurrentRounds

  /** What worker `w` did since it last took a round, having done `before` then. */
  function Doings(steps: seq<Step>, w: nat, before: seq<Action>): seq<Action>
    decreases |steps|
  {
    if steps == [] then before else Doings(steps[1..], w, After(steps[0], w, before))
  }

  function After(step: Step, w: nat, before: seq<Action>): seq<Action> {
    if !step.Work? || step.worker != w then before
    else if step.action.Receive? then []
    else if WithinRound(step.action) then before + [step.action]
    else before
  }

  /** A worker that has just taken a round. */
  const FRESH: Lane := Lane(Pulling, [], [], 0, 0, 0, 0, 0)

  /** These steps bring a worker from the start of a round to `pc`. */
  predicate Reaches(c: Config, group: nat, doings: seq<Action>, pc: WorkerPc) {
    && AllWithin(doings)
    && Works(c, group, FRESH, doings).Some? && Works(c, group, FRESH, doings).value.pc == pc
  }

  lemma {:induction false} WorksOn(c: Config, group: nat, l: Lane, doings: seq<Action>, a: Action)
    ensures Works(c, group, l, doings + [a])
            == match Works(c, group, l, doings) case None => None case Some(m) => WorkerStep(c, group, true, true, m, a)
    decreases |doings|
  {
    if doings != [] {
      assert (doings + [a])[1..] == doings[1..] + [a];
      var next := WorkerStep(c, group, true, true, l, doings[0]);
      if next.Some? { WorksOn(c, group, next.value, doings[1..], a); }
    } else {
      assert [a][1..] == [];
    }
  }

  /** Within a round only where the worker stands decides where it goes. */
  lemma {:induction false} StandingDecides(c: Config, group: nat, senderOpen: bool, receiverOpen: bool, l: Lane, m: Lane, a: Action)
    requires WithinRound(a) && l.pc == m.pc && WorkerStep(c, group, senderOpen, receiverOpen, l, a).Some?
    ensures var next := WorkerStep(c, group, senderOpen, receiverOpen, l, a).value;
            && WorkerStep(c, group, true, true, m, a).Some? && WorkerStep(c, group, true, true, m, a).value.pc == next.pc
            && next.outbox == l.outbox && Busy(next.pc)
  {}

  lemma {:induction false} ReachesOn(
      c: Config, group: nat, senderOpen: bool, receiverOpen: bool, doings: seq<Action>, l: Lane, a: Action)
    requires Reaches(c, group, doings, l.pc) && WithinRound(a)
    requires WorkerStep(c, group, senderOpen, receiverOpen, l, a).Some?
    ensures Reaches(c, group, doings + [a], WorkerStep(c, group, senderOpen, receiverOpen, l, a).value.pc)
  {
    WorksOn(c, group, FRESH, doings, a);
    StandingDecides(c, group, senderOpen, receiverOpen, l, Works(c, group, FRESH, doings).value, a);
  }

  // ---------- the invariant ----------

  /** A busy worker stands where its doings bring it; what it has sent, and what the
      main thread has taken from it, is what they came to send. */
  predicate Earned(c: Config, s: State, w: nat, doings: seq<Action>)
    requires |s.lanes| == c.n && w < c.n
  {
    var l := s.lanes[w];
    && (Busy(l.pc) ==> Reaches(c, s.group, doings, l.pc))
    && (!Leaving(s.main) && l.outbox != [] ==> Reaches(c, s.group, doings, Sending(l.outbox[0])))
    && (s.main.Collecting? && w < |s.main.got| ==>
          if l.pc.Exited? then s.main.got[w] == Died else Reaches(c, s.group, doings, Sending(s.main.got[w])))
  }

  lemma {:induction false} OwnStepEarns(c: Config, s: State, w: nat, a: Action, doings: seq<Action>)
    requires Inv(c, s) && Apply(c, s, Work(w, a)).Some? && w < c.n && Earned(c, s, w, doings)
    ensures Earned(c, Apply(c, s, Work(w, a)).value, w, After(Work(w, a), w, doings))
  {
    var l := s.lanes[w];
    assert LaneOk(l, StageOf(s, w));
    if WithinRound(a) {
      ReachesOn(c, s.group, SenderOpen(s.main, w), ReceiverOpen(s.main, w), doings, l, a);
    }
  }

  lemma {:induction false} OtherStepEarns(c: Config, s: State, step: Step, w: nat, doings: seq<Action>)
    requires Inv(c, s) && Apply(c, s, step).Some? && w < c.n && Earned(c, s, w, doings)
    requires step.Work? ==> step.worker != w
    ensures |Apply(c, s, step).value.lanes| == c.n && Earned(c, Apply(c, s, step).value, w, doings)
  {
    assert LaneOk(s.lanes[w], StageOf(s, w));
  }

  lemma {:induction false} RunEarns(c: Config, s: State, steps: seq<Step>, w: nat, doings: seq<Action>)
    requires Inv(c, s) && Run(c, s, steps).Some? && w < c.n && Earned(c, s, w, doings)
    ensures Inv(c, Run(c, s, steps).value) && Earned(c, Run(c, s, steps).value, w, Doings(steps, w, doings))
    decreases |steps|
  {
    if steps != [] {
      var step := steps[0];
      StepKeepsInv(c, s, step);
      if step.Work? && step.worker == w {
        OwnStepEarns(c, s, w, step.action, doings);
      } else {
        OtherStepEarns(c, s, step, w, doings);
      }
      RunEarns(c, Apply(c, s, step).value, steps[1..], w, After(step, w, doings));
    }
  }

  // ---------- what is collected ----------

  /** What the main thread collects from a worker is the event that the worker's own
      steps since it took the round end with, or that it died if it is gone. */
  lemma {:induction false} EventsAreEarned(c: Config, steps: seq<Step>, s: State, w: nat)
    requires Run(c, Init(c), steps) == Some(s) && s.main.Collecting? && w < |s.main.got|
    ensures |s.lanes| == c.n && w < c.n
    ensures if s.lanes[w].pc.Exited? then s.main.got[w] == Died
            else EndsWith(Pulls(Doings(steps, w, [])), s.main.got[w])
  {
    CollectedIsReached(c, steps, s, w);
    if !s.lanes[w].pc.Exited? {
      RoundsSendTheirEnding(c, s.group, FRESH, Doings(steps, w, []));
    }
  }

  lemma {:induction false} CollectedIsReached(c: Config, steps: seq<Step>, s: State, w: nat)
    requires Run(c, Init(c), steps) == Some(s) && s.main.Collecting? && w < |s.main.got|
    ensures |s.lanes| == c.n && w < c.n
    ensures if s.lanes[w].pc.Exited? then s.main.got[w] == Died
            else Reaches(c, s.group, Doings(steps, w, []), Sending(s.main.got[w]))
  {
    InitOk(c);
    RunKeepsInv(c, Init(c), steps);
    RunEarns(c, Init(c), steps, w, []);
  }

  /** The step by which a worker comes to send an event. */
  lemma {:induction false} LastStepSends(c: Config, group: nat, doings: seq<Action>, event: Event)
    requires Reaches(c, group, doings, Sending(event))
    ensures doings != []
    ensures match doings[|doings| - 1]
            case EndRound => event == RoundDone
            case PullRaises(u) => event == Classify(u)
            case RuleRaises(u) => event == Classify(u)
            case RecordRaises(u) => event == Classify(u)
            case _ => false
  {
    var init, last := doings[..|doings| - 1], doings[|doings| - 1];
    assert doings == init + [last];
    WorksOn(c, group, FRESH, init, last);
  }

  lemma {:induction false} CheckedIffAllDone(c: Config, steps: seq<Step>, s: State)
    requires Run(c, Init(c), steps) == Some(s) && s.main.Collecting? && |s.main.got| == c.n
    ensures |s.lanes| == c.n && Apply(c, s, ResolveEvents).Some?
    ensures var main := Apply(c, s, ResolveEvents).value.main;
            && (main.Checking? <==> forall w: nat | w < c.n :: s.main.got[w] == RoundDone)
            && (main.Checking? || main == DroppingReceivers(0))
  {
    assert Reachable(c, s);
    OnlyFinishedRoundsAreChecked(c, s);
    var got := s.main.got;
    if forall w: nat | w < c.n :: got[w] == RoundDone {
      forall e | e in got ensures e == RoundDone { var w: nat :| w < c.n && got[w] == e; }
    } else {
      var w: nat :| w < c.n && got[w] != RoundDone;
      assert got[w] in got;
    }
  }

  /** After a round the invariants are checked exactly when every worker is alive and
      last found that there are no more rules for it. */
  lemma {:induction false} CheckedIffEveryRoundEnded(c: Config, steps: seq<Step>, s: State)
    requires Run(c, Init(c), steps) == Some(s) && s.main.Collecting? && |s.main.got| == c.n
    ensures |s.lanes| == c.n && Apply(c, s, ResolveEvents).Some?
    ensures Apply(c, s, ResolveEvents).value.main.Checking? <==>
              forall w: nat | w < c.n :: !s.lanes[w].pc.Exited? && EndsInTurn(Doings(steps, w, []))
  {
    CheckedIffAllDone(c, steps, s);
    forall w: nat | w < c.n
      ensures s.main.got[w] == RoundDone <==> !s.lanes[w].pc.Exited? && EndsInTurn(Doings(steps, w, []))
    {
      CollectedIsReached(c, steps, s, w);
      if !s.lanes[w].pc.Exited? { LastStepSends(c, s.group, Doings(steps, w, []), s.main.got[w]); }
    }
  }

  predicate EndsInTurn(doings: seq<Action>) { doings != [] && doings[|doings| - 1] == EndRound }

  /** A round in which some worker's rule panicked goes on to no invariant: the main
      thread gets that panic from the worker, or finds it dead, and leaves. */
  lemma {:induction false} PanickedRoundsAreNotChecked(c: Config, steps: seq<Step>, s: State, w: nat, u: Unwind)
    requires Run(c, Init(c), steps) == Some(s) && s.main.Collecting? && |s.main.got| == c.n && w < c.n
    requires u.payload.Panic? && RuleRaises(u) in Doings(steps, w, [])
    ensures s.main.got[w] == Died || s.main.got[w] == Panicked(u.payload, u.captured)
    ensures |s.lanes| == c.n && Apply(c, s, ResolveEvents).Some?
    ensures Apply(c, s, ResolveEvents).value.main == DroppingReceivers(0)
  {
    CheckedIffAllDone(c, steps, s);
    CollectedIsReached(c, steps, s, w);
    if !s.lanes[w].pc.Exited? { PanicIsSent(c, s.group, Doings(steps, w, []), s.main.got[w], u); }
  }

  lemma {:induction false} PanicIsSent(c: Config, group: nat, doings: seq<Action>, event: Event, u: Unwind)
    requires Reaches(c, group, doings, Sending(event)) && RuleRaises(u) in doings && u.payload.Panic?
    ensures event == Panicked(u.payload, u.captured)
  {
    var i :| 0 <= i < |doings| && doings[i] == RuleRaises(u);
    PanicIsLast(c, group, FRESH, doings, i, u);
    LastStepSends(c, group, doings, event);
  }

  /** A panic ends what a worker does in a round. */
  lemma {:induction false} PanicIsLast(c: Config, group: nat, l: Lane, doings: seq<Action>, i: nat, u: Unwind)
    requires AllWithin(doings) && Works(c, group, l, doings).Some?
    requires i < |doings| && doings[i] == RuleRaises(u) && u.payload.Panic?
    ensures i == |doings| - 1
    decreases i
  {
    var next := WorkerStep(c, group, true, true, l, doings[0]).value;
    if i == 0 {
      SendingStays(c, group, next, doings[1..]);
    } else {
      PanicIsLast(c, group, next, doings[1..], i - 1, u);
    }
  }

  // ---------- what is checked ----------

  /** How often the invariants were found to hold. */
  function Checks(steps: seq<Step>): nat {
    if steps == [] then 0 else (if steps[0].InvariantsHold? then 1 else 0) + Checks(steps[1..])
  }

  /** How often the engine said that there are no more groups. */
  function Stops(steps: seq<Step>): nat {
    if steps == [] then 0 else (if steps[0].NoMoreGroups? then 1 else 0) + Stops(steps[1..])
  }

  /** How many more rounds than checks there have been, and how often the engine has
      stopped, by where the main thread is. */
  predicate Owes(main: MainPc, owed: int, stops: nat) {
    match main
    case Choosing => owed == 0 && stops == 0
    case Announcing(_) => owed == 1 && stops == 0
    case Collecting(_) => owed == 1 && stops == 0
    case Checking => owed == 1 && stops == 0
    case CheckingFinal => owed == 0 && stops == 1
    case _ => (owed == 1 && stops == 0) || (owed == -1 && stops == 1)
  }

  function Owing(step: Step, owed: int): int {
    if step.ChooseGroup? then owed + 1 else if step.InvariantsHold? then owed - 1 else owed
  }

  lemma {:induction false} StepOwes(c: Config, s: State, step: Step, owed: int, stops: nat)
    requires Inv(c, s) && Apply(c, s, step).Some? && step != MainRaises && Owes(s.main, owed, stops)
    ensures Owes(Apply(c, s, step).value.main, Owing(step, owed), if step.NoMoreGroups? then stops + 1 else stops)
  {}

  lemma {:induction false} RunOwes(c: Config, s: State, steps: seq<Step>, owed: int, stops: nat)
    requires Inv(c, s) && Run(c, s, steps).Some? && MainRaises !in steps && Owes(s.main, owed, stops)
    ensures Owes(Run(c, s, steps).value.main, owed + Rounds(steps) - Checks(steps), stops + Stops(steps))
    decreases |steps|
  {
    if steps != [] {
      var step := steps[0];
      StepKeepsInv(c, s, step);
      StepOwes(c, s, step, owed, stops);
      RunOwes(c, Apply(c, s, step).value, steps[1..], Owing(step, owed), if step.NoMoreGroups? then stops + 1 else stops);
    }
  }

  /** Unless the main thread itself unwinds, the invariants are checked once after
      every round before the next begins; it leaves either once the engine has no
      more groups, having checked them on the final state too, or from a round that
      it did not check. */
  lemma {:induction false} EveryRoundIsChecked(c: Config, steps: seq<Step>, s: State)
    requires Run(c, Init(c), steps) == Some(s) && MainRaises !in steps
    ensures s.main.Choosing? ==> Checks(steps) == Rounds(steps) && NoMoreGroups !in steps
    ensures Leaving(s.main) ==> Checks(steps) == if NoMoreGroups in steps then Rounds(steps) + 1 else Rounds(steps) - 1
  {
    InitOk(c);
    RunOwes(c, Init(c), steps, 0, 0);
    StopsMean(steps);
  }

  lemma {:induction false} StopsMean(steps: seq<Step>)
    ensures Stops(steps) > 0 <==> NoMoreGroups in steps
  {
    if steps != [] {
      StopsMean(steps[1..]);
      assert steps == [steps[0]] + steps[1..];
    }
  }
}
