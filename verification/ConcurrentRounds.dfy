/** The concurrent stateful runner as a transition system: one main thread and
    `n` workers, each pair joined by a channel of round messages and a channel
    of events (src/stateful.rs). Every interleaving is a sequence of steps. */
module ConcurrentRounds {
  import opened Wrappers
  import opened WorkerEvents
  import W = WorkerEvents

  /** The number of workers, and each rule's group index. */
  datatype Config = Config(n: nat, ruleGroups: seq<nat>)

  datatype WorkerPc =
    | Parked                  // waiting on the round channel
    | Pulling                 // asking the engine for a rule
    | InRule(rule: nat)       // inside a rule body
    | Rejecting               // recording a rule's failed assumption
    | Sending(event: Event)   // about to send the round's event
    | Exited

  predicate Busy(pc: WorkerPc) { !pc.Parked? && !pc.Exited? }

  /** A worker, its two channels, and how many messages passed each point. A
      round message is the number of the round its test case was cloned in. */
  datatype Lane = Lane(
    pc: WorkerPc, inbox: seq<nat>, outbox: seq<Event>, clone: nat,
    sent: nat, started: nat, reported: nat, received: nat)

  datatype MainPc =
    | Choosing                       // asking the engine for the next group
    | Announcing(next: nat)          // sending the round to each worker
    | Collecting(got: seq<Event>)    // one event from each worker, in order
    | Checking                       // invariants after a round
    | CheckingFinal                  // invariants on the final state
    | DroppingReceivers(next: nat)   // leaving the scope's body, by return or unwind
    | DroppingSenders(next: nat)
    | Joining
    | Done

  datatype State = State(main: MainPc, round: nat, group: nat, lanes: seq<Lane>)

  datatype Action =
    | Receive
    | HangUp                     // the round channel is closed and empty
    | Pull(rule: nat)
    | EndRound                   // the engine has no more rules for this worker
    | PullRaises(unwind: Unwind)
    | RuleCompletes
    | RuleRaises(unwind: Unwind)
    | RecordCompletes
    | RecordRaises(unwind: Unwind)
    | Send
    | Crash                      // an unwind outside every catch

  datatype Step =
    | ChooseGroup(group: nat)
    | NoMoreGroups
    | Announce
    | Collect
    | ResolveEvents
    | InvariantsHold
    | MainRaises                 // the engine, a clone or an invariant unwinds
    | Drop
    | Join
    | Work(worker: nat, action: Action)

  function Init(c: Config): State {
    State(Choosing, 0, 0, seq(c.n, _ => Lane(Parked, [], [], 0, 0, 0, 0, 0)))
  }

  // ---------- steps ----------

  predicate SenderOpen(main: MainPc, w: nat) {
    !main.Joining? && !main.Done? && (main.DroppingSenders? ==> main.next <= w)
  }

  predicate ReceiverOpen(main: MainPc, w: nat) {
    !main.Joining? && !main.Done? && !main.DroppingSenders? && (main.DroppingReceivers? ==> main.next <= w)
  }

  /** A worker's own step; the engine hands out rules of `group` only. */
  function WorkerStep(c: Config, group: nat, senderOpen: bool, receiverOpen: bool, l: Lane, a: Action): Option<Lane> {
    match (l.pc, a)
    case (Parked, Receive) =>
      if l.inbox == [] then None
      else Some(l.(pc := Pulling, clone := l.inbox[0], inbox := l.inbox[1..], started := l.started + 1))
    case (Parked, HangUp) =>
      if l.inbox == [] && !senderOpen then Some(l.(pc := Exited)) else None
    case (Pulling, Pull(rule)) =>
      if rule < |c.ruleGroups| && c.ruleGroups[rule] == group then Some(l.(pc := InRule(rule))) else None
    case (Pulling, EndRound) => Some(l.(pc := Sending(RoundDone)))
    case (Pulling, PullRaises(u)) => Some(l.(pc := Sending(Classify(u))))
    case (InRule(_), RuleCompletes) => Some(l.(pc := Pulling))
    case (InRule(_), RuleRaises(u)) =>
      var event := Classify(u);
      Some(l.(pc := if event == Invalid then Rejecting else Sending(event)))
    case (Rejecting, RecordCompletes) => Some(l.(pc := Pulling))
    case (Rejecting, RecordRaises(u)) => Some(l.(pc := Sending(Classify(u))))
    case (Sending(event), Send) =>
      if receiverOpen then Some(l.(pc := Parked, outbox := l.outbox + [event], reported := l.reported + 1))
      else Some(l.(pc := Exited))
    case (_, Crash) => if Busy(l.pc) then Some(l.(pc := Exited)) else None
    case _ => None
  }

  /** A message to a worker that has exited is lost. */
  function Announced(l: Lane, round: nat): Lane {
    if l.pc.Exited? then l else l.(inbox := l.inbox + [round], sent := l.sent + 1)
  }

  /** Receiving from a worker: its event; `Died` once it has exited with nothing
      sent; otherwise the main thread blocks. */
  function Received(l: Lane): Option<(Event, Lane)> {
    if l.outbox != [] then Some((l.outbox[0], l.(outbox := l.outbox[1..], received := l.received + 1)))
    else if l.pc.Exited? then Some((Died, l))
    else None
  }

  predicate CanRaise(c: Config, main: MainPc) {
    main.Choosing? || main.Checking? || main.CheckingFinal? || (main.Announcing? && main.next < c.n)
  }

  function Apply(c: Config, s: State, step: Step): Option<State>
    requires |s.lanes| == c.n
  {
    match step
    case Work(w, a) =>
      if w >= c.n then None
      else
        var l := WorkerStep(c, s.group, SenderOpen(s.main, w), ReceiverOpen(s.main, w), s.lanes[w], a);
        if l == None then None else Some(s.(lanes := s.lanes[w := l.value]))
    case ChooseGroup(group) =>
      if s.main.Choosing? then Some(s.(main := Announcing(0), round := s.round + 1, group := group)) else None
    case NoMoreGroups =>
      if s.main.Choosing? then Some(s.(main := CheckingFinal)) else None
    case Announce =>
      if !s.main.Announcing? || s.main.next > c.n then None
      else if s.main.next == c.n then Some(s.(main := Collecting([])))
      else
        var k := s.main.next;
        Some(s.(main := Announcing(k + 1), lanes := s.lanes[k := Announced(s.lanes[k], s.round)]))
    case Collect =>
      if !s.main.Collecting? || |s.main.got| >= c.n then None
      else
        var k := |s.main.got|;
        var r := Received(s.lanes[k]);
        if r == None then None
        else Some(s.(main := Collecting(s.main.got + [r.value.0]), lanes := s.lanes[k := r.value.1]))
    case ResolveEvents =>
      if !s.main.Collecting? || |s.main.got| != c.n then None
      else Some(s.(main := if Resolve(s.main.got).verdict == Continue then Checking else DroppingReceivers(0)))
    case InvariantsHold =>
      if s.main.Checking? then Some(s.(main := Choosing))
      else if s.main.CheckingFinal? then Some(s.(main := DroppingReceivers(0)))
      else None
    case MainRaises =>
      if CanRaise(c, s.main) then Some(s.(main := DroppingReceivers(0))) else None
    case Drop =>
      if s.main.DroppingReceivers? && s.main.next < c.n then
        var k := s.main.next;
        Some(s.(main := DroppingReceivers(k + 1), lanes := s.lanes[k := s.lanes[k].(outbox := [])]))
      else if s.main.DroppingReceivers? then Some(s.(main := DroppingSenders(0)))
      else if s.main.DroppingSenders? && s.main.next < c.n then Some(s.(main := DroppingSenders(s.main.next + 1)))
      else if s.main.DroppingSenders? then Some(s.(main := Joining))
      else None
    case Join =>
      if s.main.Joining? && forall l <- s.lanes :: l.pc.Exited? then Some(s.(main := Done)) else None
  }

  /** The state after `steps`, if each could be taken in turn. */
  function Run(c: Config, s: State, steps: seq<Step>): Option<State>
    requires |s.lanes| == c.n
    decreases |steps|
  {
    if steps == [] then Some(s)
    else
      var next := Apply(c, s, steps[0]);
      if next == None then None else Run(c, next.value, steps[1..])
  }

  // ---------- a worker's round ----------

  /** What a worker does between taking a round and sending its event. */
  predicate WithinRound(a: Action) { !a.Receive? && !a.HangUp? && !a.Send? && !a.Crash? }

  predicate AllWithin(actions: seq<Action>) { forall i | 0 <= i < |actions| :: WithinRound(actions[i]) }

  /** The worker's own steps, taken in turn. */
  function Works(c: Config, group: nat, l: Lane, actions: seq<Action>): Option<Lane>
    decreases |actions|
  {
    if actions == [] then Some(l)
    else
      var next := WorkerStep(c, group, true, true, l, actions[0]);
      if next == None then None else Works(c, group, next.value, actions[1..])
  }

  /** The pulls that a round's actions amount to. */
  function Pulls(actions: seq<Action>): seq<W.Pull>
    decreases |actions|, 0
  {
    if actions == [] then []
    else
      match actions[0]
      case EndRound => [W.NoRule]
      case PullRaises(u) => [W.PullRaised(u)]
      case Pull(_) => if |actions| == 1 then [] else RulePulls(actions[1], actions[2..])
      case _ => []
  }

  /** The pull of a rule that ends with `end`, and those of what follows. */
  function RulePulls(end: Action, rest: seq<Action>): seq<W.Pull>
    decreases |rest|, 1
  {
    match end
    case RuleCompletes => [W.RuleCompleted] + Pulls(rest)
    case RuleRaises(u) =>
      if u.payload != AssumeFailed || rest == [] then [W.RuleRaised(u, None)]
      else
        (match rest[0]
         case RecordRaises(v) => [W.RuleRaised(u, Some(v))]
         case _ => [W.RuleRaised(u, None)] + Pulls(rest[1..]))
    case _ => []
  }

  /** Only the last of the pulls ends the round, with this event. */
  predicate EndsWith(pulls: seq<W.Pull>, event: Event) {
    && pulls != [] && Ending(pulls[|pulls| - 1]) == Some(event)
    && forall k | 0 <= k < |pulls| - 1 :: Ending(pulls[k]) == None
  }

  lemma {:induction false} OneMorePull(pull: W.Pull, pulls: seq<W.Pull>, event: Event)
    requires Ending(pull) == None && EndsWith(pulls, event)
    ensures EndsWith([pull] + pulls, event)
  {
    var all := [pull] + pulls;
    assert forall k | 0 < k < |all| :: all[k] == pulls[k - 1];
  }

  /** Whenever a worker comes to send an event, it is the one the pulls of its round
      end with. */
  lemma {:induction false} RoundsSendTheirEnding(c: Config, group: nat, l: Lane, actions: seq<Action>)
    requires l.pc.Pulling? && AllWithin(actions)
    requires Works(c, group, l, actions).Some? && Works(c, group, l, actions).value.pc.Sending?
    ensures EndsWith(Pulls(actions), Works(c, group, l, actions).value.pc.event)
    decreases |actions|
  {
    var a, rest := actions[0], actions[1..];
    var next := WorkerStep(c, group, true, true, l, a).value;
    if a.Pull? {
      RuleSendsItsEnding(c, group, next, rest);
    } else {
      SendingStays(c, group, next, rest);
    }
  }

  lemma {:induction false} SendingStays(c: Config, group: nat, l: Lane, actions: seq<Action>)
    requires l.pc.Sending? && AllWithin(actions)
    requires Works(c, group, l, actions).Some?
    ensures actions == []
  {}

  lemma {:induction false} RuleSendsItsEnding(c: Config, group: nat, l: Lane, actions: seq<Action>)
    requires l.pc.InRule? && AllWithin(actions)
    requires Works(c, group, l, actions).Some? && Works(c, group, l, actions).value.pc.Sending?
    ensures actions != [] && EndsWith(RulePulls(actions[0], actions[1..]), Works(c, group, l, actions).value.pc.event)
    decreases |actions|
  {
    var end, rest := actions[0], actions[1..];
    var next := WorkerStep(c, group, true, true, l, end).value;
    if end.RuleCompletes? {
      RoundsSendTheirEnding(c, group, next, rest);
      OneMorePull(W.RuleCompleted, Pulls(rest), Works(c, group, next, rest).value.pc.event);
    } else if next.pc.Sending? {
      SendingStays(c, group, next, rest);
    } else {
      RejectedSendsItsEnding(c, group, next, rest, end.unwind);
    }
  }

  lemma {:induction false} RejectedSendsItsEnding(c: Config, group: nat, l: Lane, actions: seq<Action>, u: Unwind)
    requires l.pc.Rejecting? && u.payload == AssumeFailed && AllWithin(actions)
    requires Works(c, group, l, actions).Some? && Works(c, group, l, actions).value.pc.Sending?
    ensures EndsWith(RulePulls(RuleRaises(u), actions), Works(c, group, l, actions).value.pc.event)
    decreases |actions|
  {
    var a, rest := actions[0], actions[1..];
    var next := WorkerStep(c, group, true, true, l, a).value;
    if a.RecordRaises? {
      SendingStays(c, group, next, rest);
    } else {
      RoundsSendTheirEnding(c, group, next, rest);
      OneMorePull(W.RuleRaised(u, None), Pulls(rest), Works(c, group, next, rest).value.pc.event);
    }
  }

  /** The loop of a worker's round, on the pulls of its steps, returns the event that
      the steps come to send. */
  method RoundAgrees(c: Config, group: nat, l: Lane, actions: seq<Action>) returns (event: Option<Event>)
    requires l.pc.Pulling? && AllWithin(actions)
    requires Works(c, group, l, actions).Some? && Works(c, group, l, actions).value.pc.Sending?
    ensures event == Some(Works(c, group, l, actions).value.pc.event)
  {
    RoundsSendTheirEnding(c, group, l, actions);
    var used;
    event, used := RunWorkerRound(Pulls(actions));
  }

  // ---------- the invariant ----------

  /** Where the main thread stands with one worker. */
  datatype Stage =
    | Resting(through: int)            // every message through that round is accounted for
    | Awaited(round: nat)              // announced, its event not yet received
    | Settled(round: nat, event: Event)
    | Winding(round: nat)              // the main thread is leaving

  predicate Leaving(main: MainPc) {
    main.DroppingReceivers? || main.DroppingSenders? || main.Joining? || main.Done?
  }

  function StageOf(s: State, w: nat): Stage {
    match s.main
    case Announcing(k) => if w < k then Awaited(s.round) else Resting(s.round - 1)
    case Collecting(got) => if w < |got| then Settled(s.round, got[w]) else Awaited(s.round)
    case Choosing => Resting(s.round)
    case Checking => Resting(s.round)
    case CheckingFinal => Resting(s.round)
    case _ => Winding(s.round)
  }

  predicate LaneOk(l: Lane, stage: Stage) {
    match stage
    case Resting(r) =>
      l.pc.Parked? && l.inbox == [] && l.outbox == [] && l.sent == l.started == l.reported == l.received == r
    case Awaited(r) =>
      && l.sent == r == l.received + 1
      && (|| (l.pc.Parked? && l.inbox == [r] && l.outbox == [] && l.started == l.reported == r - 1)
          || (Busy(l.pc) && l.inbox == [] && l.outbox == [] && l.started == l.clone == r == l.reported + 1)
          || (l.pc.Parked? && l.inbox == [] && |l.outbox| == 1 && l.started == l.reported == r)
          || (l.pc.Exited? && l.inbox == [] && l.outbox == [] && l.started == r == l.reported + 1))
    case Settled(r, event) =>
      && l.inbox == [] && l.outbox == [] && l.sent == l.started == r && l.reported == l.received
      && if event.Died? then l.pc.Exited? && r == l.reported + 1 else l.pc.Parked? && r == l.reported
    case Winding(r) =>
      && |l.inbox| + |l.outbox| <= 1
      && l.sent == l.started + |l.inbox| <= r
      && l.received + |l.outbox| <= l.reported
      && (l.inbox != [] ==> l.pc.Parked? && l.inbox[0] == r == l.sent)
      && (Busy(l.pc) ==> l.outbox == [] && l.started == l.clone == r == l.reported + 1)
      && (l.pc.Parked? ==> l.started == l.reported)
      && l.reported <= l.started <= l.reported + 1
  }

  /** Workers never send `Died`, and a rule being executed is the group's. */
  predicate LaneWithin(c: Config, group: nat, l: Lane) {
    && Died !in l.outbox
    && (l.pc.Sending? ==> l.pc.event != Died)
    && (l.pc.InRule? ==> l.pc.rule < |c.ruleGroups| && c.ruleGroups[l.pc.rule] == group)
  }

  predicate MainOk(c: Config, s: State) {
    match s.main
    case Announcing(k) => k <= c.n && s.round > 0
    case Collecting(got) => |got| <= c.n
    case DroppingReceivers(k) => k <= c.n
    case DroppingSenders(k) => k <= c.n
    case Done => forall l <- s.lanes :: l.pc.Exited?
    case _ => true
  }

  predicate Inv(c: Config, s: State) {
    && |s.lanes| == c.n
    && MainOk(c, s)
    && forall w: nat | w < c.n :: LaneOk(s.lanes[w], StageOf(s, w)) && LaneWithin(c, s.group, s.lanes[w])
  }

  /** A worker's own steps between its channels keep its lane. */
  lemma {:induction false} RuleKeepsLane(c: Config, group: nat, senderOpen: bool, receiverOpen: bool, l: Lane, a: Action, stage: Stage)
    requires LaneOk(l, stage) && LaneWithin(c, group, l) && WithinRound(a)
    ensures var next := WorkerStep(c, group, senderOpen, receiverOpen, l, a);
            next != None ==> LaneOk(next.value, stage) && LaneWithin(c, group, next.value)
  {}

  /** So do its steps on the channels, as long as the main thread keeps them open. */
  lemma {:induction false} ChannelKeepsLane(c: Config, group: nat, senderOpen: bool, receiverOpen: bool, l: Lane, a: Action, stage: Stage)
    requires LaneOk(l, stage) && LaneWithin(c, group, l) && !WithinRound(a)
    requires stage.Winding? || (senderOpen && receiverOpen)
    ensures var next := WorkerStep(c, group, senderOpen, receiverOpen, l, a);
            next != None ==> LaneOk(next.value, stage) && LaneWithin(c, group, next.value)
  {
    match a
    case Receive =>
    case HangUp =>
    case Send =>
    case Crash =>
  }

  lemma {:induction false} WorkKeepsLane(c: Config, s: State, w: nat, a: Action)
    requires Inv(c, s) && w < c.n
    ensures var l := WorkerStep(c, s.group, SenderOpen(s.main, w), ReceiverOpen(s.main, w), s.lanes[w], a);
            l != None ==> LaneOk(l.value, StageOf(s, w)) && LaneWithin(c, s.group, l.value) && !s.main.Done?
  {
    assert s.lanes[w] in s.lanes;
    if WithinRound(a) {
      RuleKeepsLane(c, s.group, SenderOpen(s.main, w), ReceiverOpen(s.main, w), s.lanes[w], a, StageOf(s, w));
    } else {
      ChannelKeepsLane(c, s.group, SenderOpen(s.main, w), ReceiverOpen(s.main, w), s.lanes[w], a, StageOf(s, w));
    }
  }

  /** Whatever the main thread was doing, a lane fits its leaving. */
  lemma {:induction false} LeavingFits(c: Config, s: State, w: nat)
    requires Inv(c, s) && w < c.n
    ensures LaneOk(s.lanes[w], Winding(s.round))
  {}

  lemma {:induction false} StepKeepsInv(c: Config, s: State, step: Step)
    requires Inv(c, s) && Apply(c, s, step) != None
    ensures Inv(c, Apply(c, s, step).value)
  {
    if step.Work? {
      WorkKeepsInv(c, s, step.worker, step.action);
    } else if step == Announce {
      AnnounceKeepsInv(c, s);
    } else if step == Collect {
      CollectKeepsInv(c, s);
    } else if step == Drop {
      DropKeepsInv(c, s);
    } else {
      MainStepKeepsInv(c, s, step);
    }
  }

  lemma {:induction false} WorkKeepsInv(c: Config, s: State, w: nat, a: Action)
    requires Inv(c, s) && Apply(c, s, Work(w, a)) != None
    ensures Inv(c, Apply(c, s, Work(w, a)).value)
  {
    WorkKeepsLane(c, s, w, a);
    var t := Apply(c, s, Work(w, a)).value;
    assert forall v: nat | v < c.n :: StageOf(t, v) == StageOf(s, v) && (v == w || t.lanes[v] == s.lanes[v]);
  }

  lemma {:induction false} AnnounceKeepsInv(c: Config, s: State)
    requires Inv(c, s) && Apply(c, s, Announce) != None
    ensures Inv(c, Apply(c, s, Announce).value)
  {
    var t := Apply(c, s, Announce).value;
    forall v: nat | v < c.n
      ensures LaneOk(t.lanes[v], StageOf(t, v)) && LaneWithin(c, t.group, t.lanes[v])
    {
      assert LaneOk(s.lanes[v], StageOf(s, v));
    }
  }

  lemma {:induction false} CollectKeepsInv(c: Config, s: State)
    requires Inv(c, s) && Apply(c, s, Collect) != None
    ensures Inv(c, Apply(c, s, Collect).value)
  {
    var t := Apply(c, s, Collect).value;
    forall v: nat | v < c.n
      ensures LaneOk(t.lanes[v], StageOf(t, v)) && LaneWithin(c, t.group, t.lanes[v])
    {
      assert LaneOk(s.lanes[v], StageOf(s, v));
    }
  }

  lemma {:induction false} DropKeepsInv(c: Config, s: State)
    requires Inv(c, s) && Apply(c, s, Drop) != None
    ensures Inv(c, Apply(c, s, Drop).value)
  {
    var t := Apply(c, s, Drop).value;
    forall v: nat | v < c.n
      ensures LaneOk(t.lanes[v], StageOf(t, v)) && LaneWithin(c, t.group, t.lanes[v])
    {
      assert LaneOk(s.lanes[v], Winding(s.round));
      assert t.lanes[v] == s.lanes[v] || t.lanes[v] == s.lanes[v].(outbox := []);
    }
  }

  lemma {:induction false} MainStepKeepsInv(c: Config, s: State, step: Step)
    requires Inv(c, s) && Apply(c, s, step) != None
    requires !step.Work? && !step.Announce? && !step.Collect? && !step.Drop?
    ensures Inv(c, Apply(c, s, step).value)
  {
    var t := Apply(c, s, step).value;
    assert t.lanes == s.lanes;
    if t.main == Checking {
      ContinueMeansDone(s.main.got);
    }
    forall v: nat | v < c.n
      ensures LaneOk(t.lanes[v], StageOf(t, v)) && LaneWithin(c, t.group, t.lanes[v])
    {
      LeavingFits(c, s, v);
      if t.main == Checking {
        assert s.main.got[v] in s.main.got;
      }
    }
  }

  lemma {:induction false} RunKeepsInv(c: Config, s: State, steps: seq<Step>)
    requires Inv(c, s) && Run(c, s, steps) != None
    ensures Inv(c, Run(c, s, steps).value)
    decreases |steps|
  {
    if steps != [] {
      StepKeepsInv(c, s, steps[0]);
      RunKeepsInv(c, Apply(c, s, steps[0]).value, steps[1..]);
    }
  }

  lemma {:induction false} InitOk(c: Config)
    ensures Inv(c, Init(c))
  {}

  /** The states an execution passes through. */
  ghost predicate Reachable(c: Config, s: State) {
    exists steps :: Run(c, Init(c), steps) == Some(s)
  }

  lemma {:induction false} ReachableOk(c: Config, s: State)
    requires Reachable(c, s)
    ensures Inv(c, s)
  {
    var steps :| Run(c, Init(c), steps) == Some(s);
    InitOk(c);
    RunKeepsInv(c, Init(c), steps);
  }

  // ---------- isolation ----------

  /** Whenever the main thread picks a group or checks an invariant, every worker
      is parked, every channel is empty, and every worker has reported once for
      each round there has been. */
  lemma {:induction false} MainIsAlone(c: Config, s: State, w: nat)
    requires Reachable(c, s) && w < c.n
    requires s.main.Choosing? || s.main.Checking? || s.main.CheckingFinal?
    ensures |s.lanes| == c.n
    ensures s.lanes[w].pc == Parked && s.lanes[w].inbox == [] && s.lanes[w].outbox == []
    ensures s.lanes[w].sent == s.lanes[w].started == s.lanes[w].reported == s.lanes[w].received == s.round
  {
    ReachableOk(c, s);
    assert LaneOk(s.lanes[w], Resting(s.round));
  }

  /** Rules being executed at the same time carry the same group name, and each
      executes on the clone made for the round in progress. */
  lemma {:induction false} GroupsNeverOverlap(c: Config, groups: seq<string>, s: State, v: nat, w: nat)
    requires Reachable(c, s) && SameGrouping(groups, c.ruleGroups) && v < c.n && w < c.n
    ensures |s.lanes| == c.n
    ensures s.lanes[v].pc.InRule? && s.lanes[w].pc.InRule? ==>
              var p, q := s.lanes[v], s.lanes[w];
              && p.clone == q.clone == s.round
              && p.pc.rule < |groups| && q.pc.rule < |groups| && groups[p.pc.rule] == groups[q.pc.rule]
  {
    ReachableOk(c, s);
    assert LaneWithin(c, s.group, s.lanes[v]) && LaneWithin(c, s.group, s.lanes[w]);
    LeavingFits(c, s, v);
    LeavingFits(c, s, w);
  }

  /** A channel holds at most one item; a worker has reported once for every
      round message it took, except one it is still on or was stopped in. */
  lemma {:induction false} OneEventPerRound(c: Config, s: State, w: nat)
    requires Reachable(c, s) && w < c.n
    ensures |s.lanes| == c.n
    ensures var l := s.lanes[w];
            && |l.inbox| + |l.outbox| <= 1
            && l.sent == l.started + |l.inbox| <= s.round
            && (l.pc.Parked? ==> l.reported == l.started)
            && (Busy(l.pc) ==> l.reported + 1 == l.started)
            && l.reported <= l.started <= l.reported + 1
            && (!Leaving(s.main) ==> l.reported == l.received + |l.outbox| && s.round <= l.received + 1)
  {
    ReachableOk(c, s);
    LeavingFits(c, s, w);
    assert LaneOk(s.lanes[w], StageOf(s, w));
  }

  /** After a round the invariants are checked only if every worker finished it
      without incident; otherwise the main thread leaves. */
  lemma {:induction false} OnlyFinishedRoundsAreChecked(c: Config, s: State)
    requires Reachable(c, s) && s.main.Collecting? && |s.main.got| == c.n
    ensures |s.lanes| == c.n && Apply(c, s, ResolveEvents) != None
    ensures var t := Apply(c, s, ResolveEvents).value.main;
            && (t.Checking? || t == DroppingReceivers(0))
            && (t.Checking? <==> forall e <- s.main.got :: e == RoundDone)
    ensures forall w: nat | w < c.n :: s.main.got[w] == Died <==> s.lanes[w].pc.Exited?
  {
    ReachableOk(c, s);
    ContinueMeansDone(s.main.got);
    forall w: nat | w < c.n ensures s.main.got[w] == Died <==> s.lanes[w].pc.Exited? {
      assert LaneOk(s.lanes[w], Settled(s.round, s.main.got[w]));
    }
  }

  // ---------- progress ----------

  predicate Enabled(c: Config, s: State, step: Step)
    requires |s.lanes| == c.n
  {
    Apply(c, s, step) != None
  }

  /** Steps taken because the engine goes on, or something goes wrong. */
  predicate Optional(step: Step) {
    step.ChooseGroup? || step.MainRaises? || (step.Work? && (step.action.Pull? || step.action.Crash?))
  }

  /** Until the whole test case is done some thread can move, even if the engine
      hands out nothing more. */
  lemma {:induction false} NeverStuck(c: Config, s: State)
    requires Inv(c, s) && s.main != Done
    ensures exists step :: !Optional(step) && Enabled(c, s, step)
  {
    match s.main
    case Choosing => assert Enabled(c, s, NoMoreGroups);
    case Announcing(_) => assert Enabled(c, s, Announce);
    case Collecting(got) =>
      if |got| == c.n {
        assert Enabled(c, s, ResolveEvents);
      } else {
        var l := s.lanes[|got|];
        assert LaneOk(l, Awaited(s.round));
        if l.inbox == [] && !Busy(l.pc) {
          assert Enabled(c, s, Collect);
        } else {
          WorkerCanMove(c, s, |got|);
        }
      }
    case Checking => assert Enabled(c, s, InvariantsHold);
    case CheckingFinal => assert Enabled(c, s, InvariantsHold);
    case DroppingReceivers(_) => assert Enabled(c, s, Drop);
    case DroppingSenders(_) => assert Enabled(c, s, Drop);
    case Joining =>
      if forall l <- s.lanes :: l.pc.Exited? {
        assert Enabled(c, s, Join);
      } else {
        var w :| 0 <= w < c.n && !s.lanes[w].pc.Exited?;
        WorkerCanMove(c, s, w);
      }
    case Done =>
  }

  lemma {:induction false} WorkerCanMove(c: Config, s: State, w: nat)
    requires |s.lanes| == c.n && w < c.n && !s.lanes[w].pc.Exited?
    requires s.lanes[w].pc.Parked? && s.lanes[w].inbox == [] ==> !SenderOpen(s.main, w)
    ensures exists step :: !Optional(step) && Enabled(c, s, step)
  {
    var l := s.lanes[w];
    var a :=
      match l.pc
      case Parked => if l.inbox == [] then HangUp else Receive
      case Pulling => EndRound
      case InRule(_) => RuleCompletes
      case Rejecting => RecordCompletes
      case _ => Send;
    assert Enabled(c, s, Work(w, a));
  }

  // ---------- termination ----------

  function PcWeight(pc: WorkerPc): nat {
    match pc
    case Parked => 1
    case Pulling => 4
    case InRule(_) => 6
    case Rejecting => 5
    case Sending(_) => 3
    case Exited => 0
  }

  function LaneWeight(l: Lane): nat { 4 * |l.inbox| + PcWeight(l.pc) }

  function LanesWeight(lanes: seq<Lane>): nat {
    if lanes == [] then 0 else LaneWeight(lanes[0]) + LanesWeight(lanes[1..])
  }

  function MainWeight(n: nat, main: MainPc): int {
    match main
    case Announcing(k) => 8 + 3 * n + 5 * (n - k)
    case Collecting(got) => 7 + 2 * n + (n - |got|)
    case Checking => 6 + 2 * n
    case Choosing => 5 + 2 * n
    case CheckingFinal => 4 + 2 * n
    case DroppingReceivers(k) => 3 + n + (n - k)
    case DroppingSenders(k) => 2 + (n - k)
    case Joining => 1
    case Done => 0
  }

  function Weight(c: Config, s: State): int { MainWeight(c.n, s.main) + LanesWeight(s.lanes) }

  /** What a step may add to the weight, itself included. */
  function Cost(c: Config, step: Step): nat {
    if step.ChooseGroup? then 6 * c.n + 4
    else if step.Work? && step.action.Pull? then 3
    else 0
  }

  function TotalCost(c: Config, steps: seq<Step>): nat {
    if steps == [] then 0 else Cost(c, steps[0]) + TotalCost(c, steps[1..])
  }

  lemma {:induction false} WeightOfUpdate(lanes: seq<Lane>, w: nat, l: Lane)
    requires w < |lanes|
    ensures LanesWeight(lanes[w := l]) == LanesWeight(lanes) - LaneWeight(lanes[w]) + LaneWeight(l)
  {
    if w > 0 {
      assert lanes[w := l][1..] == lanes[1..][w - 1 := l];
      WeightOfUpdate(lanes[1..], w - 1, l);
    }
  }

  lemma {:induction false} WorkCosts(c: Config, s: State, w: nat, a: Action)
    requires |s.lanes| == c.n && Apply(c, s, Work(w, a)) != None
    ensures Weight(c, Apply(c, s, Work(w, a)).value) + 1 <= Weight(c, s) + Cost(c, Work(w, a))
  {
    var l := WorkerStep(c, s.group, SenderOpen(s.main, w), ReceiverOpen(s.main, w), s.lanes[w], a).value;
    assert LaneWeight(l) + 1 <= LaneWeight(s.lanes[w]) + Cost(c, Work(w, a));
    WeightOfUpdate(s.lanes, w, l);
  }

  lemma {:induction false} LaneStepCosts(c: Config, s: State, step: Step)
    requires Inv(c, s) && Apply(c, s, step) != None
    requires step.Announce? || step.Collect? || step.Drop?
    ensures Weight(c, Apply(c, s, step).value) + 1 <= Weight(c, s)
  {
    var t := Apply(c, s, step).value;
    if t.lanes != s.lanes {
      var k := if s.main.Collecting? then |s.main.got| else s.main.next;
      assert t.lanes == s.lanes[k := t.lanes[k]];
      WeightOfUpdate(s.lanes, k, t.lanes[k]);
    }
  }

  lemma {:induction false} StepCosts(c: Config, s: State, step: Step)
    requires Inv(c, s) && Apply(c, s, step) != None
    ensures Weight(c, Apply(c, s, step).value) + 1 <= Weight(c, s) + Cost(c, step)
  {
    if step.Work? {
      WorkCosts(c, s, step.worker, step.action);
    } else if step.Announce? || step.Collect? || step.Drop? {
      LaneStepCosts(c, s, step);
    }
  }

  lemma {:induction false} RunCosts(c: Config, s: State, steps: seq<Step>)
    requires Inv(c, s) && Run(c, s, steps) != None
    ensures |steps| + Weight(c, Run(c, s, steps).value) <= Weight(c, s) + TotalCost(c, steps)
    decreases |steps|
  {
    if steps != [] {
      StepCosts(c, s, steps[0]);
      StepKeepsInv(c, s, steps[0]);
      RunCosts(c, Apply(c, s, steps[0]).value, steps[1..]);
    }
  }

  function Rounds(steps: seq<Step>): nat {
    if steps == [] then 0 else (if steps[0].ChooseGroup? then 1 else 0) + Rounds(steps[1..])
  }

  function PullCount(steps: seq<Step>): nat {
    if steps == [] then 0
    else (if steps[0].Work? && steps[0].action.Pull? then 1 else 0) + PullCount(steps[1..])
  }

  lemma {:induction false} CostOfRun(c: Config, steps: seq<Step>)
    ensures TotalCost(c, steps) == (6 * c.n + 4) * Rounds(steps) + 3 * PullCount(steps)
  {
    if steps != [] { CostOfRun(c, steps[1..]); }
  }

  lemma {:induction false} InitialWeight(lanes: seq<Lane>)
    requires forall l <- lanes :: LaneWeight(l) == 1
    ensures LanesWeight(lanes) == |lanes|
  {
    if lanes != [] { InitialWeight(lanes[1..]); }
  }

  lemma {:induction false} WeightIsNatural(c: Config, s: State)
    requires Inv(c, s)
    ensures 0 <= Weight(c, s)
  {}

  /** Only groups and rules the engine hands out make an execution longer. */
  lemma {:induction false} ExecutionsAreBounded(c: Config, steps: seq<Step>)
    requires Run(c, Init(c), steps) != None
    ensures |steps| <= 3 * c.n + 5 + (6 * c.n + 4) * Rounds(steps) + 3 * PullCount(steps)
  {
    InitOk(c);
    RunCosts(c, Init(c), steps);
    CostOfRun(c, steps);
    InitialWeight(Init(c).lanes);
    RunKeepsInv(c, Init(c), steps);
    WeightIsNatural(c, Run(c, Init(c), steps).value);
  }

  // ---------- shutdown ----------

  lemma {:induction false} LeavingIsForGood(c: Config, s: State, steps: seq<Step>)
    requires Inv(c, s) && Leaving(s.main) && Run(c, s, steps) != None
    ensures Leaving(Run(c, s, steps).value.main)
    ensures Rounds(steps) == 0
    decreases |steps|
  {
    if steps != [] {
      StepKeepsInv(c, s, steps[0]);
      LeavingIsForGood(c, Apply(c, s, steps[0]).value, steps[1..]);
    }
  }

  /** However the main thread leaves, it never starts another round, the rest of
      the execution is bounded by the rules still handed out, and it can only
      stop with every worker gone. */
  lemma {:induction false} LeavingJoinsEveryWorker(c: Config, s: State, steps: seq<Step>)
    requires Reachable(c, s) && Leaving(s.main)
    ensures |s.lanes| == c.n
    ensures Run(c, s, steps) != None ==>
              var t := Run(c, s, steps).value;
              && |t.lanes| == c.n && Leaving(t.main)
              && |steps| <= Weight(c, s) + 3 * PullCount(steps)
              && ((forall step | Enabled(c, t, step) :: Optional(step)) ==>
                    t.main == Done && forall l <- t.lanes :: l.pc.Exited?)
  {
    ReachableOk(c, s);
    if Run(c, s, steps) != None {
      var t := Run(c, s, steps).value;
      RunKeepsInv(c, s, steps);
      LeavingIsForGood(c, s, steps);
      RunCosts(c, s, steps);
      CostOfRun(c, steps);
      WeightIsNatural(c, t);
      if t.main != Done { NeverStuck(c, t); }
    }
  }
}
