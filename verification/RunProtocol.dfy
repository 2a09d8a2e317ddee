/** One run from the caller's side: the exchange the engine offers test cases
    through, the run handle that resumes it, and the loop that drives a run to
    its verdict (hegel-c/src/exchange.rs, hegel-c/src/lib.rs, src/run_lifecycle.rs). */
module RunProtocol {
  import opened Wrappers
  import opened Abi
  import W = WorkerEvents

  /** `failures` holds each counterexample's reproduce blob, if it has one. */
  datatype RunResult = RunResult(failures: seq<Option<string>>, error: Option<string>, nondeterministic: bool)

  function FromError(message: string): RunResult { RunResult([], Some(message), false) }

  const STALLED: string := "the engine suspended without offering a test case"

  /** What the engine does when resumed. */
  datatype Move = OfferCase | Stall | Return(result: RunResult)

  /** The engine as a strategy: its next move, given the outcome it read off
      each case it has offered so far. */
  type Exploration = seq<Option<Outcome>> -> Move

  // ---------- the exchange ----------

  /** One offered case. `reports` are the outcomes reported on it; `concluded` is
      its conclusion, which a draw or a report sets and nothing changes. */
  class DataSource {
    var concluded: Option<Outcome>
    var reports: seq<Outcome>

    constructor ()
      ensures concluded == None && reports == []
    {
      concluded, reports := None, [];
    }

    method Conclude(outcome: Outcome)
      modifies this
      ensures concluded == (if old(concluded).Some? then old(concluded) else Some(outcome)) && reports == old(reports)
    {
      if concluded == None { concluded := Some(outcome); }
    }

    method MarkComplete(outcome: Outcome)
      modifies this
      ensures reports == old(reports) + [outcome]
      ensures concluded == if old(concluded).Some? then old(concluded) else Some(outcome)
    {
      reports := reports + [outcome];
      Conclude(outcome);
    }
  }

  class CaseExchange {
    var slot: DataSource?

    constructor () ensures slot == null { slot := null; }

    method Take() returns (taken: DataSource?)
      modifies this
      ensures taken == old(slot) && slot == null
    {
      taken := slot;
      slot := null;
    }
  }

  /** The future the engine awaits after offering `ds`. */
  class Offer {
    const exchange: CaseExchange
    var ds: DataSource?

    constructor (exchange: CaseExchange, ds: DataSource)
      ensures this.exchange == exchange && this.ds == ds
    {
      this.exchange, this.ds := exchange, ds;
    }

    /** Pending on the first poll, which hands the case over; ready on the next. */
    method Poll() returns (ready: bool)
      modifies this, exchange
      ensures ready == (old(ds) == null) && ds == null
      ensures exchange.slot == if ready then old(exchange.slot) else old(ds)
    {
      var taken := ds;
      ds := null;
      if taken != null { exchange.slot := taken; }
      ready := taken == null;
    }
  }

  /** The suspended engine. */
  class Engine {
    const exploration: Exploration
    const exchange: CaseExchange
    var seen: seq<Option<Outcome>>
    var awaiting: Offer?
    var offered: DataSource?

    constructor (exploration: Exploration, exchange: CaseExchange)
      ensures this.exploration == exploration && this.exchange == exchange
      ensures seen == [] && awaiting == null && offered == null
    {
      this.exploration, this.exchange := exploration, exchange;
      seen, awaiting, offered := [], null, null;
    }

    predicate Valid()
      reads this, awaiting
    {
      && (awaiting == null <==> offered == null)
      && (awaiting != null ==> awaiting.ds == null && awaiting.exchange == exchange)
    }

    /** What the engine knows once resumed: the offered case's conclusion is new. */
    function Known(): seq<Option<Outcome>>
      reads this, offered
    {
      seen + if offered == null then [] else [offered.concluded]
    }

    /** Resumes the engine: `None` while it is suspended, its result at the end. */
    method Poll() returns (r: Option<RunResult>)
      requires Valid()
      modifies this, awaiting, exchange
      ensures Valid() && seen == old(Known())
      ensures r == match exploration(seen) case Return(result) => Some(result) case _ => None
      ensures exploration(seen) == OfferCase ==>
                offered != null && fresh(offered) && fresh(awaiting) && exchange.slot == offered
                && offered.reports == [] && offered.concluded == None
      ensures exploration(seen) != OfferCase ==> exchange.slot == old(exchange.slot)
    {
      if awaiting != null {
        seen := seen + [offered.concluded];
        var ready := awaiting.Poll();
        assert ready;
        awaiting, offered := null, null;
      }
      match exploration(seen) {
        case OfferCase =>
          offered := new DataSource();
          awaiting := new Offer(exchange, offered);
          var ready := awaiting.Poll();
          r := None;
        case Stall => r := None;
        case Return(result) => r := Some(result);
      }
    }
  }

  // ---------- families and handles ----------

  /** The state every handle of one test case shares. */
  class Family {
    const ds: DataSource
    var completed: bool

    predicate Valid() reads this, ds { |ds.reports| == if completed then 1 else 0 }

    constructor (ds: DataSource)
      requires ds.reports == []
      ensures this.ds == ds && !completed && Valid()
    {
      this.ds, completed := ds, false;
    }

    /** The first caller's outcome is reported; later calls change nothing. */
    method Complete(outcome: Outcome)
      requires Valid()
      modifies this, ds
      ensures Valid() && completed
      ensures ds.reports == if old(completed) then old(ds.reports) else [outcome]
      ensures ds.concluded == if old(completed) || old(ds.concluded).Some? then old(ds.concluded) else Some(outcome)
    {
      if !completed {
        completed := true;
        ds.MarkComplete(outcome);
      }
    }
  }

  class TestCase {
    const family: Family
    var completed: bool

    constructor (family: Family)
      ensures this.family == family && !completed
    {
      this.family, completed := family, false;
    }

    /** `outcome` is `None` for an unknown status or an unreadable origin. */
    method MarkComplete(outcome: Option<Outcome>) returns (rc: ResultCode)
      requires family.Valid()
      modifies this, family, family.ds
      ensures family.Valid()
      ensures rc == if old(completed) then AlreadyComplete else if outcome == None then InvalidArg else OK
      ensures rc != OK ==>
                completed == old(completed) && family.completed == old(family.completed)
                && family.ds.reports == old(family.ds.reports) && family.ds.concluded == old(family.ds.concluded)
      ensures rc == OK ==>
                && completed && family.completed
                && family.ds.reports == (if old(family.completed) then old(family.ds.reports) else [outcome.value])
                && family.ds.concluded == if old(family.completed) || old(family.ds.concluded).Some?
                                          then old(family.ds.concluded) else outcome
    {
      if completed { return AlreadyComplete; }
      if outcome == None { return InvalidArg; }
      completed := true;
      family.Complete(outcome.value);
      rc := OK;
    }
  }

  // ---------- the run ----------

  class HegelRun {
    var engine: Engine?
    const exchange: CaseExchange
    var currentFamily: Family?
    var result: Option<RunResult>
    ghost var Repr: set<object>

    /** A run has a result exactly when its engine is gone; an outstanding family
        is the one its engine awaits; the slot is empty between calls. */
    ghost predicate Valid()
      reads this, exchange, engine, if engine == null then null else engine.awaiting
    {
      && (result.Some? <==> engine == null)
      && (currentFamily != null ==> engine != null)
      && (engine != null ==>
            && engine.Valid() && engine.exchange == exchange
            && engine.offered == if currentFamily == null then null else currentFamily.ds)
      && exchange.slot == null
    }

    /** Everything resuming or freeing the run may change. */
    ghost predicate Owned()
      reads this, engine, currentFamily
    {
      && {this, exchange} <= Repr
      && (engine != null ==> engine in Repr && (engine.awaiting != null ==> engine.awaiting in Repr))
      && (currentFamily != null ==> {currentFamily, currentFamily.ds} <= Repr)
    }

    /** The run can be resumed, and its engine will then know `known`. */
    ghost predicate Ready(exploration: Exploration, known: seq<Option<Outcome>>)
      reads this, Repr, engine, currentFamily
    {
      && Owned() && Valid() && engine != null && engine.exploration == exploration
      && (currentFamily != null ==> currentFamily.Valid() && currentFamily.completed)
      && engine.Known() == known
    }

    constructor (exploration: Exploration)
      ensures Ready(exploration, []) && fresh(Repr)
    {
      var slot := new CaseExchange();
      exchange := slot;
      engine := new Engine(exploration, slot);
      currentFamily, result := null, None;
      new;
      Repr := {this, exchange, engine};
    }

    /** Resumes the engine unless the outstanding case is not complete; the case
        it offers is handed over with a handle of its own, and the run finishes
        when it offers none. A finished run stays finished. */
    method NextTestCase() returns (rc: ResultCode, tc: TestCase?)
      requires Valid() && (currentFamily != null ==> currentFamily.Valid())
      modifies this, exchange, engine, if engine == null then null else engine.awaiting
      ensures Valid() && Repr == old(Repr)
      ensures rc == if old(currentFamily != null && !currentFamily.completed) then NotComplete else OK
      ensures rc == NotComplete || old(engine) == null ==>
                tc == null && engine == old(engine) && currentFamily == old(currentFamily) && result == old(result)
                && (engine != null ==> engine.seen == old(if engine == null then [] else engine.seen))
      ensures rc == OK && old(engine) != null ==>
                && old(engine).seen == old(if engine == null then [] else engine.Known())
                && (tc != null <==> old(engine).exploration(old(engine).seen) == OfferCase)
                && (tc != null ==>
                      && engine == old(engine) && fresh(tc) && fresh(tc.family) && fresh(tc.family.ds) && fresh(engine.awaiting)
                      && currentFamily == tc.family && !tc.completed && !tc.family.completed && tc.family.Valid()
                      && tc.family.ds.concluded == None)
                && (tc == null ==>
                      && engine == null && currentFamily == null
                      && result == Some(ResultOf(old(engine).exploration(old(engine).seen))))
    {
      tc := null;
      if currentFamily != null {
        if !currentFamily.completed { return NotComplete, null; }
        currentFamily := null;
      }
      if engine == null { return OK, null; }
      var polled := engine.Poll();
      if polled == None {
        var ds := exchange.Take();
        if ds != null {
          var family := new Family(ds);
          tc := new TestCase(family);
          currentFamily := family;
        } else {
          result, engine := Some(FromError(STALLED)), null;
        }
      } else {
        result, engine := polled, null;
      }
      rc := OK;
    }

    method Result() returns (rc: ResultCode, r: Option<RunResult>)
      requires Valid()
      ensures r == result && rc == if engine == null then OK else NotComplete
    {
      r := result;
      rc := if result == None then NotComplete else OK;
    }

    /** Frees the run: a case still in flight is concluded as valid. */
    method Free()
      requires Valid() && (currentFamily != null ==> currentFamily.Valid())
      modifies this, currentFamily, if currentFamily == null then null else currentFamily.ds
      ensures engine == null && currentFamily == null
      ensures old(currentFamily) != null ==> old(currentFamily).Valid() && old(currentFamily).completed
      ensures old(currentFamily != null && currentFamily.completed) ==>
                old(currentFamily).ds.reports == old(currentFamily.ds.reports)
      ensures old(currentFamily != null && !currentFamily.completed) ==>
                old(currentFamily).ds.reports == [Outcome.Valid]
    {
      if currentFamily != null { currentFamily.Complete(Outcome.Valid); }
      engine, currentFamily := null, null;
    }
  }

  /** The result of a run whose engine makes `move` instead of offering a case. */
  function ResultOf(move: Move): RunResult {
    match move
    case Return(r) => r
    case _ => FromError(STALLED)
  }

  // ---------- driving a run ----------

  /** How the frontend takes the end of a test body: an outcome to report, with
      the body's own panic, or an unwind that leaves the case unreported. */
  datatype Report = Reported(outcome: Outcome, panic: Option<W.Payload>) | Abandoned(payload: W.Payload)

  const UNKNOWN: string := "<unknown>"
  const PANIC_AT: string := "Panic at "

  function Classified(end: Option<W.Unwind>): Report {
    match end
    case None => Reported(Outcome.Valid, None)
    case Some(u) =>
      match u.payload
      case AssumeFailed => Reported(Outcome.Invalid, None)
      case StopTest => Reported(Outcome.Overrun, None)
      case LoopDone => Reported(Outcome.Valid, None)
      case InvalidArgument(message) => Abandoned(W.Panic(message))
      case InternalError(message) => Abandoned(W.Panic(message))
      case Panic(_) =>
        Reported(Interesting(PANIC_AT + if u.captured == None then UNKNOWN else u.captured.value), Some(u.payload))
  }

  predicate Carries(end: Option<W.Unwind>, payload: W.Payload) { end.Some? && end.value.payload == payload }

  /** A body that returned, or left by the end of its loop. */
  predicate Returns(end: Option<W.Unwind>) { end == None || Carries(end, W.LoopDone) }

  /** The body panicked, and failures are grouped by where it did. */
  predicate FailedAt(end: Option<W.Unwind>, origin: string) {
    && end.Some? && end.value.payload.Panic?
    && origin == PANIC_AT + match end.value.captured case Some(location) => location case None => UNKNOWN
  }

  /** Which outcome each end of a body is reported as. */
  predicate Fits(end: Option<W.Unwind>, outcome: Outcome) {
    match outcome
    case Valid => Returns(end)
    case Invalid => Carries(end, W.AssumeFailed)
    case Overrun => Carries(end, W.StopTest)
    case Interesting(origin) => FailedAt(end, origin)
  }

  /** A usage or internal error, raised as its message. */
  predicate Complains(end: Option<W.Unwind>, payload: W.Payload) {
    && payload.Panic?
    && (Carries(end, W.InvalidArgument(payload.message)) || Carries(end, W.InternalError(payload.message)))
  }

  /** What the test case's own thread makes of an unwind against what a concurrent
      worker makes of it: the same, except that a worker hands on what ends the
      test case. */
  lemma {:induction false} ClassifiedAsByWorkers(u: W.Unwind)
    ensures var report, event := Classified(Some(u)), W.Classify(u);
            && (event == W.Event.Invalid <==> report == Reported(Outcome.Invalid, None))
            && (event == W.Event.Overrun <==> report == Reported(Outcome.Overrun, None))
            && (event.Panicked? <==> report.Reported? && report.panic.Some?)
            && (event.Panicked? ==> report.panic == Some(event.payload) && FailedAt(Some(u), report.outcome.origin))
            && (event.ControlPayload? <==> report.Abandoned? || report == Reported(Outcome.Valid, None))
            && (report.Abandoned? ==> Complains(Some(W.Unwind(event.payload, None)), report.payload))
  {}

  /** The panic of a body that failed. */
  function PanicOf(end: Option<W.Unwind>): (panic: Option<W.Payload>)
    ensures panic.Some? <==> end.Some? && end.value.payload.Panic?
    ensures panic.Some? ==> panic == Some(end.value.payload)
  {
    var report := Classified(end);
    if report.Reported? && report.outcome.Interesting? then report.panic else None
  }

  // ---------- the verdict ----------

  datatype Ending = Passes | Raises(payload: W.Payload) | StillRunning

  const NO_STASH: string := "a failed nondeterministic run has a stashed failure"
  const FLAKY: string := "Flaky test detected"

  const NO_BLOB: (string, string) := ("failure ", " has no blob")
  const COUNTED: (string, string) := ("Property-based test failed with ", " distinct failures.")

  /** A counterexample's blob, replayed: it may not decode. */
  datatype Replay = Undecodable(message: string) | Ran(end: Option<W.Unwind>)

  /** The panic of a replay that fails again. */
  function Repanic(r: Replay): Option<W.Payload> { if r.Ran? then PanicOf(r.end) else None }

  /** Counterexample `i` fails again when replayed. */
  predicate Reproduces(failures: seq<Option<string>>, replay: nat -> Replay, i: nat) {
    i < |failures| && failures[i].Some? && Repanic(replay(i)).Some?
  }

  /** Counterexample `n` is the first that does not. */
  predicate FirstToDiffer(failures: seq<Option<string>>, replay: nat -> Replay, n: nat) {
    n < |failures| && !Reproduces(failures, replay, n) && forall i: nat | i < n :: Reproduces(failures, replay, i)
  }

  /** What the run raises for a counterexample that does not fail again. */
  predicate ComplainsOf(failures: seq<Option<string>>, replay: nat -> Replay, i: nat, payload: W.Payload)
    requires i < |failures|
  {
    if failures[i] == None then payload == W.Panic(Counted(NO_BLOB.0, i, NO_BLOB.1))
    else
      match replay(i)
      case Undecodable(message) => payload == W.Panic(Words(message))
      case Ran(Some(Unwind(InvalidArgument(message), _))) => payload == W.Panic(message)
      case Ran(Some(Unwind(InternalError(message), _))) => payload == W.Panic(message)
      case _ => payload == W.Panic(Words(FLAKY))
  }

  /** What final replays decide: the first counterexample that does not fail again
      is complained about; if all do, a single one raises the test's own panic and
      several raise their count. */
  ghost predicate ReplaysDecide(failures: seq<Option<string>>, replay: nat -> Replay, payload: W.Payload) {
    && (forall n: nat | FirstToDiffer(failures, replay, n) :: ComplainsOf(failures, replay, n, payload))
    && ((forall i: nat | i < |failures| :: Reproduces(failures, replay, i)) ==>
          Some(payload) == if |failures| > 1 then Some(W.Panic(Counted(COUNTED.0, |failures|, COUNTED.1))) else Repanic(replay(0)))
  }

  method ReplayFailures(failures: seq<Option<string>>, replay: nat -> Replay) returns (payload: W.Payload)
    requires failures != []
    ensures ReplaysDecide(failures, replay, payload)
  {
    var last: Option<W.Payload> := None;
    for index := 0 to |failures|
      invariant forall i: nat | i < index :: Reproduces(failures, replay, i)
      invariant index > 0 ==> last == Repanic(replay(index - 1)) && last.Some?
    {
      if failures[index] == None {
        assert !Reproduces(failures, replay, index);
        return W.Panic(Counted(NO_BLOB.0, index, NO_BLOB.1));
      }
      var replayed := replay(index);
      if replayed.Undecodable? {
        assert !Reproduces(failures, replay, index);
        return W.Panic(Words(replayed.message));
      }
      var report := Classified(replayed.end);
      if report.Abandoned? {
        assert !Reproduces(failures, replay, index);
        return report.payload;
      }
      if !report.outcome.Interesting? {
        assert !Reproduces(failures, replay, index);
        return W.Panic(Words(FLAKY));
      }
      last := report.panic;
    }
    payload := if |failures| > 1 then W.Panic(Counted(COUNTED.0, |failures|, COUNTED.1)) else last.value;
  }

  predicate NondeterministicFailure(r: RunResult) { r.error == None && r.failures != [] && r.nondeterministic }

  /** A run passes exactly when it found no failure and no error; an error raises
      its message, a nondeterministic failure the stashed panic, and a deterministic
      one what its replays decide. */
  ghost predicate Verdict(r: RunResult, stash: Option<W.Payload>, replay: nat -> Replay, ending: Ending) {
    && (ending == Passes <==> r.error == None && r.failures == [])
    && (ending != Passes ==> ending.Raises?)
    && (r.error.Some? ==> ending == Raises(W.Panic(Words(r.error.value))))
    && (NondeterministicFailure(r) ==> ending == Raises(if stash == None then W.Panic(Words(NO_STASH)) else stash.value))
    && (r.error == None && r.failures != [] && !r.nondeterministic ==>
          ending.Raises? && ReplaysDecide(r.failures, replay, ending.payload))
  }

  method Conclude(r: RunResult, stash: Option<W.Payload>, replay: nat -> Replay) returns (ending: Ending)
    ensures Verdict(r, stash, replay, ending)
  {
    if r.error.Some? { return Raises(W.Panic(Words(r.error.value))); }
    if r.failures == [] { return Passes; }
    if r.nondeterministic {
      if stash == None { return Raises(W.Panic(Words(NO_STASH))); }
      return Raises(stash.value);
    }
    var payload := ReplayFailures(r.failures, replay);
    ending := Raises(payload);
  }

  // ---------- the pump ----------

  /** One execution of the body: the conclusion a draw reached in it, if one did,
      and how it ended. */
  datatype Execution = Execution(drawn: Option<Outcome>, end: Option<W.Unwind>)

  /** The conclusion of a case that was reported as `outcome`: a draw's stands. */
  function Conclusion(e: Execution, outcome: Outcome): Outcome {
    if e.drawn.Some? then e.drawn.value else outcome
  }

  /** What the engine has read off the first `n` cases. */
  function Known(executions: seq<Execution>, reports: seq<Outcome>, n: nat): seq<Option<Outcome>>
    requires n <= |reports| && n <= |executions|
  {
    seq(n, i requires 0 <= i < n => Some(Conclusion(executions[i], reports[i])))
  }

  /** Each case was offered knowing the conclusions of all those before it. */
  predicate OfferedInTurn(exploration: Exploration, executions: seq<Execution>, reports: seq<Outcome>) {
    |reports| <= |executions| && forall i: nat | i < |reports| :: exploration(Known(executions, reports, i)) == OfferCase
  }

  /** The first `n` cases were reported as their bodies ended. */
  predicate ReportsBodies(executions: seq<Execution>, reports: seq<Outcome>, n: nat) {
    && n <= |reports| && n <= |executions|
    && forall i: nat | i < n :: Classified(executions[i].end).Reported? && reports[i] == Classified(executions[i].end).outcome
  }

  /** The panic of the last of the first `n` cases to fail. */
  function LastPanic(executions: seq<Execution>, n: nat): Option<W.Payload>
    requires n <= |executions|
  {
    if n == 0 then None
    else if PanicOf(executions[n - 1].end).Some? then PanicOf(executions[n - 1].end)
    else LastPanic(executions, n - 1)
  }

  /** The reports so far, and the stash, which holds the last panic among them. */
  predicate Told(exploration: Exploration, executions: seq<Execution>, reports: seq<Outcome>, stash: Option<W.Payload>) {
    && OfferedInTurn(exploration, executions, reports)
    && ReportsBodies(executions, reports, |reports|)
    && stash == LastPanic(executions, |reports|)
  }

  lemma {:induction false} OneMore(exploration: Exploration, executions: seq<Execution>, reports: seq<Outcome>, outcome: Outcome)
    requires OfferedInTurn(exploration, executions, reports) && |reports| < |executions|
    requires exploration(Known(executions, reports, |reports|)) == OfferCase
    ensures OfferedInTurn(exploration, executions, reports + [outcome])
    ensures Known(executions, reports + [outcome], |reports| + 1)
            == Known(executions, reports, |reports|) + [Some(Conclusion(executions[|reports|], outcome))]
  {
    forall i: nat | i < |reports| + 1 ensures exploration(Known(executions, reports + [outcome], i)) == OfferCase {
      assert Known(executions, reports + [outcome], i) == Known(executions, reports, i);
    }
  }

  method Record(ghost exploration: Exploration, ghost executions: seq<Execution>, reports: seq<Outcome>,
                stash: Option<W.Payload>, report: Report)
    returns (reports': seq<Outcome>, stash': Option<W.Payload>)
    requires Told(exploration, executions, reports, stash)
    requires |reports| < |executions| && exploration(Known(executions, reports, |reports|)) == OfferCase
    requires report.Reported? && report == Classified(executions[|reports|].end)
    ensures reports' == reports + [report.outcome] && Told(exploration, executions, reports', stash')
    ensures Known(executions, reports', |reports'|)
            == Known(executions, reports, |reports|) + [Some(Conclusion(executions[|reports|], report.outcome))]
  {
    OneMore(exploration, executions, reports, report.outcome);
    reports' := reports + [report.outcome];
    stash' := if report.outcome.Interesting? then report.panic else stash;
  }

  /** Executes one case's body and reports the outcome. */
  method RunTestCase(tc: TestCase, e: Execution) returns (report: Report)
    requires !tc.completed && !tc.family.completed && tc.family.Valid() && tc.family.ds.concluded == None
    modifies tc, tc.family, tc.family.ds
    ensures report == Classified(e.end) && tc.family.Valid()
    ensures report.Reported? ==>
              && Fits(e.end, report.outcome)
              && report.panic == (if report.outcome.Interesting? then Some(e.end.value.payload) else None)
              && tc.family.completed && tc.family.ds.reports == [report.outcome]
              && tc.family.ds.concluded == Some(Conclusion(e, report.outcome))
    ensures report.Abandoned? ==> Complains(e.end, report.payload) && !tc.family.completed
  {
    if e.drawn.Some? { tc.family.ds.Conclude(e.drawn.value); }
    report := Classified(e.end);
    if report.Reported? {
      var rc := tc.MarkComplete(Some(report.outcome));
      assert rc == OK;
    }
  }

  /** One turn of the pump: no more cases, a case whose body is still running, or
      one that ended. */
  datatype Turn = NoMoreCases | BodyRuns | Ended(report: Report)

  method PumpCase(run: HegelRun, ghost exploration: Exploration, ghost known: seq<Option<Outcome>>, e: Option<Execution>)
    returns (turn: Turn)
    requires run.Ready(exploration, known)
    modifies run.Repr
    ensures fresh(run.Repr - old(run.Repr)) && run.Owned() && run.Valid()
    ensures turn == NoMoreCases <==> exploration(known) != OfferCase
    ensures turn == NoMoreCases ==> run.currentFamily == null && run.result == Some(ResultOf(exploration(known)))
    ensures turn == BodyRuns ==> e == None
    ensures turn.Ended? ==> e.Some? && turn.report == Classified(e.value.end)
    ensures turn.Ended? && turn.report.Reported? ==>
              run.Ready(exploration, known + [Some(Conclusion(e.value, turn.report.outcome))])
    ensures turn != NoMoreCases && (turn.Ended? ==> turn.report.Abandoned?) ==>
              run.currentFamily != null && run.currentFamily.Valid() && !run.currentFamily.completed
  {
    var rc, tc := run.NextTestCase();
    assert rc == OK;
    if tc == null { return NoMoreCases; }
    run.Repr := run.Repr + {run.engine.awaiting, tc.family, tc.family.ds};
    if e == None { return BodyRuns; }
    var report := RunTestCase(tc, e.value);
    turn := Ended(report);
  }

  /** Starts a run, then pulls and reports every case, the `i`-th of which executes
      as `executions[i]`, until there are no more cases, a body raises a usage or
      internal error, which leaves its case outstanding, or the executions run out
      and a body is still running. The pump is never told that a case is not
      complete. */
  method Pump(exploration: Exploration, executions: seq<Execution>)
    returns (run: HegelRun, last: Turn, reports: seq<Outcome>, stash: Option<W.Payload>)
    ensures fresh(run.Repr) && run.Owned() && run.Valid()
    ensures Told(exploration, executions, reports, stash)
    ensures last == NoMoreCases <==> exploration(Known(executions, reports, |reports|)) != OfferCase
    ensures last == NoMoreCases ==>
              run.currentFamily == null && run.result == Some(ResultOf(exploration(Known(executions, reports, |reports|))))
    ensures last != NoMoreCases ==>
              run.currentFamily != null && run.currentFamily.Valid() && !run.currentFamily.completed
    ensures last == BodyRuns ==> |reports| == |executions|
    ensures last.Ended? ==>
              |reports| < |executions| && last.report.Abandoned? && last.report == Classified(executions[|reports|].end)
  {
    run := new HegelRun(exploration);
    reports, stash := [], None;
    while true
      invariant Told(exploration, executions, reports, stash)
      invariant run.Ready(exploration, Known(executions, reports, |reports|)) && fresh(run.Repr)
      decreases |executions| - |reports|
    {
      var e := if |reports| < |executions| then Some(executions[|reports|]) else None;
      last := PumpCase(run, exploration, Known(executions, reports, |reports|), e);
      if !last.Ended? || last.report.Abandoned? { return; }
      reports, stash := Record(exploration, executions, reports, stash, last.report);
    }
  }

  /** Drives a run to its verdict. Every case handed over is reported once, an
      abandoned run's last case as valid, when the run is freed; each is offered
      knowing the conclusions of those before it. */
  method Drive(exploration: Exploration, executions: seq<Execution>, replay: nat -> Replay)
    returns (ending: Ending, abandoned: bool, reports: seq<Outcome>, result: Option<RunResult>)
    ensures OfferedInTurn(exploration, executions, reports)
    ensures abandoned ==>
              && reports != [] && reports[|reports| - 1] == Outcome.Valid && result == None
              && ReportsBodies(executions, reports, |reports| - 1)
              && ending.Raises? && Complains(executions[|reports| - 1].end, ending.payload)
    ensures !abandoned ==> ReportsBodies(executions, reports, |reports|)
    ensures forall i: nat | i < |reports| - (if abandoned then 1 else 0) :: Fits(executions[i].end, reports[i])
    ensures ending == StillRunning ==>
              !abandoned && result == None && |reports| == |executions|
              && exploration(Known(executions, reports, |reports|)) == OfferCase
    ensures !abandoned && ending != StillRunning ==>
              && exploration(Known(executions, reports, |reports|)) != OfferCase
              && result == Some(ResultOf(exploration(Known(executions, reports, |reports|))))
              && Verdict(result.value, LastPanic(executions, |reports|), replay, ending)
    ensures !abandoned && ending != StillRunning ==>
              match exploration(Known(executions, reports, |reports|))
              case Return(r) => result == Some(r)
              case _ => ending == Raises(W.Panic(Words(STALLED)))
  {
    var run, last, stash;
    run, last, reports, stash := Pump(exploration, executions);
    if last == BodyRuns { return StillRunning, false, reports, None; }
    if last.Ended? {
      var outstanding := run.currentFamily;
      run.Free();
      assert outstanding.ds.reports == [Outcome.Valid];
      OneMore(exploration, executions, reports, Outcome.Valid);
      return Raises(last.report.payload), true, reports + [Outcome.Valid], None;
    }
    var rc, r := run.Result();
    assert rc == OK;
    abandoned, result := false, r;
    ending := Conclude(r.value, stash, replay);
    run.Free();
  }

  // ---------- nondeterministic failures ----------

  predicate ReadAsFailure(o: Option<Outcome>) { o.Some? && o.value.Interesting? }

  /** The engine reports a nondeterministic failure only after reading some case as
      failing, and no draw concludes a case as failing. */
  ghost predicate FailsOnlyAsRead(exploration: Exploration, executions: seq<Execution>) {
    && (forall seen: seq<Option<Outcome>> | exploration(seen).Return? && NondeterministicFailure(exploration(seen).result) ::
          exists i | 0 <= i < |seen| :: ReadAsFailure(seen[i]))
    && (forall e <- executions :: !ReadAsFailure(e.drawn))
  }

  /** A case read as failing was reported as failing, with its panic. */
  lemma {:induction false} ReadMeansPanic(executions: seq<Execution>, reports: seq<Outcome>, i: nat)
    requires ReportsBodies(executions, reports, |reports|) && i < |reports| && !ReadAsFailure(executions[i].drawn)
    ensures ReadAsFailure(Some(Conclusion(executions[i], reports[i]))) ==>
              reports[i].Interesting? && PanicOf(executions[i].end).Some?
  {}

  /** The stash holds the panic of the last case that failed: there is one as soon
      as a case has failed, and every later case passed. */
  lemma {:induction false} StashIsLastFailure(executions: seq<Execution>, n: nat, i: nat)
    requires i < n <= |executions| && PanicOf(executions[i].end).Some?
    ensures exists k: nat | i <= k < n ::
              && LastPanic(executions, n) == PanicOf(executions[k].end) && PanicOf(executions[k].end).Some?
              && forall j: nat | k < j < n :: PanicOf(executions[j].end) == None
  {
    if PanicOf(executions[n - 1].end).Some? {
      assert LastPanic(executions, n) == PanicOf(executions[n - 1].end);
    } else {
      StashIsLastFailure(executions, n - 1, i);
    }
  }

  /** Then a nondeterministic failure always has its panic: what `Drive` raises is
      that of the last case that failed, whenever the run turned nondeterministic,
      and never the complaint that there is none. */
  lemma {:induction false} DiscoveryRaisesItsPanic(
      exploration: Exploration, executions: seq<Execution>, reports: seq<Outcome>, r: RunResult, ending: Ending)
    requires ReportsBodies(executions, reports, |reports|) && FailsOnlyAsRead(exploration, executions)
    requires exploration(Known(executions, reports, |reports|)) == Return(r) && NondeterministicFailure(r)
    requires var stash := LastPanic(executions, |reports|);
             ending == Raises(if stash == None then W.Panic(Words(NO_STASH)) else stash.value)
    ensures exists k: nat | k < |reports| ::
              && PanicOf(executions[k].end) == Some(ending.payload)
              && forall j: nat | k < j < |reports| :: PanicOf(executions[j].end) == None
  {
    var i := SomeRead(exploration, executions, reports, r);
    ReadMeansPanic(executions, reports, i);
    StashIsLastFailure(executions, |reports|, i);
  }

  lemma {:induction false} SomeRead(exploration: Exploration, executions: seq<Execution>, reports: seq<Outcome>, r: RunResult)
    returns (i: nat)
    requires |reports| <= |executions| && FailsOnlyAsRead(exploration, executions)
    requires exploration(Known(executions, reports, |reports|)) == Return(r) && NondeterministicFailure(r)
    ensures i < |reports| && ReadAsFailure(Some(Conclusion(executions[i], reports[i]))) && !ReadAsFailure(executions[i].drawn)
  {
    var seen := Known(executions, reports, |reports|);
    assert exploration(seen).Return? && NondeterministicFailure(exploration(seen).result);
    i :| 0 <= i < |seen| && ReadAsFailure(seen[i]);
    assert executions[i] in executions;
  }
}
