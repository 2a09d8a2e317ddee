/** What concurrent workers report, and how one round's reports are resolved
    (src/stateful.rs). */
module WorkerEvents {
  import opened Wrappers

  /** What an unwind carries. */
  datatype Payload =
    | AssumeFailed
    | StopTest
    | InvalidArgument(message: Text)
    | InternalError(message: Text)
    | LoopDone
    | Panic(message: Text)

  /** A caught unwind, with what the panic hook recorded on that thread. */
  datatype Unwind = Unwind(payload: Payload, captured: Option<string>)

  datatype Event =
    | RoundDone
    | Invalid
    | Overrun
    | ControlPayload(payload: Payload)
    | Panicked(payload: Payload, info: Option<string>)
    | Died

  /** The event a worker ferries for an unwind it caught. */
  function Classify(u: Unwind): (e: Event)
    ensures e != Died && e != RoundDone
    ensures e == Invalid <==> u.payload == AssumeFailed
    ensures e == Overrun <==> u.payload == StopTest
    ensures e.Panicked? <==> u.payload.Panic?
    ensures e.Panicked? ==> e.payload == u.payload && e.info == u.captured
    ensures e.ControlPayload? ==> e.payload == u.payload
  {
    match u.payload
    case AssumeFailed => Invalid
    case StopTest => Overrun
    case Panic(_) => Panicked(u.payload, u.captured)
    case _ => ControlPayload(u.payload)
  }

  // ---------- one worker's round ----------

  /** What the engine and the rules do each time a worker asks for a rule: a
      rule that unwinds is followed, when its own assumption failed, by a draw
      that records the rejection and may itself unwind. */
  datatype Pull =
    | NoRule
    | PullRaised(unwind: Unwind)
    | RuleCompleted
    | RuleRaised(unwind: Unwind, recording: Option<Unwind>)

  /** What ends the round at `p`, if anything does. */
  function Ending(p: Pull): (event: Option<Event>)
    ensures event == Some(RoundDone) <==> p.NoRule?
    ensures event == None <==> p.RuleCompleted? || (p.RuleRaised? && p.unwind.payload == AssumeFailed && p.recording == None)
    ensures event.Some? && !p.NoRule? ==> event == Some(Classify(if p.RuleRaised? && p.unwind.payload == AssumeFailed then p.recording.value else p.unwind))
  {
    match p
    case NoRule => Some(RoundDone)
    case PullRaised(u) => Some(Classify(u))
    case RuleCompleted => None
    case RuleRaised(u, recording) =>
      if u.payload != AssumeFailed then Some(Classify(u))
      else if recording == None then None
      else Some(Classify(recording.value))
  }

  /** The event is that of the first pull that ends the round; while none of the
      pulls so far does, the round goes on. A rule's failed assumption ends the
      rule, never the round: a round is invalid only through an engine draw. */
  method RunWorkerRound(pulls: seq<Pull>) returns (event: Option<Event>, used: nat)
    ensures used <= |pulls| && forall k | 0 <= k < used :: Ending(pulls[k]) == None
    ensures event == None <==> used == |pulls|
    ensures event.Some? ==> Ending(pulls[used]) == event && event != Some(Died)
    ensures event == Some(Invalid) ==>
              || (pulls[used].PullRaised? && pulls[used].unwind.payload == AssumeFailed)
              || (pulls[used].RuleRaised? && pulls[used].recording.Some? && pulls[used].recording.value.payload == AssumeFailed)
  {
    used := 0;
    while used < |pulls|
      invariant used <= |pulls|
      invariant forall k | 0 <= k < used :: Ending(pulls[k]) == None
    {
      match pulls[used] {
        case NoRule => return Some(RoundDone), used;
        case PullRaised(u) => return Some(Classify(u)), used;
        case RuleCompleted =>
        case RuleRaised(u, recording) =>
          var raised := Classify(u);
          if raised != Invalid { return Some(raised), used; }
          if recording != None { return Some(Classify(recording.value)), used; }
      }
      used := used + 1;
    }
    event := None;
  }

  // ---------- resolving a round ----------

  datatype Note = Note(worker: nat, location: string, payload: Payload)

  datatype Verdict = Continue | Raise(payload: Payload)

  /** The verdict, the dropped panics noted, and the panic capture installed. */
  datatype Resolution = Resolution(verdict: Verdict, notes: seq<Note>, installed: Option<string>)

  predicate IsControl(e: Event) { e.ControlPayload? || e.Died? }

  function ControlOf(worker: nat, e: Event): Payload
    requires IsControl(e)
  {
    if e.Died? then InternalError(Counted(EXITED.0, worker, EXITED.1)) else e.payload
  }

  /** The start of the message, and what follows the worker's number. */
  const EXITED: (string, string) := ("concurrent stateful worker ", " exited without reporting an outcome")

  datatype WorkerPanic = WorkerPanic(worker: nat, payload: Payload, info: Option<string>)

  function NoteOf(p: WorkerPanic): Note {
    Note(p.worker, if p.info == None then "<unknown>" else p.info.value, p.payload)
  }

  function NotesOf(panics: seq<WorkerPanic>): (r: seq<Note>) {
    seq(|panics|, i requires 0 <= i < |panics| => NoteOf(panics[i]))
  }

  /** The first control payload or dead worker. */
  function FirstControl(events: seq<Event>): Option<Payload> {
    if events == [] then None
    else
      var n := |events| - 1;
      var before := FirstControl(events[..n]);
      if before == None && IsControl(events[n]) then Some(ControlOf(n, events[n])) else before
  }

  /** The round's panics, in worker order. */
  function Panics(events: seq<Event>): seq<WorkerPanic> {
    if events == [] then []
    else
      var n := |events| - 1;
      Panics(events[..n])
      + (match events[n] case Panicked(payload, info) => [WorkerPanic(n, payload, info)] case _ => [])
  }

  /** Control payloads win over overrun, overrun over invalid, and those over
      panics, of which the lowest worker's is raised. */
  function Resolve(events: seq<Event>): Resolution {
    var control, panics := FirstControl(events), Panics(events);
    if control != None then Resolution(Raise(control.value), [], None)
    else if Overrun in events then Resolution(Raise(StopTest), NotesOf(panics), None)
    else if Invalid in events then Resolution(Raise(AssumeFailed), NotesOf(panics), None)
    else if panics != [] then Resolution(Raise(panics[0].payload), NotesOf(panics[1..]), panics[0].info)
    else Resolution(Continue, [], None)
  }

  method ResolveRound(events: seq<Event>) returns (r: Resolution)
    ensures r == Resolve(events)
  {
    var control: Option<Payload> := None;
    var sawOverrun, sawInvalid := false, false;
    var panics: seq<WorkerPanic> := [];
    for worker := 0 to |events|
      invariant sawOverrun <==> Overrun in events[..worker]
      invariant sawInvalid <==> Invalid in events[..worker]
      invariant panics == Panics(events[..worker])
      invariant control == FirstControl(events[..worker])
    {
      var event := events[worker];
      assert events[..worker + 1] == events[..worker] + [event];
      assert events[..worker + 1][..worker] == events[..worker];
      match event {
        case RoundDone =>
        case Invalid => sawInvalid := true;
        case Overrun => sawOverrun := true;
        case ControlPayload(payload) => if control == None { control := Some(payload); }
        case Panicked(payload, info) => panics := panics + [WorkerPanic(worker, payload, info)];
        case Died => if control == None { control := Some(InternalError(Counted(EXITED.0, worker, EXITED.1))); }
      }
    }
    assert events[..|events|] == events;
    if control != None {
      return Resolution(Raise(control.value), [], None);
    }
    if sawOverrun || sawInvalid {
      var notes := NoteDropped(panics);
      return Resolution(Raise(if sawOverrun then StopTest else AssumeFailed), notes, None);
    }
    if panics != [] {
      var notes := NoteDropped(panics[1..]);
      return Resolution(Raise(panics[0].payload), notes, panics[0].info);
    }
    r := Resolution(Continue, [], None);
  }

  method NoteDropped(dropped: seq<WorkerPanic>) returns (notes: seq<Note>)
    ensures notes == NotesOf(dropped)
  {
    notes := [];
    for i := 0 to |dropped|
      invariant |notes| == i
      invariant forall k | 0 <= k < i :: notes[k] == NoteOf(dropped[k])
    {
      notes := notes + [NoteOf(dropped[i])];
    }
  }

  // ---------- what the resolution means ----------

  predicate NoControl(events: seq<Event>) { forall e <- events :: !IsControl(e) }

  /** `w` is the first worker whose event is a control payload or a death. */
  predicate FirstControlAt(events: seq<Event>, w: nat) {
    w < |events| && IsControl(events[w]) && forall v: nat | v < w :: !IsControl(events[v])
  }

  predicate FirstPanicAt(events: seq<Event>, w: nat) {
    w < |events| && events[w].Panicked? && forall v: nat | v < w :: !events[v].Panicked?
  }

  lemma {:induction false} ControlIsFirst(events: seq<Event>)
    ensures FirstControl(events) == None <==> NoControl(events)
    ensures forall w: nat | FirstControlAt(events, w) :: FirstControl(events) == Some(ControlOf(w, events[w]))
  {
    if events != [] {
      var n := |events| - 1;
      ControlIsFirst(events[..n]);
      assert events == events[..n] + [events[n]];
      forall w: nat | FirstControlAt(events, w)
        ensures FirstControl(events) == Some(ControlOf(w, events[w]))
      {
        if w < n {
          assert FirstControlAt(events[..n], w);
        } else {
          forall e | e in events[..n] ensures !IsControl(e) {
            var v: nat :| v < n && events[v] == e;
          }
        }
      }
    }
  }

  /** `Panics` lists exactly the panicked workers, in increasing order. */
  lemma {:induction false} PanicsAreOrdered(events: seq<Event>)
    ensures forall i, j | 0 <= i < j < |Panics(events)| :: Panics(events)[i].worker < Panics(events)[j].worker
    ensures forall p <- Panics(events) ::
              p.worker < |events| && events[p.worker] == Panicked(p.payload, p.info)
    ensures forall w: nat | w < |events| && events[w].Panicked? ::
              WorkerPanic(w, events[w].payload, events[w].info) in Panics(events)
  {
    if events != [] {
      var n := |events| - 1;
      PanicsAreOrdered(events[..n]);
      var before := Panics(events[..n]);
      forall w: nat | w < |events| && events[w].Panicked?
        ensures WorkerPanic(w, events[w].payload, events[w].info) in Panics(events)
      {
        if w < n { assert events[..n][w] == events[w]; }
      }
      forall i, j | 0 <= i < j < |Panics(events)|
        ensures Panics(events)[i].worker < Panics(events)[j].worker
      {
        assert before[i] in before;
      }
    }
  }

  /** The round goes on exactly when every worker finished it; otherwise what is
      raised follows the precedence. */
  lemma {:induction false} Precedence(events: seq<Event>)
    ensures Resolve(events).verdict == Continue <==> forall e <- events :: e == RoundDone
    ensures forall w: nat | FirstControlAt(events, w) ::
              && Resolve(events).verdict.Raise? && Resolve(events).notes == [] && Resolve(events).installed == None
              && Resolve(events).verdict.payload ==
                   match events[w]
                   case ControlPayload(payload) => payload
                   case _ => InternalError(Counted(EXITED.0, w, EXITED.1))
    ensures Resolve(events).verdict == Continue ==> Resolve(events).notes == [] && Resolve(events).installed == None
    ensures NoControl(events) && Overrun in events ==>
              Resolve(events).verdict == Raise(StopTest) && Resolve(events).installed == None
    ensures NoControl(events) && Overrun !in events && Invalid in events ==>
              Resolve(events).verdict == Raise(AssumeFailed) && Resolve(events).installed == None
    ensures NoControl(events) && Overrun !in events && Invalid !in events ==>
              forall w: nat | FirstPanicAt(events, w) ::
                Resolve(events).verdict == Raise(events[w].payload) && Resolve(events).installed == events[w].info
  {
    ControlIsFirst(events);
    PanicsAreOrdered(events);
    var panics := Panics(events);
    forall w: nat | FirstPanicAt(events, w)
      ensures panics != [] && panics[0] == WorkerPanic(w, events[w].payload, events[w].info)
    {
      var p := WorkerPanic(w, events[w].payload, events[w].info);
      var i :| 0 <= i < |panics| && panics[i] == p;
      assert panics[0] in panics;
    }
    ContinueMeansDone(events);
  }

  lemma {:induction false} ContinueMeansDone(events: seq<Event>)
    ensures Resolve(events).verdict == Continue <==> forall e <- events :: e == RoundDone
  {
    ControlIsFirst(events);
    NoPanicsMeans(events);
    if Resolve(events).verdict == Continue {
      forall e | e in events ensures e == RoundDone {}
    }
  }

  lemma {:induction false} NoPanicsMeans(events: seq<Event>)
    ensures Panics(events) == [] <==> forall e <- events :: !e.Panicked?
  {
    if events != [] {
      var before, last := events[..|events| - 1], events[|events| - 1];
      NoPanicsMeans(before);
      assert events == before + [last];
      assert (forall e <- events :: !e.Panicked?) <==> (forall e <- before :: !e.Panicked?) && !last.Panicked?;
    }
  }

  predicate NotedFor(notes: seq<Note>, w: nat) { exists note <- notes :: note.worker == w }

  /** The notes name panicked workers only, in increasing order, with what each
      reported. */
  predicate Faithful(notes: seq<Note>, events: seq<Event>) {
    && (forall i, j | 0 <= i < j < |notes| :: notes[i].worker < notes[j].worker)
    && forall note <- notes ::
         note.worker < |events| && events[note.worker].Panicked?
         && note.payload == events[note.worker].payload
         && note.location == match events[note.worker].info case Some(location) => location case None => "<unknown>"
  }

  lemma {:induction false} NotesAreFaithful(events: seq<Event>, from: nat)
    requires from <= |Panics(events)|
    ensures Faithful(NotesOf(Panics(events)[from..]), events)
  {
    PanicsAreOrdered(events);
    var kept := Panics(events)[from..];
    var notes := NotesOf(kept);
    forall note | note in notes
      ensures note.worker < |events| && events[note.worker].Panicked?
      ensures note == NoteOf(WorkerPanic(note.worker, events[note.worker].payload, events[note.worker].info))
    {
      var i :| 0 <= i < |notes| && notes[i] == note;
      assert kept[i] in Panics(events);
    }
  }

  /** Unless a control payload wins, every panic is either the one raised or
      noted, exactly once, in worker order. */
  lemma {:induction false} DroppedPanicsAreNoted(events: seq<Event>)
    requires NoControl(events)
    ensures Faithful(Resolve(events).notes, events)
    ensures forall w: nat | w < |events| && events[w].Panicked? ::
              NotedFor(Resolve(events).notes, w) <==> Overrun in events || Invalid in events || !FirstPanicAt(events, w)
  {
    ControlIsFirst(events);
    var panics := Panics(events);
    var all := Overrun in events || Invalid in events || panics == [];
    var from := if all then 0 else 1;
    assert panics[0..] == panics;
    assert Resolve(events).notes == NotesOf(panics[from..]);
    NotesAreFaithful(events, from);
    forall w: nat | w < |events| && events[w].Panicked?
      ensures NotedFor(NotesOf(panics[from..]), w) <==> all || !FirstPanicAt(events, w)
      ensures panics != []
    {
      NotedUnlessFirst(events, w);
    }
  }

  lemma {:induction false} NotedUnlessFirst(events: seq<Event>, w: nat)
    requires w < |events| && events[w].Panicked?
    ensures Panics(events) != []
    ensures NotedFor(NotesOf(Panics(events)), w)
    ensures NotedFor(NotesOf(Panics(events)[1..]), w) <==> !FirstPanicAt(events, w)
  {
    PanicsAreOrdered(events);
    var panics := Panics(events);
    var p := WorkerPanic(w, events[w].payload, events[w].info);
    var i :| 0 <= i < |panics| && panics[i] == p;
    FirstIsLowest(events, w, i);
    NotedAfter(panics, i, 0);
    NotedAfter(panics, i, 1);
    assert panics[0..] == panics;
  }

  /** Of worker-ordered panics, the `i`-th is noted once the first `from` are
      left out exactly when it is not one of those. */
  lemma {:induction false} NotedAfter(panics: seq<WorkerPanic>, i: nat, from: nat)
    requires i < |panics| && from <= |panics|
    requires forall j, k | 0 <= j < k < |panics| :: panics[j].worker < panics[k].worker
    ensures NotedFor(NotesOf(panics[from..]), panics[i].worker) <==> from <= i
  {
    var rest := NotesOf(panics[from..]);
    if from <= i {
      assert rest[i - from] in rest;
    }
    forall k | 0 <= k < |rest| ensures rest[k].worker == panics[i].worker ==> k + from == i {
      assert rest[k].worker == panics[k + from].worker;
    }
  }

  lemma {:induction false} FirstIsLowest(events: seq<Event>, w: nat, i: nat)
    requires w < |events| && events[w].Panicked? && i < |Panics(events)|
    requires Panics(events)[i].worker == w
    ensures i == 0 <==> FirstPanicAt(events, w)
  {
    PanicsAreOrdered(events);
    var panics := Panics(events);
    assert panics[0] in panics;
    forall v: nat | v < |events| && events[v].Panicked? ensures panics[0].worker <= v {
      var k :| 0 <= k < |panics| && panics[k] == WorkerPanic(v, events[v].payload, events[v].info);
    }
  }

  // ---------- concurrency groups ----------

  /** Two rules share an index exactly when they share a group name. */
  predicate SameGrouping(groups: seq<string>, indices: seq<nat>) {
    && |indices| == |groups|
    && forall i, j | 0 <= i < |groups| && 0 <= j < |groups| :: indices[i] == indices[j] <==> groups[i] == groups[j]
  }

  /** Each rule's group as an index into the distinct group names, numbered in
      order of first appearance. */
  method AssignGroups(groups: seq<string>) returns (names: seq<string>, indices: seq<nat>)
    ensures SameGrouping(groups, indices)
    ensures forall i | 0 <= i < |groups| :: indices[i] < |names| && names[indices[i]] == groups[i]
    ensures forall i, j | 0 <= i < j < |names| :: names[i] != names[j]
    ensures forall g <- names :: g in groups
  {
    names, indices := [], [];
    for r := 0 to |groups|
      invariant |indices| == r
      invariant forall i | 0 <= i < r :: indices[i] < |names| && names[indices[i]] == groups[i]
      invariant forall i, j | 0 <= i < j < |names| :: names[i] != names[j]
      invariant forall g <- names :: g in groups
    {
      var index := 0;
      while index < |names| && names[index] != groups[r]
        invariant index <= |names|
        invariant forall i | 0 <= i < index :: names[i] != groups[r]
      {
        index := index + 1;
      }
      if index == |names| {
        names := names + [groups[r]];
      }
      indices := indices + [index];
    }
  }
}
