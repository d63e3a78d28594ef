/**
 The showcase's reset gate (showcase/src/lib/server/reset-coordinator.ts).

 Every synchronous stretch of the asynchronous methods is one event; the runtime
 (in-flight resets, promise continuations, armed timers) is part of the state, and
 events may interleave in any order in which they are enabled.  The class holds
 the source's fields and each method is one such stretch.
 */
module ResetCoordinator {
  import opened Common

  /** How far one run of `performReset` has come. */
  datatype Phase = Waiting | Ready | Resetting | Seeding | Finished(ok: bool)

  /** Continuations that wait for one reset promise. */
  datatype Awaiting = Awaiting(starts: nat, scheduled: nat)

  datatype Config = Config(resetIntervalMs: nat, retryAfterMs: nat)

  datatype State = State(
    activeOperations: nat,
    resetting: bool,
    generation: nat,
    nextResetAt: Option<int>,
    zeroWaiters: seq<nat>,
    resetPromise: Option<nat>,
    timer: Option<nat>,
    started: bool,
    disposed: bool,
    // the runtime around the object; an armed timer with its delay
    inFlight: map<nat, Phase>,
    awaiting: map<nat, Awaiting>,
    startsReady: nat,
    scheduledReady: nat,
    scheduledFailed: nat,
    armed: map<nat, nat>,
    nextId: nat)

  datatype Event =
    | BeginOperation
    | EndOperation
    | ResetNow
    | Start
    | TimerFires(id: nat)
    | CallResetWorkspace(id: nat)
    | ResetWorkspaceReturns(id: nat, ok: bool)
    | SeedReturns(id: nat, ok: bool, at: int)
    | FinallyRuns(id: nat)
    | StartResumes
    | ScheduledResumes(ok: bool)
    | Dispose

  const INITIAL: State :=
    State(0, false, 0, None, [], None, None, false, false, map[], map[], 0, 0, 0, map[], 0)

  predicate Enabled(s: State, e: Event) {
    match e
    case BeginOperation => true
    case EndOperation => s.activeOperations > 0
    case ResetNow => true
    case Start => true
    case TimerFires(id) => id in s.armed
    case CallResetWorkspace(id) => id in s.inFlight && s.inFlight[id] == Ready
    case ResetWorkspaceReturns(id, _) => id in s.inFlight && s.inFlight[id] == Resetting
    case SeedReturns(id, _, _) => id in s.inFlight && s.inFlight[id] == Seeding
    case FinallyRuns(id) => id in s.inFlight && s.inFlight[id].Finished?
    case StartResumes => s.startsReady > 0
    case ScheduledResumes(ok) => if ok then s.scheduledReady > 0 else s.scheduledFailed > 0
    case Dispose => true
  }

  // --- what each event does --------------------------------------------------

  function BeginReset(s: State): State {
    if s.resetPromise.Some? then s
    else
      var id := s.nextId;
      var waits := s.activeOperations > 0;
      s.(resetting := true, resetPromise := Some(id), nextId := id + 1,
         inFlight := s.inFlight[id := if waits then Waiting else Ready],
         zeroWaiters := if waits then s.zeroWaiters + [id] else s.zeroWaiters)
  }

  /** A continuation added to the promise that `resetNow` returned. */
  function Await(s: State, starts: nat, scheduled: nat): State
    requires s.resetPromise.Some?
  {
    var id := s.resetPromise.value;
    var a := if id in s.awaiting then s.awaiting[id] else Awaiting(0, 0);
    s.(awaiting := s.awaiting[id := Awaiting(a.starts + starts, a.scheduled + scheduled)])
  }

  function InstallTimer(s: State, delayMs: nat): State {
    s.(timer := Some(s.nextId), armed := s.armed[s.nextId := delayMs], nextId := s.nextId + 1)
  }

  function ReleaseWaiters(inFlight: map<nat, Phase>, waiters: seq<nat>): map<nat, Phase> {
    map id | id in inFlight :: if id in waiters then Ready else inFlight[id]
  }

  function Delivered(s: State, ok: bool, a: Awaiting): State {
    if ok then s.(startsReady := s.startsReady + a.starts, scheduledReady := s.scheduledReady + a.scheduled)
    else s.(scheduledFailed := s.scheduledFailed + a.scheduled)
  }

  function Opened(s: State, id: nat): State {
    s.(resetting := false, resetPromise := if s.resetPromise == Some(id) then None else s.resetPromise)
  }

  /** The `finally` of `resetNow`, and what waits for its promise. */
  function Settle(s: State, id: nat): State
    requires id in s.inFlight && s.inFlight[id].Finished?
  {
    var told := Delivered(Opened(s, id), s.inFlight[id].ok, if id in s.awaiting then s.awaiting[id]
        else Awaiting(0, 0));
    told.(inFlight := s.inFlight - {id}, awaiting := s.awaiting - {id})
  }

  function Apply(s: State, e: Event, config: Config): State
    requires Enabled(s, e)
  {
    match e
    case BeginOperation => if s.resetting then s else s.(activeOperations := s.activeOperations + 1)
    case EndOperation =>
      if s.activeOperations > 1 then s.(activeOperations := s.activeOperations - 1)
      else s.(activeOperations := 0, zeroWaiters := [], inFlight := ReleaseWaiters(s.inFlight, s.zeroWaiters))
    case ResetNow => BeginReset(s)
    case Start => if s.disposed || s.started then s else Await(BeginReset(s), 1, 0)
    case TimerFires(id) => Await(BeginReset(s.(armed := s.armed - {id}, timer := None, nextResetAt := None)), 0, 1)
    case CallResetWorkspace(id) => s.(inFlight := s.inFlight[id := Resetting])
    case ResetWorkspaceReturns(id, ok) => s.(inFlight := s.inFlight[id := if ok then Seeding else Finished(false)])
    case SeedReturns(id, ok, at) =>
      if ok then
        s.(inFlight := s.inFlight[id := Finished(true)], generation := s.generation + 1,
           nextResetAt := Some(at + config.resetIntervalMs))
      else s.(inFlight := s.inFlight[id := Finished(false)])
    case FinallyRuns(id) => Settle(s, id)
    case StartResumes =>
      var s := s.(startsReady := s.startsReady - 1);
      if s.disposed || s.started then s else InstallTimer(s.(started := true), config.resetIntervalMs)
    case ScheduledResumes(true) =>
      var s := s.(scheduledReady := s.scheduledReady - 1);
      if s.disposed then s else InstallTimer(s, config.resetIntervalMs)
    case ScheduledResumes(false) =>
      var s := s.(scheduledFailed := s.scheduledFailed - 1);
      if s.disposed then s else InstallTimer(s.(resetting := true), config.retryAfterMs)
    case Dispose =>
      s.(disposed := true, nextResetAt := None,
         armed := if s.timer.Some? then s.armed - {s.timer.value} else s.armed, timer := None)
  }

  // --- the invariant ---------------------------------------------------------

  /** The one reset in flight is the one `resetPromise` names, and it holds the gate shut. */
  predicate OneReset(s: State) {
    s.inFlight.Keys == (if s.resetPromise.Some? then {s.resetPromise.value} else {}) &&
    (s.resetPromise.Some? ==> s.resetting) &&
    s.awaiting.Keys <= s.inFlight.Keys
  }

  /** A reset waits exactly while operations run; past that point there are none. */
  predicate ResetsAlone(s: State) {
    forall id :: id in s.inFlight ==>
      if s.inFlight[id].Waiting? then s.activeOperations > 0 && s.zeroWaiters == [id]
      else s.activeOperations == 0 && s.zeroWaiters == []
  }

  function ScheduledAwaiting(s: State): nat {
    if s.resetPromise.Some? && s.resetPromise.value in s.awaiting then s.awaiting[s.resetPromise.value].scheduled else 0
  }

  /** The armed timer, the callback that waits for its reset, and those whose reset is over. */
  function ChainLength(s: State): nat {
    (if s.timer.Some? then 1 else 0) + ScheduledAwaiting(s) + s.scheduledReady + s.scheduledFailed
  }

  /** One timer chain once started: a timer is armed, or its callback is under way; `dispose` may end it. */
  predicate OneTimer(s: State) {
    s.armed.Keys == (if s.timer.Some? then {s.timer.value} else {}) &&
    (s.disposed ==> s.timer.None?) &&
    ChainLength(s) <= (if s.started then 1 else 0) && (s.started && !s.disposed ==> ChainLength(s) == 1)
  }

  predicate FreshIds(s: State) {
    (forall id :: id in s.inFlight ==> id < s.nextId) && (forall id :: id in s.armed ==> id < s.nextId)
  }

  predicate GateInv(s: State) {
    OneReset(s) && ResetsAlone(s) && (s.inFlight == map[] ==> s.zeroWaiters == []) && FreshIds(s)
  }

  predicate Inv(s: State) { GateInv(s) && OneTimer(s) }

  lemma BeginResetKeepsInv(s: State)
    requires GateInv(s)
    ensures GateInv(BeginReset(s)) && BeginReset(s).resetPromise.Some?
    ensures ChainLength(BeginReset(s)) == ChainLength(s) && (OneTimer(s) ==> OneTimer(BeginReset(s)))
  {
  }

  lemma AwaitKeepsInv(s: State, starts: nat, scheduled: nat)
    requires OneReset(s) && s.resetPromise.Some? && ResetsAlone(s) && FreshIds(s)
    ensures var s' := Await(s, starts, scheduled);
            OneReset(s') && ResetsAlone(s') && FreshIds(s') && ChainLength(s') == ChainLength(s) + scheduled
  {
  }

  lemma TimerKeepsInv(s: State, id: nat, config: Config)
    requires Inv(s) && id in s.armed
    ensures Inv(Apply(s, TimerFires(id), config))
  {
    var fired := s.(armed := s.armed - {id}, timer := None, nextResetAt := None);
    BeginResetKeepsInv(fired);
    AwaitKeepsInv(BeginReset(fired), 0, 1);
  }

  lemma FinallyKeepsInv(s: State, id: nat, config: Config)
    requires Inv(s) && Enabled(s, FinallyRuns(id))
    ensures Inv(Apply(s, FinallyRuns(id), config))
  {
    assert s.inFlight.Keys == {id};
    assert (s.inFlight - {id}).Keys == {} && (s.awaiting - {id}).Keys == {};
  }

  lemma EndKeepsInv(s: State, config: Config)
    requires Inv(s) && s.activeOperations > 0
    ensures Inv(Apply(s, EndOperation, config))
  {
    hide ReleaseWaiters;
    Released(s.inFlight, s.zeroWaiters);
  }

  lemma Released(inFlight: map<nat, Phase>, waiters: seq<nat>)
    ensures ReleaseWaiters(inFlight, waiters).Keys == inFlight.Keys
    ensures forall id :: id in inFlight ==>
              ReleaseWaiters(inFlight, waiters)[id] == if id in waiters then Ready else inFlight[id]
  {
  }

  lemma PhaseKeepsInv(s: State, e: Event, config: Config)
    requires Inv(s) && Enabled(s, e)
    requires e.CallResetWorkspace? || e.ResetWorkspaceReturns? || e.SeedReturns?
    ensures Inv(Apply(s, e, config))
  {
    var s' := Apply(s, e, config);
    assert s'.inFlight.Keys == s.inFlight.Keys;
  }

  lemma StepKeepsInv(s: State, e: Event, config: Config)
    requires Inv(s) && Enabled(s, e)
    ensures Inv(Apply(s, e, config))
  {
    match e
    case BeginOperation =>
    case EndOperation => EndKeepsInv(s, config);
    case ResetNow => BeginResetKeepsInv(s);
    case Start =>
      BeginResetKeepsInv(s);
      if !(s.disposed || s.started) { AwaitKeepsInv(BeginReset(s), 1, 0); }
    case TimerFires(id) => TimerKeepsInv(s, id, config);
    case CallResetWorkspace(id) => PhaseKeepsInv(s, e, config);
    case ResetWorkspaceReturns(id, ok) => PhaseKeepsInv(s, e, config);
    case SeedReturns(id, ok, at) => PhaseKeepsInv(s, e, config);
    case FinallyRuns(id) => FinallyKeepsInv(s, id, config);
    case StartResumes => ResumeKeepsInv(s, e, config);
    case ScheduledResumes(ok) => ResumeKeepsInv(s, e, config);
    case Dispose =>
  }

  lemma ResumeKeepsInv(s: State, e: Event, config: Config)
    requires Inv(s) && Enabled(s, e) && (e.StartResumes? || e.ScheduledResumes?)
    ensures Inv(Apply(s, e, config))
  {
    hide InstallTimer, GateInv;
    match e
    case StartResumes =>
      var resumed := s.(startsReady := s.startsReady - 1);
      SameGate(s, resumed);
      if !s.disposed && !s.started {
        SameGate(s, resumed.(started := true));
        InstallKeepsInv(resumed.(started := true), config.resetIntervalMs);
      }
    case ScheduledResumes(true) =>
      SameGate(s, s.(scheduledReady := s.scheduledReady - 1));
      if !s.disposed { InstallKeepsInv(s.(scheduledReady := s.scheduledReady - 1), config.resetIntervalMs); }
    case ScheduledResumes(false) =>
      var resumed := s.(scheduledFailed := s.scheduledFailed - 1);
      SameGate(s, resumed);
      if !s.disposed {
        SameGate(s, resumed.(resetting := true));
        InstallKeepsInv(resumed.(resetting := true), config.retryAfterMs);
      }
  }

  lemma SameGate(a: State, b: State)
    requires GateInv(a)
    requires b.inFlight == a.inFlight && b.awaiting == a.awaiting && b.resetPromise == a.resetPromise
    requires b.zeroWaiters == a.zeroWaiters && b.activeOperations == a.activeOperations
    requires b.armed == a.armed && b.nextId == a.nextId && (a.resetting ==> b.resetting)
    ensures GateInv(b)
  {
  }

  /** A chain of no links gets its one. */
  lemma InstallKeepsInv(s: State, delayMs: nat)
    requires GateInv(s) && s.started && !s.disposed && s.timer.None? && s.armed.Keys == {} && ChainLength(s) == 0
    ensures Inv(InstallTimer(s, delayMs))
  {
  }

  // --- runs ------------------------------------------------------------------

  /** The state after a sequence of events, if each was enabled in its turn. */
  function After(events: seq<Event>, config: Config): Option<State> {
    if events == [] then Some(INITIAL)
    else
      var before := After(events[..|events| - 1], config);
      var e := events[|events| - 1];
      if before.Some? && Enabled(before.value, e) then Some(Apply(before.value, e, config)) else None
  }

  lemma {:induction false} RunKeepsInv(events: seq<Event>, config: Config)
    requires After(events, config).Some?
    ensures Inv(After(events, config).value)
  {
    if events != [] {
      var n := |events| - 1;
      RunKeepsInv(events[..n], config);
      StepKeepsInv(After(events[..n], config).value, events[n], config);
    }
  }

  /**
   Safety of every run: resetting and seeding are under way only with no operation
   active, nothing is admitted while a reset is in flight, at most one reset is in
   flight and one timer armed, and none is armed after `dispose`.
   */
  lemma EveryRunIsSafe(events: seq<Event>, config: Config)
    requires After(events, config).Some?
    ensures var s := After(events, config).value;
            |s.inFlight| <= 1 && |s.armed| <= 1 && (s.disposed ==> s.armed == map[]) &&
            (forall id :: id in s.inFlight && !s.inFlight[id].Waiting? ==> s.activeOperations == 0) &&
            (s.inFlight != map[] ==> Apply(s, BeginOperation, config) == s)
  {
    RunKeepsInv(events, config);
    var s := After(events, config).value;
    assert |s.inFlight| == |s.inFlight.Keys| && |s.armed| == |s.armed.Keys|;
    if s.inFlight != map[] {
      var id :| id in s.inFlight.Keys;
    }
  }

  function Completions(events: seq<Event>): nat {
    if events == [] then 0
    else
      var e := events[|events| - 1];
      Completions(events[..|events| - 1]) + if e.SeedReturns? && e.ok then 1 else 0
  }

  // What the parts of an event leave alone.

  lemma BeginResetFrame(s: State)
    ensures var r := BeginReset(s);
            r.activeOperations == s.activeOperations && r.generation == s.generation &&
            r.nextResetAt == s.nextResetAt && r.disposed == s.disposed &&
            r.started == s.started && r.armed == s.armed && r.startsReady == s.startsReady && r.resetPromise.Some? &&
            forall id :: id in r.inFlight && r.inFlight[id].Finished? ==>
              id in s.inFlight && s.inFlight[id] == r.inFlight[id]
  {
  }

  lemma AwaitFrame(s: State, starts: nat, scheduled: nat)
    requires s.resetPromise.Some?
    ensures var r := Await(s, starts, scheduled);
            r.activeOperations == s.activeOperations && r.generation == s.generation &&
            r.nextResetAt == s.nextResetAt && r.disposed == s.disposed &&
            r.started == s.started && r.armed == s.armed && r.startsReady == s.startsReady &&
            r.inFlight == s.inFlight && r.resetting == s.resetting && r.resetPromise == s.resetPromise
  {
  }

  lemma InstallFrame(s: State, delayMs: nat)
    ensures var r := InstallTimer(s, delayMs);
            r.activeOperations == s.activeOperations && r.generation == s.generation &&
            r.nextResetAt == s.nextResetAt && r.disposed == s.disposed &&
            r.started == s.started && r.armed == s.armed[s.nextId := delayMs] && r.startsReady == s.startsReady &&
            r.inFlight == s.inFlight &&
            r.resetting == s.resetting && r.resetPromise == s.resetPromise
  {
  }

  lemma SettleFrame(s: State, id: nat)
    requires id in s.inFlight && s.inFlight[id].Finished?
    ensures var r := Settle(s, id);
            r.activeOperations == s.activeOperations && r.generation == s.generation &&
            r.nextResetAt == s.nextResetAt && r.disposed == s.disposed &&
            r.started == s.started && r.armed == s.armed && r.inFlight == s.inFlight - {id} &&
            (!s.inFlight[id].ok ==> r.startsReady == s.startsReady)
  {
  }

  /** Four fields that few events touch. */
  lemma StepFrame(s: State, e: Event, config: Config)
    requires Enabled(s, e)
    ensures var r := Apply(s, e, config);
            r.generation == s.generation + (if e.SeedReturns? && e.ok then 1 else 0) &&
            (r.disposed <==> s.disposed || e == Dispose) &&
            r.activeOperations ==
            s.activeOperations + (if e.BeginOperation? && !s.resetting then 1 else if e.EndOperation? then -1 else 0) &&
            r.nextResetAt ==
            if e.SeedReturns? && e.ok then Some(e.at + config.resetIntervalMs)
            else if e.TimerFires? || e.Dispose? then None
            else s.nextResetAt
  {
    hide BeginReset, Await, Settle, InstallTimer, ReleaseWaiters;
    match e
    case ResetNow => BeginResetFrame(s);
    case Start =>
      BeginResetFrame(s);
      AwaitFrame(BeginReset(s), 1, 0);
    case TimerFires(id) =>
      var fired := s.(armed := s.armed - {id}, timer := None, nextResetAt := None);
      BeginResetFrame(fired);
      AwaitFrame(BeginReset(fired), 0, 1);
    case FinallyRuns(id) => SettleFrame(s, id);
    case StartResumes =>
      InstallFrame(s.(startsReady := s.startsReady - 1, started := true), config.resetIntervalMs);
    case ScheduledResumes(true) =>
      InstallFrame(s.(scheduledReady := s.scheduledReady - 1), config.resetIntervalMs);
    case ScheduledResumes(false) =>
      InstallFrame(s.(scheduledFailed := s.scheduledFailed - 1, resetting := true), config.retryAfterMs);
    case _ =>
  }

  /** Which events arm a timer, and for how long. */
  lemma ArmFrame(s: State, e: Event, config: Config, id: nat)
    requires Enabled(s, e) && id !in s.armed && id in Apply(s, e, config).armed
    ensures e.ScheduledResumes? || (e.StartResumes? && !s.started)
    ensures Apply(s, e, config).armed[id] ==
            if e == ScheduledResumes(false) then config.retryAfterMs else config.resetIntervalMs
  {
    if e.ScheduledResumes? || e.StartResumes? {
      hide BeginReset, Await, Settle, ReleaseWaiters;
    } else {
      OthersArmNone(s, e, config);
    }
  }

  lemma OthersArmNone(s: State, e: Event, config: Config)
    requires Enabled(s, e) && !e.ScheduledResumes? && !e.StartResumes?
    ensures Apply(s, e, config).armed.Keys <= s.armed.Keys
  {
    hide BeginReset, Await, Settle, InstallTimer, ReleaseWaiters;
    match e
    case ResetNow => BeginResetFrame(s);
    case Start =>
      BeginResetFrame(s);
      AwaitFrame(BeginReset(s), 1, 0);
    case TimerFires(id) =>
      var fired := s.(armed := s.armed - {id}, timer := None, nextResetAt := None);
      BeginResetFrame(fired);
      AwaitFrame(BeginReset(fired), 0, 1);
    case FinallyRuns(id) => SettleFrame(s, id);
    case _ =>
  }

  /** `generation` counts the resets whose seeding completed. */
  lemma {:induction false} GenerationCountsResets(events: seq<Event>, config: Config)
    requires After(events, config).Some?
    ensures After(events, config).value.generation == Completions(events)
  {
    if events != [] {
      var front := events[..|events| - 1];
      GenerationCountsResets(front, config);
      StepFrame(After(front, config).value, events[|events| - 1], config);
    }
  }

  /** The operations let in and not yet over: each that arrived while the gate was open, less each that ended. */
  function Under(events: seq<Event>, config: Config): int {
    if events == [] then 0
    else
      var front, e := events[..|events| - 1], events[|events| - 1];
      var before := After(front, config);
      Under(front, config) +
      if e.BeginOperation? && before.Some? && !before.value.resetting then 1 else if e.EndOperation? then -1 else 0
  }

  lemma {:induction false} ActiveAreUnder(events: seq<Event>, config: Config)
    requires After(events, config).Some?
    ensures After(events, config).value.activeOperations == Under(events, config)
  {
    if events != [] {
      var front := events[..|events| - 1];
      ActiveAreUnder(front, config);
      StepFrame(After(front, config).value, events[|events| - 1], config);
    }
  }

  // --- what goes on ----------------------------------------------------------

  /**
   The showcase goes on being reset: in every run, from a completed start until
   `dispose`, exactly one timer is armed, or one callback has fired and is waiting for
   its reset or for its turn to arm the next.
   */
  lemma ResetsGoOn(events: seq<Event>, config: Config)
    requires After(events, config).Some? && After(events, config).value.started
    ensures var s := After(events, config).value;
            s.generation > 0 &&
            (!s.disposed ==> |s.armed| + ScheduledAwaiting(s) + s.scheduledReady + s.scheduledFailed == 1)
  {
    RunKeepsInv(events, config);
    StartedAfterReset(events, config);
    var s := After(events, config).value;
    assert |s.armed| == |s.armed.Keys|;
  }

  /** Nothing is started before a reset has completed: a start whose reset fails has no effect. */
  lemma {:induction false} StartedAfterReset(events: seq<Event>, config: Config)
    requires After(events, config).Some?
    ensures var s := After(events, config).value;
            (s.started || s.startsReady > 0 || (exists id :: id in s.inFlight && s.inFlight[id] == Finished(true))) ==>
              s.generation > 0
  {
    if events != [] {
      var front := events[..|events| - 1];
      StartedAfterReset(front, config);
      StartedStep(After(front, config).value, events[|events| - 1], config);
    }
  }

  predicate CompletedBeforeStart(s: State) {
    (s.started || s.startsReady > 0 || (exists id :: id in s.inFlight && s.inFlight[id] == Finished(true))) ==>
      s.generation > 0
  }

  lemma StartedStep(s: State, e: Event, config: Config)
    requires Enabled(s, e) && CompletedBeforeStart(s)
    ensures CompletedBeforeStart(Apply(s, e, config))
  {
    hide BeginReset, Await, Settle, InstallTimer, ReleaseWaiters;
    match e
    case EndOperation => Released(s.inFlight, s.zeroWaiters);
    case ResetNow => BeginResetFrame(s);
    case Start =>
      BeginResetFrame(s);
      AwaitFrame(BeginReset(s), 1, 0);
    case TimerFires(id) =>
      var fired := s.(armed := s.armed - {id}, timer := None, nextResetAt := None);
      BeginResetFrame(fired);
      AwaitFrame(BeginReset(fired), 0, 1);
    case FinallyRuns(id) => SettleFrame(s, id);
    case StartResumes =>
      InstallFrame(s.(startsReady := s.startsReady - 1, started := true), config.resetIntervalMs);
    case ScheduledResumes(true) =>
      InstallFrame(s.(scheduledReady := s.scheduledReady - 1), config.resetIntervalMs);
    case ScheduledResumes(false) =>
      InstallFrame(s.(scheduledFailed := s.scheduledFailed - 1, resetting := true), config.retryAfterMs);
    case _ =>
  }

  /** When a reset ends, exactly the handler for its outcome can run in the callback that waits for it. */
  lemma CallbackHearsTheOutcome(events: seq<Event>, config: Config, id: nat)
    requires After(events, config).Some? && Enabled(After(events, config).value, FinallyRuns(id))
    requires ScheduledAwaiting(After(events, config).value) > 0
    ensures var s := After(events, config).value;
            var ended := Apply(s, FinallyRuns(id), config);
            Enabled(ended, ScheduledResumes(s.inFlight[id].ok)) && !Enabled(ended, ScheduledResumes(!s.inFlight[id].ok))
  {
    RunKeepsInv(events, config);
    var s := After(events, config).value;
    assert id in s.inFlight.Keys;
  }

  /** The latest scheduled reset to be handled had failed. */
  predicate RetryDue(events: seq<Event>) {
    events != [] &&
    var front, e := events[..|events| - 1], events[|events| - 1];
    e == ScheduledResumes(false) || (e != ScheduledResumes(true) && RetryDue(front))
  }

  lemma {:induction false} RetriesOnlyOnceStarted(events: seq<Event>, config: Config)
    requires After(events, config).Some? && RetryDue(events)
    ensures After(events, config).value.started
  {
    var front := events[..|events| - 1];
    RunKeepsInv(front, config);
    if RetryDue(front) { RetriesOnlyOnceStarted(front, config); }
  }

  /** An armed timer waits for the retry delay after a failed scheduled reset, and else for the interval. */
  lemma {:induction false} DelayIs(events: seq<Event>, config: Config, id: nat)
    requires After(events, config).Some? && id in After(events, config).value.armed
    ensures After(events, config).value.armed[id] ==
            if RetryDue(events) then config.retryAfterMs else config.resetIntervalMs
  {
    assert events != [];
    var front, e := events[..|events| - 1], events[|events| - 1];
    RunKeepsInv(front, config);
    var s := After(front, config).value;
    assert After(events, config) == Some(Apply(s, e, config)) && Enabled(s, e);
    hide After, Apply, Inv, Enabled;
    if id in s.armed {
      DelayIs(front, config, id);
      ArmedStays(s, e, config, id);
    } else {
      if RetryDue(front) { RetriesOnlyOnceStarted(front, config); }
      ArmFrame(s, e, config, id);
    }
  }

  lemma ArmedStays(s: State, e: Event, config: Config, id: nat)
    requires Inv(s) && Enabled(s, e) && id in s.armed && id in Apply(s, e, config).armed
    ensures Apply(s, e, config).armed[id] == s.armed[id]
    ensures !e.ScheduledResumes?
  {
    assert id in s.armed.Keys;
  }

  /** The time of the next reset: an interval after the latest completed one, until a timer fires or `dispose`. */
  function Announced(events: seq<Event>, config: Config): Option<int> {
    if events == [] then None
    else
      var e := events[|events| - 1];
      if e.SeedReturns? && e.ok then Some(e.at + config.resetIntervalMs)
      else if e.TimerFires? || e.Dispose? then None
      else Announced(events[..|events| - 1], config)
  }

  lemma {:induction false} AnnouncedIsKept(events: seq<Event>, config: Config)
    requires After(events, config).Some?
    ensures After(events, config).value.nextResetAt == Announced(events, config)
  {
    if events != [] {
      var front, e := events[..|events| - 1], events[|events| - 1];
      AnnouncedIsKept(front, config);
      StepFrame(After(front, config).value, e, config);
    }
  }

  /** How far the reset in flight is from its end: the operations it waits for and the stretches it has to go. */
  function ToGo(s: State): nat {
    if s.resetPromise.None? || s.resetPromise.value !in s.inFlight then 0
    else
      match s.inFlight[s.resetPromise.value]
      case Waiting => 4 + s.activeOperations
      case Ready => 4
      case Resetting => 3
      case Seeding => 2
      case Finished(_) => 1
  }

  /** The events that bring it nearer. */
  predicate Advances(e: Event) {
    e.EndOperation? || e.CallResetWorkspace? || e.ResetWorkspaceReturns? || e.SeedReturns? || e.FinallyRuns?
  }

  /**
   A reset never gets stuck: while one is in flight some event is possible that
   brings it nearer to its end, every such event does, and no other event takes it back.
   */
  lemma AResetInFlightEnds(events: seq<Event>, config: Config) returns (next: Event)
    requires After(events, config).Some? && After(events, config).value.inFlight != map[]
    ensures var s := After(events, config).value;
            Enabled(s, next) && Advances(next) && ToGo(s) > 0 &&
            forall e :: Enabled(s, e) ==>
              if Advances(e) then ToGo(Apply(s, e, config)) < ToGo(s) else ToGo(Apply(s, e, config)) == ToGo(s)
  {
    RunKeepsInv(events, config);
    var s := After(events, config).value;
    OpenOrInFlight(s);
    var id := s.resetPromise.value;
    assert id in s.inFlight.Keys;
    forall e | Enabled(s, e)
      ensures if Advances(e) then ToGo(Apply(s, e, config)) < ToGo(s) else ToGo(Apply(s, e, config)) == ToGo(s)
    {
      Nearer(s, e, config);
    }
    next := match s.inFlight[id]
            case Waiting => EndOperation
            case Ready => CallResetWorkspace(id)
            case Resetting => ResetWorkspaceReturns(id, true)
            case Seeding => SeedReturns(id, true, 0)
            case Finished(_) => FinallyRuns(id);
  }

  lemma Nearer(s: State, e: Event, config: Config)
    requires Inv(s) && s.resetPromise.Some? && Enabled(s, e)
    ensures if Advances(e) then ToGo(Apply(s, e, config)) < ToGo(s) else ToGo(Apply(s, e, config)) == ToGo(s)
  {
    var id := s.resetPromise.value;
    assert s.inFlight.Keys == {id} && id in s.inFlight;
  }

  // --- the gate between a failed reset and its retry -------------------------

  /** Whether the failure handler of a scheduled reset has shut the gate since the last reset ended. */
  predicate ShutByHandler(events: seq<Event>) {
    events != [] &&
    var front, e := events[..|events| - 1], events[|events| - 1];
    !e.FinallyRuns? && ((e == ScheduledResumes(false) && Dispose !in front) || ShutByHandler(front))
  }

  lemma {:induction false} DisposedIff(events: seq<Event>, config: Config)
    requires After(events, config).Some?
    ensures After(events, config).value.disposed <==> Dispose in events
  {
    if events != [] {
      var front := events[..|events| - 1];
      DisposedIff(front, config);
      StepFrame(After(front, config).value, events[|events| - 1], config);
      assert events == front + [events[|events| - 1]];
    }
  }

  lemma OpenOrInFlight(s: State)
    requires Inv(s)
    ensures s.inFlight != map[] <==> s.resetPromise.Some?
  {
    if s.resetPromise.Some? { assert s.resetPromise.value in s.inFlight.Keys; }
    if s.resetPromise.None? { assert s.inFlight.Keys == {}; }
  }

  lemma GateStep(s: State, e: Event, config: Config, shut: bool)
    requires Inv(s) && Enabled(s, e) && (s.resetting <==> s.resetPromise.Some? || shut)
    ensures var s' := Apply(s, e, config);
            s'.resetting <==> s'.resetPromise.Some? ||
                              (!e.FinallyRuns? && ((e == ScheduledResumes(false) && !s.disposed) || shut))
  {
    hide Await, InstallTimer, ReleaseWaiters;
    match e
    case Start => AwaitFrame(BeginReset(s), 1, 0);
    case TimerFires(id) =>
      AwaitFrame(BeginReset(s.(armed := s.armed - {id}, timer := None, nextResetAt := None)), 0, 1);
    case FinallyRuns(id) => assert s.inFlight.Keys == {id};
    case StartResumes =>
      InstallFrame(s.(startsReady := s.startsReady - 1, started := true), config.resetIntervalMs);
    case ScheduledResumes(true) =>
      InstallFrame(s.(scheduledReady := s.scheduledReady - 1), config.resetIntervalMs);
    case ScheduledResumes(false) =>
      InstallFrame(s.(scheduledFailed := s.scheduledFailed - 1, resetting := true), config.retryAfterMs);
    case _ =>
  }

  /** The gate is shut exactly while a reset is in flight or that handler has shut it. */
  lemma {:induction false} GateShutIff(events: seq<Event>, config: Config)
    requires After(events, config).Some?
    ensures var s := After(events, config).value;
            s.resetting <==> s.inFlight != map[] || ShutByHandler(events)
  {
    RunKeepsInv(events, config);
    OpenOrInFlight(After(events, config).value);
    if events != [] {
      var front := events[..|events| - 1];
      GateShutIff(front, config);
      DisposedIff(front, config);
      RunKeepsInv(front, config);
      OpenOrInFlight(After(front, config).value);
      GateStep(After(front, config).value, events[|events| - 1], config, ShutByHandler(front));
    }
  }

  lemma OneMore(events: seq<Event>, e: Event, config: Config)
    requires After(events, config).Some? && Enabled(After(events, config).value, e)
    ensures After(events + [e], config) == Some(Apply(After(events, config).value, e, config))
  {
    assert (events + [e])[..|events|] == events;
  }

  /**
   The source says work stays gated until a complete reset succeeds.  It does not:
   between the `finally` that ends a failed scheduled reset and the handler that
   shuts the gate again, an operation is admitted to a half-reset workspace.
   */
  lemma WorkEntersAfterAFailedReset(config: Config) returns (events: seq<Event>)
    ensures |events| == 12 && events[8..] == [ResetWorkspaceReturns(2, true), SeedReturns(2, false, 0), FinallyRuns(2),
                                              BeginOperation]
    ensures After(events, config).Some?
    ensures var s := After(events, config).value; s.activeOperations == 1 && s.scheduledFailed == 1
  {
    events := FailedReset(config);
    OneMore(events, FinallyRuns(2), config);
    var events1 := events + [FinallyRuns(2)];
    var s := After(events1, config).value;
    assert !s.resetting && s.scheduledFailed == 1;
    OneMore(events1, BeginOperation, config);
    assert events1 + [BeginOperation] == events + [FinallyRuns(2), BeginOperation];
    events := events1 + [BeginOperation];
  }

  lemma SeededOnce(config: Config) returns (events: seq<Event>)
    ensures |events| == 4 && After(events, config).Some?
    ensures After(events, config).value ==
            INITIAL.(resetting := true, resetPromise := Some(0), inFlight := map[0 := Finished(true)],
                     awaiting := map[0 := Awaiting(1, 0)], nextId := 1, generation := 1,
                     nextResetAt := Some(config.resetIntervalMs))
  {
    hide Settle, InstallTimer, ReleaseWaiters;
    OneMore([], Start, config);
    events := [] + [Start];
    OneMore(events, CallResetWorkspace(0), config);
    events := events + [CallResetWorkspace(0)];
    OneMore(events, ResetWorkspaceReturns(0, true), config);
    events := events + [ResetWorkspaceReturns(0, true)];
    OneMore(events, SeedReturns(0, true, 0), config);
    events := events + [SeedReturns(0, true, 0)];
  }

  lemma FirstReset(config: Config) returns (events: seq<Event>)
    ensures |events| == 6 && After(events, config).Some?
    ensures After(events, config).value ==
            INITIAL.(generation := 1, nextResetAt := Some(config.resetIntervalMs), timer := Some(1),
                     armed := map[1 := config.resetIntervalMs], started := true, nextId := 2)
  {
    events := SeededOnce(config);
    OneMore(events, FinallyRuns(0), config);
    events := events + [FinallyRuns(0)];
    assert map[0 := Finished(true)] - {0} == map[] && map[0 := Awaiting(1, 0)] - {0} == map[];
    OneMore(events, StartResumes, config);
    events := events + [StartResumes];
  }

  lemma FailedReset(config: Config) returns (events: seq<Event>)
    ensures |events| == 10 && events[8..] == [ResetWorkspaceReturns(2, true), SeedReturns(2, false, 0)]
    ensures After(events, config).Some?
    ensures var s := After(events, config).value;
            s.inFlight == map[2 := Finished(false)] && s.awaiting == map[2 := Awaiting(0, 1)] &&
            s.resetPromise == Some(2) &&
            s.activeOperations == 0 && s.scheduledFailed == 0
  {
    hide Settle, InstallTimer, ReleaseWaiters;
    events := FirstReset(config);
    OneMore(events, TimerFires(1), config);
    events := events + [TimerFires(1)];
    OneMore(events, CallResetWorkspace(2), config);
    events := events + [CallResetWorkspace(2)];
    OneMore(events, ResetWorkspaceReturns(2, true), config);
    events := events + [ResetWorkspaceReturns(2, true)];
    OneMore(events, SeedReturns(2, false, 0), config);
    events := events + [SeedReturns(2, false, 0)];
  }

  // --- the object ------------------------------------------------------------

  class Coordinator {
    var activeOperations: nat
    var resetting: bool
    var generation: nat
    var nextResetAt: Option<int>
    var zeroWaiters: seq<nat>
    var resetPromise: Option<nat>
    var timer: Option<nat>
    var started: bool
    var disposed: bool
    const config: Config

    // The runtime: resets under way, continuations waiting or queued, armed timers.
    var inFlight: map<nat, Phase>
    var awaiting: map<nat, Awaiting>
    var startsReady: nat
    var scheduledReady: nat
    var scheduledFailed: nat
    var armed: map<nat, nat>
    var nextId: nat

    ghost function Snapshot(): State
      reads this
    {
      State(activeOperations, resetting, generation, nextResetAt, zeroWaiters, resetPromise, timer, started, disposed,
            inFlight, awaiting, startsReady, scheduledReady, scheduledFailed, armed, nextId)
    }

    constructor (config: Config)
      ensures Snapshot() == INITIAL && Inv(Snapshot()) && this.config == config
    {
      activeOperations, resetting, generation, nextResetAt := 0, false, 0, None;
      zeroWaiters, resetPromise, timer, started, disposed := [], None, None, false, false;
      inFlight, awaiting, startsReady, scheduledReady, scheduledFailed := map[], map[], 0, 0, 0;
      armed, nextId := map[], 0;
      this.config := config;
    }

    /** `withOperation` up to the call of the operation. */
    method OperationBegins() returns (admitted: bool)
      requires Inv(Snapshot())
      modifies this
      ensures Inv(Snapshot()) && Snapshot() == Apply(old(Snapshot()), BeginOperation, config)
      ensures admitted <==> !old(resetting)
      ensures old(inFlight) != map[] ==> !admitted
    {
      StepKeepsInv(Snapshot(), BeginOperation, config);
      OpenOrInFlight(Snapshot());
      if resetting { return false; }
      activeOperations := activeOperations + 1;
      return true;
    }

    /** The `finally` of `withOperation`. */
    method OperationEnds()
      requires activeOperations > 0
      modifies this
      ensures Snapshot() == Apply(old(Snapshot()), EndOperation, config)
    {
      activeOperations := activeOperations - 1;
      if activeOperations == 0 { ReleaseZeroWaiters(); }
    }

    method ReleaseZeroWaiters()
      modifies this`zeroWaiters, this`inFlight
      ensures zeroWaiters == [] && inFlight == ReleaseWaiters(old(inFlight), old(zeroWaiters))
    {
      inFlight := ReleaseWaiters(inFlight, zeroWaiters);
      zeroWaiters := [];
    }

    /** `resetNow`, with the synchronous start of `performReset`. */
    method ResetNow() returns (promise: nat)
      modifies this
      ensures Snapshot() == BeginReset(old(Snapshot())) && resetPromise == Some(promise)
    {
      if resetPromise.Some? { return resetPromise.value; }
      resetting := true;
      promise := nextId;
      nextId := nextId + 1;
      if activeOperations == 0 {
        inFlight := inFlight[promise := Ready];
      } else {
        zeroWaiters := zeroWaiters + [promise];
        inFlight := inFlight[promise := Waiting];
      }
      resetPromise := Some(promise);
    }

    method AwaitPromise(promise: nat, starts: nat, scheduled: nat)
      requires resetPromise == Some(promise)
      modifies this`awaiting
      ensures Snapshot() == Await(old(Snapshot()), starts, scheduled)
    {
      var a := if promise in awaiting then awaiting[promise] else Awaiting(0, 0);
      awaiting := awaiting[promise := Awaiting(a.starts + starts, a.scheduled + scheduled)];
    }

    /** `start` up to its await. */
    method StartBegins()
      modifies this
      ensures Snapshot() == Apply(old(Snapshot()), Start, config)
    {
      if disposed || started { return; }
      var promise := ResetNow();
      AwaitPromise(promise, 1, 0);
    }

    method InstallNewTimer(delayMs: nat)
      modifies this`timer, this`armed, this`nextId
      ensures Snapshot() == InstallTimer(old(Snapshot()), delayMs)
    {
      timer := Some(nextId);
      armed := armed[nextId := delayMs];
      nextId := nextId + 1;
    }

    /** `start` after its await. */
    method StartContinues()
      requires startsReady > 0
      modifies this
      ensures Snapshot() == Apply(old(Snapshot()), StartResumes, config)
    {
      startsReady := startsReady - 1;
      if disposed || started { return; }
      started := true;
      InstallNewTimer(config.resetIntervalMs);
    }

    /** The timer callback: `runScheduledReset` up to its await. */
    method TimerCallback(id: nat)
      requires id in armed
      modifies this
      ensures Snapshot() == Apply(old(Snapshot()), TimerFires(id), config)
    {
      armed := armed - {id};
      timer := None;
      nextResetAt := None;
      var promise := ResetNow();
      AwaitPromise(promise, 0, 1);
    }

    /** `runScheduledReset` after its await. */
    method ScheduledContinues(ok: bool)
      requires Enabled(Snapshot(), ScheduledResumes(ok))
      modifies this
      ensures Snapshot() == Apply(old(Snapshot()), ScheduledResumes(ok), config)
    {
      if ok {
        scheduledReady := scheduledReady - 1;
        if !disposed { InstallNewTimer(config.resetIntervalMs); }
      } else {
        scheduledFailed := scheduledFailed - 1;
        if disposed { return; }
        resetting := true;
        InstallNewTimer(config.retryAfterMs);
      }
    }

    /** `performReset` reaches the call of `resetWorkspace`: no operation is active. */
    method PerformCallsReset(id: nat)
      requires Inv(Snapshot()) && id in inFlight && inFlight[id] == Ready
      modifies this
      ensures Inv(Snapshot()) && Snapshot() == Apply(old(Snapshot()), CallResetWorkspace(id), config)
      ensures activeOperations == 0
    {
      StepKeepsInv(Snapshot(), CallResetWorkspace(id), config);
      inFlight := inFlight[id := Resetting];
    }

    /** `performReset` after `resetWorkspace`: seeding is called, still with no operation active. */
    method PerformCallsSeed(id: nat, ok: bool)
      requires Inv(Snapshot()) && id in inFlight && inFlight[id] == Resetting
      modifies this
      ensures Inv(Snapshot()) && Snapshot() == Apply(old(Snapshot()), ResetWorkspaceReturns(id, ok), config)
      ensures activeOperations == 0
    {
      StepKeepsInv(Snapshot(), ResetWorkspaceReturns(id, ok), config);
      inFlight := inFlight[id := if ok then Seeding else Finished(false)];
    }

    /** `performReset` after `seed`. */
    method PerformFinishes(id: nat, ok: bool, at: int)
      requires id in inFlight && inFlight[id] == Seeding
      modifies this
      ensures Snapshot() == Apply(old(Snapshot()), SeedReturns(id, ok, at), config)
    {
      if ok {
        generation := generation + 1;
        nextResetAt := Some(at + config.resetIntervalMs);
      }
      inFlight := inFlight[id := Finished(ok)];
    }

    /** The `finally` of `resetNow`, and the settling of its promise. */
    method ResetSettles(id: nat)
      requires id in inFlight && inFlight[id].Finished?
      modifies this
      ensures Snapshot() == Settle(old(Snapshot()), id)
    {
      hide Delivered;
      OpenGate(id);
      Deliver(inFlight[id].ok, if id in awaiting then awaiting[id] else Awaiting(0, 0));
      inFlight := inFlight - {id};
      awaiting := awaiting - {id};
    }

    method OpenGate(id: nat)
      modifies this`resetting, this`resetPromise
      ensures Snapshot() == Opened(old(Snapshot()), id)
    {
      resetting := false;
      if resetPromise == Some(id) { resetPromise := None; }
    }

    /** The continuations that waited for a promise are queued; a failed `start` has nothing left to do. */
    method Deliver(ok: bool, a: Awaiting)
      modifies this`startsReady, this`scheduledReady, this`scheduledFailed
      ensures Snapshot() == Delivered(old(Snapshot()), ok, a)
    {
      if ok {
        startsReady := startsReady + a.starts;
        scheduledReady := scheduledReady + a.scheduled;
      } else {
        scheduledFailed := scheduledFailed + a.scheduled;
      }
    }

    method DisposeNow()
      requires Inv(Snapshot())
      modifies this
      ensures Inv(Snapshot()) && Snapshot() == Apply(old(Snapshot()), Dispose, config)
      ensures armed == map[]
    {
      StepKeepsInv(Snapshot(), Dispose, config);
      disposed := true;
      nextResetAt := None;
      if timer.None? { return; }
      armed := armed - {timer.value};
      timer := None;
    }
  }
}
