/**
 The turn-task supervisor as a step machine.

 Callers reserve a permit through a command queue, hand it back together with a turn to run, or drop it.
 The supervisor takes one command at a time; on shutdown it closes admission, drains the queue,
 waits for or aborts the running tasks, and only then answers.
 */
module TurnTasks {

  type CallId = nat
  type WaiterId = nat

  /** A call to `reserve`: still sending, waiting for its reply, with a permit in the reply, or holding it. */
  datatype CallState = Sending | Awaiting | Granted | Holding
  {
    predicate HasPermit() {
      Granted? || Holding?
    }
  }

  datatype Command = Reserve(call: CallId) | SpawnReserved | Active | Shutdown(waiter: WaiterId)

  datatype Phase = Idle | Granting(call: CallId) | Draining | Joining | Stopped

  datatype State = State(
    available: nat,
    closed: bool,
    queue: seq<Command>,
    calls: map<CallId, CallState>,
    nextCall: CallId,
    running: nat,
    finished: nat,
    started: nat,
    phase: Phase,
    cancelled: bool,
    shutdownStarted: bool,
    shutdownSenders: set<WaiterId>,
    waiters: set<WaiterId>,
    answered: set<WaiterId>,
    returnedEarly: set<WaiterId>)

  datatype Config = Config(maxActive: nat, capacity: nat)

  datatype Step =
    // callers
    | BeginReserve
    | SendReserve(call: CallId)
    | GiveUp(call: CallId)
    | ReceivePermit(call: CallId)
    | SpawnTask(call: CallId)
    | AskActive
    | CancelService
    | BeginShutdown(waiter: WaiterId)
    | SendShutdown(waiter: WaiterId)
    // tasks
    | TaskEnds
    // the supervisor
    | TakeCommand
    | Grant
    | RefuseCancelled
    | RefuseTimedOut
    | ObserveCancellation
    | DrainCommand
    | DrainJoined
    | EndDraining
    | JoinTask
    | AnswerShutdown

  function Initial(c: Config): State {
    State(c.maxActive, false, [], map[], 0, 0, 0, 0, Idle, false, false, {}, {}, {}, {})
  }

  predicate CanSend(s: State, c: Config) {
    !s.phase.Stopped? && |s.queue| < c.capacity
  }

  predicate Enabled(s: State, step: Step, c: Config) {
    match step
    case BeginReserve => !s.cancelled
    case SendReserve(call) => call in s.calls && s.calls[call] == Sending && CanSend(s, c)
    case GiveUp(call) => call in s.calls
    case ReceivePermit(call) => call in s.calls && s.calls[call] == Granted
    case SpawnTask(call) => call in s.calls && s.calls[call] == Holding
    case AskActive => CanSend(s, c)
    case CancelService => true
    case BeginShutdown(_) => true
    case SendShutdown(w) => w in s.shutdownSenders && CanSend(s, c)
    case TaskEnds => s.running > 0
    case TakeCommand => s.phase.Idle? && s.queue != []
    case Grant => s.phase.Granting? && s.available > 0 && !s.closed
    case RefuseCancelled => s.phase.Granting? && s.cancelled
    case RefuseTimedOut => s.phase.Granting?
    case ObserveCancellation => s.phase.Idle? && s.cancelled
    case DrainCommand => s.phase.Draining? && s.queue != []
    case DrainJoined => s.phase.Draining?
    case EndDraining => s.phase.Draining?
    case JoinTask => s.phase.Joining? && s.finished > 0
    case AnswerShutdown => s.phase.Joining? && s.running == 0 && s.finished == 0
  }

  function Enqueue(s: State, command: Command): State {
    s.(queue := s.queue + [command])
  }

  /** A call that ends without passing its permit on drops whatever permit it has. */
  function EndCall(s: State, call: CallId): State
    requires call in s.calls
  {
    s.(calls := s.calls - {call}, available := s.available + if s.calls[call].HasPermit() then 1 else 0)
  }

  /** An error reply ends the call, if it is still waiting. */
  function Refuse(s: State, call: CallId): State {
    if call in s.calls && s.calls[call] == Awaiting then s.(calls := s.calls - {call}) else s
  }

  function Next(s: State, step: Step, c: Config): State
    requires Enabled(s, step, c)
  {
    match step
    case BeginReserve => s.(calls := s.calls[s.nextCall := Sending], nextCall := s.nextCall + 1)
    case SendReserve(call) => Enqueue(s.(calls := s.calls[call := Awaiting]), Reserve(call))
    case GiveUp(call) => EndCall(s, call)
    case ReceivePermit(call) => s.(calls := s.calls[call := Holding])
    case SpawnTask(call) =>
      if CanSend(s, c) then Enqueue(s.(calls := s.calls - {call}), SpawnReserved) else EndCall(s, call)
    case AskActive => Enqueue(s, Active)
    case CancelService => s.(cancelled := true)
    case BeginShutdown(w) =>
      var s' := s.(cancelled := true, shutdownStarted := true);
      if s.shutdownStarted then s'.(returnedEarly := s.returnedEarly + {w})
      else s'.(shutdownSenders := s.shutdownSenders + {w})
    case SendShutdown(w) => Enqueue(s.(shutdownSenders := s.shutdownSenders - {w}), Shutdown(w))
    case TaskEnds => s.(running := s.running - 1, finished := s.finished + 1, available := s.available + 1)
    case TakeCommand =>
      var s' := s.(queue := s.queue[1..]);
      (match s.queue[0]
       case Reserve(call) => s'.(phase := Granting(call))
       case SpawnReserved => s'.(running := s.running + 1, started := s.started + 1)
       case Active => s'.(finished := 0)
       case Shutdown(w) => s'.(closed := true, phase := Draining, waiters := s.waiters + {w}))
    case Grant =>
      var call := s.phase.call;
      if call in s.calls && s.calls[call] == Awaiting then
        s.(available := s.available - 1, calls := s.calls[call := Granted], phase := Idle)
      else s.(phase := Idle)
    case RefuseCancelled => Refuse(s, s.phase.call).(phase := Idle)
    case RefuseTimedOut => Refuse(s, s.phase.call).(phase := Idle)
    case ObserveCancellation => s.(closed := true, phase := Draining)
    case DrainCommand =>
      var s' := s.(queue := s.queue[1..]);
      (match s.queue[0]
       case Reserve(call) => Refuse(s', call)
       case SpawnReserved => s'.(available := s.available + 1)
       case Active => s'.(finished := 0)
       case Shutdown(w) => s'.(waiters := s.waiters + {w}))
    case DrainJoined => s.(finished := 0)
    case EndDraining => s.(phase := Joining)
    case JoinTask => s.(finished := s.finished - 1)
    case AnswerShutdown =>
      s.(phase := Stopped, answered := s.answered + s.waiters, waiters := {},
         queue := [], available := s.available + Spawns(s.queue))
  }

  // ---------------------------------------------------------------- permits

  function Spawns(queue: seq<Command>): nat {
    if queue == [] then 0 else (if queue[0] == SpawnReserved then 1 else 0) + Spawns(queue[1..])
  }

  lemma {:induction false} SpawnsAppend(queue: seq<Command>, command: Command)
    ensures Spawns(queue + [command]) == Spawns(queue) + if command == SpawnReserved then 1 else 0
  {
    if queue != [] {
      assert (queue + [command])[1..] == queue[1..] + [command];
      SpawnsAppend(queue[1..], command);
    }
  }

  ghost function PermitHolders(calls: map<CallId, CallState>): set<CallId> {
    set call | call in calls && calls[call].HasPermit()
  }

  /** Everywhere a permit can be: free, in a reply or with a caller, in a queued command, in a running task. */
  ghost function Permits(s: State): nat {
    s.available + |PermitHolders(s.calls)| + Spawns(s.queue) + s.running
  }

  lemma CallChanges(calls: map<CallId, CallState>, call: CallId, state: CallState)
    ensures |PermitHolders(calls[call := state])| ==
            |PermitHolders(calls)| - (if call in calls && calls[call].HasPermit() then 1 else 0)
                                   + (if state.HasPermit() then 1 else 0)
  {
    var rest := PermitHolders(calls) - {call};
    assert PermitHolders(calls) == if call in calls && calls[call].HasPermit() then rest + {call} else rest;
    assert PermitHolders(calls[call := state]) == if state.HasPermit() then rest + {call} else rest;
  }

  lemma CallEnds(calls: map<CallId, CallState>, call: CallId)
    requires call in calls
    ensures |PermitHolders(calls - {call})| ==
            |PermitHolders(calls)| - if calls[call].HasPermit() then 1 else 0
  {
    assert PermitHolders(calls - {call}) == PermitHolders(calls) - {call};
  }

  // ---------------------------------------------------------------- the invariant

  predicate ShuttingDown(p: Phase) {
    p.Draining? || p.Joining? || p.Stopped?
  }

  ghost predicate Inv(s: State, c: Config) {
    && Permits(s) == c.maxActive
    && (forall call :: call in s.calls ==> call < s.nextCall)
    && Phased(s)
  }

  lemma CallerConservesPermits(s: State, step: Step, c: Config)
    requires Enabled(s, step, c) && Inv(s, c)
    requires step.BeginReserve? || step.SendReserve? || step.GiveUp? || step.ReceivePermit? || step.SpawnTask?
    ensures Permits(Next(s, step, c)) == Permits(s)
  {
    if step.BeginReserve? {
      CallChanges(s.calls, s.nextCall, Sending);
    } else if step.SendReserve? {
      CallChanges(s.calls, step.call, Awaiting);
      SpawnsAppend(s.queue, Reserve(step.call));
    } else if step.GiveUp? {
      CallEnds(s.calls, step.call);
    } else if step.ReceivePermit? {
      CallChanges(s.calls, step.call, Holding);
    } else {
      CallEnds(s.calls, step.call);
      SpawnsAppend(s.queue, SpawnReserved);
    }
  }

  lemma RefuseConservesPermits(s: State, call: CallId)
    ensures Permits(Refuse(s, call)) == Permits(s)
  {
    if call in s.calls {
      CallEnds(s.calls, call);
    }
  }

  lemma CommandConservesPermits(s: State, step: Step, c: Config)
    requires Enabled(s, step, c) && (step.TakeCommand? || step.DrainCommand?)
    ensures Permits(Next(s, step, c)) == Permits(s)
  {
    if step.DrainCommand? && s.queue[0].Reserve? {
      RefuseConservesPermits(s.(queue := s.queue[1..]), s.queue[0].call);
    }
  }

  lemma SupervisorConservesPermits(s: State, step: Step, c: Config)
    requires Enabled(s, step, c)
    requires step.Grant? || step.RefuseCancelled? || step.RefuseTimedOut? || step.AnswerShutdown?
    ensures Permits(Next(s, step, c)) == Permits(s)
  {
    if step.Grant? {
      CallChanges(s.calls, s.phase.call, Granted);
    } else if !step.AnswerShutdown? {
      RefuseConservesPermits(s, s.phase.call);
    }
  }

  /** No step creates or loses a permit. */
  lemma StepConservesPermits(s: State, step: Step, c: Config)
    requires Enabled(s, step, c) && Inv(s, c)
    ensures Permits(Next(s, step, c)) == Permits(s)
  {
    match step
    case BeginReserve => CallerConservesPermits(s, step, c);
    case SendReserve(_) => CallerConservesPermits(s, step, c);
    case GiveUp(_) => CallerConservesPermits(s, step, c);
    case ReceivePermit(_) => CallerConservesPermits(s, step, c);
    case SpawnTask(_) => CallerConservesPermits(s, step, c);
    case AskActive => SpawnsAppend(s.queue, Active);
    case SendShutdown(w) => SpawnsAppend(s.queue, Shutdown(w));
    case TakeCommand => CommandConservesPermits(s, step, c);
    case DrainCommand => CommandConservesPermits(s, step, c);
    case Grant => SupervisorConservesPermits(s, step, c);
    case RefuseCancelled => SupervisorConservesPermits(s, step, c);
    case RefuseTimedOut => SupervisorConservesPermits(s, step, c);
    case AnswerShutdown => SupervisorConservesPermits(s, step, c);
    case _ =>
  }

  ghost predicate Phased(s: State) {
    && (s.closed <==> ShuttingDown(s.phase))
    && (s.phase.Stopped? ==> s.running == 0 && s.finished == 0 && s.queue == [])
    && (s.answered != {} ==> s.phase.Stopped?)
  }

  lemma StepKeepsPhases(s: State, step: Step, c: Config)
    requires Enabled(s, step, c) && Phased(s)
    ensures Phased(Next(s, step, c))
  {
  }

  lemma StepKeepsInv(s: State, step: Step, c: Config)
    requires Enabled(s, step, c) && Inv(s, c)
    ensures Inv(Next(s, step, c), c)
  {
    StepConservesPermits(s, step, c);
    StepKeepsPhases(s, step, c);
  }

  // ---------------------------------------------------------------- whole runs

  predicate Follows(s: State, step: Step, s': State, c: Config) {
    Enabled(s, step, c) && s' == Next(s, step, c)
  }

  /** States linked by steps. */
  ghost predicate IsPath(states: seq<State>, steps: seq<Step>, c: Config) {
    && |states| == |steps| + 1
    && forall i :: 0 <= i < |steps| ==> Follows(states[i], steps[i], states[i + 1], c)
  }

  /** A run: a path from the initial state on. */
  ghost predicate IsRun(states: seq<State>, steps: seq<Step>, c: Config) {
    IsPath(states, steps, c) && states[0] == Initial(c)
  }

  lemma {:induction false} RunKeepsInv(states: seq<State>, steps: seq<Step>, c: Config, i: nat)
    requires IsRun(states, steps, c) && i < |states|
    ensures Inv(states[i], c)
  {
    if i == 0 {
      assert PermitHolders(map[]) == {};
    } else {
      RunKeepsInv(states, steps, c, i - 1);
      assert Follows(states[i - 1], steps[i - 1], states[i], c);
      StepKeepsInv(states[i - 1], steps[i - 1], c);
    }
  }

  /**
   In every state of every run, the free permits and those in replies, with callers, in queued
   commands and in running tasks add up to the limit; so no more tasks than that ever run at once.
   */
  lemma PermitsAreConserved(states: seq<State>, steps: seq<Step>, c: Config, i: nat)
    requires IsRun(states, steps, c) && i < |states|
    ensures var s := states[i];
            && s.available + |PermitHolders(s.calls)| + Spawns(s.queue) + s.running == c.maxActive
            && s.running <= c.maxActive
  {
    RunKeepsInv(states, steps, c, i);
  }

  lemma ClosedStep(s: State, step: Step, c: Config)
    requires Enabled(s, step, c) && s.closed && ShuttingDown(s.phase)
    ensures var s' := Next(s, step, c); s'.closed && s'.started == s.started && s'.running <= s.running
  {
  }

  /** Once admission is closed it stays closed, no task starts, and the number of running tasks only falls. */
  lemma {:induction false} NothingStartsAfterShutdownBegins(states: seq<State>, steps: seq<Step>, c: Config, i: nat,
                                                            j: nat)
    requires IsRun(states, steps, c) && i <= j < |states| && states[i].closed
    ensures states[j].closed && states[j].started == states[i].started && states[j].running <= states[i].running
    decreases j
  {
    if i < j {
      NothingStartsAfterShutdownBegins(states, steps, c, i, j - 1);
      RunKeepsInv(states, steps, c, j - 1);
      assert Follows(states[j - 1], steps[j - 1], states[j], c);
      ClosedStep(states[j - 1], steps[j - 1], c);
    }
  }

  /** A shutdown is answered only when no task is running or unjoined, and no task ever runs after it. */
  lemma AnswerMeansNothingRuns(states: seq<State>, steps: seq<Step>, c: Config, i: nat, j: nat)
    requires IsRun(states, steps, c) && i <= j < |states| && states[i].answered != {}
    ensures states[i].phase.Stopped? && states[j].running == 0 && states[j].started == states[i].started
  {
    RunKeepsInv(states, steps, c, i);
    NothingStartsAfterShutdownBegins(states, steps, c, i, j);
  }

  // ---------------------------------------------------------------- who is answered

  /** The waiters whose shutdown command the supervisor has taken or drained within the first `i` steps. */
  ghost function Heard(states: seq<State>, steps: seq<Step>, i: nat): set<WaiterId>
    requires |states| == |steps| + 1 && i <= |steps|
  {
    if i == 0 then {}
    else
      var s, before := states[i - 1], Heard(states, steps, i - 1);
      if HearsShutdown(s, steps[i - 1]) then before + {s.queue[0].waiter} else before
  }

  predicate HearsShutdown(s: State, step: Step) {
    (step.TakeCommand? || step.DrainCommand?) && s.queue != [] && s.queue[0].Shutdown?
  }

  ghost predicate Answering(s: State) {
    if s.phase.Stopped? then s.waiters == {} else s.answered == {}
  }

  lemma StepHears(s: State, step: Step, c: Config)
    requires Enabled(s, step, c) && !step.AnswerShutdown?
    ensures var s' := Next(s, step, c);
            && s'.answered == s.answered && (s'.phase.Stopped? <==> s.phase.Stopped?)
            && s'.waiters == if HearsShutdown(s, step) then s.waiters + {s.queue[0].waiter} else s.waiters
  {
    if !step.TakeCommand? && !step.DrainCommand? {
      OtherStepsHearNothing(s, step, c);
    }
  }

  lemma OtherStepsHearNothing(s: State, step: Step, c: Config)
    requires Enabled(s, step, c) && !step.TakeCommand? && !step.DrainCommand? && !step.AnswerShutdown?
    ensures var s' := Next(s, step, c);
            s'.answered == s.answered && s'.waiters == s.waiters && (s'.phase.Stopped? <==> s.phase.Stopped?)
  {
  }

  lemma StepAnswers(s: State, step: Step, c: Config)
    requires Enabled(s, step, c) && Answering(s)
    ensures var s' := Next(s, step, c);
            && Answering(s')
            && s'.waiters + s'.answered ==
               (if HearsShutdown(s, step) then s.waiters + s.answered + {s.queue[0].waiter} else s.waiters + s.answered)
  {
    if !step.AnswerShutdown? {
      StepHears(s, step, c);
    }
  }

  /**
   In every state of every run those whose command was heard are waiting, until the supervisor has stopped; in a
   stopped state exactly they have been answered.
   */
  lemma {:induction false} HeardAreAnswered(states: seq<State>, steps: seq<Step>, c: Config, i: nat)
    requires IsRun(states, steps, c) && i < |states|
    ensures if states[i].phase.Stopped? then states[i].answered == Heard(states, steps, i) && states[i].waiters == {}
            else states[i].waiters == Heard(states, steps, i) && states[i].answered == {}
  {
    if i > 0 {
      HeardAreAnswered(states, steps, c, i - 1);
      RunKeepsInv(states, steps, c, i - 1);
      assert Follows(states[i - 1], steps[i - 1], states[i], c);
      StepAnswers(states[i - 1], steps[i - 1], c);
    }
  }

  /** A run of a shutdown that is answered. */
  lemma ShutdownCanBeAnswered(c: Config) returns (s1: State, s2: State, s3: State, s4: State, s5: State)
    requires c.capacity > 0
    ensures Follows(Initial(c), BeginShutdown(0), s1, c) && Follows(s1, SendShutdown(0), s2, c)
    ensures Follows(s2, TakeCommand, s3, c) && Follows(s3, EndDraining, s4, c) && Follows(s4, AnswerShutdown, s5, c)
    ensures s5.phase.Stopped? && s5.answered == {0}
  {
    s1 := Initial(c).(cancelled := true, shutdownStarted := true, shutdownSenders := {0});
    s2 := s1.(shutdownSenders := {}, queue := [Shutdown(0)]);
    s3 := s2.(closed := true, phase := Draining, queue := [], waiters := {0});
    s4 := s3.(phase := Joining);
    s5 := s4.(phase := Stopped, answered := {0}, waiters := {});
  }

  /** The branch of a reservation that finds the semaphore closed is never taken. */
  lemma AdmissionIsOpenWhileGranting(states: seq<State>, steps: seq<Step>, c: Config, i: nat)
    requires IsRun(states, steps, c) && i < |states| && states[i].phase.Granting?
    ensures !states[i].closed
  {
    RunKeepsInv(states, steps, c, i);
  }

  /** The first call has been granted a permit and has received it. */
  function FirstCallHolds(c: Config): State
    requires c.maxActive > 0
  {
    Initial(c).(available := c.maxActive - 1, calls := map[0 := Holding], nextCall := 1)
  }

  lemma FirstCallCanHold(c: Config) returns (s1: State, s2: State, s3: State, s4: State)
    requires c.maxActive > 0 && c.capacity > 0
    ensures Follows(Initial(c), BeginReserve, s1, c) && Follows(s1, SendReserve(0), s2, c)
    ensures Follows(s2, TakeCommand, s3, c) && Follows(s3, Grant, s4, c)
    ensures Follows(s4, ReceivePermit(0), FirstCallHolds(c), c)
  {
    s1 := Initial(c).(calls := map[0 := Sending], nextCall := 1);
    s2 := s1.(calls := map[0 := Awaiting], queue := [Reserve(0)]);
    s3 := s2.(queue := [], phase := Granting(0));
    s4 := s3.(available := c.maxActive - 1, calls := map[0 := Granted], phase := Idle);
  }

  /** A second caller of the shutdown returns at once, although a task is running. */
  lemma SecondShutdownReturnsEarly(c: Config) returns (s6: State, s7: State, s8: State, s9: State)
    requires c.maxActive > 0 && c.capacity > 0
    ensures Follows(FirstCallHolds(c), SpawnTask(0), s6, c) && Follows(s6, TakeCommand, s7, c)
    ensures Follows(s7, BeginShutdown(0), s8, c) && Follows(s8, BeginShutdown(1), s9, c)
    ensures 1 in s9.returnedEarly && s9.running == 1
  {
    s6 := FirstCallHolds(c).(calls := map[], queue := [SpawnReserved]);
    assert FirstCallHolds(c).calls - {0} == map[];
    s7 := s6.(queue := [], running := 1, started := 1);
    s8 := s7.(cancelled := true, shutdownStarted := true, shutdownSenders := {0});
    s9 := s8.(returnedEarly := {1});
  }

  /** Cancelling the service is not yet the shutdown: a task already queued can still start after it. */
  lemma TaskCanStartAfterCancellation(c: Config) returns (s6: State, s7: State, s8: State)
    requires c.maxActive > 0 && c.capacity > 0
    ensures Follows(FirstCallHolds(c), SpawnTask(0), s6, c) && Follows(s6, CancelService, s7, c)
    ensures Follows(s7, TakeCommand, s8, c)
    ensures s7.cancelled && !s7.closed && s8.started == s7.started + 1
  {
    s6 := FirstCallHolds(c).(calls := map[], queue := [SpawnReserved]);
    assert FirstCallHolds(c).calls - {0} == map[];
    s7 := s6.(cancelled := true);
    s8 := s7.(queue := [], running := 1, started := 1);
  }
}
