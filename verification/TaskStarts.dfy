/**
 Which tasks can still start once the service is cancelled.

 New reservations are refused from then on, but the supervisor may take queued commands before it
 observes the cancellation. The condition found here is exact in every reachable state.
 */
module TaskStarts {
  import opened TurnTasks

  // ---------------------------------------------------------------- the condition

  /** A task waits in the queue, and no shutdown command ahead of it. */
  predicate SpawnAhead(queue: seq<Command>) {
    queue != [] && (queue[0] == SpawnReserved || (!queue[0].Shutdown? && SpawnAhead(queue[1..])))
  }

  predicate NoShutdown(queue: seq<Command>) {
    forall i :: 0 <= i < |queue| ==> !queue[i].Shutdown?
  }

  /** Admission is open, and a queued task or, with no shutdown queued, an outstanding call can still get through. */
  predicate Startable(s: State) {
    !s.closed && (SpawnAhead(s.queue) || (NoShutdown(s.queue) && s.calls != map[]))
  }

  ghost predicate LeadsTo(states: seq<State>, steps: seq<Step>, s: State, t: State, c: Config) {
    IsPath(states, steps, c) && states[0] == s && states[|steps|] == t
  }

  ghost predicate Leads(s: State, t: State, c: Config) {
    exists states, steps :: LeadsTo(states, steps, s, t, c)
  }

  ghost predicate CanStart(s: State, c: Config) {
    exists t :: Leads(s, t, c) && t.started > s.started
  }

  // ---------------------------------------------------------------- queues

  lemma {:induction false} AppendToQueue(queue: seq<Command>, command: Command)
    ensures SpawnAhead(queue + [command]) <==> SpawnAhead(queue) || (command == SpawnReserved && NoShutdown(queue))
    ensures NoShutdown(queue + [command]) <==> NoShutdown(queue) && !command.Shutdown?
  {
    if queue != [] {
      assert (queue + [command])[1..] == queue[1..] + [command];
      AppendToQueue(queue[1..], command);
      TakeFromQueue(queue);
    } else {
      assert queue + [command] == [command] && [command][1..] == [];
    }
    assert NoShutdown(queue + [command]) ==> !(queue + [command])[|queue|].Shutdown?;
    assert forall i :: 0 <= i < |queue| ==> (queue + [command])[i] == queue[i];
  }

  lemma TakeFromQueue(queue: seq<Command>)
    requires queue != []
    ensures NoShutdown(queue) <==> !queue[0].Shutdown? && NoShutdown(queue[1..])
  {
    assert forall i :: 0 < i < |queue| ==> queue[i] == queue[1..][i - 1];
  }

  lemma {:induction false} SpawnsAreAhead(queue: seq<Command>)
    requires NoShutdown(queue)
    ensures SpawnAhead(queue) <==> Spawns(queue) > 0
  {
    if queue != [] {
      TakeFromQueue(queue);
      SpawnsAreAhead(queue[1..]);
    }
  }

  // ---------------------------------------------------------------- without the condition nothing starts

  ghost predicate Doomed(s: State) {
    s.cancelled && !Startable(s) && (s.closed <==> ShuttingDown(s.phase))
  }

  lemma CallerStaysDoomed(s: State, step: Step, c: Config)
    requires Enabled(s, step, c) && Doomed(s) && !s.closed
    requires !step.TakeCommand?
    ensures Doomed(Next(s, step, c)) && Next(s, step, c).started == s.started
  {
    match step
    case SendReserve(call) => AppendToQueue(s.queue, Reserve(call));
    case SpawnTask(_) => AppendToQueue(s.queue, SpawnReserved);
    case AskActive => AppendToQueue(s.queue, Active);
    case SendShutdown(w) => AppendToQueue(s.queue, Shutdown(w));
    case _ =>
  }

  lemma StaysDoomed(s: State, step: Step, c: Config)
    requires Enabled(s, step, c) && Doomed(s)
    ensures Doomed(Next(s, step, c)) && Next(s, step, c).started == s.started
  {
    if s.closed {
      ClosedStep(s, step, c);
      ClosedStaysShut(s, step, c);
    } else if step.TakeCommand? {
      TakeFromQueue(s.queue);
    } else {
      CallerStaysDoomed(s, step, c);
    }
  }

  lemma ClosedStaysShut(s: State, step: Step, c: Config)
    requires Enabled(s, step, c) && s.closed && ShuttingDown(s.phase)
    ensures ShuttingDown(Next(s, step, c).phase) && (s.cancelled ==> Next(s, step, c).cancelled)
  {
  }

  lemma {:induction false} DoomedForEver(states: seq<State>, steps: seq<Step>, c: Config, i: nat)
    requires IsPath(states, steps, c) && Doomed(states[0]) && i < |states|
    ensures Doomed(states[i]) && states[i].started == states[0].started
  {
    if i > 0 {
      DoomedForEver(states, steps, c, i - 1);
      assert Follows(states[i - 1], steps[i - 1], states[i], c);
      StaysDoomed(states[i - 1], steps[i - 1], c);
    }
  }

  // ---------------------------------------------------------------- schedules

  lemma PathBehindStep(s: State, step: Step, states: seq<State>, steps: seq<Step>, c: Config)
    requires IsPath(states, steps, c) && Follows(s, step, states[0], c)
    ensures IsPath([s] + states, [step] + steps, c)
  {
    var ss, ts := [s] + states, [step] + steps;
    forall i | 0 <= i < |ts| ensures Follows(ss[i], ts[i], ss[i + 1], c) {
      if i > 0 {
        assert Follows(states[i - 1], steps[i - 1], states[i], c);
      }
    }
  }

  lemma StepThenLeads(s: State, step: Step, t: State, c: Config)
    requires Enabled(s, step, c) && Leads(Next(s, step, c), t, c)
    ensures Leads(s, t, c)
  {
    var states, steps :| LeadsTo(states, steps, Next(s, step, c), t, c);
    PathBehindStep(s, step, states, steps, c);
    assert LeadsTo([s] + states, [step] + steps, s, t, c);
  }

  lemma StepThenStart(s: State, step: Step, c: Config)
    requires Enabled(s, step, c) && Next(s, step, c).started == s.started && CanStart(Next(s, step, c), c)
    ensures CanStart(s, c)
  {
    var t :| Leads(Next(s, step, c), t, c) && t.started > s.started;
    StepThenLeads(s, step, t, c);
  }

  /** Taking a queued task starts it. */
  lemma TakingStarts(s: State, c: Config)
    requires s.phase.Idle? && s.queue != [] && s.queue[0] == SpawnReserved
    ensures CanStart(s, c)
  {
    var t := Next(s, TakeCommand, c);
    assert LeadsTo([s, t], [TakeCommand], s, t, c);
    assert Leads(s, t, c);
  }

  /** Cancelled, with admission open: between two commands, or granting a permit. */
  ghost predicate Open(s: State, c: Config) {
    Inv(s, c) && s.cancelled && !s.closed && c.maxActive > 0 && c.capacity > 0
  }

  /** The supervisor's next step when it gives no permit away. */
  function ServeStep(s: State): Step {
    if s.phase.Granting? then RefuseCancelled else TakeCommand
  }

  lemma ServeKeepsOpen(s: State, c: Config)
    requires Open(s, c)
    requires s.phase.Granting? || (s.queue != [] && s.queue[0] != SpawnReserved && !s.queue[0].Shutdown?)
    ensures Enabled(s, ServeStep(s), c) && Open(Next(s, ServeStep(s), c), c)
    ensures Next(s, ServeStep(s), c).started == s.started
  {
    StepKeepsInv(s, ServeStep(s), c);
  }

  ghost function Work(s: State): nat {
    2 * |s.queue| + if s.phase.Granting? then 1 else 0
  }

  lemma {:induction false} StartQueued(s: State, c: Config)
    requires Open(s, c) && SpawnAhead(s.queue)
    ensures CanStart(s, c)
    decreases Work(s)
  {
    if s.phase.Idle? && s.queue[0] == SpawnReserved {
      TakingStarts(s, c);
    } else {
      ServeKeepsOpen(s, c);
      StartQueued(Next(s, ServeStep(s), c), c);
      StepThenStart(s, ServeStep(s), c);
    }
  }

  lemma SpawnKeepsOpen(s: State, call: CallId, c: Config)
    requires Open(s, c) && call in s.calls && s.calls[call] == Holding && CanSend(s, c)
    ensures Open(Next(s, SpawnTask(call), c), c) && Next(s, SpawnTask(call), c).started == s.started
  {
    StepKeepsInv(s, SpawnTask(call), c);
  }

  /** A caller that holds a permit hands it back with a task as soon as the queue has room. */
  lemma {:induction false} StartHeld(s: State, call: CallId, c: Config)
    requires Open(s, c) && NoShutdown(s.queue) && call in s.calls && s.calls[call] == Holding
    ensures CanStart(s, c)
    decreases Work(s)
  {
    if CanSend(s, c) {
      AppendToQueue(s.queue, SpawnReserved);
      SpawnKeepsOpen(s, call, c);
      StartQueued(Next(s, SpawnTask(call), c), c);
      StepThenStart(s, SpawnTask(call), c);
    } else if s.phase.Idle? && s.queue[0] == SpawnReserved {
      TakingStarts(s, c);
    } else {
      TakeFromQueue(s.queue);
      ServeKeepsOpen(s, c);
      StartHeld(Next(s, ServeStep(s), c), call, c);
      StepThenStart(s, ServeStep(s), c);
    }
  }

  lemma StartGranted(s: State, call: CallId, c: Config)
    requires Open(s, c) && NoShutdown(s.queue) && call in s.calls && s.calls[call].HasPermit()
    ensures CanStart(s, c)
  {
    if s.calls[call] == Granted {
      StepKeepsInv(s, ReceivePermit(call), c);
      StartHeld(Next(s, ReceivePermit(call), c), call, c);
      StepThenStart(s, ReceivePermit(call), c);
    } else {
      StartHeld(s, call, c);
    }
  }

  lemma StartAvailable(s: State, call: CallId, c: Config)
    requires Open(s, c) && NoShutdown(s.queue) && s.phase == Granting(call) && s.available > 0
    requires call in s.calls && s.calls[call] == Awaiting
    ensures CanStart(s, c)
  {
    StepKeepsInv(s, Grant, c);
    StartGranted(Next(s, Grant, c), call, c);
    StepThenStart(s, Grant, c);
  }

  /** A waiting call gets a permit: a free one, one that a task gives back, or else somebody holds one. */
  lemma StartGranting(s: State, call: CallId, c: Config)
    requires Open(s, c) && NoShutdown(s.queue) && s.phase == Granting(call)
    requires call in s.calls && s.calls[call] == Awaiting
    ensures CanStart(s, c)
  {
    if s.available > 0 {
      StartAvailable(s, call, c);
    } else if Spawns(s.queue) > 0 {
      SpawnsAreAhead(s.queue);
      StartQueued(s, c);
    } else if s.running > 0 {
      StepKeepsInv(s, TaskEnds, c);
      StartAvailable(Next(s, TaskEnds, c), call, c);
      StepThenStart(s, TaskEnds, c);
    } else {
      assert PermitHolders(s.calls) != {};
      var holder :| holder in PermitHolders(s.calls);
      StartGranted(s, holder, c);
    }
  }

  /** A call that waits for its reply is in the queue or being served. */
  ghost predicate Pending(s: State, call: CallId) {
    call in s.calls && s.calls[call] == Awaiting && (Reserve(call) in s.queue || s.phase == Granting(call))
  }

  lemma {:induction false} StartAwaiting(s: State, call: CallId, c: Config)
    requires Open(s, c) && NoShutdown(s.queue) && Pending(s, call)
    ensures CanStart(s, c)
    decreases Work(s)
  {
    if s.phase == Granting(call) {
      StartGranting(s, call, c);
    } else if s.phase.Idle? && s.queue[0] == SpawnReserved {
      TakingStarts(s, c);
    } else {
      if s.phase.Idle? {
        TakeFromQueue(s.queue);
      }
      ServeKeepsOpen(s, c);
      StartAwaiting(Next(s, ServeStep(s), c), call, c);
      StepThenStart(s, ServeStep(s), c);
    }
  }

  lemma {:induction false} StartSending(s: State, call: CallId, c: Config)
    requires Open(s, c) && NoShutdown(s.queue) && call in s.calls && s.calls[call] == Sending
    ensures CanStart(s, c)
    decreases Work(s)
  {
    if CanSend(s, c) {
      AppendToQueue(s.queue, Reserve(call));
      StepKeepsInv(s, SendReserve(call), c);
      StartAwaiting(Next(s, SendReserve(call), c), call, c);
      StepThenStart(s, SendReserve(call), c);
    } else if s.phase.Idle? && s.queue[0] == SpawnReserved {
      TakingStarts(s, c);
    } else {
      TakeFromQueue(s.queue);
      ServeKeepsOpen(s, c);
      StartSending(Next(s, ServeStep(s), c), call, c);
      StepThenStart(s, ServeStep(s), c);
    }
  }

  // ---------------------------------------------------------------- reachable states

  /** While admission is open, every call that waits is pending; an early return means a cancelled service. */
  ghost predicate Served(s: State) {
    && (!s.closed ==> forall call :: call in s.calls && s.calls[call] == Awaiting ==> Pending(s, call))
    && (s.shutdownStarted || s.returnedEarly != {} ==> s.cancelled)
  }

  lemma StepKeepsServed(s: State, step: Step, c: Config)
    requires Enabled(s, step, c) && Served(s) && Inv(s, c)
    ensures Served(Next(s, step, c))
  {
    var s' := Next(s, step, c);
    if !s'.closed {
      forall call | call in s'.calls && s'.calls[call] == Awaiting ensures Pending(s', call) {
        StepKeepsPending(s, step, c, call);
      }
    }
  }

  lemma StepKeepsPending(s: State, step: Step, c: Config, call: CallId)
    requires Enabled(s, step, c) && Inv(s, c) && !Next(s, step, c).closed
    requires call in s.calls && s.calls[call] == Awaiting ==> Pending(s, call)
    requires call in Next(s, step, c).calls && Next(s, step, c).calls[call] == Awaiting
    ensures Pending(Next(s, step, c), call)
  {
    var s' := Next(s, step, c);
    if step == SendReserve(call) {
      assert s'.queue[|s.queue|] == Reserve(call);
    } else if Reserve(call) in s.queue {
      QueueMoves(s, step, c, Reserve(call));
    }
  }

  /** A queued command stays queued until it is taken. */
  lemma QueueMoves(s: State, step: Step, c: Config, command: Command)
    requires Enabled(s, step, c) && Phased(s) && command in s.queue && !Next(s, step, c).closed
    ensures command in Next(s, step, c).queue || (step.TakeCommand? && command == s.queue[0])
  {
    var s' := Next(s, step, c);
    var i: nat :| i < |s.queue| && s.queue[i] == command;
    if step.TakeCommand? {
      assert i > 0 ==> s'.queue[i - 1] == command;
    } else if step.DrainCommand? || step.AnswerShutdown? {
      ClosingIsFinal(s, step, c);
    } else {
      assert s'.queue[i] == command;
    }
  }

  lemma ClosingIsFinal(s: State, step: Step, c: Config)
    requires Enabled(s, step, c)
    ensures s.closed ==> Next(s, step, c).closed
  {
  }

  lemma {:induction false} RunKeepsServed(states: seq<State>, steps: seq<Step>, c: Config, i: nat)
    requires IsRun(states, steps, c) && i < |states|
    ensures Served(states[i])
  {
    if i > 0 {
      RunKeepsServed(states, steps, c, i - 1);
      RunKeepsInv(states, steps, c, i - 1);
      assert Follows(states[i - 1], steps[i - 1], states[i], c);
      StepKeepsServed(states[i - 1], steps[i - 1], c);
    }
  }

  lemma StartableCanStart(s: State, c: Config)
    requires Open(s, c) && Served(s) && Startable(s)
    ensures CanStart(s, c)
  {
    if SpawnAhead(s.queue) {
      StartQueued(s, c);
    } else {
      var call :| call in s.calls;
      match s.calls[call]
      case Sending => StartSending(s, call, c);
      case Awaiting => StartAwaiting(s, call, c);
      case Granted => StartGranted(s, call, c);
      case Holding => StartGranted(s, call, c);
    }
  }

  lemma UnstartableCannotStart(s: State, c: Config)
    requires Phased(s) && s.cancelled && !Startable(s)
    ensures !CanStart(s, c)
  {
    if t :| Leads(s, t, c) && t.started > s.started {
      var states, steps :| LeadsTo(states, steps, s, t, c);
      DoomedForEver(states, steps, c, |steps|);
    }
  }

  /**
   In every reachable state of a cancelled service some continuation starts a task if and only if admission
   is open and either a task is queued with no shutdown command ahead of it, or no shutdown command is queued
   and some reservation is outstanding.
   */
  lemma StartsAfterCancellationIff(states: seq<State>, steps: seq<Step>, c: Config, i: nat)
    requires IsRun(states, steps, c) && i < |states| && states[i].cancelled
    requires c.maxActive > 0 && c.capacity > 0
    ensures CanStart(states[i], c) <==> Startable(states[i])
  {
    RunKeepsInv(states, steps, c, i);
    RunKeepsServed(states, steps, c, i);
    if Startable(states[i]) {
      StartableCanStart(states[i], c);
    } else {
      UnstartableCannotStart(states[i], c);
    }
  }

  /** A queued shutdown command does block a task queued behind it, although admission is still open. */
  lemma ShutdownAheadBlocksTask(c: Config) returns (s6: State, s7: State, s8: State)
    requires c.maxActive > 0 && c.capacity > 1
    ensures Follows(FirstCallHolds(c), BeginShutdown(0), s6, c) && Follows(s6, SendShutdown(0), s7, c)
    ensures Follows(s7, SpawnTask(0), s8, c)
    ensures s8.cancelled && !s8.closed && Spawns(s8.queue) == 1 && !Startable(s8)
  {
    s6 := FirstCallHolds(c).(cancelled := true, shutdownStarted := true, shutdownSenders := {0});
    s7 := s6.(shutdownSenders := {}, queue := [Shutdown(0)]);
    s8 := s7.(calls := map[], queue := [Shutdown(0), SpawnReserved]);
    assert s7.calls - {0} == map[] && s6.shutdownSenders - {0} == {} && s6.queue + [Shutdown(0)] == s7.queue;
    assert s8.queue[1..] == [SpawnReserved] && [SpawnReserved][1..] == [];
    assert Spawns([SpawnReserved]) == 1 && s8.queue[0].Shutdown?;
  }

  // ---------------------------------------------------------------- what an early return means

  /** No task runs, now or in any continuation. */
  ghost predicate QuietForEver(s: State, c: Config) {
    s.running == 0 && forall t :: Leads(s, t, c) ==> t.running == 0
  }

  lemma {:induction false} RunningWereStarted(states: seq<State>, steps: seq<Step>, c: Config, i: nat)
    requires IsPath(states, steps, c) && i < |states|
    ensures states[i].running - states[0].running <= states[i].started - states[0].started
    ensures states[0].started <= states[i].started
  {
    if i > 0 {
      RunningWereStarted(states, steps, c, i - 1);
      assert Follows(states[i - 1], steps[i - 1], states[i], c);
      OneStepStarts(states[i - 1], steps[i - 1], c);
    }
  }

  /** A step starts at most one task, which then runs, and otherwise lets the running tasks only end. */
  lemma OneStepStarts(s: State, step: Step, c: Config)
    requires Enabled(s, step, c)
    ensures var s' := Next(s, step, c);
            || (s'.started == s.started && s'.running <= s.running)
            || (s'.started == s.started + 1 && s'.running == s.running + 1)
  {
    if !step.TakeCommand? {
      OnlyTakingStarts(s, step, c);
    }
  }

  lemma OnlyTakingStarts(s: State, step: Step, c: Config)
    requires Enabled(s, step, c) && !step.TakeCommand?
    ensures Next(s, step, c).started == s.started && Next(s, step, c).running <= s.running
  {
  }

  /** Where a task can start, some continuation has a task running. */
  lemma {:induction false} StartedRuns(states: seq<State>, steps: seq<Step>, c: Config, n: nat) returns (i: nat)
    requires IsPath(states, steps, c) && n <= |steps| && states[n].started > states[0].started
    ensures i <= n && states[i].running > 0
  {
    assert n > 0;
    assert Follows(states[n - 1], steps[n - 1], states[n], c);
    OneStepStarts(states[n - 1], steps[n - 1], c);
    if states[n].started > states[n - 1].started {
      i := n;
    } else {
      i := StartedRuns(states, steps, c, n - 1);
    }
  }

  lemma PrefixLeads(states: seq<State>, steps: seq<Step>, c: Config, i: nat)
    requires IsPath(states, steps, c) && i < |states|
    ensures Leads(states[0], states[i], c)
  {
    assert IsPath(states[..i + 1], steps[..i], c) by {
      forall k | 0 <= k < i ensures Follows(states[..i + 1][k], steps[..i][k], states[..i + 1][k + 1], c) {
        assert Follows(states[k], steps[k], states[k + 1], c);
      }
    }
    assert LeadsTo(states[..i + 1], steps[..i], states[0], states[i], c);
  }

  lemma QuietIff(s: State, c: Config)
    ensures QuietForEver(s, c) <==> s.running == 0 && !CanStart(s, c)
  {
    if s.running == 0 && !CanStart(s, c) {
      forall t | Leads(s, t, c) ensures t.running == 0 {
        var states, steps :| LeadsTo(states, steps, s, t, c);
        RunningWereStarted(states, steps, c, |steps|);
      }
    }
    if t :| Leads(s, t, c) && t.started > s.started {
      var states, steps :| LeadsTo(states, steps, s, t, c);
      var i := StartedRuns(states, steps, c, |steps|);
      PrefixLeads(states, steps, c, i);
    }
  }

  /**
   A shutdown call that returned because another one had begun before means that no task runs from then on
   exactly when none is running and none can still start; it does not mean so by itself.
   */
  lemma EarlyReturnIsQuietIff(states: seq<State>, steps: seq<Step>, c: Config, i: nat)
    requires IsRun(states, steps, c) && i < |states| && states[i].returnedEarly != {}
    requires c.maxActive > 0 && c.capacity > 0
    ensures QuietForEver(states[i], c) <==> states[i].running == 0 && !Startable(states[i])
  {
    RunKeepsServed(states, steps, c, i);
    StartsAfterCancellationIff(states, steps, c, i);
    QuietIff(states[i], c);
  }
}
