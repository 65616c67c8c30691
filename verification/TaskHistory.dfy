/** The supervisor against its history: commands are served in the order sent, and a cancelled service can stop. */
module TaskHistory {
  import opened TurnTasks
  import T = TaskStarts

  // ---------------------------------------------------------------- the queue

  /** The command a step puts into the queue. */
  function SentBy(s: State, step: Step, c: Config): seq<Command> {
    match step
    case SendReserve(call) => [Reserve(call)]
    case SpawnTask(_) => if CanSend(s, c) then [SpawnReserved] else []
    case AskActive => [Active]
    case SendShutdown(w) => [Shutdown(w)]
    case _ => []
  }

  /** The command a step takes out of it. */
  function TakenBy(s: State, step: Step): seq<Command> {
    if (step.TakeCommand? || step.DrainCommand?) && s.queue != [] then [s.queue[0]] else []
  }

  function Sent(states: seq<State>, steps: seq<Step>, c: Config, i: nat): seq<Command>
    requires i <= |steps| < |states|
  {
    if i == 0 then [] else Sent(states, steps, c, i - 1) + SentBy(states[i - 1], steps[i - 1], c)
  }

  function Taken(states: seq<State>, steps: seq<Step>, i: nat): seq<Command>
    requires i <= |steps| < |states|
  {
    if i == 0 then [] else Taken(states, steps, i - 1) + TakenBy(states[i - 1], steps[i - 1])
  }

  lemma StepMovesQueue(s: State, step: Step, c: Config)
    requires Enabled(s, step, c) && !step.AnswerShutdown?
    ensures TakenBy(s, step) + Next(s, step, c).queue == s.queue + SentBy(s, step, c)
    ensures Next(s, step, c).phase.Stopped? <==> s.phase.Stopped?
  {
    if step.TakeCommand? || step.DrainCommand? {
      TakingMovesQueue(s, step, c);
    }
  }

  lemma TakingMovesQueue(s: State, step: Step, c: Config)
    requires Enabled(s, step, c) && (step.TakeCommand? || step.DrainCommand?)
    ensures [s.queue[0]] + Next(s, step, c).queue == s.queue
    ensures Next(s, step, c).phase.Stopped? <==> s.phase.Stopped?
  {
    assert Next(s, step, c).queue == s.queue[1..];
  }

  lemma Reassociate(taken: seq<Command>, t: seq<Command>, queue': seq<Command>, queue: seq<Command>, s: seq<Command>)
    requires t + queue' == queue + s
    ensures taken + t + queue' == taken + queue + s
  {
    assert taken + t + queue' == taken + (t + queue');
  }

  /** What was taken, then what is queued, is what was sent; a stopped supervisor leaves the rest. */
  ghost predicate InOrder(s: State, taken: seq<Command>, sent: seq<Command>) {
    if s.phase.Stopped? then taken <= sent else taken + s.queue == sent
  }

  lemma StepKeepsOrder(s: State, step: Step, s': State, c: Config, taken: seq<Command>, sent: seq<Command>)
    requires Follows(s, step, s', c) && Phased(s) && InOrder(s, taken, sent)
    ensures InOrder(s', taken + TakenBy(s, step), sent + SentBy(s, step, c))
  {
    if step.AnswerShutdown? {
      assert s'.phase.Stopped? && TakenBy(s, step) == [] && SentBy(s, step, c) == [];
    } else {
      StepMovesQueue(s, step, c);
      if s.phase.Stopped? {
        StoppedSendsNothing(s, step, c);
      } else {
        Reassociate(taken, TakenBy(s, step), s'.queue, s.queue, SentBy(s, step, c));
      }
    }
  }

  /**
   Commands are taken in the order they were sent, none is lost while the supervisor lives, and a supervisor that has
   stopped has taken a first part of them.
   */
  lemma {:induction false} CommandsAreTakenInOrder(states: seq<State>, steps: seq<Step>, c: Config, i: nat)
    requires IsRun(states, steps, c) && i < |states|
    ensures InOrder(states[i], Taken(states, steps, i), Sent(states, steps, c, i))
  {
    if i > 0 {
      CommandsAreTakenInOrder(states, steps, c, i - 1);
      RunKeepsInv(states, steps, c, i - 1);
      StepKeepsOrder(states[i - 1], steps[i - 1], states[i], c, Taken(states, steps, i - 1),
                     Sent(states, steps, c, i - 1));
    }
  }

  lemma StoppedSendsNothing(s: State, step: Step, c: Config)
    requires Enabled(s, step, c) && Phased(s) && s.phase.Stopped?
    ensures SentBy(s, step, c) == [] && TakenBy(s, step) == []
  {
  }

  // ---------------------------------------------------------------- the tasks

  function StartsBy(s: State, step: Step): nat {
    if step.TakeCommand? && TakenBy(s, step) == [SpawnReserved] then 1 else 0
  }

  /** How many tasks were taken from the queue, other than to drain it. */
  function Starts(states: seq<State>, steps: seq<Step>, i: nat): nat
    requires i <= |steps| < |states|
  {
    if i == 0 then 0
    else Starts(states, steps, i - 1) + StartsBy(states[i - 1], steps[i - 1])
  }

  function Ends(steps: seq<Step>): nat {
    if steps == [] then 0 else Ends(steps[..|steps| - 1]) + if steps[|steps| - 1].TaskEnds? then 1 else 0
  }

  lemma StepStarts(s: State, step: Step, s': State, c: Config)
    requires Follows(s, step, s', c)
    ensures s'.started == s.started + StartsBy(s, step)
    ensures s'.running == s.running + StartsBy(s, step) - if step.TaskEnds? then 1 else 0
  {
    if !step.TakeCommand? {
      OtherStepsStartNothing(s, step, c);
    }
  }

  lemma OtherStepsStartNothing(s: State, step: Step, c: Config)
    requires Enabled(s, step, c) && !step.TakeCommand?
    ensures Next(s, step, c).started == s.started
    ensures Next(s, step, c).running == s.running - if step.TaskEnds? then 1 else 0
  {
  }

  /** Exactly the tasks taken from the queue before the shutdown have started, and those run that have not ended. */
  lemma {:induction false} RunningAreStartedNotEnded(states: seq<State>, steps: seq<Step>, c: Config, i: nat)
    requires IsRun(states, steps, c) && i < |states|
    ensures states[i].started == Starts(states, steps, i)
    ensures states[i].running == Starts(states, steps, i) - Ends(steps[..i])
  {
    if i > 0 {
      RunningAreStartedNotEnded(states, steps, c, i - 1);
      StepStarts(states[i - 1], steps[i - 1], states[i], c);
      assert steps[..i][..i - 1] == steps[..i - 1];
    }
  }

  // ---------------------------------------------------------------- permits

  /**
   The call that is being served can be given a permit exactly if fewer than the limit are held by callers, queued
   with their tasks, or used by running tasks.
   */
  lemma PermitIsGrantedIff(states: seq<State>, steps: seq<Step>, c: Config, i: nat, call: TurnTasks.CallId)
    requires IsRun(states, steps, c) && i < |states| && states[i].phase == Granting(call)
    requires call in states[i].calls && states[i].calls[call] == Awaiting
    ensures var s := states[i];
            (|PermitHolders(s.calls)| + Spawns(s.queue) + s.running < c.maxActive) <==>
            exists step :: Enabled(s, step, c) && Grants(s, Next(s, step, c), call)
  {
    RunKeepsInv(states, steps, c, i);
    var s := states[i];
    if s.available > 0 {
      assert Enabled(s, Grant, c) && Grants(s, Next(s, Grant, c), call);
    }
    forall step | Enabled(s, step, c) && Grants(s, Next(s, step, c), call) ensures s.available > 0 {
    }
  }

  predicate Grants(s: State, s': State, call: TurnTasks.CallId) {
    call in s'.calls && s'.calls[call] == Granted
  }

  // ---------------------------------------------------------------- stopping

  /** The supervisor's, or a task's, next step towards the end of a cancelled service. */
  function StopStep(s: State): Step {
    match s.phase
    case Granting(_) => RefuseCancelled
    case Idle => ObserveCancellation
    case Draining => if s.queue != [] then DrainCommand else EndDraining
    case Joining => if s.running > 0 then TaskEnds else if s.finished > 0 then JoinTask else AnswerShutdown
    case Stopped => AnswerShutdown
  }

  function Distance(s: State): nat {
    |s.queue| + 2 * s.running + s.finished +
    match s.phase
    case Granting(_) => 5
    case Idle => 4
    case Draining => 3
    case Joining => 2
    case Stopped => 0
  }

  lemma StopStepGoesOn(s: State, c: Config)
    requires s.cancelled && !s.phase.Stopped?
    ensures Enabled(s, StopStep(s), c)
    ensures Next(s, StopStep(s), c).cancelled && Distance(Next(s, StopStep(s), c)) < Distance(s)
  {
    if s.phase.Draining? {
      DrainingGoesOn(s, c);
    }
  }

  lemma DrainingGoesOn(s: State, c: Config)
    requires s.cancelled && s.phase.Draining?
    ensures Enabled(s, StopStep(s), c)
    ensures Next(s, StopStep(s), c).cancelled && Distance(Next(s, StopStep(s), c)) < Distance(s)
  {
  }

  lemma {:induction false} CanStop(s: State, c: Config) returns (t: State)
    requires s.cancelled
    ensures T.Leads(s, t, c) && t.phase.Stopped?
    decreases Distance(s)
  {
    if s.phase.Stopped? {
      t := s;
      assert T.LeadsTo([s], [], s, s, c);
    } else {
      StopStepGoesOn(s, c);
      t := CanStop(Next(s, StopStep(s), c), c);
      T.StepThenLeads(s, StopStep(s), t, c);
    }
  }

  /** From the call of the shutdown on, whatever runs or is queued, the supervisor can go on to stop. */
  lemma ShutdownCanFinish(states: seq<State>, steps: seq<Step>, c: Config, i: nat) returns (t: State)
    requires IsRun(states, steps, c) && i < |states| && states[i].shutdownStarted
    ensures T.Leads(states[i], t, c) && t.phase.Stopped? && t.running == 0
  {
    T.RunKeepsServed(states, steps, c, i);
    RunKeepsInv(states, steps, c, i);
    t := CanStop(states[i], c);
    var ss, ts :| T.LeadsTo(ss, ts, states[i], t, c);
    PathKeepsInv(ss, ts, c, |ts|);
  }

  lemma {:induction false} PathKeepsInv(states: seq<State>, steps: seq<Step>, c: Config, i: nat)
    requires IsPath(states, steps, c) && Inv(states[0], c) && i < |states|
    ensures Inv(states[i], c)
  {
    if i > 0 {
      PathKeepsInv(states, steps, c, i - 1);
      assert Follows(states[i - 1], steps[i - 1], states[i], c);
      StepKeepsInv(states[i - 1], steps[i - 1], c);
    }
  }
}
