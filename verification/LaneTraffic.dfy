/** What the two lanes accept over a run, and that a stream whose sink is gone can always drain them. */
module LaneTraffic {
  import opened Wrappers
  import opened SseLanes

  // ---------------------------------------------------------------- progress

  /**
   A progress event is accepted exactly if the client is there and fewer than 64 accepted ones wait to be yielded; it is
   counted as dropped exactly if the client has gone, and a full lane refuses it without a trace.
   */
  lemma ProgressIsAcceptedIff(states: seq<State>, steps: seq<Step>, i: nat)
    requires IsRun(states, steps) && i < |steps| && steps[i].EmitProgress?
    ensures var s, s' := states[i], states[i + 1];
            var waiting := |s.acceptedProgress| - |ProgressIn(s.output)|;
            && s'.acceptedProgress == s.acceptedProgress + (if !s.clientGone && waiting < 64 then [steps[i].e] else [])
            && s'.dropped == s.dropped + (if s.clientGone then 1 else 0)
            && s'.output == s.output
  {
    RunKeepsInv(states, steps, i);
    assert |states[i].acceptedProgress| == |ProgressIn(states[i].output)| + |states[i].progress|;
  }

  // ---------------------------------------------------------------- the terminal event

  /** The first terminal event that was claimed within `steps`. */
  function FirstClaimed(steps: seq<Step>): Option<Event> {
    if steps == [] then None
    else
      var n := |steps| - 1;
      var before := FirstClaimed(steps[..n]);
      if before.None? && steps[n].ClaimTerminal? then Some(steps[n].e) else before
  }

  /** Whether the claimed event was sent while the client was there, within the first `i` steps. */
  ghost predicate Reached(states: seq<State>, steps: seq<Step>, i: nat)
    requires i <= |steps| < |states|
  {
    exists k :: 0 <= k < i && steps[k].SendTerminal? && !states[k].clientGone
  }

  /** The state against its history: what was claimed first, and whether it reached its lane. */
  ghost predicate TerminalTraced(s: State, first: Option<Event>, reached: bool) {
    && (s.terminalSent <==> first.Some?)
    && (s.claimed.Some? ==> s.claimed == first && !reached)
    && s.acceptedTerminal == (if reached && first.Some? then [first.value] else [])
    && (reached ==> first.Some?)
  }

  lemma StepTracesTerminal(s: State, step: Step, first: Option<Event>, reached: bool)
    requires Enabled(s, step) && Inv(s) && TerminalTraced(s, first, reached)
    ensures TerminalTraced(Next(s, step), if first.None? && step.ClaimTerminal? then Some(step.e) else first,
                           reached || (step.SendTerminal? && !s.clientGone))
  {
    assert |s.acceptedTerminal| == |TerminalsIn(s.output)| + |s.terminal|;
  }

  /** Of all terminal events only the first claimed is accepted, exactly if it was sent while the client was there. */
  lemma {:induction false} TerminalIsTheFirstClaimed(states: seq<State>, steps: seq<Step>, i: nat)
    requires IsRun(states, steps) && i < |states|
    ensures TerminalTraced(states[i], FirstClaimed(steps[..i]), Reached(states, steps, i))
  {
    if i > 0 {
      TerminalIsTheFirstClaimed(states, steps, i - 1);
      RunKeepsInv(states, steps, i - 1);
      StepTracesTerminal(states[i - 1], steps[i - 1], FirstClaimed(steps[..i - 1]), Reached(states, steps, i - 1));
      assert steps[..i][..i - 1] == steps[..i - 1];
    }
  }

  // ---------------------------------------------------------------- priority

  predicate IsStreamStep(step: Step) {
    step.PollTerminal? || step.SelectProgress? || step.SelectTerminal? || step.AwaitTerminal?
  }

  /** At the top of its loop the stream can only yield the terminal event, if that is waiting. */
  lemma TerminalIsPolledFirst(states: seq<State>, steps: seq<Step>, i: nat)
    requires IsRun(states, steps) && i < |steps| && IsStreamStep(steps[i])
    requires states[i].position.Top? && states[i].terminal != []
    ensures states[i + 1].output == states[i].output + [states[i].terminal[0]]
  {
    RunKeepsInv(states, steps, i);
  }

  // ---------------------------------------------------------------- draining

  /** The stream's step when it takes progress first. */
  function DrainStep(s: State): Step {
    if s.position.Top? then PollTerminal else if s.position.Selecting? then SelectProgress else AwaitTerminal
  }

  function Distance(s: State): nat {
    4 * (|s.progress| + |s.terminal|) +
    match s.position
    case Ended => 0
    case AwaitingTerminal => 1
    case Selecting => 2
    case Top => 3
  }

  ghost predicate CanDrain(s: State) {
    Inv(s) && s.sinkDropped && !s.clientGone
  }

  lemma DrainStepGoesOn(s: State)
    requires CanDrain(s) && !s.position.Ended?
    ensures Enabled(s, DrainStep(s)) && CanDrain(Next(s, DrainStep(s)))
    ensures var s' := Next(s, DrainStep(s));
            && Distance(s') < Distance(s)
            && s'.acceptedProgress == s.acceptedProgress && s'.acceptedTerminal == s.acceptedTerminal
  {
    DrainStepKeepsInv(s);
  }

  lemma DrainStepKeepsInv(s: State)
    requires CanDrain(s) && !s.position.Ended?
    ensures Enabled(s, DrainStep(s)) && Inv(Next(s, DrainStep(s)))
  {
    StepKeepsLanes(s, DrainStep(s));
    StepKeepsOneTerminal(s, DrainStep(s));
    StepKeepsPosition(s, DrainStep(s));
  }

  lemma StepThenLeads(s: State, step: Step, t: State)
    requires Enabled(s, step) && Leads(Next(s, step), t)
    ensures Leads(s, t)
  {
    var states, steps :| LeadsTo(states, steps, Next(s, step), t);
    var ss, ts := [s] + states, [step] + steps;
    forall i | 0 <= i < |ts| ensures Enabled(ss[i], ts[i]) && ss[i + 1] == Next(ss[i], ts[i]) {
      if i > 0 {
        assert ss[i] == states[i - 1] && ts[i] == steps[i - 1] && ss[i + 1] == states[i];
      }
    }
    assert LeadsTo(ss, ts, s, t);
  }

  lemma {:induction false} Drains(s: State) returns (t: State)
    requires CanDrain(s)
    ensures Leads(s, t) && Inv(t) && t.position.Ended?
    ensures t.acceptedProgress == s.acceptedProgress && t.acceptedTerminal == s.acceptedTerminal
    decreases Distance(s)
  {
    if s.position.Ended? {
      t := s;
      assert LeadsTo([s], [], s, s);
    } else {
      DrainStepGoesOn(s);
      t := Drains(Next(s, DrainStep(s)));
      StepThenLeads(s, DrainStep(s), t);
    }
  }

  /**
   Whenever the sink has been dropped and the client is still there, the stream can go on to its end, and it then has
   yielded every event accepted so far, of both lanes.
   */
  lemma DroppedSinkCanDrain(states: seq<State>, steps: seq<Step>, i: nat) returns (t: State)
    requires IsRun(states, steps) && i < |states| && states[i].sinkDropped && !states[i].clientGone
    ensures Leads(states[i], t) && t.position.Ended?
    ensures ProgressIn(t.output) == states[i].acceptedProgress && TerminalsIn(t.output) == states[i].acceptedTerminal
  {
    RunKeepsInv(states, steps, i);
    t := Drains(states[i]);
  }
}
