/**
 The two-lane SSE sink and the stream that merges its lanes, as a step machine.

 Progress events go through a bounded lane and may be refused; the one terminal event goes through
 a lane of its own. The stream polls the terminal lane first, then waits on both.
 */
module SseLanes {
  import opened Wrappers

  const PROGRESS_CAPACITY: nat := 64
  const TERMINAL_CAPACITY: nat := 1

  datatype Event = Progress(id: nat) | Terminal(id: nat)

  /** Where the stream's loop stands: at its top, waiting on both lanes, waiting for the terminal, or done. */
  datatype Position = Top | Selecting | AwaitingTerminal | Ended

  datatype State = State(
    progress: seq<Event>,
    terminal: seq<Event>,
    terminalSent: bool,
    claimed: Option<Event>,
    sinkDropped: bool,
    clientGone: bool,
    dropped: nat,
    position: Position,
    terminalDone: bool,
    output: seq<Event>,
    acceptedProgress: seq<Event>,
    acceptedTerminal: seq<Event>)

  datatype Step =
    // the sink
    | EmitProgress(e: Event)
    | ClaimTerminal(e: Event)
    | SendTerminal
    | DropSink
    // the stream
    | PollTerminal
    | SelectProgress
    | SelectTerminal
    | AwaitTerminal
    | ClientLeaves

  datatype Delivery = Delivered | ProgressBackpressure | ClientDisconnected

  function Initial(): State {
    State([], [], false, None, false, false, 0, Top, false, [], [], [])
  }

  predicate Enabled(s: State, step: Step) {
    match step
    case EmitProgress(e) => !s.sinkDropped && e.Progress?
    case ClaimTerminal(e) => !s.sinkDropped && e.Terminal?
    case SendTerminal => s.claimed.Some?
    case DropSink => !s.sinkDropped && s.claimed.None?
    case PollTerminal => !s.clientGone && s.position.Top?
    case SelectProgress => !s.clientGone && s.position.Selecting? && (s.progress != [] || s.sinkDropped)
    case SelectTerminal => !s.clientGone && s.position.Selecting? && (s.terminal != [] || s.sinkDropped)
    case AwaitTerminal => !s.clientGone && s.position.AwaitingTerminal? && (s.terminal != [] || s.sinkDropped)
    case ClientLeaves => !s.clientGone
  }

  /** What `try_send` on a lane returns. */
  function LaneSend(s: State, lane: seq<Event>, capacity: nat): Delivery {
    if s.clientGone then ClientDisconnected
    else if |lane| >= capacity then ProgressBackpressure
    else Delivered
  }

  /** Takes the terminal event out of its lane and yields it. */
  function YieldTerminal(s: State): State
    requires s.terminal != []
  {
    s.(output := s.output + [s.terminal[0]], terminal := s.terminal[1..], terminalDone := true, position := Top)
  }

  function Next(s: State, step: Step): State
    requires Enabled(s, step)
  {
    match step
    case EmitProgress(e) =>
      (match LaneSend(s, s.progress, PROGRESS_CAPACITY)
       case Delivered => s.(progress := s.progress + [e], acceptedProgress := s.acceptedProgress + [e])
       case ClientDisconnected => s.(dropped := s.dropped + 1)
       case _ => s)
    case ClaimTerminal(e) => if s.terminalSent then s else s.(terminalSent := true, claimed := Some(e))
    case SendTerminal =>
      var s' := s.(claimed := None);
      (match LaneSend(s, s.terminal, TERMINAL_CAPACITY)
       case Delivered =>
         s'.(terminal := s.terminal + [s.claimed.value], acceptedTerminal := s.acceptedTerminal + [s.claimed.value])
       case ClientDisconnected => s'.(dropped := s.dropped + 1)
       case _ => s')
    case DropSink => s.(sinkDropped := true)
    case PollTerminal =>
      if s.terminalDone then s.(position := Selecting)
      else if s.terminal != [] then YieldTerminal(s)
      else if s.sinkDropped then s.(terminalDone := true, position := Selecting)
      else s.(position := Selecting)
    case SelectProgress =>
      if s.progress != [] then
        s.(output := s.output + [s.progress[0]], progress := s.progress[1..], position := Top)
      else if s.terminalDone then s.(position := Ended)
      else s.(position := AwaitingTerminal)
    case SelectTerminal => if s.terminal != [] then YieldTerminal(s) else s.(terminalDone := true, position := Top)
    case AwaitTerminal => if s.terminal != [] then YieldTerminal(s) else s.(position := Ended)
    case ClientLeaves => s.(clientGone := true)
  }

  // ---------------------------------------------------------------- the invariant

  function ProgressIn(events: seq<Event>): seq<Event> {
    if events == [] then []
    else ProgressIn(events[..|events| - 1]) + if events[|events| - 1].Progress? then [events[|events| - 1]] else []
  }

  function TerminalsIn(events: seq<Event>): seq<Event> {
    if events == [] then []
    else TerminalsIn(events[..|events| - 1]) + if events[|events| - 1].Terminal? then [events[|events| - 1]] else []
  }

  lemma Appended(events: seq<Event>, e: Event)
    ensures ProgressIn(events + [e]) == ProgressIn(events) + if e.Progress? then [e] else []
    ensures TerminalsIn(events + [e]) == TerminalsIn(events) + if e.Terminal? then [e] else []
  {
    assert (events + [e])[..|events|] == events;
  }

  /** Each lane holds what was accepted into it and not yet yielded, in order. */
  ghost predicate LanesAccounted(s: State) {
    && ProgressIn(s.output) + s.progress == s.acceptedProgress
    && TerminalsIn(s.output) + s.terminal == s.acceptedTerminal
    && (forall i :: 0 <= i < |s.progress| ==> s.progress[i].Progress?)
    && (forall i :: 0 <= i < |s.terminal| ==> s.terminal[i].Terminal?)
  }

  /** At most one terminal event is ever claimed, accepted or yielded. */
  ghost predicate OneTerminal(s: State) {
    && |s.acceptedTerminal| + (if s.claimed.Some? then 1 else 0) <= (if s.terminalSent then 1 else 0)
    && (s.claimed.Some? ==> s.claimed.value.Terminal? && !s.sinkDropped)
    && (s.terminalDone ==> s.terminal == [] && (s.sinkDropped || |s.acceptedTerminal| == 1))
  }

  ghost predicate Positioned(s: State) {
    && (s.position.AwaitingTerminal? ==> s.sinkDropped && s.progress == [])
    && (s.position.Ended? ==> s.sinkDropped && s.progress == [] && s.terminal == [])
    && |s.progress| <= PROGRESS_CAPACITY && |s.terminal| <= TERMINAL_CAPACITY
  }

  ghost predicate Inv(s: State) {
    LanesAccounted(s) && OneTerminal(s) && Positioned(s)
  }

  lemma HeadMoves(out: seq<Event>, lane: seq<Event>)
    requires lane != []
    ensures out + [lane[0]] + lane[1..] == out + lane
  {
  }

  lemma TailAppends(out: seq<Event>, lane: seq<Event>, e: Event)
    ensures out + (lane + [e]) == out + lane + [e]
  {
  }

  lemma ProgressMoves(out: seq<Event>, lane: seq<Event>)
    requires lane != [] && lane[0].Progress?
    ensures ProgressIn(out + [lane[0]]) + lane[1..] == ProgressIn(out) + lane
    ensures TerminalsIn(out + [lane[0]]) == TerminalsIn(out)
  {
    Appended(out, lane[0]);
    HeadMoves(ProgressIn(out), lane);
  }

  lemma TerminalMoves(out: seq<Event>, lane: seq<Event>)
    requires lane != [] && lane[0].Terminal?
    ensures TerminalsIn(out + [lane[0]]) + lane[1..] == TerminalsIn(out) + lane
    ensures ProgressIn(out + [lane[0]]) == ProgressIn(out)
  {
    Appended(out, lane[0]);
    HeadMoves(TerminalsIn(out), lane);
  }

  lemma YieldTerminalKeepsLanes(s: State)
    requires LanesAccounted(s) && s.terminal != []
    ensures LanesAccounted(YieldTerminal(s))
  {
    TerminalMoves(s.output, s.terminal);
  }

  lemma YieldProgressKeepsLanes(s: State)
    requires LanesAccounted(s) && s.progress != []
    ensures LanesAccounted(s.(output := s.output + [s.progress[0]], progress := s.progress[1..]))
  {
    ProgressMoves(s.output, s.progress);
  }

  lemma SinkKeepsLanes(s: State, step: Step)
    requires Enabled(s, step) && Inv(s) && (step.EmitProgress? || step.SendTerminal?)
    ensures LanesAccounted(Next(s, step))
  {
    if step.EmitProgress? {
      TailAppends(ProgressIn(s.output), s.progress, step.e);
    } else {
      TailAppends(TerminalsIn(s.output), s.terminal, s.claimed.value);
    }
  }

  lemma StepKeepsLanes(s: State, step: Step)
    requires Enabled(s, step) && Inv(s)
    ensures LanesAccounted(Next(s, step))
  {
    match step
    case EmitProgress(_) => SinkKeepsLanes(s, step);
    case SendTerminal => SinkKeepsLanes(s, step);
    case SelectProgress => if s.progress != [] { YieldProgressKeepsLanes(s); }
    case PollTerminal => if s.terminal != [] { YieldTerminalKeepsLanes(s); }
    case SelectTerminal => if s.terminal != [] { YieldTerminalKeepsLanes(s); }
    case AwaitTerminal => if s.terminal != [] { YieldTerminalKeepsLanes(s); }
    case _ =>
  }

  lemma StepKeepsOneTerminal(s: State, step: Step)
    requires Enabled(s, step) && Inv(s)
    ensures OneTerminal(Next(s, step))
  {
    assert |s.acceptedTerminal| == |TerminalsIn(s.output)| + |s.terminal|;
  }

  lemma StepKeepsPosition(s: State, step: Step)
    requires Enabled(s, step) && OneTerminal(s) && Positioned(s)
    ensures Positioned(Next(s, step))
  {
  }

  // ---------------------------------------------------------------- whole runs

  /** States linked by steps. */
  ghost predicate IsPath(states: seq<State>, steps: seq<Step>) {
    && |states| == |steps| + 1
    && forall i :: 0 <= i < |steps| ==> Enabled(states[i], steps[i]) && states[i + 1] == Next(states[i], steps[i])
  }

  ghost predicate IsRun(states: seq<State>, steps: seq<Step>) {
    IsPath(states, steps) && states[0] == Initial()
  }

  lemma {:induction false} RunKeepsInv(states: seq<State>, steps: seq<Step>, i: nat)
    requires IsRun(states, steps) && i < |states|
    ensures Inv(states[i])
  {
    if i > 0 {
      RunKeepsInv(states, steps, i - 1);
      StepKeepsLanes(states[i - 1], steps[i - 1]);
      StepKeepsOneTerminal(states[i - 1], steps[i - 1]);
      StepKeepsPosition(states[i - 1], steps[i - 1]);
    }
  }

  /** The stream yields accepted progress events once and in order, and at most one terminal event. */
  lemma YieldsInOrderAndOnce(states: seq<State>, steps: seq<Step>, i: nat)
    requires IsRun(states, steps) && i < |states|
    ensures var s := states[i];
            && ProgressIn(s.output) <= s.acceptedProgress
            && TerminalsIn(s.output) <= s.acceptedTerminal && |TerminalsIn(s.output)| <= 1
  {
    RunKeepsInv(states, steps, i);
  }

  /** A stream that ends by itself has yielded every accepted event of both lanes. */
  lemma EndsOnlyWhenDrained(states: seq<State>, steps: seq<Step>, i: nat)
    requires IsRun(states, steps) && i < |states| && states[i].position.Ended?
    ensures var s := states[i];
            && s.sinkDropped
            && ProgressIn(s.output) == s.acceptedProgress && TerminalsIn(s.output) == s.acceptedTerminal
  {
    RunKeepsInv(states, steps, i);
  }

  /** The terminal send never finds its lane full: it is delivered unless the client has gone. */
  lemma TerminalLaneIsNeverFull(states: seq<State>, steps: seq<Step>, i: nat)
    requires IsRun(states, steps) && i < |states| && states[i].claimed.Some?
    ensures LaneSend(states[i], states[i].terminal, TERMINAL_CAPACITY) ==
            if states[i].clientGone then ClientDisconnected else Delivered
  {
    RunKeepsInv(states, steps, i);
    assert |states[i].acceptedTerminal| == |TerminalsIn(states[i].output)| + |states[i].terminal|;
  }

  predicate Follows(s: State, step: Step, s': State) {
    Enabled(s, step) && s' == Next(s, step)
  }

  // ---------------------------------------------------------------- order across the lanes

  /** The terminal event is out, and some of the `earlier` progress is not. */
  ghost predicate Overtaken(s: State, earlier: seq<Event>) {
    TerminalsIn(s.output) != [] && !(earlier <= ProgressIn(s.output))
  }

  ghost predicate LeadsTo(states: seq<State>, steps: seq<Step>, s: State, t: State) {
    IsPath(states, steps) && states[0] == s && states[|steps|] == t
  }

  ghost predicate Leads(s: State, t: State) {
    exists states, steps :: LeadsTo(states, steps, s, t)
  }

  /** The stream can go on so that the terminal event is yielded ahead of progress accepted by now. */
  ghost predicate CanBeOvertaken(s: State) {
    exists t :: Leads(s, t) && Overtaken(t, s.acceptedProgress)
  }

  /** The stream step that takes the terminal event out of its lane. */
  function TerminalStep(s: State): Step {
    if s.position.Top? then PollTerminal else if s.position.Selecting? then SelectTerminal else AwaitTerminal
  }

  lemma StepLeads(s: State, step: Step)
    requires Enabled(s, step)
    ensures Leads(s, Next(s, step))
  {
    assert LeadsTo([s, Next(s, step)], [step], s, Next(s, step));
  }

  /** A step yields at most one event. */
  predicate YieldsAtMostOne(before: seq<Event>, after: seq<Event>) {
    after == before || (after != [] && after[..|after| - 1] == before)
  }

  lemma StepYields(s: State, step: Step)
    requires Enabled(s, step)
    ensures YieldsAtMostOne(s.output, Next(s, step).output)
  {
  }

  lemma OneMoreYielded(before: seq<Event>, after: seq<Event>)
    requires YieldsAtMostOne(before, after)
    ensures ProgressIn(before) <= ProgressIn(after)
  {
  }

  lemma StepYieldsMore(s: State, step: Step)
    requires Enabled(s, step)
    ensures ProgressIn(s.output) <= ProgressIn(Next(s, step).output)
  {
    StepYields(s, step);
    OneMoreYielded(s.output, Next(s, step).output);
  }

  lemma {:induction false} PathYieldsMore(states: seq<State>, steps: seq<Step>, i: nat)
    requires IsPath(states, steps) && i < |states|
    ensures ProgressIn(states[0].output) <= ProgressIn(states[i].output)
  {
    if i > 0 {
      PathYieldsMore(states, steps, i - 1);
      StepYieldsMore(states[i - 1], steps[i - 1]);
    }
  }

  /** With progress waiting, the stream may yield the terminal event at once. */
  lemma TerminalFirst(s: State)
    requires Inv(s) && s.terminal != [] && s.progress != [] && !s.clientGone
    ensures Enabled(s, TerminalStep(s)) && Overtaken(Next(s, TerminalStep(s)), s.acceptedProgress)
  {
    TerminalMoves(s.output, s.terminal);
    Appended(s.output, s.terminal[0]);
    assert |s.acceptedProgress| == |ProgressIn(s.output)| + |s.progress|;
  }

  lemma NothingWaitsNothingIsOvertaken(s: State, t: State)
    requires LanesAccounted(s) && s.progress == [] && Leads(s, t)
    ensures s.acceptedProgress <= ProgressIn(t.output)
  {
    var states, steps :| LeadsTo(states, steps, s, t);
    PathYieldsMore(states, steps, |steps|);
  }

  /**
   Order across the lanes: while the terminal event waits in its lane and the client is there, it can be
   yielded ahead of progress accepted before if and only if progress is waiting too.
   */
  lemma OvertakenIff(states: seq<State>, steps: seq<Step>, i: nat)
    requires IsRun(states, steps) && i < |states|
    requires states[i].terminal != [] && !states[i].clientGone
    ensures CanBeOvertaken(states[i]) <==> states[i].progress != []
  {
    RunKeepsInv(states, steps, i);
    var s := states[i];
    if s.progress != [] {
      TerminalFirst(s);
      StepLeads(s, TerminalStep(s));
    } else if t :| Leads(s, t) && Overtaken(t, s.acceptedProgress) {
      NothingWaitsNothingIsOvertaken(s, t);
    }
  }

  /** In a run, progress accepted before the terminal event keeps its place if none was waiting at that moment. */
  lemma EmptyLaneKeepsOrder(states: seq<State>, steps: seq<Step>, i: nat, j: nat)
    requires IsRun(states, steps) && i <= j < |states| && states[i].progress == []
    ensures !Overtaken(states[j], states[i].acceptedProgress)
  {
    RunKeepsInv(states, steps, i);
    assert IsPath(states[i..], steps[i..]);
    PathYieldsMore(states[i..], steps[i..], j - i);
  }

  /** Order is kept within a lane only: the terminal event can overtake progress accepted before it. */
  lemma TerminalCanOvertakeProgress(p: nat, t: nat)
    returns (s1: State, s2: State, s3: State, s4: State, s5: State, s6: State)
    ensures Follows(Initial(), EmitProgress(Progress(p)), s1) && Follows(s1, ClaimTerminal(Terminal(t)), s2)
    ensures Follows(s2, SendTerminal, s3) && Follows(s3, PollTerminal, s4) && Follows(s4, PollTerminal, s5)
    ensures Follows(s5, SelectProgress, s6) && s6.output == [Terminal(t), Progress(p)]
  {
    s1 := Initial().(progress := [Progress(p)], acceptedProgress := [Progress(p)]);
    s2 := s1.(terminalSent := true, claimed := Some(Terminal(t)));
    s3 := s2.(claimed := None, terminal := [Terminal(t)], acceptedTerminal := [Terminal(t)]);
    s4 := s3.(terminal := [], output := [Terminal(t)], terminalDone := true);
    s5 := s4.(position := Selecting);
    s6 := s5.(progress := [], output := [Terminal(t), Progress(p)], position := Top);
  }
}
