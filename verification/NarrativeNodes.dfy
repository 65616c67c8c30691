/** Transitions of narrative nodes within committed turns. */
module NarrativeNodes {
  import opened Wrappers

  datatype NodeState = Inactive | Active | Completed | Skipped

  datatype TransitionKind = Activate | Complete | Skip

  datatype Transition = Transition(node: string, kind: TransitionKind)

  datatype Narrative = Narrative(
    graphRevision: nat, nodes: map<string, NodeState>, activationTurns: map<string, nat>, pending: map<string, string>)

  datatype Effect = Effect(id: string, definition: string)

  datatype Resolution = Resolution(transitions: seq<Transition>, pending: seq<Effect>, nextGraphRevision: nat)

  function StateOf(n: Narrative, node: string): NodeState {
    if node in n.nodes then n.nodes[node] else Inactive
  }

  function From(kind: TransitionKind): NodeState {
    if kind.Activate? then Inactive else Active
  }

  function To(kind: TransitionKind): NodeState {
    match kind
    case Activate => Active
    case Complete => Completed
    case Skip => Skipped
  }

  function ApplyTransition(n: Narrative, t: Transition, turn: nat): Option<Narrative> {
    if StateOf(n, t.node) != From(t.kind) then None
    else Some(n.(nodes := n.nodes[t.node := To(t.kind)],
                 activationTurns := if t.kind.Activate? then n.activationTurns[t.node := turn] else n.activationTurns))
  }

  function ApplyTransitions(n: Narrative, ts: seq<Transition>, turn: nat): Option<Narrative> {
    if ts == [] then Some(n)
    else
      var before := ApplyTransitions(n, ts[..|ts| - 1], turn);
      if before.None? then None else ApplyTransition(before.value, ts[|ts| - 1], turn)
  }

  function PendingOf(effects: seq<Effect>): map<string, string> {
    if effects == [] then map[]
    else PendingOf(effects[..|effects| - 1])[effects[|effects| - 1].id := effects[|effects| - 1].definition]
  }

  /** The narrative after a committed turn, or `None` for a revision conflict. */
  function Resolve(n: Narrative, r: Resolution, expectedGraphRevision: nat, turn: nat): Option<Narrative> {
    if n.graphRevision != expectedGraphRevision then None
    else
      var moved := ApplyTransitions(n, r.transitions, turn);
      if moved.None? then None
      else Some(moved.value.(pending := PendingOf(r.pending),
                             graphRevision := if r.transitions != [] then r.nextGraphRevision else n.graphRevision))
  }

  lemma {:induction false} FirstConflictStands(n: Narrative, ts: seq<Transition>, turn: nat, i: nat)
    requires i <= |ts| && ApplyTransitions(n, ts[..i], turn).None?
    ensures ApplyTransitions(n, ts, turn).None?
  {
    if i == |ts| {
      assert ts[..i] == ts;
    } else {
      assert ts[..|ts| - 1][..i] == ts[..i];
      FirstConflictStands(n, ts[..|ts| - 1], turn, i);
    }
  }

  lemma {:induction false} TransitionsKeepRevision(n: Narrative, ts: seq<Transition>, turn: nat)
    requires ApplyTransitions(n, ts, turn).Some?
    ensures ApplyTransitions(n, ts, turn).value.graphRevision == n.graphRevision
  {
    if ts != [] {
      TransitionsKeepRevision(n, ts[..|ts| - 1], turn);
    }
  }

  method ResolveNarrative(n: Narrative, r: Resolution, expectedGraphRevision: nat, turn: nat)
    returns (result: Option<Narrative>)
    ensures result == Resolve(n, r, expectedGraphRevision, turn)
  {
    if n.graphRevision != expectedGraphRevision { return None; }
    var current := n;
    for i := 0 to |r.transitions|
      invariant ApplyTransitions(n, r.transitions[..i], turn) == Some(current)
    {
      var t := r.transitions[i];
      assert r.transitions[..i + 1][..i] == r.transitions[..i];
      if StateOf(current, t.node) != From(t.kind) {
        FirstConflictStands(n, r.transitions, turn, i + 1);
        return None;
      }
      current := current.(nodes := current.nodes[t.node := To(t.kind)]);
      if To(t.kind) == Active {
        current := current.(activationTurns := current.activationTurns[t.node := turn]);
      }
    }
    assert r.transitions[..|r.transitions|] == r.transitions;
    TransitionsKeepRevision(n, r.transitions, turn);
    current := current.(pending := PendingOf(r.pending));
    if r.transitions != [] {
      current := current.(graphRevision := r.nextGraphRevision);
    }
    result := Some(current);
  }

  // ---------------------------------------------------------------- the life of one node

  /** How far a node has come: inactive, active, or closed. */
  function Rank(s: NodeState): nat {
    match s
    case Inactive => 0
    case Active => 1
    case _ => 2
  }

  /** How often a node moved, the turns at which it was activated, and its last move. */
  datatype Life = Life(moves: nat, activations: seq<nat>, last: Option<TransitionKind>)

  const NO_LIFE: Life := Life(0, [], None)

  function Moved(life: Life, kind: TransitionKind, turn: nat): Life {
    Life(life.moves + 1, life.activations + (if kind.Activate? then [turn] else []), Some(kind))
  }

  function LifeOf(ts: seq<Transition>, turn: nat, node: string): Life {
    if ts == [] then NO_LIFE
    else
      var life, t := LifeOf(ts[..|ts| - 1], turn, node), ts[|ts| - 1];
      if t.node != node then life else Moved(life, t.kind, turn)
  }

  /** From `start`, a node has made `life`'s moves and now stands as `n` says. */
  ghost predicate Lived(start: Narrative, life: Life, n: Narrative, node: string) {
    && StateOf(n, node) == (if life.last.Some? then To(life.last.value) else StateOf(start, node))
    && (life.last.None? <==> life.moves == 0)
    && Rank(StateOf(n, node)) == Rank(StateOf(start, node)) + life.moves
    && |life.activations| == (if Rank(StateOf(start, node)) == 0 && life.moves > 0 then 1 else 0)
    && (life.activations != [] ==> node in n.activationTurns && n.activationTurns[node] == life.activations[0])
    && (life.activations == [] ==>
          (node in n.activationTurns <==> node in start.activationTurns) &&
          (node in n.activationTurns ==> n.activationTurns[node] == start.activationTurns[node]))
  }

  function Join(a: Life, b: Life): Life {
    Life(a.moves + b.moves, a.activations + b.activations, if b.last.Some? then b.last else a.last)
  }

  lemma MoveIsLived(start: Narrative, life: Life, n: Narrative, node: string, t: Transition, turn: nat)
    requires Lived(start, life, n, node) && ApplyTransition(n, t, turn).Some?
    ensures var life' := if t.node != node then life else Moved(life, t.kind, turn);
            Lived(start, life', ApplyTransition(n, t, turn).value, node)
  {
  }

  lemma {:induction false} TransitionsAreLived(n: Narrative, ts: seq<Transition>, turn: nat, node: string)
    requires ApplyTransitions(n, ts, turn).Some?
    ensures Lived(n, LifeOf(ts, turn, node), ApplyTransitions(n, ts, turn).value, node)
  {
    if ts != [] {
      var init := ts[..|ts| - 1];
      TransitionsAreLived(n, init, turn, node);
      MoveIsLived(n, LifeOf(init, turn, node), ApplyTransitions(n, init, turn).value, node, ts[|ts| - 1], turn);
    }
  }

  /** Two stretches of a node's life put together. */
  lemma LivesJoin(start: Narrative, a: Life, mid: Narrative, b: Life, n: Narrative, node: string)
    requires Lived(start, a, mid, node) && Lived(mid, b, n, node)
    ensures Lived(start, Join(a, b), n, node)
  {
  }

  /** A resolved turn is lived by every node; what else it changes does not concern nodes. */
  lemma ResolutionIsLived(n: Narrative, r: Resolution, expected: nat, turn: nat, node: string)
    requires Resolve(n, r, expected, turn).Some?
    ensures Lived(n, LifeOf(r.transitions, turn, node), Resolve(n, r, expected, turn).value, node)
  {
    TransitionsAreLived(n, r.transitions, turn, node);
  }
}
