/** Exactly which commits with a new key a story accepts, told from the story and the commit alone. */
module CommitAcceptance {
  import opened Widths
  import opened Wrappers
  import opened KnowledgeIds
  import opened StoryCommits
  import opened StoryCommitRuns
  import E = CommitEffects

  // ---------------------------------------------------------------- roles

  /** A new role's id is neither stored nor that of an earlier new role. */
  predicate NewRoleFits(roles: map<string, Role>, added: seq<Role>, i: nat)
    requires i < |added|
  {
    added[i].id !in roles && forall j :: 0 <= j < i ==> added[j].id != added[i].id
  }

  lemma NewRoleFitsLater(roles: map<string, Role>, added: seq<Role>, i: nat)
    requires 0 < i < |added|
    ensures NewRoleFits(roles[added[0].id := added[0]], added[1..], i - 1) <==> NewRoleFits(roles, added, i)
  {
    var rest := added[1..];
    assert forall j :: 0 <= j < i - 1 ==> rest[j] == added[j + 1];
    if NewRoleFits(roles[added[0].id := added[0]], rest, i - 1) {
      forall j | 0 <= j < i ensures added[j].id != added[i].id {
        assert j > 0 ==> added[j] == rest[j - 1];
      }
    }
  }

  lemma {:induction false} AddRolesIff(roles: map<string, Role>, added: seq<Role>)
    ensures AddRoles(roles, added).Ok? <==> forall i :: 0 <= i < |added| ==> NewRoleFits(roles, added, i)
    decreases |added|
  {
    if added != [] {
      var next, rest := roles[added[0].id := added[0]], added[1..];
      AddRolesIff(next, rest);
      assert added[0].id !in roles <==> NewRoleFits(roles, added, 0);
      forall i | 0 < i < |added| ensures NewRoleFits(next, rest, i - 1) <==> NewRoleFits(roles, added, i) {
        NewRoleFitsLater(roles, added, i);
      }
      if forall i :: 0 <= i < |added| ==> NewRoleFits(roles, added, i) {
        forall i | 0 <= i < |rest| ensures NewRoleFits(next, rest, i) {
          assert NewRoleFits(roles, added, i + 1);
        }
      }
    }
  }

  lemma {:induction false} ChangeRolesIff(roles: map<string, Role>, changes: seq<RoleChange>)
    ensures ChangeRoles(roles, changes).Ok? <==> forall i :: 0 <= i < |changes| ==> changes[i].id in roles
    decreases |changes|
  {
    if changes != [] && changes[0].id in roles {
      ChangeRolesIff(roles[changes[0].id := roles[changes[0].id].(state := changes[0].newState)], changes[1..]);
      assert forall i :: 0 < i < |changes| ==> changes[i] == changes[1..][i - 1];
    }
  }

  /** Every change is of a stored role or of a new one. */
  ghost predicate RolesFit(roles: map<string, Role>, added: seq<Role>, changes: seq<RoleChange>) {
    && (forall i :: 0 <= i < |added| ==> NewRoleFits(roles, added, i))
    && (forall i :: 0 <= i < |changes| ==> IsCast(roles, added, changes[i].id))
  }

  predicate IsCast(roles: map<string, Role>, added: seq<Role>, id: string) {
    id in roles || exists j :: 0 <= j < |added| && added[j].id == id
  }

  lemma RolesFitIff(roles: map<string, Role>, added: seq<Role>, changes: seq<RoleChange>)
    ensures AddThenChange(roles, added, changes).Ok? <==> RolesFit(roles, added, changes)
  {
    AddRolesIff(roles, added);
    if AddRoles(roles, added).Ok? {
      E.AddedRoles(roles, added);
      ChangeRolesIff(AddRoles(roles, added).value, changes);
      forall i | 0 <= i < |changes|
        ensures changes[i].id in AddRoles(roles, added).value <==> IsCast(roles, added, changes[i].id)
      {
      }
    }
  }

  // ---------------------------------------------------------------- relationships

  function Between(op: RelationshipOp): (string, string) {
    (op.state.from, op.state.to)
  }

  /** A relationship is added where there is none yet, and updated under its own key where there is one. */
  predicate RelationshipFits(rs: map<(string, string), Relationship>, ops: seq<RelationshipOp>, i: nat)
    requires i < |ops|
  {
    var there := Between(ops[i]) in rs || exists j :: 0 <= j < i && Between(ops[j]) == Between(ops[i]);
    match ops[i]
    case AddRelationship(_) => !there
    case UpdateRelationship(key, _) => key == Between(ops[i]) && there
  }

  lemma RelationshipFitsLater(rs: map<(string, string), Relationship>, ops: seq<RelationshipOp>, i: nat)
    requires 0 < i < |ops|
    ensures RelationshipFits(rs[Between(ops[0]) := ops[0].state], ops[1..], i - 1) <==> RelationshipFits(rs, ops, i)
  {
    var rest := ops[1..];
    assert rest[i - 1] == ops[i] && forall j :: 0 <= j < i - 1 ==> rest[j] == ops[j + 1];
    if j :| 0 <= j < i && Between(ops[j]) == Between(ops[i]) {
      assert j > 0 ==> rest[j - 1] == ops[j];
    }
  }

  lemma {:induction false} ChangeRelationshipsIff(rs: map<(string, string), Relationship>, ops: seq<RelationshipOp>)
    ensures ChangeRelationships(rs, ops).Ok? <==> forall i :: 0 <= i < |ops| ==> RelationshipFits(rs, ops, i)
    decreases |ops|
  {
    if ops != [] {
      var next, rest := rs[Between(ops[0]) := ops[0].state], ops[1..];
      ChangeRelationshipsIff(next, rest);
      assert ChangeRelationships(rs, ops).Ok? <==> RelationshipFits(rs, ops, 0) && ChangeRelationships(next, rest).Ok?;
      forall i | 0 < i < |ops| ensures RelationshipFits(next, rest, i - 1) <==> RelationshipFits(rs, ops, i) {
        RelationshipFitsLater(rs, ops, i);
      }
      if forall i :: 0 <= i < |ops| ==> RelationshipFits(rs, ops, i) {
        forall i | 0 <= i < |rest| ensures RelationshipFits(next, rest, i) {
          assert RelationshipFits(rs, ops, i + 1);
        }
      }
    }
  }

  // ---------------------------------------------------------------- the narrative

  /** The state of a node after the given transitions. */
  function StateAfter(n: N.Narrative, ts: seq<N.Transition>, node: string): N.NodeState {
    if ts == [] then (if node in n.nodes then n.nodes[node] else N.Inactive)
    else
      var t := ts[|ts| - 1];
      if t.node != node then StateAfter(n, ts[..|ts| - 1], node)
      else match t.kind
        case Activate => N.Active
        case Complete => N.Completed
        case Skip => N.Skipped
  }

  /** An inactive node can be activated, and an active one completed or skipped. */
  predicate TransitionFits(n: N.Narrative, before: seq<N.Transition>, t: N.Transition) {
    StateAfter(n, before, t.node) == if t.kind.Activate? then N.Inactive else N.Active
  }

  ghost predicate TransitionsFit(n: N.Narrative, ts: seq<N.Transition>) {
    forall i :: 0 <= i < |ts| ==> TransitionFits(n, ts[..i], ts[i])
  }

  lemma LastTransitionFits(n: N.Narrative, ts: seq<N.Transition>)
    requires ts != []
    ensures var k := |ts| - 1;
            TransitionsFit(n, ts) <==> TransitionsFit(n, ts[..k]) && TransitionFits(n, ts[..k], ts[k])
  {
    var k := |ts| - 1;
    assert forall i :: 0 <= i < k ==> ts[..k][..i] == ts[..i] && ts[..k][i] == ts[i];
  }

  lemma {:induction false} TransitionsFitIff(n: N.Narrative, ts: seq<N.Transition>, turn: nat)
    ensures N.ApplyTransitions(n, ts, turn).Some? <==> TransitionsFit(n, ts)
    ensures N.ApplyTransitions(n, ts, turn).Some? ==>
      forall node :: N.StateOf(N.ApplyTransitions(n, ts, turn).value, node) == StateAfter(n, ts, node)
  {
    if ts != [] {
      var k := |ts| - 1;
      TransitionsFitIff(n, ts[..k], turn);
      LastTransitionFits(n, ts);
    }
  }

  // ---------------------------------------------------------------- knowledge

  function OwnerIn(e: K.Entry): Option<string> {
    match e
    case MemoryEntry(_, owner, _, _, _, _, _) => Some(owner)
    case _ => None
  }

  function KindIn(e: K.Entry): Kind {
    if e.FactEntry? then Fact else if e.RumorEntry? then Rumor else Memory
  }

  function About(m: K.Mutation): K.RowKey {
    match m
    case Add(e) => K.RowKey(KindIn(e), e.id)
    case Update(target, value) => K.RowKey(KindIn(value), target.id)
    case Delete(d) => K.RowKey(if d.DeletableRumor? then Rumor else Memory, d.id)
  }

  /** Whether a row is there after the given mutations and, if so, whose it is. */
  function Holder(rows: K.Rows, ms: seq<K.Mutation>, key: K.RowKey): Option<Option<string>> {
    if ms == [] then (if key in rows then Some(rows[key].owner) else None)
    else
      var m, before := ms[|ms| - 1], Holder(rows, ms[..|ms| - 1], key);
      if About(m) != key then before
      else match m
        case Add(e) => Some(OwnerIn(e))
        case Update(_, _) => before
        case Delete(_) => None
  }

  /** Rows are added where there is none, and updated or deleted where there is one; nobody's memory changes hands. */
  predicate MutationFits(rows: K.Rows, before: seq<K.Mutation>, m: K.Mutation) {
    match m
    case Add(_) => Holder(rows, before, About(m)).None?
    case Update(_, value) => Holder(rows, before, About(m)) == Some(OwnerIn(value))
    case Delete(_) => Holder(rows, before, About(m)).Some?
  }

  ghost predicate MutationsFit(rows: K.Rows, ms: seq<K.Mutation>) {
    forall i :: 0 <= i < |ms| ==> MutationFits(rows, ms[..i], ms[i])
  }

  predicate HeldBy(rows: K.Rows, key: K.RowKey, holder: Option<Option<string>>) {
    holder == if key in rows then Some(rows[key].owner) else None
  }

  lemma MutationFitsIff(rows: K.Rows, before: seq<K.Mutation>, m: K.Mutation, current: K.Rows)
    requires K.AllAgree(current) && HeldBy(current, About(m), Holder(rows, before, About(m)))
    ensures K.ApplyMutation(current, m).Ok? <==> MutationFits(rows, before, m)
  {
    if m.Update? && About(m) in current {
      assert K.Agrees(About(m), current[About(m)]);
      K.MergeKeepsIdentity(current[About(m)].payload, m.value);
    }
  }

  lemma MutationHolds(rows: K.Rows, ms: seq<K.Mutation>, current: K.Rows, key: K.RowKey)
    requires ms != [] && K.ApplyMutation(current, ms[|ms| - 1]).Ok?
    requires HeldBy(current, key, Holder(rows, ms[..|ms| - 1], key))
    ensures HeldBy(K.ApplyMutation(current, ms[|ms| - 1]).value, key, Holder(rows, ms, key))
  {
  }

  lemma LastMutationFits(rows: K.Rows, ms: seq<K.Mutation>)
    requires ms != []
    ensures var k := |ms| - 1;
            MutationsFit(rows, ms) <==> MutationsFit(rows, ms[..k]) && MutationFits(rows, ms[..k], ms[k])
  {
    var k := |ms| - 1;
    assert forall i :: 0 <= i < k ==> ms[..k][..i] == ms[..i] && ms[..k][i] == ms[i];
  }

  /** The rows agree with their payloads and are there, with their owners, as the mutations say. */
  ghost predicate Tracked(rows: K.Rows, ms: seq<K.Mutation>, current: K.Rows) {
    K.AllAgree(current) && forall key :: HeldBy(current, key, Holder(rows, ms, key))
  }

  lemma NextIsTracked(rows: K.Rows, ms: seq<K.Mutation>, current: K.Rows)
    requires ms != [] && Tracked(rows, ms[..|ms| - 1], current)
    ensures var m := ms[|ms| - 1];
            && (K.ApplyMutation(current, m).Ok? <==> MutationFits(rows, ms[..|ms| - 1], m))
            && (K.ApplyMutation(current, m).Ok? ==> Tracked(rows, ms, K.ApplyMutation(current, m).value))
  {
    var m := ms[|ms| - 1];
    assert HeldBy(current, About(m), Holder(rows, ms[..|ms| - 1], About(m)));
    MutationFitsIff(rows, ms[..|ms| - 1], m, current);
    if K.ApplyMutation(current, m).Ok? {
      K.MutationKeepsAgreement(current, m);
      forall key ensures HeldBy(K.ApplyMutation(current, m).value, key, Holder(rows, ms, key)) {
        MutationHolds(rows, ms, current, key);
      }
    }
  }

  lemma {:induction false} MutationsFitIff(rows: K.Rows, ms: seq<K.Mutation>)
    requires K.AllAgree(rows)
    ensures K.ApplyMutations(rows, ms).Ok? <==> MutationsFit(rows, ms)
    ensures K.ApplyMutations(rows, ms).Ok? ==> Tracked(rows, ms, K.ApplyMutations(rows, ms).value)
  {
    if ms != [] {
      var init := ms[..|ms| - 1];
      MutationsFitIff(rows, init);
      LastMutationFits(rows, ms);
      if K.ApplyMutations(rows, init).Ok? {
        NextIsTracked(rows, ms, K.ApplyMutations(rows, init).value);
      }
    }
  }

  // ---------------------------------------------------------------- the whole commit

  predicate TurnFits(turn: Option<nat>) {
    turn.Some? ==> turn.value <= I64_MAX
  }

  ghost predicate UsageFits(calls: seq<LlmCall>) {
    && |calls| <= U32_MAX
    && E.Total(seq(|calls|, i requires 0 <= i < |calls| => calls[i].input)) <= U64_MAX
    && E.Total(seq(|calls|, i requires 0 <= i < |calls| => calls[i].output)) <= U64_MAX
    && E.Total(seq(|calls|, i requires 0 <= i < |calls| => calls[i].total)) <= U64_MAX
  }

  ghost predicate TimedFits(upserts: seq<TimedUpsert>) {
    forall i :: 0 <= i < |upserts| ==>
      upserts[i].kind != Memory && TurnFits(upserts[i].timed.sticky) && TurnFits(upserts[i].timed.cooldown)
  }

  ghost predicate NarrativeFits(n: N.Narrative, c: Commit) {
    n.graphRevision == c.expectedGraphRevision && TransitionsFit(n, c.resolution.transitions)
  }

  /**
   In every reachable story a commit with a new key is accepted exactly if it is for the next revision and turn and
   its roles, relationships, node transitions, mutations, timed state, events and usage fit what is stored.
   */
  lemma CommitIsAcceptedIff(s: Story, c: Commit)
    requires Numbered(s) && Consistent(s)
    ensures Acceptable(s, c) <==>
            && c.baseRevision == s.revision && c.turnNumber == s.lastTurn + 1
            && RolesFit(s.roles, c.newRoles, c.roleChanges)
            && (forall i :: 0 <= i < |c.relationshipOps| ==> RelationshipFits(s.relationships, c.relationshipOps, i))
            && NarrativeFits(s.narrative, c)
            && MutationsFit(s.rows, c.mutations) && TimedFits(c.delta.upserts)
            && (forall i :: 0 <= i < |c.eventTurns| ==> c.eventTurns[i] == c.turnNumber)
            && UsageFits(c.calls)
  {
    InsertsNeverCollide(s);
    RolesFitIff(s.roles, c.newRoles, c.roleChanges);
    ChangeRelationshipsIff(s.relationships, c.relationshipOps);
    TransitionsFitIff(s.narrative, c.resolution.transitions, c.turnNumber);
    MutationsFitIff(s.rows, c.mutations);
    UsageFitsIff(c.calls);
    TimedFitsIff(s.timed - c.delta.deletes, c.delta.upserts);
  }

  lemma UsageFitsIff(calls: seq<LlmCall>)
    ensures Representable(SumCalls(calls)) <==> UsageFits(calls)
  {
    E.UsageIsTotal(calls);
  }

  lemma TimedFitsIff(timed: map<string, Timed>, upserts: seq<TimedUpsert>)
    ensures UpsertTimed(timed, upserts).Ok? <==> TimedFits(upserts)
  {
    UpsertsTakeEffect(timed, upserts);
    forall u: TimedUpsert
      ensures UpsertFits(u) <==> u.kind != Memory && TurnFits(u.timed.sticky) && TurnFits(u.timed.cooldown)
    {
    }
  }
}
