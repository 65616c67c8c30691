/** What creating a story and committing a turn write, field by field. */
module CommitEffects {
  import opened Wrappers
  import opened StoryCommits
  import opened StoryCommitRuns

  // ---------------------------------------------------------------- roles

  /** The state of the last change of a role. */
  function LastState(changes: seq<RoleChange>, id: string): Option<string> {
    if changes == [] then None
    else if changes[|changes| - 1].id == id then Some(changes[|changes| - 1].newState)
    else LastState(changes[..|changes| - 1], id)
  }

  /** The role before any change: stored already, or one of the new ones. */
  ghost predicate IsRole(roles: map<string, Role>, added: seq<Role>, id: string, role: Role) {
    if id in roles then role == roles[id] else role.id == id && role in added
  }

  ghost predicate RolesWritten(before: map<string, Role>, added: seq<Role>, changes: seq<RoleChange>,
                               after: map<string, Role>)
  {
    && (forall id :: id in after <==> id in before || exists i :: 0 <= i < |added| && added[i].id == id)
    && (forall id :: id in after ==> RoleWritten(before, added, changes, id, after[id]))
  }

  /** The role keeps its id and profile, and has the state of its last change if there is one. */
  ghost predicate RoleWritten(before: map<string, Role>, added: seq<Role>, changes: seq<RoleChange>, id: string,
                              r: Role)
  {
    exists base :: IsRole(before, added, id, base) && r.id == base.id && r.profile == base.profile &&
                   r.state == if LastState(changes, id).Some? then LastState(changes, id).value else base.state
  }

  lemma {:induction false} AddedRoles(roles: map<string, Role>, added: seq<Role>)
    requires AddRoles(roles, added).Ok?
    ensures var all := AddRoles(roles, added).value;
            && (forall id :: id in all <==> id in roles || exists i :: 0 <= i < |added| && added[i].id == id)
            && (forall id :: id in all ==> IsRole(roles, added, id, all[id]))
    decreases |added|
  {
    if added != [] {
      var next, rest := roles[added[0].id := added[0]], added[1..];
      AddedRoles(next, rest);
      var all := AddRoles(roles, added).value;
      forall id ensures id in all <==> id in roles || exists i :: 0 <= i < |added| && added[i].id == id {
        if i :| 0 <= i < |added| && added[i].id == id {
          assert i > 0 ==> rest[i - 1].id == id;
        }
        if i :| 0 <= i < |rest| && rest[i].id == id {
          assert added[i + 1].id == id;
        }
      }
      forall id | id in all ensures IsRole(roles, added, id, all[id]) {
        assert IsRole(next, rest, id, all[id]);
      }
    }
  }

  lemma {:induction false} FirstChange(changes: seq<RoleChange>, id: string)
    requires changes != []
    ensures LastState(changes, id) ==
            if LastState(changes[1..], id).Some? then LastState(changes[1..], id)
            else if changes[0].id == id then Some(changes[0].newState) else None
  {
    if |changes| > 1 {
      var init := changes[..|changes| - 1];
      FirstChange(init, id);
      assert init[1..] == changes[1..][..|changes| - 2];
    }
  }

  lemma {:induction false} ChangedRoles(roles: map<string, Role>, changes: seq<RoleChange>)
    requires ChangeRoles(roles, changes).Ok?
    ensures var all := ChangeRoles(roles, changes).value;
            && all.Keys == roles.Keys
            && forall id :: id in all ==>
                 && all[id].id == roles[id].id && all[id].profile == roles[id].profile
                 && all[id].state ==
                    (if LastState(changes, id).Some? then LastState(changes, id).value else roles[id].state)
    decreases |changes|
  {
    if changes != [] {
      var id0 := changes[0].id;
      ChangedRoles(roles[id0 := roles[id0].(state := changes[0].newState)], changes[1..]);
      forall id ensures LastState(changes, id) ==
                        if LastState(changes[1..], id).Some? then LastState(changes[1..], id)
                        else if changes[0].id == id then Some(changes[0].newState) else None
      {
        FirstChange(changes, id);
      }
    }
  }

  lemma RolesAreWritten(roles: map<string, Role>, added: seq<Role>, changes: seq<RoleChange>)
    requires AddThenChange(roles, added, changes).Ok?
    ensures RolesWritten(roles, added, changes, AddThenChange(roles, added, changes).value)
  {
    AddedRoles(roles, added);
    ChangedRoles(AddRoles(roles, added).value, changes);
    var all, after := AddRoles(roles, added).value, AddThenChange(roles, added, changes).value;
    forall id | id in after ensures RoleWritten(roles, added, changes, id, after[id]) {
      assert IsRole(roles, added, id, all[id]);
    }
  }

  // ---------------------------------------------------------------- relationships

  /** The value last given to a relationship. */
  function LastRelationship(ops: seq<RelationshipOp>, key: (string, string)): Option<Relationship> {
    if ops == [] then None
    else
      var state := ops[|ops| - 1].state;
      if (state.from, state.to) == key then Some(state) else LastRelationship(ops[..|ops| - 1], key)
  }

  function RelationshipAt(rs: map<(string, string), Relationship>, key: (string, string)): Option<Relationship> {
    if key in rs then Some(rs[key]) else None
  }

  lemma {:induction false} FirstRelationship(ops: seq<RelationshipOp>, key: (string, string))
    requires ops != []
    ensures LastRelationship(ops, key) ==
            if LastRelationship(ops[1..], key).Some? then LastRelationship(ops[1..], key)
            else if (ops[0].state.from, ops[0].state.to) == key then Some(ops[0].state) else None
  {
    if |ops| > 1 {
      var init := ops[..|ops| - 1];
      FirstRelationship(init, key);
      assert init[1..] == ops[1..][..|ops| - 2];
    }
  }

  lemma {:induction false} RelationshipsAreWritten(rs: map<(string, string), Relationship>, ops: seq<RelationshipOp>,
                                                   key: (string, string))
    requires ChangeRelationships(rs, ops).Ok?
    ensures RelationshipAt(ChangeRelationships(rs, ops).value, key) ==
            if LastRelationship(ops, key).Some? then LastRelationship(ops, key) else RelationshipAt(rs, key)
    decreases |ops|
  {
    if ops != [] {
      var state := ops[0].state;
      FirstRelationship(ops, key);
      RelationshipsAreWritten(rs[state.Key() := state], ops[1..], key);
    }
  }

  // ---------------------------------------------------------------- usage

  function Total(xs: seq<nat>): nat {
    if xs == [] then 0 else Total(xs[..|xs| - 1]) + xs[|xs| - 1]
  }

  /** Usage counts the calls and adds up each of their figures on its own. */
  lemma {:induction false} UsageIsTotal(calls: seq<LlmCall>)
    ensures var u := SumCalls(calls);
            && u.calls == |calls|
            && u.input == Total(seq(|calls|, i requires 0 <= i < |calls| => calls[i].input))
            && u.output == Total(seq(|calls|, i requires 0 <= i < |calls| => calls[i].output))
            && u.total == Total(seq(|calls|, i requires 0 <= i < |calls| => calls[i].total))
  {
    if calls != [] {
      var n := |calls| - 1;
      var init := calls[..n];
      UsageIsTotal(init);
      assert seq(|calls|, i requires 0 <= i < |calls| => calls[i].input)[..n] ==
             seq(n, i requires 0 <= i < n => init[i].input);
      assert seq(|calls|, i requires 0 <= i < |calls| => calls[i].output)[..n] ==
             seq(n, i requires 0 <= i < n => init[i].output);
      assert seq(|calls|, i requires 0 <= i < |calls| => calls[i].total)[..n] ==
             seq(n, i requires 0 <= i < n => init[i].total);
    }
  }

  // ---------------------------------------------------------------- timed state

  /** A timed state is kept exactly if it is upserted, or was there and is not deleted, and its entry backs it. */
  lemma TimedIsWritten(s: Story, c: Commit, id: string)
    requires IsNew(s, c) && Acceptable(s, c)
    ensures var last := LastUpsert(c.delta.upserts, id);
            var kept := if last.Some? then last
                        else if id in s.timed && id !in c.delta.deletes then Some(s.timed[id]) else None;
            TimedOf(After(s, c).timed, id) ==
            if kept.Some? && Backed(After(s, c).rows, id, kept.value) then kept else None
  {
    UpsertsTakeEffect(s.timed - c.delta.deletes, c.delta.upserts);
  }

  // ---------------------------------------------------------------- effects waiting in the narrative

  function LastEffect(effects: seq<N.Effect>, id: string): Option<string> {
    if effects == [] then None
    else if effects[|effects| - 1].id == id then Some(effects[|effects| - 1].definition)
    else LastEffect(effects[..|effects| - 1], id)
  }

  lemma {:induction false} PendingIsWritten(effects: seq<N.Effect>, id: string)
    ensures id in N.PendingOf(effects) <==> LastEffect(effects, id).Some?
    ensures id in N.PendingOf(effects) ==> N.PendingOf(effects)[id] == LastEffect(effects, id).value
  {
    if effects != [] {
      PendingIsWritten(effects[..|effects| - 1], id);
    }
  }

  // ---------------------------------------------------------------- the whole commit

  /** Whether a mutation is about a fact or a rumor. */
  predicate AboutFactOrRumor(m: K.Mutation) {
    match m
    case Add(e) => e.FactEntry? || e.RumorEntry?
    case Update(_, value) => value.FactEntry? || value.RumorEntry?
    case Delete(d) => d.DeletableRumor?
  }

  /** The turn's row as the commit asks for it. */
  predicate TurnWritten(row: TurnRow, c: Commit, sequence: nat) {
    && row.number == c.turnNumber && row.key == c.key && row.digest == c.digest && row.sequence == sequence
    && row.baseRevision == c.baseRevision && row.committedRevision == c.baseRevision + 1
    && row.result.number == c.turnNumber && row.result.revision == c.baseRevision + 1 && row.result.text == c.text
    && row.result.usage == SumCalls(c.calls)
  }

  /** An accepted commit writes exactly this. */
  lemma CommitIsWritten(s: Story, c: Commit)
    requires Numbered(s) && IsNew(s, c) && Acceptable(s, c)
    ensures var t := After(s, c);
            && t.revision == c.baseRevision + 1 == s.revision + 1 && t.lastTurn == c.turnNumber == s.lastTurn + 1
            && t.constraints == (if c.constraints.Some? then c.constraints.value else s.constraints)
            && |t.turns| == |s.turns| + 1 && t.turns[..|s.turns|] == s.turns
            && TurnWritten(t.turns[|s.turns|], c, |s.segments| + 1)
            && t.segments == s.segments + [Segment(|s.segments| + 1, Some(c.turnNumber), c.text)]
  {
    SequencesEnd(s.segments);
  }

  lemma CommitWritesRoles(s: Story, c: Commit)
    requires IsNew(s, c) && Acceptable(s, c)
    ensures RolesWritten(s.roles, c.newRoles, c.roleChanges, After(s, c).roles)
  {
    RolesAreWritten(s.roles, c.newRoles, c.roleChanges);
  }

  /** The overlay version is raised, by one, exactly if some mutation is about a fact or a rumor. */
  lemma CommitRaisesOverlay(s: Story, c: Commit)
    requires IsNew(s, c) && Acceptable(s, c)
    ensures var raised := exists i :: 0 <= i < |c.mutations| && AboutFactOrRumor(c.mutations[i]);
            After(s, c).overlay == if raised then s.overlay + 1 else s.overlay
  {
    forall i | 0 <= i < |c.mutations|
      ensures AboutFactOrRumor(c.mutations[i]) <==> K.AffectsActivation(c.mutations[i])
    {
    }
  }

  lemma CommitWritesRelationships(s: Story, c: Commit, key: (string, string))
    requires IsNew(s, c) && Acceptable(s, c)
    ensures RelationshipAt(After(s, c).relationships, key) ==
            if LastRelationship(c.relationshipOps, key).Some? then LastRelationship(c.relationshipOps, key)
            else RelationshipAt(s.relationships, key)
  {
    RelationshipsAreWritten(s.relationships, c.relationshipOps, key);
  }

  lemma CommitWritesNarrative(s: Story, c: Commit, id: string)
    requires IsNew(s, c) && Acceptable(s, c)
    ensures var n := After(s, c).narrative;
            && s.narrative.graphRevision == c.expectedGraphRevision
            && n.graphRevision ==
               (if c.resolution.transitions == [] then s.narrative.graphRevision else c.resolution.nextGraphRevision)
            && (id in n.pending <==> LastEffect(c.resolution.pending, id).Some?)
            && (id in n.pending ==> n.pending[id] == LastEffect(c.resolution.pending, id).value)
  {
    PendingIsWritten(c.resolution.pending, id);
    N.TransitionsKeepRevision(s.narrative, c.resolution.transitions, c.turnNumber);
  }

  /** A new story is what its specification says, with its opening as the first segment. */
  lemma CreationIsWritten(spec: CreateSpec)
    requires Create(spec).Ok?
    ensures var s := Create(spec).value;
            && s.roles == spec.roles && s.relationships == spec.relationships && s.narrative == spec.narrative
            && s.constraints == spec.constraints && s.timed == map[] && s.overlay == 0
            && s.revision == 0 && s.lastTurn == 0 && s.turns == [] && s.segments == [Segment(1, None, spec.opening)]
  {
  }
}
