/**
 Committing a turn to the SQL story store, as one transaction over the rows of one story.

 A commit compares and swaps the revision, is idempotent per key and request digest, assigns the
 next segment sequence, moves narrative nodes, mutates knowledge rows, bumps the activation overlay
 version and reconciles the timed activation state.
 */
module StoryCommits {
  import opened Widths
  import opened Wrappers
  import opened KnowledgeIds
  import K = KnowledgeRows
  import N = NarrativeNodes

  datatype StoreError =
    | NotFound
    | RevisionConflict
    | IdempotencyConflict
    | ConstraintViolation(constraint: string)
    | LimitExceeded(limit: string)
    | Knowledge(rowError: K.RowError)

  datatype Role = Role(id: string, profile: string, state: string)

  datatype RoleChange = RoleChange(id: string, newState: string)

  datatype Relationship = Relationship(from: string, to: string, bond: string)
  {
    function Key(): (string, string) {
      (from, to)
    }
  }

  datatype RelationshipOp =
    | AddRelationship(state: Relationship)
    | UpdateRelationship(key: (string, string), state: Relationship)

  datatype Timed = Timed(ruleVersion: string, sticky: Option<nat>, cooldown: Option<nat>)

  datatype TimedUpsert = TimedUpsert(kind: Kind, id: string, timed: Timed)

  datatype TimedDelta = TimedDelta(deletes: set<string>, upserts: seq<TimedUpsert>)

  datatype LlmCall = LlmCall(input: nat, output: nat, total: nat)

  datatype Usage = Usage(calls: nat, input: nat, output: nat, total: nat)

  datatype TurnResult = TurnResult(number: nat, revision: nat, text: string, usage: Usage)

  datatype TurnRow = TurnRow(
    number: nat, key: string, digest: string, baseRevision: nat, committedRevision: nat, sequence: nat,
    result: TurnResult)

  datatype Segment = Segment(sequence: nat, turn: Option<nat>, text: string)

  datatype Story = Story(
    revision: nat, lastTurn: nat,
    roles: map<string, Role>, relationships: map<(string, string), Relationship>, narrative: N.Narrative,
    rows: K.Rows, timed: map<string, Timed>, overlay: nat, constraints: string,
    turns: seq<TurnRow>, segments: seq<Segment>)

  datatype Commit = Commit(
    key: string, digest: string, baseRevision: nat, turnNumber: nat, text: string,
    newRoles: seq<Role>, roleChanges: seq<RoleChange>, relationshipOps: seq<RelationshipOp>,
    expectedGraphRevision: nat, resolution: N.Resolution,
    mutations: seq<K.Mutation>, delta: TimedDelta, eventTurns: seq<nat>, constraints: Option<string>,
    calls: seq<LlmCall>)

  datatype CreateSpec = CreateSpec(
    roles: map<string, Role>, relationships: map<(string, string), Relationship>, narrative: N.Narrative,
    knowledge: seq<K.Entry>, opening: string, constraints: string)

  // ---------------------------------------------------------------- the parts of a commit

  function AddRoles(roles: map<string, Role>, added: seq<Role>): Result<map<string, Role>, StoreError>
    decreases |added|
  {
    if added == [] then Ok(roles)
    else if added[0].id in roles then Err(ConstraintViolation("new_role_id_collision"))
    else AddRoles(roles[added[0].id := added[0]], added[1..])
  }

  function ChangeRoles(roles: map<string, Role>, changes: seq<RoleChange>): Result<map<string, Role>, StoreError>
    decreases |changes|
  {
    if changes == [] then Ok(roles)
    else if changes[0].id !in roles then Err(ConstraintViolation("role_change_reference"))
    else ChangeRoles(roles[changes[0].id := roles[changes[0].id].(state := changes[0].newState)], changes[1..])
  }

  function ChangeRelationships(rs: map<(string, string), Relationship>, ops: seq<RelationshipOp>)
    : Result<map<(string, string), Relationship>, StoreError>
    decreases |ops|
  {
    if ops == [] then Ok(rs)
    else match ops[0]
      case AddRelationship(state) =>
        if state.Key() in rs then Err(ConstraintViolation("relationship_add_collision"))
        else ChangeRelationships(rs[state.Key() := state], ops[1..])
      case UpdateRelationship(key, state) =>
        if key !in rs || key != state.Key() then Err(ConstraintViolation("relationship_change_reference"))
        else ChangeRelationships(rs[key := state], ops[1..])
  }

  predicate BeyondI64(turn: Option<nat>) {
    turn.Some? && turn.value > I64_MAX
  }

  function UpsertTimed(timed: map<string, Timed>, upserts: seq<TimedUpsert>): Result<map<string, Timed>, StoreError>
    decreases |upserts|
  {
    if upserts == [] then Ok(timed)
    else
      var u := upserts[0];
      if u.kind.Memory? then Err(ConstraintViolation("activation_timed_state_memory"))
      else if BeyondI64(u.timed.sticky) then Err(LimitExceeded("activation_sticky_turn"))
      else if BeyondI64(u.timed.cooldown) then Err(LimitExceeded("activation_cooldown_turn"))
      else UpsertTimed(timed[u.id := u.timed], upserts[1..])
  }

  predicate UpsertFits(u: TimedUpsert) {
    !u.kind.Memory? && !BeyondI64(u.timed.sticky) && !BeyondI64(u.timed.cooldown)
  }

  /** The last upsert of an id. */
  function LastUpsert(upserts: seq<TimedUpsert>, id: string): Option<Timed> {
    if upserts == [] then None
    else if LastUpsert(upserts[1..], id).Some? then LastUpsert(upserts[1..], id)
    else if upserts[0].id == id then Some(upserts[0].timed)
    else None
  }

  function TimedOf(timed: map<string, Timed>, id: string): Option<Timed> {
    if id in timed then Some(timed[id]) else None
  }

  /** Upserts succeed exactly when all fit; then each id has its last upsert, and every other id what it had. */
  lemma {:induction false} UpsertsTakeEffect(timed: map<string, Timed>, upserts: seq<TimedUpsert>)
    ensures UpsertTimed(timed, upserts).Ok? <==> forall i :: 0 <= i < |upserts| ==> UpsertFits(upserts[i])
    ensures UpsertTimed(timed, upserts).Ok? ==>
      (forall id :: TimedOf(UpsertTimed(timed, upserts).value, id) ==
                    if LastUpsert(upserts, id).Some? then LastUpsert(upserts, id) else TimedOf(timed, id))
    decreases |upserts|
  {
    if upserts != [] {
      UpsertsTakeEffect(timed[upserts[0].id := upserts[0].timed], upserts[1..]);
      assert forall i :: 0 <= i < |upserts| - 1 ==> upserts[1..][i] == upserts[i + 1];
      assert (forall i :: 0 <= i < |upserts| ==> UpsertFits(upserts[i])) <==>
             UpsertFits(upserts[0]) && forall i :: 0 <= i < |upserts| - 1 ==> UpsertFits(upserts[1..][i]);
    }
  }

  /** The knowledge row a timed state refers to is there, is no memory, and carries the same rule version. */
  predicate Backed(rows: K.Rows, id: string, timed: Timed) {
    exists key :: key in rows && key.id == id && !key.kind.Memory? && rows[key].ruleVersion == Some(timed.ruleVersion)
  }

  function Reconcile(timed: map<string, Timed>, rows: K.Rows): map<string, Timed> {
    map id | id in timed && Backed(rows, id, timed[id]) :: timed[id]
  }

  function MaxSequence(segments: seq<Segment>): nat {
    if segments == [] then 0
    else
      var m, last := MaxSequence(segments[..|segments| - 1]), segments[|segments| - 1].sequence;
      if last > m then last else m
  }

  function FindTurn(turns: seq<TurnRow>, key: string): Option<TurnRow> {
    if turns == [] then None
    else if turns[|turns| - 1].key == key then Some(turns[|turns| - 1])
    else FindTurn(turns[..|turns| - 1], key)
  }

  function SumCalls(calls: seq<LlmCall>): Usage {
    if calls == [] then Usage(0, 0, 0, 0)
    else
      var u, c := SumCalls(calls[..|calls| - 1]), calls[|calls| - 1];
      Usage(u.calls + 1, u.input + c.input, u.output + c.output, u.total + c.total)
  }

  predicate Representable(u: Usage) {
    u.calls <= U32_MAX && u.input <= U64_MAX && u.output <= U64_MAX && u.total <= U64_MAX
  }

  lemma {:induction false} SumsGrow(calls: seq<LlmCall>, i: nat)
    requires i <= |calls|
    ensures var part, whole := SumCalls(calls[..i]), SumCalls(calls);
            && part.calls <= whole.calls && part.input <= whole.input
            && part.output <= whole.output && part.total <= whole.total
  {
    if i == |calls| {
      assert calls[..i] == calls;
    } else {
      assert calls[..|calls| - 1][..i] == calls[..i];
      SumsGrow(calls[..|calls| - 1], i);
    }
  }

  /** Adds up the calls, failing exactly when a total does not fit its width. */
  method AggregateLlmUsage(calls: seq<LlmCall>) returns (r: Result<Usage, StoreError>)
    ensures r.Ok? <==> Representable(SumCalls(calls))
    ensures r.Ok? ==> r.value == SumCalls(calls)
  {
    var u := Usage(0, 0, 0, 0);
    for i := 0 to |calls|
      invariant u == SumCalls(calls[..i]) && Representable(u)
    {
      assert calls[..i + 1][..i] == calls[..i];
      SumsGrow(calls, i + 1);
      if u.calls + 1 > U32_MAX { return Err(LimitExceeded("llm_calls")); }
      u := u.(calls := u.calls + 1);
      if u.input + calls[i].input > U64_MAX { return Err(LimitExceeded("llm_input_tokens")); }
      u := u.(input := u.input + calls[i].input);
      if u.output + calls[i].output > U64_MAX { return Err(LimitExceeded("llm_output_tokens")); }
      u := u.(output := u.output + calls[i].output);
      if u.total + calls[i].total > U64_MAX { return Err(LimitExceeded("llm_total_tokens")); }
      u := u.(total := u.total + calls[i].total);
    }
    assert calls[..|calls|] == calls;
    r := Ok(u);
  }

  /** The unique constraints on turns and segments. */
  ghost predicate InsertsCollide(s: Story, number: nat, sequence: nat) {
    || (exists i :: 0 <= i < |s.turns| && (s.turns[i].number == number || s.turns[i].sequence == sequence))
    || (exists i :: 0 <= i < |s.segments| && (s.segments[i].sequence == sequence || s.segments[i].turn == Some(number)))
  }

  // ---------------------------------------------------------------- one commit

  /** What the transaction demands of a commit whose key is new. */
  ghost predicate Acceptable(s: Story, c: Commit) {
    && s.revision == c.baseRevision
    && s.lastTurn + 1 == c.turnNumber
    && RolesAfter(s, c).Ok?
    && ChangeRelationships(s.relationships, c.relationshipOps).Ok?
    && N.Resolve(s.narrative, c.resolution, c.expectedGraphRevision, c.turnNumber).Some?
    && Representable(SumCalls(c.calls))
    && !InsertsCollide(s, c.turnNumber, MaxSequence(s.segments) + 1)
    && EventsRefer(c)
    && K.ApplyMutations(s.rows, c.mutations).Ok?
    && TimedAfter(s, c).Ok?
  }

  /** Every event is of the committed turn. */
  ghost predicate EventsRefer(c: Commit) {
    forall i :: 0 <= i < |c.eventTurns| ==> c.eventTurns[i] == c.turnNumber
  }

  function RolesAfter(s: Story, c: Commit): Result<map<string, Role>, StoreError> {
    AddThenChange(s.roles, c.newRoles, c.roleChanges)
  }

  /** New roles first, then the changes, which may concern them. */
  function AddThenChange(roles: map<string, Role>, added: seq<Role>, changes: seq<RoleChange>)
    : Result<map<string, Role>, StoreError>
  {
    var all := AddRoles(roles, added);
    if all.Err? then all else ChangeRoles(all.value, changes)
  }

  function TimedAfter(s: Story, c: Commit): Result<map<string, Timed>, StoreError> {
    UpsertTimed(s.timed - c.delta.deletes, c.delta.upserts)
  }

  predicate AffectsActivation(ms: seq<K.Mutation>) {
    exists i :: 0 <= i < |ms| && K.AffectsActivation(ms[i])
  }

  function ResultOf(s: Story, c: Commit): TurnResult {
    TurnResult(c.turnNumber, s.revision + 1, c.text, SumCalls(c.calls))
  }

  /** The rows of the story after an accepted commit. */
  function Committed(s: Story, c: Commit): Story
    requires RolesAfter(s, c).Ok? && ChangeRelationships(s.relationships, c.relationshipOps).Ok?
    requires N.Resolve(s.narrative, c.resolution, c.expectedGraphRevision, c.turnNumber).Some?
    requires K.ApplyMutations(s.rows, c.mutations).Ok? && TimedAfter(s, c).Ok?
  {
    var sequence := MaxSequence(s.segments) + 1;
    var rows := K.ApplyMutations(s.rows, c.mutations).value;
    Story(
      s.revision + 1, c.turnNumber,
      RolesAfter(s, c).value, ChangeRelationships(s.relationships, c.relationshipOps).value,
      N.Resolve(s.narrative, c.resolution, c.expectedGraphRevision, c.turnNumber).value,
      rows, Reconcile(TimedAfter(s, c).value, rows),
      if AffectsActivation(c.mutations) then s.overlay + 1 else s.overlay,
      if c.constraints.Some? then c.constraints.value else s.constraints,
      s.turns + [TurnRow(c.turnNumber, c.key, c.digest, c.baseRevision, s.revision + 1, sequence, ResultOf(s, c))],
      s.segments + [Segment(sequence, Some(c.turnNumber), c.text)])
  }

  predicate IsNew(s: Story, c: Commit) {
    FindTurn(s.turns, c.key).None?
  }

  /** A known key replays its result or conflicts; a new commit is stored whole or not at all. */
  ghost function After(s: Story, c: Commit): Story {
    if IsNew(s, c) && Acceptable(s, c) then Committed(s, c) else s
  }

  class Store {
    var stories: map<string, Story>

    constructor ()
      ensures stories == map[]
    {
      stories := map[];
    }

    method CommitTurn(id: string, c: Commit) returns (r: Result<TurnResult, StoreError>)
      modifies this
      ensures id !in old(stories) ==> r == Err(NotFound) && stories == old(stories)
      ensures id in old(stories) ==>
                var s := old(stories)[id];
                && stories == old(stories)[id := After(s, c)]
                && match FindTurn(s.turns, c.key)
                   case Some(row) => r == if row.digest == c.digest then Ok(row.result) else Err(IdempotencyConflict)
                   case None => (r.Ok? <==> Acceptable(s, c)) && (r.Ok? ==> r.value == ResultOf(s, c))
    {
      if id !in stories { return Err(NotFound); }
      var s := stories[id];
      assert stories == stories[id := s];
      var existing := FindTurn(s.turns, c.key);
      if existing.Some? {
        return if existing.value.digest == c.digest then Ok(existing.value.result) else Err(IdempotencyConflict);
      }
      var next := Transact(s, c);
      if next.Err? { return Err(next.error); }
      stories := stories[id := next.value];
      r := Ok(ResultOf(s, c));
    }
  }

  /** The transaction body: every check in order, the changed rows only at the end. */
  method Transact(s: Story, c: Commit) returns (r: Result<Story, StoreError>)
    ensures r.Ok? <==> Acceptable(s, c)
    ensures r.Ok? ==> r.value == Committed(s, c)
    ensures s.revision != c.baseRevision ==> r == Err(RevisionConflict)
  {
    if s.revision != c.baseRevision { return Err(RevisionConflict); }
    if s.lastTurn + 1 != c.turnNumber { return Err(RevisionConflict); }
    var sequence := MaxSequence(s.segments) + 1;
    var roles :- UpdateRoles(s.roles, c.newRoles, c.roleChanges);
    var relationships :- UpdateRelationships(s.relationships, c.relationshipOps);
    var narrative := N.ResolveNarrative(s.narrative, c.resolution, c.expectedGraphRevision, c.turnNumber);
    if narrative.None? { return Err(RevisionConflict); }
    var usage :- AggregateLlmUsage(c.calls);
    var result := TurnResult(c.turnNumber, s.revision + 1, c.text, usage);
    var inserted :- CheckInserts(s, c, sequence);
    var rows := K.MutateRows(s.rows, c.mutations);
    if rows.Err? { return Err(Knowledge(rows.error)); }
    var overlay := if AffectsActivation(c.mutations) then s.overlay + 1 else s.overlay;
    var timed :- UpdateTimed(s.timed - c.delta.deletes, c.delta.upserts);
    r := Ok(Story(s.revision + 1, c.turnNumber, roles, relationships, narrative.value, rows.value,
                  Reconcile(timed, rows.value), overlay,
                  if c.constraints.Some? then c.constraints.value else s.constraints,
                  s.turns + [TurnRow(c.turnNumber, c.key, c.digest, c.baseRevision, s.revision + 1, sequence, result)],
                  s.segments + [Segment(sequence, Some(c.turnNumber), c.text)]));
  }

  /** The loops over new roles and role changes. */
  method UpdateRoles(roles: map<string, Role>, added: seq<Role>, changes: seq<RoleChange>)
    returns (r: Result<map<string, Role>, StoreError>)
    ensures r == AddThenChange(roles, added, changes)
  {
    var all := roles;
    for i := 0 to |added|
      invariant AddRoles(all, added[i..]) == AddRoles(roles, added)
    {
      if added[i].id in all { return Err(ConstraintViolation("new_role_id_collision")); }
      all := all[added[i].id := added[i]];
    }
    var current := all;
    for i := 0 to |changes|
      invariant ChangeRoles(current, changes[i..]) == ChangeRoles(all, changes)
    {
      var id := changes[i].id;
      if id !in current { return Err(ConstraintViolation("role_change_reference")); }
      current := current[id := current[id].(state := changes[i].newState)];
    }
    r := Ok(current);
  }

  method UpdateRelationships(rs: map<(string, string), Relationship>, ops: seq<RelationshipOp>)
    returns (r: Result<map<(string, string), Relationship>, StoreError>)
    ensures r == ChangeRelationships(rs, ops)
  {
    var current := rs;
    for i := 0 to |ops|
      invariant ChangeRelationships(current, ops[i..]) == ChangeRelationships(rs, ops)
    {
      match ops[i] {
        case AddRelationship(state) =>
          if state.Key() in current { return Err(ConstraintViolation("relationship_add_collision")); }
          current := current[state.Key() := state];
        case UpdateRelationship(key, state) =>
          if key !in current || key != state.Key() { return Err(ConstraintViolation("relationship_change_reference")); }
          current := current[key := state];
      }
    }
    r := Ok(current);
  }

  method UpdateTimed(timed: map<string, Timed>, upserts: seq<TimedUpsert>)
    returns (r: Result<map<string, Timed>, StoreError>)
    ensures r == UpsertTimed(timed, upserts)
  {
    var current := timed;
    for i := 0 to |upserts|
      invariant UpsertTimed(current, upserts[i..]) == UpsertTimed(timed, upserts)
    {
      var u := upserts[i];
      if u.kind.Memory? { return Err(ConstraintViolation("activation_timed_state_memory")); }
      if BeyondI64(u.timed.sticky) { return Err(LimitExceeded("activation_sticky_turn")); }
      if BeyondI64(u.timed.cooldown) { return Err(LimitExceeded("activation_cooldown_turn")); }
      current := current[u.id := u.timed];
    }
    r := Ok(current);
  }

  /** The turn, its segment and its events can be inserted. */
  method CheckInserts(s: Story, c: Commit, sequence: nat) returns (r: Result<(), StoreError>)
    ensures r.Ok? <==> !InsertsCollide(s, c.turnNumber, sequence) && EventsRefer(c)
  {
    var collide := Collides(s, c.turnNumber, sequence);
    if collide { return Err(ConstraintViolation("unique")); }
    if exists i :: 0 <= i < |c.eventTurns| && c.eventTurns[i] != c.turnNumber {
      return Err(ConstraintViolation("event_turn_reference"));
    }
    r := Ok(());
  }

  method Collides(s: Story, number: nat, sequence: nat) returns (b: bool)
    ensures b <==> InsertsCollide(s, number, sequence)
  {
    var turns := exists i :: 0 <= i < |s.turns| && (s.turns[i].number == number || s.turns[i].sequence == sequence);
    var segments := exists i :: 0 <= i < |s.segments| &&
                                (s.segments[i].sequence == sequence || s.segments[i].turn == Some(number));
    b := turns || segments;
  }

  // ---------------------------------------------------------------- creation and runs

  function Additions(entries: seq<K.Entry>): (ms: seq<K.Mutation>) {
    seq(|entries|, i requires 0 <= i < |entries| => K.Add(entries[i]))
  }

  function Create(spec: CreateSpec): Result<Story, StoreError> {
    var rows := K.ApplyMutations(map[], Additions(spec.knowledge));
    if rows.Err? then Err(Knowledge(rows.error))
    else Ok(Story(0, 0, spec.roles, spec.relationships, spec.narrative, rows.value, map[], 0, spec.constraints,
                  [], [Segment(1, None, spec.opening)]))
  }

  /** The story after a sequence of commit attempts. */
  ghost function RunOf(s: Story, cs: seq<Commit>): Story {
    if cs == [] then s else After(RunOf(s, cs[..|cs| - 1]), cs[|cs| - 1])
  }

  /** Whether attempt `i` of a run is stored as a new turn. */
  ghost predicate Stored(s: Story, cs: seq<Commit>, i: nat)
    requires i < |cs|
  {
    var before := RunOf(s, cs[..i]);
    IsNew(before, cs[i]) && Acceptable(before, cs[i])
  }
}
