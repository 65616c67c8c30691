/** What commits do to a story, field by field: after one commit, and over whole runs. */
module StoryEffects {
  import opened Wrappers
  import opened StoryKnowledge
  import opened StoryStore

  // ---------------------------------------------------------------- one operation, one table

  /** What an operation of turn `turn` makes of the entry it finds. */
  ghost predicate OpEffect(found: Option<Entry>, turn: nat, op: Op, left: Option<Entry>) {
    match op
    case Add(id, body) =>
      left.Some? && left.value.id == id && left.value.body == body && left.value.origin == FromTurn(turn)
    case Update(_, body) =>
      && found.Some? && left.Some? && left.value.body == body
      && left.value.id == found.value.id && left.value.origin == found.value.origin
    case Remove(_) => left.None?
  }

  predicate TouchedBy(ops: seq<Op>, id: Id) {
    exists i :: 0 <= i < |ops| && ops[i].id == id
  }

  /** Every operation has its effect, and nothing else changes. */
  ghost predicate TableEffect(before: Table, turn: nat, ops: seq<Op>, after: Table) {
    && (forall i :: 0 <= i < |ops| ==> OpEffect(Get(before, ops[i].id), turn, ops[i], Get(after, ops[i].id)))
    && (forall id :: !TouchedBy(ops, id) ==> Get(after, id) == Get(before, id))
  }

  lemma ApplyHasEffect(table: Table, turn: nat, ops: seq<Op>)
    requires Fits(table, ops)
    ensures TableEffect(table, turn, ops, ApplyOps(table, turn, ops))
  {
    EveryOpTakesEffect(table, turn, ops);
    forall i | 0 <= i < |ops|
      ensures OpEffect(Get(table, ops[i].id), turn, ops[i], Get(ApplyOps(table, turn, ops), ops[i].id))
    {
      assert Applies(table, ops[i]);
    }
  }

  predicate MemoryTouchedBy(ops: seq<MemoryOp>, role: Id, id: Id) {
    exists i :: 0 <= i < |ops| && ops[i].role == role && ops[i].op.id == id
  }

  ghost predicate MemoriesEffect(before: Roles, turn: nat, ops: seq<MemoryOp>, after: Roles) {
    && after.Keys == before.Keys && (forall r :: r in before ==> after[r].profile == before[r].profile)
    && (forall i :: 0 <= i < |ops| ==>
          OpEffect(GetMemory(before, ops[i].role, ops[i].op.id), turn, ops[i].op,
                   GetMemory(after, ops[i].role, ops[i].op.id)))
    && (forall r, id :: !MemoryTouchedBy(ops, r, id) ==> GetMemory(after, r, id) == GetMemory(before, r, id))
  }

  lemma ApplyMemoriesHasEffect(roles: Roles, turn: nat, ops: seq<MemoryOp>)
    requires MemoriesFit(roles, ops)
    ensures MemoriesEffect(roles, turn, ops, ApplyMemoryOps(roles, turn, ops))
  {
    EveryMemoryOpTakesEffect(roles, turn, ops);
    var after := ApplyMemoryOps(roles, turn, ops);
    forall i | 0 <= i < |ops|
      ensures OpEffect(GetMemory(roles, ops[i].role, ops[i].op.id), turn, ops[i].op,
                       GetMemory(after, ops[i].role, ops[i].op.id))
    {
      assert MemoryApplies(roles, ops[i]);
    }
  }

  // ---------------------------------------------------------------- one commit

  /** The context after a commit, but for the window of recent turns. */
  ghost predicate CommitEffect(before: Context, commit: StoryCommit, after: Context) {
    var turn := commit.turn;
    && TableEffect(before.facts, turn.number, turn.change.facts, after.facts)
    && TableEffect(before.rumors, turn.number, turn.change.rumors, after.rumors)
    && MemoriesEffect(before.roles, turn.number, turn.change.memories, after.roles)
    && after.turnNumber == turn.number
    && after.summary == (if commit.summary.Replaced? then Some(commit.summary.value) else before.summary)
    && after.narrative == (if commit.narrative.Replaced? then commit.narrative.value else before.narrative)
    && after.lifeCycle == (if commit.lifeCycle.Replaced? then commit.lifeCycle.value else before.lifeCycle)
    && after.storyId == before.storyId && after.packRef == before.packRef
    && after.opening == before.opening && after.player == before.player
  }

  lemma AdvanceHasEffect(c: Context, commit: StoryCommit)
    requires Proper(c, commit)
    ensures CommitEffect(c, commit, Advance(c, commit))
  {
    var turn := commit.turn;
    ApplyHasEffect(c.facts, turn.number, turn.change.facts);
    ApplyHasEffect(c.rumors, turn.number, turn.change.rumors);
    ApplyMemoriesHasEffect(c.roles, turn.number, turn.change.memories);
  }

  /** The effect of an accepted commit on a stored story; any other attempt has none. */
  lemma AttemptHasEffect(s: Stored, commit: StoryCommit, now: int, maxRecent: nat, validRoles: Roles -> bool)
    ensures var later := AfterAttempt(s, commit, now, maxRecent, validRoles);
            if commit.turn.key !in s.committed && Acceptable(s.context, commit, validRoles) then
              && CommitEffect(s.context, commit, later.context)
              && later.committed == s.committed[commit.turn.key := commit]
              && later.info.lifeCycle == later.context.lifeCycle && later.info.updatedAt == now
              && later.info.storyId == s.info.storyId && later.info.playerId == s.info.playerId
              && later.info.createdAt == s.info.createdAt
            else later == s
  {
    if commit.turn.key !in s.committed && Acceptable(s.context, commit, validRoles) {
      AdvanceHasEffect(s.context, commit);
    }
  }

  // ---------------------------------------------------------------- the history of one entry

  datatype Dated = Dated(turn: nat, op: Op)

  /** The operations of one turn on one id. */
  function OnId(turn: nat, ops: seq<Op>, id: Id): seq<Dated> {
    if ops == [] then []
    else
      OnId(turn, ops[..|ops| - 1], id) + if ops[|ops| - 1].id == id then [Dated(turn, ops[|ops| - 1])] else []
  }

  /** The turn of the last addition, or the origin the entry had before them all. */
  function OriginAfter(found: Option<Entry>, history: seq<Dated>): Option<Origin> {
    if history == [] then (if found.Some? then Some(found.value.origin) else None)
    else
      var last := history[|history| - 1];
      match last.op
      case Add(_, _) => Some(FromTurn(last.turn))
      case Update(_, _) => OriginAfter(found, history[..|history| - 1])
      case Remove(_) => None
  }

  /** The entry that a history of operations leaves: gone after a removal, else with the body last written. */
  ghost predicate Left(found: Option<Entry>, history: seq<Dated>, left: Option<Entry>) {
    if history == [] then left == found
    else
      match history[|history| - 1].op
      case Remove(_) => left.None?
      case Add(id, body) => Carries(left, body, OriginAfter(found, history))
      case Update(id, body) => Carries(left, body, OriginAfter(found, history))
  }

  predicate Carries(left: Option<Entry>, body: string, origin: Option<Origin>) {
    left.Some? && left.value.body == body && Some(left.value.origin) == origin
  }

  lemma LeftHasOrigin(found: Option<Entry>, history: seq<Dated>, left: Option<Entry>)
    requires Left(found, history, left)
    ensures OriginAfter(found, history) == if left.Some? then Some(left.value.origin) else None
  {
  }

  lemma OneMoreOp(found: Option<Entry>, history: seq<Dated>, mid: Option<Entry>, turn: nat, op: Op, left: Option<Entry>)
    requires Left(found, history, mid) && OpEffect(mid, turn, op, left)
    ensures Left(found, history + [Dated(turn, op)], left)
  {
    LeftHasOrigin(found, history, mid);
    assert (history + [Dated(turn, op)])[..|history|] == history;
  }

  lemma {:induction false} UntouchedHasNoOps(turn: nat, ops: seq<Op>, id: Id)
    requires !TouchedBy(ops, id)
    ensures OnId(turn, ops, id) == []
  {
    if ops != [] {
      var n := |ops| - 1;
      assert !TouchedBy(ops[..n], id) by {
        forall i | 0 <= i < n ensures ops[..n][i].id != id {
          assert ops[..n][i] == ops[i];
        }
      }
      assert ops[n].id != id;
      UntouchedHasNoOps(turn, ops[..n], id);
    }
  }

  lemma {:induction false} TouchedHasOneOp(turn: nat, ops: seq<Op>, i: nat)
    requires DistinctIds(ops) && i < |ops|
    ensures OnId(turn, ops, ops[i].id) == [Dated(turn, ops[i])]
  {
    var n := |ops| - 1;
    var init := ops[..n];
    assert forall k :: 0 <= k < n ==> init[k] == ops[k];
    if i == n {
      UntouchedHasNoOps(turn, init, ops[n].id);
    } else {
      assert ops[i].id != ops[n].id;
      TouchedHasOneOp(turn, init, i);
    }
  }

  /** A turn takes the entry one step along its history. */
  lemma TurnLeaves(found: Option<Entry>, history: seq<Dated>, before: Table, turn: nat, ops: seq<Op>, after: Table,
                   id: Id)
    requires Left(found, history, Get(before, id)) && DistinctIds(ops) && TableEffect(before, turn, ops, after)
    ensures Left(found, history + OnId(turn, ops, id), Get(after, id))
  {
    if TouchedBy(ops, id) {
      var i :| 0 <= i < |ops| && ops[i].id == id;
      TouchedHasOneOp(turn, ops, i);
      OneMoreOp(found, history, Get(before, id), turn, ops[i], Get(after, id));
    } else {
      UntouchedHasNoOps(turn, ops, id);
      assert history + [] == history;
    }
  }

  // ---------------------------------------------------------------- over the log

  function FactHistory(log: seq<StoryCommit>, id: Id): seq<Dated> {
    if log == [] then []
    else
      var turn := log[|log| - 1].turn;
      FactHistory(log[..|log| - 1], id) + OnId(turn.number, turn.change.facts, id)
  }

  function RumorHistory(log: seq<StoryCommit>, id: Id): seq<Dated> {
    if log == [] then []
    else
      var turn := log[|log| - 1].turn;
      RumorHistory(log[..|log| - 1], id) + OnId(turn.number, turn.change.rumors, id)
  }

  /** The summary, narrative and life cycle last replaced, or those before all commits. */
  function LastSummary(log: seq<StoryCommit>, first: Option<Summary>): Option<Summary> {
    if log == [] then first
    else if log[|log| - 1].summary.Replaced? then Some(log[|log| - 1].summary.value)
    else LastSummary(log[..|log| - 1], first)
  }

  function LastNarrative(log: seq<StoryCommit>, first: string): string {
    if log == [] then first
    else if log[|log| - 1].narrative.Replaced? then log[|log| - 1].narrative.value
    else LastNarrative(log[..|log| - 1], first)
  }

  function LastLifeCycle(log: seq<StoryCommit>, first: LifeCycle): LifeCycle {
    if log == [] then first
    else if log[|log| - 1].lifeCycle.Replaced? then log[|log| - 1].lifeCycle.value
    else LastLifeCycle(log[..|log| - 1], first)
  }

  /** A context is what its log wrote last, entry by entry and field by field. */
  ghost predicate LastWritten(origin: Context, log: seq<StoryCommit>, c: Context) {
    && (forall id :: Left(Get(origin.facts, id), FactHistory(log, id), Get(c.facts, id)))
    && (forall id :: Left(Get(origin.rumors, id), RumorHistory(log, id), Get(c.rumors, id)))
    && c.roles.Keys == origin.roles.Keys
    && (forall r :: r in origin.roles ==> c.roles[r].profile == origin.roles[r].profile)
    && (forall r, id :: Left(GetMemory(origin.roles, r, id), MemoryHistory(log, r, id), GetMemory(c.roles, r, id)))
    && c.turnNumber == origin.turnNumber + |log|
    && c.summary == LastSummary(log, origin.summary)
    && c.narrative == LastNarrative(log, origin.narrative)
    && c.lifeCycle == LastLifeCycle(log, origin.lifeCycle)
    && c.storyId == origin.storyId && c.packRef == origin.packRef
    && c.opening == origin.opening && c.player == origin.player
  }

  // ---------------------------------------------------------------- memories

  /** The operations of one turn on one role's memories. */
  function OfRole(ops: seq<MemoryOp>, role: Id): seq<Op> {
    if ops == [] then []
    else OfRole(ops[..|ops| - 1], role) + if ops[|ops| - 1].role == role then [ops[|ops| - 1].op] else []
  }

  function MemoryHistory(log: seq<StoryCommit>, role: Id, id: Id): seq<Dated> {
    if log == [] then []
    else
      var turn := log[|log| - 1].turn;
      MemoryHistory(log[..|log| - 1], role, id) + OnId(turn.number, OfRole(turn.change.memories, role), id)
  }

  lemma {:induction false} OfRoleLists(ops: seq<MemoryOp>, role: Id, op: Op)
    ensures op in OfRole(ops, role) <==> HasOp(ops, role, op)
  {
    if ops != [] {
      var n := |ops| - 1;
      OfRoleLists(ops[..n], role, op);
      if HasOp(ops, role, op) {
        var i :| 0 <= i < |ops| && ops[i].role == role && ops[i].op == op;
        assert i < n ==> ops[..n][i] == ops[i];
      }
      if HasOp(ops[..n], role, op) {
        var i :| 0 <= i < n && ops[..n][i].role == role && ops[..n][i].op == op;
        assert ops[i] == ops[..n][i];
      }
    }
  }

  predicate HasOp(ops: seq<MemoryOp>, role: Id, op: Op) {
    exists i :: 0 <= i < |ops| && ops[i].role == role && ops[i].op == op
  }

  lemma {:induction false} OfRoleIsDistinct(ops: seq<MemoryOp>, role: Id)
    requires DistinctMemories(ops)
    ensures DistinctIds(OfRole(ops, role))
  {
    if ops != [] {
      var n := |ops| - 1;
      var init := ops[..n];
      assert forall k :: 0 <= k < n ==> init[k] == ops[k];
      OfRoleIsDistinct(init, role);
      if ops[n].role == role {
        var before := OfRole(init, role);
        forall i | 0 <= i < |before| ensures before[i].id != ops[n].op.id {
          OfRoleLists(init, role, before[i]);
          var k :| 0 <= k < |init| && init[k].role == role && init[k].op == before[i];
          assert ops[k].role == ops[n].role;
        }
      }
    }
  }

  /** The memories of one role as a table. */
  function MemoriesOf(roles: Roles, role: Id): Table {
    if role in roles then roles[role].memories else map[]
  }

  lemma RoleEffect(before: Roles, turn: nat, ops: seq<MemoryOp>, after: Roles, role: Id)
    requires MemoriesEffect(before, turn, ops, after)
    ensures TableEffect(MemoriesOf(before, role), turn, OfRole(ops, role), MemoriesOf(after, role))
  {
    var own := OfRole(ops, role);
    forall i | 0 <= i < |own|
      ensures OpEffect(Get(MemoriesOf(before, role), own[i].id), turn, own[i], Get(MemoriesOf(after, role), own[i].id))
    {
      OfRoleLists(ops, role, own[i]);
      var k :| 0 <= k < |ops| && ops[k].role == role && ops[k].op == own[i];
      assert OpEffect(GetMemory(before, ops[k].role, ops[k].op.id), turn, ops[k].op,
                      GetMemory(after, ops[k].role, ops[k].op.id));
    }
    forall id | !TouchedBy(own, id) ensures Get(MemoriesOf(after, role), id) == Get(MemoriesOf(before, role), id) {
      if MemoryTouchedBy(ops, role, id) {
        var k :| 0 <= k < |ops| && ops[k].role == role && ops[k].op.id == id;
        OfRoleLists(ops, role, ops[k].op);
      }
      assert GetMemory(after, role, id) == GetMemory(before, role, id);
    }
  }

  // ---------------------------------------------------------------- whole runs

  lemma CommitIsWritten(origin: Context, log: seq<StoryCommit>, c: Context, commit: StoryCommit, after: Context)
    requires LastWritten(origin, log, c) && Proper(c, commit) && CommitEffect(c, commit, after)
    ensures LastWritten(origin, log + [commit], after)
  {
    var log', turn := log + [commit], commit.turn;
    assert log'[..|log|] == log && log'[|log|] == commit;
    forall id ensures Left(Get(origin.facts, id), FactHistory(log', id), Get(after.facts, id)) {
      TurnLeaves(Get(origin.facts, id), FactHistory(log, id), c.facts, turn.number, turn.change.facts, after.facts, id);
    }
    forall id ensures Left(Get(origin.rumors, id), RumorHistory(log', id), Get(after.rumors, id)) {
      TurnLeaves(Get(origin.rumors, id), RumorHistory(log, id), c.rumors, turn.number, turn.change.rumors, after.rumors,
                 id);
    }
    forall r, id
      ensures Left(GetMemory(origin.roles, r, id), MemoryHistory(log', r, id), GetMemory(after.roles, r, id))
    {
      MemoryLeaves(origin, log, c, commit, after, r, id);
    }
  }

  lemma MemoryLeaves(origin: Context, log: seq<StoryCommit>, c: Context, commit: StoryCommit, after: Context, r: Id,
                     id: Id)
    requires Left(GetMemory(origin.roles, r, id), MemoryHistory(log, r, id), GetMemory(c.roles, r, id))
    requires DistinctMemories(commit.turn.change.memories)
    requires MemoriesEffect(c.roles, commit.turn.number, commit.turn.change.memories, after.roles)
    ensures Left(GetMemory(origin.roles, r, id), MemoryHistory(log + [commit], r, id), GetMemory(after.roles, r, id))
  {
    var turn := commit.turn;
    assert (log + [commit])[..|log|] == log;
    RoleEffect(c.roles, turn.number, turn.change.memories, after.roles, r);
    OfRoleIsDistinct(turn.change.memories, r);
    TurnLeaves(GetMemory(origin.roles, r, id), MemoryHistory(log, r, id), MemoriesOf(c.roles, r), turn.number,
               OfRole(turn.change.memories, r), MemoriesOf(after.roles, r), id);
  }

  lemma {:induction false} ReplayIsWritten(origin: Context, log: seq<StoryCommit>)
    requires Lawful(origin, log)
    ensures LastWritten(origin, log, Replay(origin, log))
  {
    if log != [] {
      var init, last := log[..|log| - 1], log[|log| - 1];
      ReplayIsWritten(origin, init);
      AdvanceIsWritten(origin, init, Replay(origin, init), last);
      assert init + [last] == log;
    }
  }

  lemma AdvanceIsWritten(origin: Context, log: seq<StoryCommit>, c: Context, commit: StoryCommit)
    requires LastWritten(origin, log, c) && Proper(c, commit)
    ensures LastWritten(origin, log + [commit], Advance(c, commit))
  {
    AdvanceHasEffect(c, commit);
    CommitIsWritten(origin, log, c, commit, Advance(c, commit));
  }

  /** What a story is created with. */
  ghost predicate CreatedFrom(spec: Spec, c: Context) {
    && c.storyId == spec.storyId && c.packRef == spec.packRef && c.opening == spec.opening && c.player == spec.player
    && c.roles == spec.roles && c.facts == spec.facts && c.rumors == spec.rumors && c.narrative == spec.narrative
    && c.turnNumber == 0 && c.summary.None? && c.recent == [] && c.lifeCycle == Active
  }

  lemma CreationHasEffect(spec: Spec)
    ensures CreatedFrom(spec, NewContext(spec))
  {
  }

  /** The specification each stored story was created from. */
  ghost function SpecsOf(rs: seq<Request>, maxRecent: nat, validRoles: Roles -> bool): map<Id, Spec> {
    if rs == [] then map[]
    else
      var before, st := SpecsOf(rs[..|rs| - 1], maxRecent, validRoles), RunOf(rs[..|rs| - 1], maxRecent, validRoles);
      match rs[|rs| - 1]
      case CreateStory(spec, _) =>
        if validRoles(spec.roles) && spec.storyId !in st.stories then before[spec.storyId := spec] else before
      case CommitTurn(_, _) => before
      case DeleteStory(id) => before - {id}
  }

  lemma {:induction false} OriginsAreSpecs(rs: seq<Request>, maxRecent: nat, validRoles: Roles -> bool, id: Id)
    ensures var st, specs := RunOf(rs, maxRecent, validRoles), SpecsOf(rs, maxRecent, validRoles);
            id in st.stories ==> id in specs && id in st.origins && CreatedFrom(specs[id], st.origins[id])
  {
    if rs != [] {
      OriginsAreSpecs(rs[..|rs| - 1], maxRecent, validRoles, id);
    }
  }

  /**
   After any run of creates, commits and deletes: the committed turns of a stored story, in order, are a log, and
   every fact, rumor and memory is what that log wrote last over what the story was created with; so are the
   summary, the narrative and the life cycle.
   */
  lemma StoredStoryIsLastWritten(rs: seq<Request>, maxRecent: nat, validRoles: Roles -> bool, id: Id)
    returns (log: seq<StoryCommit>, origin: Context)
    requires id in RunOf(rs, maxRecent, validRoles).stories
    ensures var s, specs := RunOf(rs, maxRecent, validRoles).stories[id], SpecsOf(rs, maxRecent, validRoles);
            && id in specs && CreatedFrom(specs[id], origin)
            && IsLog(s.committed, log) && LastWritten(origin, log, s.context)
  {
    RunIsReplay(rs, id, maxRecent, validRoles);
    OriginsAreSpecs(rs, maxRecent, validRoles, id);
    var st := RunOf(rs, maxRecent, validRoles);
    origin := st.origins[id];
    log :| IsReplayOf(origin, st.stories[id], log, maxRecent);
    ReplayIsWritten(origin, log);
  }
}
