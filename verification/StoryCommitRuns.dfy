/** What holds of a persisted story in every run of commits. */
module StoryCommitRuns {
  import opened Wrappers
  import opened StoryCommits

  lemma RunStep(s: Story, cs: seq<Commit>, i: nat)
    requires i < |cs|
    ensures RunOf(s, cs[..i + 1]) == After(RunOf(s, cs[..i]), cs[i])
  {
    assert cs[..i + 1][..i] == cs[..i];
  }

  // ---------------------------------------------------------------- turns, segments, revisions

  ghost predicate DistinctKeys(turns: seq<TurnRow>) {
    forall i, j :: 0 <= i < j < |turns| ==> turns[i].key != turns[j].key
  }

  ghost predicate TurnsNumbered(turns: seq<TurnRow>) {
    forall i :: 0 <= i < |turns| ==>
      && turns[i].number == i + 1 && turns[i].sequence == i + 2
      && turns[i].baseRevision == i && turns[i].committedRevision == i + 1
  }

  ghost predicate SegmentsNumbered(segments: seq<Segment>) {
    forall i :: 0 <= i < |segments| ==>
      segments[i].sequence == i + 1 && segments[i].turn == if i == 0 then None else Some(i)
  }

  /** Turn n was committed from revision n-1 to revision n with segment sequence n+1, each key once. */
  ghost predicate Numbered(s: Story) {
    && s.revision == s.lastTurn == |s.turns|
    && |s.segments| == s.lastTurn + 1
    && TurnsNumbered(s.turns) && DistinctKeys(s.turns)
    && SegmentsNumbered(s.segments)
  }

  lemma {:induction false} SequencesEnd(segments: seq<Segment>)
    requires forall i :: 0 <= i < |segments| ==> segments[i].sequence == i + 1
    ensures MaxSequence(segments) == |segments|
  {
    if segments != [] {
      SequencesEnd(segments[..|segments| - 1]);
    }
  }

  lemma {:induction false} UnknownKey(turns: seq<TurnRow>, key: string)
    requires FindTurn(turns, key).None?
    ensures forall i :: 0 <= i < |turns| ==> turns[i].key != key
  {
    if turns != [] {
      UnknownKey(turns[..|turns| - 1], key);
    }
  }

  lemma NextTurnIsNumbered(turns: seq<TurnRow>, row: TurnRow)
    requires TurnsNumbered(turns) && DistinctKeys(turns) && FindTurn(turns, row.key).None?
    requires row.number == |turns| + 1 && row.sequence == |turns| + 2
    requires row.baseRevision == |turns| && row.committedRevision == |turns| + 1
    ensures TurnsNumbered(turns + [row]) && DistinctKeys(turns + [row])
  {
    UnknownKey(turns, row.key);
  }

  lemma CommitKeepsNumbered(s: Story, c: Commit)
    requires Numbered(s)
    ensures Numbered(After(s, c))
  {
    if IsNew(s, c) && Acceptable(s, c) {
      SequencesEnd(s.segments);
      var after := Committed(s, c);
      NextTurnIsNumbered(s.turns, after.turns[|s.turns|]);
    }
  }

  /** The unique constraints on turns and segments never fire. */
  lemma InsertsNeverCollide(s: Story)
    requires Numbered(s)
    ensures !InsertsCollide(s, s.lastTurn + 1, MaxSequence(s.segments) + 1)
  {
    SequencesEnd(s.segments);
  }

  lemma {:induction false} RunKeepsNumbered(s: Story, cs: seq<Commit>)
    requires Numbered(s)
    ensures Numbered(RunOf(s, cs))
  {
    if cs != [] {
      RunKeepsNumbered(s, cs[..|cs| - 1]);
      CommitKeepsNumbered(RunOf(s, cs[..|cs| - 1]), cs[|cs| - 1]);
    }
  }

  lemma NewStoryIsNumbered(spec: CreateSpec)
    requires Create(spec).Ok?
    ensures Numbered(Create(spec).value)
  {
  }

  /** One more attempt never lowers the revision or the overlay version. */
  lemma AttemptGrows(s: Story, cs: seq<Commit>, k: nat)
    requires k < |cs|
    ensures NoLower(RunOf(s, cs[..k]), RunOf(s, cs[..k + 1]))
  {
    RunStep(s, cs, k);
  }

  lemma {:induction false} RevisionsGrow(s: Story, cs: seq<Commit>, i: nat, j: nat)
    requires i <= j <= |cs|
    ensures NoLower(RunOf(s, cs[..i]), RunOf(s, cs[..j]))
    decreases j
  {
    if i < j {
      RevisionsGrow(s, cs, i, j - 1);
      AttemptGrows(s, cs, j - 1);
      NoLowerJoins(RunOf(s, cs[..i]), RunOf(s, cs[..j - 1]), RunOf(s, cs[..j]));
    }
  }

  predicate NoLower(a: Story, b: Story) {
    a.revision <= b.revision && a.overlay <= b.overlay
  }

  lemma NoLowerJoins(a: Story, b: Story, c: Story)
    requires NoLower(a, b) && NoLower(b, c)
    ensures NoLower(a, c)
  {
  }

  /** At most one new commit succeeds per base revision. */
  lemma OneCommitPerRevision(s: Story, cs: seq<Commit>, i: nat, j: nat)
    requires i < j < |cs| && Stored(s, cs, i) && Stored(s, cs, j)
    ensures cs[i].baseRevision < cs[j].baseRevision
  {
    RunStep(s, cs, i);
    RevisionsGrow(s, cs, i + 1, j);
  }

  // ---------------------------------------------------------------- idempotency

  lemma {:induction false} TurnsStay(s: Story, cs: seq<Commit>)
    ensures s.turns <= RunOf(s, cs).turns
  {
    if cs != [] {
      TurnsStay(s, cs[..|cs| - 1]);
    }
  }

  lemma {:induction false} KnownKey(turns: seq<TurnRow>, i: nat)
    requires DistinctKeys(turns) && i < |turns|
    ensures FindTurn(turns, turns[i].key) == Some(turns[i])
  {
    if i < |turns| - 1 {
      KnownKey(turns[..|turns| - 1], i);
    }
  }

  /** A stored turn answers for its key for ever after: later attempts with that key find it and change nothing. */
  lemma StoredTurnIsRemembered(s: Story, c: Commit, cs: seq<Commit>, again: Commit)
    requires Numbered(s) && IsNew(s, c) && Acceptable(s, c) && again.key == c.key
    ensures var later := RunOf(Committed(s, c), cs);
            && FindTurn(later.turns, again.key).Some?
            && FindTurn(later.turns, again.key).value.digest == c.digest
            && FindTurn(later.turns, again.key).value.result == ResultOf(s, c)
            && After(later, again) == later
  {
    var s' := Committed(s, c);
    CommitKeepsNumbered(s, c);
    RunKeepsNumbered(s', cs);
    TurnsStay(s', cs);
    KnownKey(RunOf(s', cs).turns, |s.turns|);
  }

  // ---------------------------------------------------------------- the overlay version is a cache key

  lemma QuietCommitIsInvisible(s: Story, c: Commit)
    requires After(s, c).overlay == s.overlay
    ensures K.Visible(After(s, c).rows) == K.Visible(s.rows)
  {
    if IsNew(s, c) && Acceptable(s, c) {
      K.QuietMutationsAreInvisible(s.rows, c.mutations);
    }
  }

  /** The level climbs from `k` to `k + 1`, or stays and leaves the value as it is. */
  predicate LevelStep(levels: seq<nat>, values: seq<K.Rows>, k: nat)
    requires k + 1 < |levels| && |levels| == |values|
  {
    levels[k] < levels[k + 1] || (levels[k] == levels[k + 1] && values[k] == values[k + 1])
  }

  lemma {:induction false} LevelsClimb(levels: seq<nat>, values: seq<K.Rows>, i: nat, j: nat)
    requires i <= j < |levels| == |values| && forall k :: i <= k < j ==> LevelStep(levels, values, k)
    ensures levels[i] <= levels[j]
    ensures levels[i] == levels[j] ==> values[i] == values[j]
    decreases j
  {
    if i < j {
      LevelsClimb(levels, values, i, j - 1);
      assert LevelStep(levels, values, j - 1);
    }
  }

  lemma SameOverlaySameRows(s: Story, cs: seq<Commit>, i: nat, j: nat)
    requires i <= j <= |cs| && RunOf(s, cs[..i]).overlay == RunOf(s, cs[..j]).overlay
    ensures K.Visible(RunOf(s, cs[..i]).rows) == K.Visible(RunOf(s, cs[..j]).rows)
  {
    var levels := seq(|cs| + 1, k requires 0 <= k <= |cs| => RunOf(s, cs[..k]).overlay);
    var values := seq(|cs| + 1, k requires 0 <= k <= |cs| => K.Visible(RunOf(s, cs[..k]).rows));
    forall k | i <= k < j ensures LevelStep(levels, values, k) {
      AttemptGrows(s, cs, k);
      QuietAttemptIsInvisible(s, cs, k);
    }
    LevelsClimb(levels, values, i, j);
  }

  lemma QuietAttemptIsInvisible(s: Story, cs: seq<Commit>, k: nat)
    requires k < |cs|
    ensures RunOf(s, cs[..k]).overlay == RunOf(s, cs[..k + 1]).overlay ==>
            K.Visible(RunOf(s, cs[..k]).rows) == K.Visible(RunOf(s, cs[..k + 1]).rows)
  {
    RunStep(s, cs, k);
    if RunOf(s, cs[..k]).overlay == RunOf(s, cs[..k + 1]).overlay {
      QuietCommitIsInvisible(RunOf(s, cs[..k]), cs[k]);
    }
  }

  /** Two states of one story with the same overlay version load the same activation index. */
  lemma OverlayVersionIsCacheKey(s: Story, cs: seq<Commit>, i: nat, j: nat, packDigest: string, maxEntries: nat,
                                 maxOverlay: nat)
    requires i <= j <= |cs| && RunOf(s, cs[..i]).overlay == RunOf(s, cs[..j]).overlay
    ensures K.LoadIndex(RunOf(s, cs[..i]).rows, packDigest, maxEntries, maxOverlay) ==
            K.LoadIndex(RunOf(s, cs[..j]).rows, packDigest, maxEntries, maxOverlay)
  {
    SameOverlaySameRows(s, cs, i, j);
  }

  // ---------------------------------------------------------------- knowledge rows and timed state

  ghost predicate AllBacked(s: Story) {
    forall id :: id in s.timed ==> Backed(s.rows, id, s.timed[id])
  }

  /** Rows agree with their payloads, and every timed state has a live entry with its rule version. */
  ghost predicate Consistent(s: Story) {
    K.AllAgree(s.rows) && AllBacked(s)
  }

  lemma CommitKeepsConsistent(s: Story, c: Commit)
    requires Consistent(s)
    ensures Consistent(After(s, c))
  {
    if IsNew(s, c) && Acceptable(s, c) {
      K.MutationsKeepAgreement(s.rows, c.mutations);
    }
  }

  lemma {:induction false} RunKeepsConsistent(s: Story, cs: seq<Commit>)
    requires Consistent(s)
    ensures Consistent(RunOf(s, cs))
  {
    if cs != [] {
      RunKeepsConsistent(s, cs[..|cs| - 1]);
      CommitKeepsConsistent(RunOf(s, cs[..|cs| - 1]), cs[|cs| - 1]);
    }
  }

  lemma NewStoryIsConsistent(spec: CreateSpec)
    requires Create(spec).Ok?
    ensures Consistent(Create(spec).value)
  {
    K.MutationsKeepAgreement(map[], Additions(spec.knowledge));
  }

  /** Every row of every reachable state passes the reader's cross-check. */
  lemma ReachableRowsMaterialize(spec: CreateSpec, cs: seq<Commit>, key: K.RowKey)
    requires Create(spec).Ok? && key in RunOf(Create(spec).value, cs).rows
    ensures K.Materialize(key, RunOf(Create(spec).value, cs).rows[key]).Ok?
  {
    NewStoryIsConsistent(spec);
    RunKeepsConsistent(Create(spec).value, cs);
    K.AgreeingRowsMaterialize(key, RunOf(Create(spec).value, cs).rows[key]);
  }

  // ---------------------------------------------------------------- the cast

  /** Roles and relationships are stored under their own keys. */
  ghost predicate Keyed(roles: map<string, Role>, relationships: map<(string, string), Relationship>) {
    && (forall id :: id in roles ==> roles[id].id == id)
    && (forall key :: key in relationships ==> relationships[key].Key() == key)
  }

  /** Every role is still there, and nothing of it but its state has changed. */
  ghost predicate KeepsCast(before: map<string, Role>, after: map<string, Role>) {
    forall id :: id in before ==> id in after && after[id] == before[id].(state := after[id].state)
  }

  lemma {:induction false} AddRolesKeepsCast(roles: map<string, Role>, added: seq<Role>)
    requires Keyed(roles, map[]) && AddRoles(roles, added).Ok?
    ensures Keyed(AddRoles(roles, added).value, map[]) && KeepsCast(roles, AddRoles(roles, added).value)
    decreases |added|
  {
    if added != [] {
      AddRolesKeepsCast(roles[added[0].id := added[0]], added[1..]);
    }
  }

  lemma {:induction false} ChangeRolesKeepsCast(roles: map<string, Role>, changes: seq<RoleChange>)
    requires Keyed(roles, map[]) && ChangeRoles(roles, changes).Ok?
    ensures Keyed(ChangeRoles(roles, changes).value, map[]) && KeepsCast(roles, ChangeRoles(roles, changes).value)
    ensures ChangeRoles(roles, changes).value.Keys == roles.Keys
    decreases |changes|
  {
    if changes != [] {
      var id := changes[0].id;
      ChangeRolesKeepsCast(roles[id := roles[id].(state := changes[0].newState)], changes[1..]);
    }
  }

  lemma {:induction false} ChangesKeepRelationships(rs: map<(string, string), Relationship>, ops: seq<RelationshipOp>)
    requires Keyed(map[], rs) && ChangeRelationships(rs, ops).Ok?
    ensures Keyed(map[], ChangeRelationships(rs, ops).value) && rs.Keys <= ChangeRelationships(rs, ops).value.Keys
    decreases |ops|
  {
    if ops != [] {
      var state := ops[0].state;
      ChangesKeepRelationships(rs[state.Key() := state], ops[1..]);
    }
  }

  lemma CommitKeepsCast(s: Story, c: Commit)
    requires Keyed(s.roles, s.relationships)
    ensures Keyed(After(s, c).roles, After(s, c).relationships)
    ensures KeepsCast(s.roles, After(s, c).roles) && s.relationships.Keys <= After(s, c).relationships.Keys
  {
    if IsNew(s, c) && Acceptable(s, c) {
      AddRolesKeepsCast(s.roles, c.newRoles);
      ChangeRolesKeepsCast(AddRoles(s.roles, c.newRoles).value, c.roleChanges);
      ChangesKeepRelationships(s.relationships, c.relationshipOps);
    }
  }

  /**
   Over any run no role or relationship disappears, roles keep everything but their state, and keys stay their
   own.
   */
  lemma {:induction false} RunKeepsCast(s: Story, cs: seq<Commit>)
    requires Keyed(s.roles, s.relationships)
    ensures Keyed(RunOf(s, cs).roles, RunOf(s, cs).relationships)
    ensures KeepsCast(s.roles, RunOf(s, cs).roles) && s.relationships.Keys <= RunOf(s, cs).relationships.Keys
  {
    if cs != [] {
      RunKeepsCast(s, cs[..|cs| - 1]);
      CommitKeepsCast(RunOf(s, cs[..|cs| - 1]), cs[|cs| - 1]);
    }
  }

  // ---------------------------------------------------------------- narrative nodes

  /** The moves of one node in all stored turns of a run. */
  ghost function LifeIn(s: Story, cs: seq<Commit>, node: string): N.Life {
    if cs == [] then N.NO_LIFE
    else
      var before, last := LifeIn(s, cs[..|cs| - 1], node), cs[|cs| - 1];
      if Stored(s, cs, |cs| - 1) then N.Join(before, N.LifeOf(last.resolution.transitions, last.turnNumber, node))
      else before
  }

  lemma {:induction false} NodeLivesThroughRun(s: Story, cs: seq<Commit>, node: string)
    ensures N.Lived(s.narrative, LifeIn(s, cs, node), RunOf(s, cs).narrative, node)
  {
    if cs != [] {
      var init, last := cs[..|cs| - 1], cs[|cs| - 1];
      NodeLivesThroughRun(s, init, node);
      var mid := RunOf(s, init);
      if Stored(s, cs, |cs| - 1) {
        N.ResolutionIsLived(mid.narrative, last.resolution, last.expectedGraphRevision, last.turnNumber, node);
        N.LivesJoin(s.narrative, LifeIn(s, init, node), mid.narrative,
                    N.LifeOf(last.resolution.transitions, last.turnNumber, node), RunOf(s, cs).narrative, node);
      }
    }
  }

  /**
   Over a whole run a node only moves from inactive to active and from active to completed or skipped: it
   stands where its last move took it, makes at most two moves, is activated at most once, and a node
   inactive at creation and not since carries the turn of that activation.
   */
  lemma NodeAdvancesAtMostTwice(s: Story, cs: seq<Commit>, node: string)
    ensures var life, now := LifeIn(s, cs, node), RunOf(s, cs).narrative;
            && N.StateOf(now, node) ==
               (if life.last.Some? then N.To(life.last.value) else N.StateOf(s.narrative, node))
            && N.Rank(N.StateOf(now, node)) == N.Rank(N.StateOf(s.narrative, node)) + life.moves
            && life.moves <= 2 && |life.activations| <= 1
            && (N.StateOf(s.narrative, node) == N.Inactive && N.StateOf(now, node) != N.Inactive ==>
                  |life.activations| == 1 && node in now.activationTurns &&
                  now.activationTurns[node] == life.activations[0])
  {
    NodeLivesThroughRun(s, cs, node);
  }

  /** A completed node stays completed, and a skipped one skipped, over every further run. */
  lemma ClosedNodeStaysClosed(s: Story, cs: seq<Commit>, node: string)
    requires N.StateOf(s.narrative, node) == N.Completed || N.StateOf(s.narrative, node) == N.Skipped
    ensures N.StateOf(RunOf(s, cs).narrative, node) == N.StateOf(s.narrative, node)
  {
    NodeLivesThroughRun(s, cs, node);
  }
}
