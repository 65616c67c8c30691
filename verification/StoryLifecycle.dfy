/**
 Creating and removing stories across the two stores.

 A story is created by retaining its pack and then inserting it, releasing the pack again
 when the insertion fails; it is removed by deleting it and then releasing its pack. The
 first half is the sequential code over the two verified stores. The second half lets the
 steps of any number of concurrent calls interleave.
 */
module StoryLifecycle {
  import opened Wrappers
  import P = PackStore
  import S = StoryStore

  type StoryId = string

  datatype Error = PackError(packError: P.Error) | StoryError(storyError: S.Error)

  // ---------------------------------------------------------------- one call at a time

  /** Exactly the stored stories hold a pack. */
  ghost predicate InStep(stories: map<StoryId, S.Stored>, packs: P.Snapshots) {
    stories.Keys == packs.holders.Keys
  }

  method CreateStory(storyStore: S.Store, packStore: P.Store, packRef: P.PackRef, pack: P.Pack, spec: S.Spec, now: int)
    returns (r: Result<S.Info, Error>)
    requires packStore.Valid() && InStep(storyStore.stories, packStore.View())
    modifies storyStore, packStore
    ensures packStore.Valid() && InStep(storyStore.stories, packStore.View())
    ensures r.Ok? ==>
              && storyStore.stories.Keys == old(storyStore.stories.Keys) + {spec.storyId}
              && spec.storyId !in old(storyStore.stories)
              && storyStore.stories == S.AfterCreate(old(storyStore.stories), spec, now, storyStore.validRoles)
              && packStore.View() == P.Retained(old(packStore.View()), spec.storyId, packRef, pack)
              && r.value == S.Info(spec.storyId, spec.playerId, now, now, S.Active)
    ensures !r.Ok? ==> storyStore.stories == old(storyStore.stories) && packStore.View() == old(packStore.View())
    ensures r.Ok? <==> P.RetainError(old(packStore.View()), spec.storyId, packRef, packStore.maxPacks).Ok? &&
                       storyStore.validRoles(spec.roles)
  {
    ghost var before := packStore.View();
    var retained := packStore.Retain(spec.storyId, packRef, pack);
    if retained.Err? { return Err(PackError(retained.error)); }
    var created := storyStore.Create(spec, now);
    if created.Ok? { return Ok(created.value); }
    P.RetainThenRelease(before, spec.storyId, packRef, pack, packStore.maxPacks);
    packStore.Release(spec.storyId);
    r := Err(StoryError(created.error));
  }

  method RemoveStory(storyStore: S.Store, packStore: P.Store, id: StoryId)
    requires packStore.Valid() && InStep(storyStore.stories, packStore.View())
    modifies storyStore, packStore
    ensures packStore.Valid() && InStep(storyStore.stories, packStore.View())
    ensures storyStore.stories == old(storyStore.stories) - {id}
    ensures packStore.View() == P.Released(old(packStore.View()), id)
  {
    var removed := storyStore.Delete(id);
    P.ReleaseShrinks(packStore.View(), id);
    packStore.Release(id);
  }

  // ---------------------------------------------------------------- interleaved calls

  type CallId = nat

  /** Where a call stands between two of its atomic steps. */
  datatype Call =
    | Creating(id: StoryId, packRef: P.PackRef, pack: P.Pack, rolesOk: bool)
    | HoldingPack(id: StoryId, rolesOk: bool)
    | Compensating(id: StoryId)
    | Removing(id: StoryId)
    | Releasing(id: StoryId)
  {
    predicate IsCreate() {
      Creating? || HoldingPack? || Compensating?
    }

    /** The call still has to give up, or hand over, the pack its story holds. */
    predicate OwnsPack() {
      HoldingPack? || Compensating? || Releasing?
    }
  }

  /** The two stores, the calls in flight, and the held ids whose call was abandoned before it gave the pack up. */
  datatype State = State(packs: P.Snapshots, stories: set<StoryId>, calls: map<CallId, Call>, abandoned: set<StoryId>)

  datatype Step =
    | BeginCreate(c: CallId, id: StoryId, packRef: P.PackRef, pack: P.Pack, rolesOk: bool)
    | BeginRemove(c: CallId, id: StoryId)
    | Proceed(c: CallId)
    | Abandon(c: CallId)

  predicate Enabled(s: State, step: Step) {
    if step.Proceed? || step.Abandon? then step.c in s.calls else step.c !in s.calls
  }

  /** Creates and removes of one story never overlap; creates may overlap creates, and removes removes. */
  ghost predicate Disciplined(s: State, step: Step) {
    match step
    case BeginCreate(_, id, _, _, _) => forall c :: c in s.calls && s.calls[c].id == id ==> s.calls[c].IsCreate()
    case BeginRemove(_, id) => forall c :: c in s.calls && s.calls[c].id == id ==> !s.calls[c].IsCreate()
    case _ => true
  }

  function Next(s: State, step: Step, maxPacks: nat): State
    requires Enabled(s, step)
  {
    match step
    case BeginCreate(c, id, packRef, pack, rolesOk) => s.(calls := s.calls[c := Creating(id, packRef, pack, rolesOk)])
    case BeginRemove(c, id) => s.(calls := s.calls[c := Removing(id)])
    case Abandon(c) =>
      var leaves := s.calls[c].OwnsPack() && s.calls[c].id in s.packs.holders;
      s.(calls := s.calls - {c}, abandoned := if leaves then s.abandoned + {s.calls[c].id} else s.abandoned)
    case Proceed(c) =>
      match s.calls[c]
      case Creating(id, packRef, pack, rolesOk) =>
        if P.RetainError(s.packs, id, packRef, maxPacks).Ok? then
          s.(packs := P.Retained(s.packs, id, packRef, pack), calls := s.calls[c := HoldingPack(id, rolesOk)])
        else s.(calls := s.calls - {c})
      case HoldingPack(id, rolesOk) =>
        if rolesOk && id !in s.stories then s.(stories := s.stories + {id}, calls := s.calls - {c})
        else s.(calls := s.calls[c := Compensating(id)])
      case Compensating(id) => Release(s, c, id)
      case Removing(id) => s.(stories := s.stories - {id}, calls := s.calls[c := Releasing(id)])
      case Releasing(id) => Release(s, c, id)
  }

  function Release(s: State, c: CallId, id: StoryId): State {
    s.(packs := P.Released(s.packs, id), calls := s.calls - {c}, abandoned := s.abandoned - {id})
  }

  function Initial(): State {
    State(P.Snapshots(map[], map[]), {}, map[], {})
  }

  ghost predicate Legal(steps: seq<Step>, maxPacks: nat) {
    steps != [] ==>
      && Legal(steps[..|steps| - 1], maxPacks)
      && Enabled(RunOf(steps[..|steps| - 1], maxPacks), steps[|steps| - 1])
      && Disciplined(RunOf(steps[..|steps| - 1], maxPacks), steps[|steps| - 1])
  }

  /** The state after a sequence of steps; a step that is not enabled is skipped. */
  function RunOf(steps: seq<Step>, maxPacks: nat): State {
    if steps == [] then Initial()
    else
      var s := RunOf(steps[..|steps| - 1], maxPacks);
      if Enabled(s, steps[|steps| - 1]) then Next(s, steps[|steps| - 1], maxPacks) else s
  }

  // ---------------------------------------------------------------- the invariant

  ghost predicate StoriesHold(s: State) {
    forall id :: id in s.stories ==> id in s.packs.holders
  }

  ghost predicate CallFits(s: State, c: CallId) {
    c in s.calls ==>
      var call := s.calls[c];
      && (call.OwnsPack() ==> call.id !in s.stories)
      && (call.OwnsPack() && call.IsCreate() ==> call.id in s.packs.holders && call.id !in s.abandoned)
  }

  /** Two calls on one story are of the same kind, and at most one create is past its retain. */
  ghost predicate Apart(s: State, c: CallId, c': CallId) {
    c in s.calls && c' in s.calls && c != c' && s.calls[c].id == s.calls[c'].id ==>
      && s.calls[c].IsCreate() == s.calls[c'].IsCreate()
      && !(s.calls[c].IsCreate() && s.calls[c].OwnsPack() && s.calls[c'].OwnsPack())
  }

  predicate Owner(s: State, c: CallId, id: StoryId) {
    c in s.calls && s.calls[c].id == id && s.calls[c].OwnsPack()
  }

  /** Every held pack belongs to a stored story, to a call that will still release or use it, or was abandoned. */
  ghost predicate Accounted(s: State, id: StoryId) {
    id in s.packs.holders ==> id in s.stories || id in s.abandoned || exists c :: Owner(s, c, id)
  }

  /** Abandoned packs are held, and by no stored story. */
  ghost predicate AbandonedHold(s: State) {
    forall id :: id in s.abandoned ==> id in s.packs.holders && id !in s.stories
  }

  ghost predicate Inv(s: State, maxPacks: nat) {
    && P.Indexed(s.packs, maxPacks)
    && StoriesHold(s) && AbandonedHold(s)
    && (forall c :: CallFits(s, c))
    && (forall c, c' :: Apart(s, c, c'))
    && (forall id :: Accounted(s, id))
  }

  lemma NextKeepsIndex(s: State, step: Step, maxPacks: nat)
    requires P.Indexed(s.packs, maxPacks) && Enabled(s, step)
    ensures P.Indexed(Next(s, step, maxPacks).packs, maxPacks)
  {
    if step.Proceed? {
      var call := s.calls[step.c];
      if call.Creating? {
        P.RetainKeepsIndex(s.packs, call.id, call.packRef, call.pack, maxPacks);
      } else {
        P.ReleaseKeepsIndex(s.packs, call.id, maxPacks);
      }
    }
  }

  /** How a step changes who holds a pack. */
  lemma NextHolders(s: State, step: Step, maxPacks: nat)
    requires Enabled(s, step)
    ensures var s' := Next(s, step, maxPacks);
            if !step.Proceed? then s'.packs == s.packs
            else match s.calls[step.c]
              case Creating(id, _, _, _) =>
                s'.packs.holders.Keys == s.packs.holders.Keys || s'.packs.holders.Keys == s.packs.holders.Keys + {id}
              case Compensating(id) => s'.packs.holders.Keys == s.packs.holders.Keys - {id}
              case Releasing(id) => s'.packs.holders.Keys == s.packs.holders.Keys - {id}
              case _ => s'.packs == s.packs
  {
    if step.Proceed? {
      P.ReleaseShrinks(s.packs, s.calls[step.c].id);
    }
  }

  lemma NextKeepsStories(s: State, step: Step, maxPacks: nat)
    requires Inv(s, maxPacks) && Enabled(s, step)
    ensures StoriesHold(Next(s, step, maxPacks)) && AbandonedHold(Next(s, step, maxPacks))
  {
    NextHolders(s, step, maxPacks);
    assert CallFits(s, step.c);
  }

  lemma NextKeepsCalls(s: State, step: Step, maxPacks: nat, c: CallId)
    requires Inv(s, maxPacks) && Enabled(s, step)
    ensures CallFits(Next(s, step, maxPacks), c)
  {
    NextHolders(s, step, maxPacks);
    assert CallFits(s, c) && CallFits(s, step.c);
    assert Apart(s, c, step.c) && Apart(s, step.c, c);
  }

  lemma NextKeepsApart(s: State, step: Step, maxPacks: nat, c: CallId, c': CallId)
    requires Inv(s, maxPacks) && Enabled(s, step) && Disciplined(s, step)
    ensures Apart(Next(s, step, maxPacks), c, c')
  {
    assert Apart(s, c, c') && CallFits(s, c) && CallFits(s, c');
  }

  lemma NextKeepsAccounts(s: State, step: Step, maxPacks: nat, id: StoryId)
    requires Inv(s, maxPacks) && Enabled(s, step)
    ensures Accounted(Next(s, step, maxPacks), id)
  {
    NextHolders(s, step, maxPacks);
    var s' := Next(s, step, maxPacks);
    assert Accounted(s, id);
    if id in s.packs.holders && id !in s.stories && id !in s.abandoned {
      var c :| Owner(s, c, id);
      assert c != step.c ==> Owner(s', c, id);
      if c == step.c && id !in s'.stories && id !in s'.abandoned && id in s'.packs.holders {
        assert Owner(s', c, id);
      }
    } else if id in s'.packs.holders && id !in s'.stories && id !in s'.abandoned {
      assert Owner(s', step.c, id);
    }
  }

  lemma NextKeepsInv(s: State, step: Step, maxPacks: nat)
    requires Inv(s, maxPacks) && Enabled(s, step) && Disciplined(s, step)
    ensures Inv(Next(s, step, maxPacks), maxPacks)
  {
    NextKeepsIndex(s, step, maxPacks);
    NextKeepsStories(s, step, maxPacks);
    forall c ensures CallFits(Next(s, step, maxPacks), c) {
      NextKeepsCalls(s, step, maxPacks, c);
    }
    forall c, c' ensures Apart(Next(s, step, maxPacks), c, c') {
      NextKeepsApart(s, step, maxPacks, c, c');
    }
    forall id ensures Accounted(Next(s, step, maxPacks), id) {
      NextKeepsAccounts(s, step, maxPacks, id);
    }
  }

  lemma {:induction false} RunKeepsInv(steps: seq<Step>, maxPacks: nat)
    requires Legal(steps, maxPacks)
    ensures Inv(RunOf(steps, maxPacks), maxPacks)
  {
    if steps != [] {
      RunKeepsInv(steps[..|steps| - 1], maxPacks);
      NextKeepsInv(RunOf(steps[..|steps| - 1], maxPacks), steps[|steps| - 1], maxPacks);
    }
  }

  /**
   However the calls interleave and whichever are abandoned, every stored story holds a pack; and whenever no
   call is in flight, the pack holders are exactly the stored stories and the abandoned ids.
   */
  lemma EveryStoredStoryHoldsItsPack(steps: seq<Step>, maxPacks: nat)
    requires Legal(steps, maxPacks)
    ensures var s := RunOf(steps, maxPacks);
            && s.stories <= s.packs.holders.Keys
            && (s.calls == map[] ==> s.packs.holders.Keys == s.stories + s.abandoned)
            && s.stories !! s.abandoned
            && |s.packs.packs| <= maxPacks
  {
    RunKeepsInv(steps, maxPacks);
    var s := RunOf(steps, maxPacks);
    forall id | id in s.packs.holders && s.calls == map[]
      ensures id in s.stories || id in s.abandoned
    {
      assert Accounted(s, id);
    }
  }

  /** Without abandoned calls, the stored stories are exactly the pack holders whenever no call is in flight. */
  lemma {:induction false} NothingAbandoned(steps: seq<Step>, maxPacks: nat)
    requires forall i :: 0 <= i < |steps| ==> !steps[i].Abandon?
    ensures RunOf(steps, maxPacks).abandoned == {}
  {
    if steps != [] {
      NothingAbandoned(steps[..|steps| - 1], maxPacks);
    }
  }

  lemma StoriesAreHoldersAtRest(steps: seq<Step>, maxPacks: nat)
    requires Legal(steps, maxPacks) && RunOf(steps, maxPacks).calls == map[]
    requires forall i :: 0 <= i < |steps| ==> !steps[i].Abandon?
    ensures RunOf(steps, maxPacks).stories == RunOf(steps, maxPacks).packs.holders.Keys
  {
    EveryStoredStoryHoldsItsPack(steps, maxPacks);
    NothingAbandoned(steps, maxPacks);
  }

  /** With that discipline an insertion after a successful retain never finds the story already stored. */
  lemma InsertionNeverCollides(steps: seq<Step>, maxPacks: nat, c: CallId)
    requires Legal(steps, maxPacks)
    requires c in RunOf(steps, maxPacks).calls && RunOf(steps, maxPacks).calls[c].HoldingPack?
    ensures RunOf(steps, maxPacks).calls[c].id !in RunOf(steps, maxPacks).stories
  {
    RunKeepsInv(steps, maxPacks);
    assert CallFits(RunOf(steps, maxPacks), c);
  }

  predicate Follows(s: State, step: Step, s': State, maxPacks: nat) {
    Enabled(s, step) && s' == Next(s, step, maxPacks)
  }

  /** A create abandoned between its two calls leaves a pack held by no story. */
  lemma AbandonedCreateLeavesPack(id: StoryId, packRef: P.PackRef, pack: P.Pack, maxPacks: nat)
    returns (s1: State, s2: State, s3: State)
    requires maxPacks > 0
    ensures Follows(Initial(), BeginCreate(0, id, packRef, pack, true), s1, maxPacks)
    ensures Follows(s1, Proceed(0), s2, maxPacks) && Follows(s2, Abandon(0), s3, maxPacks)
    ensures s3.calls == map[] && id !in s3.stories && id in s3.packs.holders
  {
    s1 := State(Initial().packs, {}, map[0 := Creating(id, packRef, pack, true)], {});
    s2 := State(P.Retained(Initial().packs, id, packRef, pack), {}, map[0 := HoldingPack(id, true)], {});
    s3 := State(s2.packs, {}, map[], {id});
    assert s2.calls - {0} == map[] && {} + {id} == {id};
  }

  // ---------------------------------------------------------------- one call of many, run to its end

  /** Lets one call make up to `n` steps in a row. */
  function RunCall(s: State, c: CallId, n: nat, maxPacks: nat): State
    decreases n
  {
    if n == 0 || c !in s.calls then s else RunCall(Next(s, Proceed(c), maxPacks), c, n - 1, maxPacks)
  }

  /** The story holds the pack of this reference, and everybody else holds what they held. */
  predicate HoldsNew(before: P.Snapshots, after: P.Snapshots, id: StoryId, packRef: P.PackRef) {
    && after.holders == before.holders[id := packRef.digest]
    && packRef.digest in after.packs && after.packs[packRef.digest].packRef == packRef
    && forall d :: d in before.packs ==>
         d in after.packs && after.packs[d].packRef == before.packs[d].packRef &&
         after.packs[d].value == before.packs[d].value
  }

  /**
   A create that runs to its end undisturbed stores its story under its pack if the pack can be retained and the roles
   are valid, and otherwise leaves both stores as they were.
   */
  lemma UndisturbedCreate(s: State, c: CallId, maxPacks: nat)
    requires Inv(s, maxPacks) && c in s.calls && s.calls[c].Creating?
    ensures var call, t := s.calls[c], RunCall(s, c, 3, maxPacks);
            && t.calls == s.calls - {c} && t.abandoned == s.abandoned
            && (if P.RetainError(s.packs, call.id, call.packRef, maxPacks).Ok? && call.rolesOk
                then t.stories == s.stories + {call.id} && call.id !in s.stories &&
                     HoldsNew(s.packs, t.packs, call.id, call.packRef)
                else t.stories == s.stories && t.packs == s.packs)
  {
    var call := s.calls[c];
    if P.RetainError(s.packs, call.id, call.packRef, maxPacks).Ok? {
      RetainedThenRun(s, c, maxPacks);
    }
  }

  lemma RetainedThenRun(s: State, c: CallId, maxPacks: nat)
    requires Inv(s, maxPacks) && c in s.calls && s.calls[c].Creating?
    requires P.RetainError(s.packs, s.calls[c].id, s.calls[c].packRef, maxPacks).Ok?
    ensures var call, t := s.calls[c], RunCall(s, c, 3, maxPacks);
            && t.calls == s.calls - {c} && t.abandoned == s.abandoned && call.id !in s.stories
            && (if call.rolesOk
                then t.stories == s.stories + {call.id} && HoldsNew(s.packs, t.packs, call.id, call.packRef)
                else t.stories == s.stories && t.packs == s.packs)
  {
    var call := s.calls[c];
    var s1 := Next(s, Proceed(c), maxPacks);
    var s2 := Next(s1, Proceed(c), maxPacks);
    if call.rolesOk {
      assert s1.calls - {c} == s.calls - {c};
      assert RunCall(s1, c, 2, maxPacks) == RunCall(s2, c, 1, maxPacks) == s2;
    } else {
      P.RetainThenRelease(s.packs, call.id, call.packRef, call.pack, maxPacks);
      assert s.abandoned - {call.id} == s.abandoned;
      var s3 := Next(s2, Proceed(c), maxPacks);
      assert s3.calls == s.calls - {c};
      assert RunCall(s1, c, 2, maxPacks) == RunCall(s2, c, 1, maxPacks) == RunCall(s3, c, 0, maxPacks) == s3;
    }
  }

  /** A removal that runs to its end undisturbed leaves neither the story nor a holder of its name, and nothing else. */
  lemma UndisturbedRemove(s: State, c: CallId, maxPacks: nat)
    requires c in s.calls && s.calls[c].Removing?
    ensures var id, t := s.calls[c].id, RunCall(s, c, 2, maxPacks);
            && t.calls == s.calls - {c} && t.abandoned == s.abandoned - {id}
            && t.stories == s.stories - {id} && t.packs.holders == s.packs.holders - {id}
  {
    var s1 := Next(s, Proceed(c), maxPacks);
    var s2 := Next(s1, Proceed(c), maxPacks);
    P.ReleaseShrinks(s.packs, s.calls[c].id);
    assert s1.calls - {c} == s.calls - {c};
    assert RunCall(s1, c, 1, maxPacks) == RunCall(s2, c, 0, maxPacks) == s2;
  }
}
