/**
 Removing a story while it is being created.

 Calls are otherwise assumed not to overlap in this way. Here one remove comes in, in any state the
 protocol keeps, and the theorem says exactly when it and the create can lose the story's pack.
 */
module StoryOverlaps {
  import opened StoryLifecycle

  /** The story is stored without holding a pack. */
  predicate Lost(s: State, id: StoryId) {
    id in s.stories && id !in s.packs.holders
  }

  /** The state after the given calls have proceeded in turn; a call that has ended does nothing. */
  function Played(s: State, moves: seq<CallId>, maxPacks: nat): State {
    if moves == [] then s
    else
      var before, c := Played(s, moves[..|moves| - 1], maxPacks), moves[|moves| - 1];
      if c in before.calls then Next(before, Proceed(c), maxPacks) else before
  }

  ghost predicate OnlyMoves(moves: seq<CallId>, create: CallId, remove: CallId) {
    forall i :: 0 <= i < |moves| ==> moves[i] == create || moves[i] == remove
  }

  /** The two calls, running on their own, can lose the pack. */
  ghost predicate CanLose(s: State, id: StoryId, create: CallId, remove: CallId, maxPacks: nat) {
    exists moves :: OnlyMoves(moves, create, remove) && Lost(Played(s, moves, maxPacks), id)
  }

  /** The create has its pack and will store the story, or will have both next. */
  predicate AboutToStore(s: State, create: CallId, maxPacks: nat)
    requires create in s.calls
  {
    match s.calls[create]
    case HoldingPack(_, rolesOk) => rolesOk
    case Creating(id, packRef, _, rolesOk) => rolesOk && P.RetainError(s.packs, id, packRef, maxPacks).Ok?
    case _ => false
  }

  // ---------------------------------------------------------------- when nothing can be lost

  predicate At(s: State, c: CallId, call: Call) {
    c in s.calls && s.calls[c] == call
  }

  predicate CreatePhase(s: State, create: CallId, id: StoryId) {
    create in s.calls ==> s.calls[create].id == id && s.calls[create].IsCreate()
  }

  predicate RemovePhase(s: State, remove: CallId, id: StoryId) {
    remove in s.calls ==> s.calls[remove].id == id && !s.calls[remove].IsCreate()
  }

  /** While the remove is pending the create cannot come to hold the pack and store the story. */
  predicate Harmless(s: State, id: StoryId, create: CallId, remove: CallId, maxPacks: nat) {
    && CreatePhase(s, create, id) && RemovePhase(s, remove, id) && create != remove
    && !Lost(s, id)
    && (remove in s.calls && s.calls[remove].Releasing? ==> id !in s.stories)
    && (create in s.calls ==>
          && (s.calls[create].OwnsPack() ==> id !in s.stories)
          && (remove in s.calls ==> !AboutToStore(s, create, maxPacks))
          && (s.calls[create].HoldingPack? && s.calls[create].rolesOk ==> id in s.packs.holders))
  }

  lemma RemoveStaysHarmless(s: State, id: StoryId, create: CallId, remove: CallId, maxPacks: nat)
    requires Harmless(s, id, create, remove, maxPacks) && remove in s.calls
    ensures Harmless(Next(s, Proceed(remove), maxPacks), id, create, remove, maxPacks)
  {
    P.ReleaseShrinks(s.packs, id);
  }

  lemma CreateStaysHarmless(s: State, id: StoryId, create: CallId, remove: CallId, maxPacks: nat)
    requires Harmless(s, id, create, remove, maxPacks) && create in s.calls
    ensures Harmless(Next(s, Proceed(create), maxPacks), id, create, remove, maxPacks)
  {
    P.ReleaseShrinks(s.packs, id);
  }

  lemma {:induction false} HarmlessForEver(s: State, id: StoryId, create: CallId, remove: CallId, moves: seq<CallId>,
                                           maxPacks: nat)
    requires Harmless(s, id, create, remove, maxPacks) && OnlyMoves(moves, create, remove)
    ensures Harmless(Played(s, moves, maxPacks), id, create, remove, maxPacks)
  {
    if moves != [] {
      var init, last := moves[..|moves| - 1], moves[|moves| - 1];
      HarmlessForEver(s, id, create, remove, init, maxPacks);
      var before := Played(s, init, maxPacks);
      if last in before.calls {
        if last == create {
          CreateStaysHarmless(before, id, create, remove, maxPacks);
        } else {
          RemoveStaysHarmless(before, id, create, remove, maxPacks);
        }
      }
    }
  }

  // ---------------------------------------------------------------- when the pack can be lost

  lemma PlayedOne(s: State, c: CallId, maxPacks: nat)
    requires c in s.calls
    ensures Played(s, [c], maxPacks) == Next(s, Proceed(c), maxPacks)
  {
    assert [c][..0] == [];
  }

  lemma {:induction false} PlayedBoth(s: State, a: seq<CallId>, b: seq<CallId>, maxPacks: nat)
    ensures Played(s, a + b, maxPacks) == Played(Played(s, a, maxPacks), b, maxPacks)
    decreases |b|
  {
    if b == [] {
      assert a + b == a;
    } else {
      var init := b[..|b| - 1];
      assert (a + b)[..|a + b| - 1] == a + init;
      PlayedBoth(s, a, init, maxPacks);
    }
  }

  /** Delete, release, store: the pack is gone and the story is there. */
  lemma HeldPackIsLost(s: State, id: StoryId, create: CallId, remove: CallId, maxPacks: nat)
    requires create != remove && At(s, create, HoldingPack(id, true)) && At(s, remove, Removing(id))
    ensures Lost(Played(s, [remove, remove, create], maxPacks), id)
  {
    var s1 := Next(s, Proceed(remove), maxPacks);
    var s2 := Next(s1, Proceed(remove), maxPacks);
    P.ReleaseShrinks(s1.packs, id);
    PlayedOne(s, remove, maxPacks);
    PlayedOne(s1, remove, maxPacks);
    PlayedOne(s2, create, maxPacks);
    PlayedBoth(s, [remove], [remove], maxPacks);
    PlayedBoth(s, [remove] + [remove], [create], maxPacks);
    assert [remove] + [remove] + [create] == [remove, remove, create];
  }

  lemma AboutToStoreCanLose(s: State, id: StoryId, create: CallId, remove: CallId, maxPacks: nat)
    requires create in s.calls && s.calls[create].id == id && AboutToStore(s, create, maxPacks)
    requires create != remove && At(s, remove, Removing(id))
    ensures CanLose(s, id, create, remove, maxPacks)
  {
    if s.calls[create].HoldingPack? {
      HeldPackIsLost(s, id, create, remove, maxPacks);
      assert OnlyMoves([remove, remove, create], create, remove);
    } else {
      var s' := Next(s, Proceed(create), maxPacks);
      HeldPackIsLost(s', id, create, remove, maxPacks);
      PlayedOne(s, create, maxPacks);
      PlayedBoth(s, [create], [remove, remove, create], maxPacks);
      assert [create] + [remove, remove, create] == [create, remove, remove, create];
      assert OnlyMoves([create, remove, remove, create], create, remove);
    }
  }

  /**
   In every state the protocol keeps: a remove that comes in while the story is being created can, together
   with that create alone, leave the story stored without its pack if and only if the create is about to store
   it. Every other overlap is harmless.
   */
  lemma RemoveDuringCreateLosesPackIff(s: State, id: StoryId, create: CallId, remove: CallId, maxPacks: nat)
    requires Inv(s, maxPacks) && remove !in s.calls
    requires create in s.calls && s.calls[create].id == id && s.calls[create].IsCreate()
    ensures var s' := Next(s, BeginRemove(remove, id), maxPacks);
            CanLose(s', id, create, remove, maxPacks) <==> AboutToStore(s, create, maxPacks)
  {
    var s' := Next(s, BeginRemove(remove, id), maxPacks);
    assert CallFits(s, create);
    if AboutToStore(s, create, maxPacks) {
      AboutToStoreCanLose(s', id, create, remove, maxPacks);
    } else {
      assert Harmless(s', id, create, remove, maxPacks);
      if moves :| OnlyMoves(moves, create, remove) && Lost(Played(s', moves, maxPacks), id) {
        HarmlessForEver(s', id, create, remove, moves, maxPacks);
      }
    }
  }

  /** Such a state is reachable: the pack is retained, and the story is not stored yet. */
  lemma OverlapIsReachable(id: StoryId, packRef: P.PackRef, pack: P.Pack, maxPacks: nat) returns (s1: State, s2: State)
    requires maxPacks > 0
    ensures Follows(Initial(), BeginCreate(0, id, packRef, pack, true), s1, maxPacks)
    ensures Follows(s1, Proceed(0), s2, maxPacks)
    ensures Inv(s2, maxPacks) && AboutToStore(s2, 0, maxPacks)
  {
    s1 := State(Initial().packs, {}, map[0 := Creating(id, packRef, pack, true)], {});
    s2 := State(P.Retained(Initial().packs, id, packRef, pack), {}, map[0 := HoldingPack(id, true)], {});
    assert Inv(Initial(), maxPacks);
    NextKeepsInv(Initial(), BeginCreate(0, id, packRef, pack, true), maxPacks);
    NextKeepsInv(s1, Proceed(0), maxPacks);
  }
}
