/**
 The in-memory pack store: pack snapshots by digest, each kept for as long as some story holds it.
 */
module PackStore {
  import opened Wrappers

  type StoryId = string
  type Digest = string
  type Pack = string

  datatype PackRef = PackRef(key: string, version: string, digest: Digest)

  datatype Snapshot = Snapshot(packRef: PackRef, value: Pack, holders: set<StoryId>)

  /** The two maps of the store: packs by digest, and the digest each story holds. */
  datatype Snapshots = Snapshots(packs: map<Digest, Snapshot>, holders: map<StoryId, Digest>)

  datatype Error =
    | NotFound
    | StoryHolderAlreadyExists(id: StoryId)
    | PackCapacityExceeded(actual: nat, maximum: nat)
    | InvalidPackReference(packRef: PackRef)

  // ---------------------------------------------------------------- the operations, on values

  function RetainError(s: Snapshots, id: StoryId, packRef: PackRef, maxPacks: nat): Result<(), Error> {
    if id in s.holders then Err(StoryHolderAlreadyExists(id))
    else if packRef.digest !in s.packs && |s.packs| >= maxPacks then
      Err(PackCapacityExceeded(|s.packs| + 1, maxPacks))
    else if packRef.digest in s.packs && s.packs[packRef.digest].packRef != packRef then
      Err(InvalidPackReference(packRef))
    else Ok(())
  }

  function Retained(s: Snapshots, id: StoryId, packRef: PackRef, pack: Pack): Snapshots {
    var kept := if packRef.digest in s.packs then s.packs[packRef.digest] else Snapshot(packRef, pack, {});
    Snapshots(s.packs[packRef.digest := kept.(holders := kept.holders + {id})], s.holders[id := packRef.digest])
  }

  /** The store after a retain, which changes nothing when it is refused. */
  function AfterRetain(s: Snapshots, id: StoryId, packRef: PackRef, pack: Pack, maxPacks: nat): Snapshots {
    if RetainError(s, id, packRef, maxPacks).Ok? then Retained(s, id, packRef, pack) else s
  }

  function Released(s: Snapshots, id: StoryId): Snapshots {
    if id !in s.holders then s
    else
      var digest := s.holders[id];
      var holders := s.holders - {id};
      if digest !in s.packs then Snapshots(s.packs, holders)
      else
        var kept := s.packs[digest].holders - {id};
        if kept == {} then Snapshots(s.packs - {digest}, holders)
        else Snapshots(s.packs[digest := s.packs[digest].(holders := kept)], holders)
  }

  // ---------------------------------------------------------------- the invariant

  predicate Holds(s: Snapshots, id: StoryId, d: Digest) {
    id in s.holders && s.holders[id] == d
  }

  predicate Listed(s: Snapshots, id: StoryId, d: Digest) {
    d in s.packs && id in s.packs[d].holders
  }

  ghost predicate Inverse(s: Snapshots) {
    forall id, d :: Holds(s, id, d) <==> Listed(s, id, d)
  }

  predicate Kept(s: Snapshots, d: Digest) {
    d in s.packs ==> s.packs[d].holders != {} && s.packs[d].packRef.digest == d
  }

  /** The holder maps are mutual inverses, every kept pack has a holder, and the capacity is respected. */
  ghost predicate Indexed(s: Snapshots, maxPacks: nat) {
    Inverse(s) && (forall d :: Kept(s, d)) && |s.packs| <= maxPacks
  }

  class Store {
    const maxPacks: nat
    var packs: map<Digest, Snapshot>
    var holders: map<StoryId, Digest>

    function View(): Snapshots
      reads this
    {
      Snapshots(packs, holders)
    }

    ghost predicate Valid()
      reads this
    {
      Indexed(View(), maxPacks)
    }

    constructor (maxPacks: nat)
      ensures Valid() && View() == Snapshots(map[], map[]) && this.maxPacks == maxPacks
    {
      this.maxPacks := maxPacks;
      packs, holders := map[], map[];
    }

    method Retain(id: StoryId, packRef: PackRef, pack: Pack) returns (r: Result<(), Error>)
      requires Valid()
      modifies this
      ensures Valid()
      ensures r == RetainError(old(View()), id, packRef, maxPacks)
      ensures View() == AfterRetain(old(View()), id, packRef, pack, maxPacks)
    {
      RetainKeepsIndex(View(), id, packRef, pack, maxPacks);
      if id in holders { return Err(StoryHolderAlreadyExists(id)); }
      if packRef.digest !in packs && |packs| >= maxPacks {
        return Err(PackCapacityExceeded(|packs| + 1, maxPacks));
      }
      if packRef.digest in packs && packs[packRef.digest].packRef != packRef {
        return Err(InvalidPackReference(packRef));
      }
      var kept := if packRef.digest in packs then packs[packRef.digest] else Snapshot(packRef, pack, {});
      packs := packs[packRef.digest := kept.(holders := kept.holders + {id})];
      holders := holders[id := packRef.digest];
      r := Ok(());
    }

    method Release(id: StoryId)
      requires Valid()
      modifies this
      ensures Valid()
      ensures View() == Released(old(View()), id)
    {
      ReleaseKeepsIndex(View(), id, maxPacks);
      if id !in holders { return; }
      var digest := holders[id];
      holders := holders - {id};
      if digest in packs {
        var kept := packs[digest].holders - {id};
        if kept == {} {
          packs := packs - {digest};
        } else {
          packs := packs[digest := packs[digest].(holders := kept)];
        }
      }
    }

    method Get(packRef: PackRef) returns (r: Result<Pack, Error>)
      ensures r.Ok? <==> packRef.digest in packs && packs[packRef.digest].packRef == packRef
      ensures r.Ok? ==> r.value == packs[packRef.digest].value
      ensures r.Err? ==> r.error == if packRef.digest in packs then InvalidPackReference(packRef) else NotFound
    {
      if packRef.digest !in packs { return Err(NotFound); }
      if packs[packRef.digest].packRef != packRef { return Err(InvalidPackReference(packRef)); }
      r := Ok(packs[packRef.digest].value);
    }
  }

  // ---------------------------------------------------------------- theorems

  lemma RetainedAt(s: Snapshots, id: StoryId, packRef: PackRef, pack: Pack, i: StoryId, d: Digest)
    requires id !in s.holders
    requires Holds(s, i, d) <==> Listed(s, i, d)
    ensures Holds(Retained(s, id, packRef, pack), i, d) <==> Listed(Retained(s, id, packRef, pack), i, d)
  {
  }

  lemma ReleasedAt(s: Snapshots, id: StoryId, i: StoryId, d: Digest)
    requires Holds(s, i, d) <==> Listed(s, i, d)
    requires Holds(s, id, d) <==> Listed(s, id, d)
    ensures Holds(Released(s, id), i, d) <==> Listed(Released(s, id), i, d)
  {
  }

  lemma RetainKeepsIndex(s: Snapshots, id: StoryId, packRef: PackRef, pack: Pack, maxPacks: nat)
    requires Indexed(s, maxPacks)
    ensures Indexed(AfterRetain(s, id, packRef, pack, maxPacks), maxPacks)
  {
    if RetainError(s, id, packRef, maxPacks).Ok? {
      var s' := Retained(s, id, packRef, pack);
      assert s'.packs.Keys == s.packs.Keys + {packRef.digest};
      forall i, d
        ensures Holds(s', i, d) <==> Listed(s', i, d)
      {
        RetainedAt(s, id, packRef, pack, i, d);
      }
      forall d
        ensures Kept(s', d)
      {
        assert Kept(s, d);
        assert d == packRef.digest ==> id in s'.packs[d].holders;
      }
    }
  }

  lemma ReleaseShrinks(s: Snapshots, id: StoryId)
    ensures |Released(s, id).packs| <= |s.packs|
    ensures Released(s, id).holders == s.holders - {id}
  {
    CountSubset(Released(s, id).packs.Keys, s.packs.Keys);
  }

  lemma ReleasedKept(s: Snapshots, id: StoryId, d: Digest)
    requires Kept(s, d)
    ensures Kept(Released(s, id), d)
  {
  }

  lemma ReleaseKeepsIndex(s: Snapshots, id: StoryId, maxPacks: nat)
    requires Indexed(s, maxPacks)
    ensures Indexed(Released(s, id), maxPacks)
    ensures Released(s, id).holders == s.holders - {id}
  {
    var s' := Released(s, id);
    ReleaseShrinks(s, id);
    forall i, d
      ensures Holds(s', i, d) <==> Listed(s', i, d)
    {
      ReleasedAt(s, id, i, d);
    }
    forall d
      ensures Kept(s', d)
    {
      ReleasedKept(s, id, d);
    }
  }

  lemma CountSubset(a: set<Digest>, b: set<Digest>)
    requires a <= b
    ensures |a| <= |b|
  {
    assert b == a + (b - a);
  }

  lemma AddedThenReleased(s: Snapshots, id: StoryId, packRef: PackRef, pack: Pack)
    requires var d := packRef.digest; d in s.packs ==> id !in s.packs[d].holders && s.packs[d].holders != {}
    requires id !in s.holders
    ensures Released(Retained(s, id, packRef, pack), id) == s
  {
    var d := packRef.digest;
    var s' := Retained(s, id, packRef, pack);
    assert s'.holders - {id} == s.holders;
    if d in s.packs {
      assert s'.packs[d].holders - {id} == s.packs[d].holders;
      assert s'.packs[d := s.packs[d]] == s.packs;
    } else {
      assert s'.packs[d].holders - {id} == {};
      assert s'.packs - {d} == s.packs;
    }
  }

  /** A successful retain followed by a release of the same story restores the store exactly. */
  lemma RetainThenRelease(s: Snapshots, id: StoryId, packRef: PackRef, pack: Pack, maxPacks: nat)
    requires Indexed(s, maxPacks) && RetainError(s, id, packRef, maxPacks).Ok?
    ensures Released(AfterRetain(s, id, packRef, pack, maxPacks), id) == s
  {
    assert Holds(s, id, packRef.digest) <==> Listed(s, id, packRef.digest);
    assert Kept(s, packRef.digest);
    AddedThenReleased(s, id, packRef, pack);
  }

  /** A release can always be undone by retaining the very pack that was released. */
  lemma ReleaseThenRetain(s: Snapshots, id: StoryId, maxPacks: nat)
    requires Indexed(s, maxPacks) && id in s.holders && Holds(s, id, s.holders[id])
    ensures Listed(s, id, s.holders[id])
    ensures var kept := s.packs[s.holders[id]];
            && RetainError(Released(s, id), id, kept.packRef, maxPacks).Ok?
            && AfterRetain(Released(s, id), id, kept.packRef, kept.value, maxPacks) == s
  {
    var d := s.holders[id];
    assert Kept(s, d);
    ReleasedThenAdded(s, id, d);
    ReleasedIsFree(s, id, d, maxPacks);
  }

  /** A release makes room for what it released. */
  lemma ReleasedIsFree(s: Snapshots, id: StoryId, d: Digest, maxPacks: nat)
    requires Holds(s, id, d) && Listed(s, id, d) && s.packs[d].packRef.digest == d && |s.packs| <= maxPacks
    ensures RetainError(Released(s, id), id, s.packs[d].packRef, maxPacks).Ok?
  {
    if s.packs[d].holders - {id} == {} {
      assert s.packs.Keys == (s.packs - {d}).Keys + {d};
    }
  }

  lemma ReleasedThenAdded(s: Snapshots, id: StoryId, d: Digest)
    requires Holds(s, id, d) && Listed(s, id, d) && s.packs[d].packRef.digest == d
    ensures Retained(Released(s, id), id, s.packs[d].packRef, s.packs[d].value) == s
  {
    var kept := s.packs[d];
    var back := Retained(Released(s, id), id, kept.packRef, kept.value);
    assert back.holders == s.holders;
    assert kept.holders - {id} + {id} == kept.holders;
    assert back.packs[d].holders == kept.holders;
    assert back.packs == s.packs;
  }
}
