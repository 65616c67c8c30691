/** The pack store over whole runs: under which reference, and with which pack, a story holds what it holds. */
module PackHistory {
  import opened Wrappers
  import opened PackStore

  datatype Call = Retain(id: StoryId, packRef: PackRef, pack: Pack) | Release(id: StoryId)

  function After(s: Snapshots, call: Call, maxPacks: nat): Snapshots {
    match call
    case Retain(id, packRef, pack) => AfterRetain(s, id, packRef, pack, maxPacks)
    case Release(id) => Released(s, id)
  }

  function RunOf(calls: seq<Call>, maxPacks: nat): Snapshots {
    if calls == [] then Snapshots(map[], map[])
    else After(RunOf(calls[..|calls| - 1], maxPacks), calls[|calls| - 1], maxPacks)
  }

  /** The reference each holder retained its pack with: of the call that made it a holder. */
  function References(calls: seq<Call>, maxPacks: nat): map<StoryId, PackRef> {
    if calls == [] then map[]
    else
      var n := |calls| - 1;
      ReferencesAfter(References(calls[..n], maxPacks), calls[n], RunOf(calls, maxPacks))
  }

  /** A pack is kept under the reference and with the content of some call that retained it. */
  ghost predicate Brought(calls: seq<Call>, packRef: PackRef, pack: Pack) {
    exists i :: 0 <= i < |calls| && calls[i].Retain? && calls[i].packRef == packRef && calls[i].pack == pack
  }

  /** A story holds exactly if it has a reference, and then the pack of that very reference. */
  predicate HoldsAs(refs: map<StoryId, PackRef>, s: Snapshots, id: StoryId) {
    && (id in refs <==> id in s.holders)
    && (id in refs ==>
          && s.holders[id] == refs[id].digest && refs[id].digest in s.packs
          && s.packs[refs[id].digest].packRef == refs[id])
  }

  ghost predicate PackBrought(calls: seq<Call>, s: Snapshots, d: Digest) {
    d in s.packs ==> Brought(calls, s.packs[d].packRef, s.packs[d].value)
  }

  /** Every holder holds under its own reference, and every pack was brought by a call with that reference. */
  ghost predicate HeldAsRetained(calls: seq<Call>, refs: map<StoryId, PackRef>, s: Snapshots) {
    (forall id :: HoldsAs(refs, s, id)) && (forall d :: PackBrought(calls, s, d))
  }

  lemma BroughtStays(calls: seq<Call>, call: Call, packRef: PackRef, pack: Pack)
    requires Brought(calls, packRef, pack)
    ensures Brought(calls + [call], packRef, pack)
  {
    var i :| 0 <= i < |calls| && calls[i].Retain? && calls[i].packRef == packRef && calls[i].pack == pack;
    assert (calls + [call])[i] == calls[i];
  }

  function ReferencesAfter(refs: map<StoryId, PackRef>, call: Call, s': Snapshots): map<StoryId, PackRef> {
    match call
    case Retain(id, packRef, _) => if id !in refs && id in s'.holders then refs[id := packRef] else refs
    case Release(id) => refs - {id}
  }

  lemma RetainHolds(refs: map<StoryId, PackRef>, s: Snapshots, call: Call, maxPacks: nat, id: StoryId)
    requires call.Retain? && HoldsAs(refs, s, id) && HoldsAs(refs, s, call.id)
    ensures var s' := After(s, call, maxPacks); HoldsAs(ReferencesAfter(refs, call, s'), s', id)
  {
  }

  lemma ReleaseHolds(refs: map<StoryId, PackRef>, s: Snapshots, call: Call, maxPacks: nat, id: StoryId)
    requires call.Release? && HoldsAs(refs, s, id)
    requires id in s.holders ==> Listed(s, id, s.holders[id])
    ensures var s' := After(s, call, maxPacks); HoldsAs(ReferencesAfter(refs, call, s'), s', id)
  {
    ReleaseShrinks(s, call.id);
    if id in s.holders && id != call.id && call.id in s.holders && s.holders[call.id] == s.holders[id] {
      assert id in s.packs[s.holders[id]].holders - {call.id};
    }
  }

  lemma StepBrings(calls: seq<Call>, s: Snapshots, call: Call, maxPacks: nat, d: Digest)
    requires PackBrought(calls, s, d)
    ensures PackBrought(calls + [call], After(s, call, maxPacks), d)
  {
    assert (calls + [call])[|calls|] == call;
    if d in s.packs {
      BroughtStays(calls, call, s.packs[d].packRef, s.packs[d].value);
    }
  }

  lemma StepKeepsHeld(calls: seq<Call>, refs: map<StoryId, PackRef>, s: Snapshots, call: Call, maxPacks: nat)
    requires HeldAsRetained(calls, refs, s) && Indexed(s, maxPacks)
    ensures var s' := After(s, call, maxPacks); HeldAsRetained(calls + [call], ReferencesAfter(refs, call, s'), s')
  {
    var s' := After(s, call, maxPacks);
    forall id ensures HoldsAs(ReferencesAfter(refs, call, s'), s', id) {
      assert HoldsAs(refs, s, id) && HoldsAs(refs, s, call.id);
      if call.Retain? {
        RetainHolds(refs, s, call, maxPacks, id);
      } else {
        assert id in s.holders ==> Holds(s, id, s.holders[id]);
        ReleaseHolds(refs, s, call, maxPacks, id);
      }
    }
    forall d ensures PackBrought(calls + [call], s', d) {
      assert PackBrought(calls, s, d);
      StepBrings(calls, s, call, maxPacks, d);
    }
  }

  /**
   In every run each holder holds exactly the pack reference it retained, and the pack kept under it is one that was
   retained with that reference; so reading it back by that reference succeeds.
   */
  lemma {:induction false} EveryHolderHoldsItsReference(calls: seq<Call>, maxPacks: nat)
    ensures Indexed(RunOf(calls, maxPacks), maxPacks)
    ensures HeldAsRetained(calls, References(calls, maxPacks), RunOf(calls, maxPacks))
  {
    if calls != [] {
      var init, last := calls[..|calls| - 1], calls[|calls| - 1];
      EveryHolderHoldsItsReference(init, maxPacks);
      var s := RunOf(init, maxPacks);
      assert init + [last] == calls;
      match last {
        case Retain(id, packRef, pack) => RetainKeepsIndex(s, id, packRef, pack, maxPacks);
        case Release(id) => ReleaseKeepsIndex(s, id, maxPacks);
      }
      StepKeepsHeld(init, References(init, maxPacks), s, last, maxPacks);
    }
  }

  // ---------------------------------------------------------------- when a retain succeeds

  predicate IsHeld(refs: map<StoryId, PackRef>, d: Digest) {
    exists id :: id in refs && refs[id].digest == d
  }

  function HeldDigests(refs: map<StoryId, PackRef>): (digests: set<Digest>)
    ensures forall d :: d in digests <==> IsHeld(refs, d)
  {
    set id | id in refs :: refs[id].digest
  }

  /** Everybody who holds the digest of this reference retained it with this very reference. */
  predicate AllAgree(refs: map<StoryId, PackRef>, packRef: PackRef) {
    forall id :: id in refs && refs[id].digest == packRef.digest ==> refs[id] == packRef
  }

  /** A digest is kept exactly if somebody holds it. */
  lemma KeptIffHeld(refs: map<StoryId, PackRef>, s: Snapshots, maxPacks: nat, d: Digest)
    requires Indexed(s, maxPacks) && forall id :: HoldsAs(refs, s, id)
    ensures d in s.packs <==> IsHeld(refs, d)
  {
    if d in s.packs {
      assert Kept(s, d);
      var id :| id in s.packs[d].holders;
      assert Listed(s, id, d) && Holds(s, id, d);
      assert HoldsAs(refs, s, id);
    }
    if IsHeld(refs, d) {
      var id :| id in refs && refs[id].digest == d;
      assert HoldsAs(refs, s, id);
    }
  }

  lemma ReferenceAgreesIff(refs: map<StoryId, PackRef>, s: Snapshots, packRef: PackRef)
    requires forall id :: HoldsAs(refs, s, id)
    requires packRef.digest in s.packs && IsHeld(refs, packRef.digest)
    ensures s.packs[packRef.digest].packRef == packRef <==> AllAgree(refs, packRef)
  {
    var holder :| holder in refs && refs[holder].digest == packRef.digest;
    assert HoldsAs(refs, s, holder);
    forall id | id in refs && refs[id].digest == packRef.digest ensures refs[id] == s.packs[packRef.digest].packRef {
      assert HoldsAs(refs, s, id);
    }
  }

  /** The outcome of a retain, by the references the stories hold. */
  predicate Verdict(refs: map<StoryId, PackRef>, maxPacks: nat, id: StoryId, packRef: PackRef, r: Result<(), Error>) {
    var held, count := IsHeld(refs, packRef.digest), |HeldDigests(refs)|;
    && (r.Ok? <==> id !in refs && AllAgree(refs, packRef) && (held || count < maxPacks))
    && (r == Err(StoryHolderAlreadyExists(id)) <==> id in refs)
    && (r == Err(InvalidPackReference(packRef)) <==> id !in refs && !AllAgree(refs, packRef))
    && (r == Err(PackCapacityExceeded(count + 1, maxPacks)) <==> id !in refs && !held && count >= maxPacks)
  }

  /**
   When a retain makes the story a holder: exactly if it holds nothing yet, everybody who holds the same digest
   retained it with the same reference, and, if nobody does, there is room for one more pack. Otherwise the error
   names which of the three fails.
   */
  lemma RetainSucceedsIff(calls: seq<Call>, maxPacks: nat, id: StoryId, packRef: PackRef)
    ensures Verdict(References(calls, maxPacks), maxPacks, id, packRef,
                    RetainError(RunOf(calls, maxPacks), id, packRef, maxPacks))
  {
    EveryHolderHoldsItsReference(calls, maxPacks);
    RetainErrorMeans(References(calls, maxPacks), RunOf(calls, maxPacks), maxPacks, id, packRef);
  }

  lemma KeptAreHeld(refs: map<StoryId, PackRef>, s: Snapshots, maxPacks: nat)
    requires Indexed(s, maxPacks) && forall id :: HoldsAs(refs, s, id)
    ensures s.packs.Keys == HeldDigests(refs)
  {
    forall d ensures d in s.packs.Keys <==> d in HeldDigests(refs) {
      KeptIffHeld(refs, s, maxPacks, d);
    }
  }

  lemma RetainErrorMeans(refs: map<StoryId, PackRef>, s: Snapshots, maxPacks: nat, id: StoryId, packRef: PackRef)
    requires Indexed(s, maxPacks) && forall id :: HoldsAs(refs, s, id)
    ensures Verdict(refs, maxPacks, id, packRef, RetainError(s, id, packRef, maxPacks))
  {
    KeptAreHeld(refs, s, maxPacks);
    assert HoldsAs(refs, s, id);
    assert |s.packs| == |s.packs.Keys|;
    if packRef.digest in HeldDigests(refs) {
      ReferenceAgreesIff(refs, s, packRef);
    } else {
      assert AllAgree(refs, packRef);
    }
  }
}
