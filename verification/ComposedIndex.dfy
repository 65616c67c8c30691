/**
 The activation index that authorizes seeds: the frozen index of the pack, without what the story has lost, and
 with what the story has added or changed.
 */
module ComposedIndex {
  import opened Wrappers
  import opened Widths
  import opened KnowledgeIds
  import opened StoryCommits
  import opened RowHistory

  /** The id of a row, as its readers parse it. */
  function IdOf(key: K.RowKey): Option<SourceId> {
    TrySourceId(key.kind, key.id)
  }

  function KeyOf(id: SourceId): K.RowKey {
    K.RowKey(id.kind, id.Text())
  }

  lemma RowIdRoundTrip(key: K.RowKey, id: SourceId)
    ensures IdOf(key) == Some(id) <==> id.Valid() && KeyOf(id) == key
  {
    SourceIdRoundTrip(key.kind, key.id, id);
  }

  // ---------------------------------------------------------------- composition

  type Entries = map<SourceId, K.IndexEntry>

  datatype IndexLimits = IndexLimits(maxEntries: nat, maxOverlayEntries: nat, maxTombstones: nat)

  datatype IndexError = TooManyOverlayEntries | TooManyTombstones | TooManyEntries

  function Upserts(entries: Entries): Entries {
    map id | id in entries && !entries[id].fromPack :: entries[id]
  }

  function Tombstones(pack: Entries, entries: Entries): set<SourceId> {
    pack.Keys - entries.Keys
  }

  function Composed(pack: Entries, entries: Entries): Entries {
    (pack - Tombstones(pack, entries)) + Upserts(entries)
  }

  function Compose(pack: Entries, entries: Entries, limits: IndexLimits): Result<Entries, IndexError> {
    if |Upserts(entries)| > limits.maxOverlayEntries then Err(TooManyOverlayEntries)
    else if |Tombstones(pack, entries)| > limits.maxTombstones then Err(TooManyTombstones)
    else if |Composed(pack, entries)| > limits.maxEntries then Err(TooManyEntries)
    else Ok(Composed(pack, entries))
  }

  /** Every row that counts as the pack's is one of the pack's. */
  ghost predicate SeedsInPack(pack: Entries, entries: Entries) {
    forall id :: id in entries && entries[id].fromPack ==> id in pack
  }

  /** The composed index has exactly the loaded entries if and only if the seeded ones carry ids of the pack. */
  lemma ComposedIsLoadedIff(pack: Entries, entries: Entries)
    ensures Composed(pack, entries).Keys == entries.Keys <==> SeedsInPack(pack, entries)
    ensures forall id :: id in Composed(pack, entries) ==>
      id in entries && Composed(pack, entries)[id] == if entries[id].fromPack then pack[id] else entries[id]
  {
    var composed := Composed(pack, entries);
    forall id ensures id in composed <==> id in entries && (entries[id].fromPack ==> id in pack) {
    }
    if composed.Keys == entries.Keys {
      forall id | id in entries && entries[id].fromPack ensures id in pack {
        assert id in composed.Keys;
      }
    }
  }

  // ---------------------------------------------------------------- the two sides of it

  /** Loaded entries by id. */
  function ById(index: map<K.RowKey, K.IndexEntry>): Entries {
    var ids := set key | key in index && IdOf(key).Some? :: IdOf(key).value;
    map id | id in ids && KeyOf(id) in index :: index[KeyOf(id)]
  }

  lemma LoadedById(index: map<K.RowKey, K.IndexEntry>, id: SourceId)
    ensures id in ById(index) <==> id.Valid() && KeyOf(id) in index
    ensures id in ById(index) ==> ById(index)[id] == index[KeyOf(id)]
  {
    RowIdRoundTrip(KeyOf(id), id);
    if id in ById(index) {
      var key :| key in index && IdOf(key).Some? && IdOf(key).value == id;
      RowIdRoundTrip(key, id);
    }
  }

  /** Ids are assigned one after the other. */
  function AllocatedIds(base: nat, kinds: seq<Kind>): seq<SourceId> {
    seq(|kinds|, i requires 0 <= i < |kinds| => SourceId(kinds[i], base + 1 + i))
  }

  datatype AllocationError = SequenceOverflow

  method AllocateKnowledgeIds(base: nat, kinds: seq<Kind>) returns (r: Result<seq<SourceId>, AllocationError>)
    requires base <= I64_MAX
    ensures r.Ok? <==> base + |kinds| <= I64_MAX
    ensures r.Ok? ==> r.value == AllocatedIds(base, kinds) && forall i :: 0 <= i < |kinds| ==> r.value[i].Valid()
  {
    var next := base;
    var ids: seq<SourceId> := [];
    for i := 0 to |kinds|
      invariant next == base + i <= I64_MAX && |ids| == i
      invariant forall k :: 0 <= k < i ==> ids[k] == SourceId(kinds[k], base + 1 + k)
    {
      if next + 1 > I64_MAX { return Err(SequenceOverflow); }
      next := next + 1;
      ids := ids + [SourceId(kinds[i], next)];
    }
    r := Ok(ids);
  }

  function KindsOf(entries: seq<K.Entry>): seq<Kind> {
    seq(|entries|, i requires 0 <= i < |entries| => entries[i].Kind())
  }

  /** The seeds of a story: the first `p` are the pack's facts and rumors, the rest memories, with ids in that order. */
  ghost predicate Materialized(spec: CreateSpec, p: nat) {
    && p <= |spec.knowledge| <= I64_MAX
    && forall i :: 0 <= i < |spec.knowledge| ==>
         && K.KeyOf(spec.knowledge[i]) == KeyOf(AllocatedIds(0, KindsOf(spec.knowledge))[i])
         && (spec.knowledge[i].MemoryEntry? <==> p <= i)
  }

  /** The pack's own entries, whose ids are assigned again from the facts and rumors alone. */
  ghost predicate IsPack(pack: Entries, spec: CreateSpec, p: nat)
    requires p <= |spec.knowledge|
  {
    && (forall id :: id in pack <==> id in AllocatedIds(0, KindsOf(spec.knowledge[..p])))
    && (forall id :: id in pack ==> pack[id].key == KeyOf(id))
  }

  /** Both assignments give the pack's facts and rumors the same ids. */
  lemma SameIds(spec: CreateSpec, p: nat, i: nat)
    requires i < p <= |spec.knowledge|
    ensures AllocatedIds(0, KindsOf(spec.knowledge))[i] in AllocatedIds(0, KindsOf(spec.knowledge[..p]))
  {
    assert AllocatedIds(0, KindsOf(spec.knowledge[..p]))[i] == AllocatedIds(0, KindsOf(spec.knowledge))[i];
  }

  lemma SeedIsInPack(spec: CreateSpec, p: nat, pack: Entries, i: nat, id: SourceId)
    requires Materialized(spec, p) && IsPack(pack, spec, p) && i < p && id.Valid()
    requires KeyOf(id) == K.KeyOf(spec.knowledge[i])
    ensures id in pack
  {
    var seeded := AllocatedIds(0, KindsOf(spec.knowledge))[i];
    TextIsInjective(id, seeded);
    SameIds(spec, p, i);
  }

  /** In every reachable state the seeded entries carry ids of the pack, so the composed index is the loaded one. */
  lemma ReachableSeedsInPack(spec: CreateSpec, cs: seq<Commit>, p: nat, pack: Entries, packDigest: string,
                             maxEntries: nat, maxOverlay: nat)
    requires Create(spec).Ok? && Materialized(spec, p) && IsPack(pack, spec, p)
    requires forall k :: 0 <= k < |cs| ==> FromTurns(cs[k].mutations)
    requires K.LoadIndex(RunOf(Create(spec).value, cs).rows, packDigest, maxEntries, maxOverlay).Ok?
    ensures var index := K.LoadIndex(RunOf(Create(spec).value, cs).rows, packDigest, maxEntries, maxOverlay).value;
            SeedsInPack(pack, ById(index)) && Composed(pack, ById(index)).Keys == ById(index).Keys
  {
    var rows := RunOf(Create(spec).value, cs).rows;
    var index := K.LoadIndex(rows, packDigest, maxEntries, maxOverlay).value;
    forall id | id in ById(index) && ById(index)[id].fromPack ensures id in pack {
      LoadedById(index, id);
      LoadedRow(rows, packDigest, maxEntries, maxOverlay, KeyOf(id));
      var i := PackRowsWereSeeded(spec, cs, KeyOf(id));
      SeedIsInPack(spec, p, pack, i, id);
    }
    ComposedIsLoadedIff(pack, ById(index));
  }

  lemma LoadedRow(rows: K.Rows, packDigest: string, maxEntries: nat, maxOverlay: nat, key: K.RowKey)
    requires K.LoadIndex(rows, packDigest, maxEntries, maxOverlay).Ok?
    ensures var index := K.LoadIndex(rows, packDigest, maxEntries, maxOverlay).value;
            && (key in index <==> key in K.Visible(rows))
            && (key in index ==>
                  && key in rows && !key.kind.Memory? && index[key].key == key
                  && (index[key].fromPack ==> rows[key].source.Seed?))
  {
  }
}
