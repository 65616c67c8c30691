/** The knowledge the planner is shown and the activation index, both read from the rows of one snapshot. */
module SnapshotKnowledge {
  import opened Wrappers
  import opened KnowledgeIds
  import opened RoleIds
  import opened RetrievalPlans
  import opened RetrievalRoutes
  import opened PlanAudience
  import opened StoryCommits
  import opened RowHistory
  import opened ComposedIndex

  // ---------------------------------------------------------------- what the planner is shown

  /** A row the index reader accepts: its id parses and it has a retrieval hint. */
  predicate Listable(rows: K.Rows, key: K.RowKey) {
    key in rows && IdOf(key).Some? && rows[key].hint.Some?
  }

  datatype ShownError = InvalidRecord | IndexLimitExceeded

  method ReadRecord(rows: K.Rows, key: K.RowKey) returns (r: Result<SourceId, ShownError>)
    requires key in rows
    ensures r.Ok? <==> Listable(rows, key)
    ensures r.Ok? ==> IdOf(key) == Some(r.value)
  {
    var id := IdOf(key);
    if rows[key].hint.None? || id.None? { return Err(InvalidRecord); }
    r := Ok(id.value);
  }

  /** `records` are the ids of the first rows. */
  ghost predicate Records(rows: K.Rows, keys: seq<K.RowKey>, records: seq<SourceId>) {
    && |records| <= |keys|
    && forall i :: 0 <= i < |records| ==> Listable(rows, keys[i]) && IdOf(keys[i]) == Some(records[i])
  }

  lemma NextRecord(rows: K.Rows, keys: seq<K.RowKey>, records: seq<SourceId>, id: SourceId)
    requires Records(rows, keys, records) && |records| < |keys|
    requires Listable(rows, keys[|records|]) && IdOf(keys[|records|]) == Some(id)
    ensures Records(rows, keys, records + [id])
  {
  }

  /** `list_index`: the first `limit` visible rows, in query order. */
  method ListIndex(rows: K.Rows, keys: seq<K.RowKey>, limit: nat) returns (r: Result<seq<SourceId>, ShownError>)
    requires forall i :: 0 <= i < |keys| ==> keys[i] in rows
    ensures var n := if |keys| < limit then |keys| else limit;
            && (r.Ok? <==> forall i :: 0 <= i < n ==> Listable(rows, keys[i]))
            && (r.Ok? ==> |r.value| == n && Records(rows, keys, r.value))
  {
    var n := if |keys| < limit then |keys| else limit;
    var records: seq<SourceId> := [];
    while |records| < n
      invariant |records| <= n && Records(rows, keys, records)
    {
      var id :- ReadRecord(rows, keys[|records|]);
      NextRecord(rows, keys, records, id);
      records := records + [id];
    }
    r := Ok(records);
  }

  /**
   The knowledge index: the ids of all visible rows but those provided in full already, or none if there are
   too many.
   */
  method LoadKnowledgeIndex(rows: K.Rows, keys: seq<K.RowKey>, provided: set<SourceId>, maximum: nat)
    returns (r: Result<seq<SourceId>, ShownError>)
    requires K.Lists(keys, K.Visible(rows))
    ensures r.Ok? <==> |keys| <= maximum && forall i :: 0 <= i < |keys| ==> Listable(rows, keys[i])
    ensures r.Ok? ==> forall id :: id in r.value <==> IsShown(rows, id) && id !in provided
  {
    assert forall i :: 0 <= i < |keys| ==> keys[i] in keys;
    var records :- ListIndex(rows, keys, maximum + 1);
    if |records| > maximum { return Err(IndexLimitExceeded); }
    var entries := Without(records, provided);
    forall id ensures id in records <==> IsShown(rows, id) {
      RecordsAreShown(rows, keys, records, id);
    }
    r := Ok(entries);
  }

  method Without(records: seq<SourceId>, provided: set<SourceId>) returns (entries: seq<SourceId>)
    ensures forall id :: id in entries <==> id in records && id !in provided
  {
    entries := [];
    for i := 0 to |records|
      invariant forall id :: id in entries <==> id in records[..i] && id !in provided
    {
      assert records[..i + 1] == records[..i] + [records[i]];
      if records[i] !in provided {
        entries := entries + [records[i]];
      }
    }
    assert records[..|records|] == records;
  }

  /** A valid id with a visible row. */
  ghost predicate IsShown(rows: K.Rows, id: SourceId) {
    id.Valid() && KeyOf(id) in K.Visible(rows)
  }

  lemma RecordsAreShown(rows: K.Rows, keys: seq<K.RowKey>, records: seq<SourceId>, id: SourceId)
    requires K.Lists(keys, K.Visible(rows)) && |records| == |keys| && Records(rows, keys, records)
    ensures id in records <==> IsShown(rows, id)
  {
    if id in records {
      var i :| 0 <= i < |records| && records[i] == id;
      RowIdRoundTrip(keys[i], id);
      assert keys[i] in keys;
    }
    if IsShown(rows, id) {
      assert KeyOf(id) in keys;
      var i :| 0 <= i < |keys| && keys[i] == KeyOf(id);
      RowIdRoundTrip(keys[i], id);
    }
  }

  /** In a reachable state no visible row lacks its hint: the reader fails on a row exactly if its id does not parse. */
  lemma ReachableRowsAreListable(spec: CreateSpec, cs: seq<Commit>, key: K.RowKey)
    requires Create(spec).Ok? && key in K.Visible(RunOf(Create(spec).value, cs).rows)
    ensures Listable(RunOf(Create(spec).value, cs).rows, key) <==> IdOf(key).Some?
  {
    VisibleRowsHaveHints(spec, cs, key);
  }

  // ---------------------------------------------------------------- the activation index

  /** The kinds that authorization asks for. */
  function Kinds(entries: Entries): Metadata {
    map id | id in entries :: entries[id].key.kind
  }

  /** Whatever is shown has its entry, and its kind, in the index composed from the same rows and the pack. */
  lemma ShownIsActive(rows: K.Rows, pack: Entries, packDigest: string, maxEntries: nat, maxOverlay: nat, id: SourceId)
    requires IsShown(rows, id) && K.LoadIndex(rows, packDigest, maxEntries, maxOverlay).Ok?
    requires forall other :: other in pack ==> pack[other].key == KeyOf(other)
    requires SeedsInPack(pack, ById(K.LoadIndex(rows, packDigest, maxEntries, maxOverlay).value))
    ensures var loaded := ById(K.LoadIndex(rows, packDigest, maxEntries, maxOverlay).value);
            var index := Kinds(Composed(pack, loaded));
            id in index && index[id] == id.kind && !id.kind.Memory?
  {
    var index := K.LoadIndex(rows, packDigest, maxEntries, maxOverlay).value;
    LoadedRow(rows, packDigest, maxEntries, maxOverlay, KeyOf(id));
    LoadedById(index, id);
    ComposedIsLoadedIff(pack, ById(index));
    assert id in Composed(pack, ById(index)).Keys;
  }

  /**
   In every reachable state of a story: when the roles shown are the baseline's, and the knowledge shown and the
   entries the activation index is composed from come from the story's rows, every built plan passes the
   retrieval stage.
   */
  lemma PlanFromOneSnapshotRoutes(input: Input, plan: Plan, knowledge: seq<SourceId>, spec: CreateSpec, cs: seq<Commit>,
                                  p: nat, pack: Entries, packDigest: string, maxEntries: nat, maxOverlay: nat)
    requires ThinksFit(input) && GapsFit(input) && IsPlanOf(input, plan)
    requires SplitsRoles(input.snapshot, input.baseline) && Indexes(input.targets, input.baseline.roleIndex, knowledge)
    requires Create(spec).Ok? && Materialized(spec, p) && IsPack(pack, spec, p)
    requires forall k :: 0 <= k < |cs| ==> FromTurns(cs[k].mutations)
    requires K.LoadIndex(RunOf(Create(spec).value, cs).rows, packDigest, maxEntries, maxOverlay).Ok?
    requires forall id :: id in knowledge ==> IsShown(RunOf(Create(spec).value, cs).rows, id)
    ensures var rows := RunOf(Create(spec).value, cs).rows;
            var loaded := ById(K.LoadIndex(rows, packDigest, maxEntries, maxOverlay).value);
            RolesAreKnown(plan, input.snapshot) && AllRoutable(plan, Kinds(Composed(pack, loaded)))
    ensures Grouped(plan.knowledge) == map[]
  {
    ReachableSeedsInPack(spec, cs, p, pack, packDigest, maxEntries, maxOverlay);
    var rows := RunOf(Create(spec).value, cs).rows;
    PlanFromRowsRoutes(input, plan, knowledge, rows, pack, packDigest, maxEntries, maxOverlay);
  }

  lemma PlanFromRowsRoutes(input: Input, plan: Plan, knowledge: seq<SourceId>, rows: K.Rows, pack: Entries,
                           packDigest: string, maxEntries: nat, maxOverlay: nat)
    requires ThinksFit(input) && GapsFit(input) && IsPlanOf(input, plan)
    requires SplitsRoles(input.snapshot, input.baseline) && Indexes(input.targets, input.baseline.roleIndex, knowledge)
    requires K.LoadIndex(rows, packDigest, maxEntries, maxOverlay).Ok?
    requires forall other :: other in pack ==> pack[other].key == KeyOf(other)
    requires SeedsInPack(pack, ById(K.LoadIndex(rows, packDigest, maxEntries, maxOverlay).value))
    requires forall id :: id in knowledge ==> IsShown(rows, id)
    ensures var loaded := ById(K.LoadIndex(rows, packDigest, maxEntries, maxOverlay).value);
            RolesAreKnown(plan, input.snapshot) && AllRoutable(plan, Kinds(Composed(pack, loaded)))
    ensures Grouped(plan.knowledge) == map[]
  {
    var loaded := ById(K.LoadIndex(rows, packDigest, maxEntries, maxOverlay).value);
    var index := Kinds(Composed(pack, loaded));
    forall id | id in knowledge ensures id in index && index[id] == id.kind && !id.kind.Memory? {
      ShownIsActive(rows, pack, packDigest, maxEntries, maxOverlay, id);
    }
    BuiltPlanRoutes(input, plan, knowledge, index);
  }
}
