/**
 The knowledge rows of a persisted story: how a commit's mutations change them, what the
 activation index sees of them, and what the reader demands of them.
 */
module KnowledgeRows {
  import opened Wrappers
  import opened KnowledgeIds

  datatype RowError =
    | DuplicateRow
    | UpdateTargetMissing
    | DeleteTargetMissing
    | MemoryOwnerImmutable
    | KindMismatch
    | MaxEntries
    | MaxOverlayEntries
    | InvalidRecord

  datatype Source = Seed(packId: string, packDigest: string) | CommittedTurn(turn: nat)

  datatype Entry =
    | FactEntry(id: string, key: string, text: string, proposition: string, hint: string,
                rule: string, ruleVersion: string, salience: nat, source: Source)
    | RumorEntry(id: string, key: string, text: string, claim: string, hint: string,
                 rule: string, ruleVersion: string, salience: nat, sourceRole: Option<string>, truth: string,
                 source: Source)
    | MemoryEntry(id: string, owner: string, memoryKind: string, text: string, salience: nat, source: Source,
                  createdAt: int)
  {
    function Kind(): Kind {
      match this
      case FactEntry(_, _, _, _, _, _, _, _, _) => Fact
      case RumorEntry(_, _, _, _, _, _, _, _, _, _, _) => Rumor
      case MemoryEntry(_, _, _, _, _, _, _) => Memory
    }

    function Owner(): Option<string> {
      if MemoryEntry? then Some(owner) else None
    }

    function Hint(): Option<string> {
      if MemoryEntry? then None else Some(hint)
    }

    function Rule(): Option<string> {
      if MemoryEntry? then None else Some(rule)
    }

    function RuleVersion(): Option<string> {
      if MemoryEntry? then None else Some(ruleVersion)
    }
  }

  /** Primary key of a row within its story. */
  datatype RowKey = RowKey(kind: Kind, id: string)

  datatype Row = Row(owner: Option<string>, content: string, hint: Option<string>, salience: nat, source: Source,
                     payload: Entry, rule: Option<string>, ruleVersion: Option<string>)

  type Rows = map<RowKey, Row>

  datatype Deletable = DeletableRumor(id: string) | DeletableMemory(id: string)
  {
    function Key(): RowKey {
      match this
      case DeletableRumor(id) => RowKey(Rumor, id)
      case DeletableMemory(id) => RowKey(Memory, id)
    }
  }

  datatype Mutation = Add(entry: Entry) | Update(target: RowKey, value: Entry) | Delete(deleted: Deletable)

  // ---------------------------------------------------------------- mutations

  function RowOf(e: Entry): Row {
    Row(e.Owner(), e.text, e.Hint(), e.salience, e.source, e, e.Rule(), e.RuleVersion())
  }

  function KeyOf(e: Entry): RowKey {
    RowKey(e.Kind(), e.id)
  }

  /** Identity, key, owner and creation time stay; everything else is taken from the new value. */
  function Merge(prior: Entry, value: Entry): Result<Entry, RowError> {
    if prior.FactEntry? && value.FactEntry? then
      Ok(FactEntry(prior.id, prior.key, value.text, value.proposition, value.hint, value.rule, value.ruleVersion,
                   value.salience, value.source))
    else if prior.RumorEntry? && value.RumorEntry? then
      Ok(RumorEntry(prior.id, prior.key, value.text, value.claim, value.hint, value.rule, value.ruleVersion,
                    value.salience, value.sourceRole, value.truth, value.source))
    else if prior.MemoryEntry? && value.MemoryEntry? then
      if prior.owner != value.owner then Err(MemoryOwnerImmutable)
      else Ok(MemoryEntry(prior.id, prior.owner, value.memoryKind, value.text, value.salience, value.source,
                          prior.createdAt))
    else Err(KindMismatch)
  }

  /** The columns an update writes; the owner and retrieval-hint columns are not among them. */
  function Rewritten(row: Row, merged: Entry): Row {
    row.(content := merged.text, salience := merged.salience, source := merged.source, payload := merged,
         rule := merged.Rule(), ruleVersion := merged.RuleVersion())
  }

  function ApplyMutation(rows: Rows, m: Mutation): Result<Rows, RowError> {
    match m
    case Add(e) => if KeyOf(e) in rows then Err(DuplicateRow) else Ok(rows[KeyOf(e) := RowOf(e)])
    case Update(target, value) =>
      var key := RowKey(value.Kind(), target.id);
      if key !in rows then Err(UpdateTargetMissing)
      else
        var merged := Merge(rows[key].payload, value);
        if merged.Err? then Err(merged.error) else Ok(rows[key := Rewritten(rows[key], merged.value)])
    case Delete(d) => if d.Key() in rows then Ok(rows - {d.Key()}) else Err(DeleteTargetMissing)
  }

  function ApplyMutations(rows: Rows, ms: seq<Mutation>): Result<Rows, RowError> {
    if ms == [] then Ok(rows)
    else
      var before := ApplyMutations(rows, ms[..|ms| - 1]);
      if before.Err? then before else ApplyMutation(before.value, ms[|ms| - 1])
  }

  lemma {:induction false} FirstErrorStands(rows: Rows, ms: seq<Mutation>, i: nat)
    requires i <= |ms| && ApplyMutations(rows, ms[..i]).Err?
    ensures ApplyMutations(rows, ms) == ApplyMutations(rows, ms[..i])
  {
    if i == |ms| {
      assert ms[..i] == ms;
    } else {
      assert ms[..|ms| - 1][..i] == ms[..i];
      FirstErrorStands(rows, ms[..|ms| - 1], i);
    }
  }

  method MutateRows(rows: Rows, ms: seq<Mutation>) returns (r: Result<Rows, RowError>)
    ensures r == ApplyMutations(rows, ms)
  {
    var current := rows;
    for i := 0 to |ms|
      invariant ApplyMutations(rows, ms[..i]) == Ok(current)
    {
      assert ms[..i + 1][..i] == ms[..i];
      r := ApplyMutation(current, ms[i]);
      if r.Err? {
        FirstErrorStands(rows, ms, i + 1);
        return;
      }
      current := r.value;
    }
    assert ms[..|ms|] == ms;
    r := Ok(current);
  }

  // ---------------------------------------------------------------- rows agree with their payloads

  /** What the reader cross-checks, and the two activation columns. */
  predicate Agrees(key: RowKey, row: Row) {
    && KeyOf(row.payload) == key
    && row.payload.text == row.content
    && row.payload.salience == row.salience
    && row.payload.source == row.source
    && row.payload.Owner() == row.owner
    && row.payload.Rule() == row.rule
    && row.payload.RuleVersion() == row.ruleVersion
  }

  ghost predicate AllAgree(rows: Rows) {
    forall key :: key in rows ==> Agrees(key, rows[key])
  }

  lemma MergeKeepsIdentity(prior: Entry, value: Entry)
    ensures Merge(prior, value).Ok? <==> prior.Kind() == value.Kind() && prior.Owner() == value.Owner()
    ensures Merge(prior, value).Ok? ==>
              KeyOf(Merge(prior, value).value) == KeyOf(prior) && Merge(prior, value).value.Owner() == prior.Owner()
  {
  }

  lemma MutationKeepsAgreement(rows: Rows, m: Mutation)
    requires AllAgree(rows) && ApplyMutation(rows, m).Ok?
    ensures AllAgree(ApplyMutation(rows, m).value)
  {
    if m.Update? {
      var key := RowKey(m.value.Kind(), m.target.id);
      MergeKeepsIdentity(rows[key].payload, m.value);
      assert Agrees(key, rows[key]);
    }
  }

  lemma {:induction false} MutationsKeepAgreement(rows: Rows, ms: seq<Mutation>)
    requires AllAgree(rows) && ApplyMutations(rows, ms).Ok?
    ensures AllAgree(ApplyMutations(rows, ms).value)
  {
    if ms != [] {
      MutationsKeepAgreement(rows, ms[..|ms| - 1]);
      MutationKeepsAgreement(ApplyMutations(rows, ms[..|ms| - 1]).value, ms[|ms| - 1]);
    }
  }

  datatype Record = Record(key: RowKey, content: string, salience: nat, source: Source, owner: Option<string>,
                           rule: Option<string>, ruleVersion: Option<string>)

  /** The reader: a memory has an owner and nothing else has, and the columns match the payload. */
  function Materialize(key: RowKey, row: Row): Result<Record, RowError> {
    if key.kind.Memory? != row.owner.Some? then Err(InvalidRecord)
    else if KeyOf(row.payload).id != key.id || row.payload.Kind() != key.kind || row.payload.text != row.content
            || row.payload.salience != row.salience || row.payload.source != row.source
            || row.payload.Owner() != row.owner then Err(InvalidRecord)
    else
      Ok(Record(key, row.content, row.salience, row.source, row.owner, row.payload.Rule(), row.payload.RuleVersion()))
  }

  /** The reader never rejects a row that agrees with its payload, and then returns what the payload says. */
  lemma AgreeingRowsMaterialize(key: RowKey, row: Row)
    requires Agrees(key, row)
    ensures Materialize(key, row) ==
            Ok(Record(KeyOf(row.payload), row.payload.text, row.payload.salience, row.payload.source,
                      row.payload.Owner(), row.rule, row.ruleVersion))
  {
  }

  /** An update leaves the hint column as inserted, so it goes stale exactly when the new hint differs. */
  lemma UpdateLeavesHintColumn(rows: Rows, target: RowKey, value: Entry)
    requires AllAgree(rows) && !value.MemoryEntry? && ApplyMutation(rows, Update(target, value)).Ok?
    ensures var key := RowKey(value.Kind(), target.id);
            var after := ApplyMutation(rows, Update(target, value)).value;
            && key in rows && key in after
            && after[key].hint == rows[key].hint
            && after[key].payload.Hint() == Some(value.hint)
            && (after[key].hint == after[key].payload.Hint() <==> rows[key].hint == Some(value.hint))
  {
    var key := RowKey(value.Kind(), target.id);
    assert Agrees(key, rows[key]);
  }

  // ---------------------------------------------------------------- what the activation index sees

  datatype IndexEntry = IndexEntry(key: RowKey, rule: Option<string>, ruleVersion: Option<string>, salience: nat,
                                   fromPack: bool)

  /** The rows the index query selects. */
  function Visible(rows: Rows): Rows {
    map key | key in rows && !key.kind.Memory? :: rows[key]
  }

  function FromPack(row: Row, packDigest: string): bool {
    row.source.Seed? && row.source.packDigest == packDigest
  }

  function IndexOf(key: RowKey, row: Row, packDigest: string): IndexEntry {
    IndexEntry(key, row.rule, row.ruleVersion, row.salience, FromPack(row, packDigest))
  }

  function Overlay(rows: Rows, packDigest: string): set<RowKey> {
    set key | key in rows && !FromPack(rows[key], packDigest)
  }

  /** The index loaded for a story: every visible row's metadata, within the two limits. */
  function LoadIndex(rows: Rows, packDigest: string, maxEntries: nat, maxOverlay: nat)
    : Result<map<RowKey, IndexEntry>, RowError>
  {
    IndexRows(Visible(rows), packDigest, maxEntries, maxOverlay)
  }

  function IndexRows(visible: Rows, packDigest: string, maxEntries: nat, maxOverlay: nat)
    : Result<map<RowKey, IndexEntry>, RowError>
  {
    if |visible| > maxEntries then Err(MaxEntries)
    else if |Overlay(visible, packDigest)| > maxOverlay then Err(MaxOverlayEntries)
    else Ok(map key | key in visible :: IndexOf(key, visible[key], packDigest))
  }

  /** The keys in the order the query returns them. */
  ghost predicate Lists(keys: seq<RowKey>, rows: Rows) {
    && (forall i, j :: 0 <= i < j < |keys| ==> keys[i] != keys[j])
    && (forall key :: key in keys <==> key in rows)
  }

  ghost function OverlayOf(keys: seq<RowKey>, rows: Rows, packDigest: string): set<RowKey> {
    set key | key in keys && key in rows && !FromPack(rows[key], packDigest)
  }

  ghost function EntriesOf(keys: seq<RowKey>, rows: Rows, packDigest: string): map<RowKey, IndexEntry> {
    map key | key in keys && key in rows :: IndexOf(key, rows[key], packDigest)
  }

  lemma NextListed(keys: seq<RowKey>, i: nat, rows: Rows, packDigest: string)
    requires Lists(keys, rows) && i < |keys|
    ensures keys[i] in rows
    ensures EntriesOf(keys[..i + 1], rows, packDigest) ==
            EntriesOf(keys[..i], rows, packDigest)[keys[i] := IndexOf(keys[i], rows[keys[i]], packDigest)]
    ensures |OverlayOf(keys[..i + 1], rows, packDigest)| ==
            |OverlayOf(keys[..i], rows, packDigest)| + if FromPack(rows[keys[i]], packDigest) then 0 else 1
  {
    var key := keys[i];
    assert keys[..i + 1] == keys[..i] + [key];
    assert key !in keys[..i];
    var before := OverlayOf(keys[..i], rows, packDigest);
    assert OverlayOf(keys[..i + 1], rows, packDigest) ==
           if FromPack(rows[key], packDigest) then before else before + {key};
  }

  lemma AllListed(keys: seq<RowKey>, rows: Rows, packDigest: string, i: nat)
    requires Lists(keys, rows) && i <= |keys|
    ensures EntriesOf(keys, rows, packDigest) == map key | key in rows :: IndexOf(key, rows[key], packDigest)
    ensures OverlayOf(keys, rows, packDigest) == Overlay(rows, packDigest)
    ensures |OverlayOf(keys[..i], rows, packDigest)| <= |Overlay(rows, packDigest)|
    ensures |keys| == |rows|
  {
    var part, whole := OverlayOf(keys[..i], rows, packDigest), Overlay(rows, packDigest);
    assert whole == part + (whole - part);
    ListLength(keys, rows);
  }

  lemma {:induction false} ListLength(keys: seq<RowKey>, rows: Rows)
    requires Lists(keys, rows)
    ensures |keys| == |rows|
  {
    if keys == [] {
      assert rows == map[];
    } else {
      var k := keys[|keys| - 1];
      assert keys == keys[..|keys| - 1] + [k];
      ListLength(keys[..|keys| - 1], rows - {k});
      assert rows.Keys == (rows - {k}).Keys + {k};
    }
  }

  /**
   The loading loop over the visible rows in query order: insert each row's metadata and count the rows that
   are not from the pack.
   */
  method LoadSnapshot(visible: Rows, keys: seq<RowKey>, packDigest: string, maxEntries: nat, maxOverlay: nat)
    returns (r: Result<map<RowKey, IndexEntry>, RowError>)
    requires Lists(keys, visible)
    ensures r == IndexRows(visible, packDigest, maxEntries, maxOverlay)
  {
    AllListed(keys, visible, packDigest, |keys|);
    if |keys| > maxEntries { return Err(MaxEntries); }
    var entries: map<RowKey, IndexEntry> := map[];
    var overlayEntries := 0;
    for i := 0 to |keys|
      invariant entries == EntriesOf(keys[..i], visible, packDigest)
      invariant overlayEntries == |OverlayOf(keys[..i], visible, packDigest)| <= maxOverlay
    {
      NextListed(keys, i, visible, packDigest);
      AllListed(keys, visible, packDigest, i + 1);
      if !FromPack(visible[keys[i]], packDigest) {
        overlayEntries := overlayEntries + 1;
        if overlayEntries > maxOverlay { return Err(MaxOverlayEntries); }
      }
      entries := entries[keys[i] := IndexOf(keys[i], visible[keys[i]], packDigest)];
    }
    assert keys[..|keys|] == keys;
    r := Ok(entries);
  }

  /** Whether a mutation makes the commit bump the overlay version. */
  predicate AffectsActivation(m: Mutation) {
    match m
    case Add(e) => !e.Kind().Memory?
    case Update(_, value) => !value.Kind().Memory?
    case Delete(d) => d.DeletableRumor?
  }

  lemma QuietMutationIsInvisible(rows: Rows, m: Mutation)
    requires ApplyMutation(rows, m).Ok? && !AffectsActivation(m)
    ensures Visible(ApplyMutation(rows, m).value) == Visible(rows)
  {
  }

  /** A commit none of whose mutations affects activation leaves the loaded index as it was. */
  lemma {:induction false} QuietMutationsAreInvisible(rows: Rows, ms: seq<Mutation>)
    requires ApplyMutations(rows, ms).Ok? && forall i :: 0 <= i < |ms| ==> !AffectsActivation(ms[i])
    ensures Visible(ApplyMutations(rows, ms).value) == Visible(rows)
  {
    if ms != [] {
      QuietMutationsAreInvisible(rows, ms[..|ms| - 1]);
      QuietMutationIsInvisible(ApplyMutations(rows, ms[..|ms| - 1]).value, ms[|ms| - 1]);
    }
  }
}
