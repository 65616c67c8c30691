/** Knowledge rows over whole runs: each column is traced back to the mutation that wrote it last. */
module RowHistory {
  import opened Wrappers
  import opened StoryCommits
  import opened StoryCommitRuns
  import opened StoryGrowth

  // ---------------------------------------------------------------- histories of mutations

  /** The row a mutation is about. */
  function RowOf(m: K.Mutation): K.RowKey {
    match m
    case Add(e) => K.KeyOf(e)
    case Update(target, value) => K.RowKey(value.Kind(), target.id)
    case Delete(d) => d.Key()
  }

  /** The entry last inserted under the key and not deleted since. */
  function LastInsert(ms: seq<K.Mutation>, key: K.RowKey): Option<K.Entry> {
    if ms == [] then None
    else
      var m, before := ms[|ms| - 1], LastInsert(ms[..|ms| - 1], key);
      if RowOf(m) != key || m.Update? then before
      else if m.Add? then Some(m.entry)
      else None
  }

  /** The entry last inserted or given as an update under the key and not deleted since. */
  function LastWrite(ms: seq<K.Mutation>, key: K.RowKey): Option<K.Entry> {
    if ms == [] then None
    else
      var m, before := ms[|ms| - 1], LastWrite(ms[..|ms| - 1], key);
      if RowOf(m) != key then before
      else match m
        case Add(e) => Some(e)
        case Update(_, value) => Some(value)
        case Delete(_) => None
  }

  /** What the history of a row says about it. */
  ghost predicate Traced(rows: K.Rows, ms: seq<K.Mutation>, key: K.RowKey) {
    && (key in rows <==> LastInsert(ms, key).Some?)
    && (key in rows <==> LastWrite(ms, key).Some?)
    && (key in rows ==>
          && K.KeyOf(LastInsert(ms, key).value) == key
          && LastWrite(ms, key).value.Kind() == key.kind
          && PayloadTraced(rows[key].payload, LastInsert(ms, key).value, LastWrite(ms, key).value)
          && ColumnsTraced(rows[key], LastInsert(ms, key).value, LastWrite(ms, key).value))
  }

  /** Id, key, owner and creation time are those of the insertion; everything else is that of the last write. */
  predicate PayloadTraced(p: K.Entry, inserted: K.Entry, written: K.Entry) {
    && p.Kind() == inserted.Kind() == written.Kind()
    && p.id == inserted.id && p.text == written.text
    && p.salience == written.salience && p.source == written.source
    && match p
       case FactEntry(_, _, _, _, _, _, _, _, _) =>
         && p.key == inserted.key && p.proposition == written.proposition && p.hint == written.hint
         && p.rule == written.rule && p.ruleVersion == written.ruleVersion
       case RumorEntry(_, _, _, _, _, _, _, _, _, _, _) =>
         && p.key == inserted.key && p.claim == written.claim && p.hint == written.hint
         && p.rule == written.rule && p.ruleVersion == written.ruleVersion
         && p.sourceRole == written.sourceRole && p.truth == written.truth
       case MemoryEntry(_, _, _, _, _, _, _) =>
         && p.owner == inserted.owner && p.createdAt == inserted.createdAt && p.memoryKind == written.memoryKind
  }

  /** Owner and hint columns are written at insertion only, the others by every write. */
  predicate ColumnsTraced(row: K.Row, inserted: K.Entry, written: K.Entry) {
    && inserted.Kind() == written.Kind()
    && row.content == written.text && row.salience == written.salience && row.source == written.source
    && row.owner == (if inserted.MemoryEntry? then Some(inserted.owner) else None)
    && row.hint == (if inserted.MemoryEntry? then None else Some(inserted.hint))
    && row.rule == (if written.MemoryEntry? then None else Some(written.rule))
    && row.ruleVersion == (if written.MemoryEntry? then None else Some(written.ruleVersion))
  }

  lemma MutationIsTraced(rows: K.Rows, ms: seq<K.Mutation>, key: K.RowKey)
    requires ms != [] && Traced(rows, ms[..|ms| - 1], key) && K.ApplyMutation(rows, ms[|ms| - 1]).Ok?
    ensures Traced(K.ApplyMutation(rows, ms[|ms| - 1]).value, ms, key)
  {
  }

  lemma {:induction false} RowsAreTraced(ms: seq<K.Mutation>, key: K.RowKey)
    requires K.ApplyMutations(map[], ms).Ok?
    ensures Traced(K.ApplyMutations(map[], ms).value, ms, key)
  {
    if ms != [] {
      var init := ms[..|ms| - 1];
      RowsAreTraced(init, key);
      MutationIsTraced(K.ApplyMutations(map[], init).value, ms, key);
    }
  }

  // ---------------------------------------------------------------- histories of stories

  lemma {:induction false} MutationsJoin(rows: K.Rows, a: seq<K.Mutation>, b: seq<K.Mutation>)
    requires K.ApplyMutations(rows, a).Ok?
    ensures K.ApplyMutations(rows, a + b) == K.ApplyMutations(K.ApplyMutations(rows, a).value, b)
    decreases |b|
  {
    if b == [] {
      assert a + b == a;
    } else {
      assert (a + b)[..|a + b| - 1] == a + b[..|b| - 1];
      MutationsJoin(rows, a, b[..|b| - 1]);
    }
  }

  /** Every mutation a story has seen: the seeds, then those of its stored commits. */
  ghost function History(spec: CreateSpec, cs: seq<Commit>): seq<K.Mutation>
    requires Create(spec).Ok?
  {
    if cs == [] then Additions(spec.knowledge)
    else
      History(spec, cs[..|cs| - 1]) +
      if Stored(Create(spec).value, cs, |cs| - 1) then cs[|cs| - 1].mutations else []
  }

  lemma {:induction false} RowsAreTheHistory(spec: CreateSpec, cs: seq<Commit>)
    requires Create(spec).Ok?
    ensures K.ApplyMutations(map[], History(spec, cs)) == Ok(RunOf(Create(spec).value, cs).rows)
  {
    if cs != [] {
      var init, last := cs[..|cs| - 1], cs[|cs| - 1];
      RowsAreTheHistory(spec, init);
      if Stored(Create(spec).value, cs, |cs| - 1) {
        MutationsJoin(map[], History(spec, init), last.mutations);
      } else {
        assert History(spec, cs) == History(spec, init);
      }
    }
  }

  /**
   In every reachable state the hint column of a row is the hint of the entry last inserted under its key, and
   the payload's hint that of the entry last written; so the column is stale if and only if an update since the
   insertion, the last one, carried another hint.
   */
  lemma HintColumnIsLastInserted(spec: CreateSpec, cs: seq<Commit>, key: K.RowKey)
    requires Create(spec).Ok?
    ensures var rows, ms := RunOf(Create(spec).value, cs).rows, History(spec, cs);
            && (key in rows <==> LastInsert(ms, key).Some? && LastWrite(ms, key).Some?)
            && (key in rows ==>
                  && rows[key].hint == LastInsert(ms, key).value.Hint()
                  && (rows[key].hint == rows[key].payload.Hint() <==>
                      LastInsert(ms, key).value.Hint() == LastWrite(ms, key).value.Hint()))
  {
    RowsAreTheHistory(spec, cs);
    RowsAreTraced(History(spec, cs), key);
  }

  /**
   In every reachable state a row is there exactly if an entry was inserted under its key and not deleted since,
   and each of its fields is traced to that insertion or to the last write.
   */
  lemma RowsAreLastWritten(spec: CreateSpec, cs: seq<Commit>, key: K.RowKey)
    requires Create(spec).Ok?
    ensures Traced(RunOf(Create(spec).value, cs).rows, History(spec, cs), key)
  {
    RowsAreTheHistory(spec, cs);
    RowsAreTraced(History(spec, cs), key);
  }

  /** The activation index of a reachable state holds, for each fact and rumor, what was last written. */
  lemma IndexIsLastWritten(spec: CreateSpec, cs: seq<Commit>, packDigest: string, maxEntries: nat, maxOverlay: nat,
                           key: K.RowKey)
    requires Create(spec).Ok?
    requires K.LoadIndex(RunOf(Create(spec).value, cs).rows, packDigest, maxEntries, maxOverlay).Ok?
    ensures var index := K.LoadIndex(RunOf(Create(spec).value, cs).rows, packDigest, maxEntries, maxOverlay).value;
            var ms := History(spec, cs);
            && (key in index <==> LastInsert(ms, key).Some? && !key.kind.Memory?)
            && (key in index ==>
                  var w := LastWrite(ms, key);
                  && w.Some? && !w.value.MemoryEntry?
                  && index[key].key == key && index[key].rule == Some(w.value.rule)
                  && index[key].ruleVersion == Some(w.value.ruleVersion) && index[key].salience == w.value.salience
                  && (index[key].fromPack <==>
                        w.value.source.Seed? && w.value.source.packDigest == packDigest))
  {
    RowsAreLastWritten(spec, cs, key);
  }

  /** Every row but a memory's has a hint in its column. */
  lemma VisibleRowsHaveHints(spec: CreateSpec, cs: seq<Commit>, key: K.RowKey)
    requires Create(spec).Ok? && key in K.Visible(RunOf(Create(spec).value, cs).rows)
    ensures RunOf(Create(spec).value, cs).rows[key].hint.Some?
  {
    RowsAreTheHistory(spec, cs);
    RowsAreTraced(History(spec, cs), key);
  }

  /** A run in which the column and the payload part: a seeded fact or rumor is updated with another hint. */
  lemma HintColumnCanGoStale(spec: CreateSpec, e: K.Entry, value: K.Entry) returns (c: Commit)
    requires spec.knowledge == [e] && e.Kind() == value.Kind() && !e.MemoryEntry? && e.Hint() != value.Hint()
    ensures Create(spec).Ok? && Stored(Create(spec).value, [c], 0)
    ensures var rows := RunOf(Create(spec).value, [c]).rows;
            K.KeyOf(e) in rows && rows[K.KeyOf(e)].hint != rows[K.KeyOf(e)].payload.Hint()
  {
    SeededRow(spec, e);
    var s := Create(spec).value;
    var m := K.Update(K.KeyOf(e), value);
    K.MergeKeepsIdentity(e, value);
    c := PlainCommit(s, "x").(mutations := [m]);
    NewStoryIsNumbered(spec);
    PlainCommitIsAcceptable(s, "x");
    assert [m][..0] == [] && [c][..0] == [];
    assert K.ApplyMutations(s.rows, [m]) == K.ApplyMutation(s.rows, m);
  }

  lemma SeededRow(spec: CreateSpec, e: K.Entry)
    requires spec.knowledge == [e]
    ensures Create(spec).Ok? && Create(spec).value.rows == map[K.KeyOf(e) := K.RowOf(e)]
  {
    var ms := Additions([e]);
    assert ms == [K.Add(e)] && ms[..0] == [];
    assert K.ApplyMutations(map[], ms) == K.ApplyMutation(map[], K.Add(e));
  }

  // ---------------------------------------------------------------- where pack rows come from

  /** Commits attribute what they write to a turn. */
  predicate FromTurns(ms: seq<K.Mutation>) {
    forall i :: 0 <= i < |ms| ==>
      (ms[i].Add? ==> ms[i].entry.source.CommittedTurn?) && (ms[i].Update? ==> ms[i].value.source.CommittedTurn?)
  }

  lemma {:induction false} SeedsWereWrittenFirst(a: seq<K.Mutation>, b: seq<K.Mutation>, key: K.RowKey)
    requires FromTurns(b) && LastWrite(a + b, key).Some? && LastWrite(a + b, key).value.source.Seed?
    ensures LastWrite(a, key) == LastWrite(a + b, key)
    decreases |b|
  {
    if b == [] {
      assert a + b == a;
    } else {
      var n := |b| - 1;
      assert (a + b)[..|a + b| - 1] == a + b[..n] && (a + b)[|a + b| - 1] == b[n];
      assert FromTurns(b[..n]);
      SeedsWereWrittenFirst(a, b[..n], key);
    }
  }

  lemma {:induction false} SeedsWereCreated(spec: CreateSpec, cs: seq<Commit>, key: K.RowKey)
    requires Create(spec).Ok? && forall i :: 0 <= i < |cs| ==> FromTurns(cs[i].mutations)
    requires LastWrite(History(spec, cs), key).Some? && LastWrite(History(spec, cs), key).value.source.Seed?
    ensures LastWrite(Additions(spec.knowledge), key).Some?
  {
    if cs != [] {
      var init, last := cs[..|cs| - 1], cs[|cs| - 1];
      if Stored(Create(spec).value, cs, |cs| - 1) {
        SeedsWereWrittenFirst(History(spec, init), last.mutations, key);
      } else {
        assert History(spec, cs) == History(spec, init);
      }
      SeedsWereCreated(spec, init, key);
    }
  }

  lemma {:induction false} AdditionsAreEntries(entries: seq<K.Entry>, key: K.RowKey) returns (i: nat)
    requires LastWrite(Additions(entries), key).Some?
    ensures i < |entries| && K.KeyOf(entries[i]) == key
  {
    var n := |entries| - 1;
    var ms := Additions(entries);
    assert ms[..n] == Additions(entries[..n]) && ms[n] == K.Add(entries[n]);
    if K.KeyOf(entries[n]) == key {
      i := n;
    } else {
      i := AdditionsAreEntries(entries[..n], key);
    }
  }

  /** Over any run of commits that attribute what they write to a turn, a row from the pack is one that was seeded. */
  lemma PackRowsWereSeeded(spec: CreateSpec, cs: seq<Commit>, key: K.RowKey) returns (i: nat)
    requires Create(spec).Ok? && forall k :: 0 <= k < |cs| ==> FromTurns(cs[k].mutations)
    requires key in RunOf(Create(spec).value, cs).rows && RunOf(Create(spec).value, cs).rows[key].source.Seed?
    ensures i < |spec.knowledge| && K.KeyOf(spec.knowledge[i]) == key
  {
    RowsAreTheHistory(spec, cs);
    RowsAreTraced(History(spec, cs), key);
    SeedsWereCreated(spec, cs, key);
    i := AdditionsAreEntries(spec.knowledge, key);
  }
}
