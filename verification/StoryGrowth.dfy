/** Every story can be played on by plain commits; so every segment limit is outgrown in some run. */
module StoryGrowth {
  import opened Wrappers
  import opened StoryCommits
  import opened StoryCommitRuns
  import opened StoryReaders

  /** A commit on the current revision that changes nothing but the turns and segments. */
  function PlainCommit(s: Story, key: string): Commit {
    Commit(key, "", s.revision, s.lastTurn + 1, "", [], [], [], s.narrative.graphRevision,
           N.Resolution([], [], s.narrative.graphRevision), [], TimedDelta({}, []), [], None, [])
  }

  lemma PlainCommitIsAcceptable(s: Story, key: string)
    requires Numbered(s)
    ensures Acceptable(s, PlainCommit(s, key))
  {
    InsertsNeverCollide(s);
  }

  /** A key longer than every key in use. */
  function LongKey(turns: seq<TurnRow>): string {
    if turns == [] then "x" else LongKey(turns[..|turns| - 1]) + turns[|turns| - 1].key
  }

  lemma {:induction false} LongKeyIsLonger(turns: seq<TurnRow>, i: nat)
    requires i < |turns|
    ensures |turns[i].key| < |LongKey(turns)|
  {
    if i < |turns| - 1 {
      LongKeyIsLonger(turns[..|turns| - 1], i);
    } else {
      LongKeyIsNotEmpty(turns[..|turns| - 1]);
    }
  }

  lemma {:induction false} LongKeyIsNotEmpty(turns: seq<TurnRow>)
    ensures LongKey(turns) != ""
  {
    if turns != [] {
      LongKeyIsNotEmpty(turns[..|turns| - 1]);
    }
  }

  lemma {:induction false} UnusedKeyIsNew(turns: seq<TurnRow>, key: string)
    requires forall i :: 0 <= i < |turns| ==> turns[i].key != key
    ensures FindTurn(turns, key).None?
  {
    if turns != [] {
      UnusedKeyIsNew(turns[..|turns| - 1], key);
    }
  }

  lemma LongKeyIsNew(turns: seq<TurnRow>)
    ensures FindTurn(turns, LongKey(turns)).None?
  {
    forall i | 0 <= i < |turns| ensures turns[i].key != LongKey(turns) {
      LongKeyIsLonger(turns, i);
    }
    UnusedKeyIsNew(turns, LongKey(turns));
  }

  /** From any story on, some run stores any number of further turns. */
  lemma {:induction false} PlayOn(s: Story, n: nat) returns (cs: seq<Commit>)
    requires Numbered(s)
    ensures Numbered(RunOf(s, cs)) && |RunOf(s, cs).segments| == |s.segments| + n
  {
    if n == 0 {
      cs := [];
    } else {
      var before := PlayOn(s, n - 1);
      var t := RunOf(s, before);
      var c := PlainCommit(t, LongKey(t.turns));
      PlainCommitIsAcceptable(t, LongKey(t.turns));
      LongKeyIsNew(t.turns);
      CommitKeepsNumbered(t, c);
      cs := before + [c];
      assert cs[..|cs| - 1] == before;
    }
  }

  lemma {:induction false} RunsJoin(s: Story, a: seq<Commit>, b: seq<Commit>)
    ensures RunOf(s, a + b) == RunOf(RunOf(s, a), b)
    decreases |b|
  {
    if b == [] {
      assert a + b == a;
    } else {
      assert (a + b)[..|a + b| - 1] == a + b[..|b| - 1];
      RunsJoin(s, a, b[..|b| - 1]);
    }
  }

  /**
   Whatever the limits, every story has a run after which it does not load, and does not load after any further
   attempts either.
   */
  lemma EveryStoryCanOutgrowItsLimit(s: Story, limits: Limits, m: TextModel) returns (cs: seq<Commit>)
    requires Numbered(s)
    ensures Numbered(RunOf(s, cs))
    ensures forall more :: !WithinSizes(Continuity(STORED_SUMMARY, RunOf(s, cs + more).segments), limits, m)
  {
    cs := PlayOn(s, limits.maxSegments);
    forall more ensures !WithinSizes(Continuity(STORED_SUMMARY, RunOf(s, cs + more).segments), limits, m) {
      RunsJoin(s, cs, more);
      OutgrownStoryNeverLoads(RunOf(s, cs), more, limits, m);
    }
  }

  /** In particular a story just created, for any specification. */
  lemma NewStoryCanOutgrowItsLimit(spec: CreateSpec, limits: Limits, m: TextModel) returns (cs: seq<Commit>)
    requires Create(spec).Ok?
    ensures Numbered(RunOf(Create(spec).value, cs))
    ensures |RunOf(Create(spec).value, cs).segments| == limits.maxSegments + 1
    ensures forall more ::
      !WithinSizes(Continuity(STORED_SUMMARY, RunOf(Create(spec).value, cs + more).segments), limits, m)
  {
    var s := Create(spec).value;
    NewStoryIsNumbered(spec);
    cs := PlayOn(s, limits.maxSegments);
    forall more ensures !WithinSizes(Continuity(STORED_SUMMARY, RunOf(s, cs + more).segments), limits, m) {
      RunsJoin(s, cs, more);
      OutgrownStoryNeverLoads(RunOf(s, cs), more, limits, m);
    }
  }
}
