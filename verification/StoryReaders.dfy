/** Reading a persisted story back: the continuity of its segments, and its turn history page by page. */
module StoryReaders {
  import opened Widths
  import opened Wrappers
  import opened StoryCommits
  import opened StoryCommitRuns

  // ---------------------------------------------------------------- continuity

  datatype Summary = Summary(text: string, through: Option<nat>)

  datatype Continuity = Continuity(summary: Summary, segments: seq<Segment>)

  datatype Limits = Limits(maxSummaryBytes: nat, maxSegments: nat, maxSegmentBytes: nat, maxTokens: nat)

  datatype ContinuityError = TooLarge | InvalidSummaryBoundary | SequenceOverflow | Overlap | Gap | OutOfOrder

  /** Sizes and token estimate of texts, and what counts as blank; all three belong to other code. */
  datatype TextModel = TextModel(bytes: string -> nat, tokens: string -> nat, blank: string -> bool)

  function TokenSum(segments: seq<Segment>, m: TextModel): nat {
    if segments == [] then 0 else TokenSum(segments[..|segments| - 1], m) + m.tokens(segments[|segments| - 1].text)
  }

  ghost predicate WithinSizes(c: Continuity, limits: Limits, m: TextModel) {
    && m.bytes(c.summary.text) <= limits.maxSummaryBytes
    && |c.segments| <= limits.maxSegments
    && (forall i :: 0 <= i < |c.segments| ==> m.bytes(c.segments[i].text) <= limits.maxSegmentBytes)
    && TokenSum(c.segments, m) <= U64_MAX && TokenSum(c.segments, m) <= limits.maxTokens
  }

  function Boundary(s: Summary): nat {
    if s.through.Some? then s.through.value else 0
  }

  /** The summary and the segments cover the story without gap or overlap. */
  ghost predicate Continuous(c: Continuity, m: TextModel) {
    && (m.blank(c.summary.text) <==> c.summary.through.None?)
    && (c.segments != [] ==> Boundary(c.summary) < U64_MAX)
    && forall i :: 0 <= i < |c.segments| ==> c.segments[i].sequence == Boundary(c.summary) + 1 + i
  }

  method TryNew(summary: Summary, segments: seq<Segment>, limits: Limits, m: TextModel)
    returns (r: Result<Continuity, ContinuityError>)
    ensures r.Ok? <==>
            WithinSizes(Continuity(summary, segments), limits, m) && Continuous(Continuity(summary, segments), m)
    ensures r.Ok? ==> r.value == Continuity(summary, segments)
  {
    if m.bytes(summary.text) > limits.maxSummaryBytes { return Err(TooLarge); }
    if |segments| > limits.maxSegments { return Err(TooLarge); }
    for i := 0 to |segments|
      invariant forall k :: 0 <= k < i ==> m.bytes(segments[k].text) <= limits.maxSegmentBytes
    {
      if m.bytes(segments[i].text) > limits.maxSegmentBytes { return Err(TooLarge); }
    }
    if m.blank(summary.text) != summary.through.None? { return Err(InvalidSummaryBoundary); }
    var ordered := CheckSequences(summary, segments);
    if ordered.Err? { return Err(ordered.error); }
    var sum := 0;
    for i := 0 to |segments|
      invariant sum == TokenSum(segments[..i], m) <= U64_MAX
    {
      assert segments[..i + 1][..i] == segments[..i];
      TokenSumGrows(segments, i + 1, m);
      if sum + m.tokens(segments[i].text) > U64_MAX { return Err(TooLarge); }
      sum := sum + m.tokens(segments[i].text);
    }
    assert segments[..|segments|] == segments;
    if sum > limits.maxTokens { return Err(TooLarge); }
    r := Ok(Continuity(summary, segments));
  }

  method CheckSequences(summary: Summary, segments: seq<Segment>) returns (r: Result<(), ContinuityError>)
    ensures r.Ok? <==> (segments != [] ==> Boundary(summary) < U64_MAX) &&
                         forall i :: 0 <= i < |segments| ==> segments[i].sequence == Boundary(summary) + 1 + i
  {
    if segments != [] {
      if summary.through.Some? {
        if summary.through.value + 1 > U64_MAX { return Err(SequenceOverflow); }
        if segments[0].sequence < summary.through.value + 1 { return Err(Overlap); }
        if segments[0].sequence > summary.through.value + 1 { return Err(Gap); }
      } else if segments[0].sequence != 1 {
        return Err(Gap);
      }
      for i := 1 to |segments|
        invariant forall k :: 0 <= k < i ==> segments[k].sequence == Boundary(summary) + 1 + k
      {
        if segments[i].sequence <= segments[i - 1].sequence { return Err(OutOfOrder); }
        if segments[i].sequence != segments[i - 1].sequence + 1 { return Err(Gap); }
      }
    }
    r := Ok(());
  }

  lemma {:induction false} TokenSumGrows(segments: seq<Segment>, i: nat, m: TextModel)
    requires i <= |segments|
    ensures TokenSum(segments[..i], m) <= TokenSum(segments, m)
  {
    if i == |segments| {
      assert segments[..i] == segments;
    } else {
      assert segments[..|segments| - 1][..i] == segments[..i];
      TokenSumGrows(segments[..|segments| - 1], i, m);
    }
  }

  function LatestSequence(c: Continuity): Option<nat> {
    if c.segments != [] then Some(c.segments[|c.segments| - 1].sequence) else c.summary.through
  }

  function NextSequence(c: Continuity): Result<nat, ContinuityError> {
    match LatestSequence(c)
    case Some(latest) => if latest + 1 > U64_MAX then Err(SequenceOverflow) else Ok(latest + 1)
    case None => Ok(1)
  }

  /** The summary column is written once, at creation, with an empty text and no boundary. */
  const STORED_SUMMARY: Summary := Summary("", None)

  /** The snapshot's continuity: the first `maxSegments + 1` segments behind the summary, then the checks. */
  method LoadContinuity(s: Story, limits: Limits, m: TextModel) returns (r: Result<Continuity, ContinuityError>)
    requires m.blank("") && m.bytes("") == 0 && Numbered(s)
    ensures r.Ok? <==> WithinSizes(Continuity(STORED_SUMMARY, s.segments), limits, m)
    ensures r.Ok? ==> r.value == Continuity(STORED_SUMMARY, s.segments)
  {
    var fetched := if |s.segments| > limits.maxSegments + 1 then s.segments[..limits.maxSegments + 1] else s.segments;
    if |fetched| > limits.maxSegments { return Err(TooLarge); }
    r := TryNew(STORED_SUMMARY, fetched, limits, m);
  }

  lemma NextOfNumbered(s: Story)
    requires Numbered(s) && |s.segments| < U64_MAX
    ensures NextSequence(Continuity(STORED_SUMMARY, s.segments)) == Ok(s.revision + 2)
  {
  }

  /**
   Whatever else is attempted between loading a snapshot (after `i` attempts) and committing (as attempt
   `j`): if the commit is stored, the sequence the committer took from the snapshot is the one the store
   assigns to the turn and to its segment.
   */
  lemma CommitterAndStoreAgree(s: Story, cs: seq<Commit>, i: nat, j: nat)
    requires Numbered(s) && i <= j < |cs| && |RunOf(s, cs[..i]).segments| < U64_MAX
    requires Stored(s, cs, j) && cs[j].baseRevision == RunOf(s, cs[..i]).revision
    ensures var after := RunOf(s, cs[..j + 1]);
            && after.turns != [] && after.segments != []
            && NextSequence(Continuity(STORED_SUMMARY, RunOf(s, cs[..i]).segments)) ==
               Ok(after.turns[|after.turns| - 1].sequence)
            && after.segments[|after.segments| - 1].sequence == after.turns[|after.turns| - 1].sequence
  {
    RunKeepsNumbered(s, cs[..i]);
    RunKeepsNumbered(s, cs[..j + 1]);
    StoredRaisesRevision(s, cs, j);
    NextIsLast(RunOf(s, cs[..i]), RunOf(s, cs[..j + 1]));
  }

  lemma NextIsLast(before: Story, after: Story)
    requires Numbered(before) && Numbered(after) && |before.segments| < U64_MAX && after.revision == before.revision + 1
    ensures after.turns != [] && after.segments != []
    ensures NextSequence(Continuity(STORED_SUMMARY, before.segments)) == Ok(after.turns[|after.turns| - 1].sequence)
    ensures after.segments[|after.segments| - 1].sequence == after.turns[|after.turns| - 1].sequence
  {
    NextOfNumbered(before);
    LastOfNumbered(after);
  }

  lemma StoredRaisesRevision(s: Story, cs: seq<Commit>, j: nat)
    requires j < |cs| && Stored(s, cs, j)
    ensures RunOf(s, cs[..j + 1]).revision == cs[j].baseRevision + 1
  {
    RunStep(s, cs, j);
  }

  lemma LastOfNumbered(s: Story)
    requires Numbered(s) && s.revision > 0
    ensures s.turns != [] && s.turns[|s.turns| - 1].sequence == s.revision + 1
    ensures s.segments != [] && s.segments[|s.segments| - 1].sequence == s.revision + 1
  {
  }

  lemma {:induction false} SegmentsStay(s: Story, cs: seq<Commit>)
    ensures s.segments <= RunOf(s, cs).segments
  {
    if cs != [] {
      SegmentsStay(s, cs[..|cs| - 1]);
    }
  }

  /** Because the summary never advances, a story that has outgrown the segment limit can never be loaded again. */
  lemma OutgrownStoryNeverLoads(s: Story, cs: seq<Commit>, limits: Limits, m: TextModel)
    requires Numbered(s) && s.lastTurn + 1 > limits.maxSegments
    ensures !WithinSizes(Continuity(STORED_SUMMARY, RunOf(s, cs).segments), limits, m)
  {
    SegmentsStay(s, cs);
  }

  // ---------------------------------------------------------------- history pages

  datatype Page = Page(turns: seq<TurnRow>, next: Option<nat>)

  datatype HistoryError = PageSize | TextTooLarge

  /** Turns with a sequence beyond `after`, in order. */
  function Beyond(turns: seq<TurnRow>, after: nat): seq<TurnRow> {
    if turns == [] then []
    else Beyond(turns[..|turns| - 1], after) + if turns[|turns| - 1].sequence > after then [turns[|turns| - 1]] else []
  }

  function PageOf(turns: seq<TurnRow>, after: nat, size: nat): Page
    requires size > 0
  {
    var rows := Beyond(turns, after);
    if |rows| > size then Page(rows[..size], Some(rows[size - 1].sequence)) else Page(rows, None)
  }

  method LoadHistory(turns: seq<TurnRow>, after: nat, size: nat, maxPageSize: nat, maxTextBytes: nat, m: TextModel)
    returns (r: Result<Page, HistoryError>)
    ensures size == 0 || size > maxPageSize ==> r == Err(PageSize)
    ensures 0 < size <= maxPageSize ==>
              (if forall i :: 0 <= i < |PageOf(turns, after, size).turns| ==>
                    m.bytes(PageOf(turns, after, size).turns[i].result.text) <= maxTextBytes
               then r == Ok(PageOf(turns, after, size)) else r == Err(TextTooLarge))
  {
    if size == 0 || size > maxPageSize { return Err(PageSize); }
    var all := Beyond(turns, after);
    var rows := if |all| > size + 1 then all[..size + 1] else all;
    var hasMore := |rows| > size;
    var kept := if hasMore then size else |rows|;
    var page: seq<TurnRow> := [];
    for i := 0 to kept
      invariant page == rows[..i]
      invariant forall k :: 0 <= k < i ==> m.bytes(rows[k].result.text) <= maxTextBytes
    {
      if m.bytes(rows[i].result.text) > maxTextBytes {
        assert PageOf(turns, after, size).turns[i] == rows[i];
        return Err(TextTooLarge);
      }
      page := page + [rows[i]];
    }
    assert page == PageOf(turns, after, size).turns;
    r := Ok(Page(page, if hasMore then Some(page[|page| - 1].sequence) else None));
  }

  ghost predicate Sequenced(turns: seq<TurnRow>) {
    forall i :: 0 <= i < |turns| ==> turns[i].sequence == i + 2
  }

  lemma {:induction false} BeyondIsSuffix(turns: seq<TurnRow>, k: nat)
    requires Sequenced(turns) && k <= |turns|
    ensures Beyond(turns, k + 1) == turns[k..]
  {
    if k == |turns| {
      if turns != [] {
        BeyondNothing(turns, k + 1);
      }
    } else {
      var init := turns[..|turns| - 1];
      BeyondIsSuffix(init, k);
      assert turns[k..] == init[k..] + [turns[|turns| - 1]];
    }
  }

  lemma {:induction false} BeyondNothing(turns: seq<TurnRow>, after: nat)
    requires forall i :: 0 <= i < |turns| ==> turns[i].sequence <= after
    ensures Beyond(turns, after) == []
  {
    if turns != [] {
      BeyondNothing(turns[..|turns| - 1], after);
    }
  }

  /**
   Following the cursors from `after` until there is none, with pages of the given sizes in turn, each read from
   the turns as they are at that moment.
   */
  ghost predicate Walk(views: seq<seq<TurnRow>>, after: nat, sizes: seq<nat>, pages: seq<Page>)
    decreases |sizes|
  {
    && |views| == |pages| == |sizes| > 0 && sizes[0] > 0
    && pages[0] == PageOf(views[0], after, sizes[0])
    && (if pages[0].next.None? then |pages| == 1
        else |pages| > 1 && Walk(views[1..], pages[0].next.value, sizes[1..], pages[1..]))
  }

  /** Between two reads turns are only appended. */
  ghost predicate OnlyGrow(views: seq<seq<TurnRow>>) {
    && (forall i :: 0 <= i < |views| ==> Sequenced(views[i]))
    && (forall i, j :: 0 <= i <= j < |views| ==> views[i] <= views[j])
  }

  function Collected(pages: seq<Page>): seq<TurnRow> {
    if pages == [] then [] else pages[0].turns + Collected(pages[1..])
  }

  lemma PageIsSlice(turns: seq<TurnRow>, k: nat, size: nat)
    requires Sequenced(turns) && k <= |turns| && size > 0
    ensures PageOf(turns, k + 1, size) ==
            if k + size < |turns| then Page(turns[k..k + size], Some(k + size + 1)) else Page(turns[k..], None)
  {
    BeyondIsSuffix(turns, k);
    var rows := turns[k..];
    if |rows| > size {
      assert rows[..size] == turns[k..k + size] && rows[size - 1] == turns[k + size - 1];
    }
  }

  lemma SlicesJoin(first: seq<TurnRow>, last: seq<TurnRow>, i: nat, j: nat)
    requires first <= last && i <= j <= |first|
    ensures first[i..j] + last[j..] == last[i..]
  {
    assert first[i..j] == last[i..j];
  }

  lemma {:induction false} WalkCollectsRest(views: seq<seq<TurnRow>>, k: nat, sizes: seq<nat>, pages: seq<Page>)
    requires views != [] && OnlyGrow(views) && k <= |views[0]| && Walk(views, k + 1, sizes, pages)
    ensures k <= |views[|views| - 1]| && Collected(pages) == views[|views| - 1][k..]
    decreases |sizes|
  {
    var first, last := views[0], views[|views| - 1];
    PageIsSlice(first, k, sizes[0]);
    assert first <= last;
    if k + sizes[0] < |first| {
      var k' := k + sizes[0];
      assert views[1..][|views| - 2] == last && first <= views[1];
      WalkCollectsRest(views[1..], k', sizes[1..], pages[1..]);
      SlicesJoin(first, last, k, k');
    } else {
      assert pages[1..] == [] && |views| == 1;
    }
  }

  lemma {:induction false} BeyondZero(turns: seq<TurnRow>)
    requires Sequenced(turns)
    ensures Beyond(turns, 0) == Beyond(turns, 1)
  {
    if turns != [] {
      BeyondZero(turns[..|turns| - 1]);
    }
  }

  lemma {:induction false} TurnsGrow(s: Story, cs: seq<Commit>, i: nat, j: nat)
    requires i <= j <= |cs|
    ensures RunOf(s, cs[..i]).turns <= RunOf(s, cs[..j]).turns
    decreases j
  {
    if i < j {
      TurnsGrow(s, cs, i, j - 1);
      AttemptAppends(s, cs, j - 1);
    }
  }

  lemma AttemptAppends(s: Story, cs: seq<Commit>, k: nat)
    requires k < |cs|
    ensures RunOf(s, cs[..k]).turns <= RunOf(s, cs[..k + 1]).turns
  {
    RunStep(s, cs, k);
  }

  /** Page `k` is read after the first `at[k]` attempts of a run. */
  ghost function ReadsOf(s: Story, cs: seq<Commit>, at: seq<nat>): seq<seq<TurnRow>>
    requires forall k :: 0 <= k < |at| ==> at[k] <= |cs|
  {
    seq(|at|, k requires 0 <= k < |at| => RunOf(s, cs[..at[k]]).turns)
  }

  lemma ReadsOnlyGrow(s: Story, cs: seq<Commit>, at: seq<nat>)
    requires Numbered(s) && forall k :: 0 <= k < |at| ==> at[k] <= |cs|
    requires forall i, j :: 0 <= i <= j < |at| ==> at[i] <= at[j]
    ensures OnlyGrow(ReadsOf(s, cs, at))
  {
    var views := ReadsOf(s, cs, at);
    forall i | 0 <= i < |views| ensures Sequenced(views[i]) {
      RunKeepsNumbered(s, cs[..at[i]]);
    }
    forall i, j | 0 <= i <= j < |views| ensures views[i] <= views[j] {
      TurnsGrow(s, cs, at[i], at[j]);
    }
  }

  /**
   Reading the history to its end gives every turn committed by the time the last page is read, once and in
   order, whatever the page sizes and whatever is committed between the pages.
   */
  lemma HistoryPagesCoverAllTurns(s: Story, cs: seq<Commit>, at: seq<nat>, sizes: seq<nat>, pages: seq<Page>)
    requires Numbered(s) && at != [] && forall k :: 0 <= k < |at| ==> at[k] <= |cs|
    requires forall i, j :: 0 <= i <= j < |at| ==> at[i] <= at[j]
    requires Walk(ReadsOf(s, cs, at), 0, sizes, pages)
    ensures Collected(pages) == RunOf(s, cs[..at[|at| - 1]]).turns
  {
    var views := ReadsOf(s, cs, at);
    ReadsOnlyGrow(s, cs, at);
    BeyondZero(views[0]);
    assert Walk(views, 1, sizes, pages);
    WalkCollectsRest(views, 0, sizes, pages);
  }
}
