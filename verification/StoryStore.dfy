/**
 The in-memory story store: create, commit and remove.

 `Commit` is idempotent per key and append-only per story. The theorems below say that a
 stored context is always the replay of the committed turns over the creation context, and
 that the recent-turn window is an exact slice of those turns.
 */
module StoryStore {
  import opened Wrappers
  import opened StoryKnowledge

  datatype Error =
    | NotFound
    | StoryExists
    | InvalidRoles
    | NotActive
    | WrongTurnNumber
    | SummaryCoversFuture
    | SummaryMovesBack
    | InvalidFacts(v: Violation)
    | InvalidRumors(v: Violation)
    | InvalidMemories(v: Violation)

  datatype Edit<+T> = Unchanged | Replaced(value: T)

  datatype LifeCycle = Active | Cancelled | Completed

  datatype Summary = Summary(text: string, coveredThrough: nat)

  datatype Turn = Turn(number: nat, key: string, segment: string, change: Change)

  datatype StoryCommit = StoryCommit(
    storyId: Id, turn: Turn, summary: Edit<Summary>, narrative: Edit<string>, lifeCycle: Edit<LifeCycle>)

  datatype Context = Context(
    storyId: Id, packRef: string, opening: string, player: Id,
    roles: Roles, facts: Table, rumors: Table,
    turnNumber: nat, summary: Option<Summary>, recent: seq<Turn>, lifeCycle: LifeCycle, narrative: string)

  datatype Info = Info(storyId: Id, playerId: Id, createdAt: int, updatedAt: int, lifeCycle: LifeCycle)

  datatype Stored = Stored(context: Context, info: Info, committed: map<string, StoryCommit>)

  datatype Spec = Spec(
    storyId: Id, packRef: string, opening: string, player: Id, playerId: Id,
    roles: Roles, facts: Table, rumors: Table, narrative: string)

  // ---------------------------------------------------------------- one commit, on values

  function NewContext(spec: Spec): Context {
    Context(spec.storyId, spec.packRef, spec.opening, spec.player, spec.roles, spec.facts, spec.rumors,
            0, None, [], Active, spec.narrative)
  }

  function Covered(c: Context): nat {
    if c.summary.Some? then c.summary.value.coveredThrough else 0
  }

  /** The commit's effect on the context, before the recent-turn window is trimmed. */
  function Advance(c: Context, commit: StoryCommit): Context {
    var turn := commit.turn;
    c.(turnNumber := turn.number,
       facts := ApplyOps(c.facts, turn.number, turn.change.facts),
       rumors := ApplyOps(c.rumors, turn.number, turn.change.rumors),
       roles := ApplyMemoryOps(c.roles, turn.number, turn.change.memories),
       recent := c.recent + [turn],
       summary := if commit.summary.Replaced? then Some(commit.summary.value) else c.summary,
       narrative := if commit.narrative.Replaced? then commit.narrative.value else c.narrative,
       lifeCycle := if commit.lifeCycle.Replaced? then commit.lifeCycle.value else c.lifeCycle)
  }

  /** What `commit` demands of a commit whose idempotency key is new. */
  ghost predicate Acceptable(c: Context, commit: StoryCommit, validRoles: Roles -> bool) {
    && Proper(c, commit)
    && validRoles(Advance(c, commit).roles)
  }

  function DropCovered(recent: seq<Turn>, covered: nat): seq<Turn> {
    if recent != [] && recent[0].number <= covered then DropCovered(recent[1..], covered) else recent
  }

  function Trim(c: Context, maxRecent: nat): Context {
    var last := LastTurns(c.recent, maxRecent);
    c.(recent := if c.summary.None? then last else DropCovered(last, c.summary.value.coveredThrough))
  }

  function LastTurns(recent: seq<Turn>, maxRecent: nat): seq<Turn> {
    if |recent| > maxRecent then recent[|recent| - maxRecent..] else recent
  }

  /** The stored story after an attempt: unchanged unless the commit is new and acceptable. */
  ghost function AfterAttempt(s: Stored, commit: StoryCommit, now: int, maxRecent: nat,
                              validRoles: Roles -> bool): Stored
  {
    if commit.turn.key in s.committed || !Acceptable(s.context, commit, validRoles) then s
    else
      var next := Advance(s.context, commit);
      Stored(Trim(next, maxRecent), s.info.(lifeCycle := next.lifeCycle, updatedAt := now),
             s.committed[commit.turn.key := commit])
  }

  ghost function AfterCommit(stories: map<Id, Stored>, commit: StoryCommit, now: int, maxRecent: nat,
                             validRoles: Roles -> bool): map<Id, Stored>
  {
    if commit.storyId !in stories then stories
    else stories[commit.storyId := AfterAttempt(stories[commit.storyId], commit, now, maxRecent, validRoles)]
  }

  function AfterCreate(stories: map<Id, Stored>, spec: Spec, now: int, validRoles: Roles -> bool): map<Id, Stored> {
    if !validRoles(spec.roles) || spec.storyId in stories then stories
    else stories[spec.storyId :=
           Stored(NewContext(spec), Info(spec.storyId, spec.playerId, now, now, Active), map[])]
  }

  // ---------------------------------------------------------------- the store

  class Store {
    const maxRecent: nat
    const validRoles: Roles -> bool
    var stories: map<Id, Stored>

    constructor (maxRecent: nat, validRoles: Roles -> bool)
      ensures stories == map[] && this.maxRecent == maxRecent && this.validRoles == validRoles
    {
      this.maxRecent := maxRecent;
      this.validRoles := validRoles;
      stories := map[];
    }

    method Create(spec: Spec, now: int) returns (r: Result<Info, Error>)
      modifies this
      ensures r.Ok? <==> validRoles(spec.roles) && spec.storyId !in old(stories)
      ensures r.Ok? ==> r.value == Info(spec.storyId, spec.playerId, now, now, Active)
      ensures r.Ok? ==>
                && stories.Keys == old(stories.Keys) + {spec.storyId}
                && stories[spec.storyId].info == r.value && stories[spec.storyId].committed == map[]
      ensures stories == AfterCreate(old(stories), spec, now, validRoles)
    {
      if !validRoles(spec.roles) { return Err(InvalidRoles); }
      if spec.storyId in stories { return Err(StoryExists); }
      var info := Info(spec.storyId, spec.playerId, now, now, Active);
      stories := stories[spec.storyId := Stored(NewContext(spec), info, map[])];
      r := Ok(info);
    }

    method Delete(id: Id) returns (r: Result<(), Error>)
      modifies this
      ensures r == if id in old(stories) then Ok(()) else Err(NotFound)
      ensures stories == old(stories) - {id}
    {
      if id !in stories { return Err(NotFound); }
      stories := stories - {id};
      r := Ok(());
    }

    /** A repeated key returns the commit already stored under it; a new commit is stored or refused. */
    method Commit(commit: StoryCommit, now: int) returns (r: Result<StoryCommit, Error>)
      modifies this
      ensures stories == AfterCommit(old(stories), commit, now, maxRecent, validRoles)
      ensures commit.storyId !in old(stories) ==> r == Err(NotFound)
      ensures commit.storyId in old(stories) ==>
                var s := old(stories)[commit.storyId];
                if commit.turn.key in s.committed then r == Ok(s.committed[commit.turn.key])
                else if Acceptable(s.context, commit, validRoles) then r == Ok(commit)
                else r.Err?
    {
      if commit.storyId !in stories { return Err(NotFound); }
      var story := stories[commit.storyId];
      if commit.turn.key in story.committed { return Ok(story.committed[commit.turn.key]); }
      var refused := Check(story.context, commit);
      if refused.Some? { return Err(refused.value); }
      var next := ApplyCommit(story.context, commit);
      if !validRoles(next.roles) { return Err(InvalidRoles); }
      var info := story.info.(lifeCycle := next.lifeCycle, updatedAt := now);
      next := AdjustRecentTurns(next, maxRecent);
      stories := stories[commit.storyId := Stored(next, info, story.committed[commit.turn.key := commit])];
      r := Ok(commit);
    }
  }

  /** The checks of `commit` that come before the change is applied. */
  ghost predicate Proper(c: Context, commit: StoryCommit) {
    && c.lifeCycle == Active
    && commit.turn.number == c.turnNumber + 1
    && (commit.summary.Replaced? ==> Covered(c) <= commit.summary.value.coveredThrough <= commit.turn.number)
    && ChangeFits(c.facts, c.rumors, c.roles, commit.turn.change)
  }

  method Check(context: Context, commit: StoryCommit) returns (refused: Option<Error>)
    ensures refused.None? <==> Proper(context, commit)
  {
    if context.lifeCycle != Active { return Some(NotActive); }
    if commit.turn.number != context.turnNumber + 1 { return Some(WrongTurnNumber); }
    if commit.summary.Replaced? {
      var covered := commit.summary.value.coveredThrough;
      if covered > commit.turn.number { return Some(SummaryCoversFuture); }
      if context.summary.Some? && covered < context.summary.value.coveredThrough { return Some(SummaryMovesBack); }
    }
    var fault := ValidateOps(context.facts, commit.turn.change.facts);
    if fault.Some? { return Some(InvalidFacts(fault.value)); }
    fault := ValidateOps(context.rumors, commit.turn.change.rumors);
    if fault.Some? { return Some(InvalidRumors(fault.value)); }
    fault := ValidateMemoryOps(context.roles, commit.turn.change.memories);
    if fault.Some? { return Some(InvalidMemories(fault.value)); }
    refused := None;
  }

  method ApplyCommit(context: Context, commit: StoryCommit) returns (next: Context)
    ensures next == Advance(context, commit)
  {
    next := context.(turnNumber := commit.turn.number);
    var change := commit.turn.change;
    var facts := ApplyAll(next.facts, commit.turn.number, change.facts);
    var rumors := ApplyAll(next.rumors, commit.turn.number, change.rumors);
    var roles := ApplyAllMemories(next.roles, commit.turn.number, change.memories);
    next := next.(facts := facts, rumors := rumors, roles := roles);
    next := next.(recent := next.recent + [commit.turn]);
    if commit.summary.Replaced? { next := next.(summary := Some(commit.summary.value)); }
    if commit.narrative.Replaced? { next := next.(narrative := commit.narrative.value); }
    if commit.lifeCycle.Replaced? { next := next.(lifeCycle := commit.lifeCycle.value); }
  }

  method AdjustRecentTurns(context: Context, maxRecent: nat) returns (next: Context)
    ensures next == Trim(context, maxRecent)
  {
    var recent := context.recent;
    while |recent| > maxRecent
      invariant |recent| <= |context.recent| && recent == context.recent[|context.recent| - |recent|..]
      invariant |recent| >= maxRecent || recent == context.recent
    {
      recent := recent[1..];
    }
    if context.summary.None? { return context.(recent := recent); }
    var covered := context.summary.value.coveredThrough;
    ghost var last := recent;
    while recent != [] && recent[0].number <= covered
      invariant DropCovered(recent, covered) == DropCovered(last, covered)
      decreases |recent|
    {
      recent := recent[1..];
    }
    next := context.(recent := recent);
  }

  // ---------------------------------------------------------------- replay

  /** The committed turns, in turn order, applied to the creation context with nothing trimmed. */
  function Replay(origin: Context, log: seq<StoryCommit>): Context {
    if log == [] then origin else Advance(Replay(origin, log[..|log| - 1]), log[|log| - 1])
  }

  /** Every commit of the log was proper when it was made. */
  ghost predicate Lawful(origin: Context, log: seq<StoryCommit>) {
    log != [] ==> Lawful(origin, log[..|log| - 1]) && Proper(Replay(origin, log[..|log| - 1]), log[|log| - 1])
  }

  function ByKey(log: seq<StoryCommit>): map<string, StoryCommit> {
    if log == [] then map[] else ByKey(log[..|log| - 1])[log[|log| - 1].turn.key := log[|log| - 1]]
  }

  ghost predicate DistinctKeys(log: seq<StoryCommit>) {
    forall i, j :: 0 <= i < j < |log| ==> log[i].turn.key != log[j].turn.key
  }

  /** `log` lists the committed map in turn order: keys and turn numbers 1..n correspond one to one. */
  ghost predicate IsLog(committed: map<string, StoryCommit>, log: seq<StoryCommit>) {
    committed == ByKey(log) && DistinctKeys(log) && Numbered(Turns(log))
  }

  ghost predicate Fresh(c: Context) {
    c.turnNumber == 0 && c.summary.None? && c.recent == [] && c.lifeCycle == Active
  }

  /** Index of the first turn the window still shows: beyond the summary and within the last `maxRecent`. */
  function WindowStart(n: nat, maxRecent: nat, covered: nat): nat {
    if covered > n - maxRecent then covered else n - maxRecent
  }

  function Turns(log: seq<StoryCommit>): (ts: seq<Turn>)
    ensures |ts| == |log| && forall i :: 0 <= i < |ts| ==> ts[i] == log[i].turn
  {
    seq(|log|, i requires 0 <= i < |log| => log[i].turn)
  }

  /** Everything a reachable stored story satisfies, given its committed turns in order. */
  ghost predicate IsReplayOf(origin: Context, s: Stored, log: seq<StoryCommit>, maxRecent: nat) {
    var full := Replay(origin, log);
    && IsLog(s.committed, log)
    && Lawful(origin, log)
    && Complete(full, log)
    && s.context == Windowed(full, Turns(log), maxRecent)
    && s.info.lifeCycle == s.context.lifeCycle
  }

  ghost predicate IsReplay(origin: Context, s: Stored, maxRecent: nat) {
    exists log :: IsReplayOf(origin, s, log, maxRecent)
  }

  lemma NewStoryIsReplay(spec: Spec, s: Stored, maxRecent: nat)
    requires s == Stored(NewContext(spec), s.info, map[]) && s.info.lifeCycle == Active
    ensures Fresh(NewContext(spec)) && IsReplay(NewContext(spec), s, maxRecent)
  {
    assert IsReplayOf(NewContext(spec), s, [], maxRecent);
  }

  lemma {:induction false} LoggedIsCommitted(log: seq<StoryCommit>, i: nat)
    requires DistinctKeys(log) && i < |log|
    ensures log[i].turn.key in ByKey(log) && ByKey(log)[log[i].turn.key] == log[i]
  {
    if i < |log| - 1 {
      LoggedIsCommitted(log[..|log| - 1], i);
    }
  }

  lemma {:induction false} CommittedIsLogged(log: seq<StoryCommit>, key: string) returns (i: nat)
    requires key in ByKey(log)
    ensures i < |log| && log[i] == ByKey(log)[key] && log[i].turn.key == key
  {
    if key == log[|log| - 1].turn.key {
      i := |log| - 1;
    } else {
      i := CommittedIsLogged(log[..|log| - 1], key);
    }
  }

  lemma {:induction false} LogGrows(committed: map<string, StoryCommit>, log: seq<StoryCommit>, commit: StoryCommit)
    requires IsLog(committed, log) && commit.turn.key !in committed && commit.turn.number == |log| + 1
    ensures IsLog(committed[commit.turn.key := commit], log + [commit])
  {
    assert (log + [commit])[..|log|] == log;
    forall i | 0 <= i < |log|
      ensures log[i].turn.key != commit.turn.key
    {
      LoggedIsCommitted(log, i);
    }
  }

  lemma {:induction false} DropCoveredIsSlice(recent: seq<Turn>, first: nat, covered: nat)
    requires forall i :: 0 <= i < |recent| ==> recent[i].number == first + i
    requires covered < first + |recent|
    ensures DropCovered(recent, covered) == recent[if covered < first then 0 else covered - first + 1..]
  {
    if recent != [] && recent[0].number <= covered {
      DropCoveredIsSlice(recent[1..], first + 1, covered);
    }
  }

  ghost predicate Numbered(turns: seq<Turn>) {
    forall i :: 0 <= i < |turns| ==> turns[i].number == i + 1
  }

  /** The last `maxRecent` turns of a window that ends with turn n. */
  lemma LastTurnsIsSlice(turns: seq<Turn>, start: nat, maxRecent: nat)
    requires start <= |turns|
    ensures LastTurns(turns[start..], maxRecent) ==
            turns[if |turns| - maxRecent > start then |turns| - maxRecent else start..]
  {
  }

  lemma DropCoveredOfSlice(turns: seq<Turn>, cut: nat, covered: nat)
    requires Numbered(turns) && cut <= |turns| && covered <= |turns|
    ensures DropCovered(turns[cut..], covered) == turns[if covered > cut then covered else cut..]
  {
    if cut < |turns| {
      DropCoveredIsSlice(turns[cut..], cut + 1, covered);
    }
  }

  /** Trimming the window of the first n turns plus turn n+1 gives the window of the first n+1 turns. */
  lemma TrimIsWindow(c: Context, turns: seq<Turn>, start: nat, maxRecent: nat)
    requires Numbered(turns)
    requires start <= |turns| && c.recent == turns[start..]
    requires Covered(c) <= |turns|
    requires start <= WindowStart(|turns|, maxRecent, Covered(c))
    ensures WindowStart(|turns|, maxRecent, Covered(c)) <= |turns|
    ensures Trim(c, maxRecent).recent == turns[WindowStart(|turns|, maxRecent, Covered(c))..]
  {
    LastTurnsIsSlice(turns, start, maxRecent);
    var cut := if |turns| - maxRecent > start then |turns| - maxRecent else start;
    if c.summary.Some? {
      DropCoveredOfSlice(turns, cut, Covered(c));
    }
  }

  /** Every attempt, accepted, repeated or rejected, keeps the story a replay of its committed turns. */
  lemma AttemptKeepsReplay(origin: Context, s: Stored, commit: StoryCommit, now: int, maxRecent: nat,
                           validRoles: Roles -> bool)
    requires Fresh(origin) && IsReplay(origin, s, maxRecent)
    ensures IsReplay(origin, AfterAttempt(s, commit, now, maxRecent, validRoles), maxRecent)
  {
    var log: seq<StoryCommit> :| IsReplayOf(origin, s, log, maxRecent);
    if commit.turn.key !in s.committed && Acceptable(s.context, commit, validRoles) {
      AcceptedExtendsReplay(origin, s, log, commit, now, maxRecent, validRoles);
    }
  }

  lemma ProperIgnoresWindow(c: Context, recent: seq<Turn>, commit: StoryCommit)
    ensures Proper(c.(recent := recent), commit) <==> Proper(c, commit)
  {
  }

  /** The window plays no part in the effect of a commit on the rest of the context. */
  lemma AdvanceKeepsWindowApart(c: Context, recent: seq<Turn>, commit: StoryCommit)
    ensures Advance(c.(recent := recent), commit) == Advance(c, commit).(recent := recent + [commit.turn])
  {
  }

  /** The facts about the untrimmed replay that the window depends on. */
  ghost predicate Complete(full: Context, log: seq<StoryCommit>) {
    && full.turnNumber == |log|
    && Covered(full) <= |log|
    && full.recent == Turns(log)
    && Numbered(Turns(log))
  }

  function Windowed(full: Context, turns: seq<Turn>, maxRecent: nat): Context
    requires Covered(full) <= |turns|
  {
    full.(recent := turns[WindowStart(|turns|, maxRecent, Covered(full))..])
  }

  lemma WindowExtends(full: Context, log: seq<StoryCommit>, commit: StoryCommit, maxRecent: nat)
    requires Complete(full, log) && commit.turn.number == |log| + 1
    requires commit.summary.Replaced? ==> Covered(full) <= commit.summary.value.coveredThrough <= commit.turn.number
    ensures var full' := Advance(full, commit);
            && Complete(full', log + [commit])
            && Trim(Advance(Windowed(full, Turns(log), maxRecent), commit), maxRecent) ==
               Windowed(full', Turns(log + [commit]), maxRecent)
  {
    var log' := log + [commit];
    assert Turns(log') == Turns(log) + [commit.turn];
    var start := WindowStart(|log|, maxRecent, Covered(full));
    AdvanceKeepsWindowApart(full, Turns(log)[start..], commit);
    var next := Advance(Windowed(full, Turns(log), maxRecent), commit);
    assert next.recent == Turns(log')[start..];
    TrimIsWindow(next, Turns(log'), start, maxRecent);
  }

  lemma AcceptedExtendsReplay(origin: Context, s: Stored, log: seq<StoryCommit>, commit: StoryCommit, now: int,
                              maxRecent: nat, validRoles: Roles -> bool)
    requires IsReplayOf(origin, s, log, maxRecent)
    requires commit.turn.key !in s.committed && Acceptable(s.context, commit, validRoles)
    ensures IsReplayOf(origin, AfterAttempt(s, commit, now, maxRecent, validRoles), log + [commit], maxRecent)
  {
    assert (log + [commit])[..|log|] == log;
    LogGrows(s.committed, log, commit);
    ProperIgnoresWindow(Replay(origin, log), s.context.recent, commit);
    WindowExtends(Replay(origin, log), log, commit, maxRecent);
  }

  // ---------------------------------------------------------------- whole runs

  datatype Request = CreateStory(spec: Spec, now: int) | CommitTurn(commit: StoryCommit, now: int) | DeleteStory(id: Id)

  /** The store's map, and the context each stored story was created with. */
  datatype State = State(stories: map<Id, Stored>, origins: map<Id, Context>)

  ghost function Step(st: State, r: Request, maxRecent: nat, validRoles: Roles -> bool): State {
    match r
    case CreateStory(spec, now) =>
      if !validRoles(spec.roles) || spec.storyId in st.stories then st
      else State(AfterCreate(st.stories, spec, now, validRoles), st.origins[spec.storyId := NewContext(spec)])
    case CommitTurn(commit, now) => st.(stories := AfterCommit(st.stories, commit, now, maxRecent, validRoles))
    case DeleteStory(id) => State(st.stories - {id}, st.origins - {id})
  }

  ghost function RunOf(rs: seq<Request>, maxRecent: nat, validRoles: Roles -> bool): State {
    if rs == [] then State(map[], map[])
    else Step(RunOf(rs[..|rs| - 1], maxRecent, validRoles), rs[|rs| - 1], maxRecent, validRoles)
  }

  ghost predicate Replayed(st: State, id: Id, maxRecent: nat) {
    id in st.stories && id in st.origins && Fresh(st.origins[id]) && IsReplay(st.origins[id], st.stories[id], maxRecent)
  }

  lemma StepKeepsReplay(st: State, r: Request, id: Id, maxRecent: nat, validRoles: Roles -> bool)
    requires id in st.stories ==> Replayed(st, id, maxRecent)
    ensures id in Step(st, r, maxRecent, validRoles).stories ==>
            Replayed(Step(st, r, maxRecent, validRoles), id, maxRecent)
  {
    match r
    case CreateStory(spec, now) => CreateKeepsReplay(st, spec, now, id, maxRecent, validRoles);
    case CommitTurn(commit, now) =>
      if id == commit.storyId && id in st.stories {
        AttemptKeepsReplay(st.origins[id], st.stories[id], commit, now, maxRecent, validRoles);
      }
    case DeleteStory(_) =>
  }

  lemma CreateKeepsReplay(st: State, spec: Spec, now: int, id: Id, maxRecent: nat, validRoles: Roles -> bool)
    requires id in st.stories ==> Replayed(st, id, maxRecent)
    ensures var st' := Step(st, CreateStory(spec, now), maxRecent, validRoles);
            id in st'.stories ==> Replayed(st', id, maxRecent)
  {
    if id == spec.storyId && id !in st.stories {
      var stored := Stored(NewContext(spec), Info(spec.storyId, spec.playerId, now, now, Active), map[]);
      NewStoryIsReplay(spec, stored, maxRecent);
    }
  }

  /** After any run of creates, commits and deletes, every stored story is the replay of its committed turns. */
  lemma {:induction false} RunIsReplay(rs: seq<Request>, id: Id, maxRecent: nat, validRoles: Roles -> bool)
    ensures var st := RunOf(rs, maxRecent, validRoles); id in st.stories ==> Replayed(st, id, maxRecent)
  {
    if rs != [] {
      RunIsReplay(rs[..|rs| - 1], id, maxRecent, validRoles);
      StepKeepsReplay(RunOf(rs[..|rs| - 1], maxRecent, validRoles), rs[|rs| - 1], id, maxRecent, validRoles);
    }
  }

  function Max(a: int, b: int): int {
    if a < b then b else a
  }

  /** `recent` lists the committed turns numbered `first`, `first + 1`, and so on, as they were committed. */
  ghost predicate Shows(recent: seq<Turn>, committed: map<string, StoryCommit>, first: int) {
    forall i :: 0 <= i < |recent| ==>
      recent[i].number == first + i && recent[i].key in committed && committed[recent[i].key].turn == recent[i]
  }

  /**
   The window shows exactly the turns numbered max(1, n - maxRecent + 1, covered + 1) through n, in order,
   each as it was committed, where n is the story's turn number.
   */
  lemma WindowIsExact(origin: Context, s: Stored, maxRecent: nat)
    requires IsReplay(origin, s, maxRecent)
    ensures var n := s.context.turnNumber;
            var first := Max(1, Max(n - maxRecent + 1, Covered(s.context) + 1));
            |s.context.recent| == n + 1 - first && Shows(s.context.recent, s.committed, first)
  {
    var log: seq<StoryCommit> :| IsReplayOf(origin, s, log, maxRecent);
    SliceIsExact(log, WindowStart(|log|, maxRecent, Covered(s.context)));
  }

  lemma {:induction false} SliceIsExact(log: seq<StoryCommit>, start: nat)
    requires DistinctKeys(log) && Numbered(Turns(log)) && start <= |log|
    ensures Shows(Turns(log)[start..], ByKey(log), start + 1)
  {
    var recent := Turns(log)[start..];
    forall i | 0 <= i < |recent|
      ensures recent[i].number == start + 1 + i
      ensures recent[i].key in ByKey(log) && ByKey(log)[recent[i].key].turn == recent[i]
    {
      LoggedIsCommitted(log, start + i);
    }
  }

  lemma {:induction false} LogLength(log: seq<StoryCommit>)
    requires DistinctKeys(log)
    ensures |ByKey(log)| == |log|
  {
    if log != [] {
      var init, key := log[..|log| - 1], log[|log| - 1].turn.key;
      LogLength(init);
      if key in ByKey(init) {
        var i := CommittedIsLogged(init, key);
        assert false;
      }
    }
  }

  /** Turn n of a story is committed under exactly one key. */
  ghost predicate UniqueTurn(committed: map<string, StoryCommit>, n: nat, key: string) {
    key in committed && committed[key].turn.number == n &&
    forall k :: k in committed && committed[k].turn.number == n ==> k == key
  }

  /** Idempotency keys and turn numbers 1..n correspond one to one. */
  lemma CommittedTurnsAreOneToOne(committed: map<string, StoryCommit>, log: seq<StoryCommit>)
    requires IsLog(committed, log)
    ensures |committed| == |log|
    ensures forall k :: k in committed ==> committed[k].turn.key == k && 1 <= committed[k].turn.number <= |log|
    ensures forall i :: 0 <= i < |log| ==> UniqueTurn(committed, i + 1, log[i].turn.key)
  {
    LogLength(log);
    forall k | k in committed
      ensures committed[k].turn.key == k && 1 <= committed[k].turn.number <= |log|
    {
      var i := CommittedIsLogged(log, k);
      assert Turns(log)[i] == log[i].turn;
    }
    forall i | 0 <= i < |log|
      ensures UniqueTurn(committed, i + 1, log[i].turn.key)
    {
      LoggedIsCommitted(log, i);
      assert Turns(log)[i] == log[i].turn;
      forall k | k in committed && committed[k].turn.number == i + 1
        ensures k == log[i].turn.key
      {
        var j := CommittedIsLogged(log, k);
        assert Turns(log)[j] == log[j].turn;
      }
    }
  }

  /** The committed map determines the log. */
  lemma LogIsUnique(committed: map<string, StoryCommit>, a: seq<StoryCommit>, b: seq<StoryCommit>)
    requires IsLog(committed, a) && IsLog(committed, b)
    ensures a == b
  {
    LogLength(a);
    LogLength(b);
    forall n | 0 <= n < |a|
      ensures a[n] == b[n]
    {
      LoggedIsCommitted(a, n);
      var i := CommittedIsLogged(b, a[n].turn.key);
      assert Turns(a)[n] == a[n].turn && Turns(b)[i] == b[i].turn;
    }
  }

  // ---------------------------------------------------------------- what a story never loses

  datatype Attempt = Attempt(commit: StoryCommit, now: int)

  ghost function AfterAttempts(s: Stored, attempts: seq<Attempt>, maxRecent: nat, validRoles: Roles -> bool): Stored {
    if attempts == [] then s
    else AfterAttempt(AfterAttempts(s, attempts[..|attempts| - 1], maxRecent, validRoles),
                      attempts[|attempts| - 1].commit, attempts[|attempts| - 1].now, maxRecent, validRoles)
  }

  /** Whatever is committed later, facts and memories already present stay, with their origin; commits stay too. */
  lemma {:induction false} NothingCommittedIsLost(s: Stored, attempts: seq<Attempt>, maxRecent: nat,
                                                  validRoles: Roles -> bool)
    ensures var later := AfterAttempts(s, attempts, maxRecent, validRoles);
            && Keeps(s.context.facts, later.context.facts)
            && KeepsMemories(s.context.roles, later.context.roles)
            && (forall k :: k in s.committed ==> k in later.committed && later.committed[k] == s.committed[k])
  {
    if attempts != [] {
      var init, last := attempts[..|attempts| - 1], attempts[|attempts| - 1];
      NothingCommittedIsLost(s, init, maxRecent, validRoles);
      var mid := AfterAttempts(s, init, maxRecent, validRoles);
      AttemptLosesNothing(mid, last, maxRecent, validRoles);
    }
  }

  lemma AttemptLosesNothing(s: Stored, a: Attempt, maxRecent: nat, validRoles: Roles -> bool)
    ensures var later := AfterAttempt(s, a.commit, a.now, maxRecent, validRoles);
            && Keeps(s.context.facts, later.context.facts)
            && KeepsMemories(s.context.roles, later.context.roles)
  {
    if Acceptable(s.context, a.commit, validRoles) {
      var turn := a.commit.turn;
      GrowingKeepsEntries(s.context.facts, turn.number, turn.change.facts);
      GrowingKeepsMemories(s.context.roles, turn.number, turn.change.memories);
    }
  }

  /** A story that is no longer active never changes again. */
  lemma {:induction false} ClosedStoryIsFrozen(s: Stored, attempts: seq<Attempt>, maxRecent: nat,
                                               validRoles: Roles -> bool)
    requires s.context.lifeCycle != Active
    ensures AfterAttempts(s, attempts, maxRecent, validRoles) == s
  {
    if attempts != [] {
      ClosedStoryIsFrozen(s, attempts[..|attempts| - 1], maxRecent, validRoles);
    }
  }
}
