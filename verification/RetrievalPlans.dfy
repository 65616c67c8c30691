/** Building a retrieval plan from the planner's answer: gaps resolved, characters covered, requests deduplicated. */
module RetrievalPlans {
  import opened Wrappers
  import opened Ordering
  import opened RoleIds
  import opened KnowledgeRequests
  import opened Thinking

  datatype WriterGap = WriterGap(targetId: string, reason: string)

  datatype CharacterGap = CharacterGap(role: string, targetId: string, reason: string)

  datatype Answer = Answer(
    goal: string, writerGaps: seq<WriterGap>, characterGaps: seq<CharacterGap>, thinks: seq<Think>)

  /** Everything a plan is built from; `targets` is the index shown to the planner. */
  datatype Input = Input(
    config: Config, baseline: Baseline, impulses: seq<Impulse>, answer: Answer, snapshot: Snapshot,
    targets: map<string, Target>)

  datatype CharacterRequest = CharacterRequest(role: string, reason: string, origin: Origin)

  datatype Plan = Plan(
    goal: string, characters: seq<CharacterRequest>, knowledge: seq<Request>, thinks: seq<Think>)

  // ---------------------------------------------------------------- the writer's gaps

  datatype GapOutcome = RoleCognition(role: string, reason: string) | KnowledgeGap(request: Request)

  ghost predicate WriterGapFits(config: Config, targets: map<string, Target>, gap: WriterGap) {
    ReasonFits(config, gap.reason) && gap.targetId in targets
  }

  /** The role, or the request to the writer, that a gap stands for. */
  function WriterOutcome(targets: map<string, Target>, gap: WriterGap): GapOutcome
    requires gap.targetId in targets
  {
    match targets[gap.targetId]
    case Role(id) => RoleCognition(id, gap.reason)
    case Knowledge(id) => KnowledgeGap(Request(Writer, id, gap.reason, Planner, false))
  }

  method ResolveWriterGap(config: Config, targets: map<string, Target>, gap: WriterGap)
    returns (r: Result<GapOutcome, PlanError>)
    ensures r.Ok? <==> WriterGapFits(config, targets, gap)
    ensures r.Ok? ==> r.value == WriterOutcome(targets, gap)
    ensures r == Err(UnknownRetrievalKey) ==> gap.targetId !in targets
  {
    var reason :- CheckReason(config, gap.reason, "context_gap_reason_empty");
    if gap.targetId !in targets { return Err(UnknownRetrievalKey); }
    r := Ok(WriterOutcome(targets, gap));
  }

  ghost predicate WriterGapsFit(config: Config, targets: map<string, Target>, gaps: seq<WriterGap>) {
    forall i :: 0 <= i < |gaps| ==> WriterGapFits(config, targets, gaps[i])
  }

  /** The requests the writer's gaps stand for, in order. */
  function WriterRequests(targets: map<string, Target>, gaps: seq<WriterGap>): seq<Request> {
    if gaps == [] then []
    else
      var gap := gaps[|gaps| - 1];
      WriterRequests(targets, gaps[..|gaps| - 1]) +
      if gap.targetId in targets && targets[gap.targetId].Knowledge? then [WriterOutcome(targets, gap).request] else []
  }

  /** Whether a gap asks for a role, and for which. */
  predicate AsksFor(targets: map<string, Target>, gap: WriterGap, role: string) {
    gap.targetId in targets && targets[gap.targetId] == Role(role)
  }

  /** Among the first `n` gaps, gap `i` is the first to ask for `role`. */
  ghost predicate FirstAsks(targets: map<string, Target>, gaps: seq<WriterGap>, role: string, i: nat) {
    i < |gaps| && AsksFor(targets, gaps[i], role) && forall j :: 0 <= j < i ==> !AsksFor(targets, gaps[j], role)
  }

  datatype Cognition = Cognition(reason: string, origin: Origin)

  /** `wanted` holds exactly the roles that gaps ask for, each with the reason of its first gap. */
  ghost predicate Wants(targets: map<string, Target>, gaps: seq<WriterGap>, wanted: map<string, Cognition>) {
    && (forall role :: role in wanted ==> WantedBy(targets, gaps, role, wanted[role]))
    && (forall i :: 0 <= i < |gaps| && gaps[i].targetId in targets && targets[gaps[i].targetId].Role? ==>
          targets[gaps[i].targetId].roleId in wanted)
  }

  ghost predicate WantedBy(targets: map<string, Target>, gaps: seq<WriterGap>, role: string, c: Cognition) {
    exists i: nat :: FirstAsks(targets, gaps, role, i) && c == Cognition(gaps[i].reason, Planner)
  }

  function Want(wanted: map<string, Cognition>, outcome: GapOutcome): map<string, Cognition> {
    if outcome.RoleCognition? && outcome.role !in wanted then wanted[outcome.role := Cognition(outcome.reason, Planner)]
    else wanted
  }

  lemma FirstAsksStays(targets: map<string, Target>, gaps: seq<WriterGap>, role: string, i: nat, n: nat)
    requires i < n <= |gaps|
    ensures FirstAsks(targets, gaps[..n], role, i) <==> FirstAsks(targets, gaps, role, i)
  {
    assert forall j :: 0 <= j < n ==> gaps[..n][j] == gaps[j];
  }

  lemma WantNext(targets: map<string, Target>, gaps: seq<WriterGap>, n: nat, wanted: map<string, Cognition>)
    requires n < |gaps| && gaps[n].targetId in targets && Wants(targets, gaps[..n], wanted)
    ensures Wants(targets, gaps[..n + 1], Want(wanted, WriterOutcome(targets, gaps[n])))
  {
    var a, b, next := gaps[..n], gaps[..n + 1], Want(wanted, WriterOutcome(targets, gaps[n]));
    assert b[..n] == a && b[n] == gaps[n];
    forall role | role in next ensures WantedBy(targets, b, role, next[role]) {
      if role in wanted {
        var i: nat :| FirstAsks(targets, a, role, i) && wanted[role] == Cognition(a[i].reason, Planner);
        FirstAsksStays(targets, b, role, i, n);
        assert b[i] == a[i];
      } else {
        assert forall j :: 0 <= j < n ==> b[j] == a[j] && !AsksFor(targets, a[j], role);
        assert FirstAsks(targets, b, role, n);
      }
    }
    assert forall i :: 0 <= i < n ==> b[i] == a[i];
  }

  function Ask(requests: seq<Request>, outcome: GapOutcome): seq<Request> {
    if outcome.KnowledgeGap? then requests + [outcome.request] else requests
  }

  lemma RequestNext(targets: map<string, Target>, gaps: seq<WriterGap>, n: nat)
    requires n < |gaps| && gaps[n].targetId in targets
    ensures WriterRequests(targets, gaps[..n + 1]) ==
            Ask(WriterRequests(targets, gaps[..n]), WriterOutcome(targets, gaps[n]))
  {
    assert gaps[..n + 1][..n] == gaps[..n] && gaps[..n + 1][n] == gaps[n];
  }

  lemma FitNext(config: Config, targets: map<string, Target>, gaps: seq<WriterGap>, n: nat)
    requires n < |gaps| && WriterGapsFit(config, targets, gaps[..n]) && WriterGapFits(config, targets, gaps[n])
    ensures WriterGapsFit(config, targets, gaps[..n + 1])
  {
    assert gaps[..n + 1] == gaps[..n] + [gaps[n]];
  }

  method ResolveWriterGaps(config: Config, targets: map<string, Target>, gaps: seq<WriterGap>)
    returns (r: Result<(map<string, Cognition>, seq<Request>), PlanError>)
    ensures r.Ok? <==> WriterGapsFit(config, targets, gaps)
    ensures r.Ok? ==> Wants(targets, gaps, r.value.0) && r.value.1 == WriterRequests(targets, gaps)
  {
    var wanted: map<string, Cognition>, requests := map[], [];
    for i := 0 to |gaps|
      invariant WriterGapsFit(config, targets, gaps[..i])
      invariant Wants(targets, gaps[..i], wanted) && requests == WriterRequests(targets, gaps[..i])
    {
      var outcome :- ResolveWriterGap(config, targets, gaps[i]);
      WantNext(targets, gaps, i, wanted);
      RequestNext(targets, gaps, i);
      FitNext(config, targets, gaps, i);
      match outcome {
        case RoleCognition(role, reason) =>
          if role !in wanted { wanted := wanted[role := Cognition(reason, Planner)]; }
        case KnowledgeGap(request) => requests := requests + [request];
      }
    }
    assert gaps[..|gaps|] == gaps;
    r := Ok((wanted, requests));
  }

  // ---------------------------------------------------------------- the characters' gaps

  /** A character may be told what it thinks about: rumors and memories, never facts, never other roles. */
  ghost predicate CharacterGapFits(config: Config, targets: map<string, Target>, thinkers: set<string>,
                                   gap: CharacterGap)
  {
    && ReasonFits(config, gap.reason)
    && gap.role in thinkers
    && gap.targetId in targets && targets[gap.targetId].Knowledge? && !targets[gap.targetId].sourceId.kind.Fact?
  }

  function CharacterOutcome(targets: map<string, Target>, gap: CharacterGap): Request
    requires gap.targetId in targets && targets[gap.targetId].Knowledge?
  {
    Request(Character(gap.role), targets[gap.targetId].sourceId, gap.reason, Planner, false)
  }

  method ResolveCharacterGap(config: Config, targets: map<string, Target>, thinks: seq<Think>, gap: CharacterGap)
    returns (r: Result<Request, PlanError>)
    requires forall i :: 0 <= i < |thinks| ==> IsRoleId(thinks[i].role)
    ensures r.Ok? <==> CharacterGapFits(config, targets, RolesOf(thinks), gap)
    ensures r.Ok? ==> r.value == CharacterOutcome(targets, gap)
    ensures r == Err(KnowledgeAudienceViolation) ==>
              gap.role !in RolesOf(thinks) ||
              (gap.targetId in targets && (targets[gap.targetId].Role? || targets[gap.targetId].sourceId.kind.Fact?))
  {
    var reason :- CheckReason(config, gap.reason, "context_gap_reason_empty");
    var role := TryRoleId(gap.role);
    if role.Err? { return Err(UnknownRole); }
    if gap.role !in RolesOf(thinks) { return Err(KnowledgeAudienceViolation); }
    if gap.targetId !in targets { return Err(UnknownRetrievalKey); }
    match targets[gap.targetId] {
      case Role(_) => return Err(KnowledgeAudienceViolation);
      case Knowledge(id) =>
        if id.kind.Fact? { return Err(KnowledgeAudienceViolation); }
        r := Ok(Request(Character(role.value), id, reason, Planner, false));
    }
  }

  ghost predicate CharacterGapsFit(config: Config, targets: map<string, Target>, thinkers: set<string>,
                                   gaps: seq<CharacterGap>)
  {
    forall i :: 0 <= i < |gaps| ==> CharacterGapFits(config, targets, thinkers, gaps[i])
  }

  /** The requests the characters' gaps stand for, in order. */
  function CharacterRequests(targets: map<string, Target>, gaps: seq<CharacterGap>): seq<Request> {
    if gaps == [] then []
    else
      var gap := gaps[|gaps| - 1];
      CharacterRequests(targets, gaps[..|gaps| - 1]) +
      if gap.targetId in targets && targets[gap.targetId].Knowledge? then [CharacterOutcome(targets, gap)] else []
  }

  lemma NextCharacterGap(config: Config, targets: map<string, Target>, thinkers: set<string>, gaps: seq<CharacterGap>,
                         n: nat)
    requires n < |gaps| && CharacterGapsFit(config, targets, thinkers, gaps[..n])
    requires CharacterGapFits(config, targets, thinkers, gaps[n])
    ensures CharacterGapsFit(config, targets, thinkers, gaps[..n + 1])
    ensures CharacterRequests(targets, gaps[..n + 1]) ==
            CharacterRequests(targets, gaps[..n]) + [CharacterOutcome(targets, gaps[n])]
  {
    var next := gaps[..n + 1];
    assert next == gaps[..n] + [gaps[n]] && next[..n] == gaps[..n] && next[|next| - 1] == gaps[n];
  }

  method ResolveCharacterGaps(config: Config, targets: map<string, Target>, thinks: seq<Think>, gaps: seq<CharacterGap>)
    returns (r: Result<seq<Request>, PlanError>)
    requires forall i :: 0 <= i < |thinks| ==> IsRoleId(thinks[i].role)
    ensures r.Ok? <==> CharacterGapsFit(config, targets, RolesOf(thinks), gaps)
    ensures r.Ok? ==> r.value == CharacterRequests(targets, gaps)
  {
    var requests := [];
    for i := 0 to |gaps|
      invariant CharacterGapsFit(config, targets, RolesOf(thinks), gaps[..i])
      invariant requests == CharacterRequests(targets, gaps[..i])
    {
      var request :- ResolveCharacterGap(config, targets, thinks, gaps[i]);
      NextCharacterGap(config, targets, RolesOf(thinks), gaps, i);
      requests := requests + [request];
    }
    assert gaps[..|gaps|] == gaps;
    r := Ok(requests);
  }

  // ---------------------------------------------------------------- the characters to look up

  function CharacterRoles(characters: seq<CharacterRequest>): seq<string> {
    seq(|characters|, i requires 0 <= i < |characters| => characters[i].role)
  }

  /** A role is looked up for the first gap that asks for it, or else because it thinks. */
  ghost predicate LookedUpFor(wanted: map<string, Cognition>, thinks: seq<Think>, c: CharacterRequest) {
    if c.role in wanted then Cognition(c.reason, c.origin) == wanted[c.role]
    else Think(c.role, c.reason) in thinks && c.origin == Automatic
  }

  ghost predicate AreLookups(wanted: map<string, Cognition>, thinks: seq<Think>, characters: seq<CharacterRequest>) {
    && Lists(CharacterRoles(characters), wanted.Keys + RolesOf(thinks), TextLeq)
    && forall i :: 0 <= i < |characters| ==> LookedUpFor(wanted, thinks, characters[i])
  }

  ghost predicate Covers(wanted: map<string, Cognition>, thinks: seq<Think>, all: map<string, Cognition>) {
    && all.Keys == wanted.Keys + RolesOf(thinks)
    && forall role :: role in all ==>
       LookedUpFor(wanted, thinks, CharacterRequest(role, all[role].reason, all[role].origin))
  }

  method CoverThinks(wanted: map<string, Cognition>, thinks: seq<Think>) returns (all: map<string, Cognition>)
    ensures Covers(wanted, thinks, all)
  {
    all := wanted;
    for i := 0 to |thinks|
      invariant Covers(wanted, thinks[..i], all)
    {
      CoverNext(wanted, thinks, i, all);
      if thinks[i].role !in all { all := all[thinks[i].role := Cognition(thinks[i].reason, Automatic)]; }
    }
    assert thinks[..|thinks|] == thinks;
  }

  lemma CoverNext(wanted: map<string, Cognition>, thinks: seq<Think>, i: nat, all: map<string, Cognition>)
    requires i < |thinks| && Covers(wanted, thinks[..i], all)
    ensures Covers(wanted, thinks[..i + 1],
                   if thinks[i].role in all then all else all[thinks[i].role := Cognition(thinks[i].reason, Automatic)])
  {
    var t := thinks[i];
    assert thinks[..i + 1] == thinks[..i] + [t];
    RolesOfBoth(thinks[..i], [t]);
    assert RolesOf([t]) == {t.role} by {
      assert [t][0].role in RolesOf([t]);
    }
    assert Think(t.role, t.reason) == t && t in thinks[..i + 1];
  }

  /** The looked-up roles in order. */
  method ListCharacters(all: map<string, Cognition>) returns (characters: seq<CharacterRequest>)
    ensures Lists(CharacterRoles(characters), all.Keys, TextLeq)
    ensures forall i :: 0 <= i < |characters| ==>
      (characters[i].role in all && Cognition(characters[i].reason, characters[i].origin) == all[characters[i].role])
  {
    var roles := Ascending(all.Keys);
    characters := [];
    for k := 0 to |roles|
      invariant |characters| == k
      invariant forall j :: 0 <= j < k ==>
                characters[j] == CharacterRequest(roles[j], all[roles[j]].reason, all[roles[j]].origin)
    {
      characters := characters + [CharacterRequest(roles[k], all[roles[k]].reason, all[roles[k]].origin)];
    }
    assert CharacterRoles(characters) == roles;
  }

  method LookUp(wanted: map<string, Cognition>, thinks: seq<Think>) returns (characters: seq<CharacterRequest>)
    ensures AreLookups(wanted, thinks, characters)
  {
    var all := CoverThinks(wanted, thinks);
    characters := ListCharacters(all);
  }

  // ---------------------------------------------------------------- the plan

  /** Roles are typed as role ids everywhere but in the planner's answer. */
  ghost predicate WellTyped(input: Input) {
    forall i :: 0 <= i < |input.impulses| ==> IsRoleId(input.impulses[i].role)
  }

  ghost function Newcomers(input: Input): set<string> {
    AddedRoles(RolesOf(input.answer.thinks), input.impulses, |input.impulses|)
  }

  ghost function Thinkers(input: Input): set<string> {
    RolesOf(input.answer.thinks) + Newcomers(input)
  }

  function AllRequests(input: Input): seq<Request> {
    WriterRequests(input.targets, input.answer.writerGaps) +
      CharacterRequests(input.targets, input.answer.characterGaps)
  }

  ghost predicate ThinksFit(input: Input) {
    && |input.answer.thinks| <= input.config.maxThinks
    && (forall i :: 0 <= i < |input.answer.thinks| ==> Convertible(input.config, input.answer.thinks[i]))
    && DistinctRoles(input.answer.thinks)
    && (forall i :: 0 <= i < |input.answer.thinks| ==> MayThink(input.snapshot, input.answer.thinks[i].role))
    && AllAddable(input.config, input.baseline, RolesOf(input.answer.thinks), input.impulses, |input.impulses|)
    && |input.answer.thinks| + |Newcomers(input)| <= input.config.maxThinks
  }

  ghost predicate GapsFit(input: Input) {
    && |input.answer.writerGaps| + |input.answer.characterGaps| <= input.config.maxGaps
    && WriterGapsFit(input.config, input.targets, input.answer.writerGaps)
    && CharacterGapsFit(input.config, input.targets, Thinkers(input), input.answer.characterGaps)
    && |KeysOf(AllRequests(input))| <= input.config.maxRequests
  }

  ghost predicate GoalFits(input: Input) {
    !Blank(input.answer.goal) && ByteLength(input.answer.goal) <= input.config.maxGoalBytes
  }

  ghost predicate LooksUp(input: Input, thinks: seq<Think>, characters: seq<CharacterRequest>) {
    exists wanted :: Wants(input.targets, input.answer.writerGaps, wanted) && AreLookups(wanted, thinks, characters)
  }

  ghost predicate IsPlanOf(input: Input, plan: Plan) {
    && plan.goal == input.answer.goal
    && IsMerge(input.answer.thinks, input.impulses, plan.thinks)
    && LooksUp(input, plan.thinks, plan.characters)
    && IsBestList(AllRequests(input), plan.knowledge)
    && Sorted(plan.knowledge, RequestLeq)
  }

  /** The think requests of the plan: converted, validated, and merged with the narrative's. */
  method PlanThinks(input: Input) returns (r: Result<seq<Think>, PlanError>)
    requires WellTyped(input)
    ensures r.Ok? <==> ThinksFit(input)
    ensures r.Ok? ==> IsMerge(input.answer.thinks, input.impulses, r.value) && RolesOf(r.value) == Thinkers(input)
    ensures r.Ok? ==> forall i :: 0 <= i < |r.value| ==> IsRoleId(r.value[i].role)
  {
    if |input.answer.thinks| > input.config.maxThinks { return Err(LimitExceeded("max_character_think_requests")); }
    var converted :- ConvertThinks(input.config, input.answer.thinks);
    var validated :- ValidateThinks(converted, input.snapshot);
    var merged :- MergeNarrative(input.config, validated, input.impulses, input.baseline);
    MergedRolesAreDistinct(validated, input.impulses, merged);
    MergedRolesAreTyped(validated, input.impulses, merged);
    r := Ok(merged);
  }

  lemma MergedRolesAreTyped(planned: seq<Think>, impulses: seq<Impulse>, merged: seq<Think>)
    requires IsMerge(planned, impulses, merged)
    requires forall i :: 0 <= i < |planned| ==> IsRoleId(planned[i].role)
    requires forall i :: 0 <= i < |impulses| ==> IsRoleId(impulses[i].role)
    ensures forall i :: 0 <= i < |merged| ==> IsRoleId(merged[i].role)
  {
    MergedRolesSatisfy(planned, impulses, merged, role => IsRoleId(role));
  }

  /** `build`: succeeds exactly on a fitting answer, and then plans what the answer and the narrative ask for. */
  method Build(input: Input) returns (r: Result<Plan, PlanError>)
    requires WellTyped(input)
    ensures r.Ok? <==> ThinksFit(input) && GapsFit(input) && GoalFits(input)
    ensures r.Ok? ==> IsPlanOf(input, r.value)
  {
    var answer, config := input.answer, input.config;
    if |answer.writerGaps| + |answer.characterGaps| > config.maxGaps { return Err(LimitExceeded("max_context_gaps")); }
    if |answer.thinks| > config.maxThinks { return Err(LimitExceeded("max_character_think_requests")); }
    if Blank(answer.goal) { return Err(InvalidOutput("story_goal_empty")); }
    if ByteLength(answer.goal) > config.maxGoalBytes { return Err(LimitExceeded("max_goal_bytes")); }
    var thinks :- PlanThinks(input);
    var resolved :- ResolveWriterGaps(config, input.targets, answer.writerGaps);
    var told :- ResolveCharacterGaps(config, input.targets, thinks, answer.characterGaps);
    var characters := LookUp(resolved.0, thinks);
    var knowledge := DedupeAndSort(resolved.1 + told);
    OnePerKey(AllRequests(input), knowledge);
    if |knowledge| > config.maxRequests { return Err(LimitExceeded("max_requests")); }
    r := Ok(Plan(answer.goal, characters, knowledge, thinks));
  }
}
