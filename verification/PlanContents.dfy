/** What a built plan contains, told from the planner's answer and the narrative's impulses alone. */
module PlanContents {
  import opened Wrappers
  import opened KnowledgeIds
  import opened Ordering
  import opened RoleIds
  import opened KnowledgeRequests
  import opened Thinking
  import opened RetrievalPlans
  import opened RetrievalRoutes
  import A = PlanAudience

  // ---------------------------------------------------------------- the knowledge asked for

  predicate WriterAsks(targets: map<string, Target>, gap: WriterGap, id: SourceId) {
    gap.targetId in targets && targets[gap.targetId] == Knowledge(id)
  }

  predicate CharacterAsks(targets: map<string, Target>, gap: CharacterGap, role: string, id: SourceId) {
    gap.role == role && gap.targetId in targets && targets[gap.targetId] == Knowledge(id)
  }

  /** Gap `i` is the writer's first one for this knowledge, and the request carries its reason. */
  ghost predicate WriterAnswered(targets: map<string, Target>, gaps: seq<WriterGap>, r: Request, i: nat) {
    && i < |gaps| && WriterAsks(targets, gaps[i], r.target) && r.reason == gaps[i].reason
    && forall j :: 0 <= j < i ==> !WriterAsks(targets, gaps[j], r.target)
  }

  ghost predicate CharacterAnswered(targets: map<string, Target>, gaps: seq<CharacterGap>, r: Request, i: nat)
    requires r.delivery.Character?
  {
    && i < |gaps| && CharacterAsks(targets, gaps[i], r.delivery.role, r.target) && r.reason == gaps[i].reason
    && forall j :: 0 <= j < i ==> !CharacterAsks(targets, gaps[j], r.delivery.role, r.target)
  }

  /** Request `k` is the first with its key. */
  ghost predicate FirstOfKey(rs: seq<Request>, k: nat) {
    k < |rs| && forall j :: 0 <= j < k ==> KeyOf(rs[j]) != KeyOf(rs[k])
  }

  predicate Plain(r: Request) {
    r.origin == Planner && !r.mandatory
  }

  lemma {:induction false} WriterRequestsArePlain(targets: map<string, Target>, gaps: seq<WriterGap>)
    ensures forall r :: r in WriterRequests(targets, gaps) ==> Plain(r) && r.delivery.Writer?
  {
    if gaps != [] {
      WriterRequestsArePlain(targets, gaps[..|gaps| - 1]);
    }
  }

  lemma {:induction false} CharacterRequestsArePlain(targets: map<string, Target>, gaps: seq<CharacterGap>)
    ensures forall r :: r in CharacterRequests(targets, gaps) ==> Plain(r) && r.delivery.Character?
  {
    if gaps != [] {
      CharacterRequestsArePlain(targets, gaps[..|gaps| - 1]);
    }
  }

  /** Every gap of the writer's for knowledge has its request. */
  lemma {:induction false} WriterGapIsAsked(targets: map<string, Target>, gaps: seq<WriterGap>, i: nat, id: SourceId)
    requires i < |gaps| && WriterAsks(targets, gaps[i], id)
    ensures exists r :: r in WriterRequests(targets, gaps) && KeyOf(r) == RequestKey(Writer, id)
  {
    var n := |gaps| - 1;
    if i == n {
      var r := Request(Writer, id, gaps[n].reason, Planner, false);
      assert r in WriterRequests(targets, gaps) && KeyOf(r) == RequestKey(Writer, id);
    } else {
      WriterGapIsAsked(targets, gaps[..n], i, id);
    }
  }

  lemma {:induction false} CharacterGapIsAsked(targets: map<string, Target>, gaps: seq<CharacterGap>, i: nat,
                                               role: string, id: SourceId)
    requires i < |gaps| && CharacterAsks(targets, gaps[i], role, id)
    ensures exists r :: r in CharacterRequests(targets, gaps) && KeyOf(r) == RequestKey(Character(role), id)
  {
    var n := |gaps| - 1;
    if i == n {
      var r := Request(Character(role), id, gaps[n].reason, Planner, false);
      assert r in CharacterRequests(targets, gaps) && KeyOf(r) == RequestKey(Character(role), id);
    } else {
      CharacterGapIsAsked(targets, gaps[..n], i, role, id);
    }
  }

  /** The first request with a key is that of the first gap with it. */
  lemma {:induction false} FirstWriterRequest(targets: map<string, Target>, gaps: seq<WriterGap>, k: nat)
    returns (i: nat)
    requires FirstOfKey(WriterRequests(targets, gaps), k)
    ensures WriterAnswered(targets, gaps, WriterRequests(targets, gaps)[k], i)
  {
    var n, rs := |gaps| - 1, WriterRequests(targets, gaps);
    var init := WriterRequests(targets, gaps[..n]);
    WriterRequestsArePlain(targets, gaps);
    assert rs[..|init|] == init;
    if k < |init| {
      assert forall j :: 0 <= j <= k ==> init[j] == rs[j];
      i := FirstWriterRequest(targets, gaps[..n], k);
      assert gaps[..n][i] == gaps[i];
    } else {
      i := n;
      forall j | 0 <= j < n ensures !WriterAsks(targets, gaps[j], rs[k].target) {
        if WriterAsks(targets, gaps[j], rs[k].target) {
          WriterGapIsAsked(targets, gaps[..n], j, rs[k].target);
        }
      }
    }
  }

  lemma {:induction false} FirstCharacterRequest(targets: map<string, Target>, gaps: seq<CharacterGap>, k: nat)
    returns (i: nat)
    requires FirstOfKey(CharacterRequests(targets, gaps), k)
    ensures CharacterRequests(targets, gaps)[k].delivery.Character?
    ensures CharacterAnswered(targets, gaps, CharacterRequests(targets, gaps)[k], i)
  {
    var n, rs := |gaps| - 1, CharacterRequests(targets, gaps);
    var init := CharacterRequests(targets, gaps[..n]);
    CharacterRequestsArePlain(targets, gaps);
    assert rs[..|init|] == init && rs[k] in rs;
    if k < |init| {
      assert forall j :: 0 <= j <= k ==> init[j] == rs[j];
      i := FirstCharacterRequest(targets, gaps[..n], k);
      assert gaps[..n][i] == gaps[i];
    } else {
      i := n;
      var role := rs[k].delivery.role;
      forall j | 0 <= j < n ensures !CharacterAsks(targets, gaps[j], role, rs[k].target) {
        if CharacterAsks(targets, gaps[j], role, rs[k].target) {
          CharacterGapIsAsked(targets, gaps[..n], j, role, rs[k].target);
        }
      }
    }
  }

  lemma BestIsFirst(rs: seq<Request>, k: nat)
    requires BestOf(rs, |rs|, k) && forall r :: r in rs ==> Plain(r)
    ensures FirstOfKey(rs, k)
  {
    forall j | 0 <= j < k ensures KeyOf(rs[j]) != KeyOf(rs[k]) {
      assert rs[j] in rs && rs[k] in rs;
    }
  }

  lemma FirstOfTwo(a: seq<Request>, b: seq<Request>, k: nat)
    requires FirstOfKey(a + b, k)
    ensures k < |a| ==> FirstOfKey(a, k) && (a + b)[k] == a[k]
    ensures k >= |a| ==> FirstOfKey(b, k - |a|) && (a + b)[k] == b[k - |a|]
  {
    if k >= |a| {
      forall j | 0 <= j < k - |a| ensures KeyOf(b[j]) != KeyOf(b[k - |a|]) {
        assert (a + b)[|a| + j] == b[j];
      }
    } else {
      assert forall j :: 0 <= j <= k ==> (a + b)[j] == a[j];
    }
  }

  /** The request stands for the first gap that asks for this knowledge on behalf of whom it is delivered to. */
  ghost predicate Answered(input: Input, r: Request) {
    && r.origin == Planner && !r.mandatory
    && match r.delivery
       case Writer => exists i: nat :: WriterAnswered(input.targets, input.answer.writerGaps, r, i)
       case Character(_) => exists i: nat :: CharacterAnswered(input.targets, input.answer.characterGaps, r, i)
  }

  lemma FirstIsAnswered(input: Input, k: nat)
    requires FirstOfKey(AllRequests(input), k)
    ensures Answered(input, AllRequests(input)[k])
  {
    var w := WriterRequests(input.targets, input.answer.writerGaps);
    var c := CharacterRequests(input.targets, input.answer.characterGaps);
    FirstOfTwo(w, c, k);
    if k < |w| {
      WriterRequestsArePlain(input.targets, input.answer.writerGaps);
      assert w[k] in w;
      var i := FirstWriterRequest(input.targets, input.answer.writerGaps, k);
    } else {
      CharacterRequestsArePlain(input.targets, input.answer.characterGaps);
      assert c[k - |w|] in c;
      var i := FirstCharacterRequest(input.targets, input.answer.characterGaps, k - |w|);
    }
  }

  lemma RequestsArePlain(input: Input)
    ensures forall r :: r in AllRequests(input) ==> Plain(r)
  {
    WriterRequestsArePlain(input.targets, input.answer.writerGaps);
    CharacterRequestsArePlain(input.targets, input.answer.characterGaps);
  }

  lemma KeyIsKept(rs: seq<Request>, out: seq<Request>, key: RequestKey)
    requires IsBestList(rs, out) && exists r :: r in rs && KeyOf(r) == key
    ensures HasKey(out, key)
  {
    var r :| r in rs && KeyOf(r) == key;
    var i :| 0 <= i < |rs| && rs[i] == r;
    assert HasKey(out, KeyOf(rs[i]));
  }

  /**
   The plan asks for exactly the knowledge the gaps ask for, once for the writer and once for each character that a
   gap names, each time with the reason of the first such gap.
   */
  lemma KnowledgeIsWhatGapsAsk(input: Input, plan: Plan)
    requires IsPlanOf(input, plan)
    ensures forall r :: r in plan.knowledge ==> Answered(input, r)
    ensures forall i, id | 0 <= i < |input.answer.writerGaps| ::
              WriterAsks(input.targets, input.answer.writerGaps[i], id) ==>
              HasKey(plan.knowledge, RequestKey(Writer, id))
    ensures forall i, role, id | 0 <= i < |input.answer.characterGaps| ::
              CharacterAsks(input.targets, input.answer.characterGaps[i], role, id) ==>
              HasKey(plan.knowledge, RequestKey(Character(role), id))
  {
    var rs := AllRequests(input);
    RequestsArePlain(input);
    forall r | r in plan.knowledge ensures Answered(input, r) {
      assert IsBest(rs, r);
      var k: nat :| BestOf(rs, |rs|, k) && rs[k] == r;
      BestIsFirst(rs, k);
      FirstIsAnswered(input, k);
    }
    forall i, id | 0 <= i < |input.answer.writerGaps| && WriterAsks(input.targets, input.answer.writerGaps[i], id)
      ensures HasKey(plan.knowledge, RequestKey(Writer, id))
    {
      WriterGapIsAsked(input.targets, input.answer.writerGaps, i, id);
      KeyIsKept(rs, plan.knowledge, RequestKey(Writer, id));
    }
    forall i, role, id | 0 <= i < |input.answer.characterGaps| &&
                         CharacterAsks(input.targets, input.answer.characterGaps[i], role, id)
      ensures HasKey(plan.knowledge, RequestKey(Character(role), id))
    {
      CharacterGapIsAsked(input.targets, input.answer.characterGaps, i, role, id);
      KeyIsKept(rs, plan.knowledge, RequestKey(Character(role), id));
    }
  }

  // ---------------------------------------------------------------- the characters looked up

  predicate RoleAsked(targets: map<string, Target>, gap: WriterGap, role: string) {
    gap.targetId in targets && targets[gap.targetId] == Role(role)
  }

  /** A gap of the writer's asks for this role, and the first that does gives the reason. */
  ghost predicate LookedUpForGap(input: Input, c: CharacterRequest, i: nat) {
    var gaps := input.answer.writerGaps;
    && i < |gaps| && RoleAsked(input.targets, gaps[i], c.role) && c.reason == gaps[i].reason && c.origin == Planner
    && forall j :: 0 <= j < i ==> !RoleAsked(input.targets, gaps[j], c.role)
  }

  /** No gap asks for this role, and its think request gives the reason. */
  ghost predicate LookedUpToThink(input: Input, plan: Plan, c: CharacterRequest) {
    && (forall j :: 0 <= j < |input.answer.writerGaps| ==>
          !RoleAsked(input.targets, input.answer.writerGaps[j], c.role))
    && Think(c.role, c.reason) in plan.thinks && c.origin == Automatic
  }

  lemma LookupHasReason(input: Input, plan: Plan, wanted: map<string, Cognition>, c: CharacterRequest)
    requires Wants(input.targets, input.answer.writerGaps, wanted) && LookedUpFor(wanted, plan.thinks, c)
    ensures (exists i: nat :: LookedUpForGap(input, c, i)) || LookedUpToThink(input, plan, c)
  {
    var gaps := input.answer.writerGaps;
    if c.role in wanted {
      assert WantedBy(input.targets, gaps, c.role, wanted[c.role]);
      var i: nat :| FirstAsks(input.targets, gaps, c.role, i) && wanted[c.role] == Cognition(gaps[i].reason, Planner);
      assert LookedUpForGap(input, c, i);
    }
  }

  /** Exactly the roles that a gap asks for or that think are looked up, in the order of their ids. */
  lemma CharactersAreWhatIsAsked(input: Input, plan: Plan)
    requires IsPlanOf(input, plan)
    ensures forall c :: c in plan.characters ==>
              (exists i: nat :: LookedUpForGap(input, c, i)) || LookedUpToThink(input, plan, c)
    ensures forall i, role | 0 <= i < |input.answer.writerGaps| ::
              RoleAsked(input.targets, input.answer.writerGaps[i], role) ==> role in CharacterRoles(plan.characters)
    ensures forall t :: t in plan.thinks ==> t.role in CharacterRoles(plan.characters)
    ensures forall i, j :: 0 <= i < j < |plan.characters| ==>
              plan.characters[i].role != plan.characters[j].role &&
              Lexicographic(plan.characters[i].role, plan.characters[j].role)
  {
    var wanted :| Wants(input.targets, input.answer.writerGaps, wanted) &&
                  AreLookups(wanted, plan.thinks, plan.characters);
    var list := CharacterRoles(plan.characters);
    A.CharactersAreListed(plan.characters, wanted.Keys + RolesOf(plan.thinks));
    forall c | c in plan.characters
      ensures (exists i: nat :: LookedUpForGap(input, c, i)) || LookedUpToThink(input, plan, c)
    {
      LookupHasReason(input, plan, wanted, c);
    }
    forall i, j | 0 <= i < j < |plan.characters|
      ensures Lexicographic(plan.characters[i].role, plan.characters[j].role)
    {
      assert TextLeq(list[i], list[j]);
      TextLeqIsLexicographic(list[i], list[j]);
    }
  }

  // ---------------------------------------------------------------- who thinks

  predicate SaysSomething(s: string) {
    exists i :: 0 <= i < |s| && !IsSpace(s[i])
  }

  /** The planner asked for this role, and may: an AI role of the snapshot other than the player's. */
  ghost predicate PlannedToThink(input: Input, t: Think) {
    && t in input.answer.thinks
    && t.role != input.snapshot.player && t.role in input.snapshot.roles
    && input.snapshot.roles[t.role].controller == Ai
    && SaysSomething(t.reason) && ByteLength(t.reason) <= input.config.maxReasonBytes
  }

  /** The planner did not ask for this role, and the first impulse for it gives its reason, or else its goal. */
  ghost predicate PromptedToThink(input: Input, t: Think, i: nat) {
    && i < |input.impulses| && input.impulses[i].role == t.role
    && (forall p :: p in input.answer.thinks ==> p.role != t.role)
    && (forall j :: 0 <= j < i ==> input.impulses[j].role != t.role)
    && t.role != input.baseline.player && (t.role in input.baseline.relevant || t.role in input.baseline.roleIndex)
    && ByteLength(t.reason) <= input.config.maxReasonBytes
    && (match input.impulses[i].reason
        case Some(reason) => t.reason == if SaysSomething(reason) then reason else input.impulses[i].goal
        case None => t.reason == input.impulses[i].goal)
  }

  ghost predicate Prompted(input: Input, t: Think) {
    exists i: nat :: PromptedToThink(input, t, i)
  }

  lemma AddedIsPrompted(input: Input, t: Think)
    requires AllAddable(input.config, input.baseline, RolesOf(input.answer.thinks), input.impulses, |input.impulses|)
    requires Asked(RolesOf(input.answer.thinks), input.impulses, t)
    ensures Prompted(input, t)
  {
    var taken := RolesOf(input.answer.thinks);
    var i: nat :| i < |input.impulses| && Fresh(taken, input.impulses, i) &&
      t == Think(input.impulses[i].role, ImpulseReason(input.impulses[i]));
    assert Addable(input.config, input.baseline, input.impulses[i]);
    forall p | p in input.answer.thinks ensures p.role in taken {
      var k :| 0 <= k < |input.answer.thinks| && input.answer.thinks[k] == p;
    }
    assert PromptedToThink(input, t, i);
  }

  lemma PlannedComeFirst(input: Input, merged: seq<Think>)
    requires ThinksFit(input) && IsMerge(input.answer.thinks, input.impulses, merged)
    ensures forall k | 0 <= k < |input.answer.thinks| ::
              merged[k] == input.answer.thinks[k] && PlannedToThink(input, merged[k])
  {
    forall k | 0 <= k < |input.answer.thinks|
      ensures merged[k] == input.answer.thinks[k] && PlannedToThink(input, merged[k])
    {
      var t := input.answer.thinks[k];
      assert merged[k] == merged[..|input.answer.thinks|][k];
      assert Convertible(input.config, t) && MayThink(input.snapshot, t.role);
    }
  }

  lemma NewcomerIsAsked(planned: seq<Think>, impulses: seq<Impulse>, merged: seq<Think>, k: nat)
    requires IsMerge(planned, impulses, merged) && |planned| <= k < |merged|
    ensures Asked(RolesOf(planned), impulses, merged[k])
  {
    assert merged[k] == merged[|planned|..][k - |planned|];
  }

  lemma NewcomersArePrompted(input: Input, merged: seq<Think>)
    requires AllAddable(input.config, input.baseline, RolesOf(input.answer.thinks), input.impulses, |input.impulses|)
    requires IsMerge(input.answer.thinks, input.impulses, merged)
    ensures forall k | |input.answer.thinks| <= k < |merged| :: Prompted(input, merged[k])
  {
    forall k | |input.answer.thinks| <= k < |merged| ensures Prompted(input, merged[k]) {
      NewcomerIsAsked(input.answer.thinks, input.impulses, merged, k);
      AddedIsPrompted(input, merged[k]);
    }
  }

  lemma ImpulsesThink(planned: seq<Think>, impulses: seq<Impulse>, merged: seq<Think>)
    requires DistinctRoles(planned) && IsMerge(planned, impulses, merged)
    ensures forall i | 0 <= i < |impulses| :: impulses[i].role in RolesOf(merged)
  {
    MergedRolesAreDistinct(planned, impulses, merged);
    forall i | 0 <= i < |impulses| ensures impulses[i].role in RolesOf(merged) {
      var role := impulses[i].role;
      assert role in RolesOf(planned) || role in AddedRoles(RolesOf(planned), impulses, |impulses|);
    }
  }

  lemma NewcomersAreInOrder(planned: seq<Think>, impulses: seq<Impulse>, merged: seq<Think>)
    requires IsMerge(planned, impulses, merged)
    ensures forall k, m | |planned| <= k < m < |merged| :: Lexicographic(merged[k].role, merged[m].role)
  {
    var n := |planned|;
    var list := RoleList(merged[n..]);
    forall k, m | n <= k < m < |merged| ensures Lexicographic(merged[k].role, merged[m].role) {
      assert TextLeq(list[k - n], list[m - n]);
      TextLeqIsLexicographic(list[k - n], list[m - n]);
    }
  }

  /**
   First the planner's requests as they are, each allowed; then, by role, one for every other role an impulse names,
   with the reason of the first such impulse.
   */
  lemma ThinksAreWhatIsAsked(input: Input, thinks: seq<Think>)
    requires ThinksFit(input) && IsMerge(input.answer.thinks, input.impulses, thinks)
    ensures |input.answer.thinks| <= |thinks| <= input.config.maxThinks
    ensures forall k | 0 <= k < |input.answer.thinks| ::
              thinks[k] == input.answer.thinks[k] && PlannedToThink(input, thinks[k])
    ensures forall k | |input.answer.thinks| <= k < |thinks| :: Prompted(input, thinks[k])
    ensures forall k, m | |input.answer.thinks| <= k < m < |thinks| ::
              Lexicographic(thinks[k].role, thinks[m].role)
    ensures forall i | 0 <= i < |input.impulses| :: input.impulses[i].role in RolesOf(thinks)
  {
    A.MergeLength(input.answer.thinks, input.impulses, thinks);
    PlannedComeFirst(input, thinks);
    NewcomersArePrompted(input, thinks);
    NewcomersAreInOrder(input.answer.thinks, input.impulses, thinks);
    ImpulsesThink(input.answer.thinks, input.impulses, thinks);
  }

  // ---------------------------------------------------------------- which answers are accepted

  ghost predicate GoodReason(config: Config, reason: string) {
    SaysSomething(reason) && ByteLength(reason) <= config.maxReasonBytes
  }

  predicate IsPlanned(input: Input, role: string) {
    exists i :: 0 <= i < |input.answer.thinks| && input.answer.thinks[i].role == role
  }

  predicate IsPrompted(input: Input, role: string) {
    exists i :: 0 <= i < |input.impulses| && input.impulses[i].role == role
  }

  /** Roles that impulses name and the planner does not. */
  function NewRoles(input: Input): set<string> {
    set i | 0 <= i < |input.impulses| && !IsPlanned(input, input.impulses[i].role) :: input.impulses[i].role
  }

  /** What the gaps ask for, for whom. */
  function AskedKeys(input: Input): set<RequestKey> {
    var targets, writer, character := input.targets, input.answer.writerGaps, input.answer.characterGaps;
    (set i | 0 <= i < |writer| && writer[i].targetId in targets && targets[writer[i].targetId].Knowledge? ::
       RequestKey(Writer, targets[writer[i].targetId].sourceId)) +
    (set i | 0 <= i < |character| && character[i].targetId in targets && targets[character[i].targetId].Knowledge? ::
       RequestKey(Character(character[i].role), targets[character[i].targetId].sourceId))
  }

  lemma {:induction false} WriterKeys(targets: map<string, Target>, gaps: seq<WriterGap>, r: Request)
    requires r in WriterRequests(targets, gaps)
    ensures exists i :: 0 <= i < |gaps| && WriterAsks(targets, gaps[i], r.target) && r.delivery == Writer
  {
    var n := |gaps| - 1;
    if r in WriterRequests(targets, gaps[..n]) {
      WriterKeys(targets, gaps[..n], r);
      var i :| 0 <= i < n && WriterAsks(targets, gaps[..n][i], r.target) && r.delivery == Writer;
      assert gaps[..n][i] == gaps[i];
    } else {
      assert WriterAsks(targets, gaps[n], r.target);
    }
  }

  lemma {:induction false} CharacterKeys(targets: map<string, Target>, gaps: seq<CharacterGap>, r: Request)
    requires r in CharacterRequests(targets, gaps)
    ensures r.delivery.Character?
    ensures exists i :: 0 <= i < |gaps| && CharacterAsks(targets, gaps[i], r.delivery.role, r.target)
  {
    var n := |gaps| - 1;
    if r in CharacterRequests(targets, gaps[..n]) {
      CharacterKeys(targets, gaps[..n], r);
      var i :| 0 <= i < n && CharacterAsks(targets, gaps[..n][i], r.delivery.role, r.target);
      assert gaps[..n][i] == gaps[i];
    } else {
      assert CharacterAsks(targets, gaps[n], r.delivery.role, r.target);
    }
  }

  lemma KeyIsAsked(input: Input, r: Request)
    requires r in AllRequests(input)
    ensures KeyOf(r) in AskedKeys(input)
  {
    if r in WriterRequests(input.targets, input.answer.writerGaps) {
      WriterKeys(input.targets, input.answer.writerGaps, r);
    } else {
      CharacterKeys(input.targets, input.answer.characterGaps, r);
    }
  }

  lemma AskedIsKey(input: Input, key: RequestKey)
    requires key in AskedKeys(input)
    ensures exists r :: r in AllRequests(input) && KeyOf(r) == key
  {
    var writer, character := input.answer.writerGaps, input.answer.characterGaps;
    if i :| 0 <= i < |writer| && WriterAsks(input.targets, writer[i], key.target) && key.delivery.Writer? {
      WriterGapIsAsked(input.targets, writer, i, key.target);
    } else {
      var i :| 0 <= i < |character| && key.delivery.Character? &&
               CharacterAsks(input.targets, character[i], key.delivery.role, key.target);
      CharacterGapIsAsked(input.targets, character, i, key.delivery.role, key.target);
    }
  }

  /** The keys of all requests are exactly those the gaps ask for. */
  lemma KeysAreAsked(input: Input)
    ensures KeysOf(AllRequests(input)) == AskedKeys(input)
  {
    var rs := AllRequests(input);
    forall key | key in KeysOf(rs) ensures key in AskedKeys(input) {
      var i :| 0 <= i < |rs| && KeyOf(rs[i]) == key;
      KeyIsAsked(input, rs[i]);
    }
    forall key | key in AskedKeys(input) ensures key in KeysOf(rs) {
      AskedIsKey(input, key);
    }
  }

  ghost predicate ThinkAllowed(input: Input, t: Think) {
    && IsRoleId(t.role) && GoodReason(input.config, t.reason)
    && t.role != input.snapshot.player && t.role in input.snapshot.roles
    && input.snapshot.roles[t.role].controller == Ai
  }

  ghost predicate AllThinkAllowed(input: Input) {
    && (forall i :: 0 <= i < |input.answer.thinks| ==> ThinkAllowed(input, input.answer.thinks[i]))
    && (forall i, j :: 0 <= i < j < |input.answer.thinks| ==>
          input.answer.thinks[i].role != input.answer.thinks[j].role)
  }

  ghost predicate ThinksAllowed(input: Input) {
    AllThinkAllowed(input) && |input.answer.thinks| + |NewRoles(input)| <= input.config.maxThinks
  }

  /** Of the impulses for new roles, the first of each role counts. */
  ghost predicate ImpulsesAllowed(input: Input) {
    forall i | 0 <= i < |input.impulses| ::
      var impulse := input.impulses[i];
      !IsPlanned(input, impulse.role) && (forall j | 0 <= j < i :: input.impulses[j].role != impulse.role) ==>
        && impulse.role != input.baseline.player
        && (impulse.role in input.baseline.relevant || impulse.role in input.baseline.roleIndex)
        && ByteLength(if impulse.reason.Some? && SaysSomething(impulse.reason.value) then impulse.reason.value
                      else impulse.goal) <= input.config.maxReasonBytes
  }

  ghost predicate WriterGapAllowed(input: Input, gap: WriterGap) {
    GoodReason(input.config, gap.reason) && gap.targetId in input.targets
  }

  /** Of rumors and memories, on behalf of a role that thinks. */
  ghost predicate CharacterGapAllowed(input: Input, gap: CharacterGap) {
    && GoodReason(input.config, gap.reason) && (IsPlanned(input, gap.role) || IsPrompted(input, gap.role))
    && exists id: SourceId :: CharacterAsks(input.targets, gap, gap.role, id) && id.kind != Fact
  }

  ghost predicate GapsAllowed(input: Input) {
    && |input.answer.writerGaps| + |input.answer.characterGaps| <= input.config.maxGaps
    && (forall i :: 0 <= i < |input.answer.writerGaps| ==> WriterGapAllowed(input, input.answer.writerGaps[i]))
    && (forall i :: 0 <= i < |input.answer.characterGaps| ==> CharacterGapAllowed(input, input.answer.characterGaps[i]))
    && |AskedKeys(input)| <= input.config.maxRequests
  }

  lemma GoodReasonIff(config: Config, reason: string)
    ensures ReasonFits(config, reason) <==> GoodReason(config, reason)
    ensures Blank(reason) <==> !SaysSomething(reason)
  {
  }

  lemma PlannedRoles(input: Input)
    ensures forall role :: role in RolesOf(input.answer.thinks) <==> IsPlanned(input, role)
    ensures Newcomers(input) == NewRoles(input)
    ensures forall role :: role in Thinkers(input) <==> IsPlanned(input, role) || IsPrompted(input, role)
  {
    forall role ensures role in Newcomers(input) <==> role in NewRoles(input) {
    }
  }

  ghost predicate PlannedFit(input: Input) {
    && (forall i :: 0 <= i < |input.answer.thinks| ==> Convertible(input.config, input.answer.thinks[i]))
    && DistinctRoles(input.answer.thinks)
    && (forall i :: 0 <= i < |input.answer.thinks| ==> MayThink(input.snapshot, input.answer.thinks[i].role))
  }

  lemma ThinkAllowedIff(input: Input, t: Think)
    ensures Convertible(input.config, t) && MayThink(input.snapshot, t.role) <==> ThinkAllowed(input, t)
  {
    GoodReasonIff(input.config, t.reason);
  }

  lemma AllThinkAllowedIff(input: Input)
    ensures PlannedFit(input) <==> AllThinkAllowed(input)
  {
    forall i | 0 <= i < |input.answer.thinks|
      ensures ThinkAllowed(input, input.answer.thinks[i]) <==>
        Convertible(input.config, input.answer.thinks[i]) && MayThink(input.snapshot, input.answer.thinks[i].role)
    {
      ThinkAllowedIff(input, input.answer.thinks[i]);
    }
  }

  lemma ThinksFitIff(input: Input)
    ensures ThinksFit(input) <==>
            && PlannedFit(input) && |input.answer.thinks| + |Newcomers(input)| <= input.config.maxThinks
            && AllAddable(input.config, input.baseline, RolesOf(input.answer.thinks), input.impulses, |input.impulses|)
  {
  }

  lemma ThinksAllowedIff(input: Input)
    ensures ThinksFit(input) <==> ThinksAllowed(input) && ImpulsesAllowed(input)
  {
    ThinksFitIff(input);
    PlannedRoles(input);
    ImpulsesAllowedIff(input);
    AllThinkAllowedIff(input);
  }

  lemma ImpulsesAllowedIff(input: Input)
    ensures ImpulsesAllowed(input) <==>
            AllAddable(input.config, input.baseline, RolesOf(input.answer.thinks), input.impulses, |input.impulses|)
  {
    PlannedRoles(input);
    forall i | 0 <= i < |input.impulses|
      ensures Fresh(RolesOf(input.answer.thinks), input.impulses, i) <==>
        !IsPlanned(input, input.impulses[i].role) &&
        (forall j | 0 <= j < i :: input.impulses[j].role != input.impulses[i].role)
    {
    }
  }

  lemma WriterGapsAllowedIff(input: Input)
    ensures WriterGapsFit(input.config, input.targets, input.answer.writerGaps) <==>
            forall i :: 0 <= i < |input.answer.writerGaps| ==> WriterGapAllowed(input, input.answer.writerGaps[i])
  {
    forall gap: WriterGap ensures WriterGapFits(input.config, input.targets, gap) <==> WriterGapAllowed(input, gap) {
      GoodReasonIff(input.config, gap.reason);
    }
  }

  lemma CharacterGapsAllowedIff(input: Input)
    ensures CharacterGapsFit(input.config, input.targets, Thinkers(input), input.answer.characterGaps) <==>
            forall i :: 0 <= i < |input.answer.characterGaps| ==>
              CharacterGapAllowed(input, input.answer.characterGaps[i])
  {
    forall gap: CharacterGap
      ensures CharacterGapFits(input.config, input.targets, Thinkers(input), gap) <==> CharacterGapAllowed(input, gap)
    {
      CharacterGapAllowedIff(input, gap);
    }
  }

  lemma CharacterGapAllowedIff(input: Input, gap: CharacterGap)
    ensures CharacterGapFits(input.config, input.targets, Thinkers(input), gap) <==> CharacterGapAllowed(input, gap)
  {
    GoodReasonIff(input.config, gap.reason);
    PlannedRoles(input);
    if gap.targetId in input.targets && input.targets[gap.targetId].Knowledge? {
      assert CharacterAsks(input.targets, gap, gap.role, input.targets[gap.targetId].sourceId);
    }
  }

  lemma GapsAllowedIff(input: Input)
    ensures GapsFit(input) <==> GapsAllowed(input)
  {
    KeysAreAsked(input);
    WriterGapsAllowedIff(input);
    CharacterGapsAllowedIff(input);
  }

  /** Which answers become a plan: the builder's conditions, told from the answer and the impulses alone. */
  lemma AnswerIsAcceptedIff(input: Input)
    ensures ThinksFit(input) && GapsFit(input) && GoalFits(input) <==>
            && ThinksAllowed(input) && ImpulsesAllowed(input) && GapsAllowed(input)
            && SaysSomething(input.answer.goal) && ByteLength(input.answer.goal) <= input.config.maxGoalBytes
  {
    ThinksAllowedIff(input);
    GapsAllowedIff(input);
    GoodReasonIff(input.config, input.answer.goal);
  }

  // ---------------------------------------------------------------- the seeds

  /** How many of the first `n` requests become seeds. */
  function SeedsBefore(rs: seq<Request>, n: nat): nat
    requires n <= |rs|
  {
    |SeedPositions(rs, n)|
  }

  function SeedPositions(rs: seq<Request>, n: nat): set<nat>
    requires n <= |rs|
  {
    set i: nat | i < n && !rs[i].target.kind.Memory? :: i
  }

  lemma SeedsCountNext(rs: seq<Request>, n: nat)
    requires n < |rs|
    ensures SeedsBefore(rs, n + 1) == SeedsBefore(rs, n) + (if rs[n].target.kind.Memory? then 0 else 1)
  {
    var a, b := SeedPositions(rs, n), SeedPositions(rs, n + 1);
    assert b == if rs[n].target.kind.Memory? then a else a + {n};
  }

  lemma SeedsCountInPrefix(rs: seq<Request>, m: nat, n: nat)
    requires n <= m <= |rs|
    ensures SeedsBefore(rs[..m], n) == SeedsBefore(rs, n)
  {
    assert SeedPositions(rs[..m], n) == SeedPositions(rs, n);
  }

  /** Every request but one for a memory is one seed, with its target, delivery and urgency, in request order. */
  lemma {:induction false} SeedsAreTheRequests(rs: seq<Request>, i: nat)
    requires i < |rs| && !rs[i].target.kind.Memory?
    ensures |SeedsOf(rs)| == SeedsBefore(rs, |rs|) && SeedsBefore(rs, i) < |SeedsOf(rs)|
    ensures SeedsOf(rs)[SeedsBefore(rs, i)] == Seed(rs[i].target, rs[i].delivery, rs[i].mandatory)
  {
    SeedCount(rs);
    var n := |rs| - 1;
    SeedsCountNext(rs, n);
    SeedsCountInPrefix(rs, n, n);
    SeedCount(rs[..n]);
    if i < n {
      SeedsAreTheRequests(rs[..n], i);
      SeedsCountInPrefix(rs, n, i);
    }
  }

  lemma {:induction false} SeedCount(rs: seq<Request>)
    ensures |SeedsOf(rs)| == SeedsBefore(rs, |rs|)
  {
    if rs != [] {
      var n := |rs| - 1;
      SeedCount(rs[..n]);
      SeedsCountNext(rs, n);
      SeedsCountInPrefix(rs, n, n);
    } else {
      assert SeedPositions(rs, 0) == {};
    }
  }
}
