/** The baseline a plan is built against, and the retrieval stage that routes the plan's requests. */
module RetrievalRoutes {
  import opened Widths
  import opened Wrappers
  import opened KnowledgeIds
  import opened Ordering
  import opened KnowledgeRequests
  import opened Thinking
  import opened RetrievalPlans

  // ---------------------------------------------------------------- the baseline's roles

  /** The player's role, the relevant roles and the indexed roles split the snapshot's roles. */
  ghost predicate SplitsRoles(snapshot: Snapshot, baseline: Baseline) {
    && baseline.player == snapshot.player
    && (forall role :: KnownRole(baseline, role) <==> role in snapshot.roles)
    && (forall role :: role in baseline.roleIndex ==> role !in baseline.relevant)
    && baseline.player !in baseline.relevant && baseline.player !in baseline.roleIndex
  }

  function Nearby(snapshot: Snapshot): set<string> {
    if snapshot.player !in snapshot.roles then {}
    else set role | role in snapshot.roles && role != snapshot.player &&
                    snapshot.roles[role].location == snapshot.roles[snapshot.player].location
  }

  lemma BeyondPrefix(texts: seq<string>, n: nat, text: string) returns (k: nat)
    requires n <= |texts| && text in texts && text !in texts[..n]
    ensures n <= k < |texts| && texts[k] == text
  {
    assert texts == texts[..n] + texts[n..];
    var j: nat :| j < |texts[n..]| && texts[n..][j] == text;
    k := n + j;
  }

  function Items(texts: seq<string>): set<string> {
    set i | 0 <= i < |texts| :: texts[i]
  }

  lemma {:induction false} CountDistinct(texts: seq<string>)
    requires forall i, j :: 0 <= i < j < |texts| ==> texts[i] != texts[j]
    ensures |Items(texts)| == |texts|
  {
    if texts != [] {
      var n := |texts| - 1;
      CountDistinct(texts[..n]);
      assert Items(texts) == Items(texts[..n]) + {texts[n]} by {
        assert forall i :: 0 <= i < n ==> texts[..n][i] == texts[i];
      }
    }
  }

  function Min(a: nat, b: nat): nat {
    if a < b then a else b
  }

  /** `relevant` is the first few of the nearby roles, by id. */
  ghost predicate FirstNearby(snapshot: Snapshot, maxRelevant: nat, relevant: seq<string>) {
    && |relevant| == |Items(relevant)| == Min(|Nearby(snapshot)|, maxRelevant)
    && Items(relevant) <= Nearby(snapshot) && Sorted(relevant, TextLeq)
    && forall role, i :: 0 <= i < |relevant| && role in Nearby(snapshot) && role !in relevant ==>
       TextLeq(relevant[i], role)
  }

  lemma PrefixIsFirst(near: seq<string>, nearby: set<string>, n: nat, role: string, i: nat)
    requires Lists(near, nearby, TextLeq) && i < n <= |near| && role in nearby && role !in near[..n]
    ensures TextLeq(near[..n][i], role)
  {
    ListsExactly(near, nearby);
    var k := BeyondPrefix(near, n, role);
  }

  lemma PrefixIsDistinct(near: seq<string>, nearby: set<string>, n: nat)
    requires Lists(near, nearby, TextLeq) && n <= |near|
    ensures |Items(near[..n])| == n && Items(near[..n]) <= nearby
  {
    ListsExactly(near, nearby);
    forall i, j | 0 <= i < j < n ensures near[..n][i] != near[..n][j] {
      ListsOnce(near, nearby, i, j);
    }
    CountDistinct(near[..n]);
    assert forall i :: 0 <= i < n ==> near[..n][i] in near;
  }

  /** The first few roles, by id, at the player's place. */
  method SelectRelevantRoles(snapshot: Snapshot, maxRelevant: nat) returns (relevant: seq<string>)
    ensures FirstNearby(snapshot, maxRelevant, relevant)
  {
    var near := Ascending(Nearby(snapshot));
    var n := Min(|near|, maxRelevant);
    relevant := near[..n];
    PrefixIsDistinct(near, Nearby(snapshot), n);
    forall role, i | 0 <= i < |relevant| && role in Nearby(snapshot) && role !in relevant
      ensures TextLeq(relevant[i], role)
    {
      PrefixIsFirst(near, Nearby(snapshot), n, role, i);
    }
  }

  /** Another role than the player's, at the player's place. */
  predicate SharesPlace(snapshot: Snapshot, role: string) {
    && snapshot.player in snapshot.roles && role in snapshot.roles && role != snapshot.player
    && snapshot.roles[role].location == snapshot.roles[snapshot.player].location
  }

  /** The relevant roles share the player's place, by id; one that does is missing only if those before it fill up. */
  lemma RelevantRolesSharePlace(snapshot: Snapshot, maxRelevant: nat, relevant: seq<string>)
    requires FirstNearby(snapshot, maxRelevant, relevant)
    ensures |relevant| <= maxRelevant
    ensures forall i :: 0 <= i < |relevant| ==> SharesPlace(snapshot, relevant[i])
    ensures forall i, j :: 0 <= i < j < |relevant| ==> Lexicographic(relevant[i], relevant[j])
    ensures forall role :: SharesPlace(snapshot, role) && role !in relevant ==>
              |relevant| == maxRelevant && forall i :: 0 <= i < |relevant| ==> Lexicographic(relevant[i], role)
  {
    forall i | 0 <= i < |relevant| ensures SharesPlace(snapshot, relevant[i]) {
      assert relevant[i] in Items(relevant);
    }
    forall i, j | 0 <= i < j < |relevant| ensures Lexicographic(relevant[i], relevant[j]) {
      TextLeqIsLexicographic(relevant[i], relevant[j]);
    }
    forall role | SharesPlace(snapshot, role) && role !in relevant
      ensures |relevant| == maxRelevant && forall i :: 0 <= i < |relevant| ==> Lexicographic(relevant[i], role)
    {
      MissingMeansFull(snapshot, maxRelevant, relevant, role);
      forall i | 0 <= i < |relevant| ensures Lexicographic(relevant[i], role) {
        TextLeqIsLexicographic(relevant[i], role);
      }
    }
  }

  lemma MissingMeansFull(snapshot: Snapshot, maxRelevant: nat, relevant: seq<string>, role: string)
    requires FirstNearby(snapshot, maxRelevant, relevant) && role in Nearby(snapshot) && role !in relevant
    ensures |relevant| == maxRelevant
  {
    var others := Nearby(snapshot) - Items(relevant);
    assert role in others && Nearby(snapshot) == Items(relevant) + others;
    assert |Nearby(snapshot)| == |Items(relevant)| + |others|;
  }

  /** How many roles are left for the index. */
  function IndexSize(snapshot: Snapshot, maxRelevant: nat): int {
    |snapshot.roles| - 1 - Min(|Nearby(snapshot)|, maxRelevant)
  }

  lemma IndexedRoles(snapshot: Snapshot, maxRelevant: nat, relevant: seq<string>)
    requires snapshot.player in snapshot.roles && FirstNearby(snapshot, maxRelevant, relevant)
    ensures |snapshot.roles.Keys - ({snapshot.player} + Items(relevant))| == IndexSize(snapshot, maxRelevant)
  {
    var selected := {snapshot.player} + Items(relevant);
    assert snapshot.player !in Items(relevant) && selected <= snapshot.roles.Keys;
    assert |selected| == 1 + |Items(relevant)|;
    assert snapshot.roles.Keys == (snapshot.roles.Keys - selected) + selected;
    assert |snapshot.roles.Keys| == |snapshot.roles|;
  }

  /** The roles part of the baseline builder; exactly an over-long index fails. */
  method BaselineRoles(snapshot: Snapshot, maxRelevant: nat, maxIndex: nat) returns (r: Result<Baseline, nat>)
    requires snapshot.player in snapshot.roles
    ensures r.Ok? <==> IndexSize(snapshot, maxRelevant) <= maxIndex
    ensures r.Ok? ==> SplitsRoles(snapshot, r.value) && FirstNearby(snapshot, maxRelevant, r.value.relevant)
    ensures r.Ok? ==> Sorted(r.value.roleIndex, TextLeq)
    ensures r.Err? ==> r.error == IndexSize(snapshot, maxRelevant)
  {
    var relevant := SelectRelevantRoles(snapshot, maxRelevant);
    var selected := {snapshot.player} + Items(relevant);
    IndexedRoles(snapshot, maxRelevant, relevant);
    var roleIndex := Ascending(snapshot.roles.Keys - selected);
    ListsExactly(roleIndex, snapshot.roles.Keys - selected);
    if |roleIndex| > maxIndex { return Err(|roleIndex|); }
    RolesSplit(snapshot, relevant, roleIndex);
    r := Ok(Baseline(snapshot.player, relevant, roleIndex));
  }

  lemma RolesSplit(snapshot: Snapshot, relevant: seq<string>, roleIndex: seq<string>)
    requires snapshot.player in snapshot.roles && Items(relevant) <= Nearby(snapshot)
    requires forall role :: role in roleIndex <==> role in snapshot.roles.Keys - ({snapshot.player} + Items(relevant))
    ensures SplitsRoles(snapshot, Baseline(snapshot.player, relevant, roleIndex))
  {
    forall role ensures role in relevant <==> role in Items(relevant) {
    }
  }

  // ---------------------------------------------------------------- routing

  datatype RouteError = UnknownCharacterRequestRole | AudienceViolation | ExternalTargetUnauthorized | TooManyCandidates

  datatype Seed = Seed(target: SourceId, delivery: Delivery, mandatory: bool)

  datatype Routes = Routes(views: map<string, RoleView>, seeds: seq<Seed>, memories: map<string, seq<SourceId>>)

  /** Metadata of the activation index: the kind of every indexed entry. */
  type Metadata = map<SourceId, Kind>

  predicate Authorized(index: Metadata, r: Request) {
    && r.target in index
    && (if r.delivery.Writer? then index[r.target] != Memory else index[r.target] == Rumor)
  }

  /** Memories go to characters only, and facts to the writer only. */
  predicate AudienceRespected(r: Request) {
    (r.target.kind.Memory? ==> r.delivery.Character?) && (r.target.kind.Fact? ==> r.delivery.Writer?)
  }

  predicate Routable(index: Metadata, r: Request) {
    AudienceRespected(r) && (r.target.kind.Memory? || Authorized(index, r))
  }

  /** Who may be told what: facts the writer only, memories characters only, rumors both; a seed must be indexed. */
  predicate Tellable(index: Metadata, r: Request) {
    match r.target.kind
    case Memory => r.delivery.Character?
    case Fact => r.delivery.Writer? && r.target in index && index[r.target] in {Fact, Rumor}
    case Rumor =>
      r.target in index && (index[r.target] == Rumor || (r.delivery.Writer? && index[r.target] == Fact))
  }

  function SeedsOf(rs: seq<Request>): seq<Seed> {
    if rs == [] then []
    else
      var r := rs[|rs| - 1];
      SeedsOf(rs[..|rs| - 1]) + SeedOf(r)
  }

  /** Every request but one for a memory becomes a seed. */
  function SeedOf(r: Request): seq<Seed> {
    if r.target.kind.Memory? then [] else [Seed(r.target, r.delivery, r.mandatory)]
  }

  /** The memories a character is to recall, in request order. */
  function MemoriesFor(rs: seq<Request>, role: string): seq<SourceId> {
    if rs == [] then []
    else
      var r := rs[|rs| - 1];
      MemoriesFor(rs[..|rs| - 1], role) +
      if r.target.kind.Memory? && r.delivery == Character(role) then [r.target] else []
  }

  ghost predicate GroupsMemories(rs: seq<Request>, memories: map<string, seq<SourceId>>) {
    forall role ::
      && (role in memories <==> MemoriesFor(rs, role) != [])
      && (role in memories ==> memories[role] == MemoriesFor(rs, role))
  }

  function Recall(memories: map<string, seq<SourceId>>, r: Request): map<string, seq<SourceId>> {
    if r.target.kind.Memory? && r.delivery.Character? then
      var role := r.delivery.role;
      memories[role := (if role in memories then memories[role] else []) + [r.target]]
    else memories
  }

  function Grouped(rs: seq<Request>): map<string, seq<SourceId>> {
    if rs == [] then map[] else Recall(Grouped(rs[..|rs| - 1]), rs[|rs| - 1])
  }

  /** Every character's memories, and no others, are grouped under its role. */
  lemma {:induction false} GroupedIsByRole(rs: seq<Request>)
    ensures GroupsMemories(rs, Grouped(rs))
  {
    if rs != [] {
      GroupedIsByRole(rs[..|rs| - 1]);
    }
  }

  lemma RouteNext(rs: seq<Request>, n: nat)
    requires n < |rs|
    ensures Grouped(rs[..n + 1]) == Recall(Grouped(rs[..n]), rs[n])
    ensures SeedsOf(rs[..n + 1]) == SeedsOf(rs[..n]) + SeedOf(rs[n])
  {
    assert rs[..n + 1][..n] == rs[..n];
  }

  method ViewRoles(characters: seq<CharacterRequest>, snapshot: Snapshot)
    returns (r: Result<map<string, RoleView>, RouteError>)
    ensures r.Ok? <==> forall i :: 0 <= i < |characters| ==> characters[i].role in snapshot.roles
    ensures r.Ok? ==> forall role :: role in r.value <==> role in CharacterRoles(characters)
    ensures r.Ok? ==> forall role :: role in r.value ==> role in snapshot.roles && r.value[role] == snapshot.roles[role]
    ensures r.Err? ==> r.error == UnknownCharacterRequestRole
  {
    var views: map<string, RoleView> := map[];
    for i := 0 to |characters|
      invariant forall k :: 0 <= k < i ==> characters[k].role in snapshot.roles && characters[k].role in views
      invariant forall role :: role in views ==> role in CharacterRoles(characters)
      invariant forall role :: role in views ==> role in snapshot.roles && views[role] == snapshot.roles[role]
    {
      var role := characters[i].role;
      assert CharacterRoles(characters)[i] == role;
      if role !in snapshot.roles { return Err(UnknownCharacterRequestRole); }
      views := views[role := snapshot.roles[role]];
    }
    r := Ok(views);
  }

  /** One turn of the routing loop. */
  method RouteRequest(request: Request, index: Metadata, memories: map<string, seq<SourceId>>, seeds: seq<Seed>)
    returns (r: Result<(map<string, seq<SourceId>>, seq<Seed>), RouteError>)
    ensures r.Ok? <==> Routable(index, request)
    ensures r.Ok? <==> Tellable(index, request)
    ensures r.Ok? ==> r.value.0 == Recall(memories, request)
    ensures r.Ok? ==> r.value.1 == seeds + SeedOf(request)
    ensures r.Err? ==> r.error == if AudienceRespected(request) then ExternalTargetUnauthorized else AudienceViolation
  {
    match request.target.kind {
      case Memory =>
        match request.delivery {
          case Writer => r := Err(AudienceViolation);
          case Character(role) =>
            var recalled := if role in memories then memories[role] else [];
            r := Ok((memories[role := recalled + [request.target]], seeds));
        }
      case _ =>
        if request.delivery.Character? && request.target.kind.Fact? { return Err(AudienceViolation); }
        if !Authorized(index, request) { return Err(ExternalTargetUnauthorized); }
        r := Ok((memories, seeds + [Seed(request.target, request.delivery, request.mandatory)]));
    }
  }

  /** Routes every request to the activation seeds or to a character's memories, or says which rule it breaks. */
  method RouteKnowledge(requests: seq<Request>, index: Metadata)
    returns (r: Result<(seq<Seed>, map<string, seq<SourceId>>), RouteError>)
    ensures r.Ok? <==> forall i :: 0 <= i < |requests| ==> Routable(index, requests[i])
    ensures r.Ok? ==> r.value.0 == SeedsOf(requests) && r.value.1 == Grouped(requests)
    ensures r.Err? ==> r.error == AudienceViolation || r.error == ExternalTargetUnauthorized
    ensures r == Err(AudienceViolation) ==> exists i :: 0 <= i < |requests| && !AudienceRespected(requests[i])
    ensures r == Err(ExternalTargetUnauthorized) ==> exists i :: 0 <= i < |requests| && !Authorized(index, requests[i])
  {
    var seeds: seq<Seed>, memories: map<string, seq<SourceId>> := [], map[];
    for i := 0 to |requests|
      invariant forall k :: 0 <= k < i ==> Routable(index, requests[k])
      invariant seeds == SeedsOf(requests[..i]) && memories == Grouped(requests[..i])
    {
      RouteNext(requests, i);
      var next :- RouteRequest(requests[i], index, memories, seeds);
      memories, seeds := next.0, next.1;
    }
    assert requests[..|requests|] == requests;
    r := Ok((seeds, memories));
  }

  method Route(plan: Plan, snapshot: Snapshot, index: Metadata, maxCandidates: nat)
    returns (r: Result<Routes, RouteError>)
    ensures r.Ok? <==>
            RolesAreKnown(plan, snapshot) && AllRoutable(plan, index) && |SeedsOf(plan.knowledge)| <= maxCandidates
    ensures r.Ok? ==> r.value.seeds == SeedsOf(plan.knowledge) && r.value.memories == Grouped(plan.knowledge)
    ensures r.Ok? ==> forall role :: role in r.value.views <==> role in CharacterRoles(plan.characters)
    ensures RolesAreKnown(plan, snapshot) && AllRoutable(plan, index) && r.Err? ==> r.error == TooManyCandidates
  {
    var views :- ViewRoles(plan.characters, snapshot);
    var routed :- RouteKnowledge(plan.knowledge, index);
    if |routed.0| > maxCandidates { return Err(TooManyCandidates); }
    r := Ok(Routes(views, routed.0, routed.1));
  }

  ghost predicate RolesAreKnown(plan: Plan, snapshot: Snapshot) {
    forall i :: 0 <= i < |plan.characters| ==> plan.characters[i].role in snapshot.roles
  }

  ghost predicate AllRoutable(plan: Plan, index: Metadata) {
    forall i :: 0 <= i < |plan.knowledge| ==> Routable(index, plan.knowledge[i])
  }

  // ---------------------------------------------------------------- the token budget

  datatype Item = Item(source: SourceId, tokenCost: nat)

  function Cost(items: seq<Item>): nat {
    if items == [] then 0 else Cost(items[..|items| - 1]) + items[|items| - 1].tokenCost
  }

  /** The cost as 64-bit saturating addition sees it. */
  function SaturatedCost(items: seq<Item>): nat {
    if Cost(items) <= U64_MAX then Cost(items) else U64_MAX
  }

  lemma {:induction false} CostGrows(items: seq<Item>, k: nat)
    requires k <= |items|
    ensures Cost(items[..k]) <= Cost(items)
  {
    if k < |items| {
      CostGrows(items[..|items| - 1], k);
      assert items[..|items| - 1][..k] == items[..k];
    } else {
      assert items[..k] == items;
    }
  }

  /** Keeps the longest prefix within the budget. */
  method TrimTokens(items: seq<Item>, maxTokens: nat) returns (kept: seq<Item>)
    requires maxTokens <= U64_MAX && forall i :: 0 <= i < |items| ==> items[i].tokenCost <= U64_MAX
    ensures kept <= items
    ensures forall k :: 0 <= k <= |items| ==> (SaturatedCost(items[..k]) <= maxTokens <==> k <= |kept|)
  {
    var total, keep := 0, 0;
    while keep < |items|
      invariant keep <= |items| && total == SaturatedCost(items[..keep]) <= maxTokens
    {
      var next := if total + items[keep].tokenCost > U64_MAX then U64_MAX else total + items[keep].tokenCost;
      assert items[..keep + 1][..keep] == items[..keep];
      if next > maxTokens { break; }
      total, keep := next, keep + 1;
    }
    kept := items[..keep];
    forall k | 0 <= k <= |items| ensures SaturatedCost(items[..k]) <= maxTokens <==> k <= keep {
      if k <= keep {
        assert items[..keep][..k] == items[..k];
        CostGrows(items[..keep], k);
      } else {
        assert items[..k][..keep + 1] == items[..keep + 1];
        CostGrows(items[..k], keep + 1);
      }
    }
  }
}
