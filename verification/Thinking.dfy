/** Which characters a turn lets think: the planner's requests, checked, and the narrative's impulses merged in. */
module Thinking {
  import opened Wrappers
  import opened Ordering
  import opened RoleIds

  datatype PlanError =
    | LimitExceeded(limit: string)
    | InvalidOutput(code: string)
    | UnknownRole
    | PlayerRoleRequested
    | DuplicateRoleTarget
    | UnknownRetrievalKey
    | KnowledgeAudienceViolation

  datatype Config = Config(maxGaps: nat, maxThinks: nat, maxGoalBytes: nat, maxReasonBytes: nat, maxRequests: nat)

  datatype Controller = Ai | Player(playerId: string)

  datatype RoleView = RoleView(controller: Controller, location: string)

  datatype Snapshot = Snapshot(player: string, roles: map<string, RoleView>)

  /** What the planner sees: the player's role, the roles shown in full, and the roles only indexed. */
  datatype Baseline = Baseline(player: string, relevant: seq<string>, roleIndex: seq<string>)

  datatype Think = Think(role: string, reason: string)

  datatype Impulse = Impulse(role: string, goal: string, reason: Option<string>)

  // ---------------------------------------------------------------- texts

  /** UTF-8 length. */
  function ByteLength(s: string): nat {
    if s == "" then 0
    else
      var c := s[0] as int;
      (if c < 0x80 then 1 else if c < 0x800 then 2 else if c < 0x10000 then 3 else 4) + ByteLength(s[1..])
  }

  predicate IsSpace(c: char) {
    var n := c as int;
    || 0x09 <= n <= 0x0D || n == 0x20 || n == 0x85 || n == 0xA0 || n == 0x1680 || 0x2000 <= n <= 0x200A
    || n == 0x2028 || n == 0x2029 || n == 0x202F || n == 0x205F || n == 0x3000
  }

  predicate Blank(s: string) {
    forall i :: 0 <= i < |s| ==> IsSpace(s[i])
  }

  predicate ReasonFits(config: Config, reason: string) {
    !Blank(reason) && ByteLength(reason) <= config.maxReasonBytes
  }

  /** The reason itself, or why it is refused. */
  function CheckReason(config: Config, reason: string, code: string): (r: Result<string, PlanError>)
    ensures r.Ok? <==> ReasonFits(config, reason)
    ensures r.Ok? ==> r.value == reason
  {
    if Blank(reason) then Err(InvalidOutput(code))
    else if ByteLength(reason) > config.maxReasonBytes then Err(LimitExceeded("max_reason_bytes"))
    else Ok(reason)
  }

  // ---------------------------------------------------------------- the planner's requests

  function RolesOf(thinks: seq<Think>): set<string> {
    set i | 0 <= i < |thinks| :: thinks[i].role
  }

  ghost predicate DistinctRoles(thinks: seq<Think>) {
    forall i, j :: 0 <= i < j < |thinks| ==> thinks[i].role != thinks[j].role
  }

  ghost predicate Convertible(config: Config, t: Think) {
    IsRoleId(t.role) && ReasonFits(config, t.reason)
  }

  method ConvertThinks(config: Config, dtos: seq<Think>) returns (r: Result<seq<Think>, PlanError>)
    ensures r.Ok? <==> forall i :: 0 <= i < |dtos| ==> Convertible(config, dtos[i])
    ensures r.Ok? ==> r.value == dtos
  {
    var out := [];
    for i := 0 to |dtos|
      invariant out == dtos[..i] && forall k :: 0 <= k < i ==> Convertible(config, dtos[k])
    {
      var role := TryRoleId(dtos[i].role);
      if role.Err? { return Err(UnknownRole); }
      var reason := CheckReason(config, dtos[i].reason, "character_think_reason_empty");
      if reason.Err? { return Err(reason.error); }
      out := out + [Think(role.value, reason.value)];
    }
    r := Ok(out);
  }

  /** An AI-controlled role of the snapshot other than the player's. */
  predicate MayThink(snapshot: Snapshot, role: string) {
    role != snapshot.player && role in snapshot.roles && snapshot.roles[role].controller.Ai?
  }

  method ValidateThinks(requests: seq<Think>, snapshot: Snapshot) returns (r: Result<seq<Think>, PlanError>)
    ensures r.Ok? <==>
            DistinctRoles(requests) && forall i :: 0 <= i < |requests| ==> MayThink(snapshot, requests[i].role)
    ensures r.Ok? ==> r.value == requests
  {
    var out, seen := [], {};
    for i := 0 to |requests|
      invariant out == requests[..i] && seen == RolesOf(requests[..i])
      invariant DistinctRoles(requests[..i]) && forall k :: 0 <= k < i ==> MayThink(snapshot, requests[k].role)
    {
      var request := requests[i];
      if request.role == snapshot.player { return Err(PlayerRoleRequested); }
      if request.role !in snapshot.roles { return Err(UnknownRole); }
      if !snapshot.roles[request.role].controller.Ai? { return Err(UnknownRole); }
      if request.role in seen {
        var k :| 0 <= k < i && requests[..i][k].role == request.role;
        assert requests[k].role == requests[i].role;
        return Err(DuplicateRoleTarget);
      }
      NextRole(requests, i);
      out, seen := out + [request], seen + {request.role};
    }
    assert requests[..|requests|] == requests;
    r := Ok(out);
  }

  lemma NextRole(thinks: seq<Think>, i: nat)
    requires i < |thinks| && thinks[i].role !in RolesOf(thinks[..i]) && DistinctRoles(thinks[..i])
    ensures DistinctRoles(thinks[..i + 1])
    ensures RolesOf(thinks[..i + 1]) == RolesOf(thinks[..i]) + {thinks[i].role}
  {
    var a, one := thinks[..i], [thinks[i]];
    assert thinks[..i + 1] == a + one;
    assert one[0].role in RolesOf(one) && RolesOf(one) == {thinks[i].role};
    RolesOfBoth(a, one);
    DistinctBoth(a, one);
  }

  // ---------------------------------------------------------------- the narrative's impulses

  predicate KnownRole(baseline: Baseline, role: string) {
    role == baseline.player || role in baseline.relevant || role in baseline.roleIndex
  }

  function ImpulseReason(impulse: Impulse): string {
    if impulse.reason.Some? && !Blank(impulse.reason.value) then impulse.reason.value else impulse.goal
  }

  /** Impulse `i` is the first for its role, and the planner did not ask for that role. */
  ghost predicate Fresh(taken: set<string>, impulses: seq<Impulse>, i: nat)
    requires i < |impulses|
  {
    impulses[i].role !in taken && forall j :: 0 <= j < i ==> impulses[j].role != impulses[i].role
  }

  predicate Addable(config: Config, baseline: Baseline, impulse: Impulse) {
    && impulse.role != baseline.player
    && KnownRole(baseline, impulse.role)
    && ByteLength(ImpulseReason(impulse)) <= config.maxReasonBytes
  }

  ghost predicate AllAddable(config: Config, baseline: Baseline, taken: set<string>, impulses: seq<Impulse>, n: nat)
    requires n <= |impulses|
  {
    forall i :: 0 <= i < n && Fresh(taken, impulses, i) ==> Addable(config, baseline, impulses[i])
  }

  /** The roles added by the first `n` impulses. */
  function AddedRoles(taken: set<string>, impulses: seq<Impulse>, n: nat): set<string>
    requires n <= |impulses|
  {
    (set i | 0 <= i < n :: impulses[i].role) - taken
  }

  /** `t` is what a fresh impulse asks for. */
  ghost predicate Asked(taken: set<string>, impulses: seq<Impulse>, t: Think) {
    exists i: nat :: i < |impulses| && Fresh(taken, impulses, i) &&
      t == Think(impulses[i].role, ImpulseReason(impulses[i]))
  }

  function RoleList(thinks: seq<Think>): seq<string> {
    seq(|thinks|, i requires 0 <= i < |thinks| => thinks[i].role)
  }

  /** One request per added role, by role, with the reason of its first impulse. */
  ghost predicate IsAdded(taken: set<string>, impulses: seq<Impulse>, added: seq<Think>) {
    && Lists(RoleList(added), AddedRoles(taken, impulses, |impulses|), TextLeq)
    && forall k :: 0 <= k < |added| ==> Asked(taken, impulses, added[k])
  }

  /** The planner's requests, then the added ones. */
  ghost predicate IsMerge(planned: seq<Think>, impulses: seq<Impulse>, merged: seq<Think>) {
    && |planned| <= |merged| && merged[..|planned|] == planned
    && IsAdded(RolesOf(planned), impulses, merged[|planned|..])
  }

  ghost predicate Collects(taken: set<string>, impulses: seq<Impulse>, n: nat, additions: map<string, string>)
    requires n <= |impulses|
  {
    && additions.Keys == AddedRoles(taken, impulses, n)
    && forall role :: role in additions ==> Asked(taken, impulses, Think(role, additions[role]))
  }

  lemma CollectNext(taken: set<string>, impulses: seq<Impulse>, n: nat, additions: map<string, string>)
    requires n < |impulses| && Collects(taken, impulses, n, additions)
    ensures Fresh(taken, impulses, n) <==> impulses[n].role !in taken && impulses[n].role !in additions
    ensures Collects(taken, impulses, n + 1, Collect(taken, impulses[n], additions))
  {
    AddedNext(taken, impulses, n);
    FreshIsNotAdded(taken, impulses, n);
    if impulses[n].role !in taken && impulses[n].role !in additions {
      assert Asked(taken, impulses, Think(impulses[n].role, ImpulseReason(impulses[n])));
    }
  }

  function Collect(taken: set<string>, impulse: Impulse, additions: map<string, string>): map<string, string> {
    if impulse.role in taken || impulse.role in additions then additions
    else additions[impulse.role := ImpulseReason(impulse)]
  }

  lemma AddedNext(taken: set<string>, impulses: seq<Impulse>, n: nat)
    requires n < |impulses|
    ensures AddedRoles(taken, impulses, n + 1) == AddedRoles(taken, impulses, n) + ({impulses[n].role} - taken)
  {
  }

  lemma FreshIsNotAdded(taken: set<string>, impulses: seq<Impulse>, n: nat)
    requires n < |impulses|
    ensures Fresh(taken, impulses, n) <==>
            impulses[n].role !in taken && impulses[n].role !in AddedRoles(taken, impulses, n)
  {
  }

  lemma AddableNext(config: Config, baseline: Baseline, taken: set<string>, impulses: seq<Impulse>, n: nat)
    requires n < |impulses| && AllAddable(config, baseline, taken, impulses, n)
    ensures AllAddable(config, baseline, taken, impulses, n + 1) <==>
            (Fresh(taken, impulses, n) ==> Addable(config, baseline, impulses[n]))
    ensures AllAddable(config, baseline, taken, impulses, |impulses|) ==>
            AllAddable(config, baseline, taken, impulses, n + 1)
  {
  }

  method AddImpulse(config: Config, additions: map<string, string>, impulse: Impulse, baseline: Baseline)
    returns (r: Result<map<string, string>, PlanError>)
    ensures r.Ok? <==> Addable(config, baseline, impulse)
    ensures r.Ok? ==> r.value == additions[impulse.role := ImpulseReason(impulse)]
  {
    if impulse.role == baseline.player { return Err(PlayerRoleRequested); }
    if !KnownRole(baseline, impulse.role) { return Err(UnknownRole); }
    if ByteLength(ImpulseReason(impulse)) > config.maxReasonBytes { return Err(LimitExceeded("max_reason_bytes")); }
    r := Ok(additions[impulse.role := ImpulseReason(impulse)]);
  }

  method CollectImpulses(config: Config, taken: set<string>, impulses: seq<Impulse>, baseline: Baseline)
    returns (r: Result<map<string, string>, PlanError>)
    ensures r.Ok? <==> AllAddable(config, baseline, taken, impulses, |impulses|)
    ensures r.Ok? ==> Collects(taken, impulses, |impulses|, r.value)
  {
    var additions: map<string, string> := map[];
    for i := 0 to |impulses|
      invariant AllAddable(config, baseline, taken, impulses, i)
      invariant Collects(taken, impulses, i, additions)
    {
      CollectNext(taken, impulses, i, additions);
      AddableNext(config, baseline, taken, impulses, i);
      if impulses[i].role !in taken && impulses[i].role !in additions {
        additions :- AddImpulse(config, additions, impulses[i], baseline);
      }
    }
    r := Ok(additions);
  }

  method MergeNarrative(config: Config, planned: seq<Think>, impulses: seq<Impulse>, baseline: Baseline)
    returns (r: Result<seq<Think>, PlanError>)
    ensures r.Ok? <==>
            && AllAddable(config, baseline, RolesOf(planned), impulses, |impulses|)
            && |planned| + |AddedRoles(RolesOf(planned), impulses, |impulses|)| <= config.maxThinks
    ensures r.Ok? ==> IsMerge(planned, impulses, r.value) && |r.value| <= config.maxThinks
  {
    var additions :- CollectImpulses(config, RolesOf(planned), impulses, baseline);
    var added := ListAdditions(additions);
    ListsExactly(RoleList(added), additions.Keys);
    AdditionsAreAsked(RolesOf(planned), impulses, additions, added);
    var merged := planned + added;
    assert merged[..|planned|] == planned && merged[|planned|..] == added;
    if |merged| > config.maxThinks { return Err(LimitExceeded("max_character_think_requests")); }
    r := Ok(merged);
  }

  /** The additions in role order. */
  method ListAdditions(additions: map<string, string>) returns (added: seq<Think>)
    ensures Lists(RoleList(added), additions.Keys, TextLeq)
    ensures forall k :: 0 <= k < |added| ==> added[k].role in additions && added[k].reason == additions[added[k].role]
  {
    var roles := Ascending(additions.Keys);
    added := [];
    for k := 0 to |roles|
      invariant |added| == k
      invariant forall j :: 0 <= j < k ==> added[j] == Think(roles[j], additions[roles[j]])
    {
      added := added + [Think(roles[k], additions[roles[k]])];
    }
    assert RoleList(added) == roles;
  }

  lemma AdditionsAreAsked(taken: set<string>, impulses: seq<Impulse>, additions: map<string, string>, added: seq<Think>)
    requires Collects(taken, impulses, |impulses|, additions)
    requires Lists(RoleList(added), additions.Keys, TextLeq)
    requires forall k :: 0 <= k < |added| ==> added[k].role in additions && added[k].reason == additions[added[k].role]
    ensures IsAdded(taken, impulses, added)
  {
    forall k | 0 <= k < |added| ensures Asked(taken, impulses, added[k]) {
      assert added[k] == Think(added[k].role, additions[added[k].role]);
    }
  }

  // ---------------------------------------------------------------- who thinks

  lemma RolesOfBoth(a: seq<Think>, b: seq<Think>)
    ensures RolesOf(a + b) == RolesOf(a) + RolesOf(b)
  {
    var ab := a + b;
    assert forall i :: 0 <= i < |a| ==> ab[i] == a[i];
    assert forall i :: 0 <= i < |b| ==> ab[|a| + i] == b[i];
    forall role | role in RolesOf(ab) ensures role in RolesOf(a) + RolesOf(b) {
      var i :| 0 <= i < |ab| && ab[i].role == role;
      assert i >= |a| ==> ab[i] == b[i - |a|];
    }
    forall role | role in RolesOf(b) ensures role in RolesOf(ab) {
      var i :| 0 <= i < |b| && b[i].role == role;
      assert ab[|a| + i].role == role;
    }
  }

  lemma ListedRoles(thinks: seq<Think>, roles: set<string>)
    requires Lists(RoleList(thinks), roles, TextLeq)
    ensures DistinctRoles(thinks) && RolesOf(thinks) == roles
  {
    var list := RoleList(thinks);
    ListsExactly(list, roles);
    forall i, j | 0 <= i < j < |thinks| ensures thinks[i].role != thinks[j].role {
      ListsOnce(list, roles, i, j);
    }
    forall role ensures role in RolesOf(thinks) <==> role in list {
      if i :| 0 <= i < |thinks| && thinks[i].role == role {
        assert list[i] == role;
      }
    }
  }

  /** Whoever is merged in, no role thinks twice. */
  lemma MergedRolesAreDistinct(planned: seq<Think>, impulses: seq<Impulse>, merged: seq<Think>)
    requires DistinctRoles(planned) && IsMerge(planned, impulses, merged)
    ensures DistinctRoles(merged)
    ensures RolesOf(merged) == RolesOf(planned) + AddedRoles(RolesOf(planned), impulses, |impulses|)
  {
    var added, newcomers := merged[|planned|..], AddedRoles(RolesOf(planned), impulses, |impulses|);
    assert merged == planned + added;
    RolesOfBoth(planned, added);
    ListedRoles(added, newcomers);
    DistinctBoth(planned, added);
  }

  lemma DistinctBoth(a: seq<Think>, b: seq<Think>)
    requires DistinctRoles(a) && DistinctRoles(b) && RolesOf(a) !! RolesOf(b)
    ensures DistinctRoles(a + b)
  {
    var ab := a + b;
    forall i, j | 0 <= i < j < |ab| ensures ab[i].role != ab[j].role {
      if |a| <= i {
        assert ab[i] == b[i - |a|] && ab[j] == b[j - |a|];
      } else if |a| <= j {
        assert a[i].role in RolesOf(a) && b[j - |a|].role in RolesOf(b);
      }
    }
  }

  /** What holds of every planned role and of every newcomer holds of every merged role. */
  lemma MergedRolesSatisfy(planned: seq<Think>, impulses: seq<Impulse>, merged: seq<Think>, p: string -> bool)
    requires IsMerge(planned, impulses, merged)
    requires forall i :: 0 <= i < |planned| ==> p(planned[i].role)
    requires forall i :: 0 <= i < |impulses| && Fresh(RolesOf(planned), impulses, i) ==> p(impulses[i].role)
    ensures forall i :: 0 <= i < |merged| ==> p(merged[i].role)
  {
    forall i | 0 <= i < |merged| ensures p(merged[i].role) {
      var n := |planned|;
      if i < n {
        assert merged[i] == planned[i];
      } else {
        assert merged[i] == merged[n..][i - n] && Asked(RolesOf(planned), impulses, merged[n..][i - n]);
      }
    }
  }
}
