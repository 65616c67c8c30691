/** Role ids: their grammar, their separation from knowledge ids, and the dynamic role pool. */
module RoleIds {
  import opened Widths
  import opened Wrappers
  import opened KnowledgeIds

  const MAX_BYTES: nat := 128
  const DYNAMIC_ROLE_ID_PREFIX: string := "role_"

  predicate IsWordChar(c: char) {
    'a' <= c <= 'z' || '0' <= c <= '9'
  }

  predicate IsSeparator(c: char) {
    c == '.' || c == '_' || c == '-'
  }

  // ---------------------------------------------------------------- the automaton

  /** State of the scan: rejected, or whether the current segment has a character yet. */
  function Scan(s: string): Option<bool> {
    if s == "" then Some(false)
    else
      var c := s[|s| - 1];
      match Scan(s[..|s| - 1])
      case None => None
      case Some(seen) =>
        if IsWordChar(c) then Some(true)
        else if IsSeparator(c) && seen then Some(false)
        else None
  }

  lemma {:induction false} RejectedStaysRejected(s: string, i: nat)
    requires i <= |s| && Scan(s[..i]).None?
    ensures Scan(s).None?
  {
    if i < |s| {
      assert s[..|s| - 1][..i] == s[..i];
      RejectedStaysRejected(s[..|s| - 1], i);
    } else {
      assert s[..i] == s;
    }
  }

  method IsValidRoleId(value: string) returns (valid: bool)
    ensures valid <==> |value| <= MAX_BYTES && Grammatical(value)
  {
    GrammarIsTheScan(value);
    if value == "" || |value| > MAX_BYTES { return false; }
    var seenSegment := false;
    for i := 0 to |value|
      invariant Scan(value[..i]) == Some(seenSegment)
    {
      var ch := value[i];
      assert value[..i + 1][..i] == value[..i];
      if IsWordChar(ch) {
        seenSegment := true;
      } else if IsSeparator(ch) {
        if !seenSegment {
          RejectedStaysRejected(value, i + 1);
          return false;
        }
        seenSegment := false;
      } else {
        RejectedStaysRejected(value, i + 1);
        return false;
      }
    }
    assert value[..|value|] == value;
    valid := seenSegment;
  }

  // ---------------------------------------------------------------- the grammar [a-z0-9]+([._-][a-z0-9]+)*

  ghost predicate IsWord(s: string) {
    s != "" && forall i :: 0 <= i < |s| ==> IsWordChar(s[i])
  }

  function Weave(words: seq<string>, separators: seq<char>): string
    requires |words| == |separators| + 1
  {
    if separators == [] then words[0]
    else Weave(words[..|words| - 1], separators[..|separators| - 1]) +
         [separators[|separators| - 1]] + words[|words| - 1]
  }

  ghost predicate IsParse(s: string, words: seq<string>, separators: seq<char>) {
    && |words| == |separators| + 1
    && (forall i :: 0 <= i < |words| ==> IsWord(words[i]))
    && (forall i :: 0 <= i < |separators| ==> IsSeparator(separators[i]))
    && s == Weave(words, separators)
  }

  /** `s` is one or more words joined by single separators. */
  ghost predicate Grammatical(s: string) {
    exists words, separators :: IsParse(s, words, separators)
  }

  lemma {:induction false} ScanWord(before: string, word: string)
    requires Scan(before).Some? && IsWord(word)
    ensures Scan(before + word) == Some(true)
  {
    var init := word[..|word| - 1];
    assert (before + word)[..|before + word| - 1] == before + init;
    if init != "" {
      ScanWord(before, init);
    } else {
      assert before + init == before;
    }
  }

  lemma {:induction false} WovenIsScanned(words: seq<string>, separators: seq<char>)
    requires |words| == |separators| + 1 && IsParse(Weave(words, separators), words, separators)
    ensures Scan(Weave(words, separators)) == Some(true)
    decreases |separators|
  {
    if separators == [] {
      assert "" + words[0] == words[0];
      ScanWord("", words[0]);
    } else {
      var ws, ss := words[..|words| - 1], separators[..|separators| - 1];
      WovenIsScanned(ws, ss);
      var before := Weave(ws, ss) + [separators[|separators| - 1]];
      assert before[..|before| - 1] == Weave(ws, ss);
      ScanWord(before, words[|words| - 1]);
    }
  }

  lemma {:induction false} ScannedIsWoven(s: string) returns (words: seq<string>, separators: seq<char>)
    requires Scan(s) == Some(true)
    ensures IsParse(s, words, separators)
    decreases |s|
  {
    var init, c := s[..|s| - 1], s[|s| - 1];
    if Scan(init) == Some(true) {
      words, separators := ScannedIsWoven(init);
      words := ExtendLast(words, separators, c);
    } else if init == "" {
      words, separators := [s], [];
    } else {
      var front, sep := init[..|init| - 1], init[|init| - 1];
      words, separators := ScannedIsWoven(front);
      var ws, ss := words + [[c]], separators + [sep];
      assert ws[..|ws| - 1] == words && ss[..|ss| - 1] == separators;
      assert s == front + [sep] + [c];
      words, separators := ws, ss;
    }
  }

  lemma ExtendLast(words: seq<string>, separators: seq<char>, c: char) returns (longer: seq<string>)
    requires |words| == |separators| + 1 && IsParse(Weave(words, separators), words, separators) && IsWordChar(c)
    ensures IsParse(Weave(words, separators) + [c], longer, separators)
  {
    var k := |words| - 1;
    longer := words[..k] + [words[k] + [c]];
    if separators != [] {
      assert longer[..k] == words[..k];
    }
  }

  /** The loop accepts exactly the grammar. */
  lemma GrammarIsTheScan(s: string)
    ensures Scan(s) == Some(true) <==> Grammatical(s)
  {
    if Scan(s) == Some(true) {
      var words, separators := ScannedIsWoven(s);
    }
    if words, separators :| IsParse(s, words, separators) {
      WovenIsScanned(words, separators);
    }
  }

  // ---------------------------------------------------------------- role ids

  datatype RoleIdError = InvalidRoleId | ReservedForKnowledge

  /** The shape of some knowledge id: its prefix and a canonical sequence. */
  predicate HasKnowledgeShape(text: string) {
    ShapeOf(text, Fact) || ShapeOf(text, Rumor) || ShapeOf(text, Memory)
  }

  predicate ShapeOf(text: string, kind: Kind) {
    StripPrefix(text, KindPrefix(kind)).Some? && Parse(StripPrefix(text, KindPrefix(kind)).value).Some?
  }

  ghost predicate IsRoleId(text: string) {
    |text| <= MAX_BYTES && Grammatical(text) && !HasKnowledgeShape(text)
  }

  method TryRoleId(text: string) returns (r: Result<string, RoleIdError>)
    ensures r.Ok? <==> IsRoleId(text)
    ensures r.Ok? ==> r.value == text
    ensures r == Err(ReservedForKnowledge) ==> HasKnowledgeShape(text)
  {
    var valid := IsValidRoleId(text);
    if !valid { return Err(InvalidRoleId); }
    if HasKnowledgeShape(text) { return Err(ReservedForKnowledge); }
    r := Ok(text);
  }

  /** No role id is the text of a knowledge id. */
  lemma RoleIdsAreNoKnowledgeIds(text: string, id: SourceId)
    requires IsRoleId(text) && id.Valid()
    ensures text != id.Text()
  {
    SourceIdRoundTrip(id.kind, id.Text(), id);
  }

  // ---------------------------------------------------------------- the dynamic role pool

  function DynamicRoleId(n: nat): string {
    DYNAMIC_ROLE_ID_PREFIX + Format(n)
  }

  lemma FormatIsWord(n: nat)
    requires 0 < n <= U64_MAX
    ensures IsWord(Format(n)) && |Format(n)| <= 20
  {
    FormatIsCanonical(n);
    FormatIsShort(n);
  }

  lemma DynamicRoleIdIsValid(n: nat)
    requires 0 < n <= U64_MAX
    ensures IsRoleId(DynamicRoleId(n))
  {
    FormatIsWord(n);
    var words, separators := ["role", Format(n)], ['_'];
    assert words[..1] == ["role"] && separators[..0] == [];
    assert DynamicRoleId(n) == "role" + ['_'] + Format(n);
    assert IsWord("role");
    assert IsParse(DynamicRoleId(n), words, separators);
    var text := DynamicRoleId(n);
    assert text[0] == 'r' && text[1] == 'o';
    assert KindPrefix(Rumor)[1] == 'u' && KindPrefix(Fact)[0] == 'f' && KindPrefix(Memory)[0] == 'm';
    assert !(KindPrefix(Rumor) <= text) && !(KindPrefix(Fact) <= text) && !(KindPrefix(Memory) <= text);
  }

  lemma DynamicRoleIdIsInjective(a: nat, b: nat)
    requires 0 < a <= U64_MAX && 0 < b <= U64_MAX && DynamicRoleId(a) == DynamicRoleId(b)
    ensures a == b
  {
    assert DynamicRoleId(a)[5..] == Format(a) && DynamicRoleId(b)[5..] == Format(b);
    FormatHasValue(a);
    FormatHasValue(b);
  }

  datatype AllocationError = AllocationOverflow

  /** The ids that follow `base`, one by one. */
  ghost predicate AreCandidates(base: nat, candidates: seq<string>) {
    forall i :: 0 <= i < |candidates| ==> candidates[i] == DynamicRoleId(base + 1 + i)
  }

  lemma NextCandidate(base: nat, candidates: seq<string>)
    requires AreCandidates(base, candidates)
    ensures AreCandidates(base, candidates + [DynamicRoleId(base + |candidates| + 1)])
  {
  }

  /** Succeeds unless the sequence runs past 64 bits; the ids are new, distinct and always well-formed. */
  method AllocateDynamicRoleCandidates(base: nat, maximum: nat) returns (r: Result<seq<string>, AllocationError>)
    requires base <= U64_MAX
    ensures r.Ok? <==> base + maximum <= U64_MAX
    ensures r.Ok? ==>
              && |r.value| == maximum
              && (forall i :: 0 <= i < maximum ==> r.value[i] == DynamicRoleId(base + 1 + i) && IsRoleId(r.value[i]))
              && (forall i, j :: 0 <= i < j < maximum ==> r.value[i] != r.value[j])
  {
    var next := base;
    var candidates: seq<string> := [];
    for k := 0 to maximum
      invariant next == base + k <= U64_MAX && |candidates| == k && AreCandidates(base, candidates)
    {
      if next + 1 > U64_MAX { return Err(AllocationOverflow); }
      next := next + 1;
      DynamicRoleIdIsValid(next);
      var roleId := TryRoleId(DynamicRoleId(next));
      NextCandidate(base, candidates);
      candidates := candidates + [roleId.value];
    }
    CandidatesAreDistinct(base, candidates);
    r := Ok(candidates);
  }

  lemma CandidatesAreDistinct(base: nat, candidates: seq<string>)
    requires base + |candidates| <= U64_MAX
    requires AreCandidates(base, candidates)
    ensures forall i, j :: 0 <= i < j < |candidates| ==> candidates[i] != candidates[j]
    ensures forall i :: 0 <= i < |candidates| ==> IsRoleId(candidates[i])
  {
    forall i | 0 <= i < |candidates| ensures IsRoleId(candidates[i]) {
      DynamicRoleIdIsValid(base + 1 + i);
    }
    forall i, j | 0 <= i < j < |candidates| ensures candidates[i] != candidates[j] {
      if candidates[i] == candidates[j] {
        DynamicRoleIdIsInjective(base + 1 + i, base + 1 + j);
      }
    }
  }

  // ---------------------------------------------------------------- the planner's target index

  datatype Target = Role(roleId: string) | Knowledge(sourceId: SourceId)

  datatype CollisionError = RetrievalTargetCollision(key: string)

  function TargetKey(t: Target): string {
    match t
    case Role(id) => id
    case Knowledge(id) => id.Text()
  }

  ghost predicate ProperTarget(t: Target) {
    match t
    case Role(id) => IsRoleId(id)
    case Knowledge(id) => id.Valid()
  }

  lemma KeysSeparateTargets(a: Target, b: Target)
    requires ProperTarget(a) && ProperTarget(b) && TargetKey(a) == TargetKey(b)
    ensures a == b
  {
    match (a, b)
    case (Role(_), Role(_)) =>
    case (Knowledge(x), Knowledge(y)) => TextIsInjective(x, y);
    case (Role(x), Knowledge(y)) => RoleIdsAreNoKnowledgeIds(x, y);
    case (Knowledge(x), Role(y)) => RoleIdsAreNoKnowledgeIds(y, x);
  }

  /** The key maps to the target, and every other key to what it did. */
  ghost predicate Adds(before: map<string, Target>, key: string, target: Target, after: map<string, Target>) {
    && after.Keys == before.Keys + {key} && after[key] == target
    && forall other :: other in before && other != key ==> after[other] == before[other]
  }

  method InsertTarget(targets: map<string, Target>, key: string, target: Target)
    returns (r: Result<map<string, Target>, CollisionError>)
    ensures r.Err? <==> key in targets && targets[key] != target
    ensures r.Ok? ==> Adds(targets, key, target, r.value)
  {
    if key in targets && targets[key] != target { return Err(RetrievalTargetCollision(key)); }
    r := Ok(targets[key := target]);
  }

  predicate Listed(t: Target, roles: seq<string>, knowledge: seq<SourceId>) {
    match t
    case Role(id) => id in roles
    case Knowledge(id) => id in knowledge
  }

  /** The index maps exactly the keys of the listed targets, each to its own target. */
  ghost predicate Indexes(targets: map<string, Target>, roles: seq<string>, knowledge: seq<SourceId>) {
    && (forall key :: key in targets ==> TargetKey(targets[key]) == key && Listed(targets[key], roles, knowledge))
    && (forall id :: id in roles ==> id in targets && targets[id] == Role(id))
    && (forall id :: id in knowledge ==> id.Text() in targets && targets[id.Text()] == Knowledge(id))
  }

  ghost predicate ProperLists(roles: seq<string>, knowledge: seq<SourceId>) {
    (forall id :: id in roles ==> IsRoleId(id)) && (forall id :: id in knowledge ==> id.Valid())
  }

  /** Adding one more target to an index of proper targets never collides. */
  lemma NextTargetFits(targets: map<string, Target>, roles: seq<string>, knowledge: seq<SourceId>, t: Target)
    requires Indexes(targets, roles, knowledge) && ProperLists(roles, knowledge) && ProperTarget(t)
    ensures TargetKey(t) in targets ==> targets[TargetKey(t)] == t
  {
    if TargetKey(t) in targets {
      KeysSeparateTargets(targets[TargetKey(t)], t);
    }
  }

  lemma AddsRole(targets: map<string, Target>, roles: seq<string>, id: string, after: map<string, Target>)
    requires Indexes(targets, roles, []) && Adds(targets, id, Role(id), after)
    requires id in targets ==> targets[id] == Role(id)
    ensures Indexes(after, roles + [id], [])
  {
  }

  lemma AddsKnowledge(targets: map<string, Target>, roles: seq<string>, knowledge: seq<SourceId>, id: SourceId,
                      after: map<string, Target>)
    requires Indexes(targets, roles, knowledge) && Adds(targets, id.Text(), Knowledge(id), after)
    requires id.Text() in targets ==> targets[id.Text()] == Knowledge(id)
    ensures Indexes(after, roles, knowledge + [id])
  {
  }

  method IndexRole(targets: map<string, Target>, roles: seq<string>, id: string)
    returns (r: Result<map<string, Target>, CollisionError>)
    requires Indexes(targets, roles, []) && ProperLists(roles, []) && IsRoleId(id)
    ensures r.Ok? && Indexes(r.value, roles + [id], [])
  {
    NextTargetFits(targets, roles, [], Role(id));
    r := InsertTarget(targets, id, Role(id));
    AddsRole(targets, roles, id, r.value);
  }

  method IndexSource(targets: map<string, Target>, roles: seq<string>, knowledge: seq<SourceId>, id: SourceId)
    returns (r: Result<map<string, Target>, CollisionError>)
    requires Indexes(targets, roles, knowledge) && ProperLists(roles, knowledge) && id.Valid()
    ensures r.Ok? && Indexes(r.value, roles, knowledge + [id])
  {
    NextTargetFits(targets, roles, knowledge, Knowledge(id));
    r := InsertTarget(targets, id.Text(), Knowledge(id));
    AddsKnowledge(targets, roles, knowledge, id, r.value);
  }

  /** The two insertion loops of the projector; the collision error is unreachable. */
  method IndexTargets(roles: seq<string>, knowledge: seq<SourceId>)
    returns (r: Result<map<string, Target>, CollisionError>)
    requires ProperLists(roles, knowledge)
    ensures r.Ok? && Indexes(r.value, roles, knowledge)
  {
    var targets: map<string, Target> := map[];
    for i := 0 to |roles|
      invariant Indexes(targets, roles[..i], [])
    {
      r := IndexRole(targets, roles[..i], roles[i]);
      if r.Err? { return; }
      assert roles[..i + 1] == roles[..i] + [roles[i]];
      targets := r.value;
    }
    assert roles[..|roles|] == roles;
    r := IndexKnowledge(targets, roles, knowledge);
  }

  method IndexKnowledge(indexed: map<string, Target>, roles: seq<string>, knowledge: seq<SourceId>)
    returns (r: Result<map<string, Target>, CollisionError>)
    requires ProperLists(roles, knowledge) && Indexes(indexed, roles, [])
    ensures r.Ok? && Indexes(r.value, roles, knowledge)
  {
    var targets := indexed;
    for i := 0 to |knowledge|
      invariant Indexes(targets, roles, knowledge[..i])
    {
      r := IndexSource(targets, roles, knowledge[..i], knowledge[i]);
      if r.Err? { return; }
      assert knowledge[..i + 1] == knowledge[..i] + [knowledge[i]];
      targets := r.value;
    }
    assert knowledge[..|knowledge|] == knowledge;
    r := Ok(targets);
  }
}
