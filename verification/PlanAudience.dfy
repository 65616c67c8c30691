/** What a built plan guarantees to the retrieval stage. */
module PlanAudience {
  import opened KnowledgeIds
  import opened Ordering
  import opened RoleIds
  import opened KnowledgeRequests
  import opened Thinking
  import opened RetrievalPlans
  import opened RetrievalRoutes

  // ---------------------------------------------------------------- who thinks

  /** No character thinks twice, and every character that thinks is looked up, once. */
  lemma ThinkersAreLookedUp(input: Input, plan: Plan)
    requires ThinksFit(input) && IsPlanOf(input, plan)
    ensures DistinctRoles(plan.thinks) && |plan.thinks| <= input.config.maxThinks
    ensures RolesOf(plan.thinks) == Thinkers(input)
    ensures forall role :: role in RolesOf(plan.thinks) ==> role in CharacterRoles(plan.characters)
    ensures forall i, j :: 0 <= i < j < |plan.characters| ==> plan.characters[i].role != plan.characters[j].role
  {
    MergedRolesAreDistinct(input.answer.thinks, input.impulses, plan.thinks);
    MergeLength(input.answer.thinks, input.impulses, plan.thinks);
    var wanted :| Wants(input.targets, input.answer.writerGaps, wanted) &&
                  AreLookups(wanted, plan.thinks, plan.characters);
    CharactersAreListed(plan.characters, wanted.Keys + RolesOf(plan.thinks));
  }

  lemma MergeLength(planned: seq<Think>, impulses: seq<Impulse>, merged: seq<Think>)
    requires IsMerge(planned, impulses, merged)
    ensures |merged| == |planned| + |AddedRoles(RolesOf(planned), impulses, |impulses|)|
  {
    var added := merged[|planned|..];
    ListsExactly(RoleList(added), AddedRoles(RolesOf(planned), impulses, |impulses|));
  }

  lemma CharactersAreListed(characters: seq<CharacterRequest>, roles: set<string>)
    requires Lists(CharacterRoles(characters), roles, TextLeq)
    ensures forall role :: role in CharacterRoles(characters) <==> role in roles
    ensures forall i, j :: 0 <= i < j < |characters| ==> characters[i].role != characters[j].role
  {
    ListsExactly(CharacterRoles(characters), roles);
    forall i, j | 0 <= i < j < |characters| ensures characters[i].role != characters[j].role {
      ListsOnce(CharacterRoles(characters), roles, i, j);
    }
  }

  /** Nobody thinks for the player, and whoever thinks is a role of the snapshot. */
  lemma ThinkersAreNotThePlayer(input: Input, plan: Plan)
    requires ThinksFit(input) && IsPlanOf(input, plan) && SplitsRoles(input.snapshot, input.baseline)
    ensures forall i :: 0 <= i < |plan.thinks| ==>
      (plan.thinks[i].role != input.snapshot.player && plan.thinks[i].role in input.snapshot.roles)
  {
    MergedRolesSatisfy(input.answer.thinks, input.impulses, plan.thinks,
                       role => role != input.snapshot.player && role in input.snapshot.roles);
  }

  // ---------------------------------------------------------------- who is told what

  predicate Shown(targets: map<string, Target>, target: Target) {
    TargetKey(target) in targets && targets[TargetKey(target)] == target
  }

  /**
   A request for something the planner was shown; told to the writer, or to a thinking character unless it is
   a fact.
   */
  ghost predicate Proper(targets: map<string, Target>, thinkers: set<string>, r: Request) {
    && Shown(targets, Knowledge(r.target))
    && r.origin == Planner && !r.mandatory
    && (r.delivery.Character? ==> r.delivery.role in thinkers && !r.target.kind.Fact?)
  }

  ghost predicate SelfKeyed(targets: map<string, Target>) {
    forall key :: key in targets ==> TargetKey(targets[key]) == key
  }

  lemma {:induction false} WriterRequestsAreProper(targets: map<string, Target>, thinkers: set<string>,
                                                   gaps: seq<WriterGap>)
    requires SelfKeyed(targets)
    ensures forall r :: r in WriterRequests(targets, gaps) ==> Proper(targets, thinkers, r) && r.delivery.Writer?
  {
    if gaps != [] {
      WriterRequestsAreProper(targets, thinkers, gaps[..|gaps| - 1]);
    }
  }

  lemma {:induction false} CharacterRequestsAreProper(
      config: Config, targets: map<string, Target>, thinkers: set<string>, gaps: seq<CharacterGap>)
    requires SelfKeyed(targets) && CharacterGapsFit(config, targets, thinkers, gaps)
    ensures forall r :: r in CharacterRequests(targets, gaps) ==> Proper(targets, thinkers, r)
  {
    if gaps != [] {
      var n := |gaps| - 1;
      assert CharacterGapFits(config, targets, thinkers, gaps[n]);
      CharacterRequestsAreProper(config, targets, thinkers, gaps[..n]);
    }
  }

  lemma PlannedRequestsAreProper(input: Input, plan: Plan)
    requires SelfKeyed(input.targets) && GapsFit(input) && IsPlanOf(input, plan)
    ensures forall i :: 0 <= i < |plan.knowledge| ==> Proper(input.targets, Thinkers(input), plan.knowledge[i])
    ensures |plan.knowledge| <= input.config.maxRequests
    ensures forall i, j :: 0 <= i < j < |plan.knowledge| ==> KeyOf(plan.knowledge[i]) != KeyOf(plan.knowledge[j])
  {
    WriterRequestsAreProper(input.targets, Thinkers(input), input.answer.writerGaps);
    CharacterRequestsAreProper(input.config, input.targets, Thinkers(input), input.answer.characterGaps);
    OnePerKey(AllRequests(input), plan.knowledge);
    forall i | 0 <= i < |plan.knowledge| ensures plan.knowledge[i] in AllRequests(input) {
      assert IsBest(AllRequests(input), plan.knowledge[i]);
    }
  }

  // ---------------------------------------------------------------- the retrieval stage accepts

  /** The planner was shown roles of the baseline, and facts and rumors of the activation index. */
  ghost predicate ShownFromSnapshot(input: Input, knowledge: seq<SourceId>, index: Metadata) {
    && SplitsRoles(input.snapshot, input.baseline)
    && Indexes(input.targets, input.baseline.roleIndex, knowledge)
    && forall id :: id in knowledge ==> id in index && index[id] == id.kind && !id.kind.Memory?
  }

  lemma LookedUpRolesAreKnown(input: Input, plan: Plan, knowledge: seq<SourceId>, index: Metadata)
    requires ThinksFit(input) && IsPlanOf(input, plan) && ShownFromSnapshot(input, knowledge, index)
    ensures RolesAreKnown(plan, input.snapshot)
  {
    ThinkersAreNotThePlayer(input, plan);
    var wanted :| Wants(input.targets, input.answer.writerGaps, wanted) &&
                  AreLookups(wanted, plan.thinks, plan.characters);
    CharactersAreListed(plan.characters, wanted.Keys + RolesOf(plan.thinks));
    forall i | 0 <= i < |plan.characters| ensures plan.characters[i].role in input.snapshot.roles {
      var role := plan.characters[i].role;
      assert CharacterRoles(plan.characters)[i] == role;
      if role in wanted {
        WantedRoleIsIndexed(input, knowledge, role, wanted);
      }
    }
  }

  lemma WantedRoleIsIndexed(input: Input, knowledge: seq<SourceId>, role: string, wanted: map<string, Cognition>)
    requires Wants(input.targets, input.answer.writerGaps, wanted) && role in wanted
    requires Indexes(input.targets, input.baseline.roleIndex, knowledge)
    ensures role in input.baseline.roleIndex
  {
    assert WantedBy(input.targets, input.answer.writerGaps, role, wanted[role]);
    var i: nat :| FirstAsks(input.targets, input.answer.writerGaps, role, i);
  }

  lemma ProperIsRoutable(input: Input, knowledge: seq<SourceId>, index: Metadata, r: Request)
    requires ShownFromSnapshot(input, knowledge, index) && Proper(input.targets, Thinkers(input), r)
    ensures Routable(index, r) && !r.target.kind.Memory?
  {
    assert Listed(input.targets[r.target.Text()], input.baseline.roleIndex, knowledge);
  }

  lemma {:induction false} NothingToRecall(rs: seq<Request>)
    requires forall i :: 0 <= i < |rs| ==> !rs[i].target.kind.Memory?
    ensures Grouped(rs) == map[] && |SeedsOf(rs)| == |rs|
    ensures forall i :: 0 <= i < |rs| ==> SeedsOf(rs)[i] == Seed(rs[i].target, rs[i].delivery, rs[i].mandatory)
  {
    if rs != [] {
      NothingToRecall(rs[..|rs| - 1]);
    }
  }

  /**
   Every built plan passes the retrieval stage: no request's role is unknown, no audience is
   violated and every seed is authorized; each knowledge request becomes one seed.
   */
  lemma BuiltPlanRoutes(input: Input, plan: Plan, knowledge: seq<SourceId>, index: Metadata)
    requires ThinksFit(input) && GapsFit(input) && IsPlanOf(input, plan) && ShownFromSnapshot(input, knowledge, index)
    ensures RolesAreKnown(plan, input.snapshot) && AllRoutable(plan, index)
    ensures Grouped(plan.knowledge) == map[] &&
            |SeedsOf(plan.knowledge)| == |plan.knowledge| <= input.config.maxRequests
    ensures forall i :: 0 <= i < |plan.knowledge| ==>
      SeedsOf(plan.knowledge)[i] == Seed(plan.knowledge[i].target, plan.knowledge[i].delivery, false)
  {
    LookedUpRolesAreKnown(input, plan, knowledge, index);
    PlannedRequestsAreProper(input, plan);
    forall i | 0 <= i < |plan.knowledge|
      ensures Routable(index, plan.knowledge[i]) && !plan.knowledge[i].target.kind.Memory?
    {
      ProperIsRoutable(input, knowledge, index, plan.knowledge[i]);
    }
    NothingToRecall(plan.knowledge);
  }
}
