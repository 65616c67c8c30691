/** Knowledge requests of a retrieval plan: one per delivery and target, the best first. */
module KnowledgeRequests {
  import opened KnowledgeIds
  import opened Ordering

  datatype Delivery = Writer | Character(role: string)

  datatype Origin = Automatic | Narrative | Planner

  datatype Request = Request(delivery: Delivery, target: SourceId, reason: string, origin: Origin, mandatory: bool)

  datatype RequestKey = RequestKey(delivery: Delivery, target: SourceId)

  function KeyOf(r: Request): RequestKey {
    RequestKey(r.delivery, r.target)
  }

  function OriginRank(o: Origin): nat {
    match o
    case Automatic => 0
    case Narrative => 1
    case Planner => 2
  }

  /** Mandatory requests come before optional ones, and then the smaller origin rank wins. */
  function Rank(r: Request): nat {
    (if r.mandatory then 0 else 3) + OriginRank(r.origin)
  }

  function KindRank(k: Kind): nat {
    match k
    case Fact => 0
    case Rumor => 1
    case Memory => 2
  }

  function DeliveryText(d: Delivery): string {
    match d
    case Writer => ""
    case Character(role) => role
  }

  function DeliveryRank(d: Delivery): nat {
    if d.Writer? then 0 else 1
  }

  /** Rank first; then writer before characters, characters by role; then facts, rumors, memories, each by id. */
  predicate RequestLeq(a: Request, b: Request) {
    if Rank(a) != Rank(b) then Rank(a) < Rank(b)
    else if DeliveryRank(a.delivery) != DeliveryRank(b.delivery) then
      DeliveryRank(a.delivery) < DeliveryRank(b.delivery)
    else if DeliveryText(a.delivery) != DeliveryText(b.delivery) then
      TextLeq(DeliveryText(a.delivery), DeliveryText(b.delivery))
    else if a.target.kind != b.target.kind then KindRank(a.target.kind) < KindRank(b.target.kind)
    else TextLeq(a.target.Text(), b.target.Text())
  }

  lemma RequestLeqIsTotal(a: Request, b: Request)
    ensures RequestLeq(a, b) || RequestLeq(b, a)
  {
    TextLeqIsTotal(DeliveryText(a.delivery), DeliveryText(b.delivery));
    TextLeqIsTotal(a.target.Text(), b.target.Text());
  }

  lemma RequestLeqIsTransitive(a: Request, b: Request, c: Request)
    requires RequestLeq(a, b) && RequestLeq(b, c)
    ensures RequestLeq(a, c)
  {
    var x, y, z := DeliveryText(a.delivery), DeliveryText(b.delivery), DeliveryText(c.delivery);
    if TextLeq(x, y) && TextLeq(y, z) {
      TextLeqIsTransitive(x, y, z);
      if x == z {
        TextLeqIsAntisymmetric(x, y);
      }
    }
    if TextLeq(a.target.Text(), b.target.Text()) && TextLeq(b.target.Text(), c.target.Text()) {
      TextLeqIsTransitive(a.target.Text(), b.target.Text(), c.target.Text());
    }
  }

  lemma RequestOrder()
    ensures TotalOrder(RequestLeq)
  {
    forall a, b ensures RequestLeq(a, b) || RequestLeq(b, a) {
      RequestLeqIsTotal(a, b);
    }
    forall a, b, c | RequestLeq(a, b) && RequestLeq(b, c) ensures RequestLeq(a, c) {
      RequestLeqIsTransitive(a, b, c);
    }
  }

  // ---------------------------------------------------------------- deduplication

  /** Among the first `n` requests, request `i` is the first of the best ranked with its key. */
  ghost predicate BestOf(rs: seq<Request>, n: nat, i: nat)
    requires n <= |rs|
  {
    i < n && forall j :: 0 <= j < n && KeyOf(rs[j]) == KeyOf(rs[i]) ==>
      Rank(rs[i]) < Rank(rs[j]) || (Rank(rs[i]) == Rank(rs[j]) && i <= j)
  }

  /** Where the best request of each key stands among the first `n`. */
  ghost predicate Chooses(rs: seq<Request>, n: nat, chosen: map<RequestKey, nat>)
    requires n <= |rs|
  {
    && (forall key :: key in chosen ==> BestOf(rs, n, chosen[key]) && KeyOf(rs[chosen[key]]) == key)
    && (forall i :: 0 <= i < n ==> KeyOf(rs[i]) in chosen)
  }

  ghost function Choose(rs: seq<Request>, n: nat, chosen: map<RequestKey, nat>): map<RequestKey, nat>
    requires n < |rs|
  {
    var key := KeyOf(rs[n]);
    if key in chosen && chosen[key] < n && Rank(rs[chosen[key]]) <= Rank(rs[n]) then chosen else chosen[key := n]
  }

  lemma ChooseNext(rs: seq<Request>, n: nat, chosen: map<RequestKey, nat>)
    requires n < |rs| && Chooses(rs, n, chosen)
    ensures Chooses(rs, n + 1, Choose(rs, n, chosen))
  {
    var chosen' := Choose(rs, n, chosen);
    forall key | key in chosen'
      ensures BestOf(rs, n + 1, chosen'[key]) && KeyOf(rs[chosen'[key]]) == key
    {
      assert key in chosen ==> BestOf(rs, n, chosen[key]);
    }
  }

  /** The requests standing for the chosen positions. */
  ghost predicate Holds(rs: seq<Request>, chosen: map<RequestKey, nat>, byKey: map<RequestKey, Request>) {
    byKey.Keys == chosen.Keys && forall key :: key in chosen ==> chosen[key] < |rs| && byKey[key] == rs[chosen[key]]
  }

  function Keep(byKey: map<RequestKey, Request>, r: Request): map<RequestKey, Request> {
    if KeyOf(r) in byKey && Rank(byKey[KeyOf(r)]) <= Rank(r) then byKey else byKey[KeyOf(r) := r]
  }

  lemma KeepFollowsChoice(rs: seq<Request>, n: nat, chosen: map<RequestKey, nat>, byKey: map<RequestKey, Request>)
    requires n < |rs| && Chooses(rs, n, chosen) && Holds(rs, chosen, byKey)
    ensures Holds(rs, Choose(rs, n, chosen), Keep(byKey, rs[n]))
  {
    var key := KeyOf(rs[n]);
    if key in chosen {
      assert BestOf(rs, n, chosen[key]);
    }
  }

  /** Keeps one request per key: the best ranked, the earliest among equals. */
  method Dedupe(rs: seq<Request>) returns (byKey: map<RequestKey, Request>, ghost chosen: map<RequestKey, nat>)
    ensures Chooses(rs, |rs|, chosen) && Holds(rs, chosen, byKey)
  {
    byKey, chosen := map[], map[];
    for i := 0 to |rs|
      invariant Chooses(rs, i, chosen) && Holds(rs, chosen, byKey)
    {
      ChooseNext(rs, i, chosen);
      KeepFollowsChoice(rs, i, chosen, byKey);
      chosen := Choose(rs, i, chosen);
      byKey := KeepBetter(byKey, rs[i]);
    }
  }

  method KeepBetter(byKey: map<RequestKey, Request>, request: Request) returns (kept: map<RequestKey, Request>)
    ensures kept == Keep(byKey, request)
  {
    var key := KeyOf(request);
    if key in byKey {
      var existing := byKey[key];
      var replace := (request.mandatory && !existing.mandatory)
                  || (request.mandatory == existing.mandatory &&
                     OriginRank(request.origin) < OriginRank(existing.origin));
      kept := if replace then byKey[key := request] else byKey;
    } else {
      kept := byKey[key := request];
    }
  }

  // ---------------------------------------------------------------- the final list

  /** `out` lists exactly the best request of each key of `rs`, each once. */
  ghost predicate IsBestList(rs: seq<Request>, out: seq<Request>) {
    && (forall i, j :: 0 <= i < j < |out| ==> KeyOf(out[i]) != KeyOf(out[j]))
    && (forall r :: r in out ==> IsBest(rs, r))
    && (forall i :: 0 <= i < |rs| ==> HasKey(out, KeyOf(rs[i])))
  }

  ghost predicate IsBest(rs: seq<Request>, r: Request) {
    exists i: nat :: BestOf(rs, |rs|, i) && rs[i] == r
  }

  predicate HasKey(out: seq<Request>, key: RequestKey) {
    exists r :: r in out && KeyOf(r) == key
  }

  /** `dedupe_and_sort`: the best request of each key, sorted by rank and key. */
  method DedupeAndSort(rs: seq<Request>) returns (out: seq<Request>)
    ensures IsBestList(rs, out) && Sorted(out, RequestLeq)
  {
    var byKey, chosen := Dedupe(rs);
    forall key | key in byKey ensures KeyOf(byKey[key]) == key {
      assert BestOf(rs, |rs|, chosen[key]) && KeyOf(rs[chosen[key]]) == key;
    }
    RequestOrder();
    out := ListInOrder(set key | key in byKey :: byKey[key], RequestLeq);
    ListOfChosen(rs, byKey, chosen, out);
  }

  lemma ListOfChosen(rs: seq<Request>, byKey: map<RequestKey, Request>, chosen: map<RequestKey, nat>, out: seq<Request>)
    requires Chooses(rs, |rs|, chosen) && Holds(rs, chosen, byKey)
    requires multiset(out) == multiset(set key | key in byKey :: byKey[key])
    ensures IsBestList(rs, out)
  {
    var values := set key | key in byKey :: byKey[key];
    ListsExactly(out, values);
    forall r | r in out ensures IsBest(rs, r) && KeyOf(r) in byKey && byKey[KeyOf(r)] == r {
      var key :| key in byKey && byKey[key] == r;
      assert BestOf(rs, |rs|, chosen[key]);
    }
    forall i | 0 <= i < |rs| ensures HasKey(out, KeyOf(rs[i])) {
      var key := KeyOf(rs[i]);
      assert BestOf(rs, |rs|, chosen[key]) && KeyOf(rs[chosen[key]]) == key;
      assert byKey[key] in values;
    }
    forall i, j | 0 <= i < j < |out| ensures KeyOf(out[i]) != KeyOf(out[j]) {
      ListsOnce(out, values, i, j);
      assert out[i] in out && out[j] in out;
    }
  }

  function KeysOf(rs: seq<Request>): set<RequestKey> {
    set i | 0 <= i < |rs| :: KeyOf(rs[i])
  }

  /** As many requests are kept as there are keys. */
  lemma OnePerKey(rs: seq<Request>, out: seq<Request>)
    requires IsBestList(rs, out)
    ensures |out| == |KeysOf(rs)|
  {
    assert KeysOf(rs) == KeysOf(out) by {
      forall key | key in KeysOf(rs) ensures key in KeysOf(out) {
        assert HasKey(out, key);
      }
      forall i | 0 <= i < |out| ensures KeyOf(out[i]) in KeysOf(rs) {
        assert IsBest(rs, out[i]);
      }
    }
    DistinctKeys(out);
  }

  lemma {:induction false} DistinctKeys(out: seq<Request>)
    requires forall i, j :: 0 <= i < j < |out| ==> KeyOf(out[i]) != KeyOf(out[j])
    ensures |KeysOf(out)| == |out|
  {
    if out != [] {
      var n := |out| - 1;
      DistinctKeys(out[..n]);
      assert KeysOf(out) == KeysOf(out[..n]) + {KeyOf(out[n])} by {
        assert forall i :: 0 <= i < n ==> out[..n][i] == out[i];
      }
    }
  }

  // ---------------------------------------------------------------- what the list's order means

  predicate EarlierOrigin(a: Origin, b: Origin) {
    (a.Automatic? && !b.Automatic?) || (a.Narrative? && b.Planner?)
  }

  ghost predicate EarlierDelivery(a: Delivery, b: Delivery) {
    (a.Writer? && b.Character?) || (a.Character? && b.Character? && a != b && Lexicographic(a.role, b.role))
  }

  predicate EarlierKind(a: Kind, b: Kind) {
    (a.Fact? && !b.Fact?) || (a.Rumor? && b.Memory?)
  }

  /**
   Mandatory requests stand first; then automatic, narrative and planned ones; then those for the writer and for the
   characters by role; then facts, rumors and memories, each by the text of the id.
   */
  ghost predicate Precedes(a: Request, b: Request) {
    || (a.mandatory && !b.mandatory)
    || (a.mandatory == b.mandatory && (
         || EarlierOrigin(a.origin, b.origin)
         || (a.origin == b.origin && (
              || EarlierDelivery(a.delivery, b.delivery)
              || (a.delivery == b.delivery && (
                   || EarlierKind(a.target.kind, b.target.kind)
                   || (a.target.kind == b.target.kind && Lexicographic(a.target.Text(), b.target.Text()))))))))
  }

  lemma RequestLeqMeans(a: Request, b: Request)
    ensures RequestLeq(a, b) <==> Precedes(a, b)
  {
    TextLeqIsLexicographic(DeliveryText(a.delivery), DeliveryText(b.delivery));
    TextLeqIsLexicographic(a.target.Text(), b.target.Text());
  }

  /** `r` stands at `i`, and of the requests with its key none is mandatory when it is not, or as good and earlier. */
  ghost predicate Outranks(rs: seq<Request>, i: nat, r: Request) {
    && i < |rs| && rs[i] == r
    && forall j :: 0 <= j < |rs| && rs[j].delivery == r.delivery && rs[j].target == r.target ==>
         && (rs[j].mandatory ==> r.mandatory)
         && (rs[j].mandatory == r.mandatory ==> !EarlierOrigin(rs[j].origin, r.origin))
         && (rs[j].mandatory == r.mandatory && rs[j].origin == r.origin ==> i <= j)
  }

  lemma BestMeans(rs: seq<Request>, i: nat)
    requires i < |rs|
    ensures BestOf(rs, |rs|, i) <==> Outranks(rs, i, rs[i])
  {
    forall j | 0 <= j < |rs|
      ensures Rank(rs[i]) < Rank(rs[j]) || (Rank(rs[i]) == Rank(rs[j]) && i <= j) <==>
        && (rs[j].mandatory ==> rs[i].mandatory)
        && (rs[j].mandatory == rs[i].mandatory ==> !EarlierOrigin(rs[j].origin, rs[i].origin))
        && (rs[j].mandatory == rs[i].mandatory && rs[j].origin == rs[i].origin ==> i <= j)
    {
    }
  }

  /** The list holds, for every delivery and target asked for, the request that outranks the others, in that order. */
  lemma DedupedAndSortedMeans(rs: seq<Request>, out: seq<Request>)
    requires IsBestList(rs, out) && Sorted(out, RequestLeq)
    ensures forall i, j :: 0 <= i < j < |out| ==> Precedes(out[i], out[j])
    ensures forall r :: r in out ==> exists i: nat :: Outranks(rs, i, r)
    ensures forall r :: r in rs ==> exists b :: b in out && b.delivery == r.delivery && b.target == r.target
  {
    forall i, j | 0 <= i < j < |out| ensures Precedes(out[i], out[j]) {
      RequestLeqMeans(out[i], out[j]);
    }
    forall r | r in out ensures exists i: nat :: Outranks(rs, i, r) {
      assert IsBest(rs, r);
      var i: nat :| BestOf(rs, |rs|, i) && rs[i] == r;
      BestMeans(rs, i);
      assert Outranks(rs, i, r);
    }
    forall r | r in rs ensures exists b :: b in out && b.delivery == r.delivery && b.target == r.target {
      var i :| 0 <= i < |rs| && rs[i] == r;
      assert HasKey(out, KeyOf(rs[i]));
    }
  }
}
