/**
 The knowledge change of one committed turn: facts, rumors and role memories.

 Facts and memories can be added and updated; only rumors can also be removed.
 A change is first validated against the current tables and then applied operation
 by operation.
 */
module StoryKnowledge {
  import opened Wrappers

  type Id = string

  datatype Origin = Seed | FromTurn(number: nat)

  datatype Entry = Entry(id: Id, origin: Origin, body: string)

  type Table = map<Id, Entry>

  datatype Op = Add(id: Id, body: string) | Update(id: Id, body: string) | Remove(id: Id)

  /** Fact and memory operations have no `Remove`. */
  type GrowOp = op: Op | !op.Remove? witness Add("", "")

  datatype RoleEntry = RoleEntry(profile: string, memories: Table)

  type Roles = map<Id, RoleEntry>

  datatype MemoryOp = MemoryOp(role: Id, op: GrowOp)

  datatype Change = Change(facts: seq<GrowOp>, rumors: seq<Op>, memories: seq<MemoryOp>)

  datatype Violation =
    | DuplicateId(id: Id)
    | AddExisting(id: Id)
    | TargetMissing(id: Id)
    | UnknownRole(role: Id)

  // ---------------------------------------------------------------- validation

  /** The operation has its target: absent for an addition, present otherwise. */
  predicate Applies(table: Table, op: Op) {
    op.Add? <==> op.id !in table
  }

  ghost predicate DistinctIds(ops: seq<Op>) {
    forall i, j :: 0 <= i < j < |ops| ==> ops[i].id != ops[j].id
  }

  /** What validation accepts: each id at most once, and every operation fits the table as it stands. */
  ghost predicate Fits(table: Table, ops: seq<Op>) {
    DistinctIds(ops) && forall i :: 0 <= i < |ops| ==> Applies(table, ops[i])
  }

  /** `v` is the fault of the first operation that does not fit. */
  ghost predicate FirstFault(table: Table, ops: seq<Op>, v: Violation) {
    exists i :: 0 <= i < |ops| && Fits(table, ops[..i]) && FaultOf(table, ops[..i], ops[i], v)
  }

  ghost predicate FaultOf(table: Table, earlier: seq<Op>, op: Op, v: Violation) {
    match v
    case DuplicateId(id) => id == op.id && exists k :: 0 <= k < |earlier| && earlier[k].id == id
    case AddExisting(id) => id == op.id && op.Add? && id in table
    case TargetMissing(id) => id == op.id && !op.Add? && id !in table
    case UnknownRole(_) => false
  }

  method ValidateOps(table: Table, ops: seq<Op>) returns (fault: Option<Violation>)
    ensures fault.None? <==> Fits(table, ops)
    ensures fault.Some? ==> FirstFault(table, ops, fault.value)
  {
    var seen: set<Id> := {};
    for i := 0 to |ops|
      invariant Fits(table, ops[..i])
      invariant forall id :: id in seen <==> exists k :: 0 <= k < i && ops[k].id == id
    {
      var op := ops[i];
      assert ops[..i + 1] == ops[..i] + [op];
      if op.id in seen {
        var k :| 0 <= k < i && ops[k].id == op.id;
        assert ops[..i][k].id == op.id;
        assert FaultOf(table, ops[..i], op, DuplicateId(op.id));
        return Some(DuplicateId(op.id));
      }
      seen := seen + {op.id};
      if op.Add? {
        if op.id in table {
          assert FaultOf(table, ops[..i], op, AddExisting(op.id));
          return Some(AddExisting(op.id));
        }
      } else if op.id !in table {
        assert FaultOf(table, ops[..i], op, TargetMissing(op.id));
        return Some(TargetMissing(op.id));
      }
    }
    assert ops[..|ops|] == ops;
    fault := None;
  }

  predicate MemoryApplies(roles: Roles, m: MemoryOp) {
    m.role in roles && Applies(roles[m.role].memories, m.op)
  }

  ghost predicate DistinctMemories(ops: seq<MemoryOp>) {
    forall i, j :: 0 <= i < j < |ops| ==> ops[i].role != ops[j].role || ops[i].op.id != ops[j].op.id
  }

  ghost predicate MemoriesFit(roles: Roles, ops: seq<MemoryOp>) {
    DistinctMemories(ops) && forall i :: 0 <= i < |ops| ==> MemoryApplies(roles, ops[i])
  }

  ghost predicate FirstMemoryFault(roles: Roles, ops: seq<MemoryOp>, v: Violation) {
    exists i :: 0 <= i < |ops| && MemoriesFit(roles, ops[..i]) && MemoryFaultOf(roles, ops[..i], ops[i], v)
  }

  ghost predicate MemoryFaultOf(roles: Roles, earlier: seq<MemoryOp>, m: MemoryOp, v: Violation) {
    var repeated := exists k :: 0 <= k < |earlier| && earlier[k].role == m.role && earlier[k].op.id == m.op.id;
    match v
    case DuplicateId(id) => id == m.op.id && repeated
    case UnknownRole(role) => role == m.role && !repeated && role !in roles
    case AddExisting(id) => id == m.op.id && !repeated && m.op.Add? && GetMemory(roles, m.role, id).Some?
    case TargetMissing(id) =>
      id == m.op.id && !repeated && !m.op.Add? && m.role in roles && GetMemory(roles, m.role, id).None?
  }

  lemma MemoryFaultIsNoFit(roles: Roles, ops: seq<MemoryOp>, v: Violation)
    requires FirstMemoryFault(roles, ops, v)
    ensures !MemoriesFit(roles, ops)
  {
    var i :| 0 <= i < |ops| && MemoriesFit(roles, ops[..i]) && MemoryFaultOf(roles, ops[..i], ops[i], v);
    if k :| 0 <= k < i && ops[..i][k].role == ops[i].role && ops[..i][k].op.id == ops[i].op.id {
      assert ops[k] == ops[..i][k];
    } else {
      assert !MemoryApplies(roles, ops[i]);
    }
  }

  method ValidateMemoryOps(roles: Roles, ops: seq<MemoryOp>) returns (fault: Option<Violation>)
    ensures fault.None? <==> MemoriesFit(roles, ops)
    ensures fault.Some? ==> FirstMemoryFault(roles, ops, fault.value)
  {
    var seen: set<(Id, Id)> := {};
    for i := 0 to |ops|
      invariant MemoriesFit(roles, ops[..i])
      invariant forall r, id :: (r, id) in seen <==> exists k :: 0 <= k < i && ops[k].role == r && ops[k].op.id == id
    {
      var m := ops[i];
      assert ops[..i + 1] == ops[..i] + [m];
      assert forall k :: 0 <= k < i ==> ops[..i][k] == ops[k];
      if (m.role, m.op.id) in seen {
        fault := Some(DuplicateId(m.op.id));
      } else if m.role !in roles {
        fault := Some(UnknownRole(m.role));
      } else if m.op.Add? && m.op.id in roles[m.role].memories {
        fault := Some(AddExisting(m.op.id));
      } else if !m.op.Add? && m.op.id !in roles[m.role].memories {
        fault := Some(TargetMissing(m.op.id));
      } else {
        fault := None;
      }
      if fault.Some? {
        assert MemoryFaultOf(roles, ops[..i], m, fault.value);
        MemoryFaultIsNoFit(roles, ops, fault.value);
        return;
      }
      seen := seen + {(m.role, m.op.id)};
    }
    assert ops[..|ops|] == ops;
    fault := None;
  }

  ghost predicate ChangeFits(facts: Table, rumors: Table, roles: Roles, change: Change) {
    Fits(facts, change.facts) && Fits(rumors, change.rumors) && MemoriesFit(roles, change.memories)
  }

  // ---------------------------------------------------------------- application

  function ApplyOp(table: Table, turn: nat, op: Op): Table {
    match op
    case Add(id, body) => table[id := Entry(id, FromTurn(turn), body)]
    case Update(id, body) => if id in table then table[id := table[id].(body := body)] else table
    case Remove(id) => table - {id}
  }

  function ApplyOps(table: Table, turn: nat, ops: seq<Op>): Table {
    if ops == [] then table else ApplyOp(ApplyOps(table, turn, ops[..|ops| - 1]), turn, ops[|ops| - 1])
  }

  function ApplyMemoryOp(roles: Roles, turn: nat, m: MemoryOp): Roles {
    if m.role in roles then
      roles[m.role := roles[m.role].(memories := ApplyOp(roles[m.role].memories, turn, m.op))]
    else roles
  }

  function ApplyMemoryOps(roles: Roles, turn: nat, ops: seq<MemoryOp>): Roles {
    if ops == [] then roles
    else ApplyMemoryOp(ApplyMemoryOps(roles, turn, ops[..|ops| - 1]), turn, ops[|ops| - 1])
  }

  method ApplyAll(table: Table, turn: nat, ops: seq<Op>) returns (result: Table)
    ensures result == ApplyOps(table, turn, ops)
  {
    result := table;
    for i := 0 to |ops|
      invariant result == ApplyOps(table, turn, ops[..i])
    {
      assert ops[..i + 1][..i] == ops[..i];
      match ops[i] {
        case Add(id, body) =>
          result := result[id := Entry(id, FromTurn(turn), body)];
        case Update(id, body) =>
          if id in result {
            result := result[id := result[id].(body := body)];
          }
        case Remove(id) =>
          result := result - {id};
      }
    }
    assert ops[..|ops|] == ops;
  }

  method ApplyAllMemories(roles: Roles, turn: nat, ops: seq<MemoryOp>) returns (result: Roles)
    ensures result == ApplyMemoryOps(roles, turn, ops)
  {
    result := roles;
    for i := 0 to |ops|
      invariant result == ApplyMemoryOps(roles, turn, ops[..i])
    {
      assert ops[..i + 1][..i] == ops[..i];
      var m := ops[i];
      if m.role in result {
        result := result[m.role := result[m.role].(memories := ApplyOp(result[m.role].memories, turn, m.op))];
      }
    }
    assert ops[..|ops|] == ops;
  }

  // ---------------------------------------------------------------- what a change means

  function Get(table: Table, id: Id): Option<Entry> {
    if id in table then Some(table[id]) else None
  }

  function GetMemory(roles: Roles, role: Id, id: Id): Option<Entry> {
    if role in roles then Get(roles[role].memories, id) else None
  }

  /** The entry an accepted operation leaves behind, given the entry it found. */
  function After(found: Option<Entry>, turn: nat, op: Op): Option<Entry> {
    match op
    case Add(id, body) => Some(Entry(id, FromTurn(turn), body))
    case Update(id, body) => if found.Some? then Some(found.value.(body := body)) else None
    case Remove(_) => None
  }

  /** Every operation of a change without repeated ids takes full effect, and nothing else changes. */
  lemma {:induction false} EveryOpTakesEffect(table: Table, turn: nat, ops: seq<Op>)
    requires DistinctIds(ops)
    ensures var out := ApplyOps(table, turn, ops);
            && (forall i :: 0 <= i < |ops| ==> Get(out, ops[i].id) == After(Get(table, ops[i].id), turn, ops[i]))
            && (forall id :: (forall i :: 0 <= i < |ops| ==> ops[i].id != id) ==> Get(out, id) == Get(table, id))
  {
    if ops != [] {
      var init, last := ops[..|ops| - 1], ops[|ops| - 1];
      EveryOpTakesEffect(table, turn, init);
      var mid, out := ApplyOps(table, turn, init), ApplyOps(table, turn, ops);
      assert Get(mid, last.id) == Get(table, last.id);
      forall i | 0 <= i < |ops|
        ensures Get(out, ops[i].id) == After(Get(table, ops[i].id), turn, ops[i])
      {
        if i < |init| {
          assert ops[i] == init[i];
        }
      }
      forall id | forall i :: 0 <= i < |ops| ==> ops[i].id != id
        ensures Get(out, id) == Get(table, id)
      {
        assert forall i :: 0 <= i < |init| ==> init[i] == ops[i];
      }
    }
  }

  lemma OneMemoryOpTakesEffect(roles: Roles, turn: nat, m: MemoryOp, r: Id, id: Id)
    requires m.role in roles
    ensures GetMemory(ApplyMemoryOp(roles, turn, m), r, id) ==
            if r == m.role && id == m.op.id then After(GetMemory(roles, r, id), turn, m.op)
            else GetMemory(roles, r, id)
  {
  }

  lemma {:induction false} EveryMemoryOpTakesEffect(roles: Roles, turn: nat, ops: seq<MemoryOp>)
    requires DistinctMemories(ops)
    requires forall i :: 0 <= i < |ops| ==> ops[i].role in roles
    ensures var out := ApplyMemoryOps(roles, turn, ops);
            && out.Keys == roles.Keys
            && (forall r :: r in roles ==> out[r].profile == roles[r].profile)
            && (forall i :: 0 <= i < |ops| ==>
                  GetMemory(out, ops[i].role, ops[i].op.id) ==
                  After(GetMemory(roles, ops[i].role, ops[i].op.id), turn, ops[i].op))
            && (forall r, id :: (forall i :: 0 <= i < |ops| ==> !(ops[i].role == r && ops[i].op.id == id)) ==>
                  GetMemory(out, r, id) == GetMemory(roles, r, id))
  {
    if ops != [] {
      var init, last := ops[..|ops| - 1], ops[|ops| - 1];
      EveryMemoryOpTakesEffect(roles, turn, init);
      var mid, out := ApplyMemoryOps(roles, turn, init), ApplyMemoryOps(roles, turn, ops);
      forall r, id
        ensures GetMemory(out, r, id) ==
                if r == last.role && id == last.op.id then After(GetMemory(mid, r, id), turn, last.op)
                else GetMemory(mid, r, id)
      {
        OneMemoryOpTakesEffect(mid, turn, last, r, id);
      }
      forall i | 0 <= i < |ops|
        ensures GetMemory(out, ops[i].role, ops[i].op.id) ==
                After(GetMemory(roles, ops[i].role, ops[i].op.id), turn, ops[i].op)
      {
        if i < |init| {
          assert ops[i] == init[i];
        }
      }
    }
  }

  lemma SamePointsSameTable(a: Table, b: Table)
    requires forall id :: Get(a, id) == Get(b, id)
    ensures a == b
  {
    forall id ensures id in a <==> id in b {
      assert Get(a, id) == Get(b, id);
    }
    forall id | id in a ensures a[id] == b[id] {
      assert Get(a, id) == Get(b, id);
    }
  }

  lemma PermutedIndex<T>(xs: seq<T>, ys: seq<T>, i: nat) returns (j: nat)
    requires multiset(xs) == multiset(ys) && i < |xs|
    ensures j < |ys| && ys[j] == xs[i]
  {
    assert xs[i] in multiset(ys);
    j :| 0 <= j < |ys| && ys[j] == xs[i];
  }

  /** Validation does not depend on the order of the operations. */
  lemma FitsInAnyOrder(table: Table, ops: seq<Op>, ops': seq<Op>)
    requires multiset(ops) == multiset(ops') && Fits(table, ops)
    ensures Fits(table, ops')
  {
    forall i | 0 <= i < |ops'|
      ensures Applies(table, ops'[i])
    {
      var j := PermutedIndex(ops', ops, i);
    }
    forall i, j | 0 <= i < j < |ops'|
      ensures ops'[i].id != ops'[j].id
    {
      if ops'[i].id == ops'[j].id {
        var a := PermutedIndex(ops', ops, i);
        var b := PermutedIndex(ops', ops, j);
        assert a == b;
        RepeatCounted(ops', i, j);
        OnceCounted(ops, a);
      }
    }
  }

  lemma {:induction false} RepeatCounted<T>(xs: seq<T>, i: nat, j: nat)
    requires i < j < |xs| && xs[i] == xs[j]
    ensures multiset(xs)[xs[i]] >= 2
  {
    assert xs == xs[..i] + [xs[i]] + xs[i + 1..j] + [xs[j]] + xs[j + 1..];
  }

  lemma {:induction false} OnceCounted<T>(xs: seq<T>, a: nat)
    requires a < |xs| && forall i :: 0 <= i < |xs| && i != a ==> xs[i] != xs[a]
    ensures multiset(xs)[xs[a]] == 1
  {
    assert xs == xs[..a] + [xs[a]] + xs[a + 1..];
    assert xs[a] !in xs[..a] && xs[a] !in xs[a + 1..];
  }

  /** A validated change gives the same table for every permutation of its operations. */
  lemma OrderDoesNotMatter(table: Table, turn: nat, ops: seq<Op>, ops': seq<Op>)
    requires multiset(ops) == multiset(ops') && Fits(table, ops)
    ensures ApplyOps(table, turn, ops) == ApplyOps(table, turn, ops')
  {
    FitsInAnyOrder(table, ops, ops');
    EveryOpTakesEffect(table, turn, ops);
    EveryOpTakesEffect(table, turn, ops');
    var a, b := ApplyOps(table, turn, ops), ApplyOps(table, turn, ops');
    forall id
      ensures Get(a, id) == Get(b, id)
    {
      if i :| 0 <= i < |ops| && ops[i].id == id {
        var j := PermutedIndex(ops, ops', i);
      } else if j :| 0 <= j < |ops'| && ops'[j].id == id {
        var i := PermutedIndex(ops', ops, j);
        assert false;
      }
    }
    SamePointsSameTable(a, b);
  }

  lemma MemoriesFitInAnyOrder(roles: Roles, ops: seq<MemoryOp>, ops': seq<MemoryOp>)
    requires multiset(ops) == multiset(ops') && MemoriesFit(roles, ops)
    ensures MemoriesFit(roles, ops')
  {
    forall i | 0 <= i < |ops'|
      ensures MemoryApplies(roles, ops'[i])
    {
      var j := PermutedIndex(ops', ops, i);
    }
    forall i, j | 0 <= i < j < |ops'|
      ensures ops'[i].role != ops'[j].role || ops'[i].op.id != ops'[j].op.id
    {
      if ops'[i].role == ops'[j].role && ops'[i].op.id == ops'[j].op.id {
        var a := PermutedIndex(ops', ops, i);
        var b := PermutedIndex(ops', ops, j);
        assert a == b;
        RepeatCounted(ops', i, j);
        OnceCounted(ops, a);
      }
    }
  }

  lemma MemoryOrderDoesNotMatter(roles: Roles, turn: nat, ops: seq<MemoryOp>, ops': seq<MemoryOp>)
    requires multiset(ops) == multiset(ops') && MemoriesFit(roles, ops)
    ensures ApplyMemoryOps(roles, turn, ops) == ApplyMemoryOps(roles, turn, ops')
  {
    MemoriesFitInAnyOrder(roles, ops, ops');
    EveryMemoryOpTakesEffect(roles, turn, ops);
    EveryMemoryOpTakesEffect(roles, turn, ops');
    var a, b := ApplyMemoryOps(roles, turn, ops), ApplyMemoryOps(roles, turn, ops');
    forall r | r in roles
      ensures a[r] == b[r]
    {
      forall id
        ensures Get(a[r].memories, id) == Get(b[r].memories, id)
      {
        assert Get(a[r].memories, id) == GetMemory(a, r, id) && Get(b[r].memories, id) == GetMemory(b, r, id);
        if i :| 0 <= i < |ops| && ops[i].role == r && ops[i].op.id == id {
          var j := PermutedIndex(ops, ops', i);
        } else if j :| 0 <= j < |ops'| && ops'[j].role == r && ops'[j].op.id == id {
          var i := PermutedIndex(ops', ops, j);
          assert false;
        }
      }
      SamePointsSameTable(a[r].memories, b[r].memories);
    }
  }

  // ---------------------------------------------------------------- what is never lost

  /** `later` still has every entry of `earlier`, with the same id and origin. */
  ghost predicate Keeps(earlier: Table, later: Table) {
    forall id :: id in earlier ==>
      id in later && later[id].origin == earlier[id].origin && later[id].id == earlier[id].id
  }

  ghost predicate KeepsMemories(earlier: Roles, later: Roles) {
    && earlier.Keys == later.Keys
    && forall r :: r in earlier ==> Keeps(earlier[r].memories, later[r].memories)
  }

  lemma GrowingKeepsEntries(table: Table, turn: nat, ops: seq<GrowOp>)
    requires Fits(table, ops)
    ensures Keeps(table, ApplyOps(table, turn, ops))
  {
    EveryOpTakesEffect(table, turn, ops);
    var out := ApplyOps(table, turn, ops);
    forall id | id in table
      ensures id in out && out[id].origin == table[id].origin && out[id].id == table[id].id
    {
      if i :| 0 <= i < |ops| && ops[i].id == id {
        assert Applies(table, ops[i]);
        assert Get(out, ops[i].id) == After(Get(table, ops[i].id), turn, ops[i]);
      } else {
        assert Get(out, id) == Get(table, id);
      }
    }
  }

  lemma GrowingKeepsMemories(roles: Roles, turn: nat, ops: seq<MemoryOp>)
    requires MemoriesFit(roles, ops)
    ensures KeepsMemories(roles, ApplyMemoryOps(roles, turn, ops))
  {
    EveryMemoryOpTakesEffect(roles, turn, ops);
    var out := ApplyMemoryOps(roles, turn, ops);
    forall r, id | r in roles && id in roles[r].memories
      ensures id in out[r].memories && out[r].memories[id].origin == roles[r].memories[id].origin
      ensures out[r].memories[id].id == roles[r].memories[id].id
    {
      assert GetMemory(roles, r, id).Some?;
      if i :| 0 <= i < |ops| && ops[i].role == r && ops[i].op.id == id {
        assert MemoryApplies(roles, ops[i]);
        assert GetMemory(out, r, id) == After(GetMemory(roles, r, id), turn, ops[i].op);
      } else {
        assert GetMemory(out, r, id) == GetMemory(roles, r, id);
      }
    }
  }
}
