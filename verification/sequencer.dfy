/** sortOperations of scripts/upload-flows.js: a depth-first ordering of a flow's operations
    along their resolve and reject edges, so that an operation is uploaded after the
    operations it points to.

    The traversal appends an operation only after visiting its targets and keeps no mark
    while a visit is in progress, so a cycle of in-set edges recurses until the JavaScript
    call stack is exhausted and a RangeError is raised. The model makes the call stack a
    parameter, `depth`: the number of nested addOperation calls the engine still allows.
    A visit that runs out of depth yields None, the RangeError. */
module Sequencer {
  import opened Records

  /** The ids of a sequence of operations. */
  function Ids(s: seq<Operation>): set<string>
  {
    set op | op in s :: op.id
  }

  /** The operationMap of sortOperations: every id of `ops`, mapped to the LAST operation
      carrying it (Map.set overwrites an earlier entry). */
  function OperationMap(ops: seq<Operation>): map<string, Operation>
  {
    if ops == [] then map[]
    else OperationMap(ops[..|ops| - 1])[ops[|ops| - 1].id := ops[|ops| - 1]]
  }

  /** The map of sortOperations has a key for every id of the flow, and each key maps to an
      operation of the flow carrying that id. */
  lemma {:induction false} OperationMapKeyed(ops: seq<Operation>)
    ensures var m := OperationMap(ops);
      m.Keys == Ids(ops) && forall id :: id in m ==> m[id].id == id && m[id] in ops
    decreases |ops|
  {
    if ops != [] {
      var init, last := ops[..|ops| - 1], ops[|ops| - 1];
      assert ops == init + [last];
      OperationMapKeyed(init);
    }
  }

  /** Whether sortOperations follows an edge: the reference is truthy and names an id of the map. */
  predicate Follows(ref: Option<string>, m: map<string, Operation>)
  {
    Present(ref) && ref.value in m
  }

  /** The targets of an operation's edges that sortOperations follows. */
  function Deps(m: map<string, Operation>, op: Operation): set<string>
  {
    (if Follows(op.resolve, m) then {op.resolve.value} else {}) +
    (if Follows(op.reject, m) then {op.reject.value} else {})
  }

  /** addOperation(id) with `out` as sortedOperations and `depth` call frames left:
      first its resolve target, then its reject target, then the operation itself. */
  function Visit(m: map<string, Operation>, id: string, out: seq<Operation>, depth: nat): Option<seq<Operation>>
    decreases depth, 1
  {
    if depth == 0 then None
    else if id !in m then Some(out)
    else
      match Follow(m, m[id].resolve, out, depth - 1)
      case None => None
      case Some(afterResolve) =>
        match Follow(m, m[id].reject, afterResolve, depth - 1)
        case None => None
        case Some(afterReject) => Some(Append(afterReject, m[id]))
  }

  /** The recursive call addOperation makes for one edge, when it follows that edge. */
  function Follow(m: map<string, Operation>, ref: Option<string>, out: seq<Operation>, depth: nat): Option<seq<Operation>>
    decreases depth, 2
  {
    if Follows(ref, m) then Visit(m, ref.value, out, depth) else Some(out)
  }

  /** The push of addOperation, guarded by the `includes` test (compared by id). */
  function Append(out: seq<Operation>, op: Operation): seq<Operation>
  {
    if op.id in Ids(out) then out else out + [op]
  }

  /** The final forEach of sortOperations over the operations still to visit. */
  function Sweep(m: map<string, Operation>, rest: seq<Operation>, out: seq<Operation>, depth: nat): Option<seq<Operation>>
  {
    if rest == [] then Some(out)
    else
      match Visit(m, rest[0].id, out, depth)
      case None => None
      case Some(next) => Sweep(m, rest[1..], next, depth)
  }

  /** The result of sortOperations(ops), or None when it raises a RangeError. */
  function Sequenced(ops: seq<Operation>, depth: nat): Option<seq<Operation>>
  {
    Sweep(OperationMap(ops), ops, [], depth)
  }

  /** No id occurs twice. */
  ghost predicate DistinctIds(s: seq<Operation>)
  {
    forall i, j :: 0 <= i < j < |s| ==> s[i].id != s[j].id
  }

  /** Every element is the map's entry for its own id. */
  ghost predicate FromMap(m: map<string, Operation>, s: seq<Operation>)
  {
    forall i :: 0 <= i < |s| ==> s[i].id in m && m[s[i].id] == s[i]
  }

  /** Every followed edge points to an operation placed earlier. */
  ghost predicate DependenciesFirst(m: map<string, Operation>, s: seq<Operation>)
  {
    forall i :: 0 <= i < |s| ==> Deps(m, s[i]) <= Ids(s[..i])
  }

  ghost predicate Placed(m: map<string, Operation>, s: seq<Operation>)
  {
    FromMap(m, s) && DistinctIds(s) && DependenciesFirst(m, s)
  }

  /** A rank that strictly decreases along every followed edge: a witness that the
      followed edges have no cycle. */
  ghost predicate Ranked(m: map<string, Operation>, rank: map<string, nat>)
  {
    forall id :: id in m ==> id in rank && forall d :: d in Deps(m, m[id]) ==> d in rank && rank[d] < rank[id]
  }

  /** A non-empty set of ids each of which has a followed edge back into the set: what a
      cycle of followed edges (a self-loop included) gives. */
  ghost predicate Closed(m: map<string, Operation>, cycle: set<string>)
  {
    cycle != {} && cycle <= m.Keys &&
    forall id :: id in cycle ==> EdgeInto(m, m[id].resolve, cycle) || EdgeInto(m, m[id].reject, cycle)
  }

  ghost predicate EdgeInto(m: map<string, Operation>, ref: Option<string>, targets: set<string>)
  {
    Follows(ref, m) && ref.value in targets
  }

  /** Every entry of the map is filed under its own id, as in the map OperationMap builds. */
  ghost predicate KeyedById(m: map<string, Operation>)
  {
    forall id :: id in m ==> m[id].id == id
  }

  lemma IdsOfPrefix(s: seq<Operation>, t: seq<Operation>)
    requires s <= t
    ensures Ids(s) <= Ids(t)
  {
    forall x | x in Ids(s) ensures x in Ids(t) {
      var op :| op in s && op.id == x;
      var i :| 0 <= i < |s| && s[i] == op;
      assert t[i] == op;
    }
  }

  /** The push keeps the output placed when every followed target of the map's entry is placed. */
  lemma AppendPlaced(m: map<string, Operation>, out: seq<Operation>, op: Operation)
    requires Placed(m, out)
    requires op.id in m && m[op.id] == op && Deps(m, op) <= Ids(out)
    ensures var r := Append(out, op); Placed(m, r) && out <= r && op.id in Ids(r)
  {
    if op.id !in Ids(out) {
      var r := out + [op];
      forall i | 0 <= i < |r| ensures Deps(m, r[i]) <= Ids(r[..i]) {
        if i == |out| {
          assert r[..i] == out;
        } else {
          assert r[..i] == out[..i];
        }
      }
      forall i, j | 0 <= i < j < |r| ensures r[i].id != r[j].id {
        if j == |out| {
          assert r[i] in out;
          assert r[i].id in Ids(out);
        }
      }
      assert op in r;
    }
  }

  /** A visit that completes keeps the output placed, only appends to it, and places `id`. */
  lemma {:induction false} VisitPlaces(m: map<string, Operation>, id: string, out: seq<Operation>, depth: nat)
    requires KeyedById(m) && Placed(m, out)
    requires Visit(m, id, out, depth).Some?
    ensures var r := Visit(m, id, out, depth).value;
      Placed(m, r) && out <= r && (id in m ==> id in Ids(r))
    decreases depth, 1
  {
    if id in m {
      var op := m[id];
      FollowPlaces(m, op.resolve, out, depth - 1);
      var o1 := Follow(m, op.resolve, out, depth - 1).value;
      FollowPlaces(m, op.reject, o1, depth - 1);
      var o2 := Follow(m, op.reject, o1, depth - 1).value;
      IdsOfPrefix(o1, o2);
      AppendPlaced(m, o2, op);
    }
  }

  lemma {:induction false} FollowPlaces(m: map<string, Operation>, ref: Option<string>, out: seq<Operation>, depth: nat)
    requires KeyedById(m) && Placed(m, out)
    requires Follow(m, ref, out, depth).Some?
    ensures var r := Follow(m, ref, out, depth).value;
      Placed(m, r) && out <= r && (Follows(ref, m) ==> ref.value in Ids(r))
    decreases depth, 2
  {
    if Follows(ref, m) {
      VisitPlaces(m, ref.value, out, depth);
    }
  }

  /** A completed sweep keeps the output placed and places every id of the swept operations. */
  lemma {:induction false} SweepPlaces(m: map<string, Operation>, rest: seq<Operation>, out: seq<Operation>, depth: nat)
    requires KeyedById(m) && Placed(m, out)
    requires Ids(rest) <= m.Keys
    requires Sweep(m, rest, out, depth).Some?
    ensures var r := Sweep(m, rest, out, depth).value;
      Placed(m, r) && Ids(out) + Ids(rest) <= Ids(r)
  {
    if rest != [] {
      assert rest[0] in rest;
      VisitPlaces(m, rest[0].id, out, depth);
      var next := Visit(m, rest[0].id, out, depth).value;
      IdsOfPrefix(out, next);
      assert Ids(rest) == {rest[0].id} + Ids(rest[1..]) by {
        assert rest == [rest[0]] + rest[1..];
      }
      SweepPlaces(m, rest[1..], next, depth);
    }
  }

  lemma {:induction false} DistinctCount(s: seq<Operation>)
    requires DistinctIds(s)
    ensures |Ids(s)| == |s|
  {
    if s != [] {
      var init := s[..|s| - 1];
      assert s == init + [s[|s| - 1]];
      assert Ids(s) == Ids(init) + {s[|s| - 1].id};
      assert s[|s| - 1].id !in Ids(init);
      DistinctCount(init);
    }
  }

  /** What sortOperations returns when it completes: the map's entries, each id once, every
      followed target before the operation pointing to it, and exactly one entry per
      distinct id of the input. */
  lemma SequencedPlaces(ops: seq<Operation>, depth: nat)
    requires Sequenced(ops, depth).Some?
    ensures var r := Sequenced(ops, depth).value;
      FromMap(OperationMap(ops), r) && DistinctIds(r) && DependenciesFirst(OperationMap(ops), r) &&
      Ids(r) == Ids(ops) && |r| == |Ids(ops)|
  {
    var m := OperationMap(ops);
    OperationMapKeyed(ops);
    SweepPlaces(m, ops, [], depth);
    var r := Sequenced(ops, depth).value;
    forall x | x in Ids(r) ensures x in Ids(ops) {
      var op :| op in r && op.id == x;
      var i :| 0 <= i < |r| && r[i] == op;
    }
    DistinctCount(r);
  }

  /** A later operation with the same id replaces an earlier one in the map. */
  lemma {:induction false} LastOccurrenceWins(ops: seq<Operation>, i: nat)
    requires i < |ops|
    requires forall j :: i < j < |ops| ==> ops[j].id != ops[i].id
    ensures ops[i].id in OperationMap(ops) && OperationMap(ops)[ops[i].id] == ops[i]
  {
    OperationMapKeyed(ops);
    if i < |ops| - 1 {
      var init := ops[..|ops| - 1];
      LastOccurrenceWins(init, i);
    }
  }

  /** With a rank below the available depth, a visit of a mapped id never runs out of stack. */
  lemma {:induction false} VisitCompletes(m: map<string, Operation>, rank: map<string, nat>, id: string, out: seq<Operation>, depth: nat)
    requires Ranked(m, rank)
    requires id in m && id in rank && rank[id] < depth
    ensures Visit(m, id, out, depth).Some?
    decreases depth, 1
  {
    var op := m[id];
    assert Follows(op.resolve, m) ==> op.resolve.value in Deps(m, op);
    assert Follows(op.reject, m) ==> op.reject.value in Deps(m, op);
    FollowCompletes(m, rank, op.resolve, out, depth - 1);
    FollowCompletes(m, rank, op.reject, Follow(m, op.resolve, out, depth - 1).value, depth - 1);
  }

  lemma {:induction false} FollowCompletes(m: map<string, Operation>, rank: map<string, nat>, ref: Option<string>, out: seq<Operation>, depth: nat)
    requires Ranked(m, rank)
    requires Follows(ref, m) ==> ref.value in rank && rank[ref.value] < depth
    ensures Follow(m, ref, out, depth).Some?
    decreases depth, 2
  {
    if Follows(ref, m) {
      VisitCompletes(m, rank, ref.value, out, depth);
    }
  }

  lemma {:induction false} SweepCompletes(m: map<string, Operation>, rank: map<string, nat>, rest: seq<Operation>, out: seq<Operation>, depth: nat)
    requires Ranked(m, rank)
    requires forall id :: id in rank ==> rank[id] < depth
    requires Ids(rest) <= m.Keys
    ensures Sweep(m, rest, out, depth).Some?
  {
    if rest != [] {
      assert rest[0] in rest;
      VisitCompletes(m, rank, rest[0].id, out, depth);
      assert Ids(rest[1..]) <= Ids(rest) by {
        forall x | x in Ids(rest[1..]) ensures x in Ids(rest) {
          var op :| op in rest[1..] && op.id == x;
          assert op in rest;
        }
      }
      SweepCompletes(m, rank, rest[1..], Visit(m, rest[0].id, out, depth).value, depth);
    }
  }

  lemma {:induction false} DistinctAsMultiset(s: seq<Operation>)
    requires DistinctIds(s)
    ensures multiset(s) == multiset(set op | op in s)
    decreases |s|
  {
    if s != [] {
      var init, last := s[..|s| - 1], s[|s| - 1];
      assert s == init + [last];
      assert DistinctIds(init) by {
        forall i, j | 0 <= i < j < |init| ensures init[i].id != init[j].id {
          assert init[i] == s[i] && init[j] == s[j];
        }
      }
      DistinctAsMultiset(init);
      assert last !in init by {
        forall i | 0 <= i < |init| ensures init[i] != last {
          assert init[i] == s[i];
        }
      }
      var before := set op | op in init;
      assert (set op | op in s) == before + {last};
      MultisetOfSetAdd(before, last);
    }
  }

  /** Adding a new element to a set adds it once to the set's multiset. */
  lemma MultisetOfSetAdd(a: set<Operation>, x: Operation)
    requires x !in a
    ensures multiset(a + {x}) == multiset(a) + multiset{x}
  {
  }

  /** With unique ids, a completed sort holds exactly the operations of its input. */
  lemma SequencedElements(ops: seq<Operation>, depth: nat)
    requires DistinctIds(ops)
    requires Sequenced(ops, depth).Some?
    ensures forall x :: x in Sequenced(ops, depth).value <==> x in ops
  {
    var m := OperationMap(ops);
    OperationMapKeyed(ops);
    SequencedPlaces(ops, depth);
    var r := Sequenced(ops, depth).value;
    forall i | 0 <= i < |ops| ensures m[ops[i].id] == ops[i] {
      LastOccurrenceWins(ops, i);
    }
    forall x | x in r ensures x in ops {
      var i :| 0 <= i < |r| && r[i] == x;
      assert x.id in Ids(ops);
      var y :| y in ops && y.id == x.id;
      var k :| 0 <= k < |ops| && ops[k] == y;
    }
    forall y | y in ops ensures y in r {
      var k :| 0 <= k < |ops| && ops[k] == y;
      assert y.id in Ids(r);
      var x :| x in r && x.id == y.id;
      var i :| 0 <= i < |r| && r[i] == x;
    }
  }

  /** Two sequences without repeated ids that hold the same operations are permutations of each other. */
  lemma SameElementsPermute(r: seq<Operation>, s: seq<Operation>)
    requires DistinctIds(r) && DistinctIds(s)
    requires forall x :: x in r <==> x in s
    ensures multiset(r) == multiset(s)
  {
    DistinctAsMultiset(r);
    DistinctAsMultiset(s);
    assert (set op | op in r) == (set op | op in s);
  }

  /** If the followed edges are ranked within the available depth and the ids are unique,
      sortOperations completes and returns a permutation of its input in which every followed
      target comes before the operation pointing to it. */
  lemma AcyclicSortIsPermutation(ops: seq<Operation>, rank: map<string, nat>, depth: nat)
    requires DistinctIds(ops)
    requires Ranked(OperationMap(ops), rank)
    requires forall id :: id in rank ==> rank[id] < depth
    ensures Sequenced(ops, depth).Some?
    ensures multiset(Sequenced(ops, depth).value) == multiset(ops)
    ensures DependenciesFirst(OperationMap(ops), Sequenced(ops, depth).value)
  {
    OperationMapKeyed(ops);
    SweepCompletes(OperationMap(ops), rank, ops, [], depth);
    SequencedPlaces(ops, depth);
    SequencedElements(ops, depth);
    SameElementsPermute(Sequenced(ops, depth).value, ops);
  }

  /** Entering any id of a closed set never returns: the recursion exhausts every depth. */
  lemma {:induction false} VisitOverflows(m: map<string, Operation>, cycle: set<string>, id: string, out: seq<Operation>, depth: nat)
    requires Closed(m, cycle) && id in cycle
    ensures Visit(m, id, out, depth) == None
    decreases depth
  {
    if depth > 0 {
      var op := m[id];
      if EdgeInto(m, op.resolve, cycle) {
        VisitOverflows(m, cycle, op.resolve.value, out, depth - 1);
        assert Follow(m, op.resolve, out, depth - 1) == None;
      } else if Follow(m, op.resolve, out, depth - 1).Some? {
        var o1 := Follow(m, op.resolve, out, depth - 1).value;
        assert EdgeInto(m, op.reject, cycle);
        VisitOverflows(m, cycle, op.reject.value, o1, depth - 1);
        assert Follow(m, op.reject, o1, depth - 1) == None;
      }
    }
  }

  lemma {:induction false} SweepOverflows(m: map<string, Operation>, cycle: set<string>, rest: seq<Operation>, k: nat, out: seq<Operation>, depth: nat)
    requires Closed(m, cycle)
    requires k < |rest| && rest[k].id in cycle
    ensures Sweep(m, rest, out, depth) == None
  {
    if k == 0 {
      VisitOverflows(m, cycle, rest[0].id, out, depth);
    } else {
      match Visit(m, rest[0].id, out, depth)
      case None =>
      case Some(next) => SweepOverflows(m, cycle, rest[1..], k - 1, next, depth);
    }
  }

  /** A cycle of followed edges makes sortOperations raise a RangeError, whatever the stack size. */
  lemma CycleOverflows(ops: seq<Operation>, cycle: set<string>, depth: nat)
    requires Closed(OperationMap(ops), cycle)
    ensures Sequenced(ops, depth) == None
  {
    var id :| id in cycle;
    OperationMapKeyed(ops);
    assert id in Ids(ops);
    var op :| op in ops && op.id == id;
    var k :| 0 <= k < |ops| && ops[k] == op;
    SweepOverflows(OperationMap(ops), cycle, ops, k, [], depth);
  }

  /** The two-operation cycle A -> B -> A on resolve edges overflows for every stack size. */
  lemma MutualResolveOverflows(a: Operation, b: Operation, depth: nat)
    requires a.id == "a" && a.resolve == Some("b")
    requires b.id == "b" && b.resolve == Some("a")
    ensures Sequenced([a, b], depth) == None
  {
    var m := OperationMap([a, b]);
    assert [a, b][..1] == [a] && [a][..0] == [];
    assert OperationMap([a]) == map["a" := a];
    assert m == map["a" := a, "b" := b];
    assert "b" in Deps(m, m["a"]) && "a" in Deps(m, m["b"]);
    CycleOverflows([a, b], {"a", "b"}, depth);
  }

  /** The callback sortOperations hands to operations.forEach, with the array it pushes to. */
  class OperationSorter {
    const operationMap: map<string, Operation>
    var sortedOperations: seq<Operation>

    constructor (operations: seq<Operation>)
      ensures operationMap == OperationMap(operations)
      ensures sortedOperations == []
    {
      var m: map<string, Operation> := map[];
      for i := 0 to |operations|
        invariant m == OperationMap(operations[..i])
      {
        assert operations[..i + 1][..i] == operations[..i];
        m := m[operations[i].id := operations[i]];
      }
      assert operations[..|operations|] == operations;
      operationMap := m;
      sortedOperations := [];
    }

    /** addOperation: returns false when the call stack runs out (the RangeError). */
    method AddOperation(operationId: string, depth: nat) returns (completed: bool)
      modifies this
      decreases depth
      ensures completed == Visit(operationMap, operationId, old(sortedOperations), depth).Some?
      ensures completed ==> Visit(operationMap, operationId, old(sortedOperations), depth) == Some(sortedOperations)
    {
      if depth == 0 {
        return false;
      }
      if operationId !in operationMap {
        return true;
      }
      var operation := operationMap[operationId];
      if Follows(operation.resolve, operationMap) {
        completed := AddOperation(operation.resolve.value, depth - 1);
        if !completed {
          return;
        }
      }
      if Follows(operation.reject, operationMap) {
        completed := AddOperation(operation.reject.value, depth - 1);
        if !completed {
          return;
        }
      }
      if operation.id !in Ids(sortedOperations) {
        sortedOperations := sortedOperations + [operation];
      }
      return true;
    }
  }

  /** sortOperations(operations); None stands for the RangeError of an exhausted stack. */
  method SortOperations(operations: seq<Operation>, depth: nat) returns (sorted: Option<seq<Operation>>)
    ensures sorted == Sequenced(operations, depth)
  {
    var sorter := new OperationSorter(operations);
    for i := 0 to |operations|
      invariant Sequenced(operations, depth) == Sweep(sorter.operationMap, operations[i..], sorter.sortedOperations, depth)
    {
      assert operations[i..][1..] == operations[i + 1..];
      var completed := sorter.AddOperation(operations[i].id, depth);
      if !completed {
        return None;
      }
    }
    return Some(sorter.sortedOperations);
  }
}
