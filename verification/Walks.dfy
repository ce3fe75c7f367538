/**
 The two traversals of the evaluator as functions. The shared visited set and the
 `truncated` and `excluded` flags, which the source mutates, are threaded through the
 results; module Evaluator proves the in-place versions equal to these.
 */
module Walks {
  import opened Prelude
  import opened Refs
  import opened Usersets
  import opened Snapshots

  const MAX_USERSET_DEPTH := 10

  datatype GrantCode =
    | GrantDirect | GrantUserset | GrantIndexedUserset | GrantComputedUserset
    | GrantTupleToUserset | GrantIntersection | GrantExclusion

  datatype Grant = Grant(code: GrantCode, path: seq<TupleKey>)

  datatype Walk = Walk(grant: Option<Grant>, visited: set<Node>, truncated: bool)

  // Hops left before the depth bound cuts the walk.
  ghost function Fuel(depth: nat): nat {
    if depth > MAX_USERSET_DEPTH then 0 else MAX_USERSET_DEPTH + 1 - depth
  }

  // The index answers for this userset within the remaining depth.
  predicate IndexGrants(s: Snapshot, set_: Node, target: EntityRef, depth: nat) {
    var indexed := DepthOf(s.memberships, set_, target);
    indexed.Some? && depth + 1 + indexed.value <= MAX_USERSET_DEPTH
  }

  function Derive(s: Snapshot, n: Node, target: EntityRef, depth: nat, visited: set<Node>): (w: Walk)
    requires Ranked(s.graph.namespaces)
    ensures visited <= w.visited
    decreases Fuel(depth), NodeRank(s.graph.namespaces, n), 2
  {
    if depth > MAX_USERSET_DEPTH then Walk(None, visited, true)
    else if n in visited then Walk(None, visited, false)
    else
      RewriteIsBelow(s.graph, n);
      DeriveRewrite(s, n, RewriteOf(s.graph, n), target, depth, visited + {n})
  }

  function DeriveRewrite(s: Snapshot, n: Node, u: Userset, target: EntityRef, depth: nat, visited: set<Node>): (w: Walk)
    requires Ranked(s.graph.namespaces) && Below(s.graph.namespaces, n, u) && depth <= MAX_USERSET_DEPTH
    ensures visited <= w.visited
    decreases Fuel(depth), NodeRank(s.graph.namespaces, n), 1, u
  {
    match u
    case This =>
      var subjects := SubjectsOf(s.graph.tuples, n);
      if Direct(target) in subjects then
        Walk(Some(Grant(GrantDirect, [TupleKey(n.entity, n.relation, Direct(target))])), visited, false)
      else DeriveUsersets(s, n, subjects, target, depth, visited)
    case Computed(r) =>
      var w := Derive(s, Node(n.entity, r), target, depth, visited);
      if w.grant.Some? then w.(grant := Some(Grant(GrantComputedUserset, w.grant.value.path))) else w
    case TupleToUserset(tupleset, computed) =>
      DeriveParents(s, Node(n.entity, tupleset), SubjectsOf(s.graph.tuples, Node(n.entity, tupleset)), computed,
                    target, depth, visited)
    case Union(cs) => DeriveUnion(s, n, cs, target, depth, visited)
    case Intersection(cs) => DeriveIntersection(s, n, cs, [], target, depth).(visited := visited)
    case Exclusion(b, sub) =>
      var base := DeriveRewrite(s, n, b, target, depth, {});
      if base.truncated then Walk(None, visited, true)
      else if base.grant.None? then Walk(None, visited, false)
      else
        var subtract := DeriveRewrite(s, n, sub, target, depth, {});
        if subtract.truncated then Walk(None, visited, true)
        else if subtract.grant.Some? then Walk(None, visited, false)
        else Walk(Some(Grant(GrantExclusion, base.grant.value.path)), visited, false)
  }

  function DeriveUsersets(s: Snapshot, n: Node, subjects: seq<Subject>, target: EntityRef, depth: nat,
                          visited: set<Node>): (w: Walk)
    requires Ranked(s.graph.namespaces) && depth <= MAX_USERSET_DEPTH
    ensures visited <= w.visited
    decreases Fuel(depth), NodeRank(s.graph.namespaces, n), 0, |subjects|
  {
    if subjects == [] then Walk(None, visited, false)
    else if subjects[0].Direct? then DeriveUsersets(s, n, subjects[1..], target, depth, visited)
    else
      var key := TupleKey(n.entity, n.relation, subjects[0]);
      if IndexGrants(s, NodeOf(subjects[0]), target, depth) then
        Walk(Some(Grant(GrantIndexedUserset, [key])), visited, false)
      else
        var w := Derive(s, NodeOf(subjects[0]), target, depth + 1, visited);
        if w.grant.Some? then w.(grant := Some(Grant(GrantUserset, [key] + w.grant.value.path)))
        else
          var rest := DeriveUsersets(s, n, subjects[1..], target, depth, w.visited);
          rest.(truncated := w.truncated || rest.truncated)
  }

  function DeriveParents(s: Snapshot, tuplesetNode: Node, subjects: seq<Subject>, computed: string, target: EntityRef,
                         depth: nat, visited: set<Node>): (w: Walk)
    requires Ranked(s.graph.namespaces) && depth <= MAX_USERSET_DEPTH
    ensures visited <= w.visited
    decreases Fuel(depth), 0, 0, |subjects|
  {
    if subjects == [] then Walk(None, visited, false)
    else if subjects[0].UsersetOf? then
      DeriveParents(s, tuplesetNode, subjects[1..], computed, target, depth, visited)
    else
      var w := Derive(s, Node(subjects[0].ref, computed), target, depth + 1, visited);
      if w.grant.Some? then
        var key := TupleKey(tuplesetNode.entity, tuplesetNode.relation, subjects[0]);
        w.(grant := Some(Grant(GrantTupleToUserset, [key] + w.grant.value.path)))
      else
        var rest := DeriveParents(s, tuplesetNode, subjects[1..], computed, target, depth, w.visited);
        rest.(truncated := w.truncated || rest.truncated)
  }

  function DeriveUnion(s: Snapshot, n: Node, cs: seq<Userset>, target: EntityRef, depth: nat,
                       visited: set<Node>): (w: Walk)
    requires Ranked(s.graph.namespaces) && depth <= MAX_USERSET_DEPTH
    requires forall c | c in cs :: Below(s.graph.namespaces, n, c)
    ensures visited <= w.visited
    decreases Fuel(depth), NodeRank(s.graph.namespaces, n), 1, cs
  {
    if cs == [] then Walk(None, visited, false)
    else
      var w := DeriveRewrite(s, n, cs[0], target, depth, visited);
      if w.grant.Some? then w
      else
        var rest := DeriveUnion(s, n, cs[1..], target, depth, w.visited);
        rest.(truncated := w.truncated || rest.truncated)
  }

  // Operands get fresh visited sets, so the result's own visited set is left empty.
  function DeriveIntersection(s: Snapshot, n: Node, cs: seq<Userset>, path: seq<TupleKey>, target: EntityRef,
                              depth: nat): (w: Walk)
    requires Ranked(s.graph.namespaces) && depth <= MAX_USERSET_DEPTH
    requires forall c | c in cs :: Below(s.graph.namespaces, n, c)
    ensures w.visited == {}
    decreases Fuel(depth), NodeRank(s.graph.namespaces, n), 1, cs
  {
    if cs == [] then Walk(Some(Grant(GrantIntersection, path)), {}, false)
    else
      var w := DeriveRewrite(s, n, cs[0], target, depth, {});
      if w.truncated then Walk(None, {}, true)
      else if w.grant.None? then Walk(None, {}, false)
      else DeriveIntersection(s, n, cs[1..], path + w.grant.value.path, target, depth)
  }

  // ----- The second traversal: all members of a set, each with the depth it was found at -----

  datatype Member = Member(ref: EntityRef, depth: nat)

  datatype Gather = Gather(members: seq<Member>, visited: set<Node>, excluded: bool)

  function RefsOf(ms: seq<Member>): (refs: seq<EntityRef>)
    ensures |refs| == |ms| && forall i | 0 <= i < |ms| :: refs[i] == ms[i].ref
  {
    seq(|ms|, i requires 0 <= i < |ms| => ms[i].ref)
  }

  // The first member with the given reference.
  function FindMember(ms: seq<Member>, ref: EntityRef): (found: Option<Member>)
    ensures found.Some? <==> ref in RefsOf(ms)
    ensures found.Some? ==> found.value in ms && found.value.ref == ref
  {
    if ms == [] then None
    else if ms[0].ref == ref then assert RefsOf(ms)[0] == ref; Some(ms[0])
    else
      assert RefsOf(ms)[1..] == RefsOf(ms[1..]);
      FindMember(ms[1..], ref)
  }

  function Max(a: nat, b: nat): nat { if a > b then a else b }

  // Members of both lists, at the deeper of the two depths.
  function Meet(ms: seq<Member>, others: seq<Member>): seq<Member> {
    if ms == [] then []
    else
      var found := FindMember(others, ms[0].ref);
      (if found.Some? then [Member(ms[0].ref, Max(ms[0].depth, found.value.depth))] else [])
      + Meet(ms[1..], others)
  }

  function Minus(ms: seq<Member>, others: seq<Member>): seq<Member> {
    if ms == [] then []
    else (if ms[0].ref in RefsOf(others) then [] else [ms[0]]) + Minus(ms[1..], others)
  }

  function Collect(s: Graph, n: Node, depth: nat, visited: set<Node>): Gather
    requires Ranked(s.namespaces)
    decreases Fuel(depth), NodeRank(s.namespaces, n), 2
  {
    if depth > MAX_USERSET_DEPTH || n in visited then Gather([], visited, false)
    else
      RewriteIsBelow(s, n);
      CollectRewrite(s, n, RewriteOf(s, n), depth, visited + {n})
  }

  function CollectRewrite(s: Graph, n: Node, u: Userset, depth: nat, visited: set<Node>): Gather
    requires Ranked(s.namespaces) && Below(s.namespaces, n, u) && depth <= MAX_USERSET_DEPTH
    decreases Fuel(depth), NodeRank(s.namespaces, n), 1, u
  {
    match u
    case This => CollectSubjects(s, SubjectsOf(s.tuples, n), depth, visited)
    case Computed(r) => Collect(s, Node(n.entity, r), depth, visited)
    case TupleToUserset(ts, c) => CollectParents(s, SubjectsOf(s.tuples, Node(n.entity, ts)), c, depth, visited)
    case Union(cs) => CollectUnion(s, n, cs, depth, visited)
    case Intersection(cs) => CollectIntersection(s, n, cs, None, depth).(visited := visited)
    case Exclusion(b, sub) =>
      var base := CollectRewrite(s, n, b, depth, {});
      var subtract := CollectRewrite(s, n, sub, depth, {});
      Gather(Minus(base.members, subtract.members), visited, true)
  }

  function CollectSubjects(s: Graph, subjects: seq<Subject>, depth: nat, visited: set<Node>): Gather
    requires Ranked(s.namespaces) && depth <= MAX_USERSET_DEPTH
    decreases Fuel(depth), 0, 0, |subjects|
  {
    if subjects == [] then Gather([], visited, false)
    else if subjects[0].Direct? then
      var rest := CollectSubjects(s, subjects[1..], depth, visited);
      rest.(members := [Member(subjects[0].ref, depth)] + rest.members)
    else
      var g := Collect(s, NodeOf(subjects[0]), depth + 1, visited);
      var rest := CollectSubjects(s, subjects[1..], depth, g.visited);
      Gather(g.members + rest.members, rest.visited, g.excluded || rest.excluded)
  }

  function CollectParents(s: Graph, subjects: seq<Subject>, computed: string, depth: nat, visited: set<Node>): Gather
    requires Ranked(s.namespaces) && depth <= MAX_USERSET_DEPTH
    decreases Fuel(depth), 0, 0, |subjects|
  {
    if subjects == [] then Gather([], visited, false)
    else if subjects[0].UsersetOf? then CollectParents(s, subjects[1..], computed, depth, visited)
    else
      var g := Collect(s, Node(subjects[0].ref, computed), depth + 1, visited);
      var rest := CollectParents(s, subjects[1..], computed, depth, g.visited);
      Gather(g.members + rest.members, rest.visited, g.excluded || rest.excluded)
  }

  function CollectUnion(s: Graph, n: Node, cs: seq<Userset>, depth: nat, visited: set<Node>): Gather
    requires Ranked(s.namespaces) && depth <= MAX_USERSET_DEPTH
    requires forall c | c in cs :: Below(s.namespaces, n, c)
    decreases Fuel(depth), NodeRank(s.namespaces, n), 1, cs
  {
    if cs == [] then Gather([], visited, false)
    else
      var g := CollectRewrite(s, n, cs[0], depth, visited);
      var rest := CollectUnion(s, n, cs[1..], depth, g.visited);
      Gather(g.members + rest.members, rest.visited, g.excluded || rest.excluded)
  }

  // `acc` is the meet of the operands already collected, None before the first.
  function CollectIntersection(s: Graph, n: Node, cs: seq<Userset>, acc: Option<seq<Member>>, depth: nat): Gather
    requires Ranked(s.namespaces) && depth <= MAX_USERSET_DEPTH
    requires forall c | c in cs :: Below(s.namespaces, n, c)
    decreases Fuel(depth), NodeRank(s.namespaces, n), 1, cs
  {
    if cs == [] then Gather(OrElse(acc, []), {}, false)
    else
      var g := CollectRewrite(s, n, cs[0], depth, {});
      var acc' := if acc.None? then g.members else Meet(acc.value, g.members);
      var rest := CollectIntersection(s, n, cs[1..], Some(acc'), depth);
      rest.(excluded := g.excluded || rest.excluded)
  }

  // ----- Flattened sets -----

  datatype FlattenedSet = FlattenedSet(members: map<EntityRef, nat>, monotonic: bool)

  // The least depth recorded for each member.
  function LeastDepths(ms: seq<Member>): map<EntityRef, nat> {
    if ms == [] then map[] else Lower(LeastDepths(ms[..|ms| - 1]), ms[|ms| - 1])
  }

  function Lower(depths: map<EntityRef, nat>, m: Member): map<EntityRef, nat> {
    if m.ref in depths && depths[m.ref] <= m.depth then depths else depths[m.ref := m.depth]
  }

  // Exactly the members, each at a depth it was found at, and at the least such depth.
  ghost predicate Names(depths: map<EntityRef, nat>, ms: seq<Member>) {
    forall r: EntityRef :: r in depths <==> r in RefsOf(ms)
  }

  ghost predicate FoundAt(depths: map<EntityRef, nat>, ms: seq<Member>) {
    forall r | r in depths :: Member(r, depths[r]) in ms
  }

  ghost predicate NoneEarlier(depths: map<EntityRef, nat>, ms: seq<Member>) {
    forall m | m in ms :: m.ref in depths && depths[m.ref] <= m.depth
  }

  lemma {:induction false} LeastDepthsAreLeast(ms: seq<Member>)
    ensures var depths := LeastDepths(ms);
            && (forall r: EntityRef :: r in depths <==> r in RefsOf(ms))
            && (forall r | r in depths :: Member(r, depths[r]) in ms)
            && (forall m | m in ms :: m.ref in depths && depths[m.ref] <= m.depth)
  {
    if ms == [] {
      assert LeastDepths(ms) == map[] && RefsOf(ms) == [];
    } else {
      var before, m := ms[..|ms| - 1], ms[|ms| - 1];
      LeastDepthsAreLeast(before);
      LowerIsLeast(LeastDepths(before), before, m);
      assert ms == before + [m];
    }
  }

  lemma LowerIsLeast(depths: map<EntityRef, nat>, ms: seq<Member>, m: Member)
    requires Names(depths, ms) && FoundAt(depths, ms) && NoneEarlier(depths, ms)
    ensures var lower := Lower(depths, m);
            Names(lower, ms + [m]) && FoundAt(lower, ms + [m]) && NoneEarlier(lower, ms + [m])
  {
    LowerNames(depths, ms, m);
    LowerIsFound(depths, ms, m);
    LowerIsEarliest(depths, ms, m);
  }

  lemma LowerNames(depths: map<EntityRef, nat>, ms: seq<Member>, m: Member)
    requires Names(depths, ms)
    ensures Names(Lower(depths, m), ms + [m])
  {
    assert RefsOf(ms + [m]) == RefsOf(ms) + [m.ref];
  }

  lemma LowerIsFound(depths: map<EntityRef, nat>, ms: seq<Member>, m: Member)
    requires FoundAt(depths, ms)
    ensures FoundAt(Lower(depths, m), ms + [m])
  {
    forall r | r in Lower(depths, m) ensures Member(r, Lower(depths, m)[r]) in ms + [m] {
      if Lower(depths, m) != depths && r == m.ref { assert Member(r, Lower(depths, m)[r]) == m; }
    }
  }

  lemma LowerIsEarliest(depths: map<EntityRef, nat>, ms: seq<Member>, m: Member)
    requires NoneEarlier(depths, ms)
    ensures NoneEarlier(Lower(depths, m), ms + [m])
  {
  }

  function FlattenSet(s: Graph, n: Node): FlattenedSet
    requires Ranked(s.namespaces)
  {
    var g := Collect(s, n, 0, {});
    FlattenedSet(LeastDepths(g.members), !g.excluded)
  }

  function Expand(s: Snapshot, orgId: string, n: Node): set<EntityRef>
    requires Ranked(s.graph.namespaces)
  {
    if s.orgId != orgId then {} else FlattenSet(s.graph, n).members.Keys
  }
}
