/** The evaluator in its own form: walks that update a shared visited set and flags in place. */
module Evaluator {
  import opened Prelude
  import opened Refs
  import opened Usersets
  import opened Snapshots
  import Walks
  import opened Decisions

  type Grant = Walks.Grant

  class VisitedSet {
    var nodes: set<Node>

    constructor ()
      ensures nodes == {}
    {
      nodes := {};
    }
  }

  class WalkState {
    var truncated: bool

    constructor ()
      ensures !truncated
    {
      truncated := false;
    }
  }

  class CollectState {
    var excluded: bool

    constructor ()
      ensures !excluded
    {
      excluded := false;
    }
  }

  method DeriveThis(s: Snapshot, entity: EntityRef, relation: string, target: EntityRef, depth: nat,
                    visited: VisitedSet, state: WalkState) returns (grant: Option<Grant>)
    requires Ranked(s.graph.namespaces) && depth <= Walks.MAX_USERSET_DEPTH
    modifies visited, state
    ensures var w := Walks.DeriveRewrite(s, Node(entity, relation), This, target, depth, old(visited.nodes));
            && grant == w.grant
            && visited.nodes == w.visited
            && state.truncated == (old(state.truncated) || w.truncated)
    decreases Walks.Fuel(depth), NodeRank(s.graph.namespaces, Node(entity, relation)), 0
  {
    var n := Node(entity, relation);
    var subjects := SubjectsOf(s.graph.tuples, n);
    var i := 0;
    while i < |subjects|
      invariant 0 <= i <= |subjects|
      invariant Direct(target) !in subjects[..i]
      invariant visited.nodes == old(visited.nodes) && state.truncated == old(state.truncated)
    {
      if subjects[i].Direct? && subjects[i].ref == target {
        return Some(Walks.Grant(Walks.GrantDirect, [TupleKey(entity, relation, subjects[i])]));
      }
      i := i + 1;
    }
    assert Direct(target) !in subjects;
    ghost var whole := Walks.DeriveUsersets(s, n, subjects, target, depth, visited.nodes);
    i := 0;
    while i < |subjects|
      invariant 0 <= i <= |subjects|
      invariant var rest := Walks.DeriveUsersets(s, n, subjects[i..], target, depth, visited.nodes);
                && whole.grant == rest.grant && whole.visited == rest.visited
                && (old(state.truncated) || whole.truncated) == (state.truncated || rest.truncated)
    {
      assert subjects[i..][1..] == subjects[i + 1..];
      if subjects[i].UsersetOf? {
        var indexed := DepthOf(s.memberships, NodeOf(subjects[i]), target);
        if indexed.Some? && depth + 1 + indexed.value <= Walks.MAX_USERSET_DEPTH {
          return Some(Walks.Grant(Walks.GrantIndexedUserset, [TupleKey(entity, relation, subjects[i])]));
        }
        var sub := Derive(s, subjects[i].ref, subjects[i].relation, target, depth + 1, visited, state);
        if sub.Some? {
          return Some(Walks.Grant(Walks.GrantUserset, [TupleKey(entity, relation, subjects[i])] + sub.value.path));
        }
      }
      i := i + 1;
    }
    return None;
  }

  method DeriveRewrite(s: Snapshot, entity: EntityRef, relation: string, rewrite: Userset, target: EntityRef,
                       depth: nat, visited: VisitedSet, state: WalkState) returns (grant: Option<Grant>)
    requires Ranked(s.graph.namespaces) && depth <= Walks.MAX_USERSET_DEPTH
    requires Below(s.graph.namespaces, Node(entity, relation), rewrite)
    modifies visited, state
    ensures var w := Walks.DeriveRewrite(s, Node(entity, relation), rewrite, target, depth, old(visited.nodes));
            && grant == w.grant
            && visited.nodes == w.visited
            && state.truncated == (old(state.truncated) || w.truncated)
    decreases Walks.Fuel(depth), NodeRank(s.graph.namespaces, Node(entity, relation)), 1, rewrite
  {
    match rewrite
    case This =>
      grant := DeriveThis(s, entity, relation, target, depth, visited, state);
    case Computed(r) =>
      var sub := Derive(s, entity, r, target, depth, visited, state);
      grant := if sub.Some? then Some(Walks.Grant(Walks.GrantComputedUserset, sub.value.path)) else None;
    case TupleToUserset(tupleset, computed) =>
      grant := DeriveParents(s, entity, tupleset, computed, target, depth, visited, state);
    case Union(children) =>
      ghost var n := Node(entity, relation);
      ghost var whole := Walks.DeriveUnion(s, n, children, target, depth, visited.nodes);
      for i := 0 to |children|
        invariant var rest := Walks.DeriveUnion(s, n, children[i..], target, depth, visited.nodes);
                  && whole.grant == rest.grant && whole.visited == rest.visited
                  && (old(state.truncated) || whole.truncated) == (state.truncated || rest.truncated)
      {
        assert children[i..][1..] == children[i + 1..];
        grant := DeriveRewrite(s, entity, relation, children[i], target, depth, visited, state);
        if grant.Some? { return; }
      }
      grant := None;
    case Intersection(children) =>
      ghost var n := Node(entity, relation);
      var path: seq<TupleKey> := [];
      for i := 0 to |children|
        invariant visited.nodes == old(visited.nodes) && state.truncated == old(state.truncated)
        invariant Walks.DeriveIntersection(s, n, children, [], target, depth)
               == Walks.DeriveIntersection(s, n, children[i..], path, target, depth)
      {
        assert children[i..][1..] == children[i + 1..];
        var childState := new WalkState();
        var fresh_ := new VisitedSet();
        var sub := DeriveRewrite(s, entity, relation, children[i], target, depth, fresh_, childState);
        if childState.truncated {
          state.truncated := true;
          return None;
        }
        if sub.None? { return None; }
        path := path + sub.value.path;
      }
      grant := Some(Walks.Grant(Walks.GrantIntersection, path));
    case Exclusion(base, subtract) =>
      var baseState := new WalkState();
      var baseVisited := new VisitedSet();
      var b := DeriveRewrite(s, entity, relation, base, target, depth, baseVisited, baseState);
      if baseState.truncated {
        state.truncated := true;
        return None;
      }
      if b.None? { return None; }
      var subtractState := new WalkState();
      var subtractVisited := new VisitedSet();
      var m := DeriveRewrite(s, entity, relation, subtract, target, depth, subtractVisited, subtractState);
      if subtractState.truncated {
        state.truncated := true;
        return None;
      }
      if m.Some? { return None; }
      grant := Some(Walks.Grant(Walks.GrantExclusion, b.value.path));
  }

  method DeriveParents(s: Snapshot, entity: EntityRef, tupleset: string, computed: string, target: EntityRef,
                       depth: nat, visited: VisitedSet, state: WalkState) returns (grant: Option<Grant>)
    requires Ranked(s.graph.namespaces) && depth <= Walks.MAX_USERSET_DEPTH
    modifies visited, state
    ensures var tn := Node(entity, tupleset);
            var w := Walks.DeriveParents(s, tn, SubjectsOf(s.graph.tuples, tn), computed, target, depth,
                old(visited.nodes));
            && grant == w.grant
            && visited.nodes == w.visited
            && state.truncated == (old(state.truncated) || w.truncated)
    decreases Walks.Fuel(depth), 0, 0
  {
    var tn := Node(entity, tupleset);
    var subjects := SubjectsOf(s.graph.tuples, tn);
    ghost var whole := Walks.DeriveParents(s, tn, subjects, computed, target, depth, visited.nodes);
    for i := 0 to |subjects|
      invariant var rest := Walks.DeriveParents(s, tn, subjects[i..], computed, target, depth, visited.nodes);
                && whole.grant == rest.grant && whole.visited == rest.visited
                && (old(state.truncated) || whole.truncated) == (state.truncated || rest.truncated)
    {
      assert subjects[i..][1..] == subjects[i + 1..];
      if subjects[i].Direct? {
        var sub := Derive(s, subjects[i].ref, computed, target, depth + 1, visited, state);
        if sub.Some? {
          return Some(Walks.Grant(Walks.GrantTupleToUserset,
              [TupleKey(entity, tupleset, subjects[i])] + sub.value.path));
        }
      }
    }
    return None;
  }

  method Derive(s: Snapshot, entity: EntityRef, relation: string, target: EntityRef, depth: nat, visited: VisitedSet,
                state: WalkState) returns (grant: Option<Grant>)
    requires Ranked(s.graph.namespaces)
    modifies visited, state
    ensures var w := Walks.Derive(s, Node(entity, relation), target, depth, old(visited.nodes));
            && grant == w.grant
            && visited.nodes == w.visited
            && state.truncated == (old(state.truncated) || w.truncated)
    decreases Walks.Fuel(depth), NodeRank(s.graph.namespaces, Node(entity, relation)), 2
  {
    if depth > Walks.MAX_USERSET_DEPTH {
      state.truncated := true;
      return None;
    }
    var current := Node(entity, relation);
    if current in visited.nodes {
      return None;
    }
    visited.nodes := visited.nodes + {current};
    var rewrite := RewriteOf(s.graph, current);
    RewriteIsBelow(s.graph, current);
    grant := DeriveRewrite(s, entity, relation, rewrite, target, depth, visited, state);
  }

  method Evaluate(q: Query, s: Snapshot) returns (d: Decision)
    requires Ranked(s.graph.namespaces)
    ensures d == Decisions.Evaluate(q, s)
  {
    if s.orgId != q.orgId {
      return DenyWith([OrgMismatch]);
    }
    var kinds := s.graph.namespaces.Keys;
    while kinds != {}
      invariant kinds <= s.graph.namespaces.Keys
      invariant forall k | k in s.graph.namespaces && k !in kinds :: s.graph.namespaces[k].orgId == q.orgId
    {
      var k :| k in kinds;
      if s.graph.namespaces[k].orgId != q.orgId {
        return DenyWith([OrgMismatch]);
      }
      kinds := kinds - {k};
    }
    var required := RequiredRelations(s.graph.namespaces, q.action, q.resource);
    if required == [] {
      return DenyWith([UnknownAction]);
    }
    var state := new WalkState();
    ghost var whole := TryRelations(s, q.resource, required, q.subject);
    for i := 0 to |required|
      invariant var rest := TryRelations(s, q.resource, required[i..], q.subject);
                whole.found == rest.found && whole.truncated == (state.truncated || rest.truncated)
    {
      assert required[i..][1..] == required[i + 1..];
      var visited := new VisitedSet();
      var grant := Derive(s, q.resource, required[i], q.subject, 0, visited, state);
      if grant.Some? {
        return PermitWith(Granted(grant.value.code, required[i], grant.value.path));
      }
    }
    return DenyWith(if state.truncated then [DefaultDeny, WalkTruncated] else [DefaultDeny]);
  }

  // ----- collectRewrite, collectMembers, flattenSet, expand -----

  // What is left to collect completes `whole`.
  ghost predicate Remains(whole: Walks.Gather, before: bool, members: seq<Walks.Member>, excluded: bool,
                          rest: Walks.Gather) {
    && whole.members == members + rest.members && whole.visited == rest.visited
    && (before || whole.excluded) == (excluded || rest.excluded)
  }

  lemma NextSubject(g: Graph, subjects: seq<Subject>, i: nat, depth: nat, visited: set<Node>)
    requires Ranked(g.namespaces) && depth <= Walks.MAX_USERSET_DEPTH && i < |subjects|
    ensures Walks.CollectSubjects(g, subjects[i..], depth, visited) ==
      if subjects[i].Direct? then
        var rest := Walks.CollectSubjects(g, subjects[i + 1..], depth, visited);
        rest.(members := [Walks.Member(subjects[i].ref, depth)] + rest.members)
      else
        var first := Walks.Collect(g, NodeOf(subjects[i]), depth + 1, visited);
        var rest := Walks.CollectSubjects(g, subjects[i + 1..], depth, first.visited);
        Walks.Gather(first.members + rest.members, rest.visited, first.excluded || rest.excluded)
  {
    assert subjects[i..][1..] == subjects[i + 1..] && subjects[i..][0] == subjects[i];
  }

  method CollectThis(s: Snapshot, entity: EntityRef, relation: string, depth: nat, visited: VisitedSet,
                     state: CollectState) returns (members: seq<Walks.Member>)
    requires Ranked(s.graph.namespaces) && depth <= Walks.MAX_USERSET_DEPTH
    modifies visited, state
    ensures var g := Walks.CollectSubjects(s.graph, SubjectsOf(s.graph.tuples, Node(entity, relation)), depth,
                                           old(visited.nodes));
            && members == g.members
            && visited.nodes == g.visited
            && state.excluded == (old(state.excluded) || g.excluded)
    decreases Walks.Fuel(depth), NodeRank(s.graph.namespaces, Node(entity, relation)), 0
  {
    members := [];
    ghost var before := state.excluded;
    var subjects := SubjectsOf(s.graph.tuples, Node(entity, relation));
    ghost var whole := Walks.CollectSubjects(s.graph, subjects, depth, visited.nodes);
    for i := 0 to |subjects|
      invariant Remains(whole, before, members, state.excluded,
          Walks.CollectSubjects(s.graph, subjects[i..], depth, visited.nodes))
    {
      NextSubject(s.graph, subjects, i, depth, visited.nodes);
      if subjects[i].Direct? {
        members := members + [Walks.Member(subjects[i].ref, depth)];
      } else {
        var more := CollectMembers(s, subjects[i].ref, subjects[i].relation, depth + 1, visited, state);
        members := members + more;
      }
    }
  }

  method CollectParents(s: Snapshot, entity: EntityRef, tupleset: string, computed: string, depth: nat,
                        visited: VisitedSet, state: CollectState) returns (members: seq<Walks.Member>)
    requires Ranked(s.graph.namespaces) && depth <= Walks.MAX_USERSET_DEPTH
    modifies visited, state
    ensures var subjects := SubjectsOf(s.graph.tuples, Node(entity, tupleset));
            var g := Walks.CollectParents(s.graph, subjects, computed, depth, old(visited.nodes));
            && members == g.members
            && visited.nodes == g.visited
            && state.excluded == (old(state.excluded) || g.excluded)
    decreases Walks.Fuel(depth), 0, 0
  {
    members := [];
    ghost var before := state.excluded;
    var subjects := SubjectsOf(s.graph.tuples, Node(entity, tupleset));
    ghost var whole := Walks.CollectParents(s.graph, subjects, computed, depth, visited.nodes);
    for i := 0 to |subjects|
      invariant Remains(whole, before, members, state.excluded,
          Walks.CollectParents(s.graph, subjects[i..], computed, depth, visited.nodes))
    {
      assert subjects[i..][1..] == subjects[i + 1..];
      if subjects[i].Direct? {
        var more := CollectMembers(s, subjects[i].ref, computed, depth + 1, visited, state);
        members := members + more;
      }
    }
  }

  method CollectUnion(s: Snapshot, entity: EntityRef, relation: string, children: seq<Userset>, depth: nat,
                      visited: VisitedSet, state: CollectState) returns (members: seq<Walks.Member>)
    requires Ranked(s.graph.namespaces) && depth <= Walks.MAX_USERSET_DEPTH
    requires forall c | c in children :: Below(s.graph.namespaces, Node(entity, relation), c)
    modifies visited, state
    ensures var g := Walks.CollectUnion(s.graph, Node(entity, relation), children, depth, old(visited.nodes));
            && members == g.members
            && visited.nodes == g.visited
            && state.excluded == (old(state.excluded) || g.excluded)
    decreases Walks.Fuel(depth), NodeRank(s.graph.namespaces, Node(entity, relation)), 1, children
  {
    members := [];
    ghost var before := state.excluded;
    ghost var n := Node(entity, relation);
    ghost var whole := Walks.CollectUnion(s.graph, n, children, depth, visited.nodes);
    for i := 0 to |children|
      invariant Remains(whole, before, members, state.excluded,
          Walks.CollectUnion(s.graph, n, children[i..], depth, visited.nodes))
    {
      assert children[i..][1..] == children[i + 1..];
      var more := CollectRewrite(s, entity, relation, children[i], depth, visited, state);
      members := members + more;
    }
  }

  method CollectIntersection(s: Snapshot, entity: EntityRef, relation: string, children: seq<Userset>, depth: nat,
                             state: CollectState) returns (members: seq<Walks.Member>)
    requires Ranked(s.graph.namespaces) && depth <= Walks.MAX_USERSET_DEPTH
    requires forall c | c in children :: Below(s.graph.namespaces, Node(entity, relation), c)
    modifies state
    ensures var g := Walks.CollectIntersection(s.graph, Node(entity, relation), children, None, depth);
            && members == g.members
            && state.excluded == (old(state.excluded) || g.excluded)
    decreases Walks.Fuel(depth), NodeRank(s.graph.namespaces, Node(entity, relation)), 1, children
  {
    ghost var n := Node(entity, relation);
    var acc: Option<seq<Walks.Member>> := None;
    ghost var whole := Walks.CollectIntersection(s.graph, n, children, None, depth);
    for i := 0 to |children|
      invariant var rest := Walks.CollectIntersection(s.graph, n, children[i..], acc, depth);
                && whole.members == rest.members
                && (old(state.excluded) || whole.excluded) == (state.excluded || rest.excluded)
    {
      assert children[i..][1..] == children[i + 1..];
      var visited := new VisitedSet();
      var childMembers := CollectRewrite(s, entity, relation, children[i], depth, visited, state);
      acc := if acc.None? then Some(childMembers) else Some(Walks.Meet(acc.value, childMembers));
    }
    members := OrElse(acc, []);
  }

  method CollectRewrite(s: Snapshot, entity: EntityRef, relation: string, rewrite: Userset, depth: nat,
                        visited: VisitedSet, state: CollectState) returns (members: seq<Walks.Member>)
    requires Ranked(s.graph.namespaces) && depth <= Walks.MAX_USERSET_DEPTH
    requires Below(s.graph.namespaces, Node(entity, relation), rewrite)
    modifies visited, state
    ensures var g := Walks.CollectRewrite(s.graph, Node(entity, relation), rewrite, depth, old(visited.nodes));
            && members == g.members
            && visited.nodes == g.visited
            && state.excluded == (old(state.excluded) || g.excluded)
    decreases Walks.Fuel(depth), NodeRank(s.graph.namespaces, Node(entity, relation)), 1, rewrite
  {
    match rewrite
    case This =>
      members := CollectThis(s, entity, relation, depth, visited, state);
    case Computed(r) =>
      members := CollectMembers(s, entity, r, depth, visited, state);
    case TupleToUserset(tupleset, computed) =>
      members := CollectParents(s, entity, tupleset, computed, depth, visited, state);
    case Union(children) =>
      members := CollectUnion(s, entity, relation, children, depth, visited, state);
    case Intersection(children) =>
      members := CollectIntersection(s, entity, relation, children, depth, state);
    case Exclusion(base, subtract) =>
      state.excluded := true;
      var baseVisited := new VisitedSet();
      var b := CollectRewrite(s, entity, relation, base, depth, baseVisited, state);
      var subtractVisited := new VisitedSet();
      var m := CollectRewrite(s, entity, relation, subtract, depth, subtractVisited, state);
      members := Walks.Minus(b, m);
  }

  method CollectMembers(s: Snapshot, entity: EntityRef, relation: string, depth: nat, visited: VisitedSet,
                        state: CollectState) returns (members: seq<Walks.Member>)
    requires Ranked(s.graph.namespaces)
    modifies visited, state
    ensures var g := Walks.Collect(s.graph, Node(entity, relation), depth, old(visited.nodes));
            && members == g.members
            && visited.nodes == g.visited
            && state.excluded == (old(state.excluded) || g.excluded)
    decreases Walks.Fuel(depth), NodeRank(s.graph.namespaces, Node(entity, relation)), 2
  {
    if depth > Walks.MAX_USERSET_DEPTH {
      return [];
    }
    var current := Node(entity, relation);
    if current in visited.nodes {
      return [];
    }
    visited.nodes := visited.nodes + {current};
    var rewrite := RewriteOf(s.graph, current);
    RewriteIsBelow(s.graph, current);
    members := CollectRewrite(s, entity, relation, rewrite, depth, visited, state);
  }

  method FlattenSet(s: Snapshot, entity: EntityRef, relation: string) returns (flat: Walks.FlattenedSet)
    requires Ranked(s.graph.namespaces)
    ensures flat == Walks.FlattenSet(s.graph, Node(entity, relation))
  {
    var state := new CollectState();
    var visited := new VisitedSet();
    var members := CollectMembers(s, entity, relation, 0, visited, state);
    var byRef: map<EntityRef, nat> := map[];
    for i := 0 to |members|
      invariant byRef == Walks.LeastDepths(members[..i])
    {
      assert members[..i + 1][..i] == members[..i];
      var m := members[i];
      if m.ref !in byRef || m.depth < byRef[m.ref] {
        byRef := byRef[m.ref := m.depth];
      }
    }
    assert members[..|members|] == members;
    return Walks.FlattenedSet(byRef, !state.excluded);
  }

  method Expand(orgId: string, resource: EntityRef, relation: string, s: Snapshot) returns (refs: set<EntityRef>)
    requires Ranked(s.graph.namespaces)
    ensures refs == Walks.Expand(s, orgId, Node(resource, relation))
  {
    if s.orgId != orgId {
      return {};
    }
    var flat := FlattenSet(s, resource, relation);
    return flat.members.Keys;
  }
}
