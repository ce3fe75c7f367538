/** Evaluating the loaded snapshot is evaluating everything that is stored. */
module FaithfulLoading {
  import opened Prelude
  import opened Refs
  import opened Usersets
  import opened Snapshots
  import opened Walks
  import opened Agreement
  import opened Decisions
  import opened Loading

  // Two reasons why a walk stays inside the loaded data. `closed`: the loaded nodes are closed
  // under steps, because the load was complete. Otherwise: only unions, where the walk's own
  // visited set records every node it reads.
  ghost predicate World(s: Snapshot, st: Loading, closed: bool) {
    && Ranked(s.graph.namespaces) && Faithful(s.graph, st) && Ranked(LoadedSnapshot(s, st).graph.namespaces)
    && (closed ==> Complete(st) && forall m | m in st.walked :: NodeReady(s, st, m))
    && (!closed ==> UnionOnlyGraph(s.graph))
  }

  ghost predicate SeenReady(s: Snapshot, st: Loading, closed: bool, visited: set<Node>, w: Walk) {
    closed || forall m | m in w.visited && m !in visited :: NodeReady(s, st, m)
  }

  ghost predicate Operand(s: Snapshot, st: Loading, closed: bool, n: Node, u: Userset) {
    Ready(s, st, n, u) && (!closed ==> UnionOnly(u))
  }

  lemma LoadedIsRanked(s: Snapshot, st: Loading)
    requires Ranked(s.graph.namespaces) && Faithful(s.graph, st)
    ensures Ranked(LoadedSnapshot(s, st).graph.namespaces)
  {
  }

  lemma {:induction false} DeriveSame(s: Snapshot, st: Loading, closed: bool, n: Node, t: EntityRef, depth: nat,
                                      visited: set<Node>)
    requires World(s, st, closed) && (closed ==> n in st.walked)
    requires SeenReady(s, st, closed, visited, Derive(s, n, t, depth, visited))
    ensures Derive(LoadedSnapshot(s, st), n, t, depth, visited) == Derive(s, n, t, depth, visited)
    decreases Fuel(depth), NodeRank(s.graph.namespaces, n), 2
  {
    if depth <= MAX_USERSET_DEPTH && n !in visited {
      RewriteIsBelow(s.graph, n);
      assert n in Derive(s, n, t, depth, visited).visited;
      assert NodeReady(s, st, n);
      assert RewriteOf(LoadedSnapshot(s, st).graph, n) == RewriteOf(s.graph, n);
      RewriteIsBelow(LoadedSnapshot(s, st).graph, n);
      DeriveRewriteSame(s, st, closed, n, RewriteOf(s.graph, n), t, depth, visited + {n});
    }
  }

  lemma {:induction false} DeriveRewriteSame(s: Snapshot, st: Loading, closed: bool, n: Node, u: Userset, t: EntityRef,
                                             depth: nat, visited: set<Node>)
    requires World(s, st, closed) && Operand(s, st, closed, n, u) && depth <= MAX_USERSET_DEPTH
    requires Below(s.graph.namespaces, n, u)
    requires Below(LoadedSnapshot(s, st).graph.namespaces, n, u)
    requires SeenReady(s, st, closed, visited, DeriveRewrite(s, n, u, t, depth, visited))
    ensures DeriveRewrite(LoadedSnapshot(s, st), n, u, t, depth, visited) == DeriveRewrite(s, n, u, t, depth, visited)
    decreases Fuel(depth), NodeRank(s.graph.namespaces, n), 1, u
  {
    match u
    case This =>
      var subjects := SubjectsOf(s.graph.tuples, n);
      if Direct(t) !in subjects { UsersetsSame(s, st, closed, n, subjects, t, depth, visited); }
    case Computed(r) => DeriveSame(s, st, closed, Node(n.entity, r), t, depth, visited);
    case TupleToUserset(ts, c) =>
      var tn := Node(n.entity, ts);
      ParentsSame(s, st, closed, tn, SubjectsOf(s.graph.tuples, tn), c, t, depth, visited);
    case Union(cs) => UnionSame(s, st, closed, n, cs, t, depth, visited);
    case Intersection(cs) => IntersectionSame(s, st, n, cs, [], t, depth);
    case Exclusion(b, sub) =>
      DeriveRewriteSame(s, st, closed, n, b, t, depth, {});
      DeriveRewriteSame(s, st, closed, n, sub, t, depth, {});
  }

  lemma {:induction false} UsersetsSame(s: Snapshot, st: Loading, closed: bool, n: Node, subjects: seq<Subject>,
                                        t: EntityRef, depth: nat, visited: set<Node>)
    requires World(s, st, closed) && depth <= MAX_USERSET_DEPTH
    requires s.memberships.None? || st.consulted || forall sub | sub in subjects :: sub.Direct?
    requires closed ==> forall sub | sub in subjects && sub.UsersetOf? :: NodeOf(sub) in st.walked
    requires SeenReady(s, st, closed, visited, DeriveUsersets(s, n, subjects, t, depth, visited))
    ensures DeriveUsersets(LoadedSnapshot(s, st), n, subjects, t, depth, visited)
              == DeriveUsersets(s, n, subjects, t, depth, visited)
    decreases Fuel(depth), NodeRank(s.graph.namespaces, n), 0, |subjects|
  {
    if subjects != [] {
      var rest := subjects[1..];
      assert subjects[0] in subjects && forall sub | sub in rest :: sub in subjects;
      if subjects[0].Direct? {
        UsersetsSame(s, st, closed, n, rest, t, depth, visited);
      } else if !IndexGrants(s, NodeOf(subjects[0]), t, depth) {
        DeriveSame(s, st, closed, NodeOf(subjects[0]), t, depth + 1, visited);
        var w := Derive(s, NodeOf(subjects[0]), t, depth + 1, visited);
        if w.grant.None? { UsersetsSame(s, st, closed, n, rest, t, depth, w.visited); }
      }
    }
  }

  lemma {:induction false} ParentsSame(s: Snapshot, st: Loading, closed: bool, tn: Node, subjects: seq<Subject>,
                                       computed: string, t: EntityRef, depth: nat, visited: set<Node>)
    requires World(s, st, closed) && depth <= MAX_USERSET_DEPTH
    requires closed ==> forall sub | sub in subjects && sub.Direct? :: Node(sub.ref, computed) in st.walked
    requires SeenReady(s, st, closed, visited, DeriveParents(s, tn, subjects, computed, t, depth, visited))
    ensures DeriveParents(LoadedSnapshot(s, st), tn, subjects, computed, t, depth, visited)
              == DeriveParents(s, tn, subjects, computed, t, depth, visited)
    decreases Fuel(depth), 0, 0, |subjects|
  {
    if subjects != [] {
      var rest := subjects[1..];
      assert subjects[0] in subjects && forall sub | sub in rest :: sub in subjects;
      if subjects[0].UsersetOf? {
        ParentsSame(s, st, closed, tn, rest, computed, t, depth, visited);
      } else {
        DeriveSame(s, st, closed, Node(subjects[0].ref, computed), t, depth + 1, visited);
        var w := Derive(s, Node(subjects[0].ref, computed), t, depth + 1, visited);
        if w.grant.None? { ParentsSame(s, st, closed, tn, rest, computed, t, depth, w.visited); }
      }
    }
  }

  lemma {:induction false} UnionSame(s: Snapshot, st: Loading, closed: bool, n: Node, cs: seq<Userset>, t: EntityRef,
                                     depth: nat, visited: set<Node>)
    requires World(s, st, closed) && depth <= MAX_USERSET_DEPTH
    requires forall c | c in cs :: && Operand(s, st, closed, n, c) && Below(s.graph.namespaces, n, c)
                                   && Below(LoadedSnapshot(s, st).graph.namespaces, n, c)
    requires SeenReady(s, st, closed, visited, DeriveUnion(s, n, cs, t, depth, visited))
    ensures DeriveUnion(LoadedSnapshot(s, st), n, cs, t, depth, visited) == DeriveUnion(s, n, cs, t, depth, visited)
    decreases Fuel(depth), NodeRank(s.graph.namespaces, n), 1, cs
  {
    if cs != [] {
      assert cs[0] in cs && forall c | c in cs[1..] :: c in cs;
      DeriveRewriteSame(s, st, closed, n, cs[0], t, depth, visited);
      var w := DeriveRewrite(s, n, cs[0], t, depth, visited);
      if w.grant.None? { UnionSame(s, st, closed, n, cs[1..], t, depth, w.visited); }
    }
  }

  lemma {:induction false} IntersectionSame(s: Snapshot, st: Loading, n: Node, cs: seq<Userset>, path: seq<TupleKey>,
                                            t: EntityRef, depth: nat)
    requires World(s, st, true) && depth <= MAX_USERSET_DEPTH
    requires forall c | c in cs :: && Operand(s, st, true, n, c) && Below(s.graph.namespaces, n, c)
                                   && Below(LoadedSnapshot(s, st).graph.namespaces, n, c)
    ensures DeriveIntersection(LoadedSnapshot(s, st), n, cs, path, t, depth)
        == DeriveIntersection(s, n, cs, path, t, depth)
    decreases Fuel(depth), NodeRank(s.graph.namespaces, n), 1, cs
  {
    if cs != [] {
      assert cs[0] in cs && forall c | c in cs[1..] :: c in cs;
      DeriveRewriteSame(s, st, true, n, cs[0], t, depth, {});
      var w := DeriveRewrite(s, n, cs[0], t, depth, {});
      if w.grant.Some? && !w.truncated { IntersectionSame(s, st, n, cs[1..], path + w.grant.value.path, t, depth); }
    }
  }

  // ----- With unions only, the loader's walk covers the evaluator's, index pruning included -----

  ghost predicate Covers(st: Loading, w: Walk) {
    w.visited <= st.walked && (w.grant.None? ==> w.visited == st.walked)
  }

  lemma {:induction false} LoadCovers(s: Snapshot, t: EntityRef, n: Node, depth: nat, st: Loading)
    requires Ranked(s.graph.namespaces) && UnionOnlyGraph(s.graph) && Faithful(s.graph, st)
    ensures Covers(Load(s, Some(t), n, depth, st), Derive(s, n, t, depth, st.walked))
    decreases Fuel(depth), NodeRank(s.graph.namespaces, n), 2
  {
    if n !in st.walked && depth <= MAX_USERSET_DEPTH {
      RewriteIsBelow(s.graph, n);
      EnterIsFaithful(s.graph, n, st);
      LoadRewriteCovers(s, t, n, RewriteOf(s.graph, n), depth, Enter(s.graph, n, st));
    }
  }

  lemma {:induction false} LoadRewriteCovers(s: Snapshot, t: EntityRef, n: Node, u: Userset, depth: nat, st: Loading)
    requires Ranked(s.graph.namespaces) && UnionOnlyGraph(s.graph) && Faithful(s.graph, st)
    requires Below(s.graph.namespaces, n, u) && depth <= MAX_USERSET_DEPTH && UnionOnly(u) && n in st.local
    ensures Covers(LoadRewrite(s, Some(t), n, u, depth, st), DeriveRewrite(s, n, u, t, depth, st.walked))
    decreases Fuel(depth), NodeRank(s.graph.namespaces, n), 1, u
  {
    match u
    case This =>
      LoadUsersetsKeeps(s, Some(t), SubjectsOf(s.graph.tuples, n), depth, st);
      LoadUsersetsCovers(s, t, n, SubjectsOf(s.graph.tuples, n), depth, st);
    case Computed(r) => LoadCovers(s, t, Node(n.entity, r), depth, st);
    case TupleToUserset(ts, c) =>
      var tn := Node(n.entity, ts);
      LoadParentsCovers(s, t, tn, SubjectsOf(s.graph.tuples, tn), c, depth, LoadRows(s.graph, tn, st));
    case Union(cs) => LoadAllCovers(s, t, n, cs, depth, st);
  }

  lemma {:induction false} LoadUsersetsCovers(s: Snapshot, t: EntityRef, n: Node, subjects: seq<Subject>, depth: nat,
                                              st: Loading)
    requires Ranked(s.graph.namespaces) && UnionOnlyGraph(s.graph) && Faithful(s.graph, st)
    requires depth <= MAX_USERSET_DEPTH
    ensures Covers(LoadUsersets(s, Some(t), subjects, depth, st), DeriveUsersets(s, n, subjects, t, depth, st.walked))
    decreases Fuel(depth), NodeRank(s.graph.namespaces, n), 0, |subjects|
  {
    if subjects != [] {
      var rest := subjects[1..];
      if subjects[0].Direct? {
        LoadUsersetsCovers(s, t, n, rest, depth, st);
      } else {
        var st1 := st.(consulted := true);
        if IndexGrants(s, NodeOf(subjects[0]), t, depth) {
          LoadUsersetsKeeps(s, Some(t), rest, depth, st1.(pruned := true));
        } else {
          LoadKeeps(s, Some(t), NodeOf(subjects[0]), depth + 1, st1);
          LoadCovers(s, t, NodeOf(subjects[0]), depth + 1, st1);
          var st2 := Load(s, Some(t), NodeOf(subjects[0]), depth + 1, st1);
          LoadUsersetsKeeps(s, Some(t), rest, depth, st2);
          LoadUsersetsCovers(s, t, n, rest, depth, st2);
        }
      }
    }
  }

  lemma {:induction false} LoadParentsCovers(s: Snapshot, t: EntityRef, tn: Node, subjects: seq<Subject>,
                                             computed: string, depth: nat, st: Loading)
    requires Ranked(s.graph.namespaces) && UnionOnlyGraph(s.graph) && Faithful(s.graph, st)
    requires depth <= MAX_USERSET_DEPTH
    ensures Covers(LoadParents(s, Some(t), subjects, computed, depth, st),
                   DeriveParents(s, tn, subjects, computed, t, depth, st.walked))
    decreases Fuel(depth), 0, 0, |subjects|
  {
    if subjects != [] {
      var rest := subjects[1..];
      if subjects[0].UsersetOf? {
        LoadParentsCovers(s, t, tn, rest, computed, depth, st);
      } else {
        var m := Node(subjects[0].ref, computed);
        LoadKeeps(s, Some(t), m, depth + 1, st);
        LoadCovers(s, t, m, depth + 1, st);
        var st1 := Load(s, Some(t), m, depth + 1, st);
        LoadParentsKeeps(s, Some(t), rest, computed, depth, st1);
        LoadParentsCovers(s, t, tn, rest, computed, depth, st1);
      }
    }
  }

  lemma {:induction false} LoadAllCovers(s: Snapshot, t: EntityRef, n: Node, cs: seq<Userset>, depth: nat, st: Loading)
    requires Ranked(s.graph.namespaces) && UnionOnlyGraph(s.graph) && Faithful(s.graph, st)
    requires depth <= MAX_USERSET_DEPTH && n in st.local
    requires forall c | c in cs :: Below(s.graph.namespaces, n, c) && UnionOnly(c)
    ensures Covers(LoadAll(s, Some(t), n, cs, depth, st), DeriveUnion(s, n, cs, t, depth, st.walked))
    decreases Fuel(depth), NodeRank(s.graph.namespaces, n), 1, cs
  {
    if cs != [] {
      LoadRewriteKeeps(s, Some(t), n, cs[0], depth, st);
      LoadRewriteCovers(s, t, n, cs[0], depth, st);
      var st1 := LoadRewrite(s, Some(t), n, cs[0], depth, st);
      LoadAllKeeps(s, Some(t), n, cs[1..], depth, st1);
      LoadAllCovers(s, t, n, cs[1..], depth, st1);
    }
  }

  // ----- Main results -----

  lemma {:induction false} LoadRelationsAdds(s: Snapshot, member: Option<EntityRef>, resource: EntityRef,
                                             relations: seq<string>, st: Loading)
    requires Ranked(s.graph.namespaces) && Faithful(s.graph, st) && (member.None? ==> IndexOff(s))
    ensures var st' := LoadRelations(s, member, resource, relations, st);
            Adds(s, st, st') && (!st'.cut ==> forall r | r in relations :: Node(resource, r) in st'.walked)
  {
    if relations != [] {
      assert forall r :: r in relations <==> r == relations[0] || r in relations[1..];
      LoadAdds(s, member, Node(resource, relations[0]), 0, st);
      var st1 := Load(s, member, Node(resource, relations[0]), 0, st);
      LoadRelationsAdds(s, member, resource, relations[1..], st1);
      AddsJoin(s, st, st1, LoadRelations(s, member, resource, relations[1..], st1));
    }
  }

  lemma {:induction false} SameRelations(s: Snapshot, s': Snapshot, resource: EntityRef, required: seq<string>,
                                         t: EntityRef)
    requires Ranked(s.graph.namespaces) && Ranked(s'.graph.namespaces)
    requires forall r | r in required ::
        Derive(s', Node(resource, r), t, 0, {}) == Derive(s, Node(resource, r), t, 0, {})
    ensures TryRelations(s', resource, required, t) == TryRelations(s, resource, required, t)
  {
    if required != [] {
      assert required[0] in required && forall r | r in required[1..] :: r in required;
      SameRelations(s, s', resource, required[1..], t);
    }
  }

  // Everything stored belongs to the snapshot's organization.
  ghost predicate OneOrg(s: Snapshot) {
    forall k | k in s.graph.namespaces :: s.graph.namespaces[k].orgId == s.orgId
  }

  // The snapshot the decision point builds for a query.
  ghost function LoadFor(s: Snapshot, q: Query): Loading
    requires Ranked(s.graph.namespaces)
  {
    LoadClosure(s, Some(q.subject), q.resource, RequiredRelations(s.graph.namespaces, q.action, q.resource))
  }

  // With the index off nothing is pruned.
  lemma IndexOffPrunesNothing(s: Snapshot, q: Query)
    requires Ranked(s.graph.namespaces) && IndexOff(s)
    ensures !LoadFor(s, q).pruned
  {
    var required := RequiredRelations(s.graph.namespaces, q.action, q.resource);
    LoadRelationsAdds(s, Some(q.subject), q.resource, required,
        LoadNamespace(s.graph, q.resource.kind, NOTHING_LOADED));
  }

  // If the loading walk is neither cut by the depth bound nor spared by the index, evaluating
  // what was loaded is evaluating everything with the same index entries, whatever the
  // rewrites and required relations.
  lemma LoadedDecision(s: Snapshot, q: Query)
    requires Ranked(s.graph.namespaces) && OneOrg(s) && Complete(LoadFor(s, q))
    ensures Ranked(LoadedSnapshot(s, LoadFor(s, q)).graph.namespaces)
    ensures Evaluate(q, LoadedSnapshot(s, LoadFor(s, q))) == Evaluate(q, s)
  {
    var required := RequiredRelations(s.graph.namespaces, q.action, q.resource);
    var st0, st := LoadNamespace(s.graph, q.resource.kind, NOTHING_LOADED), LoadFor(s, q);
    LoadRelationsAdds(s, Some(q.subject), q.resource, required, st0);
    LoadedIsRanked(s, st);
    forall r | r in required
      ensures Derive(LoadedSnapshot(s, st), Node(q.resource, r), q.subject, 0, {})
           == Derive(s, Node(q.resource, r), q.subject, 0, {})
    {
      DeriveSame(s, st, true, Node(q.resource, r), q.subject, 0, {});
    }
    SameRelations(s, LoadedSnapshot(s, st), q.resource, required, q.subject);
    assert RequiredRelations(st.reached, q.action, q.resource) == required;
  }

  // For one required relation and union-only rewrites there is no condition: truncated or
  // not, with the index pruning the loader, the decision is that of the full snapshot with
  // the same index entries.
  lemma LoadedDecisionUnionOnly(s: Snapshot, q: Query)
    requires Ranked(s.graph.namespaces) && UnionOnlyGraph(s.graph) && OneOrg(s)
    requires |RequiredRelations(s.graph.namespaces, q.action, q.resource)| == 1
    ensures Ranked(LoadedSnapshot(s, LoadFor(s, q)).graph.namespaces)
    ensures Evaluate(q, LoadedSnapshot(s, LoadFor(s, q))) == Evaluate(q, s)
  {
    var required := RequiredRelations(s.graph.namespaces, q.action, q.resource);
    var n := Node(q.resource, required[0]);
    var st0 := LoadNamespace(s.graph, q.resource.kind, NOTHING_LOADED);
    var st := Load(s, Some(q.subject), n, 0, st0);
    assert LoadFor(s, q) == st by {
      assert LoadRelations(s, Some(q.subject), q.resource, required[1..], st) == st;
    }
    LoadAdds(s, Some(q.subject), n, 0, st0);
    LoadCovers(s, q.subject, n, 0, st0);
    LoadedIsRanked(s, st);
    DeriveSame(s, st, false, n, q.subject, 0, {});
    SameRelations(s, LoadedSnapshot(s, st), q.resource, required, q.subject);
    assert RequiredRelations(st.reached, q.action, q.resource) == required;
  }
}
