/**
 Several required relations and only unions: the loader shares its walked set between the
 relations and the evaluator does not. Unless the depth bound cuts the load, the loaded
 snapshot still decides like the full one, with the same index entries.
 */
module LoadedRelations {
  import opened Prelude
  import opened Refs
  import opened Usersets
  import opened Snapshots
  import opened Walks
  import opened Agreement
  import opened Decisions
  import opened Loading
  import opened FaithfulLoading

  // What the relations denied so far left behind: a complete load, closed under steps.
  ghost predicate Region(s: Snapshot, base: Loading) {
    && Ranked(s.graph.namespaces) && UnionOnlyGraph(s.graph)
    && Complete(base) && forall m | m in base.walked :: NodeReady(s, base, m)
  }

  // ----- A walk that starts in the region stays there -----

  lemma {:induction false} DeriveStays(s: Snapshot, t: EntityRef, base: Loading, n: Node, depth: nat,
                                       visited: set<Node>)
    requires Region(s, base) && n in base.walked
    ensures Derive(s, n, t, depth, visited).visited <= visited + base.walked
    decreases Fuel(depth), NodeRank(s.graph.namespaces, n), 2
  {
    if depth <= MAX_USERSET_DEPTH && n !in visited {
      RewriteIsBelow(s.graph, n);
      assert NodeReady(s, base, n);
      RewriteStays(s, t, base, n, RewriteOf(s.graph, n), depth, visited + {n});
    }
  }

  lemma {:induction false} RewriteStays(s: Snapshot, t: EntityRef, base: Loading, n: Node, u: Userset, depth: nat,
                                        visited: set<Node>)
    requires Region(s, base) && UnionOnly(u) && StepsWalked(s, base, n, u)
    requires Below(s.graph.namespaces, n, u) && depth <= MAX_USERSET_DEPTH
    ensures DeriveRewrite(s, n, u, t, depth, visited).visited <= visited + base.walked
    decreases Fuel(depth), NodeRank(s.graph.namespaces, n), 1, u
  {
    match u
    case This => UsersetsStay(s, t, base, n, SubjectsOf(s.graph.tuples, n), depth, visited);
    case Computed(r) => DeriveStays(s, t, base, Node(n.entity, r), depth, visited);
    case TupleToUserset(ts, c) =>
      var tn := Node(n.entity, ts);
      ParentsStay(s, t, base, tn, SubjectsOf(s.graph.tuples, tn), c, depth, visited);
    case Union(cs) => UnionStays(s, t, base, n, cs, depth, visited);
  }

  lemma {:induction false} UsersetsStay(s: Snapshot, t: EntityRef, base: Loading, n: Node, subjects: seq<Subject>,
                                        depth: nat, visited: set<Node>)
    requires Region(s, base) && depth <= MAX_USERSET_DEPTH
    requires forall sub | sub in subjects && sub.UsersetOf? :: NodeOf(sub) in base.walked
    ensures DeriveUsersets(s, n, subjects, t, depth, visited).visited <= visited + base.walked
    decreases Fuel(depth), NodeRank(s.graph.namespaces, n), 0, |subjects|
  {
    if subjects != [] {
      var head, rest := subjects[0], subjects[1..];
      assert head in subjects && forall sub | sub in rest :: sub in subjects;
      if head.Direct? {
        UsersetsStay(s, t, base, n, rest, depth, visited);
      } else if !IndexGrants(s, NodeOf(head), t, depth) {
        DeriveStays(s, t, base, NodeOf(head), depth + 1, visited);
        UsersetsStay(s, t, base, n, rest, depth, Derive(s, NodeOf(head), t, depth + 1, visited).visited);
      }
    }
  }

  lemma {:induction false} ParentsStay(s: Snapshot, t: EntityRef, base: Loading, tn: Node, subjects: seq<Subject>,
                                       computed: string, depth: nat, visited: set<Node>)
    requires Region(s, base) && depth <= MAX_USERSET_DEPTH
    requires forall sub | sub in subjects && sub.Direct? :: Node(sub.ref, computed) in base.walked
    ensures DeriveParents(s, tn, subjects, computed, t, depth, visited).visited <= visited + base.walked
    decreases Fuel(depth), 0, 0, |subjects|
  {
    if subjects != [] {
      var head, rest := subjects[0], subjects[1..];
      assert head in subjects && forall sub | sub in rest :: sub in subjects;
      if head.UsersetOf? {
        ParentsStay(s, t, base, tn, rest, computed, depth, visited);
      } else {
        var m := Node(head.ref, computed);
        DeriveStays(s, t, base, m, depth + 1, visited);
        ParentsStay(s, t, base, tn, rest, computed, depth, Derive(s, m, t, depth + 1, visited).visited);
      }
    }
  }

  lemma {:induction false} UnionStays(s: Snapshot, t: EntityRef, base: Loading, n: Node, cs: seq<Userset>, depth: nat,
                                      visited: set<Node>)
    requires Region(s, base) && depth <= MAX_USERSET_DEPTH
    requires forall c | c in cs :: UnionOnly(c) && StepsWalked(s, base, n, c) && Below(s.graph.namespaces, n, c)
    ensures DeriveUnion(s, n, cs, t, depth, visited).visited <= visited + base.walked
    decreases Fuel(depth), NodeRank(s.graph.namespaces, n), 1, cs
  {
    if cs != [] {
      assert cs[0] in cs && forall c | c in cs[1..] :: c in cs;
      RewriteStays(s, t, base, n, cs[0], depth, visited);
      UnionStays(s, t, base, n, cs[1..], depth, DeriveRewrite(s, n, cs[0], t, depth, visited).visited);
    }
  }

  // ----- Outside the region, loader and evaluator go together -----

  // The walk read only walked nodes; a denial leaves exactly its nodes and the region walked,
  // and the index spared nothing.
  ghost predicate CoversBeyond(base: Loading, st: Loading, st': Loading, w: Walk) {
    && w.visited <= st'.walked
    && (w.grant.None? ==> st'.walked == w.visited + base.walked && st'.pruned == st.pruned)
  }

  ghost predicate Beyond(s: Snapshot, base: Loading, st: Loading, visited: set<Node>) {
    Region(s, base) && Faithful(s.graph, st) && st.walked == visited + base.walked
  }

  lemma {:induction false} LoadCoversBeyond(s: Snapshot, t: EntityRef, base: Loading, n: Node, depth: nat, st: Loading,
                                            visited: set<Node>)
    requires Beyond(s, base, st, visited) && !Load(s, Some(t), n, depth, st).cut
    ensures CoversBeyond(base, st, Load(s, Some(t), n, depth, st), Derive(s, n, t, depth, visited))
    decreases Fuel(depth), NodeRank(s.graph.namespaces, n), 2
  {
    if n in base.walked {
      DeriveStays(s, t, base, n, depth, visited);
      if depth <= MAX_USERSET_DEPTH && n !in visited { assert visited <= Derive(s, n, t, depth, visited).visited; }
    } else if n !in visited {
      RewriteIsBelow(s.graph, n);
      EnterIsFaithful(s.graph, n, st);
      LoadRewriteCoversBeyond(s, t, base, n, RewriteOf(s.graph, n), depth, Enter(s.graph, n, st), visited + {n});
    }
  }

  lemma {:induction false} LoadRewriteCoversBeyond(s: Snapshot, t: EntityRef, base: Loading, n: Node, u: Userset,
                                                   depth: nat, st: Loading, visited: set<Node>)
    requires Beyond(s, base, st, visited) && UnionOnly(u) && n in st.local
    requires Below(s.graph.namespaces, n, u) && depth <= MAX_USERSET_DEPTH
    requires !LoadRewrite(s, Some(t), n, u, depth, st).cut
    ensures CoversBeyond(base, st, LoadRewrite(s, Some(t), n, u, depth, st), DeriveRewrite(s, n, u, t, depth, visited))
    decreases Fuel(depth), NodeRank(s.graph.namespaces, n), 1, u
  {
    match u
    case This =>
      LoadUsersetsKeeps(s, Some(t), SubjectsOf(s.graph.tuples, n), depth, st);
      LoadUsersetsCoversBeyond(s, t, base, n, SubjectsOf(s.graph.tuples, n), depth, st, visited);
    case Computed(r) => LoadCoversBeyond(s, t, base, Node(n.entity, r), depth, st, visited);
    case TupleToUserset(ts, c) =>
      var tn := Node(n.entity, ts);
      LoadParentsCoversBeyond(s, t, base, tn, SubjectsOf(s.graph.tuples, tn), c, depth, LoadRows(s.graph, tn, st),
          visited);
    case Union(cs) => LoadAllCoversBeyond(s, t, base, n, cs, depth, st, visited);
  }

  lemma {:induction false} LoadUsersetsCoversBeyond(s: Snapshot, t: EntityRef, base: Loading, n: Node,
                                                    subjects: seq<Subject>, depth: nat, st: Loading, visited: set<Node>)
    requires Beyond(s, base, st, visited) && depth <= MAX_USERSET_DEPTH
    requires !LoadUsersets(s, Some(t), subjects, depth, st).cut
    ensures CoversBeyond(base, st, LoadUsersets(s, Some(t), subjects, depth, st),
                         DeriveUsersets(s, n, subjects, t, depth, visited))
    decreases Fuel(depth), NodeRank(s.graph.namespaces, n), 0, |subjects|
  {
    if subjects != [] {
      var head, rest := subjects[0], subjects[1..];
      if head.Direct? {
        LoadUsersetsCoversBeyond(s, t, base, n, rest, depth, st, visited);
      } else {
        var st1 := st.(consulted := true);
        if IndexGrants(s, NodeOf(head), t, depth) {
          LoadUsersetsKeeps(s, Some(t), rest, depth, st1.(pruned := true));
        } else {
          var st2 := Load(s, Some(t), NodeOf(head), depth + 1, st1);
          LoadKeeps(s, Some(t), NodeOf(head), depth + 1, st1);
          LoadUsersetsKeeps(s, Some(t), rest, depth, st2);
          LoadCoversBeyond(s, t, base, NodeOf(head), depth + 1, st1, visited);
          var w := Derive(s, NodeOf(head), t, depth + 1, visited);
          if w.grant.None? { LoadUsersetsCoversBeyond(s, t, base, n, rest, depth, st2, w.visited); }
        }
      }
    }
  }

  lemma {:induction false} LoadParentsCoversBeyond(s: Snapshot, t: EntityRef, base: Loading, tn: Node,
                                                   subjects: seq<Subject>, computed: string, depth: nat, st: Loading,
                                                   visited: set<Node>)
    requires Beyond(s, base, st, visited) && depth <= MAX_USERSET_DEPTH
    requires !LoadParents(s, Some(t), subjects, computed, depth, st).cut
    ensures CoversBeyond(base, st, LoadParents(s, Some(t), subjects, computed, depth, st),
                         DeriveParents(s, tn, subjects, computed, t, depth, visited))
    decreases Fuel(depth), 0, 0, |subjects|
  {
    if subjects != [] {
      var head, rest := subjects[0], subjects[1..];
      if head.UsersetOf? {
        LoadParentsCoversBeyond(s, t, base, tn, rest, computed, depth, st, visited);
      } else {
        var m := Node(head.ref, computed);
        var st1 := Load(s, Some(t), m, depth + 1, st);
        LoadKeeps(s, Some(t), m, depth + 1, st);
        LoadParentsKeeps(s, Some(t), rest, computed, depth, st1);
        LoadCoversBeyond(s, t, base, m, depth + 1, st, visited);
        var w := Derive(s, m, t, depth + 1, visited);
        if w.grant.None? { LoadParentsCoversBeyond(s, t, base, tn, rest, computed, depth, st1, w.visited); }
      }
    }
  }

  lemma {:induction false} LoadAllCoversBeyond(s: Snapshot, t: EntityRef, base: Loading, n: Node, cs: seq<Userset>,
                                               depth: nat, st: Loading, visited: set<Node>)
    requires Beyond(s, base, st, visited) && depth <= MAX_USERSET_DEPTH && n in st.local
    requires forall c | c in cs :: Below(s.graph.namespaces, n, c) && UnionOnly(c)
    requires !LoadAll(s, Some(t), n, cs, depth, st).cut
    ensures CoversBeyond(base, st, LoadAll(s, Some(t), n, cs, depth, st), DeriveUnion(s, n, cs, t, depth, visited))
    decreases Fuel(depth), NodeRank(s.graph.namespaces, n), 1, cs
  {
    if cs != [] {
      var st1 := LoadRewrite(s, Some(t), n, cs[0], depth, st);
      LoadRewriteKeeps(s, Some(t), n, cs[0], depth, st);
      LoadAllKeeps(s, Some(t), n, cs[1..], depth, st1);
      LoadRewriteCoversBeyond(s, t, base, n, cs[0], depth, st, visited);
      var w := DeriveRewrite(s, n, cs[0], t, depth, visited);
      if w.grant.None? { LoadAllCoversBeyond(s, t, base, n, cs[1..], depth, st1, w.visited); }
    }
  }

  // ----- Relation after relation -----

  lemma RegionGrows(s: Snapshot, base: Loading, st: Loading)
    requires Region(s, base) && Adds(s, base, st) && Complete(st)
    ensures Region(s, st)
  {
    forall m | m in st.walked ensures NodeReady(s, st, m) {
      if m in base.walked { ReadyStays(s, base, st, m, RewriteOf(s.graph, m)); }
    }
  }

  lemma AllReady(s: Snapshot, base: Loading, st: Loading)
    requires Region(s, base) && Adds(s, base, st)
    ensures forall m | m in st.walked :: NodeReady(s, st, m)
  {
    forall m | m in st.walked ensures NodeReady(s, st, m) {
      if m in base.walked { ReadyStays(s, base, st, m, RewriteOf(s.graph, m)); }
    }
  }

  lemma {:induction false} SameAttempts(s: Snapshot, t: EntityRef, resource: EntityRef, relations: seq<string>,
                                        base: Loading, last: Loading)
    requires Region(s, base) && Faithful(s.graph, base) && !last.cut && Ranked(LoadedSnapshot(s, last).graph.namespaces)
    requires last == LoadRelations(s, Some(t), resource, relations, base)
    ensures TryRelations(LoadedSnapshot(s, last), resource, relations, t) == TryRelations(s, resource, relations, t)
  {
    LoadRelationsAdds(s, Some(t), resource, relations, base);
    if relations != [] {
      var n := Node(resource, relations[0]);
      var st := Load(s, Some(t), n, 0, base);
      LoadAdds(s, Some(t), n, 0, base);
      LoadRelationsAdds(s, Some(t), resource, relations[1..], st);
      LoadCoversBeyond(s, t, base, n, 0, base, {});
      AllReady(s, base, last);
      DeriveSame(s, last, false, n, t, 0, {});
      if Derive(s, n, t, 0, {}).grant.None? {
        RegionGrows(s, base, st);
        SameAttempts(s, t, resource, relations[1..], st, last);
      }
    }
  }

  // ----- Main result -----

  lemma LoadedDecisionUnions(s: Snapshot, q: Query)
    requires Ranked(s.graph.namespaces) && UnionOnlyGraph(s.graph) && OneOrg(s) && !LoadFor(s, q).cut
    ensures Ranked(LoadedSnapshot(s, LoadFor(s, q)).graph.namespaces)
    ensures Evaluate(q, LoadedSnapshot(s, LoadFor(s, q))) == Evaluate(q, s)
  {
    var required := RequiredRelations(s.graph.namespaces, q.action, q.resource);
    var st0, st := LoadNamespace(s.graph, q.resource.kind, NOTHING_LOADED), LoadFor(s, q);
    LoadRelationsAdds(s, Some(q.subject), q.resource, required, st0);
    LoadedIsRanked(s, st);
    SameAttempts(s, q.subject, q.resource, required, st0, st);
    assert RequiredRelations(st.reached, q.action, q.resource) == required;
  }
}
