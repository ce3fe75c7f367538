/** Expanding the loaded snapshot is expanding everything that is stored. */
module LoadedExpansion {
  import opened Prelude
  import opened Refs
  import opened Usersets
  import opened Snapshots
  import opened Walks
  import opened Agreement
  import opened Loading
  import opened FaithfulLoading

  // What expand loads: one relation, and nobody to look up in the index.
  ghost function LoadForExpand(s: Snapshot, n: Node): Loading
    requires Ranked(s.graph.namespaces)
  {
    Load(s, None, n, 0, LoadNamespace(s.graph, n.entity.kind, NOTHING_LOADED))
  }

  ghost predicate Gathered(s: Snapshot, st: Loading, closed: bool, visited: set<Node>, g: Gather) {
    closed || (visited <= g.visited && forall m | m in g.visited && m !in visited :: NodeReady(s, st, m))
  }

  // ----- A collection inside the loaded data reads the same -----

  lemma {:induction false} CollectKeepsVisited(s: Graph, n: Node, depth: nat, visited: set<Node>)
    requires Ranked(s.namespaces)
    ensures visited <= Collect(s, n, depth, visited).visited
    decreases Fuel(depth), NodeRank(s.namespaces, n), 2
  {
    if depth <= MAX_USERSET_DEPTH && n !in visited {
      RewriteIsBelow(s, n);
      RewriteKeepsVisited(s, n, RewriteOf(s, n), depth, visited + {n});
    }
  }

  lemma {:induction false} RewriteKeepsVisited(s: Graph, n: Node, u: Userset, depth: nat, visited: set<Node>)
    requires Ranked(s.namespaces) && Below(s.namespaces, n, u) && depth <= MAX_USERSET_DEPTH
    ensures visited <= CollectRewrite(s, n, u, depth, visited).visited
    decreases Fuel(depth), NodeRank(s.namespaces, n), 1, u
  {
    match u
    case This => SubjectsKeepVisited(s, SubjectsOf(s.tuples, n), depth, visited);
    case Computed(r) => CollectKeepsVisited(s, Node(n.entity, r), depth, visited);
    case TupleToUserset(ts, c) => ParentsKeepVisited(s, SubjectsOf(s.tuples, Node(n.entity, ts)), c, depth, visited);
    case Union(cs) => UnionKeepsVisited(s, n, cs, depth, visited);
    case _ =>
  }

  lemma {:induction false} SubjectsKeepVisited(s: Graph, subjects: seq<Subject>, depth: nat, visited: set<Node>)
    requires Ranked(s.namespaces) && depth <= MAX_USERSET_DEPTH
    ensures visited <= CollectSubjects(s, subjects, depth, visited).visited
    decreases Fuel(depth), 0, 0, |subjects|
  {
    if subjects != [] {
      if subjects[0].Direct? {
        SubjectsKeepVisited(s, subjects[1..], depth, visited);
      } else {
        CollectKeepsVisited(s, NodeOf(subjects[0]), depth + 1, visited);
        SubjectsKeepVisited(s, subjects[1..], depth, Collect(s, NodeOf(subjects[0]), depth + 1, visited).visited);
      }
    }
  }

  lemma {:induction false} ParentsKeepVisited(s: Graph, subjects: seq<Subject>, computed: string, depth: nat,
                                              visited: set<Node>)
    requires Ranked(s.namespaces) && depth <= MAX_USERSET_DEPTH
    ensures visited <= CollectParents(s, subjects, computed, depth, visited).visited
    decreases Fuel(depth), 0, 0, |subjects|
  {
    if subjects != [] {
      if subjects[0].UsersetOf? {
        ParentsKeepVisited(s, subjects[1..], computed, depth, visited);
      } else {
        var m := Node(subjects[0].ref, computed);
        CollectKeepsVisited(s, m, depth + 1, visited);
        ParentsKeepVisited(s, subjects[1..], computed, depth, Collect(s, m, depth + 1, visited).visited);
      }
    }
  }

  lemma {:induction false} UnionKeepsVisited(s: Graph, n: Node, cs: seq<Userset>, depth: nat, visited: set<Node>)
    requires Ranked(s.namespaces) && depth <= MAX_USERSET_DEPTH
    requires forall c | c in cs :: Below(s.namespaces, n, c)
    ensures visited <= CollectUnion(s, n, cs, depth, visited).visited
    decreases Fuel(depth), NodeRank(s.namespaces, n), 1, cs
  {
    if cs != [] {
      RewriteKeepsVisited(s, n, cs[0], depth, visited);
      UnionKeepsVisited(s, n, cs[1..], depth, CollectRewrite(s, n, cs[0], depth, visited).visited);
    }
  }

  lemma {:induction false} CollectSame(s: Snapshot, st: Loading, closed: bool, n: Node, depth: nat, visited: set<Node>)
    requires World(s, st, closed) && (closed ==> n in st.walked)
    requires Gathered(s, st, closed, visited, Collect(s.graph, n, depth, visited))
    ensures Collect(LoadedSnapshot(s, st).graph, n, depth, visited) == Collect(s.graph, n, depth, visited)
    decreases Fuel(depth), NodeRank(s.graph.namespaces, n), 2
  {
    if depth <= MAX_USERSET_DEPTH && n !in visited {
      RewriteIsBelow(s.graph, n);
      RewriteKeepsVisited(s.graph, n, RewriteOf(s.graph, n), depth, visited + {n});
      assert n in Collect(s.graph, n, depth, visited).visited;
      assert NodeReady(s, st, n);
      assert RewriteOf(LoadedSnapshot(s, st).graph, n) == RewriteOf(s.graph, n);
      RewriteIsBelow(LoadedSnapshot(s, st).graph, n);
      CollectRewriteSame(s, st, closed, n, RewriteOf(s.graph, n), depth, visited + {n});
    }
  }

  lemma {:induction false} CollectRewriteSame(s: Snapshot, st: Loading, closed: bool, n: Node, u: Userset, depth: nat,
                                              visited: set<Node>)
    requires World(s, st, closed) && Operand(s, st, closed, n, u) && depth <= MAX_USERSET_DEPTH
    requires Below(s.graph.namespaces, n, u)
    requires Below(LoadedSnapshot(s, st).graph.namespaces, n, u)
    requires Gathered(s, st, closed, visited, CollectRewrite(s.graph, n, u, depth, visited))
    ensures CollectRewrite(LoadedSnapshot(s, st).graph, n, u, depth, visited)
        == CollectRewrite(s.graph, n, u, depth, visited)
    decreases Fuel(depth), NodeRank(s.graph.namespaces, n), 1, u
  {
    match u
    case This => CollectSubjectsSame(s, st, closed, SubjectsOf(s.graph.tuples, n), depth, visited);
    case Computed(r) => CollectSame(s, st, closed, Node(n.entity, r), depth, visited);
    case TupleToUserset(ts, c) =>
      CollectParentsSame(s, st, closed, SubjectsOf(s.graph.tuples, Node(n.entity, ts)), c, depth, visited);
    case Union(cs) => CollectUnionSame(s, st, closed, n, cs, depth, visited);
    case Intersection(cs) => CollectIntersectionSame(s, st, n, cs, None, depth);
    case Exclusion(b, sub) =>
      CollectRewriteSame(s, st, closed, n, b, depth, {});
      CollectRewriteSame(s, st, closed, n, sub, depth, {});
  }

  lemma {:induction false} CollectSubjectsSame(s: Snapshot, st: Loading, closed: bool, subjects: seq<Subject>,
                                               depth: nat, visited: set<Node>)
    requires World(s, st, closed) && depth <= MAX_USERSET_DEPTH
    requires closed ==> forall sub | sub in subjects && sub.UsersetOf? :: NodeOf(sub) in st.walked
    requires Gathered(s, st, closed, visited, CollectSubjects(s.graph, subjects, depth, visited))
    ensures CollectSubjects(LoadedSnapshot(s, st).graph, subjects, depth, visited)
         == CollectSubjects(s.graph, subjects, depth, visited)
    decreases Fuel(depth), 0, 0, |subjects|
  {
    if subjects != [] {
      var rest := subjects[1..];
      assert subjects[0] in subjects && forall sub | sub in rest :: sub in subjects;
      if subjects[0].Direct? {
        CollectSubjectsSame(s, st, closed, rest, depth, visited);
      } else {
        var m := NodeOf(subjects[0]);
        var g := Collect(s.graph, m, depth + 1, visited);
        CollectKeepsVisited(s.graph, m, depth + 1, visited);
        SubjectsKeepVisited(s.graph, rest, depth, g.visited);
        CollectSame(s, st, closed, m, depth + 1, visited);
        CollectSubjectsSame(s, st, closed, rest, depth, g.visited);
      }
    }
  }

  lemma {:induction false} CollectParentsSame(s: Snapshot, st: Loading, closed: bool, subjects: seq<Subject>,
                                              computed: string, depth: nat, visited: set<Node>)
    requires World(s, st, closed) && depth <= MAX_USERSET_DEPTH
    requires closed ==> forall sub | sub in subjects && sub.Direct? :: Node(sub.ref, computed) in st.walked
    requires Gathered(s, st, closed, visited, CollectParents(s.graph, subjects, computed, depth, visited))
    ensures CollectParents(LoadedSnapshot(s, st).graph, subjects, computed, depth, visited)
         == CollectParents(s.graph, subjects, computed, depth, visited)
    decreases Fuel(depth), 0, 0, |subjects|
  {
    if subjects != [] {
      var rest := subjects[1..];
      assert subjects[0] in subjects && forall sub | sub in rest :: sub in subjects;
      if subjects[0].UsersetOf? {
        CollectParentsSame(s, st, closed, rest, computed, depth, visited);
      } else {
        var m := Node(subjects[0].ref, computed);
        var g := Collect(s.graph, m, depth + 1, visited);
        CollectKeepsVisited(s.graph, m, depth + 1, visited);
        ParentsKeepVisited(s.graph, rest, computed, depth, g.visited);
        CollectSame(s, st, closed, m, depth + 1, visited);
        CollectParentsSame(s, st, closed, rest, computed, depth, g.visited);
      }
    }
  }

  lemma {:induction false} CollectUnionSame(s: Snapshot, st: Loading, closed: bool, n: Node, cs: seq<Userset>,
                                            depth: nat, visited: set<Node>)
    requires World(s, st, closed) && depth <= MAX_USERSET_DEPTH
    requires forall c | c in cs :: && Operand(s, st, closed, n, c) && Below(s.graph.namespaces, n, c)
                                   && Below(LoadedSnapshot(s, st).graph.namespaces, n, c)
    requires Gathered(s, st, closed, visited, CollectUnion(s.graph, n, cs, depth, visited))
    ensures CollectUnion(LoadedSnapshot(s, st).graph, n, cs, depth, visited)
        == CollectUnion(s.graph, n, cs, depth, visited)
    decreases Fuel(depth), NodeRank(s.graph.namespaces, n), 1, cs
  {
    if cs != [] {
      assert cs[0] in cs && forall c | c in cs[1..] :: c in cs;
      var g := CollectRewrite(s.graph, n, cs[0], depth, visited);
      RewriteKeepsVisited(s.graph, n, cs[0], depth, visited);
      UnionKeepsVisited(s.graph, n, cs[1..], depth, g.visited);
      CollectRewriteSame(s, st, closed, n, cs[0], depth, visited);
      CollectUnionSame(s, st, closed, n, cs[1..], depth, g.visited);
    }
  }

  lemma {:induction false} CollectIntersectionSame(s: Snapshot, st: Loading, n: Node, cs: seq<Userset>,
                                                   acc: Option<seq<Member>>, depth: nat)
    requires World(s, st, true) && depth <= MAX_USERSET_DEPTH
    requires forall c | c in cs :: && Operand(s, st, true, n, c) && Below(s.graph.namespaces, n, c)
                                   && Below(LoadedSnapshot(s, st).graph.namespaces, n, c)
    ensures CollectIntersection(LoadedSnapshot(s, st).graph, n, cs, acc, depth)
         == CollectIntersection(s.graph, n, cs, acc, depth)
    decreases Fuel(depth), NodeRank(s.graph.namespaces, n), 1, cs
  {
    if cs != [] {
      assert cs[0] in cs && forall c | c in cs[1..] :: c in cs;
      CollectRewriteSame(s, st, true, n, cs[0], depth, {});
      var g := CollectRewrite(s.graph, n, cs[0], depth, {});
      var acc' := if acc.None? then g.members else Meet(acc.value, g.members);
      CollectIntersectionSame(s, st, n, cs[1..], Some(acc'), depth);
    }
  }

  // ----- With unions only the loader walks exactly the nodes that are collected -----

  lemma {:induction false} LoadVisitsSame(s: Snapshot, n: Node, depth: nat, st: Loading)
    requires Ranked(s.graph.namespaces) && UnionOnlyGraph(s.graph)
    ensures Load(s, None, n, depth, st).walked == Collect(s.graph, n, depth, st.walked).visited
    decreases Fuel(depth), NodeRank(s.graph.namespaces, n), 2
  {
    if n !in st.walked && depth <= MAX_USERSET_DEPTH {
      RewriteIsBelow(s.graph, n);
      LoadRewriteVisitsSame(s, n, RewriteOf(s.graph, n), depth, Enter(s.graph, n, st));
    }
  }

  lemma {:induction false} LoadRewriteVisitsSame(s: Snapshot, n: Node, u: Userset, depth: nat, st: Loading)
    requires Ranked(s.graph.namespaces) && UnionOnlyGraph(s.graph)
    requires Below(s.graph.namespaces, n, u) && depth <= MAX_USERSET_DEPTH && UnionOnly(u)
    ensures LoadRewrite(s, None, n, u, depth, st).walked == CollectRewrite(s.graph, n, u, depth, st.walked).visited
    decreases Fuel(depth), NodeRank(s.graph.namespaces, n), 1, u
  {
    match u
    case This => LoadUsersetsVisitSame(s, SubjectsOf(s.graph.tuples, n), depth, st);
    case Computed(r) => LoadVisitsSame(s, Node(n.entity, r), depth, st);
    case TupleToUserset(ts, c) =>
      var tn := Node(n.entity, ts);
      LoadParentsVisitSame(s, SubjectsOf(s.graph.tuples, tn), c, depth, LoadRows(s.graph, tn, st));
    case Union(cs) => LoadAllVisitsSame(s, n, cs, depth, st);
  }

  lemma {:induction false} LoadUsersetsVisitSame(s: Snapshot, subjects: seq<Subject>, depth: nat, st: Loading)
    requires Ranked(s.graph.namespaces) && UnionOnlyGraph(s.graph) && depth <= MAX_USERSET_DEPTH
    ensures LoadUsersets(s, None, subjects, depth, st).walked
         == CollectSubjects(s.graph, subjects, depth, st.walked).visited
    decreases Fuel(depth), 0, 0, |subjects|
  {
    if subjects != [] {
      if subjects[0].Direct? {
        LoadUsersetsVisitSame(s, subjects[1..], depth, st);
      } else {
        LoadVisitsSame(s, NodeOf(subjects[0]), depth + 1, st);
        LoadUsersetsVisitSame(s, subjects[1..], depth, Load(s, None, NodeOf(subjects[0]), depth + 1, st));
      }
    }
  }

  lemma {:induction false} LoadParentsVisitSame(s: Snapshot, subjects: seq<Subject>, computed: string, depth: nat,
                                                st: Loading)
    requires Ranked(s.graph.namespaces) && UnionOnlyGraph(s.graph) && depth <= MAX_USERSET_DEPTH
    ensures LoadParents(s, None, subjects, computed, depth, st).walked
         == CollectParents(s.graph, subjects, computed, depth, st.walked).visited
    decreases Fuel(depth), 0, 0, |subjects|
  {
    if subjects != [] {
      if subjects[0].UsersetOf? {
        LoadParentsVisitSame(s, subjects[1..], computed, depth, st);
      } else {
        var m := Node(subjects[0].ref, computed);
        LoadVisitsSame(s, m, depth + 1, st);
        LoadParentsVisitSame(s, subjects[1..], computed, depth, Load(s, None, m, depth + 1, st));
      }
    }
  }

  lemma {:induction false} LoadAllVisitsSame(s: Snapshot, n: Node, cs: seq<Userset>, depth: nat, st: Loading)
    requires Ranked(s.graph.namespaces) && UnionOnlyGraph(s.graph) && depth <= MAX_USERSET_DEPTH
    requires forall c | c in cs :: Below(s.graph.namespaces, n, c) && UnionOnly(c)
    ensures LoadAll(s, None, n, cs, depth, st).walked == CollectUnion(s.graph, n, cs, depth, st.walked).visited
    decreases Fuel(depth), NodeRank(s.graph.namespaces, n), 1, cs
  {
    if cs != [] {
      LoadRewriteVisitsSame(s, n, cs[0], depth, st);
      LoadAllVisitsSame(s, n, cs[1..], depth, LoadRewrite(s, None, n, cs[0], depth, st));
    }
  }

  // ----- Main result -----

  lemma {:induction false} NobodyPrunes(s: Snapshot, n: Node)
    requires Ranked(s.graph.namespaces) && IndexOff(s)
    ensures var st := LoadForExpand(s, n);
            && Faithful(s.graph, st) && !st.pruned && (!st.cut ==> n in st.walked)
            && forall m | m in st.walked :: NodeReady(s, st, m)
  {
    LoadAdds(s, None, n, 0, LoadNamespace(s.graph, n.entity.kind, NOTHING_LOADED));
  }

  // Expanding what was loaded is expanding everything, if the load was not cut or there are only unions.
  lemma LoadedExpand(s: Snapshot, n: Node)
    requires Ranked(s.graph.namespaces) && IndexOff(s)
    requires !LoadForExpand(s, n).cut || UnionOnlyGraph(s.graph)
    ensures Ranked(LoadedSnapshot(s, LoadForExpand(s, n)).graph.namespaces)
    ensures Expand(LoadedSnapshot(s, LoadForExpand(s, n)), s.orgId, n) == Expand(s, s.orgId, n)
  {
    var st := LoadForExpand(s, n);
    NobodyPrunes(s, n);
    LoadedIsRanked(s, st);
    if st.cut {
      LoadVisitsSame(s, n, 0, LoadNamespace(s.graph, n.entity.kind, NOTHING_LOADED));
      CollectSame(s, st, false, n, 0, {});
    } else {
      CollectSame(s, st, true, n, 0, {});
    }
  }
}
