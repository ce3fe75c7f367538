/** What expanding a loaded closure may list when the load was cut: real members, and no others. */
module PartialExpansion {
  import opened Prelude
  import opened Refs
  import opened Usersets
  import opened Snapshots
  import opened Walks
  import opened Semantics
  import opened Derivations
  import opened Loading
  import opened LoadedChecks
  import opened LoadedExpansion

  // ----- A derivation over a part is one over the whole -----

  lemma {:induction false} PartWithin(part: Graph, g: Graph, t: EntityRef, lower: Interpretation,
                                      upper: Interpretation, b: int, n: Node)
    requires PartOfGraph(part, g) && Within(part, t, lower, upper, b, n)
    ensures Within(g, t, lower, upper, b, n)
    decreases Steps(b), NodeRank(part.namespaces, n), 1
  {
    RewriteIsBelow(g, n);
    assert !Blank(part, n);
    PartRewriteIsWithin(part, g, t, lower, upper, b, n, RewriteOf(part, n));
  }

  lemma {:induction false} PartRewriteIsWithin(part: Graph, g: Graph, t: EntityRef, lower: Interpretation,
                                               upper: Interpretation, b: int, n: Node, u: Userset)
    requires PartOfGraph(part, g) && b >= 0 && ExclusionFree(u)
    requires Below(part.namespaces, n, u) && Below(g.namespaces, n, u)
    requires WithinRewrite(part, t, lower, upper, b, n, u)
    ensures WithinRewrite(g, t, lower, upper, b, n, u)
    decreases Steps(b), NodeRank(part.namespaces, n), 0, u
  {
    match u
    case This =>
      if Direct(t) !in SubjectsOf(part.tuples, n) {
        var sub :| sub in SubjectsOf(part.tuples, n) && sub.UsersetOf?
                   && Within(part, t, lower, upper, b - 1, NodeOf(sub));
        PartWithin(part, g, t, lower, upper, b - 1, NodeOf(sub));
      }
    case Computed(r) => PartWithin(part, g, t, lower, upper, b, Node(n.entity, r));
    case TupleToUserset(ts, c) =>
      var sub :| sub in SubjectsOf(part.tuples, Node(n.entity, ts)) && sub.Direct?
                 && Within(part, t, lower, upper, b - 1, Node(sub.ref, c));
      PartWithin(part, g, t, lower, upper, b - 1, Node(sub.ref, c));
    case Union(cs) =>
      var c :| c in cs && WithinRewrite(part, t, lower, upper, b, n, c);
      PartRewriteIsWithin(part, g, t, lower, upper, b, n, c);
    case Intersection(cs) =>
      forall c | c in cs ensures WithinRewrite(g, t, lower, upper, b, n, c) {
        PartRewriteIsWithin(part, g, t, lower, upper, b, n, c);
      }
  }

  // ----- Without exclusions a collection reports none, and no member beyond the depth bound -----

  ghost predicate InBound(ms: seq<Member>) { forall m | m in ms :: m.depth <= MAX_USERSET_DEPTH }

  ghost predicate Plain(c: Gather) { !c.excluded && InBound(c.members) }

  lemma {:induction false} CollectIsPlain(g: Graph, n: Node, depth: nat, visited: set<Node>)
    requires Ranked(g.namespaces) && ExclusionFreeGraph(g)
    ensures Plain(Collect(g, n, depth, visited))
    decreases Fuel(depth), NodeRank(g.namespaces, n), 2
  {
    if depth <= MAX_USERSET_DEPTH && n !in visited {
      RewriteIsBelow(g, n);
      CollectRewriteIsPlain(g, n, RewriteOf(g, n), depth, visited + {n});
    }
  }

  lemma {:induction false} CollectRewriteIsPlain(g: Graph, n: Node, u: Userset, depth: nat, visited: set<Node>)
    requires Ranked(g.namespaces) && ExclusionFreeGraph(g) && depth <= MAX_USERSET_DEPTH
    requires Below(g.namespaces, n, u) && ExclusionFree(u)
    ensures Plain(CollectRewrite(g, n, u, depth, visited))
    decreases Fuel(depth), NodeRank(g.namespaces, n), 1, u
  {
    match u
    case This => CollectSubjectsIsPlain(g, SubjectsOf(g.tuples, n), depth, visited);
    case Computed(r) => CollectIsPlain(g, Node(n.entity, r), depth, visited);
    case TupleToUserset(ts, c) =>
      CollectParentsIsPlain(g, SubjectsOf(g.tuples, Node(n.entity, ts)), c, depth, visited);
    case Union(cs) => CollectUnionIsPlain(g, n, cs, depth, visited);
    case Intersection(cs) => CollectIntersectionIsPlain(g, n, cs, None, depth);
  }

  lemma {:induction false} CollectSubjectsIsPlain(g: Graph, subjects: seq<Subject>, depth: nat, visited: set<Node>)
    requires Ranked(g.namespaces) && ExclusionFreeGraph(g) && depth <= MAX_USERSET_DEPTH
    ensures Plain(CollectSubjects(g, subjects, depth, visited))
    decreases Fuel(depth), 0, 0, |subjects|
  {
    if subjects != [] {
      if subjects[0].Direct? {
        CollectSubjectsIsPlain(g, subjects[1..], depth, visited);
      } else {
        var first := Collect(g, NodeOf(subjects[0]), depth + 1, visited);
        CollectIsPlain(g, NodeOf(subjects[0]), depth + 1, visited);
        CollectSubjectsIsPlain(g, subjects[1..], depth, first.visited);
      }
    }
  }

  lemma {:induction false} CollectParentsIsPlain(g: Graph, subjects: seq<Subject>, computed: string, depth: nat,
                                                 visited: set<Node>)
    requires Ranked(g.namespaces) && ExclusionFreeGraph(g) && depth <= MAX_USERSET_DEPTH
    ensures Plain(CollectParents(g, subjects, computed, depth, visited))
    decreases Fuel(depth), 0, 0, |subjects|
  {
    if subjects != [] {
      if subjects[0].UsersetOf? {
        CollectParentsIsPlain(g, subjects[1..], computed, depth, visited);
      } else {
        var first := Collect(g, Node(subjects[0].ref, computed), depth + 1, visited);
        CollectIsPlain(g, Node(subjects[0].ref, computed), depth + 1, visited);
        CollectParentsIsPlain(g, subjects[1..], computed, depth, first.visited);
      }
    }
  }

  lemma {:induction false} CollectUnionIsPlain(g: Graph, n: Node, cs: seq<Userset>, depth: nat, visited: set<Node>)
    requires Ranked(g.namespaces) && ExclusionFreeGraph(g) && depth <= MAX_USERSET_DEPTH
    requires forall c | c in cs :: Below(g.namespaces, n, c) && ExclusionFree(c)
    ensures Plain(CollectUnion(g, n, cs, depth, visited))
    decreases Fuel(depth), NodeRank(g.namespaces, n), 1, cs
  {
    if cs != [] {
      CollectRewriteIsPlain(g, n, cs[0], depth, visited);
      CollectUnionIsPlain(g, n, cs[1..], depth, CollectRewrite(g, n, cs[0], depth, visited).visited);
    }
  }

  lemma {:induction false} CollectIntersectionIsPlain(g: Graph, n: Node, cs: seq<Userset>, acc: Option<seq<Member>>,
                                                      depth: nat)
    requires Ranked(g.namespaces) && ExclusionFreeGraph(g) && depth <= MAX_USERSET_DEPTH
    requires forall c | c in cs :: Below(g.namespaces, n, c) && ExclusionFree(c)
    requires acc.Some? ==> InBound(acc.value)
    ensures Plain(CollectIntersection(g, n, cs, acc, depth))
    decreases Fuel(depth), NodeRank(g.namespaces, n), 1, cs
  {
    if cs != [] {
      var first := CollectRewrite(g, n, cs[0], depth, {});
      CollectRewriteIsPlain(g, n, cs[0], depth, {});
      var acc' := if acc.None? then first.members else Meet(acc.value, first.members);
      if acc.Some? { MeetInBound(acc.value, first.members); }
      CollectIntersectionIsPlain(g, n, cs[1..], Some(acc'), depth);
    }
  }

  lemma {:induction false} MeetInBound(xs: seq<Member>, ys: seq<Member>)
    requires InBound(xs) && InBound(ys)
    ensures InBound(Meet(xs, ys))
  {
    if xs != [] { MeetInBound(xs[1..], ys); }
  }

  // So every set of such a graph may be indexed.
  lemma FlattenedIsMonotonic(g: Graph, n: Node)
    requires Ranked(g.namespaces) && ExclusionFreeGraph(g)
    ensures FlattenSet(g, n).monotonic
  {
    CollectIsPlain(g, n, 0, {});
  }

  // ----- Main result -----

  lemma ExpandedIsWithin(part: Graph, g: Graph, t: EntityRef, n: Node)
    requires PartOfGraph(part, g) && t in FlattenSet(part, n).members
    ensures var m := Members(g, t); n in m && Within(g, t, m, m, MAX_USERSET_DEPTH, n)
  {
    var m := Members(g, t);
    var depth := FlattenSet(part, n).members[t];
    assert ExclusionFreeGraph(part) by {
      forall x: Node ensures ExclusionFree(RewriteOf(part, x)) {
        assert RewriteOf(part, x) == RewriteOf(g, x) || Blank(part, x);
      }
    }
    CollectIsPlain(part, n, 0, {});
    FlattenedDepthsAreDerivations(part, n, t, m, m);
    LeastDepthsAreLeast(Collect(part, n, 0, {}).members);
    WithinMore(part, t, m, m, depth, MAX_USERSET_DEPTH, n);
    PartWithin(part, g, t, m, m, MAX_USERSET_DEPTH, n);
    ExclusionFreeModel(g, t, m, m);
    WithinIsCertain(g, t, m, m, MAX_USERSET_DEPTH, n);
  }

  // Without exclusions whatever expand lists is a member among all stored facts, by a
  // derivation within the depth bound, cut or not.
  lemma LoadedExpandListsMembers(s: Snapshot, n: Node)
    requires Ranked(s.graph.namespaces) && IndexOff(s) && ExclusionFreeGraph(s.graph)
    ensures var loaded := LoadedSnapshot(s, LoadForExpand(s, n));
            Ranked(loaded.graph.namespaces) && forall t | t in Expand(loaded, s.orgId, n) ::
              var m := Members(s.graph, t); n in m && Within(s.graph, t, m, m, MAX_USERSET_DEPTH, n)
  {
    var st, loaded := LoadForExpand(s, n), LoadedSnapshot(s, LoadForExpand(s, n));
    LoadAdds(s, None, n, 0, LoadNamespace(s.graph, n.entity.kind, NOTHING_LOADED));
    LoadedGraphIsPart(s, st);
    forall t | t in Expand(loaded, s.orgId, n)
      ensures var m := Members(s.graph, t); n in m && Within(s.graph, t, m, m, MAX_USERSET_DEPTH, n)
    {
      ExpandedIsWithin(loaded.graph, s.graph, t, n);
    }
  }
}
