/** Check and expand agree on one snapshot without an index. */
module Agreement {
  import opened Prelude
  import opened Refs
  import opened Usersets
  import opened Snapshots
  import opened Walks

  ghost predicate NonEmptyGraph(g: Graph) {
    forall n: Node :: NonEmpty(RewriteOf(g, n))
  }

  ghost predicate UnionOnlyGraph(g: Graph) {
    forall n: Node :: UnionOnly(RewriteOf(g, n))
  }

  // A grant puts the target in the collected members. A denial leaves both walks with the
  // same visited set and, when nothing was cut (or nothing but unions is in play), the
  // target out of the members.
  ghost predicate Agree(w: Walk, g: Gather, t: EntityRef, unionOnly: bool) {
    && (w.grant.Some? ==> t in RefsOf(g.members))
    && (w.grant.None? ==> w.visited == g.visited)
    && (w.grant.None? && (unionOnly || !w.truncated) ==> t !in RefsOf(g.members))
  }

  ghost predicate Comparable(s: Snapshot, unionOnly: bool) {
    && Ranked(s.graph.namespaces) && s.memberships.None? && NonEmptyGraph(s.graph)
    && (unionOnly ==> UnionOnlyGraph(s.graph))
  }

  lemma RefsConcat(xs: seq<Member>, ys: seq<Member>)
    ensures RefsOf(xs + ys) == RefsOf(xs) + RefsOf(ys)
  {
  }

  lemma {:induction false} MeetRefs(ms: seq<Member>, others: seq<Member>, r: EntityRef)
    ensures r in RefsOf(Meet(ms, others)) <==> r in RefsOf(ms) && r in RefsOf(others)
  {
    if ms != [] {
      MeetRefs(ms[1..], others, r);
      var found := FindMember(others, ms[0].ref);
      var head := if found.Some? then [Member(ms[0].ref, Max(ms[0].depth, found.value.depth))] else [];
      RefsConcat(head, Meet(ms[1..], others));
      RefsConcat([ms[0]], ms[1..]);
      assert ms == [ms[0]] + ms[1..];
      assert RefsOf(head) == (if found.Some? then [ms[0].ref] else []);
    }
  }

  lemma {:induction false} MinusRefs(ms: seq<Member>, others: seq<Member>, r: EntityRef)
    ensures r in RefsOf(Minus(ms, others)) <==> r in RefsOf(ms) && r !in RefsOf(others)
  {
    if ms != [] {
      MinusRefs(ms[1..], others, r);
      var head := if ms[0].ref in RefsOf(others) then [] else [ms[0]];
      RefsConcat(head, Minus(ms[1..], others));
      RefsConcat([ms[0]], ms[1..]);
      assert ms == [ms[0]] + ms[1..];
      assert RefsOf([ms[0]]) == [ms[0].ref];
    }
  }

  lemma {:induction false} DeriveAgrees(s: Snapshot, n: Node, t: EntityRef, depth: nat, visited: set<Node>,
                                        unionOnly: bool)
    requires Comparable(s, unionOnly)
    ensures Agree(Derive(s, n, t, depth, visited), Collect(s.graph, n, depth, visited), t, unionOnly)
    decreases Fuel(depth), NodeRank(s.graph.namespaces, n), 2
  {
    if depth <= MAX_USERSET_DEPTH && n !in visited {
      RewriteIsBelow(s.graph, n);
      DeriveRewriteAgrees(s, n, RewriteOf(s.graph, n), t, depth, visited + {n}, unionOnly);
    }
  }

  lemma {:induction false} DeriveRewriteAgrees(s: Snapshot, n: Node, u: Userset, t: EntityRef, depth: nat,
                                               visited: set<Node>, unionOnly: bool)
    requires Comparable(s, unionOnly) && NonEmpty(u) && (unionOnly ==> UnionOnly(u))
    requires Below(s.graph.namespaces, n, u) && depth <= MAX_USERSET_DEPTH
    ensures Agree(DeriveRewrite(s, n, u, t, depth, visited), CollectRewrite(s.graph, n, u, depth, visited), t,
        unionOnly)
    decreases Fuel(depth), NodeRank(s.graph.namespaces, n), 1, u
  {
    match u
    case This => ThisAgrees(s, n, SubjectsOf(s.graph.tuples, n), t, depth, visited, unionOnly);
    case Computed(r) => DeriveAgrees(s, Node(n.entity, r), t, depth, visited, unionOnly);
    case TupleToUserset(ts, c) =>
      var tn := Node(n.entity, ts);
      ParentsAgree(s, tn, SubjectsOf(s.graph.tuples, tn), c, t, depth, visited, unionOnly);
    case Union(cs) => UnionAgrees(s, n, cs, t, depth, visited, unionOnly);
    case Intersection(cs) => IntersectionAgrees(s, n, cs, [], None, t, depth);
    case Exclusion(b, sub) =>
      DeriveRewriteAgrees(s, n, b, t, depth, {}, unionOnly);
      DeriveRewriteAgrees(s, n, sub, t, depth, {}, unionOnly);
      MinusRefs(CollectRewrite(s.graph, n, b, depth, {}).members, CollectRewrite(s.graph, n, sub, depth, {}).members,
          t);
  }

  // The direct subjects are read before the usersets by one walk, in order by the other.
  lemma {:induction false} ThisAgrees(s: Snapshot, n: Node, subjects: seq<Subject>, t: EntityRef, depth: nat,
                                      visited: set<Node>, unionOnly: bool)
    requires Comparable(s, unionOnly) && depth <= MAX_USERSET_DEPTH
    ensures var g := CollectSubjects(s.graph, subjects, depth, visited);
            && (Direct(t) in subjects ==> t in RefsOf(g.members))
            && (Direct(t) !in subjects ==> Agree(DeriveUsersets(s, n, subjects, t, depth, visited), g, t, unionOnly))
    decreases Fuel(depth), NodeRank(s.graph.namespaces, n), 0, |subjects|
  {
    if subjects != [] {
      var rest := subjects[1..];
      assert forall sub :: sub in subjects <==> sub == subjects[0] || sub in rest;
      if subjects[0].Direct? {
        ThisAgrees(s, n, rest, t, depth, visited, unionOnly);
        RefsConcat([Member(subjects[0].ref, depth)], CollectSubjects(s.graph, rest, depth, visited).members);
        assert RefsOf([Member(subjects[0].ref, depth)]) == [subjects[0].ref];
      } else {
        DeriveAgrees(s, NodeOf(subjects[0]), t, depth + 1, visited, unionOnly);
        var g := Collect(s.graph, NodeOf(subjects[0]), depth + 1, visited);
        ThisAgrees(s, n, rest, t, depth, g.visited, unionOnly);
        RefsConcat(g.members, CollectSubjects(s.graph, rest, depth, g.visited).members);
      }
    }
  }

  lemma {:induction false} ParentsAgree(s: Snapshot, tn: Node, subjects: seq<Subject>, computed: string, t: EntityRef,
                                        depth: nat, visited: set<Node>, unionOnly: bool)
    requires Comparable(s, unionOnly) && depth <= MAX_USERSET_DEPTH
    ensures Agree(DeriveParents(s, tn, subjects, computed, t, depth, visited),
                  CollectParents(s.graph, subjects, computed, depth, visited), t, unionOnly)
    decreases Fuel(depth), 0, 0, |subjects|
  {
    if subjects != [] {
      if subjects[0].UsersetOf? {
        ParentsAgree(s, tn, subjects[1..], computed, t, depth, visited, unionOnly);
      } else {
        DeriveAgrees(s, Node(subjects[0].ref, computed), t, depth + 1, visited, unionOnly);
        var g := Collect(s.graph, Node(subjects[0].ref, computed), depth + 1, visited);
        ParentsAgree(s, tn, subjects[1..], computed, t, depth, g.visited, unionOnly);
        RefsConcat(g.members, CollectParents(s.graph, subjects[1..], computed, depth, g.visited).members);
      }
    }
  }

  lemma {:induction false} UnionAgrees(s: Snapshot, n: Node, cs: seq<Userset>, t: EntityRef, depth: nat,
                                       visited: set<Node>, unionOnly: bool)
    requires Comparable(s, unionOnly) && depth <= MAX_USERSET_DEPTH
    requires forall c | c in cs :: Below(s.graph.namespaces, n, c) && NonEmpty(c) && (unionOnly ==> UnionOnly(c))
    ensures Agree(DeriveUnion(s, n, cs, t, depth, visited), CollectUnion(s.graph, n, cs, depth, visited), t, unionOnly)
    decreases Fuel(depth), NodeRank(s.graph.namespaces, n), 1, cs
  {
    if cs != [] {
      DeriveRewriteAgrees(s, n, cs[0], t, depth, visited, unionOnly);
      var g := CollectRewrite(s.graph, n, cs[0], depth, visited);
      UnionAgrees(s, n, cs[1..], t, depth, g.visited, unionOnly);
      RefsConcat(g.members, CollectUnion(s.graph, n, cs[1..], depth, g.visited).members);
    }
  }

  lemma {:induction false} IntersectionAgrees(s: Snapshot, n: Node, cs: seq<Userset>, path: seq<TupleKey>,
                                              acc: Option<seq<Member>>, t: EntityRef, depth: nat)
    requires Comparable(s, false) && depth <= MAX_USERSET_DEPTH
    requires forall c | c in cs :: Below(s.graph.namespaces, n, c) && NonEmpty(c)
    requires acc.None? ==> cs != []
    ensures var w := DeriveIntersection(s, n, cs, path, t, depth);
            var g := CollectIntersection(s.graph, n, cs, acc, depth);
            && (w.grant.Some? && (acc.Some? ==> t in RefsOf(acc.value)) ==> t in RefsOf(g.members))
            && (w.grant.None? && !w.truncated ==> t !in RefsOf(g.members))
            && (acc.Some? && t !in RefsOf(acc.value) ==> t !in RefsOf(g.members))
    decreases Fuel(depth), NodeRank(s.graph.namespaces, n), 1, cs
  {
    if cs != [] {
      DeriveRewriteAgrees(s, n, cs[0], t, depth, {}, false);
      var g := CollectRewrite(s.graph, n, cs[0], depth, {});
      var w := DeriveRewrite(s, n, cs[0], t, depth, {});
      var acc' := if acc.None? then g.members else Meet(acc.value, g.members);
      if acc.Some? { MeetRefs(acc.value, g.members, t); }
      var path' := if w.grant.Some? then path + w.grant.value.path else path;
      IntersectionAgrees(s, n, cs[1..], path', Some(acc'), t, depth);
    }
  }

  // ----- Main result -----

  lemma CheckAgreesWithExpand(s: Snapshot, n: Node, t: EntityRef)
    requires Ranked(s.graph.namespaces) && s.memberships.None? && NonEmptyGraph(s.graph)
    ensures var w := Derive(s, n, t, 0, {});
            && (w.grant.Some? ==> t in Expand(s, s.orgId, n))
            && (w.grant.None? && !w.truncated ==> t !in Expand(s, s.orgId, n))
            && (UnionOnlyGraph(s.graph) ==> (w.grant.Some? <==> t in Expand(s, s.orgId, n)))
    ensures forall org | org != s.orgId :: Expand(s, org, n) == {}
  {
    DeriveAgrees(s, n, t, 0, {}, false);
    if UnionOnlyGraph(s.graph) { DeriveAgrees(s, n, t, 0, {}, true); }
    LeastDepthsAreLeast(Collect(s.graph, n, 0, {}).members);
  }
}
