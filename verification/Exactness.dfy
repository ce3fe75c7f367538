/** The bounded, shared-visited walk agrees with the meaning of the snapshot. */
module Exactness {
  import opened Refs
  import opened Usersets
  import opened Snapshots
  import opened Walks
  import opened Semantics

  // Every index entry about `t` names a certain member.
  ghost predicate IndexSound(s: Snapshot, t: EntityRef, lower: Interpretation) {
    forall n: Node | DepthOf(s.memberships, n, t).Some? :: n in lower
  }

  // A snapshot, a target and one of its models, with an index that the model confirms.
  ghost predicate Model(s: Snapshot, t: EntityRef, lower: Interpretation, upper: Interpretation) {
    Ranked(s.graph.namespaces) && PartialStable(s.graph, t, lower, upper) && IndexSound(s, t, lower)
  }

  ghost function Without(x: Interpretation, v: set<Node>): Interpretation {
    iset n: Node | n in x && n !in v
  }

  // Nodes added between `v` and `v'` cannot be derived even from all of `upper` outside `v'`.
  ghost predicate Refuted(s: Graph, t: EntityRef, lower: Interpretation, upper: Interpretation, v: set<Node>,
                          v': set<Node>) {
    && v <= v'
    && forall n | n in v' && n !in v :: !Reduct(s, t, Without(upper, v'), upper, lower, n, RewriteOf(s, n))
  }

  ghost predicate Denies(w: Walk) { w.grant.None? && !w.truncated }

  lemma RefutedJoin(s: Graph, t: EntityRef, lower: Interpretation, upper: Interpretation, v0: set<Node>, v1: set<Node>,
                    v2: set<Node>)
    requires Refuted(s, t, lower, upper, v0, v1) && Refuted(s, t, lower, upper, v1, v2)
    ensures Refuted(s, t, lower, upper, v0, v2)
  {
    forall n | n in v2 && n !in v0
      ensures !Reduct(s, t, Without(upper, v2), upper, lower, n, RewriteOf(s, n))
    {
      if n in v1 { StillUnderivable(s, t, lower, upper, v1, v2, n, RewriteOf(s, n)); }
    }
  }

  lemma StillUnderivable(s: Graph, t: EntityRef, lower: Interpretation, upper: Interpretation, v: set<Node>,
                         v': set<Node>, n: Node, u: Userset)
    requires v <= v' && !Reduct(s, t, Without(upper, v), upper, lower, n, u)
    ensures !Reduct(s, t, Without(upper, v'), upper, lower, n, u)
  {
    if Reduct(s, t, Without(upper, v'), upper, lower, n, u) {
      ReductMonotone(s, t, Without(upper, v'), upper, lower, Without(upper, v), upper, lower, n, u);
    }
  }

  // A refuted region that started empty is disjoint from every possible member.
  lemma RefutedRegion(s: Graph, t: EntityRef, lower: Interpretation, upper: Interpretation, v: set<Node>)
    requires PartialStable(s, t, lower, upper) && Refuted(s, t, lower, upper, {}, v)
    ensures Without(upper, v) == upper
  {
    var x := Without(upper, v);
    forall n: Node | Reduct(s, t, x, upper, lower, n, RewriteOf(s, n)) ensures n in x {
      ReductMonotone(s, t, x, upper, lower, upper, upper, lower, n, RewriteOf(s, n));
    }
    assert Closed(s, t, x, upper, lower);
  }

  // ----- Soundness of grants, and of untruncated denials -----

  lemma {:induction false} DeriveExact(s: Snapshot, t: EntityRef, lower: Interpretation, upper: Interpretation, n: Node,
                                       depth: nat, visited: set<Node>)
    requires Model(s, t, lower, upper)
    ensures var w := Derive(s, n, t, depth, visited);
            && (w.grant.Some? ==> n in lower)
            && (Denies(w) ==> n in w.visited && Refuted(s.graph, t, lower, upper, visited, w.visited))
    decreases Fuel(depth), NodeRank(s.graph.namespaces, n), 2
  {
    if depth <= MAX_USERSET_DEPTH && n !in visited {
      RewriteIsBelow(s.graph, n);
      DeriveRewriteExact(s, t, lower, upper, n, RewriteOf(s.graph, n), depth, visited + {n});
      ReductIsHolds(s.graph, t, lower, upper, n, RewriteOf(s.graph, n));
    }
  }

  lemma {:induction false} DeriveRewriteExact(s: Snapshot, t: EntityRef, lower: Interpretation, upper: Interpretation,
                                              n: Node, u: Userset, depth: nat, visited: set<Node>)
    requires Model(s, t, lower, upper) && Below(s.graph.namespaces, n, u) && depth <= MAX_USERSET_DEPTH
    ensures var w := DeriveRewrite(s, n, u, t, depth, visited);
            && (w.grant.Some? ==> Holds(s.graph, t, lower, upper, n, u))
            && (Denies(w) ==>
                 && Refuted(s.graph, t, lower, upper, visited, w.visited)
                 && !Reduct(s.graph, t, Without(upper, w.visited), upper, lower, n, u))
    decreases Fuel(depth), NodeRank(s.graph.namespaces, n), 1, u, 0
  {
    match u
    case This => DeriveUsersetsExact(s, t, lower, upper, n, SubjectsOf(s.graph.tuples, n), depth, visited);
    case Computed(r) => DeriveExact(s, t, lower, upper, Node(n.entity, r), depth, visited);
    case TupleToUserset(ts, c) =>
      var tn := Node(n.entity, ts);
      DeriveParentsExact(s, t, lower, upper, tn, SubjectsOf(s.graph.tuples, tn), c, depth, visited);
    case Union(cs) => DeriveUnionExact(s, t, lower, upper, n, cs, depth, visited);
    case Intersection(cs) => DeriveIntersectionExact(s, t, lower, upper, n, cs, [], depth, visited);
    case Exclusion(b, sub) =>
      FreshExact(s, t, lower, upper, n, b, depth, visited);
      FreshExact(s, t, lower, upper, n, sub, depth, visited);
  }

  // An operand walked with a fresh visited set is decided exactly.
  lemma {:induction false} FreshExact(s: Snapshot, t: EntityRef, lower: Interpretation, upper: Interpretation, n: Node,
                                      u: Userset, depth: nat, visited: set<Node>)
    requires Model(s, t, lower, upper) && Below(s.graph.namespaces, n, u) && depth <= MAX_USERSET_DEPTH
    ensures var w := DeriveRewrite(s, n, u, t, depth, {});
            && (w.grant.Some? ==> Holds(s.graph, t, lower, upper, n, u))
            && (Denies(w) ==> !Holds(s.graph, t, upper, lower, n, u)
                              && !Reduct(s.graph, t, Without(upper, visited), upper, lower, n, u))
    decreases Fuel(depth), NodeRank(s.graph.namespaces, n), 1, u, 1
  {
    DeriveRewriteExact(s, t, lower, upper, n, u, depth, {});
    var w := DeriveRewrite(s, n, u, t, depth, {});
    if Denies(w) {
      RefutedRegion(s.graph, t, lower, upper, w.visited);
      ReductIsHolds(s.graph, t, upper, lower, n, u);
      if Reduct(s.graph, t, Without(upper, visited), upper, lower, n, u) {
        ReductMonotone(s.graph, t, Without(upper, visited), upper, lower, upper, upper, lower, n, u);
      }
    }
  }

  lemma {:induction false} DeriveUsersetsExact(s: Snapshot, t: EntityRef, lower: Interpretation, upper: Interpretation,
                                               n: Node, subjects: seq<Subject>, depth: nat, visited: set<Node>)
    requires Model(s, t, lower, upper) && depth <= MAX_USERSET_DEPTH
    ensures var w := DeriveUsersets(s, n, subjects, t, depth, visited);
            && (w.grant.Some? ==> exists sub | sub in subjects :: sub.UsersetOf? && NodeOf(sub) in lower)
            && (Denies(w) ==>
                 && Refuted(s.graph, t, lower, upper, visited, w.visited)
                 && forall sub | sub in subjects && sub.UsersetOf? :: NodeOf(sub) in w.visited)
    decreases Fuel(depth), NodeRank(s.graph.namespaces, n), 0, |subjects|
  {
    if subjects != [] {
      var rest := subjects[1..];
      assert forall sub :: sub in subjects <==> sub == subjects[0] || sub in rest;
      if subjects[0].Direct? {
        DeriveUsersetsExact(s, t, lower, upper, n, rest, depth, visited);
      } else if !IndexGrants(s, NodeOf(subjects[0]), t, depth) {
        DeriveExact(s, t, lower, upper, NodeOf(subjects[0]), depth + 1, visited);
        var w := Derive(s, NodeOf(subjects[0]), t, depth + 1, visited);
        DeriveUsersetsExact(s, t, lower, upper, n, rest, depth, w.visited);
        var r := DeriveUsersets(s, n, rest, t, depth, w.visited);
        if Denies(w) && Denies(r) { RefutedJoin(s.graph, t, lower, upper, visited, w.visited, r.visited); }
      }
    }
  }

  lemma {:induction false} DeriveParentsExact(s: Snapshot, t: EntityRef, lower: Interpretation, upper: Interpretation,
                                              tn: Node, subjects: seq<Subject>, computed: string, depth: nat,
                                              visited: set<Node>)
    requires Model(s, t, lower, upper) && depth <= MAX_USERSET_DEPTH
    ensures var w := DeriveParents(s, tn, subjects, computed, t, depth, visited);
            && (w.grant.Some? ==> exists sub | sub in subjects :: sub.Direct? && Node(sub.ref, computed) in lower)
            && (Denies(w) ==>
                 && Refuted(s.graph, t, lower, upper, visited, w.visited)
                 && forall sub | sub in subjects && sub.Direct? :: Node(sub.ref, computed) in w.visited)
    decreases Fuel(depth), 0, 0, |subjects|
  {
    if subjects != [] {
      var rest := subjects[1..];
      assert forall sub :: sub in subjects <==> sub == subjects[0] || sub in rest;
      if subjects[0].UsersetOf? {
        DeriveParentsExact(s, t, lower, upper, tn, rest, computed, depth, visited);
      } else {
        DeriveExact(s, t, lower, upper, Node(subjects[0].ref, computed), depth + 1, visited);
        var w := Derive(s, Node(subjects[0].ref, computed), t, depth + 1, visited);
        DeriveParentsExact(s, t, lower, upper, tn, rest, computed, depth, w.visited);
        var r := DeriveParents(s, tn, rest, computed, t, depth, w.visited);
        if Denies(w) && Denies(r) { RefutedJoin(s.graph, t, lower, upper, visited, w.visited, r.visited); }
      }
    }
  }

  lemma {:induction false} DeriveUnionExact(s: Snapshot, t: EntityRef, lower: Interpretation, upper: Interpretation,
                                            n: Node, cs: seq<Userset>, depth: nat, visited: set<Node>)
    requires Model(s, t, lower, upper) && depth <= MAX_USERSET_DEPTH
    requires forall c | c in cs :: Below(s.graph.namespaces, n, c)
    ensures var w := DeriveUnion(s, n, cs, t, depth, visited);
            && (w.grant.Some? ==> exists c | c in cs :: Holds(s.graph, t, lower, upper, n, c))
            && (Denies(w) ==>
                 && Refuted(s.graph, t, lower, upper, visited, w.visited)
                 && forall c | c in cs :: !Reduct(s.graph, t, Without(upper, w.visited), upper, lower, n, c))
    decreases Fuel(depth), NodeRank(s.graph.namespaces, n), 1, cs
  {
    if cs != [] {
      assert forall c :: c in cs <==> c == cs[0] || c in cs[1..];
      DeriveRewriteExact(s, t, lower, upper, n, cs[0], depth, visited);
      var w := DeriveRewrite(s, n, cs[0], t, depth, visited);
      DeriveUnionExact(s, t, lower, upper, n, cs[1..], depth, w.visited);
      var r := DeriveUnion(s, n, cs[1..], t, depth, w.visited);
      if Denies(w) && Denies(r) {
        RefutedJoin(s.graph, t, lower, upper, visited, w.visited, r.visited);
        StillUnderivable(s.graph, t, lower, upper, w.visited, r.visited, n, cs[0]);
      }
    }
  }

  lemma {:induction false} DeriveIntersectionExact(s: Snapshot, t: EntityRef, lower: Interpretation,
                                                   upper: Interpretation, n: Node, cs: seq<Userset>,
                                                   path: seq<TupleKey>, depth: nat, visited: set<Node>)
    requires Model(s, t, lower, upper) && depth <= MAX_USERSET_DEPTH
    requires forall c | c in cs :: Below(s.graph.namespaces, n, c)
    ensures var w := DeriveIntersection(s, n, cs, path, t, depth);
            && (w.grant.Some? ==> forall c | c in cs :: Holds(s.graph, t, lower, upper, n, c))
            && (Denies(w) ==> exists c | c in cs :: !Reduct(s.graph, t, Without(upper, visited), upper, lower, n, c))
    decreases Fuel(depth), NodeRank(s.graph.namespaces, n), 1, cs
  {
    if cs != [] {
      assert forall c :: c in cs <==> c == cs[0] || c in cs[1..];
      FreshExact(s, t, lower, upper, n, cs[0], depth, visited);
      var w := DeriveRewrite(s, n, cs[0], t, depth, {});
      if w.grant.Some? && !w.truncated {
        DeriveIntersectionExact(s, t, lower, upper, n, cs[1..], path + w.grant.value.path, depth, visited);
      }
    }
  }

  // ----- Main results -----

  // A walk from a required relation: a grant is a certain member, an untruncated denial is
  // not even a possible one, in every partial stable model.
  lemma WalkIsExact(s: Snapshot, t: EntityRef, lower: Interpretation, upper: Interpretation, n: Node)
    requires Model(s, t, lower, upper)
    ensures var w := Derive(s, n, t, 0, {});
            && (w.grant.Some? ==> n in lower)
            && (Denies(w) ==> n !in upper)
  {
    DeriveExact(s, t, lower, upper, n, 0, {});
    var w := Derive(s, n, t, 0, {});
    if Denies(w) { RefutedRegion(s.graph, t, lower, upper, w.visited); }
  }
}
