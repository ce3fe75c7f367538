/** Derivations of bounded depth: what a permit proves, and what an index entry stands for. */
module Derivations {
  import opened Prelude
  import opened Refs
  import opened Usersets
  import opened Snapshots
  import opened Walks
  import opened Semantics
  import opened Exactness

  ghost function Steps(budget: int): nat { if budget < 0 then 0 else budget + 1 }

  // `n` has a derivation that crosses at most `budget` tuples between objects. Subtract
  // operands are read from the model (lower, upper).
  ghost predicate Within(s: Graph, t: EntityRef, lower: Interpretation, upper: Interpretation, budget: int, n: Node)
    requires Ranked(s.namespaces)
    decreases Steps(budget), NodeRank(s.namespaces, n), 1
  {
    && budget >= 0
    && Below(s.namespaces, n, RewriteOf(s, n))
    && WithinRewrite(s, t, lower, upper, budget, n, RewriteOf(s, n))
  }

  ghost predicate WithinRewrite(s: Graph, t: EntityRef, lower: Interpretation, upper: Interpretation, budget: int,
                                n: Node, u: Userset)
    requires Ranked(s.namespaces) && Below(s.namespaces, n, u) && budget >= 0
    decreases Steps(budget), NodeRank(s.namespaces, n), 0, u
  {
    match u
    case This =>
      || Direct(t) in SubjectsOf(s.tuples, n)
      || exists sub | sub in SubjectsOf(s.tuples, n) ::
           sub.UsersetOf? && Within(s, t, lower, upper, budget - 1, NodeOf(sub))
    case Computed(r) => Within(s, t, lower, upper, budget, Node(n.entity, r))
    case TupleToUserset(ts, c) =>
      exists sub | sub in SubjectsOf(s.tuples, Node(n.entity, ts)) ::
        sub.Direct? && Within(s, t, lower, upper, budget - 1, Node(sub.ref, c))
    case Union(cs) => exists c | c in cs :: WithinRewrite(s, t, lower, upper, budget, n, c)
    case Intersection(cs) => forall c | c in cs :: WithinRewrite(s, t, lower, upper, budget, n, c)
    case Exclusion(b, sub) =>
      WithinRewrite(s, t, lower, upper, budget, n, b) && !Holds(s, t, upper, lower, n, sub)
  }

  lemma {:induction false} WithinMore(s: Graph, t: EntityRef, lower: Interpretation, upper: Interpretation, b: int,
                                      b': int, n: Node)
    requires Ranked(s.namespaces) && b <= b' && Within(s, t, lower, upper, b, n)
    ensures Within(s, t, lower, upper, b', n)
    decreases Steps(b), NodeRank(s.namespaces, n), 1
  {
    WithinRewriteMore(s, t, lower, upper, b, b', n, RewriteOf(s, n));
  }

  lemma {:induction false} WithinRewriteMore(s: Graph, t: EntityRef, lower: Interpretation, upper: Interpretation,
                                             b: int, b': int, n: Node, u: Userset)
    requires Ranked(s.namespaces) && Below(s.namespaces, n, u) && 0 <= b <= b'
    requires WithinRewrite(s, t, lower, upper, b, n, u)
    ensures WithinRewrite(s, t, lower, upper, b', n, u)
    decreases Steps(b), NodeRank(s.namespaces, n), 0, u
  {
    match u
    case This =>
      if Direct(t) !in SubjectsOf(s.tuples, n) {
        var sub :| sub in SubjectsOf(s.tuples, n) && sub.UsersetOf? && Within(s, t, lower, upper, b - 1, NodeOf(sub));
        WithinMore(s, t, lower, upper, b - 1, b' - 1, NodeOf(sub));
      }
    case Computed(r) => WithinMore(s, t, lower, upper, b, b', Node(n.entity, r));
    case TupleToUserset(ts, c) =>
      var sub :| sub in SubjectsOf(s.tuples, Node(n.entity, ts)) && sub.Direct?
                 && Within(s, t, lower, upper, b - 1, Node(sub.ref, c));
      WithinMore(s, t, lower, upper, b - 1, b' - 1, Node(sub.ref, c));
    case Union(cs) =>
      var c :| c in cs && WithinRewrite(s, t, lower, upper, b, n, c);
      WithinRewriteMore(s, t, lower, upper, b, b', n, c);
    case Intersection(cs) =>
      forall c | c in cs ensures WithinRewrite(s, t, lower, upper, b', n, c) {
        WithinRewriteMore(s, t, lower, upper, b, b', n, c);
      }
    case Exclusion(bs, sub) => WithinRewriteMore(s, t, lower, upper, b, b', n, bs);
  }

  // Derivations are sound for the model, whatever their depth.
  lemma {:induction false} WithinIsCertain(s: Graph, t: EntityRef, lower: Interpretation, upper: Interpretation, b: int,
                                           n: Node)
    requires Ranked(s.namespaces) && Closed(s, t, lower, lower, upper) && Within(s, t, lower, upper, b, n)
    ensures n in lower
    decreases Steps(b), NodeRank(s.namespaces, n), 1
  {
    WithinRewriteHolds(s, t, lower, upper, b, n, RewriteOf(s, n));
  }

  lemma {:induction false} WithinRewriteHolds(s: Graph, t: EntityRef, lower: Interpretation, upper: Interpretation,
                                              b: int, n: Node, u: Userset)
    requires Ranked(s.namespaces) && Below(s.namespaces, n, u) && b >= 0
    requires Closed(s, t, lower, lower, upper) && WithinRewrite(s, t, lower, upper, b, n, u)
    ensures Reduct(s, t, lower, lower, upper, n, u)
    decreases Steps(b), NodeRank(s.namespaces, n), 0, u
  {
    match u
    case This =>
      if Direct(t) !in SubjectsOf(s.tuples, n) {
        var sub :| sub in SubjectsOf(s.tuples, n) && sub.UsersetOf? && Within(s, t, lower, upper, b - 1, NodeOf(sub));
        WithinIsCertain(s, t, lower, upper, b - 1, NodeOf(sub));
      }
    case Computed(r) => WithinIsCertain(s, t, lower, upper, b, Node(n.entity, r));
    case TupleToUserset(ts, c) =>
      var sub :| sub in SubjectsOf(s.tuples, Node(n.entity, ts)) && sub.Direct?
                 && Within(s, t, lower, upper, b - 1, Node(sub.ref, c));
      WithinIsCertain(s, t, lower, upper, b - 1, Node(sub.ref, c));
    case Union(cs) =>
      var c :| c in cs && WithinRewrite(s, t, lower, upper, b, n, c);
      WithinRewriteHolds(s, t, lower, upper, b, n, c);
    case Intersection(cs) =>
      forall c | c in cs ensures Reduct(s, t, lower, lower, upper, n, c) {
        WithinRewriteHolds(s, t, lower, upper, b, n, c);
      }
    case Exclusion(bs, sub) => WithinRewriteHolds(s, t, lower, upper, b, n, bs);
  }

  // ----- Derivations do not depend on the order in which rows are read -----

  // The same namespaces and the same tuples, listed in any order.
  ghost predicate SameFacts(g: Graph, g': Graph) {
    && g.namespaces == g'.namespaces
    && forall n: Node, sub: Subject :: sub in SubjectsOf(g.tuples, n) <==> sub in SubjectsOf(g'.tuples, n)
  }

  lemma {:induction false} HoldsInAnyOrder(g: Graph, g': Graph, t: EntityRef, pos: Interpretation, neg: Interpretation,
                                           n: Node, u: Userset)
    requires SameFacts(g, g')
    ensures Holds(g, t, pos, neg, n, u) == Holds(g', t, pos, neg, n, u)
  {
    match u
    case Union(cs) => forall c | c in cs { HoldsInAnyOrder(g, g', t, pos, neg, n, c); }
    case Intersection(cs) => forall c | c in cs { HoldsInAnyOrder(g, g', t, pos, neg, n, c); }
    case Exclusion(b, sub) =>
      HoldsInAnyOrder(g, g', t, pos, neg, n, b);
      HoldsInAnyOrder(g, g', t, neg, pos, n, sub);
    case _ =>
  }

  lemma {:induction false} WithinInAnyOrder(g: Graph, g': Graph, t: EntityRef, lower: Interpretation,
                                            upper: Interpretation, b: int, n: Node)
    requires Ranked(g.namespaces) && SameFacts(g, g') && Within(g, t, lower, upper, b, n)
    ensures Within(g', t, lower, upper, b, n)
    decreases Steps(b), NodeRank(g.namespaces, n), 1
  {
    WithinRewriteInAnyOrder(g, g', t, lower, upper, b, n, RewriteOf(g, n));
  }

  lemma {:induction false} WithinRewriteInAnyOrder(g: Graph, g': Graph, t: EntityRef, lower: Interpretation,
                                                   upper: Interpretation, b: int, n: Node, u: Userset)
    requires Ranked(g.namespaces) && SameFacts(g, g') && Below(g.namespaces, n, u) && b >= 0
    requires WithinRewrite(g, t, lower, upper, b, n, u)
    ensures WithinRewrite(g', t, lower, upper, b, n, u)
    decreases Steps(b), NodeRank(g.namespaces, n), 0, u
  {
    match u
    case This =>
      if Direct(t) !in SubjectsOf(g.tuples, n) {
        var sub :| sub in SubjectsOf(g.tuples, n) && sub.UsersetOf? && Within(g, t, lower, upper, b - 1, NodeOf(sub));
        WithinInAnyOrder(g, g', t, lower, upper, b - 1, NodeOf(sub));
      }
    case Computed(r) => WithinInAnyOrder(g, g', t, lower, upper, b, Node(n.entity, r));
    case TupleToUserset(ts, c) =>
      var sub :| sub in SubjectsOf(g.tuples, Node(n.entity, ts)) && sub.Direct?
                 && Within(g, t, lower, upper, b - 1, Node(sub.ref, c));
      WithinInAnyOrder(g, g', t, lower, upper, b - 1, Node(sub.ref, c));
    case Union(cs) =>
      var c :| c in cs && WithinRewrite(g, t, lower, upper, b, n, c);
      WithinRewriteInAnyOrder(g, g', t, lower, upper, b, n, c);
    case Intersection(cs) =>
      forall c | c in cs ensures WithinRewrite(g', t, lower, upper, b, n, c) {
        WithinRewriteInAnyOrder(g, g', t, lower, upper, b, n, c);
      }
    case Exclusion(bs, sub) =>
      WithinRewriteInAnyOrder(g, g', t, lower, upper, b, n, bs);
      HoldsInAnyOrder(g, g', t, upper, lower, n, sub);
  }

  // ----- Permits have derivations within the depth bound -----

  ghost predicate IndexWithin(s: Snapshot, t: EntityRef, lower: Interpretation, upper: Interpretation)
    requires Ranked(s.graph.namespaces)
  {
    forall n: Node | DepthOf(s.memberships, n, t).Some? ::
      Within(s.graph, t, lower, upper, DepthOf(s.memberships, n, t).value, n)
  }

  // A model in which every index entry stands for a derivation of the recorded depth.
  ghost predicate DepthModel(s: Snapshot, t: EntityRef, lower: Interpretation, upper: Interpretation) {
    Ranked(s.graph.namespaces) && PartialStable(s.graph, t, lower, upper) && IndexWithin(s, t, lower, upper)
  }

  lemma DepthModelIsModel(s: Snapshot, t: EntityRef, lower: Interpretation, upper: Interpretation)
    requires DepthModel(s, t, lower, upper)
    ensures Model(s, t, lower, upper)
  {
    forall n: Node | DepthOf(s.memberships, n, t).Some? ensures n in lower {
      WithinIsCertain(s.graph, t, lower, upper, DepthOf(s.memberships, n, t).value, n);
    }
  }

  lemma {:induction false} GrantWithin(s: Snapshot, t: EntityRef, lower: Interpretation, upper: Interpretation, n: Node,
                                       depth: nat, visited: set<Node>)
    requires DepthModel(s, t, lower, upper) && Derive(s, n, t, depth, visited).grant.Some?
    ensures Within(s.graph, t, lower, upper, MAX_USERSET_DEPTH - depth, n)
    decreases Fuel(depth), NodeRank(s.graph.namespaces, n), 2
  {
    RewriteIsBelow(s.graph, n);
    GrantRewriteWithin(s, t, lower, upper, n, RewriteOf(s.graph, n), depth, visited + {n});
  }

  lemma {:induction false} GrantRewriteWithin(s: Snapshot, t: EntityRef, lower: Interpretation, upper: Interpretation,
                                              n: Node, u: Userset, depth: nat, visited: set<Node>)
    requires DepthModel(s, t, lower, upper) && Below(s.graph.namespaces, n, u) && depth <= MAX_USERSET_DEPTH
    requires DeriveRewrite(s, n, u, t, depth, visited).grant.Some?
    ensures WithinRewrite(s.graph, t, lower, upper, MAX_USERSET_DEPTH - depth, n, u)
    decreases Fuel(depth), NodeRank(s.graph.namespaces, n), 1, u
  {
    match u
    case This =>
      if Direct(t) !in SubjectsOf(s.graph.tuples, n) {
        GrantUsersetsWithin(s, t, lower, upper, n, SubjectsOf(s.graph.tuples, n), depth, visited);
      }
    case Computed(r) => GrantWithin(s, t, lower, upper, Node(n.entity, r), depth, visited);
    case TupleToUserset(ts, c) =>
      var tn := Node(n.entity, ts);
      GrantParentsWithin(s, t, lower, upper, tn, SubjectsOf(s.graph.tuples, tn), c, depth, visited);
    case Union(cs) => GrantUnionWithin(s, t, lower, upper, n, cs, depth, visited);
    case Intersection(cs) => GrantIntersectionWithin(s, t, lower, upper, n, cs, [], depth);
    case Exclusion(b, sub) =>
      GrantRewriteWithin(s, t, lower, upper, n, b, depth, {});
      DepthModelIsModel(s, t, lower, upper);
      FreshExact(s, t, lower, upper, n, sub, depth, {});
  }

  lemma {:induction false} GrantUsersetsWithin(s: Snapshot, t: EntityRef, lower: Interpretation, upper: Interpretation,
                                               n: Node, subjects: seq<Subject>, depth: nat, visited: set<Node>)
    requires DepthModel(s, t, lower, upper) && depth <= MAX_USERSET_DEPTH
    requires DeriveUsersets(s, n, subjects, t, depth, visited).grant.Some?
    ensures exists sub | sub in subjects ::
              sub.UsersetOf? && Within(s.graph, t, lower, upper, MAX_USERSET_DEPTH - depth - 1, NodeOf(sub))
    decreases Fuel(depth), NodeRank(s.graph.namespaces, n), 0, |subjects|
  {
    var head, rest := subjects[0], subjects[1..];
    if head.Direct? {
      GrantUsersetsWithin(s, t, lower, upper, n, rest, depth, visited);
    } else if IndexGrants(s, NodeOf(head), t, depth) {
      WithinMore(s.graph, t, lower, upper, DepthOf(s.memberships, NodeOf(head), t).value,
          MAX_USERSET_DEPTH - depth - 1, NodeOf(head));
    } else {
      var w := Derive(s, NodeOf(head), t, depth + 1, visited);
      if w.grant.Some? { GrantWithin(s, t, lower, upper, NodeOf(head), depth + 1, visited); }
      else { GrantUsersetsWithin(s, t, lower, upper, n, rest, depth, w.visited); }
    }
  }

  lemma {:induction false} GrantParentsWithin(s: Snapshot, t: EntityRef, lower: Interpretation, upper: Interpretation,
                                              tn: Node, subjects: seq<Subject>, computed: string, depth: nat,
                                              visited: set<Node>)
    requires DepthModel(s, t, lower, upper) && depth <= MAX_USERSET_DEPTH
    requires DeriveParents(s, tn, subjects, computed, t, depth, visited).grant.Some?
    ensures exists sub | sub in subjects ::
              sub.Direct? && Within(s.graph, t, lower, upper, MAX_USERSET_DEPTH - depth - 1, Node(sub.ref, computed))
    decreases Fuel(depth), 0, 0, |subjects|
  {
    var head, rest := subjects[0], subjects[1..];
    if head.UsersetOf? {
      GrantParentsWithin(s, t, lower, upper, tn, rest, computed, depth, visited);
    } else {
      var w := Derive(s, Node(head.ref, computed), t, depth + 1, visited);
      if w.grant.Some? { GrantWithin(s, t, lower, upper, Node(head.ref, computed), depth + 1, visited); }
      else { GrantParentsWithin(s, t, lower, upper, tn, rest, computed, depth, w.visited); }
    }
  }

  lemma {:induction false} GrantUnionWithin(s: Snapshot, t: EntityRef, lower: Interpretation, upper: Interpretation,
                                            n: Node, cs: seq<Userset>, depth: nat, visited: set<Node>)
    requires DepthModel(s, t, lower, upper) && depth <= MAX_USERSET_DEPTH
    requires forall c | c in cs :: Below(s.graph.namespaces, n, c)
    requires DeriveUnion(s, n, cs, t, depth, visited).grant.Some?
    ensures exists c | c in cs :: WithinRewrite(s.graph, t, lower, upper, MAX_USERSET_DEPTH - depth, n, c)
    decreases Fuel(depth), NodeRank(s.graph.namespaces, n), 1, cs
  {
    var w := DeriveRewrite(s, n, cs[0], t, depth, visited);
    if w.grant.Some? {
      GrantRewriteWithin(s, t, lower, upper, n, cs[0], depth, visited);
      assert cs[0] in cs;
    } else {
      GrantUnionWithin(s, t, lower, upper, n, cs[1..], depth, w.visited);
      var c :| c in cs[1..] && WithinRewrite(s.graph, t, lower, upper, MAX_USERSET_DEPTH - depth, n, c);
      assert c in cs;
    }
  }

  lemma {:induction false} GrantIntersectionWithin(s: Snapshot, t: EntityRef, lower: Interpretation,
                                                   upper: Interpretation, n: Node, cs: seq<Userset>,
                                                   path: seq<TupleKey>, depth: nat)
    requires DepthModel(s, t, lower, upper) && depth <= MAX_USERSET_DEPTH
    requires forall c | c in cs :: Below(s.graph.namespaces, n, c)
    requires DeriveIntersection(s, n, cs, path, t, depth).grant.Some?
    ensures forall c | c in cs :: WithinRewrite(s.graph, t, lower, upper, MAX_USERSET_DEPTH - depth, n, c)
    decreases Fuel(depth), NodeRank(s.graph.namespaces, n), 1, cs
  {
    if cs != [] {
      assert forall c :: c in cs <==> c == cs[0] || c in cs[1..];
      var w := DeriveRewrite(s, n, cs[0], t, depth, {});
      GrantRewriteWithin(s, t, lower, upper, n, cs[0], depth, {});
      GrantIntersectionWithin(s, t, lower, upper, n, cs[1..], path + w.grant.value.path, depth);
    }
  }

  // ----- Collected members have derivations of their recorded depth -----

  // Members collected from `n` at `depth` derive `n` within the hops below `depth`.
  ghost predicate MembersWithin(s: Graph, lower: Interpretation, upper: Interpretation, depth: nat, n: Node,
                                ms: seq<Member>)
    requires Ranked(s.namespaces)
  {
    forall m | m in ms :: Within(s, m.ref, lower, upper, m.depth - depth, n)
  }

  ghost predicate MembersWithinRewrite(s: Graph, lower: Interpretation, upper: Interpretation, depth: nat, n: Node,
                                       u: Userset, ms: seq<Member>)
    requires Ranked(s.namespaces) && Below(s.namespaces, n, u)
  {
    forall m | m in ms :: m.depth >= depth && WithinRewrite(s, m.ref, lower, upper, m.depth - depth, n, u)
  }

  lemma {:induction false} CollectWithin(s: Graph, lower: Interpretation, upper: Interpretation, n: Node, depth: nat,
                                         visited: set<Node>)
    requires Ranked(s.namespaces) && !Collect(s, n, depth, visited).excluded
    ensures MembersWithin(s, lower, upper, depth, n, Collect(s, n, depth, visited).members)
    decreases Fuel(depth), NodeRank(s.namespaces, n), 2
  {
    if depth <= MAX_USERSET_DEPTH && n !in visited {
      RewriteIsBelow(s, n);
      CollectRewriteWithin(s, lower, upper, n, RewriteOf(s, n), depth, visited + {n});
    }
  }

  lemma {:induction false} CollectRewriteWithin(s: Graph, lower: Interpretation, upper: Interpretation, n: Node,
                                                u: Userset, depth: nat, visited: set<Node>)
    requires Ranked(s.namespaces) && Below(s.namespaces, n, u) && depth <= MAX_USERSET_DEPTH
    requires !CollectRewrite(s, n, u, depth, visited).excluded
    ensures MembersWithinRewrite(s, lower, upper, depth, n, u, CollectRewrite(s, n, u, depth, visited).members)
    decreases Fuel(depth), NodeRank(s.namespaces, n), 1, u
  {
    match u
    case This => CollectSubjectsWithin(s, lower, upper, n, SubjectsOf(s.tuples, n), depth, visited);
    case Computed(r) => CollectWithin(s, lower, upper, Node(n.entity, r), depth, visited);
    case TupleToUserset(ts, c) =>
      CollectParentsWithin(s, lower, upper, SubjectsOf(s.tuples, Node(n.entity, ts)), c, depth, visited);
    case Union(cs) => CollectUnionWithin(s, lower, upper, n, cs, depth, visited);
    case Intersection(cs) =>
      if cs != [] {
        CollectIntersectionWithin(s, lower, upper, n, cs, None, depth, []);
        var ms := CollectIntersection(s, n, cs, None, depth).members;
        forall m | m in ms ensures m.depth >= depth && WithinRewrite(s, m.ref, lower, upper, m.depth - depth, n, u) {
          assert MembersWithinRewrite(s, lower, upper, depth, n, cs[0], ms);
        }
      }
  }

  lemma {:induction false} CollectSubjectsWithin(s: Graph, lower: Interpretation, upper: Interpretation, n: Node,
                                                 subjects: seq<Subject>, depth: nat, visited: set<Node>)
    requires Ranked(s.namespaces) && depth <= MAX_USERSET_DEPTH
    requires !CollectSubjects(s, subjects, depth, visited).excluded
    ensures forall m | m in CollectSubjects(s, subjects, depth, visited).members ::
              && m.depth >= depth
              && (Direct(m.ref) in subjects
                  || exists sub | sub in subjects ::
                       sub.UsersetOf? && Within(s, m.ref, lower, upper, m.depth - depth - 1, NodeOf(sub)))
    decreases Fuel(depth), 0, 0, |subjects|
  {
    if subjects != [] {
      var head, rest := subjects[0], subjects[1..];
      assert forall sub :: sub in subjects <==> sub == head || sub in rest;
      if head.Direct? {
        CollectSubjectsWithin(s, lower, upper, n, rest, depth, visited);
      } else {
        CollectWithin(s, lower, upper, NodeOf(head), depth + 1, visited);
        var g := Collect(s, NodeOf(head), depth + 1, visited);
        CollectSubjectsWithin(s, lower, upper, n, rest, depth, g.visited);
      }
    }
  }

  lemma {:induction false} CollectParentsWithin(s: Graph, lower: Interpretation, upper: Interpretation,
                                                subjects: seq<Subject>, computed: string, depth: nat,
                                                visited: set<Node>)
    requires Ranked(s.namespaces) && depth <= MAX_USERSET_DEPTH
    requires !CollectParents(s, subjects, computed, depth, visited).excluded
    ensures forall m | m in CollectParents(s, subjects, computed, depth, visited).members ::
              && m.depth >= depth
              && exists sub | sub in subjects ::
                   sub.Direct? && Within(s, m.ref, lower, upper, m.depth - depth - 1, Node(sub.ref, computed))
    decreases Fuel(depth), 0, 0, |subjects|
  {
    if subjects != [] {
      var head, rest := subjects[0], subjects[1..];
      assert forall sub :: sub in subjects <==> sub == head || sub in rest;
      if head.UsersetOf? {
        CollectParentsWithin(s, lower, upper, rest, computed, depth, visited);
      } else {
        CollectWithin(s, lower, upper, Node(head.ref, computed), depth + 1, visited);
        var g := Collect(s, Node(head.ref, computed), depth + 1, visited);
        CollectParentsWithin(s, lower, upper, rest, computed, depth, g.visited);
      }
    }
  }

  lemma {:induction false} CollectUnionWithin(s: Graph, lower: Interpretation, upper: Interpretation, n: Node,
                                              cs: seq<Userset>, depth: nat, visited: set<Node>)
    requires Ranked(s.namespaces) && depth <= MAX_USERSET_DEPTH
    requires forall c | c in cs :: Below(s.namespaces, n, c)
    requires !CollectUnion(s, n, cs, depth, visited).excluded
    ensures forall m | m in CollectUnion(s, n, cs, depth, visited).members ::
              && m.depth >= depth
              && exists c | c in cs :: WithinRewrite(s, m.ref, lower, upper, m.depth - depth, n, c)
    decreases Fuel(depth), NodeRank(s.namespaces, n), 1, cs
  {
    if cs != [] {
      CollectRewriteWithin(s, lower, upper, n, cs[0], depth, visited);
      var g := CollectRewrite(s, n, cs[0], depth, visited);
      CollectUnionWithin(s, lower, upper, n, cs[1..], depth, g.visited);
      forall m | m in CollectUnion(s, n, cs, depth, visited).members
        ensures m.depth >= depth && exists c | c in cs :: WithinRewrite(s, m.ref, lower, upper, m.depth - depth, n, c)
      {
        if m in g.members {
          assert cs[0] in cs;
        } else {
          var c :| c in cs[1..] && WithinRewrite(s, m.ref, lower, upper, m.depth - depth, n, c);
          assert c in cs;
        }
      }
    }
  }

  // `done` lists the operands whose meet is `acc`.
  lemma {:induction false} CollectIntersectionWithin(s: Graph, lower: Interpretation, upper: Interpretation, n: Node,
                                                     cs: seq<Userset>, acc: Option<seq<Member>>, depth: nat,
                                                     done: seq<Userset>)
    requires Ranked(s.namespaces) && depth <= MAX_USERSET_DEPTH
    requires forall c | c in cs || c in done :: Below(s.namespaces, n, c)
    requires acc.None? <==> done == []
    requires acc.None? ==> cs != []
    requires acc.Some? ==> forall c | c in done :: MembersWithinRewrite(s, lower, upper, depth, n, c, acc.value)
    requires !CollectIntersection(s, n, cs, acc, depth).excluded
    ensures forall c | c in done || c in cs ::
              MembersWithinRewrite(s, lower, upper, depth, n, c, CollectIntersection(s, n, cs, acc, depth).members)
    decreases Fuel(depth), NodeRank(s.namespaces, n), 1, cs
  {
    if cs != [] {
      assert forall c :: c in cs <==> c == cs[0] || c in cs[1..];
      var g := CollectRewrite(s, n, cs[0], depth, {});
      CollectRewriteWithin(s, lower, upper, n, cs[0], depth, {});
      var acc' := if acc.None? then g.members else Meet(acc.value, g.members);
      if acc.Some? {
        forall c | c in done || c == cs[0] ensures MembersWithinRewrite(s, lower, upper, depth, n, c, acc') {
          MeetWithin(s, lower, upper, depth, n, c, acc.value, g.members);
        }
      }
      CollectIntersectionWithin(s, lower, upper, n, cs[1..], Some(acc'), depth, done + [cs[0]]);
    }
  }

  // A meet keeps the derivations of either operand: it only ever records deeper depths.
  lemma {:induction false} MeetWithin(s: Graph, lower: Interpretation, upper: Interpretation, depth: nat, n: Node,
                                      u: Userset, xs: seq<Member>, ys: seq<Member>)
    requires Ranked(s.namespaces) && Below(s.namespaces, n, u)
    requires MembersWithinRewrite(s, lower, upper, depth, n, u, xs)
        || MembersWithinRewrite(s, lower, upper, depth, n, u, ys)
    ensures MembersWithinRewrite(s, lower, upper, depth, n, u, Meet(xs, ys))
  {
    forall m | m in Meet(xs, ys)
      ensures m.depth >= depth && WithinRewrite(s, m.ref, lower, upper, m.depth - depth, n, u)
    {
      var x, y := MeetSources(xs, ys, m);
      var z := if MembersWithinRewrite(s, lower, upper, depth, n, u, xs) then x else y;
      WithinRewriteMore(s, m.ref, lower, upper, z.depth - depth, m.depth - depth, n, u);
    }
  }

  lemma {:induction false} MeetSources(xs: seq<Member>, ys: seq<Member>, m: Member) returns (x: Member, y: Member)
    requires m in Meet(xs, ys)
    ensures x in xs && y in ys && x.ref == y.ref == m.ref && x.depth <= m.depth && y.depth <= m.depth
  {
    var found := FindMember(ys, xs[0].ref);
    if found.Some? && m == Member(xs[0].ref, Max(xs[0].depth, found.value.depth)) {
      x, y := xs[0], found.value;
    } else {
      x, y := MeetSources(xs[1..], ys, m);
    }
  }

  // What the index stores: each depth of a monotonic flattened set is the depth of a derivation.
  lemma FlattenedDepthsAreDerivations(s: Graph, n: Node, t: EntityRef, lower: Interpretation, upper: Interpretation)
    requires Ranked(s.namespaces) && FlattenSet(s, n).monotonic && t in FlattenSet(s, n).members
    ensures Within(s, t, lower, upper, FlattenSet(s, n).members[t], n)
  {
    CollectWithin(s, lower, upper, n, 0, {});
    LeastDepthsAreLeast(Collect(s, n, 0, {}).members);
  }
}
