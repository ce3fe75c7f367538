/** The path of a grant lists stored tuples that are enough to prove it. */
module Certificates {
  import opened Refs
  import opened Usersets
  import opened Snapshots
  import opened Walks
  import opened Semantics

  ghost predicate Contains(g: Graph, path: seq<TupleKey>) {
    forall k | k in path :: HasTuple(g, k)
  }

  // The buckets holding exactly the listed tuples, in order.
  function BucketsOf(keys: seq<TupleKey>): (b: Buckets)
    ensures forall k: TupleKey :: k in keys <==> k.subject in SubjectsOf(b, Node(k.entity, k.relation))
  {
    if keys == [] then map[]
    else
      var last := keys[|keys| - 1];
      var before := BucketsOf(keys[..|keys| - 1]);
      var n := Node(last.entity, last.relation);
      assert keys == keys[..|keys| - 1] + [last];
      before[n := SubjectsOf(before, n) + [last.subject]]
  }

  // A walk without an index, and another graph with the same namespaces.
  ghost predicate Transfer(s: Snapshot, g: Graph) {
    Ranked(s.graph.namespaces) && s.memberships.None? && g.namespaces == s.graph.namespaces
  }

  // `g` holds the path, and `x` is closed under its rules, which have no exclusions.
  ghost predicate Proves(s: Snapshot, g: Graph, t: EntityRef, x: Interpretation, path: seq<TupleKey>) {
    ExclusionFreeGraph(s.graph) && Closed(g, t, x, x, x) && Contains(g, path)
  }

  lemma {:induction false} DeriveCertifies(s: Snapshot, g: Graph, t: EntityRef, x: Interpretation, n: Node, depth: nat,
                                           visited: set<Node>)
    requires Transfer(s, g) && Derive(s, n, t, depth, visited).grant.Some?
    ensures var path := Derive(s, n, t, depth, visited).grant.value.path;
            Contains(s.graph, path) && (Proves(s, g, t, x, path) ==> n in x)
    decreases Fuel(depth), NodeRank(s.graph.namespaces, n), 2
  {
    RewriteIsBelow(s.graph, n);
    DeriveRewriteCertifies(s, g, t, x, n, RewriteOf(s.graph, n), depth, visited + {n});
    assert RewriteOf(g, n) == RewriteOf(s.graph, n);
  }

  lemma {:induction false} DeriveRewriteCertifies(s: Snapshot, g: Graph, t: EntityRef, x: Interpretation, n: Node,
                                                  u: Userset, depth: nat, visited: set<Node>)
    requires Transfer(s, g) && Below(s.graph.namespaces, n, u) && depth <= MAX_USERSET_DEPTH
    requires DeriveRewrite(s, n, u, t, depth, visited).grant.Some?
    ensures var path := DeriveRewrite(s, n, u, t, depth, visited).grant.value.path;
            Contains(s.graph, path) && (Proves(s, g, t, x, path) && ExclusionFree(u) ==> Reduct(g, t, x, x, x, n, u))
    decreases Fuel(depth), NodeRank(s.graph.namespaces, n), 1, u
  {
    match u
    case This =>
      if Direct(t) in SubjectsOf(s.graph.tuples, n) {
        assert TupleKey(n.entity, n.relation, Direct(t)) in [TupleKey(n.entity, n.relation, Direct(t))];
      } else {
        UsersetsCertify(s, g, t, x, n, SubjectsOf(s.graph.tuples, n), depth, visited);
      }
    case Computed(r) => DeriveCertifies(s, g, t, x, Node(n.entity, r), depth, visited);
    case TupleToUserset(ts, c) =>
      var tn := Node(n.entity, ts);
      ParentsCertify(s, g, t, x, tn, SubjectsOf(s.graph.tuples, tn), c, depth, visited);
    case Union(cs) => UnionCertifies(s, g, t, x, n, cs, depth, visited);
    case Intersection(cs) => IntersectionCertifies(s, g, t, x, n, cs, [], depth);
    case Exclusion(b, _) => DeriveRewriteCertifies(s, g, t, x, n, b, depth, {});
  }

  lemma {:induction false} UsersetsCertify(s: Snapshot, g: Graph, t: EntityRef, x: Interpretation, n: Node,
                                           subjects: seq<Subject>, depth: nat, visited: set<Node>)
    requires Transfer(s, g) && depth <= MAX_USERSET_DEPTH
    requires forall sub | sub in subjects :: sub in SubjectsOf(s.graph.tuples, n)
    requires DeriveUsersets(s, n, subjects, t, depth, visited).grant.Some?
    ensures var path := DeriveUsersets(s, n, subjects, t, depth, visited).grant.value.path;
            Contains(s.graph, path) && (Proves(s, g, t, x, path) ==> SomeUsersetIn(g, n, x))
    decreases Fuel(depth), NodeRank(s.graph.namespaces, n), 0, |subjects|
  {
    var head, rest := subjects[0], subjects[1..];
    if head.Direct? {
      UsersetsCertify(s, g, t, x, n, rest, depth, visited);
    } else {
      var w := Derive(s, NodeOf(head), t, depth + 1, visited);
      if w.grant.Some? {
        DeriveCertifies(s, g, t, x, NodeOf(head), depth + 1, visited);
        var key := TupleKey(n.entity, n.relation, head);
        assert forall k :: k in [key] + w.grant.value.path <==> k == key || k in w.grant.value.path;
        if Contains(g, [key] + w.grant.value.path) { assert HasTuple(g, key); }
      } else {
        UsersetsCertify(s, g, t, x, n, rest, depth, w.visited);
      }
    }
  }

  lemma {:induction false} ParentsCertify(s: Snapshot, g: Graph, t: EntityRef, x: Interpretation, tn: Node,
                                          subjects: seq<Subject>, computed: string, depth: nat, visited: set<Node>)
    requires Transfer(s, g) && depth <= MAX_USERSET_DEPTH
    requires forall sub | sub in subjects :: sub in SubjectsOf(s.graph.tuples, tn)
    requires DeriveParents(s, tn, subjects, computed, t, depth, visited).grant.Some?
    ensures var path := DeriveParents(s, tn, subjects, computed, t, depth, visited).grant.value.path;
            Contains(s.graph, path) && (Proves(s, g, t, x, path) ==> SomeParentIn(g, tn, computed, x))
    decreases Fuel(depth), 0, 0, |subjects|
  {
    var head, rest := subjects[0], subjects[1..];
    if head.UsersetOf? {
      ParentsCertify(s, g, t, x, tn, rest, computed, depth, visited);
    } else {
      var w := Derive(s, Node(head.ref, computed), t, depth + 1, visited);
      if w.grant.Some? {
        DeriveCertifies(s, g, t, x, Node(head.ref, computed), depth + 1, visited);
        var key := TupleKey(tn.entity, tn.relation, head);
        assert forall k :: k in [key] + w.grant.value.path <==> k == key || k in w.grant.value.path;
        if Contains(g, [key] + w.grant.value.path) { assert HasTuple(g, key); }
      } else {
        ParentsCertify(s, g, t, x, tn, rest, computed, depth, w.visited);
      }
    }
  }

  lemma {:induction false} UnionCertifies(s: Snapshot, g: Graph, t: EntityRef, x: Interpretation, n: Node,
                                          cs: seq<Userset>, depth: nat, visited: set<Node>)
    requires Transfer(s, g) && depth <= MAX_USERSET_DEPTH
    requires forall c | c in cs :: Below(s.graph.namespaces, n, c)
    requires DeriveUnion(s, n, cs, t, depth, visited).grant.Some?
    ensures var path := DeriveUnion(s, n, cs, t, depth, visited).grant.value.path;
            && Contains(s.graph, path)
            && (Proves(s, g, t, x, path) && (forall c | c in cs :: ExclusionFree(c)) ==>
                  exists c | c in cs :: Reduct(g, t, x, x, x, n, c))
    decreases Fuel(depth), NodeRank(s.graph.namespaces, n), 1, cs
  {
    var w := DeriveRewrite(s, n, cs[0], t, depth, visited);
    if w.grant.Some? {
      DeriveRewriteCertifies(s, g, t, x, n, cs[0], depth, visited);
      assert cs[0] in cs;
    } else {
      UnionCertifies(s, g, t, x, n, cs[1..], depth, w.visited);
    }
  }

  // `path` is the certificate gathered from earlier operands.
  lemma {:induction false} IntersectionCertifies(s: Snapshot, g: Graph, t: EntityRef, x: Interpretation, n: Node,
                                                 cs: seq<Userset>, path: seq<TupleKey>, depth: nat)
    requires Transfer(s, g) && depth <= MAX_USERSET_DEPTH && Contains(s.graph, path)
    requires forall c | c in cs :: Below(s.graph.namespaces, n, c)
    requires DeriveIntersection(s, n, cs, path, t, depth).grant.Some?
    ensures var path' := DeriveIntersection(s, n, cs, path, t, depth).grant.value.path;
            && Contains(s.graph, path')
            && path <= path'
            && (Proves(s, g, t, x, path') && (forall c | c in cs :: ExclusionFree(c)) ==>
                  forall c | c in cs :: Reduct(g, t, x, x, x, n, c))
    decreases Fuel(depth), NodeRank(s.graph.namespaces, n), 1, cs
  {
    if cs != [] {
      assert forall c :: c in cs <==> c == cs[0] || c in cs[1..];
      var w := DeriveRewrite(s, n, cs[0], t, depth, {});
      DeriveRewriteCertifies(s, g, t, x, n, cs[0], depth, {});
      var more := path + w.grant.value.path;
      assert forall k :: k in more <==> k in path || k in w.grant.value.path;
      IntersectionCertifies(s, g, t, x, n, cs[1..], more, depth);
    }
  }

  // ----- Main result -----

  // With no index every path entry is stored; without exclusions those tuples alone already
  // put the target in the least fixed point.
  lemma PathIsCertificate(s: Snapshot, n: Node, t: EntityRef)
    requires Ranked(s.graph.namespaces) && s.memberships.None? && Derive(s, n, t, 0, {}).grant.Some?
    ensures var path := Derive(s, n, t, 0, {}).grant.value.path;
            && Contains(s.graph, path)
            && (ExclusionFreeGraph(s.graph) ==> n in Members(Graph(s.graph.namespaces, BucketsOf(path)), t))
  {
    var path := Derive(s, n, t, 0, {}).grant.value.path;
    var g := Graph(s.graph.namespaces, BucketsOf(path));
    if ExclusionFreeGraph(s.graph) {
      assert ExclusionFreeGraph(g) by {
        assert forall m: Node :: RewriteOf(g, m) == RewriteOf(s.graph, m);
      }
      ExclusionFreeModel(g, t, Members(g, t), Members(g, t));
      DeriveCertifies(s, g, t, Members(g, t), n, 0, {});
    } else {
      DeriveCertifies(s, g, t, iset{}, n, 0, {});
    }
  }
}
