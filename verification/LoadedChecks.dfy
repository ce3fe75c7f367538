/** What the decision on a loaded snapshot is worth against everything that is stored. */
module LoadedChecks {
  import opened Prelude
  import opened Refs
  import opened Usersets
  import opened Snapshots
  import opened Walks
  import opened Semantics
  import opened Derivations
  import opened Transparency
  import opened Agreement
  import opened Decisions
  import opened Loading
  import opened FaithfulLoading
  import opened LoadedRelations

  // ----- Walks over a part of the stored facts -----

  // `part` holds some of the rows of `g`; a rewrite it does not have belongs to a node without rows.
  ghost predicate PartOfGraph(part: Graph, g: Graph) {
    && Ranked(part.namespaces) && Ranked(g.namespaces) && ExclusionFreeGraph(g)
    && (forall n: Node, sub: Subject | sub in SubjectsOf(part.tuples, n) :: sub in SubjectsOf(g.tuples, n))
    && (forall n: Node :: RewriteOf(part, n) == RewriteOf(g, n) || Blank(part, n))
  }

  // And the index entries about `t` stand for derivations over `g`.
  ghost predicate PartOf(s: Snapshot, g: Graph, t: EntityRef, lower: Interpretation, upper: Interpretation) {
    && PartOfGraph(s.graph, g)
    && (forall n: Node | DepthOf(s.memberships, n, t).Some? ::
          Within(g, t, lower, upper, DepthOf(s.memberships, n, t).value, n))
  }

  ghost predicate Blank(g: Graph, n: Node) { RewriteOf(g, n) == This && SubjectsOf(g.tuples, n) == [] }

  lemma {:induction false} PartGrantWithin(s: Snapshot, g: Graph, t: EntityRef, lower: Interpretation,
                                           upper: Interpretation, n: Node, depth: nat, visited: set<Node>)
    requires PartOf(s, g, t, lower, upper) && Derive(s, n, t, depth, visited).grant.Some?
    ensures Within(g, t, lower, upper, MAX_USERSET_DEPTH - depth, n)
    decreases Fuel(depth), NodeRank(s.graph.namespaces, n), 2
  {
    RewriteIsBelow(s.graph, n);
    RewriteIsBelow(g, n);
    assert DeriveUsersets(s, n, [], t, depth, visited + {n}).grant.None?;
    assert !Blank(s.graph, n);
    PartRewriteWithin(s, g, t, lower, upper, n, RewriteOf(s.graph, n), depth, visited + {n});
  }

  lemma {:induction false} PartRewriteWithin(s: Snapshot, g: Graph, t: EntityRef, lower: Interpretation,
                                             upper: Interpretation, n: Node, u: Userset, depth: nat, visited: set<Node>)
    requires PartOf(s, g, t, lower, upper) && depth <= MAX_USERSET_DEPTH && ExclusionFree(u)
    requires Below(s.graph.namespaces, n, u) && Below(g.namespaces, n, u)
    requires DeriveRewrite(s, n, u, t, depth, visited).grant.Some?
    ensures WithinRewrite(g, t, lower, upper, MAX_USERSET_DEPTH - depth, n, u)
    decreases Fuel(depth), NodeRank(s.graph.namespaces, n), 1, u
  {
    match u
    case This =>
      if Direct(t) !in SubjectsOf(s.graph.tuples, n) {
        PartUsersetsWithin(s, g, t, lower, upper, n, SubjectsOf(s.graph.tuples, n), depth, visited);
      }
    case Computed(r) => PartGrantWithin(s, g, t, lower, upper, Node(n.entity, r), depth, visited);
    case TupleToUserset(ts, c) =>
      var tn := Node(n.entity, ts);
      PartParentsWithin(s, g, t, lower, upper, tn, SubjectsOf(s.graph.tuples, tn), c, depth, visited);
    case Union(cs) => PartUnionWithin(s, g, t, lower, upper, n, cs, depth, visited);
    case Intersection(cs) => PartIntersectionWithin(s, g, t, lower, upper, n, cs, [], depth);
  }

  lemma {:induction false} PartUsersetsWithin(s: Snapshot, g: Graph, t: EntityRef, lower: Interpretation,
                                              upper: Interpretation, n: Node, subjects: seq<Subject>, depth: nat,
                                              visited: set<Node>)
    requires PartOf(s, g, t, lower, upper) && depth <= MAX_USERSET_DEPTH
    requires DeriveUsersets(s, n, subjects, t, depth, visited).grant.Some?
    ensures exists sub | sub in subjects ::
              sub.UsersetOf? && Within(g, t, lower, upper, MAX_USERSET_DEPTH - depth - 1, NodeOf(sub))
    decreases Fuel(depth), NodeRank(s.graph.namespaces, n), 0, |subjects|
  {
    var head, rest := subjects[0], subjects[1..];
    if head.Direct? {
      PartUsersetsWithin(s, g, t, lower, upper, n, rest, depth, visited);
    } else if IndexGrants(s, NodeOf(head), t, depth) {
      var recorded := DepthOf(s.memberships, NodeOf(head), t).value;
      WithinMore(g, t, lower, upper, recorded, MAX_USERSET_DEPTH - depth - 1, NodeOf(head));
    } else {
      var w := Derive(s, NodeOf(head), t, depth + 1, visited);
      if w.grant.Some? { PartGrantWithin(s, g, t, lower, upper, NodeOf(head), depth + 1, visited); }
      else { PartUsersetsWithin(s, g, t, lower, upper, n, rest, depth, w.visited); }
    }
  }

  lemma {:induction false} PartParentsWithin(s: Snapshot, g: Graph, t: EntityRef, lower: Interpretation,
                                             upper: Interpretation, tn: Node, subjects: seq<Subject>, computed: string,
                                             depth: nat, visited: set<Node>)
    requires PartOf(s, g, t, lower, upper) && depth <= MAX_USERSET_DEPTH
    requires DeriveParents(s, tn, subjects, computed, t, depth, visited).grant.Some?
    ensures exists sub | sub in subjects ::
              sub.Direct? && Within(g, t, lower, upper, MAX_USERSET_DEPTH - depth - 1, Node(sub.ref, computed))
    decreases Fuel(depth), 0, 0, |subjects|
  {
    var head, rest := subjects[0], subjects[1..];
    if head.UsersetOf? {
      PartParentsWithin(s, g, t, lower, upper, tn, rest, computed, depth, visited);
    } else {
      var w := Derive(s, Node(head.ref, computed), t, depth + 1, visited);
      if w.grant.Some? { PartGrantWithin(s, g, t, lower, upper, Node(head.ref, computed), depth + 1, visited); }
      else { PartParentsWithin(s, g, t, lower, upper, tn, rest, computed, depth, w.visited); }
    }
  }

  lemma {:induction false} PartUnionWithin(s: Snapshot, g: Graph, t: EntityRef, lower: Interpretation,
                                           upper: Interpretation, n: Node, cs: seq<Userset>, depth: nat,
                                           visited: set<Node>)
    requires PartOf(s, g, t, lower, upper) && depth <= MAX_USERSET_DEPTH
    requires forall c | c in cs :: ExclusionFree(c) && Below(s.graph.namespaces, n, c) && Below(g.namespaces, n, c)
    requires DeriveUnion(s, n, cs, t, depth, visited).grant.Some?
    ensures exists c | c in cs :: WithinRewrite(g, t, lower, upper, MAX_USERSET_DEPTH - depth, n, c)
    decreases Fuel(depth), NodeRank(s.graph.namespaces, n), 1, cs
  {
    var w := DeriveRewrite(s, n, cs[0], t, depth, visited);
    if w.grant.Some? {
      PartRewriteWithin(s, g, t, lower, upper, n, cs[0], depth, visited);
      assert cs[0] in cs;
    } else {
      PartUnionWithin(s, g, t, lower, upper, n, cs[1..], depth, w.visited);
      var c :| c in cs[1..] && WithinRewrite(g, t, lower, upper, MAX_USERSET_DEPTH - depth, n, c);
      assert c in cs;
    }
  }

  lemma {:induction false} PartIntersectionWithin(s: Snapshot, g: Graph, t: EntityRef, lower: Interpretation,
                                                  upper: Interpretation, n: Node, cs: seq<Userset>, path: seq<TupleKey>,
                                                  depth: nat)
    requires PartOf(s, g, t, lower, upper) && depth <= MAX_USERSET_DEPTH
    requires forall c | c in cs :: ExclusionFree(c) && Below(s.graph.namespaces, n, c) && Below(g.namespaces, n, c)
    requires DeriveIntersection(s, n, cs, path, t, depth).grant.Some?
    ensures forall c | c in cs :: WithinRewrite(g, t, lower, upper, MAX_USERSET_DEPTH - depth, n, c)
    decreases Fuel(depth), NodeRank(s.graph.namespaces, n), 1, cs
  {
    if cs != [] {
      assert forall c :: c in cs <==> c == cs[0] || c in cs[1..];
      var w := DeriveRewrite(s, n, cs[0], t, depth, {});
      PartRewriteWithin(s, g, t, lower, upper, n, cs[0], depth, {});
      PartIntersectionWithin(s, g, t, lower, upper, n, cs[1..], path + w.grant.value.path, depth);
    }
  }

  // ----- The loaded snapshot is a part -----

  // The snapshot the decision point builds and evaluates; an index view attached to `s` is the
  // one the loader prunes by.
  ghost function Checked(s: Snapshot, q: Query): (loaded: Snapshot)
    requires Ranked(s.graph.namespaces)
    ensures Ranked(loaded.graph.namespaces)
  {
    LoadIsFaithful(s, q);
    LoadedIsRanked(s, LoadFor(s, q));
    LoadedSnapshot(s, LoadFor(s, q))
  }

  lemma LoadIsFaithful(s: Snapshot, q: Query)
    requires Ranked(s.graph.namespaces)
    ensures Faithful(s.graph, LoadFor(s, q)) && RowsReached(s.graph, LoadFor(s, q))
    ensures q.resource.kind in s.graph.namespaces ==> q.resource.kind in LoadFor(s, q).reached
  {
    var required := RequiredRelations(s.graph.namespaces, q.action, q.resource);
    var st0 := LoadNamespace(s.graph, q.resource.kind, NOTHING_LOADED);
    LoadRelationsAdds(s, Some(q.subject), q.resource, required, st0);
  }

  lemma SameRequired(s: Snapshot, q: Query)
    requires Ranked(s.graph.namespaces)
    ensures RequiredRelations(Checked(s, q).graph.namespaces, q.action, q.resource)
         == RequiredRelations(s.graph.namespaces, q.action, q.resource)
  {
    LoadIsFaithful(s, q);
  }

  lemma LoadedGraphIsPart(s: Snapshot, st: Loading)
    requires Ranked(s.graph.namespaces) && ExclusionFreeGraph(s.graph) && Faithful(s.graph, st)
    requires RowsReached(s.graph, st)
    ensures PartOfGraph(LoadedSnapshot(s, st).graph, s.graph)
  {
    var part := LoadedSnapshot(s, st).graph;
    LoadedIsRanked(s, st);
    forall n: Node ensures RewriteOf(part, n) == RewriteOf(s.graph, n) || Blank(part, n) {
      if n.entity.kind in s.graph.namespaces && n.entity.kind !in st.reached { assert n !in st.local; }
    }
  }

  lemma LoadedIsPart(s: Snapshot, q: Query, lower: Interpretation, upper: Interpretation)
    requires Ranked(s.graph.namespaces) && ExclusionFreeGraph(s.graph) && IndexWithin(s, q.subject, lower, upper)
    ensures PartOf(Checked(s, q), s.graph, q.subject, lower, upper)
  {
    LoadIsFaithful(s, q);
    LoadedGraphIsPart(s, LoadFor(s, q));
  }

  // ----- What a loaded decision is worth -----

  lemma LoadedGrantIsMembership(s: Snapshot, q: Query, r: string)
    requires Ranked(s.graph.namespaces) && ExclusionFreeGraph(s.graph)
    requires var m := Members(s.graph, q.subject); IndexWithin(s, q.subject, m, m)
    requires Derive(Checked(s, q), Node(q.resource, r), q.subject, 0, {}).grant.Some?
    ensures var m := Members(s.graph, q.subject);
            && Node(q.resource, r) in m
            && Within(s.graph, q.subject, m, m, MAX_USERSET_DEPTH, Node(q.resource, r))
  {
    var m := Members(s.graph, q.subject);
    LoadedIsPart(s, q, m, m);
    PartGrantWithin(Checked(s, q), s.graph, q.subject, m, m, Node(q.resource, r), 0, {});
    ExclusionFreeModel(s.graph, q.subject, m, m);
    WithinIsCertain(s.graph, q.subject, m, m, MAX_USERSET_DEPTH, Node(q.resource, r));
  }

  // Without exclusions a permit is always real: cut or not, pruned or not, whatever the load
  // left out, it rests on a required relation that holds among all stored facts, by a
  // derivation within the depth bound.
  lemma LoadedPermitIsMembership(s: Snapshot, q: Query)
    requires Ranked(s.graph.namespaces) && ExclusionFreeGraph(s.graph)
    requires var m := Members(s.graph, q.subject); IndexWithin(s, q.subject, m, m)
    ensures var m := Members(s.graph, q.subject);
            Evaluate(q, Checked(s, q)).effect == Permit ==>
              exists r :: && Requires(q, s, r) && Node(q.resource, r) in m
                          && Within(s.graph, q.subject, m, m, MAX_USERSET_DEPTH, Node(q.resource, r))
  {
    var m, loaded := Members(s.graph, q.subject), Checked(s, q);
    var required := RequiredRelations(s.graph.namespaces, q.action, q.resource);
    SameRequired(s, q);
    TriedRelations(loaded, q.resource, required, q.subject);
    if Evaluate(q, loaded).effect == Permit {
      var r :| r in required && Derive(loaded, Node(q.resource, r), q.subject, 0, {}).grant.Some?;
      LoadedGrantIsMembership(s, q, r);
      assert Requires(q, s, r);
    }
  }

  // After a complete load with the index off, the decision is exact for all stored facts,
  // exclusions included.
  lemma LoadedDecisionIsExact(s: Snapshot, q: Query, lower: Interpretation, upper: Interpretation)
    requires Ranked(s.graph.namespaces) && PartialStable(s.graph, q.subject, lower, upper)
    requires IndexOff(s) && OneOrg(s) && s.orgId == q.orgId && !LoadFor(s, q).cut
    ensures var d := Evaluate(q, Checked(s, q));
            && (d.effect == Permit ==> exists r :: Requires(q, s, r) && Node(q.resource, r) in lower)
            && (d.effect == Deny && WalkTruncated !in d.reasons ==>
                  forall r | Requires(q, s, r) :: Node(q.resource, r) !in upper)
  {
    IndexOffPrunesNothing(s, q);
    LoadedDecision(s, q);
    EvaluateIsExact(q, s, lower, upper);
  }

  // With a fresh index and a load it pruned nothing of: the plain decision, unless that was truncated.
  lemma CompleteLoadDecision(q: Query, s: Snapshot, index: IndexedMemberships)
    requires Setting(s, q.subject, index) && OneOrg(s) && Complete(LoadFor(Indexed(s, index), q))
    ensures var plain, checked := Evaluate(q, s), Evaluate(q, Checked(Indexed(s, index), q));
            && (plain.effect == Permit ==> checked.effect == Permit)
            && (WalkTruncated !in plain.reasons ==> checked.effect == plain.effect && WalkTruncated !in checked.reasons)
  {
    LoadedDecision(Indexed(s, index), q);
    IndexedDecision(q, s, index);
  }

  // With a fresh index and only unions the same holds however much was pruned, for one
  // required relation even if the load was cut.
  lemma UnionOnlyLoadDecision(q: Query, s: Snapshot, index: IndexedMemberships)
    requires Setting(s, q.subject, index) && OneOrg(s) && UnionOnlyGraph(s.graph)
    requires || |RequiredRelations(s.graph.namespaces, q.action, q.resource)| == 1
             || !LoadFor(Indexed(s, index), q).cut
    ensures var plain, checked := Evaluate(q, s), Evaluate(q, Checked(Indexed(s, index), q));
            && (plain.effect == Permit ==> checked.effect == Permit)
            && (WalkTruncated !in plain.reasons ==> checked.effect == plain.effect && WalkTruncated !in checked.reasons)
  {
    if LoadFor(Indexed(s, index), q).cut { LoadedDecisionUnionOnly(Indexed(s, index), q); }
    else { LoadedDecisionUnions(Indexed(s, index), q); }
    IndexedDecision(q, s, index);
  }

  // A fresh index qualifies for LoadedPermitIsMembership.
  lemma FreshIndexIsWithin(s: Snapshot, t: EntityRef, index: IndexedMemberships)
    requires Setting(s, t, index) && ExclusionFreeGraph(s.graph)
    ensures var m := Members(s.graph, t); IndexWithin(Indexed(s, index), t, m, m)
  {
    var m := Members(s.graph, t);
    ExclusionFreeModel(s.graph, t, m, m);
    FreshIndexIsSound(s, t, index, m, m);
  }

  // The actual check: no exclusions, any fresh index, cut or not.
  lemma CheckedPermitIsMembership(q: Query, s: Snapshot, index: IndexedMemberships)
    requires Setting(s, q.subject, index) && ExclusionFreeGraph(s.graph)
    ensures var m := Members(s.graph, q.subject);
            Evaluate(q, Checked(Indexed(s, index), q)).effect == Permit ==>
              exists r :: && Requires(q, s, r) && Node(q.resource, r) in m
                          && Within(s.graph, q.subject, m, m, MAX_USERSET_DEPTH, Node(q.resource, r))
  {
    var m := Members(s.graph, q.subject);
    FreshIndexIsWithin(s, q.subject, index);
    LoadedPermitIsMembership(Indexed(s, index), q);
    if Evaluate(q, Checked(Indexed(s, index), q)).effect == Permit {
      var r :| && Requires(q, Indexed(s, index), r) && Node(q.resource, r) in m
               && Within(s.graph, q.subject, m, m, MAX_USERSET_DEPTH, Node(q.resource, r));
      assert Requires(q, s, r);
    }
  }

  // One of the conditions under which the loaded snapshot decides like the full one.
  ghost predicate DecidesAlike(s: Snapshot, q: Query)
    requires Ranked(s.graph.namespaces)
  {
    || Complete(LoadFor(s, q))
    || (UnionOnlyGraph(s.graph) &&
          (|RequiredRelations(s.graph.namespaces, q.action, q.resource)| == 1 || !LoadFor(s, q).cut))
  }

  lemma FreshChecksAreSafe(q: Query, s: Snapshot, index: IndexedMemberships)
    requires Setting(s, q.subject, index) && OneOrg(s)
    ensures var plain, checked := Evaluate(q, s), Evaluate(q, Checked(Indexed(s, index), q));
            var m := Members(s.graph, q.subject);
            && (ExclusionFreeGraph(s.graph) && checked.effect == Permit ==>
                  exists r :: && Requires(q, s, r) && Node(q.resource, r) in m
                              && Within(s.graph, q.subject, m, m, MAX_USERSET_DEPTH, Node(q.resource, r)))
            && (DecidesAlike(Indexed(s, index), q) ==>
                  && (plain.effect == Permit ==> checked.effect == Permit)
                  && (WalkTruncated !in plain.reasons ==>
                        checked.effect == plain.effect && WalkTruncated !in checked.reasons))
  {
    if ExclusionFreeGraph(s.graph) { CheckedPermitIsMembership(q, s, index); }
    if Complete(LoadFor(Indexed(s, index), q)) { CompleteLoadDecision(q, s, index); }
    else if DecidesAlike(Indexed(s, index), q) { UnionOnlyLoadDecision(q, s, index); }
  }
}
