/** A fresh membership index changes no permit and no untruncated denial. */
module Transparency {
  import opened Prelude
  import opened Refs
  import opened Usersets
  import opened Snapshots
  import opened Walks
  import opened Semantics
  import opened Exactness
  import opened Derivations

  // The entry is the depth of `t` in a monotonic set, flattened from these facts in some order.
  ghost predicate FreshEntry(g: Graph, t: EntityRef, n: Node, depth: nat)
    requires Ranked(g.namespaces)
  {
    exists g' :: SameFacts(g', g) && Flattens(g', t, n, depth)
  }

  ghost predicate Flattens(g: Graph, t: EntityRef, n: Node, depth: nat) {
    Ranked(g.namespaces) && FlattenSet(g, n).monotonic
    && t in FlattenSet(g, n).members && FlattenSet(g, n).members[t] == depth
  }

  ghost predicate FreshIndex(g: Graph, t: EntityRef, index: IndexedMemberships)
    requires Ranked(g.namespaces)
  {
    index.member == Some(t) && forall n | n in index.depths :: FreshEntry(g, t, n, index.depths[n])
  }

  function Indexed(s: Snapshot, index: IndexedMemberships): Snapshot {
    s.(memberships := Some(index))
  }

  // `s` without an index, and a fresh index for it.
  ghost predicate Setting(s: Snapshot, t: EntityRef, index: IndexedMemberships) {
    s.memberships.None? && Ranked(s.graph.namespaces) && FreshIndex(s.graph, t, index)
  }

  lemma FreshIndexIsSound(s: Snapshot, t: EntityRef, index: IndexedMemberships, lower: Interpretation,
                          upper: Interpretation)
    requires Setting(s, t, index) && PartialStable(s.graph, t, lower, upper)
    ensures DepthModel(Indexed(s, index), t, lower, upper) && Model(Indexed(s, index), t, lower, upper)
  {
    forall n: Node | DepthOf(Some(index), n, t).Some?
      ensures Within(s.graph, t, lower, upper, DepthOf(Some(index), n, t).value, n)
    {
      var g :| SameFacts(g, s.graph) && Flattens(g, t, n, index.depths[n]);
      FlattenedDepthsAreDerivations(g, n, t, lower, upper);
      WithinInAnyOrder(g, s.graph, t, lower, upper, index.depths[n], n);
    }
    DepthModelIsModel(Indexed(s, index), t, lower, upper);
  }

  // Walking with the index either follows the plain walk step by step or stops early with a
  // grant; it is never cut where the plain walk is not.
  ghost predicate Follows(plain: Walk, indexed: Walk) {
    && (indexed.grant.None? ==> plain.grant.None? && plain.visited == indexed.visited)
    && (!plain.truncated ==> !indexed.truncated)
  }

  // An operand denied by the plain walk is denied by the indexed one: both are exact.
  lemma FreshDenialFollows(s: Snapshot, t: EntityRef, index: IndexedMemberships, n: Node, u: Userset, depth: nat)
    requires Setting(s, t, index) && Below(s.graph.namespaces, n, u) && depth <= MAX_USERSET_DEPTH
    requires Denies(DeriveRewrite(s, n, u, t, depth, {}))
    ensures DeriveRewrite(Indexed(s, index), n, u, t, depth, {}).grant.None?
  {
    var lower, upper := WellFoundedLower(s.graph, t), WellFoundedUpper(s.graph, t);
    WellFoundedModel(s.graph, t);
    FreshIndexIsSound(s, t, index, lower, upper);
    FreshExact(s, t, lower, upper, n, u, depth, {});
    FreshExact(Indexed(s, index), t, lower, upper, n, u, depth, {});
    if Holds(s.graph, t, lower, upper, n, u) { HoldsMonotone(s.graph, t, lower, upper, upper, lower, n, u); }
  }

  lemma {:induction false} DeriveFollows(s: Snapshot, t: EntityRef, index: IndexedMemberships, n: Node, depth: nat,
                                         visited: set<Node>)
    requires Setting(s, t, index)
    ensures Follows(Derive(s, n, t, depth, visited), Derive(Indexed(s, index), n, t, depth, visited))
    decreases Fuel(depth), NodeRank(s.graph.namespaces, n), 2
  {
    if depth <= MAX_USERSET_DEPTH && n !in visited {
      RewriteIsBelow(s.graph, n);
      DeriveRewriteFollows(s, t, index, n, RewriteOf(s.graph, n), depth, visited + {n});
    }
  }

  lemma {:induction false} DeriveRewriteFollows(s: Snapshot, t: EntityRef, index: IndexedMemberships, n: Node,
                                                u: Userset, depth: nat, visited: set<Node>)
    requires Setting(s, t, index) && Below(s.graph.namespaces, n, u) && depth <= MAX_USERSET_DEPTH
    ensures Follows(DeriveRewrite(s, n, u, t, depth, visited),
        DeriveRewrite(Indexed(s, index), n, u, t, depth, visited))
    decreases Fuel(depth), NodeRank(s.graph.namespaces, n), 1, u
  {
    match u
    case This => UsersetsFollow(s, t, index, n, SubjectsOf(s.graph.tuples, n), depth, visited);
    case Computed(r) => DeriveFollows(s, t, index, Node(n.entity, r), depth, visited);
    case TupleToUserset(ts, c) =>
      var tn := Node(n.entity, ts);
      ParentsFollow(s, t, index, tn, SubjectsOf(s.graph.tuples, tn), c, depth, visited);
    case Union(cs) => UnionFollows(s, t, index, n, cs, depth, visited);
    case Intersection(cs) => IntersectionFollows(s, t, index, n, cs, [], [], depth);
    case Exclusion(b, sub) =>
      DeriveRewriteFollows(s, t, index, n, b, depth, {});
      DeriveRewriteFollows(s, t, index, n, sub, depth, {});
      if Denies(DeriveRewrite(s, n, b, t, depth, {})) { FreshDenialFollows(s, t, index, n, b, depth); }
      if Denies(DeriveRewrite(s, n, sub, t, depth, {})) { FreshDenialFollows(s, t, index, n, sub, depth); }
  }

  lemma {:induction false} UsersetsFollow(s: Snapshot, t: EntityRef, index: IndexedMemberships, n: Node,
                                          subjects: seq<Subject>, depth: nat, visited: set<Node>)
    requires Setting(s, t, index) && depth <= MAX_USERSET_DEPTH
    ensures Follows(DeriveUsersets(s, n, subjects, t, depth, visited),
                    DeriveUsersets(Indexed(s, index), n, subjects, t, depth, visited))
    decreases Fuel(depth), NodeRank(s.graph.namespaces, n), 0, |subjects|
  {
    if subjects != [] {
      var rest := subjects[1..];
      if subjects[0].Direct? {
        UsersetsFollow(s, t, index, n, rest, depth, visited);
      } else {
        DeriveFollows(s, t, index, NodeOf(subjects[0]), depth + 1, visited);
        UsersetsFollow(s, t, index, n, rest, depth, Derive(s, NodeOf(subjects[0]), t, depth + 1, visited).visited);
      }
    }
  }

  lemma {:induction false} ParentsFollow(s: Snapshot, t: EntityRef, index: IndexedMemberships, tn: Node,
                                         subjects: seq<Subject>, computed: string, depth: nat, visited: set<Node>)
    requires Setting(s, t, index) && depth <= MAX_USERSET_DEPTH
    ensures Follows(DeriveParents(s, tn, subjects, computed, t, depth, visited),
                    DeriveParents(Indexed(s, index), tn, subjects, computed, t, depth, visited))
    decreases Fuel(depth), 0, 0, |subjects|
  {
    if subjects != [] {
      var rest := subjects[1..];
      if subjects[0].UsersetOf? {
        ParentsFollow(s, t, index, tn, rest, computed, depth, visited);
      } else {
        var m := Node(subjects[0].ref, computed);
        DeriveFollows(s, t, index, m, depth + 1, visited);
        ParentsFollow(s, t, index, tn, rest, computed, depth, Derive(s, m, t, depth + 1, visited).visited);
      }
    }
  }

  lemma {:induction false} UnionFollows(s: Snapshot, t: EntityRef, index: IndexedMemberships, n: Node, cs: seq<Userset>,
                                        depth: nat, visited: set<Node>)
    requires Setting(s, t, index) && depth <= MAX_USERSET_DEPTH
    requires forall c | c in cs :: Below(s.graph.namespaces, n, c)
    ensures Follows(DeriveUnion(s, n, cs, t, depth, visited), DeriveUnion(Indexed(s, index), n, cs, t, depth, visited))
    decreases Fuel(depth), NodeRank(s.graph.namespaces, n), 1, cs
  {
    if cs != [] {
      DeriveRewriteFollows(s, t, index, n, cs[0], depth, visited);
      UnionFollows(s, t, index, n, cs[1..], depth, DeriveRewrite(s, n, cs[0], t, depth, visited).visited);
    }
  }

  lemma {:induction false} IntersectionFollows(s: Snapshot, t: EntityRef, index: IndexedMemberships, n: Node,
                                               cs: seq<Userset>, path: seq<TupleKey>, path': seq<TupleKey>, depth: nat)
    requires Setting(s, t, index) && depth <= MAX_USERSET_DEPTH
    requires forall c | c in cs :: Below(s.graph.namespaces, n, c)
    ensures Follows(DeriveIntersection(s, n, cs, path, t, depth),
                    DeriveIntersection(Indexed(s, index), n, cs, path', t, depth))
    decreases Fuel(depth), NodeRank(s.graph.namespaces, n), 1, cs
  {
    if cs != [] {
      DeriveRewriteFollows(s, t, index, n, cs[0], depth, {});
      var plain := DeriveRewrite(s, n, cs[0], t, depth, {});
      var indexed := DeriveRewrite(Indexed(s, index), n, cs[0], t, depth, {});
      if Denies(plain) { FreshDenialFollows(s, t, index, n, cs[0], depth); }
      if plain.grant.Some? && indexed.grant.Some? {
        IntersectionFollows(s, t, index, n, cs[1..], path + plain.grant.value.path, path' + indexed.grant.value.path,
            depth);
      }
    }
  }

  // ----- Main result -----

  // With a fresh index: permits stay, untruncated denials stay (and stay untruncated), and
  // every permit has a derivation within the depth bound.
  lemma IndexIsTransparent(s: Snapshot, t: EntityRef, index: IndexedMemberships, lower: Interpretation,
                           upper: Interpretation, n: Node)
    requires Setting(s, t, index) && PartialStable(s.graph, t, lower, upper)
    ensures var plain, indexed := Derive(s, n, t, 0, {}), Derive(Indexed(s, index), n, t, 0, {});
            && (plain.grant.Some? ==> indexed.grant.Some?)
            && (Denies(plain) ==> Denies(indexed))
            && (indexed.grant.Some? ==> Within(s.graph, t, lower, upper, MAX_USERSET_DEPTH, n))
  {
    DeriveFollows(s, t, index, n, 0, {});
    var plain, indexed := Derive(s, n, t, 0, {}), Derive(Indexed(s, index), n, t, 0, {});
    if Denies(plain) {
      var lo, up := WellFoundedLower(s.graph, t), WellFoundedUpper(s.graph, t);
      WellFoundedModel(s.graph, t);
      FreshIndexIsSound(s, t, index, lo, up);
      WalkIsExact(s, t, lo, up, n);
      WalkIsExact(Indexed(s, index), t, lo, up, n);
    }
    FreshIndexIsSound(s, t, index, lower, upper);
    if indexed.grant.Some? { GrantWithin(Indexed(s, index), t, lower, upper, n, 0, {}); }
  }
}
