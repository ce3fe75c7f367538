/** The reason of a permit is a proof: its code and path retrace a derivation, rule by rule. */
module Explanations {
  import opened Prelude
  import opened Refs
  import opened Usersets
  import opened Snapshots
  import opened Walks
  import opened Decisions

  function KeyOf(n: Node, sub: Subject): TupleKey { TupleKey(n.entity, n.relation, sub) }

  // A grant of `n` with this code and path follows from the node's rewrite.
  ghost predicate Explains(s: Snapshot, n: Node, t: EntityRef, code: GrantCode, path: seq<TupleKey>)
    requires Ranked(s.graph.namespaces)
    decreases |path|, NodeRank(s.graph.namespaces, n), 2
  {
    Below(s.graph.namespaces, n, RewriteOf(s.graph, n)) && ExplainsRewrite(s, n, RewriteOf(s.graph, n), t, code, path)
  }

  ghost predicate ExplainsRewrite(s: Snapshot, n: Node, u: Userset, t: EntityRef, code: GrantCode,
                                  path: seq<TupleKey>)
    requires Ranked(s.graph.namespaces) && Below(s.graph.namespaces, n, u)
    decreases |path|, NodeRank(s.graph.namespaces, n), 1, u
  {
    match u
    case This => ExplainsThis(s, n, t, code, path)
    case Computed(r) => code == GrantComputedUserset && exists c :: Explains(s, Node(n.entity, r), t, c, path)
    case TupleToUserset(tupleset, computed) =>
      code == GrantTupleToUserset && ExplainsParent(s, Node(n.entity, tupleset), computed, t, path)
    case Union(cs) => exists c | c in cs :: ExplainsRewrite(s, n, c, t, code, path)
    case Intersection(cs) => code == GrantIntersection && ExplainsAll(s, n, cs, t, path)
    case Exclusion(b, _) => code == GrantExclusion && exists c :: ExplainsRewrite(s, n, b, t, c, path)
  }

  // The stored row itself; or else a userset row, followed by the reason for its set or answered by the index.
  ghost predicate ExplainsThis(s: Snapshot, n: Node, t: EntityRef, code: GrantCode, path: seq<TupleKey>)
    requires Ranked(s.graph.namespaces)
    decreases |path|, NodeRank(s.graph.namespaces, n), 0
  {
    var subjects := SubjectsOf(s.graph.tuples, n);
    if Direct(t) in subjects then code == GrantDirect && path == [KeyOf(n, Direct(t))]
    else
      && path != [] && path[0] == KeyOf(n, path[0].subject)
      && path[0].subject in subjects && path[0].subject.UsersetOf?
      && ExplainsSet(s, NodeOf(path[0].subject), t, code, path[1..])
  }

  // The reason for the set itself, or the index.
  ghost predicate ExplainsSet(s: Snapshot, set_: Node, t: EntityRef, code: GrantCode, rest: seq<TupleKey>)
    requires Ranked(s.graph.namespaces)
    decreases |rest|, NodeRank(s.graph.namespaces, set_), 3
  {
    || (code == GrantUserset && exists c :: Explains(s, set_, t, c, rest))
    || (code == GrantIndexedUserset && rest == [] && DepthOf(s.memberships, set_, t).Some?)
  }

  // A tupleset row naming the parent, followed by the reason for the parent.
  ghost predicate ExplainsParent(s: Snapshot, tn: Node, computed: string, t: EntityRef, path: seq<TupleKey>)
    requires Ranked(s.graph.namespaces)
    decreases |path|, 0, 0
  {
    && path != [] && path[0] == KeyOf(tn, path[0].subject)
    && path[0].subject in SubjectsOf(s.graph.tuples, tn) && path[0].subject.Direct?
    && exists c :: Explains(s, Node(path[0].subject.ref, computed), t, c, path[1..])
  }

  // The reasons of all operands, one after the other.
  ghost predicate ExplainsAll(s: Snapshot, n: Node, cs: seq<Userset>, t: EntityRef, path: seq<TupleKey>)
    requires Ranked(s.graph.namespaces) && forall c | c in cs :: Below(s.graph.namespaces, n, c)
    decreases |path|, NodeRank(s.graph.namespaces, n), 1, cs
  {
    if cs == [] then path == []
    else
      exists i, c | 0 <= i <= |path| ::
        ExplainsRewrite(s, n, cs[0], t, c, path[..i]) && ExplainsAll(s, n, cs[1..], t, path[i..])
  }

  lemma {:induction false} GrantExplains(s: Snapshot, n: Node, t: EntityRef, depth: nat, visited: set<Node>)
    requires Ranked(s.graph.namespaces) && Derive(s, n, t, depth, visited).grant.Some?
    ensures var g := Derive(s, n, t, depth, visited).grant.value; Explains(s, n, t, g.code, g.path)
    decreases Fuel(depth), NodeRank(s.graph.namespaces, n), 2
  {
    RewriteIsBelow(s.graph, n);
    RewriteGrantExplains(s, n, RewriteOf(s.graph, n), t, depth, visited + {n});
  }

  lemma {:induction false} RewriteGrantExplains(s: Snapshot, n: Node, u: Userset, t: EntityRef, depth: nat,
                                                visited: set<Node>)
    requires Ranked(s.graph.namespaces) && Below(s.graph.namespaces, n, u) && depth <= MAX_USERSET_DEPTH
    requires DeriveRewrite(s, n, u, t, depth, visited).grant.Some?
    ensures var g := DeriveRewrite(s, n, u, t, depth, visited).grant.value;
            ExplainsRewrite(s, n, u, t, g.code, g.path)
    decreases Fuel(depth), NodeRank(s.graph.namespaces, n), 1, u
  {
    match u
    case This =>
      if Direct(t) !in SubjectsOf(s.graph.tuples, n) {
        UsersetGrantExplains(s, n, SubjectsOf(s.graph.tuples, n), t, depth, visited);
      }
    case Computed(r) => GrantExplains(s, Node(n.entity, r), t, depth, visited);
    case TupleToUserset(ts, c) =>
      var tn := Node(n.entity, ts);
      ParentGrantExplains(s, tn, SubjectsOf(s.graph.tuples, tn), c, t, depth, visited);
    case Union(cs) => UnionGrantExplains(s, n, cs, t, depth, visited);
    case Intersection(cs) => IntersectionGrantExplains(s, n, cs, [], t, depth);
    case Exclusion(b, sub) => RewriteGrantExplains(s, n, b, t, depth, {});
  }

  lemma {:induction false} UsersetGrantExplains(s: Snapshot, n: Node, subjects: seq<Subject>, t: EntityRef, depth: nat,
                                                visited: set<Node>)
    requires Ranked(s.graph.namespaces) && depth <= MAX_USERSET_DEPTH
    requires DeriveUsersets(s, n, subjects, t, depth, visited).grant.Some?
    ensures var g := DeriveUsersets(s, n, subjects, t, depth, visited).grant.value;
            && g.path != [] && g.path[0] == KeyOf(n, g.path[0].subject)
            && g.path[0].subject in subjects && g.path[0].subject.UsersetOf?
            && ExplainsSet(s, NodeOf(g.path[0].subject), t, g.code, g.path[1..])
    decreases Fuel(depth), NodeRank(s.graph.namespaces, n), 0, |subjects|
  {
    var head, rest := subjects[0], subjects[1..];
    if head.Direct? {
      UsersetGrantExplains(s, n, rest, t, depth, visited);
    } else if !IndexGrants(s, NodeOf(head), t, depth) {
      var w := Derive(s, NodeOf(head), t, depth + 1, visited);
      if w.grant.Some? {
        GrantExplains(s, NodeOf(head), t, depth + 1, visited);
        var path := DeriveUsersets(s, n, subjects, t, depth, visited).grant.value.path;
        assert path[0] == KeyOf(n, head) && path[1..] == w.grant.value.path;
        assert ExplainsSet(s, NodeOf(head), t, GrantUserset, path[1..]);
      } else {
        UsersetGrantExplains(s, n, rest, t, depth, w.visited);
      }
    }
  }

  lemma {:induction false} ParentGrantExplains(s: Snapshot, tn: Node, subjects: seq<Subject>, computed: string,
                                               t: EntityRef, depth: nat, visited: set<Node>)
    requires Ranked(s.graph.namespaces) && depth <= MAX_USERSET_DEPTH
    requires DeriveParents(s, tn, subjects, computed, t, depth, visited).grant.Some?
    ensures var g := DeriveParents(s, tn, subjects, computed, t, depth, visited).grant.value;
            && g.code == GrantTupleToUserset
            && g.path != [] && g.path[0] == KeyOf(tn, g.path[0].subject)
            && g.path[0].subject in subjects && g.path[0].subject.Direct?
            && exists c :: Explains(s, Node(g.path[0].subject.ref, computed), t, c, g.path[1..])
    decreases Fuel(depth), 0, 0, |subjects|
  {
    var head, rest := subjects[0], subjects[1..];
    if head.UsersetOf? {
      ParentGrantExplains(s, tn, rest, computed, t, depth, visited);
    } else {
      var m := Node(head.ref, computed);
      var w := Derive(s, m, t, depth + 1, visited);
      if w.grant.Some? {
        GrantExplains(s, m, t, depth + 1, visited);
        var path := DeriveParents(s, tn, subjects, computed, t, depth, visited).grant.value.path;
        assert path[0] == KeyOf(tn, head) && path[1..] == w.grant.value.path;
      } else {
        ParentGrantExplains(s, tn, rest, computed, t, depth, w.visited);
      }
    }
  }

  lemma {:induction false} UnionGrantExplains(s: Snapshot, n: Node, cs: seq<Userset>, t: EntityRef, depth: nat,
                                              visited: set<Node>)
    requires Ranked(s.graph.namespaces) && depth <= MAX_USERSET_DEPTH
    requires forall c | c in cs :: Below(s.graph.namespaces, n, c)
    requires DeriveUnion(s, n, cs, t, depth, visited).grant.Some?
    ensures var g := DeriveUnion(s, n, cs, t, depth, visited).grant.value;
            exists c | c in cs :: ExplainsRewrite(s, n, c, t, g.code, g.path)
    decreases Fuel(depth), NodeRank(s.graph.namespaces, n), 1, cs
  {
    var g := DeriveUnion(s, n, cs, t, depth, visited).grant.value;
    var w := DeriveRewrite(s, n, cs[0], t, depth, visited);
    if w.grant.Some? {
      RewriteGrantExplains(s, n, cs[0], t, depth, visited);
      assert cs[0] in cs;
    } else {
      UnionGrantExplains(s, n, cs[1..], t, depth, w.visited);
      var c :| c in cs[1..] && ExplainsRewrite(s, n, c, t, g.code, g.path);
      assert c in cs;
    }
  }

  lemma {:induction false} IntersectionGrantExplains(s: Snapshot, n: Node, cs: seq<Userset>, path: seq<TupleKey>,
                                                     t: EntityRef, depth: nat)
    requires Ranked(s.graph.namespaces) && depth <= MAX_USERSET_DEPTH
    requires forall c | c in cs :: Below(s.graph.namespaces, n, c)
    requires DeriveIntersection(s, n, cs, path, t, depth).grant.Some?
    ensures var g := DeriveIntersection(s, n, cs, path, t, depth).grant.value;
            g.code == GrantIntersection && path <= g.path && ExplainsAll(s, n, cs, t, g.path[|path|..])
    decreases Fuel(depth), NodeRank(s.graph.namespaces, n), 1, cs
  {
    if cs != [] {
      var w := DeriveRewrite(s, n, cs[0], t, depth, {});
      var own := w.grant.value.path;
      RewriteGrantExplains(s, n, cs[0], t, depth, {});
      IntersectionGrantExplains(s, n, cs[1..], path + own, t, depth);
      var all := DeriveIntersection(s, n, cs, path, t, depth).grant.value.path[|path|..];
      assert all[..|own|] == own;
      assert all[|own|..] == DeriveIntersection(s, n, cs, path, t, depth).grant.value.path[|path + own|..];
    }
  }

  // ----- Main results -----

  // A permit names a required relation, and its code and path explain the grant of it.
  lemma PermitIsExplained(q: Query, s: Snapshot)
    requires Ranked(s.graph.namespaces) && Evaluate(q, s).effect == Permit
    ensures exists r, code, path ::
              && Evaluate(q, s) == PermitWith(Granted(code, r, path))
              && Requires(q, s, r) && Explains(s, Node(q.resource, r), q.subject, code, path)
  {
    AttemptIsExplained(q, s, RequiredRelations(s.graph.namespaces, q.action, q.resource));
  }

  lemma {:induction false} AttemptIsExplained(q: Query, s: Snapshot, required: seq<string>)
    requires Ranked(s.graph.namespaces) && TryRelations(s, q.resource, required, q.subject).found.Some?
    ensures exists r, code, path | r in required ::
              && TryRelations(s, q.resource, required, q.subject).found == Some(Granted(code, r, path))
              && Explains(s, Node(q.resource, r), q.subject, code, path)
  {
    var n := Node(q.resource, required[0]);
    if Derive(s, n, q.subject, 0, {}).grant.Some? {
      GrantExplains(s, n, q.subject, 0, {});
    } else {
      AttemptIsExplained(q, s, required[1..]);
      var r, code, path :| r in required[1..]
          && TryRelations(s, q.resource, required[1..], q.subject).found == Some(Granted(code, r, path))
          && Explains(s, Node(q.resource, r), q.subject, code, path);
      assert r in required;
    }
  }

  // What the configuration requires: the relations bound to the verb of the resource's namespace;
  // nothing for an unknown namespace, another namespace's action or an unknown verb.
  lemma RequiredByConfiguration(q: Query, s: Snapshot, r: string)
    ensures Requires(q, s, r)
       <==> && q.resource.kind in s.graph.namespaces
            && s.graph.namespaces[q.resource.kind].namespace == q.action.namespace
            && q.action.verb in s.graph.namespaces[q.resource.kind].config.actions
            && r in s.graph.namespaces[q.resource.kind].config.actions[q.action.verb]
  {
  }

  // The reasons of a denial: another organization's snapshot, an action that requires nothing,
  // or no grant, with the mark exactly if some walk was truncated.
  lemma DenialIsExplained(q: Query, s: Snapshot)
    requires Ranked(s.graph.namespaces)
    ensures var d := Evaluate(q, s);
            if !SameOrg(q, s) then d == DenyWith([OrgMismatch])
            else if forall r :: !Requires(q, s, r) then d == DenyWith([UnknownAction])
            else if exists r | Requires(q, s, r) :: Derive(s, Node(q.resource, r), q.subject, 0, {}).grant.Some? then
              d.effect == Permit
            else if exists r | Requires(q, s, r) :: Derive(s, Node(q.resource, r), q.subject, 0, {}).truncated then
              d == DenyWith([DefaultDeny, WalkTruncated])
            else d == DenyWith([DefaultDeny])
  {
    var required := RequiredRelations(s.graph.namespaces, q.action, q.resource);
    TriedRelations(s, q.resource, required, q.subject);
    if required != [] { assert Requires(q, s, required[0]); }
    forall r ensures Requires(q, s, r) <==> r in required {}
  }
}
