/**
 Exactly when the index changes an outcome: with unions only, the indexed walk grants if and
 only if the plain one does, or reads the rows of some node at a depth at which the index
 answers for one of them. The index need not be fresh.
 */
module IndexShortcut {
  import opened Refs
  import opened Usersets
  import opened Snapshots
  import opened Walks
  import opened Transparency
  import opened Agreement
  import opened Decisions

  // A node whose own rows a walk reads, and the depth it reads them at.
  datatype Stop = Stop(node: Node, depth: nat)

  // The stops of the plain walk, which ends at its first grant.
  ghost function Stops(s: Snapshot, n: Node, t: EntityRef, depth: nat, visited: set<Node>): set<Stop>
    requires Ranked(s.graph.namespaces)
    decreases Fuel(depth), NodeRank(s.graph.namespaces, n), 2
  {
    if depth > MAX_USERSET_DEPTH || n in visited then {}
    else
      RewriteIsBelow(s.graph, n);
      StopsOfRewrite(s, n, RewriteOf(s.graph, n), t, depth, visited + {n})
  }

  ghost function StopsOfRewrite(s: Snapshot, n: Node, u: Userset, t: EntityRef, depth: nat,
                                visited: set<Node>): set<Stop>
    requires Ranked(s.graph.namespaces) && Below(s.graph.namespaces, n, u) && depth <= MAX_USERSET_DEPTH
    decreases Fuel(depth), NodeRank(s.graph.namespaces, n), 1, u
  {
    match u
    case This =>
      var subjects := SubjectsOf(s.graph.tuples, n);
      if Direct(t) in subjects then {} else {Stop(n, depth)} + StopsOfUsersets(s, n, subjects, t, depth, visited)
    case Computed(r) => Stops(s, Node(n.entity, r), t, depth, visited)
    case TupleToUserset(ts, c) =>
      var tn := Node(n.entity, ts);
      StopsOfParents(s, tn, SubjectsOf(s.graph.tuples, tn), c, t, depth, visited)
    case Union(cs) => StopsOfUnion(s, n, cs, t, depth, visited)
    case _ => {}
  }

  ghost function StopsOfUsersets(s: Snapshot, n: Node, subjects: seq<Subject>, t: EntityRef, depth: nat,
                                 visited: set<Node>): set<Stop>
    requires Ranked(s.graph.namespaces) && depth <= MAX_USERSET_DEPTH
    decreases Fuel(depth), NodeRank(s.graph.namespaces, n), 0, |subjects|
  {
    if subjects == [] then {}
    else if subjects[0].Direct? then StopsOfUsersets(s, n, subjects[1..], t, depth, visited)
    else
      var w := Derive(s, NodeOf(subjects[0]), t, depth + 1, visited);
      var stops := Stops(s, NodeOf(subjects[0]), t, depth + 1, visited);
      if w.grant.Some? then stops else stops + StopsOfUsersets(s, n, subjects[1..], t, depth, w.visited)
  }

  ghost function StopsOfParents(s: Snapshot, tn: Node, subjects: seq<Subject>, computed: string, t: EntityRef,
                                depth: nat, visited: set<Node>): set<Stop>
    requires Ranked(s.graph.namespaces) && depth <= MAX_USERSET_DEPTH
    decreases Fuel(depth), 0, 0, |subjects|
  {
    if subjects == [] then {}
    else if subjects[0].UsersetOf? then StopsOfParents(s, tn, subjects[1..], computed, t, depth, visited)
    else
      var w := Derive(s, Node(subjects[0].ref, computed), t, depth + 1, visited);
      var stops := Stops(s, Node(subjects[0].ref, computed), t, depth + 1, visited);
      if w.grant.Some? then stops else stops + StopsOfParents(s, tn, subjects[1..], computed, t, depth, w.visited)
  }

  ghost function StopsOfUnion(s: Snapshot, n: Node, cs: seq<Userset>, t: EntityRef, depth: nat,
                              visited: set<Node>): set<Stop>
    requires Ranked(s.graph.namespaces) && depth <= MAX_USERSET_DEPTH
    requires forall c | c in cs :: Below(s.graph.namespaces, n, c)
    decreases Fuel(depth), NodeRank(s.graph.namespaces, n), 1, cs
  {
    if cs == [] then {}
    else
      var w := DeriveRewrite(s, n, cs[0], t, depth, visited);
      var stops := StopsOfRewrite(s, n, cs[0], t, depth, visited);
      if w.grant.Some? then stops else stops + StopsOfUnion(s, n, cs[1..], t, depth, w.visited)
  }

  // The index answers for one of the rows at that depth: the guard of the shortcut.
  ghost predicate Answers(s: Snapshot, t: EntityRef, index: IndexedMemberships, depth: nat, subjects: seq<Subject>) {
    exists sub | sub in subjects :: sub.UsersetOf? && IndexGrants(Indexed(s, index), NodeOf(sub), t, depth)
  }

  ghost predicate AnswersAt(s: Snapshot, t: EntityRef, index: IndexedMemberships, stop: Stop) {
    Answers(s, t, index, stop.depth, SubjectsOf(s.graph.tuples, stop.node))
  }

  ghost predicate AnswersAtSome(s: Snapshot, t: EntityRef, index: IndexedMemberships, stops: set<Stop>) {
    exists stop | stop in stops :: AnswersAt(s, t, index, stop)
  }

  // The indexed walk grants where the plain one does or the index answers, and otherwise ends alike.
  ghost predicate Shortcuts(plain: Walk, indexed: Walk, answers: bool) {
    && (indexed.grant.Some? <==> plain.grant.Some? || answers)
    && (indexed.grant.None? ==> indexed.visited == plain.visited && indexed.truncated == plain.truncated)
  }

  ghost predicate Unions(s: Snapshot) {
    Ranked(s.graph.namespaces) && s.memberships.None? && UnionOnlyGraph(s.graph)
  }

  lemma AnswersJoin(s: Snapshot, t: EntityRef, index: IndexedMemberships, a: set<Stop>, b: set<Stop>)
    ensures AnswersAtSome(s, t, index, a + b) <==> AnswersAtSome(s, t, index, a) || AnswersAtSome(s, t, index, b)
  {
    if AnswersAtSome(s, t, index, a) { var stop :| stop in a && AnswersAt(s, t, index, stop); assert stop in a + b; }
    if AnswersAtSome(s, t, index, b) { var stop :| stop in b && AnswersAt(s, t, index, stop); assert stop in a + b; }
  }

  lemma {:induction false} DeriveShortcuts(s: Snapshot, t: EntityRef, index: IndexedMemberships, n: Node, depth: nat,
                                           visited: set<Node>)
    requires Unions(s)
    ensures Shortcuts(Derive(s, n, t, depth, visited), Derive(Indexed(s, index), n, t, depth, visited),
                      AnswersAtSome(s, t, index, Stops(s, n, t, depth, visited)))
    decreases Fuel(depth), NodeRank(s.graph.namespaces, n), 2
  {
    if depth <= MAX_USERSET_DEPTH && n !in visited {
      RewriteIsBelow(s.graph, n);
      RewriteShortcuts(s, t, index, n, RewriteOf(s.graph, n), depth, visited + {n});
    }
  }

  lemma {:induction false} RewriteShortcuts(s: Snapshot, t: EntityRef, index: IndexedMemberships, n: Node, u: Userset,
                                            depth: nat, visited: set<Node>)
    requires Unions(s) && Below(s.graph.namespaces, n, u) && depth <= MAX_USERSET_DEPTH && UnionOnly(u)
    ensures Shortcuts(DeriveRewrite(s, n, u, t, depth, visited),
                      DeriveRewrite(Indexed(s, index), n, u, t, depth, visited),
                      AnswersAtSome(s, t, index, StopsOfRewrite(s, n, u, t, depth, visited)))
    decreases Fuel(depth), NodeRank(s.graph.namespaces, n), 1, u
  {
    match u
    case This => OwnRowsShortcut(s, t, index, n, depth, visited);
    case Computed(r) => DeriveShortcuts(s, t, index, Node(n.entity, r), depth, visited);
    case TupleToUserset(ts, c) =>
      var tn := Node(n.entity, ts);
      ParentsShortcut(s, t, index, tn, SubjectsOf(s.graph.tuples, tn), c, depth, visited);
    case Union(cs) => UnionShortcuts(s, t, index, n, cs, depth, visited);
  }

  lemma {:induction false} OwnRowsShortcut(s: Snapshot, t: EntityRef, index: IndexedMemberships, n: Node, depth: nat,
                                           visited: set<Node>)
    requires Unions(s) && depth <= MAX_USERSET_DEPTH
    ensures Shortcuts(DeriveRewrite(s, n, This, t, depth, visited),
                      DeriveRewrite(Indexed(s, index), n, This, t, depth, visited),
                      AnswersAtSome(s, t, index, StopsOfRewrite(s, n, This, t, depth, visited)))
    decreases Fuel(depth), NodeRank(s.graph.namespaces, n), 0
  {
    var subjects := SubjectsOf(s.graph.tuples, n);
    if Direct(t) !in subjects {
      UsersetsShortcut(s, t, index, n, subjects, depth, visited);
      var below := StopsOfUsersets(s, n, subjects, t, depth, visited);
      AnswersJoin(s, t, index, {Stop(n, depth)}, below);
      assert AnswersAtSome(s, t, index, {Stop(n, depth)}) <==> AnswersAt(s, t, index, Stop(n, depth)) by {
        assert Stop(n, depth) in {Stop(n, depth)};
      }
    }
  }

  lemma {:induction false} UsersetsShortcut(s: Snapshot, t: EntityRef, index: IndexedMemberships, n: Node,
                                            subjects: seq<Subject>, depth: nat, visited: set<Node>)
    requires Unions(s) && depth <= MAX_USERSET_DEPTH
    ensures Shortcuts(DeriveUsersets(s, n, subjects, t, depth, visited),
                      DeriveUsersets(Indexed(s, index), n, subjects, t, depth, visited),
                      Answers(s, t, index, depth, subjects)
                      || AnswersAtSome(s, t, index, StopsOfUsersets(s, n, subjects, t, depth, visited)))
    decreases Fuel(depth), NodeRank(s.graph.namespaces, n), 0, |subjects|
  {
    if subjects != [] {
      var head, rest := subjects[0], subjects[1..];
      AnswersSplit(s, t, index, depth, subjects);
      if head.Direct? {
        UsersetsShortcut(s, t, index, n, rest, depth, visited);
      } else {
        var w := Derive(s, NodeOf(head), t, depth + 1, visited);
        DeriveShortcuts(s, t, index, NodeOf(head), depth + 1, visited);
        if w.grant.None? {
          UsersetsShortcut(s, t, index, n, rest, depth, w.visited);
          AnswersJoin(s, t, index, Stops(s, NodeOf(head), t, depth + 1, visited),
                      StopsOfUsersets(s, n, rest, t, depth, w.visited));
        }
      }
    }
  }

  lemma AnswersSplit(s: Snapshot, t: EntityRef, index: IndexedMemberships, depth: nat, subjects: seq<Subject>)
    requires subjects != []
    ensures Answers(s, t, index, depth, subjects)
       <==> || (subjects[0].UsersetOf? && IndexGrants(Indexed(s, index), NodeOf(subjects[0]), t, depth))
            || Answers(s, t, index, depth, subjects[1..])
  {
    assert forall sub :: sub in subjects <==> sub == subjects[0] || sub in subjects[1..];
  }

  lemma {:induction false} ParentsShortcut(s: Snapshot, t: EntityRef, index: IndexedMemberships, tn: Node,
                                           subjects: seq<Subject>, computed: string, depth: nat, visited: set<Node>)
    requires Unions(s) && depth <= MAX_USERSET_DEPTH
    ensures Shortcuts(DeriveParents(s, tn, subjects, computed, t, depth, visited),
                      DeriveParents(Indexed(s, index), tn, subjects, computed, t, depth, visited),
                      AnswersAtSome(s, t, index, StopsOfParents(s, tn, subjects, computed, t, depth, visited)))
    decreases Fuel(depth), 0, 0, |subjects|
  {
    if subjects != [] {
      var head, rest := subjects[0], subjects[1..];
      if head.UsersetOf? {
        ParentsShortcut(s, t, index, tn, rest, computed, depth, visited);
      } else {
        var m := Node(head.ref, computed);
        var w := Derive(s, m, t, depth + 1, visited);
        DeriveShortcuts(s, t, index, m, depth + 1, visited);
        if w.grant.None? {
          ParentsShortcut(s, t, index, tn, rest, computed, depth, w.visited);
          AnswersJoin(s, t, index, Stops(s, m, t, depth + 1, visited),
                      StopsOfParents(s, tn, rest, computed, t, depth, w.visited));
        }
      }
    }
  }

  lemma {:induction false} UnionShortcuts(s: Snapshot, t: EntityRef, index: IndexedMemberships, n: Node,
                                          cs: seq<Userset>, depth: nat, visited: set<Node>)
    requires Unions(s) && depth <= MAX_USERSET_DEPTH
    requires forall c | c in cs :: Below(s.graph.namespaces, n, c) && UnionOnly(c)
    ensures Shortcuts(DeriveUnion(s, n, cs, t, depth, visited),
                      DeriveUnion(Indexed(s, index), n, cs, t, depth, visited),
                      AnswersAtSome(s, t, index, StopsOfUnion(s, n, cs, t, depth, visited)))
    decreases Fuel(depth), NodeRank(s.graph.namespaces, n), 1, cs
  {
    if cs != [] {
      var w := DeriveRewrite(s, n, cs[0], t, depth, visited);
      RewriteShortcuts(s, t, index, n, cs[0], depth, visited);
      if w.grant.None? {
        UnionShortcuts(s, t, index, n, cs[1..], depth, w.visited);
        AnswersJoin(s, t, index, StopsOfRewrite(s, n, cs[0], t, depth, visited),
                    StopsOfUnion(s, n, cs[1..], t, depth, w.visited));
      }
    }
  }

  // ----- Main results -----

  // The index opens the node exactly when the plain walk denies it and stops where the index answers.
  lemma IndexGrantsExactly(s: Snapshot, t: EntityRef, index: IndexedMemberships, n: Node)
    requires Unions(s)
    ensures var plain, indexed := Derive(s, n, t, 0, {}), Derive(Indexed(s, index), n, t, 0, {});
            && (indexed.grant.Some?
                <==> plain.grant.Some? || exists stop | stop in Stops(s, n, t, 0, {}) :: AnswersAt(s, t, index, stop))
            && (indexed.grant.None? ==> indexed == plain)
  {
    DeriveShortcuts(s, t, index, n, 0, {});
  }

  lemma {:induction false} TriedAlike(s: Snapshot, index: IndexedMemberships, resource: EntityRef,
                                      required: seq<string>, subject: EntityRef)
    requires Unions(s) && TryRelations(Indexed(s, index), resource, required, subject).found.None?
    ensures TryRelations(Indexed(s, index), resource, required, subject) == TryRelations(s, resource, required, subject)
  {
    if required != [] {
      IndexGrantsExactly(s, subject, index, Node(resource, required[0]));
      TriedAlike(s, index, resource, required[1..], subject);
    }
  }

  // The same for the decision, whose denials also keep their reasons: some required relation
  // is granted, or stops where the index answers.
  lemma IndexPermitsExactly(q: Query, s: Snapshot, index: IndexedMemberships)
    requires Unions(s) && SameOrg(q, s)
    ensures Evaluate(q, Indexed(s, index)).effect == Permit
       <==> || Evaluate(q, s).effect == Permit
            || exists r, stop | Requires(q, s, r) && stop in Stops(s, Node(q.resource, r), q.subject, 0, {}) ::
                 AnswersAt(s, q.subject, index, stop)
    ensures Evaluate(q, Indexed(s, index)).effect == Deny ==> Evaluate(q, Indexed(s, index)) == Evaluate(q, s)
  {
    var required := RequiredRelations(s.graph.namespaces, q.action, q.resource);
    TriedRelations(s, q.resource, required, q.subject);
    TriedRelations(Indexed(s, index), q.resource, required, q.subject);
    forall r: string ensures
      Derive(Indexed(s, index), Node(q.resource, r), q.subject, 0, {}).grant.Some?
      <==> || Derive(s, Node(q.resource, r), q.subject, 0, {}).grant.Some?
           || AnswersAtSome(s, q.subject, index, Stops(s, Node(q.resource, r), q.subject, 0, {}))
    {
      DeriveShortcuts(s, q.subject, index, Node(q.resource, r), 0, {});
    }
    if r, stop :| Requires(q, s, r) && stop in Stops(s, Node(q.resource, r), q.subject, 0, {})
                  && AnswersAt(s, q.subject, index, stop) {
      assert AnswersAtSome(s, q.subject, index, Stops(s, Node(q.resource, r), q.subject, 0, {}));
      assert r in required;
    }
    if TryRelations(Indexed(s, index), q.resource, required, q.subject).found.None? {
      TriedAlike(s, index, q.resource, required, q.subject);
    }
  }
}
