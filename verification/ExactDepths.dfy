/** The depths that collections record, and the index stores, are those of actual derivations, to the hop. */
module ExactDepths {
  import opened Prelude
  import opened Refs
  import opened Usersets
  import opened Snapshots
  import opened Walks
  import opened Derivations

  // `n` has a derivation, crossing no exclusion, whose longest branch crosses exactly `hops`
  // tuples between objects.
  ghost predicate Exactly(g: Graph, t: EntityRef, hops: int, n: Node)
    requires Ranked(g.namespaces)
    decreases Steps(hops), NodeRank(g.namespaces, n), 1
  {
    hops >= 0 && Below(g.namespaces, n, RewriteOf(g, n)) && ExactlyRewrite(g, t, hops, n, RewriteOf(g, n))
  }

  ghost predicate ExactlyRewrite(g: Graph, t: EntityRef, hops: int, n: Node, u: Userset)
    requires Ranked(g.namespaces) && Below(g.namespaces, n, u) && hops >= 0
    decreases Steps(hops), NodeRank(g.namespaces, n), 0, u
  {
    match u
    case This =>
      || (hops == 0 && Direct(t) in SubjectsOf(g.tuples, n))
      || exists sub | sub in SubjectsOf(g.tuples, n) :: sub.UsersetOf? && Exactly(g, t, hops - 1, NodeOf(sub))
    case Computed(r) => Exactly(g, t, hops, Node(n.entity, r))
    case TupleToUserset(ts, c) =>
      exists sub | sub in SubjectsOf(g.tuples, Node(n.entity, ts)) ::
        sub.Direct? && Exactly(g, t, hops - 1, Node(sub.ref, c))
    case Union(cs) => exists c | c in cs :: ExactlyRewrite(g, t, hops, n, c)
    case Intersection(cs) =>
      && (forall c | c in cs :: exists k | 0 <= k <= hops :: ExactlyRewrite(g, t, k, n, c))
      && exists c | c in cs :: ExactlyRewrite(g, t, hops, n, c)
    case Exclusion(_, _) => false
  }

  // The operands all have derivations within the hops, and one of them exactly so.
  ghost predicate AllExactly(g: Graph, t: EntityRef, hops: int, n: Node, cs: seq<Userset>)
    requires Ranked(g.namespaces) && (forall c | c in cs :: Below(g.namespaces, n, c)) && hops >= 0
  {
    && (forall c | c in cs :: NoDeeper(g, t, hops, n, c))
    && exists c | c in cs :: ExactlyRewrite(g, t, hops, n, c)
  }

  ghost predicate NoDeeper(g: Graph, t: EntityRef, hops: int, n: Node, u: Userset)
    requires Ranked(g.namespaces) && Below(g.namespaces, n, u) && hops >= 0
  {
    exists k | 0 <= k <= hops :: ExactlyRewrite(g, t, k, n, u)
  }

  ghost predicate RecordsExactly(g: Graph, depth: nat, n: Node, u: Userset, ms: seq<Member>)
    requires Ranked(g.namespaces) && Below(g.namespaces, n, u)
  {
    forall m | m in ms :: m.depth >= depth && ExactlyRewrite(g, m.ref, m.depth - depth, n, u)
  }

  lemma {:induction false} CollectExactly(g: Graph, n: Node, depth: nat, visited: set<Node>)
    requires Ranked(g.namespaces) && !Collect(g, n, depth, visited).excluded
    ensures forall m | m in Collect(g, n, depth, visited).members :: Exactly(g, m.ref, m.depth - depth, n)
    decreases Fuel(depth), NodeRank(g.namespaces, n), 2
  {
    if depth <= MAX_USERSET_DEPTH && n !in visited {
      RewriteIsBelow(g, n);
      CollectRewriteExactly(g, n, RewriteOf(g, n), depth, visited + {n});
    }
  }

  lemma {:induction false} CollectRewriteExactly(g: Graph, n: Node, u: Userset, depth: nat, visited: set<Node>)
    requires Ranked(g.namespaces) && Below(g.namespaces, n, u) && depth <= MAX_USERSET_DEPTH
    requires !CollectRewrite(g, n, u, depth, visited).excluded
    ensures RecordsExactly(g, depth, n, u, CollectRewrite(g, n, u, depth, visited).members)
    decreases Fuel(depth), NodeRank(g.namespaces, n), 1, u
  {
    match u
    case This => CollectSubjectsExactly(g, SubjectsOf(g.tuples, n), depth, visited);
    case Computed(r) => CollectExactly(g, Node(n.entity, r), depth, visited);
    case TupleToUserset(ts, c) =>
      CollectParentsExactly(g, SubjectsOf(g.tuples, Node(n.entity, ts)), c, depth, visited);
    case Union(cs) => CollectUnionExactly(g, n, cs, depth, visited);
    case Intersection(cs) =>
      if cs != [] {
        CollectIntersectionExactly(g, n, cs, None, depth, []);
        assert [] + cs == cs;
        forall m | m in CollectIntersection(g, n, cs, None, depth).members
          ensures m.depth >= depth && ExactlyRewrite(g, m.ref, m.depth - depth, n, u)
        {
          forall c | c in cs ensures exists k | 0 <= k <= m.depth - depth :: ExactlyRewrite(g, m.ref, k, n, c) {
            assert NoDeeper(g, m.ref, m.depth - depth, n, c);
          }
        }
      }
  }

  lemma {:induction false} CollectSubjectsExactly(g: Graph, subjects: seq<Subject>, depth: nat, visited: set<Node>)
    requires Ranked(g.namespaces) && depth <= MAX_USERSET_DEPTH
    requires !CollectSubjects(g, subjects, depth, visited).excluded
    ensures forall m | m in CollectSubjects(g, subjects, depth, visited).members ::
              && m.depth >= depth
              && ((m.depth == depth && Direct(m.ref) in subjects)
                  || exists sub | sub in subjects ::
                       sub.UsersetOf? && Exactly(g, m.ref, m.depth - depth - 1, NodeOf(sub)))
    decreases Fuel(depth), 0, 0, |subjects|
  {
    if subjects != [] {
      var head, rest := subjects[0], subjects[1..];
      assert forall sub :: sub in subjects <==> sub == head || sub in rest;
      if head.Direct? {
        CollectSubjectsExactly(g, rest, depth, visited);
      } else {
        CollectExactly(g, NodeOf(head), depth + 1, visited);
        var first := Collect(g, NodeOf(head), depth + 1, visited);
        CollectSubjectsExactly(g, rest, depth, first.visited);
      }
    }
  }

  lemma {:induction false} CollectParentsExactly(g: Graph, subjects: seq<Subject>, computed: string, depth: nat,
                                                 visited: set<Node>)
    requires Ranked(g.namespaces) && depth <= MAX_USERSET_DEPTH
    requires !CollectParents(g, subjects, computed, depth, visited).excluded
    ensures forall m | m in CollectParents(g, subjects, computed, depth, visited).members ::
              && m.depth >= depth
              && exists sub | sub in subjects ::
                   sub.Direct? && Exactly(g, m.ref, m.depth - depth - 1, Node(sub.ref, computed))
    decreases Fuel(depth), 0, 0, |subjects|
  {
    if subjects != [] {
      var head, rest := subjects[0], subjects[1..];
      assert forall sub :: sub in subjects <==> sub == head || sub in rest;
      if head.UsersetOf? {
        CollectParentsExactly(g, rest, computed, depth, visited);
      } else {
        CollectExactly(g, Node(head.ref, computed), depth + 1, visited);
        var first := Collect(g, Node(head.ref, computed), depth + 1, visited);
        CollectParentsExactly(g, rest, computed, depth, first.visited);
      }
    }
  }

  lemma {:induction false} CollectUnionExactly(g: Graph, n: Node, cs: seq<Userset>, depth: nat, visited: set<Node>)
    requires Ranked(g.namespaces) && depth <= MAX_USERSET_DEPTH
    requires forall c | c in cs :: Below(g.namespaces, n, c)
    requires !CollectUnion(g, n, cs, depth, visited).excluded
    ensures forall m | m in CollectUnion(g, n, cs, depth, visited).members ::
              m.depth >= depth && exists c | c in cs :: ExactlyRewrite(g, m.ref, m.depth - depth, n, c)
    decreases Fuel(depth), NodeRank(g.namespaces, n), 1, cs
  {
    if cs != [] {
      CollectRewriteExactly(g, n, cs[0], depth, visited);
      var first := CollectRewrite(g, n, cs[0], depth, visited);
      CollectUnionExactly(g, n, cs[1..], depth, first.visited);
      forall m | m in CollectUnion(g, n, cs, depth, visited).members
        ensures m.depth >= depth && exists c | c in cs :: ExactlyRewrite(g, m.ref, m.depth - depth, n, c)
      {
        if m in first.members {
          assert cs[0] in cs;
        } else {
          var c :| c in cs[1..] && ExactlyRewrite(g, m.ref, m.depth - depth, n, c);
          assert c in cs;
        }
      }
    }
  }

  // `ms` is a meet of all operands.
  ghost predicate MeetRecords(g: Graph, depth: nat, n: Node, cs: seq<Userset>, ms: seq<Member>)
    requires Ranked(g.namespaces) && forall c | c in cs :: Below(g.namespaces, n, c)
  {
    forall m | m in ms :: m.depth >= depth && AllExactly(g, m.ref, m.depth - depth, n, cs)
  }

  // `done` lists the operands whose meet is `acc`.
  lemma {:induction false} CollectIntersectionExactly(g: Graph, n: Node, cs: seq<Userset>, acc: Option<seq<Member>>,
                                                      depth: nat, done: seq<Userset>)
    requires Ranked(g.namespaces) && depth <= MAX_USERSET_DEPTH
    requires forall c | c in cs || c in done :: Below(g.namespaces, n, c)
    requires (acc.None? <==> done == []) && (acc.None? ==> cs != [])
    requires acc.Some? ==> MeetRecords(g, depth, n, done, acc.value)
    requires !CollectIntersection(g, n, cs, acc, depth).excluded
    ensures MeetRecords(g, depth, n, done + cs, CollectIntersection(g, n, cs, acc, depth).members)
    decreases Fuel(depth), NodeRank(g.namespaces, n), 1, cs
  {
    if cs == [] {
      assert done + cs == done;
    } else {
      var first := CollectRewrite(g, n, cs[0], depth, {});
      CollectRewriteExactly(g, n, cs[0], depth, {});
      var acc' := if acc.None? then first.members else Meet(acc.value, first.members);
      if acc.None? { FirstRecords(g, depth, n, cs[0], first.members); }
      else { NextRecords(g, depth, n, done, cs[0], acc.value, first.members); }
      assert acc.None? ==> done + [cs[0]] == [cs[0]];
      assert (done + [cs[0]]) + cs[1..] == done + cs;
      CollectIntersectionExactly(g, n, cs[1..], Some(acc'), depth, done + [cs[0]]);
    }
  }

  lemma FirstRecords(g: Graph, depth: nat, n: Node, u: Userset, ms: seq<Member>)
    requires Ranked(g.namespaces) && Below(g.namespaces, n, u) && RecordsExactly(g, depth, n, u, ms)
    ensures MeetRecords(g, depth, n, [u], ms)
  {
    forall m | m in ms ensures AllExactly(g, m.ref, m.depth - depth, n, [u]) {
      assert NoDeeper(g, m.ref, m.depth - depth, n, u) && u in [u];
    }
  }

  lemma NextRecords(g: Graph, depth: nat, n: Node, done: seq<Userset>, u: Userset, xs: seq<Member>, ys: seq<Member>)
    requires Ranked(g.namespaces) && (forall c | c in done || c == u :: Below(g.namespaces, n, c))
    requires MeetRecords(g, depth, n, done, xs) && RecordsExactly(g, depth, n, u, ys)
    ensures MeetRecords(g, depth, n, done + [u], Meet(xs, ys))
  {
    forall m | m in Meet(xs, ys) ensures m.depth >= depth && AllExactly(g, m.ref, m.depth - depth, n, done + [u]) {
      var x, y := MeetTakesDeeper(xs, ys, m);
      MemberRecords(g, depth, n, done, u, x, y, m);
    }
  }

  lemma MemberRecords(g: Graph, depth: nat, n: Node, done: seq<Userset>, u: Userset, x: Member, y: Member, m: Member)
    requires Ranked(g.namespaces) && (forall c | c in done || c == u :: Below(g.namespaces, n, c))
    requires x.depth >= depth && AllExactly(g, x.ref, x.depth - depth, n, done)
    requires y.depth >= depth && ExactlyRewrite(g, y.ref, y.depth - depth, n, u)
    requires x.ref == y.ref == m.ref && m.depth == if x.depth > y.depth then x.depth else y.depth
    ensures m.depth >= depth && AllExactly(g, m.ref, m.depth - depth, n, done + [u])
  {
    OneMoreOperand(g, m.ref, x.depth - depth, y.depth - depth, m.depth - depth, n, done, u);
  }

  lemma OneMoreOperand(g: Graph, t: EntityRef, i: nat, j: nat, hops: nat, n: Node, done: seq<Userset>, u: Userset)
    requires Ranked(g.namespaces) && (forall c | c in done || c == u :: Below(g.namespaces, n, c))
    requires AllExactly(g, t, i, n, done) && ExactlyRewrite(g, t, j, n, u) && hops == if i > j then i else j
    ensures AllExactly(g, t, hops, n, done + [u])
  {
    forall c | c in done + [u] ensures NoDeeper(g, t, hops, n, c) {
      if c in done { assert NoDeeper(g, t, i, n, c); } else { assert ExactlyRewrite(g, t, j, n, c); }
    }
    if hops == i {
      var c :| c in done && ExactlyRewrite(g, t, i, n, c);
      assert c in done + [u];
    } else {
      assert u in done + [u];
    }
  }

  // The meet records the deeper of the two depths.
  lemma {:induction false} MeetTakesDeeper(xs: seq<Member>, ys: seq<Member>, m: Member)
    returns (x: Member, y: Member)
    requires m in Meet(xs, ys)
    ensures x in xs && y in ys && x.ref == y.ref == m.ref
    ensures m.depth == if x.depth > y.depth then x.depth else y.depth
  {
    var found := FindMember(ys, xs[0].ref);
    if found.Some? && m == Member(xs[0].ref, Max(xs[0].depth, found.value.depth)) {
      x, y := xs[0], found.value;
    } else {
      x, y := MeetTakesDeeper(xs[1..], ys, m);
    }
  }

  // ----- Main result -----

  // The depth flattenSet records for a member is the exact depth of one of its derivations.
  lemma FlattenedDepthIsExact(g: Graph, n: Node, t: EntityRef)
    requires Ranked(g.namespaces) && FlattenSet(g, n).monotonic && t in FlattenSet(g, n).members
    ensures Exactly(g, t, FlattenSet(g, n).members[t], n)
  {
    CollectExactly(g, n, 0, {});
    LeastDepthsAreLeast(Collect(g, n, 0, {}).members);
  }
}
