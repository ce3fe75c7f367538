/**
 When a walk may be marked truncated, and a load cut: only if some chain of tuples leads past
 the depth bound. Where none does, decisions are exact and unmarked, loads complete, and
 check and expand agree, whatever the rewrites.
 */
module Truncation {
  import opened Prelude
  import opened Refs
  import opened Usersets
  import opened Snapshots
  import opened Walks
  import opened Semantics
  import opened Exactness
  import opened Agreement
  import opened Decisions
  import opened Loading
  import opened FaithfulLoading
  import opened LoadedChecks
  import opened LoadedExpansion

  ghost function Left(hops: int): nat { if hops <= 0 then 0 else hops }

  // A chain of userset rows and tupleset parents, following the rewrites, crosses `hops` tuples from `n`.
  ghost predicate Deep(g: Graph, n: Node, hops: int)
    requires Ranked(g.namespaces)
    decreases Left(hops), NodeRank(g.namespaces, n), 2
  {
    hops <= 0 || (Below(g.namespaces, n, RewriteOf(g, n)) && DeepRewrite(g, n, RewriteOf(g, n), hops))
  }

  ghost predicate DeepRewrite(g: Graph, n: Node, u: Userset, hops: int)
    requires Ranked(g.namespaces) && Below(g.namespaces, n, u) && hops > 0
    decreases Left(hops), NodeRank(g.namespaces, n), 1, u
  {
    match u
    case This => DeepUsersets(g, SubjectsOf(g.tuples, n), hops)
    case Computed(r) => Deep(g, Node(n.entity, r), hops)
    case TupleToUserset(ts, c) => DeepParents(g, SubjectsOf(g.tuples, Node(n.entity, ts)), c, hops)
    case Union(cs) => exists c | c in cs :: DeepRewrite(g, n, c, hops)
    case Intersection(cs) => exists c | c in cs :: DeepRewrite(g, n, c, hops)
    case Exclusion(b, sub) => DeepRewrite(g, n, b, hops) || DeepRewrite(g, n, sub, hops)
  }

  ghost predicate DeepUsersets(g: Graph, subjects: seq<Subject>, hops: int)
    requires Ranked(g.namespaces) && hops > 0
    decreases Left(hops), 0, 0
  {
    exists sub | sub in subjects :: sub.UsersetOf? && Deep(g, NodeOf(sub), hops - 1)
  }

  ghost predicate DeepParents(g: Graph, subjects: seq<Subject>, computed: string, hops: int)
    requires Ranked(g.namespaces) && hops > 0
    decreases Left(hops), 0, 0
  {
    exists sub | sub in subjects :: sub.Direct? && Deep(g, Node(sub.ref, computed), hops - 1)
  }

  // ----- A truncated walk met the bound -----

  function HopsLeft(depth: nat): int { MAX_USERSET_DEPTH + 1 - depth }

  lemma {:induction false} TruncatedIsDeep(s: Snapshot, n: Node, t: EntityRef, depth: nat, visited: set<Node>)
    requires Ranked(s.graph.namespaces) && Derive(s, n, t, depth, visited).truncated
    ensures Deep(s.graph, n, HopsLeft(depth))
    decreases Fuel(depth), NodeRank(s.graph.namespaces, n), 2
  {
    if depth <= MAX_USERSET_DEPTH {
      RewriteIsBelow(s.graph, n);
      TruncatedRewriteIsDeep(s, n, RewriteOf(s.graph, n), t, depth, visited + {n});
    }
  }

  lemma {:induction false} TruncatedRewriteIsDeep(s: Snapshot, n: Node, u: Userset, t: EntityRef, depth: nat,
                                                  visited: set<Node>)
    requires Ranked(s.graph.namespaces) && Below(s.graph.namespaces, n, u) && depth <= MAX_USERSET_DEPTH
    requires DeriveRewrite(s, n, u, t, depth, visited).truncated
    ensures DeepRewrite(s.graph, n, u, HopsLeft(depth))
    decreases Fuel(depth), NodeRank(s.graph.namespaces, n), 1, u
  {
    match u
    case This => TruncatedUsersetsAreDeep(s, n, SubjectsOf(s.graph.tuples, n), t, depth, visited);
    case Computed(r) => TruncatedIsDeep(s, Node(n.entity, r), t, depth, visited);
    case TupleToUserset(ts, c) =>
      var tn := Node(n.entity, ts);
      TruncatedParentsAreDeep(s, tn, SubjectsOf(s.graph.tuples, tn), c, t, depth, visited);
    case Union(cs) => TruncatedUnionIsDeep(s, n, cs, t, depth, visited);
    case Intersection(cs) => TruncatedIntersectionIsDeep(s, n, cs, [], t, depth);
    case Exclusion(b, sub) =>
      if DeriveRewrite(s, n, b, t, depth, {}).truncated { TruncatedRewriteIsDeep(s, n, b, t, depth, {}); }
      else { TruncatedRewriteIsDeep(s, n, sub, t, depth, {}); }
  }

  lemma {:induction false} TruncatedUsersetsAreDeep(s: Snapshot, n: Node, subjects: seq<Subject>, t: EntityRef,
                                                    depth: nat, visited: set<Node>)
    requires Ranked(s.graph.namespaces) && depth <= MAX_USERSET_DEPTH
    requires DeriveUsersets(s, n, subjects, t, depth, visited).truncated
    ensures DeepUsersets(s.graph, subjects, HopsLeft(depth))
    decreases Fuel(depth), NodeRank(s.graph.namespaces, n), 0, |subjects|
  {
    var head, rest := subjects[0], subjects[1..];
    if head.Direct? {
      TruncatedUsersetsAreDeep(s, n, rest, t, depth, visited);
    } else {
      var w := Derive(s, NodeOf(head), t, depth + 1, visited);
      if w.truncated { TruncatedIsDeep(s, NodeOf(head), t, depth + 1, visited); }
      else { TruncatedUsersetsAreDeep(s, n, rest, t, depth, w.visited); }
    }
  }

  lemma {:induction false} TruncatedParentsAreDeep(s: Snapshot, tn: Node, subjects: seq<Subject>, computed: string,
                                                   t: EntityRef, depth: nat, visited: set<Node>)
    requires Ranked(s.graph.namespaces) && depth <= MAX_USERSET_DEPTH
    requires DeriveParents(s, tn, subjects, computed, t, depth, visited).truncated
    ensures DeepParents(s.graph, subjects, computed, HopsLeft(depth))
    decreases Fuel(depth), 0, 0, |subjects|
  {
    var head, rest := subjects[0], subjects[1..];
    if head.UsersetOf? {
      TruncatedParentsAreDeep(s, tn, rest, computed, t, depth, visited);
    } else {
      var m := Node(head.ref, computed);
      var w := Derive(s, m, t, depth + 1, visited);
      if w.truncated { TruncatedIsDeep(s, m, t, depth + 1, visited); }
      else { TruncatedParentsAreDeep(s, tn, rest, computed, t, depth, w.visited); }
    }
  }

  lemma {:induction false} TruncatedUnionIsDeep(s: Snapshot, n: Node, cs: seq<Userset>, t: EntityRef, depth: nat,
                                                visited: set<Node>)
    requires Ranked(s.graph.namespaces) && depth <= MAX_USERSET_DEPTH
    requires forall c | c in cs :: Below(s.graph.namespaces, n, c)
    requires DeriveUnion(s, n, cs, t, depth, visited).truncated
    ensures exists c | c in cs :: DeepRewrite(s.graph, n, c, HopsLeft(depth))
    decreases Fuel(depth), NodeRank(s.graph.namespaces, n), 1, cs
  {
    var w := DeriveRewrite(s, n, cs[0], t, depth, visited);
    if w.truncated {
      TruncatedRewriteIsDeep(s, n, cs[0], t, depth, visited);
      assert cs[0] in cs;
    } else {
      TruncatedUnionIsDeep(s, n, cs[1..], t, depth, w.visited);
      var c :| c in cs[1..] && DeepRewrite(s.graph, n, c, HopsLeft(depth));
      assert c in cs;
    }
  }

  lemma {:induction false} TruncatedIntersectionIsDeep(s: Snapshot, n: Node, cs: seq<Userset>, path: seq<TupleKey>,
                                                       t: EntityRef, depth: nat)
    requires Ranked(s.graph.namespaces) && depth <= MAX_USERSET_DEPTH
    requires forall c | c in cs :: Below(s.graph.namespaces, n, c)
    requires DeriveIntersection(s, n, cs, path, t, depth).truncated
    ensures exists c | c in cs :: DeepRewrite(s.graph, n, c, HopsLeft(depth))
    decreases Fuel(depth), NodeRank(s.graph.namespaces, n), 1, cs
  {
    var w := DeriveRewrite(s, n, cs[0], t, depth, {});
    if w.truncated {
      TruncatedRewriteIsDeep(s, n, cs[0], t, depth, {});
      assert cs[0] in cs;
    } else {
      TruncatedIntersectionIsDeep(s, n, cs[1..], path + w.grant.value.path, t, depth);
      var c :| c in cs[1..] && DeepRewrite(s.graph, n, c, HopsLeft(depth));
      assert c in cs;
    }
  }

  // ----- A cut load met it too -----

  lemma {:induction false} CutIsDeep(s: Snapshot, member: Option<EntityRef>, n: Node, depth: nat, st: Loading)
    requires Ranked(s.graph.namespaces) && !st.cut && Load(s, member, n, depth, st).cut
    ensures Deep(s.graph, n, HopsLeft(depth))
    decreases Fuel(depth), NodeRank(s.graph.namespaces, n), 2
  {
    if depth <= MAX_USERSET_DEPTH {
      RewriteIsBelow(s.graph, n);
      CutRewriteIsDeep(s, member, n, RewriteOf(s.graph, n), depth, Enter(s.graph, n, st));
    }
  }

  lemma {:induction false} CutRewriteIsDeep(s: Snapshot, member: Option<EntityRef>, n: Node, u: Userset, depth: nat,
                                            st: Loading)
    requires Ranked(s.graph.namespaces) && Below(s.graph.namespaces, n, u) && depth <= MAX_USERSET_DEPTH
    requires !st.cut && LoadRewrite(s, member, n, u, depth, st).cut
    ensures DeepRewrite(s.graph, n, u, HopsLeft(depth))
    decreases Fuel(depth), NodeRank(s.graph.namespaces, n), 1, u
  {
    match u
    case This => CutUsersetsAreDeep(s, member, SubjectsOf(s.graph.tuples, n), depth, st);
    case Computed(r) => CutIsDeep(s, member, Node(n.entity, r), depth, st);
    case TupleToUserset(ts, c) =>
      var tn := Node(n.entity, ts);
      CutParentsAreDeep(s, member, SubjectsOf(s.graph.tuples, tn), c, depth, LoadRows(s.graph, tn, st));
    case Union(cs) => CutAllIsDeep(s, member, n, cs, depth, st);
    case Intersection(cs) => CutAllIsDeep(s, member, n, cs, depth, st);
    case Exclusion(b, sub) =>
      var st1 := LoadRewrite(s, member, n, b, depth, st);
      if st1.cut { CutRewriteIsDeep(s, member, n, b, depth, st); }
      else { CutRewriteIsDeep(s, member, n, sub, depth, st1); }
  }

  lemma {:induction false} CutUsersetsAreDeep(s: Snapshot, member: Option<EntityRef>, subjects: seq<Subject>,
                                              depth: nat, st: Loading)
    requires Ranked(s.graph.namespaces) && depth <= MAX_USERSET_DEPTH
    requires !st.cut && LoadUsersets(s, member, subjects, depth, st).cut
    ensures DeepUsersets(s.graph, subjects, HopsLeft(depth))
    decreases Fuel(depth), 0, 0, |subjects|
  {
    var head, rest := subjects[0], subjects[1..];
    if head.Direct? {
      CutUsersetsAreDeep(s, member, rest, depth, st);
    } else {
      var st1 := AfterUserset(s, member, head, depth, st);
      if st1.cut { CutIsDeep(s, member, NodeOf(head), depth + 1, Consult(member, st)); }
      else { CutUsersetsAreDeep(s, member, rest, depth, st1); }
    }
  }

  lemma {:induction false} CutParentsAreDeep(s: Snapshot, member: Option<EntityRef>, subjects: seq<Subject>,
                                             computed: string, depth: nat, st: Loading)
    requires Ranked(s.graph.namespaces) && depth <= MAX_USERSET_DEPTH
    requires !st.cut && LoadParents(s, member, subjects, computed, depth, st).cut
    ensures DeepParents(s.graph, subjects, computed, HopsLeft(depth))
    decreases Fuel(depth), 0, 0, |subjects|
  {
    var head, rest := subjects[0], subjects[1..];
    if head.UsersetOf? {
      CutParentsAreDeep(s, member, rest, computed, depth, st);
    } else {
      var m := Node(head.ref, computed);
      var st1 := Load(s, member, m, depth + 1, st);
      if st1.cut { CutIsDeep(s, member, m, depth + 1, st); }
      else { CutParentsAreDeep(s, member, rest, computed, depth, st1); }
    }
  }

  lemma {:induction false} CutAllIsDeep(s: Snapshot, member: Option<EntityRef>, n: Node, cs: seq<Userset>, depth: nat,
                                        st: Loading)
    requires Ranked(s.graph.namespaces) && depth <= MAX_USERSET_DEPTH
    requires forall c | c in cs :: Below(s.graph.namespaces, n, c)
    requires !st.cut && LoadAll(s, member, n, cs, depth, st).cut
    ensures exists c | c in cs :: DeepRewrite(s.graph, n, c, HopsLeft(depth))
    decreases Fuel(depth), NodeRank(s.graph.namespaces, n), 1, cs
  {
    var st1 := LoadRewrite(s, member, n, cs[0], depth, st);
    if st1.cut {
      CutRewriteIsDeep(s, member, n, cs[0], depth, st);
      assert cs[0] in cs;
    } else {
      CutAllIsDeep(s, member, n, cs[1..], depth, st1);
      var c :| c in cs[1..] && DeepRewrite(s.graph, n, c, HopsLeft(depth));
      assert c in cs;
    }
  }

  // ----- Measures: what bounds every chain -----

  type Measure = Node -> nat

  // The measure falls along every userset row and tupleset parent that `u` reads at `n`, and
  // does not rise along computed usersets.
  ghost predicate FallsAt(g: Graph, h: Measure, n: Node, u: Userset) {
    match u
    case This => forall sub | sub in SubjectsOf(g.tuples, n) && sub.UsersetOf? :: h(NodeOf(sub)) < h(n)
    case Computed(r) => h(Node(n.entity, r)) <= h(n)
    case TupleToUserset(ts, c) =>
      forall sub | sub in SubjectsOf(g.tuples, Node(n.entity, ts)) && sub.Direct? :: h(Node(sub.ref, c)) < h(n)
    case Union(cs) => forall c | c in cs :: FallsAt(g, h, n, c)
    case Intersection(cs) => forall c | c in cs :: FallsAt(g, h, n, c)
    case Exclusion(b, sub) => FallsAt(g, h, n, b) && FallsAt(g, h, n, sub)
  }

  ghost predicate Falls(g: Graph, h: Measure) { forall n: Node :: FallsAt(g, h, n, RewriteOf(g, n)) }

  lemma {:induction false} DeepIsHigh(g: Graph, h: Measure, n: Node, hops: int)
    requires Ranked(g.namespaces) && Falls(g, h) && Deep(g, n, hops)
    ensures hops <= h(n)
    decreases Left(hops), NodeRank(g.namespaces, n), 2
  {
    if hops > 0 { DeepRewriteIsHigh(g, h, n, RewriteOf(g, n), hops); }
  }

  lemma {:induction false} DeepRewriteIsHigh(g: Graph, h: Measure, n: Node, u: Userset, hops: int)
    requires Ranked(g.namespaces) && Below(g.namespaces, n, u) && hops > 0
    requires Falls(g, h) && FallsAt(g, h, n, u) && DeepRewrite(g, n, u, hops)
    ensures hops <= h(n)
    decreases Left(hops), NodeRank(g.namespaces, n), 1, u
  {
    match u
    case This =>
      var sub :| sub in SubjectsOf(g.tuples, n) && sub.UsersetOf? && Deep(g, NodeOf(sub), hops - 1);
      DeepIsHigh(g, h, NodeOf(sub), hops - 1);
    case Computed(r) => DeepIsHigh(g, h, Node(n.entity, r), hops);
    case TupleToUserset(ts, c) =>
      var sub :| sub in SubjectsOf(g.tuples, Node(n.entity, ts)) && sub.Direct? && Deep(g, Node(sub.ref, c), hops - 1);
      DeepIsHigh(g, h, Node(sub.ref, c), hops - 1);
    case Union(cs) =>
      var c :| c in cs && DeepRewrite(g, n, c, hops);
      DeepRewriteIsHigh(g, h, n, c, hops);
    case Intersection(cs) =>
      var c :| c in cs && DeepRewrite(g, n, c, hops);
      DeepRewriteIsHigh(g, h, n, c, hops);
    case Exclusion(b, sub) =>
      if DeepRewrite(g, n, b, hops) { DeepRewriteIsHigh(g, h, n, b, hops); }
      else { DeepRewriteIsHigh(g, h, n, sub, hops); }
  }

  // A walk that starts low enough is never truncated, and a load never cut, with any index,
  // visited set and rewrites.
  lemma MeasuredWalkIsWhole(s: Snapshot, h: Measure, n: Node, t: EntityRef, depth: nat, visited: set<Node>)
    requires Ranked(s.graph.namespaces) && Falls(s.graph, h) && depth + h(n) <= MAX_USERSET_DEPTH
    ensures !Derive(s, n, t, depth, visited).truncated
    ensures forall member, st: Loading | !st.cut :: !Load(s, member, n, depth, st).cut
  {
    if Derive(s, n, t, depth, visited).truncated {
      TruncatedIsDeep(s, n, t, depth, visited);
      DeepIsHigh(s.graph, h, n, HopsLeft(depth));
    }
    forall member, st: Loading | !st.cut ensures !Load(s, member, n, depth, st).cut {
      if Load(s, member, n, depth, st).cut {
        CutIsDeep(s, member, n, depth, st);
        DeepIsHigh(s.graph, h, n, HopsLeft(depth));
      }
    }
  }

  // ----- Main results: below the bound everything is exact -----

  // No chain from a required relation leads past the depth bound.
  ghost predicate Shallow(q: Query, s: Snapshot)
    requires Ranked(s.graph.namespaces)
  {
    forall r | Requires(q, s, r) :: !Deep(s.graph, Node(q.resource, r), MAX_USERSET_DEPTH + 1)
  }

  lemma MeasuredIsShallow(q: Query, s: Snapshot, h: Measure)
    requires Ranked(s.graph.namespaces) && Falls(s.graph, h)
    requires forall r | Requires(q, s, r) :: h(Node(q.resource, r)) <= MAX_USERSET_DEPTH
    ensures Shallow(q, s)
  {
    forall r | Requires(q, s, r) ensures !Deep(s.graph, Node(q.resource, r), MAX_USERSET_DEPTH + 1) {
      if Deep(s.graph, Node(q.resource, r), MAX_USERSET_DEPTH + 1) {
        DeepIsHigh(s.graph, h, Node(q.resource, r), MAX_USERSET_DEPTH + 1);
      }
    }
  }

  // The decision is never marked, and permits if and only if a required relation holds: in the
  // lower half of the model, or in its upper half, which comes to the same.
  lemma ShallowDecisionIsExact(q: Query, s: Snapshot, lower: Interpretation, upper: Interpretation)
    requires Model(s, q.subject, lower, upper) && lower <= upper && SameOrg(q, s) && Shallow(q, s)
    ensures var d := Evaluate(q, s);
            && WalkTruncated !in d.reasons
            && (d.effect == Permit <==> exists r :: Requires(q, s, r) && Node(q.resource, r) in lower)
            && (d.effect == Permit <==> exists r :: Requires(q, s, r) && Node(q.resource, r) in upper)
  {
    ShallowIsUnmarked(q, s);
    EvaluateIsExact(q, s, lower, upper);
  }

  lemma ShallowIsUnmarked(q: Query, s: Snapshot)
    requires Ranked(s.graph.namespaces) && Shallow(q, s)
    ensures WalkTruncated !in Evaluate(q, s).reasons
  {
    ShallowAttempt(q, s, RequiredRelations(s.graph.namespaces, q.action, q.resource));
  }

  lemma {:induction false} ShallowAttempt(q: Query, s: Snapshot, required: seq<string>)
    requires Ranked(s.graph.namespaces)
    requires forall r | r in required :: !Deep(s.graph, Node(q.resource, r), MAX_USERSET_DEPTH + 1)
    ensures var a := TryRelations(s, q.resource, required, q.subject);
            !a.truncated && (a.found.Some? ==> a.found.value.Granted?)
  {
    if required != [] {
      var n := Node(q.resource, required[0]);
      if Derive(s, n, q.subject, 0, {}).truncated { TruncatedIsDeep(s, n, q.subject, 0, {}); }
      ShallowAttempt(q, s, required[1..]);
    }
  }

  lemma {:induction false} ShallowLoadRelations(q: Query, s: Snapshot, required: seq<string>, st: Loading)
    requires Ranked(s.graph.namespaces) && !st.cut
    requires forall r | r in required :: !Deep(s.graph, Node(q.resource, r), MAX_USERSET_DEPTH + 1)
    ensures !LoadRelations(s, Some(q.subject), q.resource, required, st).cut
  {
    if required != [] {
      var n := Node(q.resource, required[0]);
      var st1 := Load(s, Some(q.subject), n, 0, st);
      if st1.cut { CutIsDeep(s, Some(q.subject), n, 0, st); }
      ShallowLoadRelations(q, s, required[1..], st1);
    }
  }

  // The load is not cut, so with the index off the check decides on what it loaded exactly as
  // on everything stored, and is exact for it.
  lemma ShallowCheckIsExact(q: Query, s: Snapshot, lower: Interpretation, upper: Interpretation)
    requires Ranked(s.graph.namespaces) && PartialStable(s.graph, q.subject, lower, upper) && lower <= upper
    requires IndexOff(s) && OneOrg(s) && s.orgId == q.orgId && Shallow(q, s)
    ensures !LoadFor(s, q).cut && Evaluate(q, Checked(s, q)) == Evaluate(q, s)
    ensures var d := Evaluate(q, Checked(s, q));
            && WalkTruncated !in d.reasons
            && (d.effect == Permit <==> exists r :: Requires(q, s, r) && Node(q.resource, r) in lower)
            && (d.effect == Permit <==> exists r :: Requires(q, s, r) && Node(q.resource, r) in upper)
  {
    var required := RequiredRelations(s.graph.namespaces, q.action, q.resource);
    ShallowLoadRelations(q, s, required, LoadNamespace(s.graph, q.resource.kind, NOTHING_LOADED));
    IndexOffPrunesNothing(s, q);
    LoadedDecision(s, q);
    ShallowDecisionIsExact(q, s, lower, upper);
  }

  // Check and expand agree, and expanding the loaded closure is expanding everything.
  lemma ShallowExpandIsExact(s: Snapshot, n: Node, t: EntityRef, lower: Interpretation, upper: Interpretation)
    requires Ranked(s.graph.namespaces) && IndexOff(s) && NonEmptyGraph(s.graph)
    requires PartialStable(s.graph, t, lower, upper) && lower <= upper
    requires !Deep(s.graph, n, MAX_USERSET_DEPTH + 1)
    ensures t in Expand(s, s.orgId, n) <==> n in lower
    ensures t in Expand(s, s.orgId, n) <==> n in upper
    ensures var loaded := LoadedSnapshot(s, LoadForExpand(s, n));
            Ranked(loaded.graph.namespaces) && Expand(loaded, s.orgId, n) == Expand(s, s.orgId, n)
  {
    if Derive(s, n, t, 0, {}).truncated { TruncatedIsDeep(s, n, t, 0, {}); }
    CheckAgreesWithExpand(s, n, t);
    WalkIsExact(s, t, lower, upper, n);
    var st := LoadNamespace(s.graph, n.entity.kind, NOTHING_LOADED);
    if Load(s, None, n, 0, st).cut { CutIsDeep(s, None, n, 0, st); }
    LoadedExpand(s, n);
  }
}
