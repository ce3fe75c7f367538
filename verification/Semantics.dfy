/**
 What a snapshot means, with no reference to traversal order, depth bounds or visited sets.

 An interpretation is a set of nodes, those whose set contains the target. Exclusion makes
 the rules non-monotone, so meaning is given by pairs: `lower` holds the certain members and
 `upper` the possible ones.
 */
module Semantics {
  import opened Refs
  import opened Usersets
  import opened Snapshots

  type Interpretation = iset<Node>

  // A userset subject of `n` names a set in `x`.
  ghost predicate SomeUsersetIn(s: Graph, n: Node, x: Interpretation) {
    exists sub | sub in SubjectsOf(s.tuples, n) :: sub.UsersetOf? && NodeOf(sub) in x
  }

  // A direct subject of `n`, taken as an object, has its `computed` relation in `x`.
  ghost predicate SomeParentIn(s: Graph, n: Node, computed: string, x: Interpretation) {
    exists sub | sub in SubjectsOf(s.tuples, n) :: sub.Direct? && Node(sub.ref, computed) in x
  }

  // The rewrite `u` holds at `n`, reading memberships from `pos` and, under subtraction, from `neg`.
  ghost predicate Holds(s: Graph, t: EntityRef, pos: Interpretation, neg: Interpretation, n: Node, u: Userset) {
    match u
    case This => Direct(t) in SubjectsOf(s.tuples, n) || SomeUsersetIn(s, n, pos)
    case Computed(r) => Node(n.entity, r) in pos
    case TupleToUserset(ts, c) => SomeParentIn(s, Node(n.entity, ts), c, pos)
    case Union(cs) => exists c | c in cs :: Holds(s, t, pos, neg, n, c)
    case Intersection(cs) => forall c | c in cs :: Holds(s, t, pos, neg, n, c)
    case Exclusion(b, sub) => Holds(s, t, pos, neg, n, b) && !Holds(s, t, neg, pos, n, sub)
  }

  // The reduct of `u` by (pos, neg): memberships are read from `x`, while every subtract
  // operand is fixed to its value under (pos, neg).
  ghost predicate Reduct(s: Graph, t: EntityRef, x: Interpretation, pos: Interpretation, neg: Interpretation, n: Node,
                         u: Userset) {
    match u
    case This => Direct(t) in SubjectsOf(s.tuples, n) || SomeUsersetIn(s, n, x)
    case Computed(r) => Node(n.entity, r) in x
    case TupleToUserset(ts, c) => SomeParentIn(s, Node(n.entity, ts), c, x)
    case Union(cs) => exists c | c in cs :: Reduct(s, t, x, pos, neg, n, c)
    case Intersection(cs) => forall c | c in cs :: Reduct(s, t, x, pos, neg, n, c)
    case Exclusion(b, sub) => Reduct(s, t, x, pos, neg, n, b) && !Holds(s, t, neg, pos, n, sub)
  }

  ghost predicate Closed(s: Graph, t: EntityRef, x: Interpretation, pos: Interpretation, neg: Interpretation) {
    forall n: Node | Reduct(s, t, x, pos, neg, n, RewriteOf(s, n)) :: n in x
  }

  // `x` is the least fixed point of the reduct by (pos, neg).
  ghost predicate LeastClosed(s: Graph, t: EntityRef, x: Interpretation, pos: Interpretation, neg: Interpretation) {
    && Closed(s, t, x, pos, neg)
    && forall y: Interpretation | Closed(s, t, y, pos, neg) :: x <= y
  }

  // A partial stable model: each half is the least fixed point of its reduct.
  ghost predicate PartialStable(s: Graph, t: EntityRef, lower: Interpretation, upper: Interpretation) {
    LeastClosed(s, t, lower, lower, upper) && LeastClosed(s, t, upper, upper, lower)
  }

  // An interpretation that is the least fixed point of its own reduct.
  ghost predicate Stable(s: Graph, t: EntityRef, m: Interpretation) {
    LeastClosed(s, t, m, m, m)
  }

  lemma {:induction false} HoldsMonotone(s: Graph, t: EntityRef, pos: Interpretation, neg: Interpretation,
                                         pos': Interpretation, neg': Interpretation, n: Node, u: Userset)
    requires pos <= pos' && neg' <= neg && Holds(s, t, pos, neg, n, u)
    ensures Holds(s, t, pos', neg', n, u)
  {
    match u
    case Union(cs) =>
      var c :| c in cs && Holds(s, t, pos, neg, n, c);
      HoldsMonotone(s, t, pos, neg, pos', neg', n, c);
    case Intersection(cs) =>
      forall c | c in cs ensures Holds(s, t, pos', neg', n, c) {
        HoldsMonotone(s, t, pos, neg, pos', neg', n, c);
      }
    case Exclusion(b, sub) =>
      HoldsMonotone(s, t, pos, neg, pos', neg', n, b);
      if Holds(s, t, neg', pos', n, sub) {
        HoldsMonotone(s, t, neg', pos', neg, pos, n, sub);
      }
    case _ =>
  }

  lemma {:induction false} ReductMonotone(s: Graph, t: EntityRef, x: Interpretation, pos: Interpretation,
                                          neg: Interpretation, x': Interpretation, pos': Interpretation,
                                          neg': Interpretation, n: Node, u: Userset)
    requires x <= x' && pos <= pos' && neg' <= neg && Reduct(s, t, x, pos, neg, n, u)
    ensures Reduct(s, t, x', pos', neg', n, u)
  {
    match u
    case Union(cs) =>
      var c :| c in cs && Reduct(s, t, x, pos, neg, n, c);
      ReductMonotone(s, t, x, pos, neg, x', pos', neg', n, c);
    case Intersection(cs) =>
      forall c | c in cs ensures Reduct(s, t, x', pos', neg', n, c) {
        ReductMonotone(s, t, x, pos, neg, x', pos', neg', n, c);
      }
    case Exclusion(b, sub) =>
      ReductMonotone(s, t, x, pos, neg, x', pos', neg', n, b);
      if Holds(s, t, neg', pos', n, sub) {
        HoldsMonotone(s, t, neg', pos', neg, pos, n, sub);
      }
    case _ =>
  }

  // Reading memberships from `pos` itself turns the reduct back into the rewrite.
  lemma {:induction false} ReductIsHolds(s: Graph, t: EntityRef, pos: Interpretation, neg: Interpretation, n: Node,
                                         u: Userset)
    ensures Reduct(s, t, pos, pos, neg, n, u) == Holds(s, t, pos, neg, n, u)
  {
    match u
    case Union(cs) =>
      forall c | c in cs { ReductIsHolds(s, t, pos, neg, n, c); }
    case Intersection(cs) =>
      forall c | c in cs { ReductIsHolds(s, t, pos, neg, n, c); }
    case Exclusion(b, sub) => ReductIsHolds(s, t, pos, neg, n, b);
    case _ =>
  }

  // ----- Every snapshot has a partial stable model -----

  ghost predicate InEveryClosed(s: Graph, t: EntityRef, pos: Interpretation, neg: Interpretation, n: Node) {
    forall y: Interpretation | Closed(s, t, y, pos, neg) :: n in y
  }

  ghost function LeastFixedPoint(s: Graph, t: EntityRef, pos: Interpretation, neg: Interpretation): Interpretation {
    iset n: Node | InEveryClosed(s, t, pos, neg, n)
  }

  lemma LeastFixedPointIsLeastClosed(s: Graph, t: EntityRef, pos: Interpretation, neg: Interpretation)
    ensures LeastClosed(s, t, LeastFixedPoint(s, t, pos, neg), pos, neg)
  {
    var l := LeastFixedPoint(s, t, pos, neg);
    forall y: Interpretation | Closed(s, t, y, pos, neg) ensures l <= y {
      forall n | n in l ensures n in y {
        assert InEveryClosed(s, t, pos, neg, n);
      }
    }
    forall n: Node | Reduct(s, t, l, pos, neg, n, RewriteOf(s, n)) ensures n in l {
      forall y: Interpretation | Closed(s, t, y, pos, neg) ensures n in y {
        ReductMonotone(s, t, l, pos, neg, y, pos, neg, n, RewriteOf(s, n));
      }
    }
  }

  lemma LeastFixedPointMonotone(s: Graph, t: EntityRef, pos: Interpretation, neg: Interpretation, pos': Interpretation,
                                neg': Interpretation)
    requires pos <= pos' && neg' <= neg
    ensures LeastFixedPoint(s, t, pos, neg) <= LeastFixedPoint(s, t, pos', neg')
  {
    forall y: Interpretation | Closed(s, t, y, pos', neg') ensures Closed(s, t, y, pos, neg) {
      forall n: Node | Reduct(s, t, y, pos, neg, n, RewriteOf(s, n)) ensures n in y {
        ReductMonotone(s, t, y, pos, neg, y, pos', neg', n, RewriteOf(s, n));
      }
    }
    forall n | InEveryClosed(s, t, pos, neg, n) ensures InEveryClosed(s, t, pos', neg', n) {}
  }

  // (lower, upper) is a pre-fixed point of the step that replaces each half by its least fixed point.
  ghost predicate PreFixed(s: Graph, t: EntityRef, lower: Interpretation, upper: Interpretation) {
    LeastFixedPoint(s, t, lower, upper) <= lower && upper <= LeastFixedPoint(s, t, upper, lower)
  }

  ghost predicate Certain(s: Graph, t: EntityRef, n: Node) {
    forall a: Interpretation, b: Interpretation | PreFixed(s, t, a, b) :: n in a
  }

  ghost predicate Possible(s: Graph, t: EntityRef, n: Node) {
    exists a: Interpretation, b: Interpretation :: PreFixed(s, t, a, b) && n in b
  }

  ghost function WellFoundedLower(s: Graph, t: EntityRef): Interpretation {
    iset n: Node | Certain(s, t, n)
  }

  ghost function WellFoundedUpper(s: Graph, t: EntityRef): Interpretation {
    iset n: Node | Possible(s, t, n)
  }

  lemma WellFoundedBelow(s: Graph, t: EntityRef, a: Interpretation, b: Interpretation)
    requires PreFixed(s, t, a, b)
    ensures WellFoundedLower(s, t) <= a && b <= WellFoundedUpper(s, t)
  {
    forall n | n in WellFoundedLower(s, t) ensures n in a { assert Certain(s, t, n); }
    forall n | n in b ensures n in WellFoundedUpper(s, t) { assert Possible(s, t, n); }
  }

  lemma WellFoundedIsPreFixed(s: Graph, t: EntityRef)
    ensures PreFixed(s, t, WellFoundedLower(s, t), WellFoundedUpper(s, t))
  {
    var lo, up := WellFoundedLower(s, t), WellFoundedUpper(s, t);
    forall n | n in LeastFixedPoint(s, t, lo, up) ensures Certain(s, t, n) {
      forall a: Interpretation, b: Interpretation | PreFixed(s, t, a, b) ensures n in a {
        WellFoundedBelow(s, t, a, b);
        LeastFixedPointMonotone(s, t, lo, up, a, b);
      }
    }
    forall n | Possible(s, t, n) ensures n in LeastFixedPoint(s, t, up, lo) {
      var a: Interpretation, b: Interpretation :| PreFixed(s, t, a, b) && n in b;
      WellFoundedBelow(s, t, a, b);
      LeastFixedPointMonotone(s, t, b, a, up, lo);
    }
  }

  // Existence and consistency: the well-founded model is partial stable and its certain
  // members are possible; it agrees with every partial stable model where it is decided.
  lemma WellFoundedModel(s: Graph, t: EntityRef)
    ensures PartialStable(s, t, WellFoundedLower(s, t), WellFoundedUpper(s, t))
    ensures WellFoundedLower(s, t) <= WellFoundedUpper(s, t)
    ensures forall a: Interpretation, b: Interpretation | PartialStable(s, t, a, b) ::
              WellFoundedLower(s, t) <= a && b <= WellFoundedUpper(s, t)
  {
    var lo, up := WellFoundedLower(s, t), WellFoundedUpper(s, t);
    var lo', up' := LeastFixedPoint(s, t, lo, up), LeastFixedPoint(s, t, up, lo);
    WellFoundedIsPreFixed(s, t);
    LeastFixedPointMonotone(s, t, lo', up', lo, up);
    LeastFixedPointMonotone(s, t, up, lo, up', lo');
    WellFoundedBelow(s, t, lo', up');
    assert lo == lo' && up == up';
    LeastFixedPointIsLeastClosed(s, t, lo, up);
    LeastFixedPointIsLeastClosed(s, t, up, lo);
    WellFoundedBelow(s, t, up, lo);
    forall a: Interpretation, b: Interpretation | PartialStable(s, t, a, b) ensures PreFixed(s, t, a, b) {
      LeastClosedIsLeastFixedPoint(s, t, a, a, b);
      LeastClosedIsLeastFixedPoint(s, t, b, b, a);
    }
    forall a: Interpretation, b: Interpretation | PartialStable(s, t, a, b) ensures lo <= a && b <= up {
      WellFoundedBelow(s, t, a, b);
    }
  }

  lemma LeastClosedIsLeastFixedPoint(s: Graph, t: EntityRef, x: Interpretation, pos: Interpretation,
                                     neg: Interpretation)
    requires LeastClosed(s, t, x, pos, neg)
    ensures x == LeastFixedPoint(s, t, pos, neg)
  {
    var l := LeastFixedPoint(s, t, pos, neg);
    LeastFixedPointIsLeastClosed(s, t, pos, neg);
    assert l <= x && x <= l;
  }

  lemma StableIsPartialStable(s: Graph, t: EntityRef, m: Interpretation)
    requires Stable(s, t, m)
    ensures PartialStable(s, t, m, m)
  {
  }

  // ----- Exclusion-free snapshots: one least fixed point, no negation -----

  ghost predicate ExclusionFreeGraph(s: Graph) {
    forall n: Node :: ExclusionFree(RewriteOf(s, n))
  }

  // The least fixed point of an exclusion-free snapshot; (pos, neg) is irrelevant there.
  ghost function Members(s: Graph, t: EntityRef): Interpretation {
    LeastFixedPoint(s, t, iset{}, iset{})
  }

  lemma {:induction false} ExclusionFreeReduct(s: Graph, t: EntityRef, x: Interpretation, pos: Interpretation,
                                               neg: Interpretation, pos': Interpretation, neg': Interpretation, n: Node,
                                               u: Userset)
    requires ExclusionFree(u)
    ensures Reduct(s, t, x, pos, neg, n, u) == Reduct(s, t, x, pos', neg', n, u)
  {
    match u
    case Union(cs) =>
      forall c | c in cs { ExclusionFreeReduct(s, t, x, pos, neg, pos', neg', n, c); }
    case Intersection(cs) =>
      forall c | c in cs { ExclusionFreeReduct(s, t, x, pos, neg, pos', neg', n, c); }
    case _ =>
  }

  // Without exclusions every partial stable model, on both halves, is the least fixed point.
  lemma ExclusionFreeModel(s: Graph, t: EntityRef, lower: Interpretation, upper: Interpretation)
    requires ExclusionFreeGraph(s)
    ensures PartialStable(s, t, lower, upper) <==> lower == Members(s, t) && upper == Members(s, t)
  {
    SameClosed(s, t, lower, upper);
    SameClosed(s, t, upper, lower);
    LeastFixedPointIsLeastClosed(s, t, iset{}, iset{});
    assert forall x: Interpretation | LeastClosed(s, t, x, iset{}, iset{}) :: x <= Members(s, t) && Members(s, t) <= x;
  }

  lemma SameClosed(s: Graph, t: EntityRef, pos: Interpretation, neg: Interpretation)
    requires ExclusionFreeGraph(s)
    ensures forall x: Interpretation :: Closed(s, t, x, pos, neg) <==> Closed(s, t, x, iset{}, iset{})
    ensures forall x: Interpretation :: LeastClosed(s, t, x, pos, neg) <==> LeastClosed(s, t, x, iset{}, iset{})
  {
    forall x: Interpretation, n: Node
      ensures Reduct(s, t, x, pos, neg, n, RewriteOf(s, n)) == Reduct(s, t, x, iset{}, iset{}, n, RewriteOf(s, n))
    {
      ExclusionFreeReduct(s, t, x, pos, neg, iset{}, iset{}, n, RewriteOf(s, n));
    }
  }
}
