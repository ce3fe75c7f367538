/** Userset rewrites and the ranks that bound their same-object recursion. */
module Usersets {
  datatype Userset =
    | This
    | Computed(relation: string)
    | TupleToUserset(tupleset: string, computed: string)
    | Union(children: seq<Userset>)
    | Intersection(children: seq<Userset>)
    | Exclusion(base: Userset, subtract: Userset)

  // The relations a rewrite refers to on the same object, in order.
  function ComputedTargets(u: Userset): seq<string> {
    match u
    case This => []
    case TupleToUserset(_, _) => []
    case Computed(r) => [r]
    case Union(cs) => ComputedTargetsOfAll(cs)
    case Intersection(cs) => ComputedTargetsOfAll(cs)
    case Exclusion(b, s) => ComputedTargets(b) + ComputedTargets(s)
  }

  function ComputedTargetsOfAll(us: seq<Userset>): seq<string> {
    if us == [] then [] else ComputedTargets(us[0]) + ComputedTargetsOfAll(us[1..])
  }

  type Ranking = map<string, nat>

  function RankIn(rank: Ranking, relation: string): nat {
    if relation in rank then rank[relation] else 0
  }

  // Every same-object reference of `u` ranks below `bound`.
  ghost predicate TargetsBelow(u: Userset, rank: Ranking, bound: nat) {
    match u
    case This => true
    case TupleToUserset(_, _) => true
    case Computed(r) => RankIn(rank, r) < bound
    case Union(cs) => forall c | c in cs :: TargetsBelow(c, rank, bound)
    case Intersection(cs) => forall c | c in cs :: TargetsBelow(c, rank, bound)
    case Exclusion(b, s) => TargetsBelow(b, rank, bound) && TargetsBelow(s, rank, bound)
  }

  // Union and intersection nodes have at least one child.
  ghost predicate NonEmpty(u: Userset) {
    match u
    case Union(cs) => cs != [] && forall c | c in cs :: NonEmpty(c)
    case Intersection(cs) => cs != [] && forall c | c in cs :: NonEmpty(c)
    case Exclusion(b, s) => NonEmpty(b) && NonEmpty(s)
    case _ => true
  }

  ghost predicate ExclusionFree(u: Userset) {
    match u
    case Union(cs) => forall c | c in cs :: ExclusionFree(c)
    case Intersection(cs) => forall c | c in cs :: ExclusionFree(c)
    case Exclusion(_, _) => false
    case _ => true
  }

  ghost predicate UnionOnly(u: Userset) {
    match u
    case Union(cs) => forall c | c in cs :: UnionOnly(c)
    case Intersection(_) => false
    case Exclusion(_, _) => false
    case _ => true
  }
}
