/** Validation of namespace configurations, and the cycle check that bounds the evaluator's recursion. */
module NamespaceConfigs {
  import opened Prelude
  import opened Usersets
  import opened Snapshots

  datatype ConfigError =
    | EmptyRelations | InvalidRelation | DuplicateRelation | InvalidVerb | EmptyBinding | UnknownRelation
    | UnknownRewriteRelation | InvalidRewrite | RewriteTooDeep | CyclicComputedUserset

  const MAX_REWRITE_DEPTH := 32

  // Entries of the two records are listed in their iteration order.
  datatype Binding = Binding(verb: string, relations: seq<string>)

  datatype RewriteEntry = RewriteEntry(relation: string, tree: Userset)

  datatype ConfigData = ConfigData(relations: seq<string>, actions: seq<Binding>, rewrites: seq<RewriteEntry>)

  // ----- Identifiers -----

  predicate IsLetter(c: char) { 'a' <= c <= 'z' || 'A' <= c <= 'Z' }

  predicate IsIdentifierChar(c: char) { IsLetter(c) || '0' <= c <= '9' || c == '_' || c == '-' }

  predicate IsIdentifier(value: string) {
    value != "" && IsLetter(value[0]) && forall i | 1 <= i < |value| :: IsIdentifierChar(value[i])
  }

  // ----- Rewrite trees -----

  function ValidateUserset(node: Userset, relations: set<string>, depth: nat): Option<ConfigError> {
    if depth > MAX_REWRITE_DEPTH then Some(RewriteTooDeep)
    else match node
    case This => None
    case Computed(r) =>
      if !IsIdentifier(r) then Some(InvalidRewrite)
      else if r !in relations then Some(UnknownRewriteRelation)
      else None
    case TupleToUserset(ts, c) =>
      if !IsIdentifier(ts) || !IsIdentifier(c) then Some(InvalidRewrite)
      else if ts !in relations then Some(UnknownRewriteRelation)
      else None
    case Union(cs) => if cs == [] then Some(InvalidRewrite) else ValidateAll(cs, relations, depth + 1)
    case Intersection(cs) => if cs == [] then Some(InvalidRewrite) else ValidateAll(cs, relations, depth + 1)
    case Exclusion(b, s) =>
      var base := ValidateUserset(b, relations, depth + 1);
      if base.Some? then base else ValidateUserset(s, relations, depth + 1)
  }

  function ValidateAll(nodes: seq<Userset>, relations: set<string>, depth: nat): Option<ConfigError> {
    if nodes == [] then None
    else
      var first := ValidateUserset(nodes[0], relations, depth);
      if first.Some? then first else ValidateAll(nodes[1..], relations, depth)
  }

  // What an accepted tree looks like: no deeper than `room`, operators have operands, and
  // every relation it reads on the same object is declared.
  ghost predicate WellFormed(node: Userset, relations: set<string>, room: int) {
    room >= 0 &&
    match node
    case This => true
    case Computed(r) => IsIdentifier(r) && r in relations
    case TupleToUserset(ts, c) => IsIdentifier(ts) && IsIdentifier(c) && ts in relations
    case Union(cs) => cs != [] && forall c | c in cs :: WellFormed(c, relations, room - 1)
    case Intersection(cs) => cs != [] && forall c | c in cs :: WellFormed(c, relations, room - 1)
    case Exclusion(b, s) => WellFormed(b, relations, room - 1) && WellFormed(s, relations, room - 1)
  }

  lemma {:induction false} ValidatedIsWellFormed(node: Userset, relations: set<string>, depth: nat)
    ensures ValidateUserset(node, relations, depth).None? <==> WellFormed(node, relations, MAX_REWRITE_DEPTH - depth)
  {
    if depth <= MAX_REWRITE_DEPTH {
      match node
      case Union(cs) => ValidatedAllAreWellFormed(cs, relations, depth + 1);
      case Intersection(cs) => ValidatedAllAreWellFormed(cs, relations, depth + 1);
      case Exclusion(b, s) =>
        ValidatedIsWellFormed(b, relations, depth + 1);
        ValidatedIsWellFormed(s, relations, depth + 1);
      case _ =>
    }
  }

  lemma {:induction false} ValidatedAllAreWellFormed(nodes: seq<Userset>, relations: set<string>, depth: nat)
    ensures ValidateAll(nodes, relations, depth).None?
       <==> forall c | c in nodes :: WellFormed(c, relations, MAX_REWRITE_DEPTH - depth)
  {
    if nodes != [] {
      assert forall c :: c in nodes <==> c == nodes[0] || c in nodes[1..];
      assert nodes[0] in nodes;
      ValidatedIsWellFormed(nodes[0], relations, depth);
      ValidatedAllAreWellFormed(nodes[1..], relations, depth);
    }
  }

  lemma {:induction false} WellFormedIsNonEmpty(node: Userset, relations: set<string>, room: int)
    requires WellFormed(node, relations, room)
    ensures NonEmpty(node)
  {
    match node
    case Union(cs) => forall c | c in cs ensures NonEmpty(c) { WellFormedIsNonEmpty(c, relations, room - 1); }
    case Intersection(cs) => forall c | c in cs ensures NonEmpty(c) { WellFormedIsNonEmpty(c, relations, room - 1); }
    case Exclusion(b, s) =>
      WellFormedIsNonEmpty(b, relations, room - 1);
      WellFormedIsNonEmpty(s, relations, room - 1);
    case _ =>
  }

  // ----- Cycles among computed usersets -----

  type Edges = map<string, seq<string>>

  function Successors(edges: Edges, r: string): seq<string> {
    if r in edges then edges[r] else []
  }

  ghost predicate IsPath(edges: Edges, p: seq<string>) {
    forall i | 0 <= i < |p| - 1 :: p[i + 1] in Successors(edges, p[i])
  }

  ghost predicate IsCycle(edges: Edges, p: seq<string>) {
    |p| >= 2 && p[0] == p[|p| - 1] && IsPath(edges, p)
  }

  ghost predicate Cyclic(edges: Edges) {
    exists p: seq<string> :: IsCycle(edges, p)
  }

  ghost predicate RanksEdges(edges: Edges, rank: Ranking) {
    forall r, t | r in edges && t in edges[r] :: RankIn(rank, t) < RankIn(rank, r)
  }

  lemma {:induction false} RankFallsAlongPath(edges: Edges, rank: Ranking, p: seq<string>)
    requires RanksEdges(edges, rank) && |p| >= 2 && IsPath(edges, p)
    ensures RankIn(rank, p[|p| - 1]) < RankIn(rank, p[0])
  {
    assert p[1] in Successors(edges, p[0]);
    if |p| > 2 {
      assert IsPath(edges, p[1..]) by {
        forall i | 0 <= i < |p[1..]| - 1 ensures p[1..][i + 1] in Successors(edges, p[1..][i]) {
          assert p[i + 2] in Successors(edges, p[i + 1]);
        }
      }
      RankFallsAlongPath(edges, rank, p[1..]);
    }
  }

  lemma RankedIsAcyclic(edges: Edges, rank: Ranking)
    requires RanksEdges(edges, rank)
    ensures !Cyclic(edges)
  {
    forall p: seq<string> ensures !IsCycle(edges, p) {
      if IsCycle(edges, p) { RankFallsAlongPath(edges, rank, p); }
    }
  }

  // Every relation of `order` comes after all its successors.
  ghost predicate Topological(edges: Edges, order: seq<string>) {
    forall i | 0 <= i < |order| :: forall t | t in Successors(edges, order[i]) :: t in order[..i]
  }

  ghost predicate Distinct(s: seq<string>) {
    forall i, j | 0 <= i < j < |s| :: s[i] != s[j]
  }

  // The position of each relation of a topological order is a rank.
  lemma OrderGivesRank(edges: Edges, order: seq<string>) returns (rank: Ranking)
    requires Topological(edges, order) && Distinct(order)
    requires forall r | r in edges :: r in order
    ensures RanksEdges(edges, rank)
  {
    rank := map i | 0 <= i < |order| :: order[i] := i;
    forall r, t | r in edges && t in edges[r] ensures RankIn(rank, t) < RankIn(rank, r) {
      var i :| 0 <= i < |order| && order[i] == r;
      assert t in order[..i];
      var j :| 0 <= j < i && order[j] == t;
      assert rank[order[j]] == j && rank[order[i]] == i;
    }
  }

  lemma PathGrows(edges: Edges, stack: seq<string>, relation: string)
    requires IsPath(edges, stack)
    requires stack != [] ==> relation in Successors(edges, stack[|stack| - 1])
    ensures IsPath(edges, stack + [relation])
  {
    forall k | 0 <= k < |stack| ensures (stack + [relation])[k + 1] in Successors(edges, (stack + [relation])[k]) {
      if k + 1 < |stack| { assert stack[k + 1] in Successors(edges, stack[k]); }
    }
  }

  // Meeting a relation that is still on the recursion stack closes a cycle.
  lemma StackClosesCycle(edges: Edges, stack: seq<string>, relation: string)
    requires IsPath(edges, stack) && relation in stack && relation in Successors(edges, stack[|stack| - 1])
    ensures Cyclic(edges)
  {
    var i :| 0 <= i < |stack| && stack[i] == relation;
    forall k | 0 <= k < |stack[i..]| - 1 ensures stack[i..][k + 1] in Successors(edges, stack[i..][k]) {
      assert stack[i + k + 1] in Successors(edges, stack[i + k]);
    }
    PathGrows(edges, stack[i..], relation);
    assert IsCycle(edges, stack[i..] + [relation]);
  }

  lemma OrderGrows(edges: Edges, order: seq<string>, relation: string)
    requires Topological(edges, order) && forall t | t in Successors(edges, relation) :: t in order
    ensures Topological(edges, order + [relation])
  {
    var longer := order + [relation];
    forall i, t | 0 <= i < |longer| && t in Successors(edges, longer[i]) ensures t in longer[..i] {
      if i < |order| {
        assert t in order[..i];
        assert longer[..i] == order[..i];
      } else {
        assert longer[..i] == order;
      }
    }
  }

  ghost predicate Covers(edges: Edges, universe: set<string>) {
    forall r, t | t in Successors(edges, r) :: t in universe
  }

  // The depth-first search, with the recursion stack and the finishing order as ghosts.
  class CycleSearch {
    const edges: Edges
    var visiting: set<string>
    var finished: set<string>
    ghost var stack: seq<string>
    ghost var order: seq<string>

    constructor (edges: Edges)
      ensures this.edges == edges && Valid() && stack == [] && order == []
    {
      this.edges := edges;
      visiting, finished, stack, order := {}, {}, [], [];
    }

    ghost predicate Valid()
      reads this
    {
      && (forall r :: r in visiting <==> r in stack)
      && (forall r :: r in finished <==> r in order)
      && visiting !! finished
      && IsPath(edges, stack)
      && Topological(edges, order) && Distinct(order)
    }

    method Walk(relation: string, ghost universe: set<string>) returns (cyclic: bool)
      requires Valid()
      requires relation in universe && Covers(edges, universe)
      requires stack != [] ==> relation in Successors(edges, stack[|stack| - 1])
      modifies this
      ensures cyclic ==> Cyclic(edges)
      ensures !cyclic ==> Valid() && visiting == old(visiting) && stack == old(stack)
      ensures !cyclic ==> relation in finished && old(finished) <= finished
      decreases universe - visiting, 0
    {
      if relation in visiting {
        StackClosesCycle(edges, stack, relation);
        return true;
      }
      if relation in finished { return false; }
      PathGrows(edges, stack, relation);
      visiting, stack := visiting + {relation}, stack + [relation];
      cyclic := WalkTargets(relation, Successors(edges, relation), universe);
      if cyclic { return true; }
      OrderGrows(edges, order, relation);
      visiting, stack := visiting - {relation}, old(stack);
      finished, order := finished + {relation}, order + [relation];
      return false;
    }

    method WalkTargets(relation: string, targets: seq<string>, ghost universe: set<string>) returns (cyclic: bool)
      requires Valid() && stack != [] && stack[|stack| - 1] == relation
      requires targets == Successors(edges, relation)
      requires Covers(edges, universe)
      modifies this
      ensures cyclic ==> Cyclic(edges)
      ensures !cyclic ==> Valid() && visiting == old(visiting) && stack == old(stack)
      ensures !cyclic ==> old(finished) <= finished && forall t | t in targets :: t in finished
      decreases universe - visiting, 1
    {
      for i := 0 to |targets|
        invariant Valid() && visiting == old(visiting) && stack == old(stack) && old(finished) <= finished
        invariant forall j | 0 <= j < i :: targets[j] in finished
      {
        assert targets[i] in Successors(edges, relation);
        var sub := Walk(targets[i], universe);
        if sub { return true; }
      }
      return false;
    }
  }

  // Reports a cycle exactly when there is one; otherwise the relations can be ranked.
  method HasComputedUsersetCycle(edges: Edges) returns (cyclic: bool)
    ensures cyclic <==> Cyclic(edges)
    ensures cyclic <==> !exists rank: Ranking :: RanksEdges(edges, rank)
  {
    var search := new CycleSearch(edges);
    ghost var universe := edges.Keys + set r, t | r in edges && t in edges[r] :: t;
    var pending := edges.Keys;
    while pending != {}
      invariant search.Valid() && search.stack == [] && search.edges == edges
      invariant pending <= edges.Keys && forall r | r in edges && r !in pending :: r in search.finished
    {
      var relation :| relation in pending;
      var found := search.Walk(relation, universe);
      if found {
        forall rank: Ranking ensures !RanksEdges(edges, rank) {
          if RanksEdges(edges, rank) { RankedIsAcyclic(edges, rank); }
        }
        return true;
      }
      pending := pending - {relation};
    }
    ghost var rank := OrderGivesRank(edges, search.order);
    RankedIsAcyclic(edges, rank);
    return false;
  }

  // ----- Creating a configuration -----

  function Dedup(s: seq<string>): (d: seq<string>)
    ensures forall x :: x in d <==> x in s
  {
    if s == [] then []
    else
      var last := |s| - 1;
      assert s == s[..last] + [s[last]];
      var before := Dedup(s[..last]);
      if s[last] in before then before else before + [s[last]]
  }

  ghost predicate DistinctKeys(data: ConfigData) {
    && (forall i, j | 0 <= i < j < |data.actions| :: data.actions[i].verb != data.actions[j].verb)
    && (forall i, j | 0 <= i < j < |data.rewrites| :: data.rewrites[i].relation != data.rewrites[j].relation)
  }

  function ActionMap(actions: seq<Binding>): map<string, seq<string>> {
    if actions == [] then map[]
    else var last := actions[|actions| - 1]; ActionMap(actions[..|actions| - 1])[last.verb := Dedup(last.relations)]
  }

  function RewriteMap(rewrites: seq<RewriteEntry>): map<string, Userset> {
    if rewrites == [] then map[]
    else var last := rewrites[|rewrites| - 1]; RewriteMap(rewrites[..|rewrites| - 1])[last.relation := last.tree]
  }

  function EdgeMap(rewrites: seq<RewriteEntry>): Edges {
    if rewrites == [] then map[]
    else
      var last := rewrites[|rewrites| - 1];
      EdgeMap(rewrites[..|rewrites| - 1])[last.relation := ComputedTargets(last.tree)]
  }

  function RelationSet(data: ConfigData): set<string> { set r | r in data.relations }

  function ConfigOf(data: ConfigData): NamespaceConfig {
    NamespaceConfig(RelationSet(data), ActionMap(data.actions), RewriteMap(data.rewrites))
  }

  ghost predicate ValidRelations(data: ConfigData) {
    data.relations != [] && Distinct(data.relations) && forall r | r in data.relations :: IsIdentifier(r)
  }

  ghost predicate ValidBinding(b: Binding, relations: set<string>) {
    IsIdentifier(b.verb) && b.relations != [] && forall r | r in b.relations :: r in relations
  }

  ghost predicate ValidEntry(e: RewriteEntry, relations: set<string>) {
    e.relation in relations && WellFormed(e.tree, relations, MAX_REWRITE_DEPTH)
  }

  ghost predicate ValidData(data: ConfigData) {
    && ValidRelations(data)
    && (forall b | b in data.actions :: ValidBinding(b, RelationSet(data)))
    && (forall e | e in data.rewrites :: ValidEntry(e, RelationSet(data)))
    && !Cyclic(EdgeMap(data.rewrites))
  }

  // What each error code says about the data.
  ghost predicate Violates(data: ConfigData, error: ConfigError) {
    match error
    case EmptyRelations => data.relations == []
    case InvalidRelation => exists r | r in data.relations :: !IsIdentifier(r)
    case DuplicateRelation => !Distinct(data.relations)
    case InvalidVerb => exists b | b in data.actions :: !IsIdentifier(b.verb)
    case EmptyBinding => exists b | b in data.actions :: b.relations == []
    case UnknownRelation => exists b, r :: b in data.actions && r in b.relations && r !in RelationSet(data)
    case CyclicComputedUserset => Cyclic(EdgeMap(data.rewrites))
    case UnknownRewriteRelation =>
      exists e | e in data.rewrites ::
        e.relation !in RelationSet(data) || ValidateUserset(e.tree, RelationSet(data), 0) == Some(error)
    case _ => exists e | e in data.rewrites :: ValidateUserset(e.tree, RelationSet(data), 0) == Some(error)
  }

  lemma {:induction false} RanksTargets(u: Userset, rank: Ranking, bound: nat)
    requires forall t | t in ComputedTargets(u) :: RankIn(rank, t) < bound
    ensures TargetsBelow(u, rank, bound)
  {
    match u
    case Union(cs) => RanksAllTargets(cs, rank, bound);
    case Intersection(cs) => RanksAllTargets(cs, rank, bound);
    case Exclusion(b, s) =>
      RanksTargets(b, rank, bound);
      RanksTargets(s, rank, bound);
    case _ =>
  }

  lemma {:induction false} RanksAllTargets(us: seq<Userset>, rank: Ranking, bound: nat)
    requires forall t | t in ComputedTargetsOfAll(us) :: RankIn(rank, t) < bound
    ensures forall c | c in us :: TargetsBelow(c, rank, bound)
  {
    if us != [] {
      assert forall c :: c in us <==> c == us[0] || c in us[1..];
      RanksTargets(us[0], rank, bound);
      RanksAllTargets(us[1..], rank, bound);
    }
  }

  lemma {:induction false} EdgesOfRewrites(rewrites: seq<RewriteEntry>)
    ensures var m, e := RewriteMap(rewrites), EdgeMap(rewrites);
            m.Keys == e.Keys && forall r | r in m :: e[r] == ComputedTargets(m[r])
  {
    if rewrites != [] { EdgesOfRewrites(rewrites[..|rewrites| - 1]); }
  }

  lemma RankedEdgesRankConfig(data: ConfigData, rank: Ranking)
    requires RanksEdges(EdgeMap(data.rewrites), rank)
    ensures Ranks(ConfigOf(data), rank)
  {
    var m := RewriteMap(data.rewrites);
    EdgesOfRewrites(data.rewrites);
    forall r | r in m ensures TargetsBelow(m[r], rank, RankIn(rank, r)) {
      assert EdgeMap(data.rewrites)[r] == ComputedTargets(m[r]);
      RanksTargets(m[r], rank, RankIn(rank, r));
    }
  }

  method CreateActions(data: ConfigData, relations: set<string>)
    returns (r: Result<map<string, seq<string>>, ConfigError>)
    requires relations == RelationSet(data)
    ensures r.Ok? <==> forall b | b in data.actions :: ValidBinding(b, relations)
    ensures r.Ok? ==> r.value == ActionMap(data.actions)
    ensures r.Err? ==> Violates(data, r.error)
  {
    var actionMap: map<string, seq<string>> := map[];
    for i := 0 to |data.actions|
      invariant forall b | b in data.actions[..i] :: ValidBinding(b, relations)
      invariant actionMap == ActionMap(data.actions[..i])
    {
      var b := data.actions[i];
      assert b in data.actions;
      if !IsIdentifier(b.verb) { return Err(InvalidVerb); }
      if b.relations == [] { return Err(EmptyBinding); }
      for j := 0 to |b.relations|
        invariant forall x | x in b.relations[..j] :: x in relations
      {
        if b.relations[j] !in relations { return Err(UnknownRelation); }
      }
      actionMap := actionMap[b.verb := Dedup(b.relations)];
      assert data.actions[..i + 1] == data.actions[..i] + [b];
    }
    assert data.actions[..|data.actions|] == data.actions;
    return Ok(actionMap);
  }

  method CreateRewrites(data: ConfigData, relations: set<string>)
    returns (r: Result<map<string, Userset>, ConfigError>)
    requires relations == RelationSet(data)
    ensures r.Ok? <==> (forall e | e in data.rewrites :: ValidEntry(e, relations)) && !Cyclic(EdgeMap(data.rewrites))
    ensures r.Ok? ==> r.value == RewriteMap(data.rewrites)
                      && exists rank: Ranking :: RanksEdges(EdgeMap(data.rewrites), rank)
    ensures r.Err? ==> Violates(data, r.error)
  {
    var rewriteMap: map<string, Userset> := map[];
    var edges: Edges := map[];
    for i := 0 to |data.rewrites|
      invariant forall e | e in data.rewrites[..i] :: ValidEntry(e, relations)
      invariant rewriteMap == RewriteMap(data.rewrites[..i]) && edges == EdgeMap(data.rewrites[..i])
    {
      var e := data.rewrites[i];
      assert e in data.rewrites;
      ValidatedIsWellFormed(e.tree, relations, 0);
      if e.relation !in relations { return Err(UnknownRewriteRelation); }
      var validated := ValidateUserset(e.tree, relations, 0);
      if validated.Some? {
        ValidationErrors(e.tree, relations, 0);
        return Err(validated.value);
      }
      edges := edges[e.relation := ComputedTargets(e.tree)];
      rewriteMap := rewriteMap[e.relation := e.tree];
      assert data.rewrites[..i + 1] == data.rewrites[..i] + [e];
    }
    assert data.rewrites[..|data.rewrites|] == data.rewrites;
    var cyclic := HasComputedUsersetCycle(edges);
    if cyclic { return Err(CyclicComputedUserset); }
    return Ok(rewriteMap);
  }

  lemma {:induction false} ValidationErrors(node: Userset, relations: set<string>, depth: nat)
    ensures var v := ValidateUserset(node, relations, depth);
            v.Some? ==> v.value in {InvalidRewrite, UnknownRewriteRelation, RewriteTooDeep}
    decreases node, 0
  {
    match node
    case Union(cs) => ValidationErrorsOfAll(cs, relations, depth + 1);
    case Intersection(cs) => ValidationErrorsOfAll(cs, relations, depth + 1);
    case Exclusion(b, s) =>
      ValidationErrors(b, relations, depth + 1);
      ValidationErrors(s, relations, depth + 1);
    case _ =>
  }

  lemma {:induction false} ValidationErrorsOfAll(nodes: seq<Userset>, relations: set<string>, depth: nat)
    ensures var v := ValidateAll(nodes, relations, depth);
            v.Some? ==> v.value in {InvalidRewrite, UnknownRewriteRelation, RewriteTooDeep}
    decreases nodes, 0
  {
    if nodes != [] {
      ValidationErrors(nodes[0], relations, depth);
      ValidationErrorsOfAll(nodes[1..], relations, depth);
    }
  }

  // Accepts exactly the valid data; what it returns can be ranked and has no empty operator.
  method Create(data: ConfigData) returns (r: Result<NamespaceConfig, ConfigError>)
    ensures r.Ok? <==> ValidData(data)
    ensures r.Ok? ==> && r.value == ConfigOf(data)
                      && Rankable(r.value)
                      && forall k | k in r.value.rewrites :: NonEmpty(r.value.rewrites[k])
    ensures r.Err? ==> Violates(data, r.error)
  {
    if data.relations == [] { return Err(EmptyRelations); }
    var relationSet: set<string> := {};
    for i := 0 to |data.relations|
      invariant relationSet == set x | x in data.relations[..i]
      invariant Distinct(data.relations[..i]) && forall x | x in data.relations[..i] :: IsIdentifier(x)
    {
      var relation := data.relations[i];
      if !IsIdentifier(relation) { return Err(InvalidRelation); }
      if relation in relationSet { return Err(DuplicateRelation); }
      relationSet := relationSet + {relation};
      assert data.relations[..i + 1] == data.relations[..i] + [relation];
    }
    assert data.relations[..|data.relations|] == data.relations;
    var actions := CreateActions(data, relationSet);
    if actions.Err? { return Err(actions.error); }
    var rewrites := CreateRewrites(data, relationSet);
    if rewrites.Err? { return Err(rewrites.error); }
    ghost var rank: Ranking :| RanksEdges(EdgeMap(data.rewrites), rank);
    RankedEdgesRankConfig(data, rank);
    RewritesAreEntries(data.rewrites);
    forall k | k in rewrites.value ensures NonEmpty(rewrites.value[k]) {
      var e :| e in data.rewrites && e.tree == rewrites.value[k];
      WellFormedIsNonEmpty(e.tree, relationSet, MAX_REWRITE_DEPTH);
    }
    return Ok(NamespaceConfig(relationSet, actions.value, rewrites.value));
  }

  lemma {:induction false} RewritesAreEntries(rewrites: seq<RewriteEntry>)
    ensures var m := RewriteMap(rewrites);
            forall k | k in m :: exists e | e in rewrites :: e.relation == k && e.tree == m[k]
  {
    if rewrites != [] {
      var last := |rewrites| - 1;
      RewritesAreEntries(rewrites[..last]);
      var m := RewriteMap(rewrites);
      forall k | k in m ensures exists e | e in rewrites :: e.relation == k && e.tree == m[k] {
        if k == rewrites[last].relation {
          assert rewrites[last] in rewrites;
        } else {
          assert k in RewriteMap(rewrites[..last]);
          var e :| e in rewrites[..last] && e.relation == k && e.tree == m[k];
          assert e in rewrites;
        }
      }
    }
  }
}
