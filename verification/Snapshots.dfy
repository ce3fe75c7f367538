/** The evaluation snapshot: namespaces, tuple buckets and an optional membership index. */
module Snapshots {
  import opened Prelude
  import opened Refs
  import opened Usersets

  datatype NamespaceConfig = NamespaceConfig(
    relations: set<string>,
    actions: map<string, seq<string>>,
    rewrites: map<string, Userset>)

  datatype NamespaceDefinition = NamespaceDefinition(orgId: string, namespace: string, config: NamespaceConfig)

  type Registry = map<string, NamespaceDefinition>

  type Buckets = map<Node, seq<Subject>>

  datatype IndexedMemberships = IndexedMemberships(member: Option<EntityRef>, depths: map<Node, nat>)

  // The stored facts an evaluation reads.
  datatype Graph = Graph(namespaces: Registry, tuples: Buckets)

  datatype Snapshot = Snapshot(orgId: string, graph: Graph, memberships: Option<IndexedMemberships>)

  function ConfigRewrite(config: NamespaceConfig, relation: string): Userset {
    if relation in config.rewrites then config.rewrites[relation] else This
  }

  function RewritesFor(namespaces: Registry, kind: string, relation: string): Userset {
    if kind in namespaces then ConfigRewrite(namespaces[kind].config, relation) else This
  }

  function RewriteOf(g: Graph, n: Node): Userset {
    RewritesFor(g.namespaces, n.entity.kind, n.relation)
  }

  function SubjectsOf(tuples: Buckets, n: Node): seq<Subject> {
    if n in tuples then tuples[n] else []
  }

  // The depth recorded by the index for `target` in the set `n`, if the index is about `target`.
  function DepthOf(m: Option<IndexedMemberships>, n: Node, target: EntityRef): Option<nat> {
    if m.Some? && m.value.member == Some(target) && n in m.value.depths
    then Some(m.value.depths[n]) else None
  }

  ghost predicate HasTuple(g: Graph, k: TupleKey) {
    k.subject in SubjectsOf(g.tuples, Node(k.entity, k.relation))
  }

  // A ranking of one namespace: computed usersets only refer to strictly lower relations.
  ghost predicate Ranks(config: NamespaceConfig, rank: Ranking) {
    forall r | r in config.rewrites :: TargetsBelow(config.rewrites[r], rank, RankIn(rank, r))
  }

  ghost predicate Rankable(config: NamespaceConfig) {
    exists rank: Ranking :: Ranks(config, rank)
  }

  // What storing only validated configurations guarantees about a registry.
  ghost predicate Ranked(namespaces: Registry) {
    forall k | k in namespaces :: Rankable(namespaces[k].config)
  }

  ghost function Rank(namespaces: Registry, kind: string): (rank: Ranking)
    requires Ranked(namespaces)
    ensures kind in namespaces ==> Ranks(namespaces[kind].config, rank)
  {
    if kind in namespaces then
      var rank: Ranking :| Ranks(namespaces[kind].config, rank); rank
    else map[]
  }

  ghost function NodeRank(namespaces: Registry, n: Node): nat
    requires Ranked(namespaces)
  {
    RankIn(Rank(namespaces, n.entity.kind), n.relation)
  }

  // `u` may be evaluated at `n`: its same-object references rank below `n`.
  ghost predicate Below(namespaces: Registry, n: Node, u: Userset)
    requires Ranked(namespaces)
  {
    TargetsBelow(u, Rank(namespaces, n.entity.kind), NodeRank(namespaces, n))
  }

  lemma RewriteIsBelow(g: Graph, n: Node)
    requires Ranked(g.namespaces)
    ensures Below(g.namespaces, n, RewriteOf(g, n))
  {
  }
}
