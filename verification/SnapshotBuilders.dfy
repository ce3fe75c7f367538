/** Building the parts of a snapshot from rows. */
module SnapshotBuilders {
  import opened Prelude
  import opened Refs
  import opened Snapshots

  datatype RelationTuple = RelationTuple(orgId: string, key: TupleKey)

  datatype IndexedMembership = IndexedMembership(node: Node, depth: nat)

  function TupleNode(k: TupleKey): Node { Node(k.entity, k.relation) }

  // The subjects the organization's tuples give to a node, in row order.
  function SubjectsAmong(tuples: seq<RelationTuple>, orgId: string, n: Node): seq<Subject> {
    if tuples == [] then []
    else
      var last := tuples[|tuples| - 1];
      SubjectsAmong(tuples[..|tuples| - 1], orgId, n)
        + if last.orgId == orgId && TupleNode(last.key) == n then [last.key.subject] else []
  }

  // TupleIndex.of
  method IndexTuples(orgId: string, tuples: seq<RelationTuple>) returns (buckets: Buckets)
    ensures forall n: Node :: SubjectsOf(buckets, n) == SubjectsAmong(tuples, orgId, n)
    ensures forall n | n in buckets :: buckets[n] != []
  {
    buckets := map[];
    for i := 0 to |tuples|
      invariant forall n: Node :: SubjectsOf(buckets, n) == SubjectsAmong(tuples[..i], orgId, n)
      invariant forall n | n in buckets :: buckets[n] != []
    {
      var t := tuples[i];
      assert tuples[..i + 1][..i] == tuples[..i];
      if t.orgId == orgId {
        var node := TupleNode(t.key);
        if node in buckets {
          buckets := buckets[node := buckets[node] + [t.key.subject]];
        } else {
          buckets := buckets[node := [t.key.subject]];
        }
      }
    }
    assert tuples[..|tuples|] == tuples;
  }

  // IndexedMemberships.of keeps the least depth recorded for a set.
  method IndexMemberships(member: EntityRef, memberships: seq<IndexedMembership>) returns (index: IndexedMemberships)
    ensures index.member == Some(member)
    ensures forall m | m in memberships :: m.node in index.depths && index.depths[m.node] <= m.depth
    ensures forall n | n in index.depths :: IndexedMembership(n, index.depths[n]) in memberships
  {
    var depths: map<Node, nat> := map[];
    for i := 0 to |memberships|
      invariant forall m | m in memberships[..i] :: m.node in depths && depths[m.node] <= m.depth
      invariant forall n | n in depths :: IndexedMembership(n, depths[n]) in memberships[..i]
    {
      var m := memberships[i];
      assert memberships[..i + 1] == memberships[..i] + [m];
      if m.node !in depths || m.depth < depths[m.node] {
        depths := depths[m.node := m.depth];
      }
    }
    assert memberships[..|memberships|] == memberships;
    return IndexedMemberships(Some(member), depths);
  }

  ghost predicate LastNamed(definitions: seq<NamespaceDefinition>, i: nat, kind: string) {
    && i < |definitions| && definitions[i].namespace == kind
    && forall j | i < j < |definitions| :: definitions[j].namespace != kind
  }

  // NamespaceRegistry.of: the last definition of a namespace wins.
  method RegisterNamespaces(definitions: seq<NamespaceDefinition>) returns (registry: Registry)
    ensures forall d | d in definitions :: d.namespace in registry
    ensures forall kind | kind in registry ::
              exists i: nat :: LastNamed(definitions, i, kind) && registry[kind] == definitions[i]
  {
    registry := map[];
    for i := 0 to |definitions|
      invariant forall d | d in definitions[..i] :: d.namespace in registry
      invariant forall kind | kind in registry ::
                  exists j: nat :: LastNamed(definitions[..i], j, kind) && registry[kind] == definitions[j]
    {
      var before := registry;
      registry := registry[definitions[i].namespace := definitions[i]];
      assert definitions[..i + 1] == definitions[..i] + [definitions[i]];
      assert LastNamed(definitions[..i + 1], i, definitions[i].namespace);
      forall kind | kind in registry && kind != definitions[i].namespace
        ensures exists j: nat :: LastNamed(definitions[..i + 1], j, kind) && registry[kind] == definitions[j]
      {
        var j: nat :| LastNamed(definitions[..i], j, kind) && before[kind] == definitions[j];
        assert LastNamed(definitions[..i + 1], j, kind);
      }
    }
    assert definitions[..|definitions|] == definitions;
  }

  // ----- The loaded rows, listed node by node and indexed again -----

  // `rows` followed by one row for each of the subjects of a node.
  function AddRows(rows: seq<RelationTuple>, orgId: string, n: Node, subjects: seq<Subject>): seq<RelationTuple> {
    if subjects == [] then rows
    else
      var k := |subjects| - 1;
      AddRows(rows, orgId, n, subjects[..k]) + [RelationTuple(orgId, TupleKey(n.entity, n.relation, subjects[k]))]
  }

  function Flattened(orgId: string, local: Buckets, nodes: seq<Node>): seq<RelationTuple>
    requires forall n | n in nodes :: n in local
  {
    if nodes == [] then []
    else AddRows(Flattened(orgId, local, nodes[..|nodes| - 1]), orgId, nodes[|nodes| - 1], local[nodes[|nodes| - 1]])
  }

  lemma SubjectsAmongLonger(tuples: seq<RelationTuple>, last: RelationTuple, orgId: string, n: Node)
    ensures SubjectsAmong(tuples + [last], orgId, n)
         == SubjectsAmong(tuples, orgId, n)
            + if last.orgId == orgId && TupleNode(last.key) == n then [last.key.subject] else []
  {
    assert (tuples + [last])[..|tuples|] == tuples;
  }

  lemma {:induction false} AddedRows(rows: seq<RelationTuple>, orgId: string, m: Node, subjects: seq<Subject>, n: Node)
    ensures SubjectsAmong(AddRows(rows, orgId, m, subjects), orgId, n)
         == SubjectsAmong(rows, orgId, n) + if m == n then subjects else []
  {
    if subjects != [] {
      var k := |subjects| - 1;
      AddedRows(rows, orgId, m, subjects[..k], n);
      var last := RelationTuple(orgId, TupleKey(m.entity, m.relation, subjects[k]));
      SubjectsAmongLonger(AddRows(rows, orgId, m, subjects[..k]), last, orgId, n);
      assert subjects == subjects[..k] + [subjects[k]];
    }
  }

  // Indexing the rows of a loaded closure gives each node its loaded rows back, in order.
  lemma {:induction false} ReindexingKeepsRows(orgId: string, local: Buckets, nodes: seq<Node>, n: Node)
    requires (forall m | m in nodes :: m in local) && (forall i, j | 0 <= i < j < |nodes| :: nodes[i] != nodes[j])
    ensures SubjectsAmong(Flattened(orgId, local, nodes), orgId, n) == if n in nodes then local[n] else []
  {
    if nodes != [] {
      var k := |nodes| - 1;
      ReindexingKeepsRows(orgId, local, nodes[..k], n);
      AddedRows(Flattened(orgId, local, nodes[..k]), orgId, nodes[k], local[nodes[k]], n);
      assert n in nodes <==> n in nodes[..k] || n == nodes[k];
    }
  }
}
