/** Rebuilding one organization's flattened sets, in the indexer's own form. */
module Reindexing {
  import opened Prelude
  import opened Refs
  import opened Snapshots
  import opened SnapshotBuilders
  import opened MembershipIndex
  import opened Store
  import Evaluator
  import Walks

  // The rows the index holds for the organization.
  class OrgSets {
    var sets: map<Node, SetRow>

    // The listing's order plays no part.
    method ListSets() returns (listed: set<Node>)
      ensures listed == sets.Keys
    {
      listed := sets.Keys;
    }

    method Remove(n: Node)
      modifies this
      ensures sets == old(sets) - {n}
    {
      sets := sets - {n};
    }

    method Replace(n: Node, members: map<EntityRef, nat>, validAt: nat)
      modifies this
      ensures sets == old(sets)[n := SetRow(members, validAt)]
    {
      sets := sets[n := SetRow(members, validAt)];
    }
  }

  function Keys(tuples: seq<RelationTuple>): set<TupleKey> { set t | t in tuples :: t.key }

  lemma {:induction false} AmongIsListed(tuples: seq<RelationTuple>, orgId: string, n: Node, sub: Subject)
    requires forall t | t in tuples :: t.orgId == orgId
    ensures sub in SubjectsAmong(tuples, orgId, n) <==> TupleKey(n.entity, n.relation, sub) in Keys(tuples)
  {
    if tuples != [] {
      var k := |tuples| - 1;
      AmongIsListed(tuples[..k], orgId, n, sub);
      assert forall t :: t in tuples <==> t in tuples[..k] || t == tuples[k];
      assert TupleNode(tuples[k].key) == n && tuples[k].key.subject == sub
        <==> tuples[k].key == TupleKey(n.entity, n.relation, sub);
    }
  }

  lemma BucketsPresent(orgId: string, tuples: seq<RelationTuple>, g: Graph)
    requires forall t | t in tuples :: t.orgId == orgId
    requires forall n: Node :: SubjectsOf(g.tuples, n) == SubjectsAmong(tuples, orgId, n)
    ensures Presents(g, Keys(tuples), g.namespaces)
  {
    forall n: Node, sub: Subject
      ensures sub in SubjectsOf(g.tuples, n) <==> TupleKey(n.entity, n.relation, sub) in Keys(tuples)
    {
      AmongIsListed(tuples, orgId, n, sub);
    }
  }

  // The sets to keep: referenced ones that cross no exclusion, flattened.
  method Wanted(s: Snapshot, referenced: seq<Node>, ghost validAt: nat) returns (wanted: map<Node, map<EntityRef, nat>>)
    requires Ranked(s.graph.namespaces)
    ensures wanted.Keys == WantedRows(s.graph, (set n | n in referenced), validAt).Keys
    ensures forall n | n in wanted :: wanted[n] == Walks.FlattenSet(s.graph, n).members
  {
    wanted := map[];
    for i := 0 to |referenced|
      invariant forall n :: n in wanted <==> n in referenced[..i] && Walks.FlattenSet(s.graph, n).monotonic
      invariant forall n | n in wanted :: wanted[n] == Walks.FlattenSet(s.graph, n).members
    {
      var n := referenced[i];
      var flattened := Evaluator.FlattenSet(s, n.entity, n.relation);
      assert referenced[..i + 1] == referenced[..i] + [n];
      if flattened.monotonic { wanted := wanted[n := flattened.members]; }
    }
    assert referenced[..|referenced|] == referenced;
  }

  // Removes the sets that are not wanted any more.
  method RemoveUnwanted(store: OrgSets, wanted: map<Node, map<EntityRef, nat>>) returns (removed: nat)
    modifies store
    ensures forall n :: n in store.sets <==> n in old(store.sets) && n in wanted
    ensures forall n | n in store.sets :: store.sets[n] == old(store.sets)[n]
    ensures removed == |old(store.sets).Keys - wanted.Keys|
  {
    var left := store.ListSets();
    ghost var before := store.sets;
    ghost var gone: set<Node> := {};
    removed := 0;
    while left != {}
      invariant left <= store.sets.Keys && removed == |gone|
      invariant forall n :: n in store.sets <==> n in before && n !in gone
      invariant forall n | n in gone :: n in before && n !in wanted
      invariant forall n | n in store.sets && n !in left :: n in wanted
      invariant forall n | n in store.sets :: store.sets[n] == before[n]
    {
      var n :| n in left;
      if n !in wanted {
        assert n in store.sets && n !in gone;
        store.Remove(n);
        removed, gone := removed + 1, gone + {n};
      }
      left := left - {n};
    }
    assert gone == before.Keys - wanted.Keys;
  }

  method ReplaceWanted(store: OrgSets, wanted: map<Node, map<EntityRef, nat>>, validAt: nat) returns (indexed: nat)
    requires store.sets.Keys <= wanted.Keys
    modifies store
    ensures store.sets == map n | n in wanted :: SetRow(wanted[n], validAt)
    ensures indexed == |wanted.Keys|
  {
    indexed := 0;
    var left := wanted.Keys;
    while left != {}
      invariant left <= wanted.Keys && store.sets.Keys <= wanted.Keys && indexed + |left| == |wanted.Keys|
      invariant forall n | n in wanted && n !in left :: n in store.sets && store.sets[n] == SetRow(wanted[n], validAt)
    {
      var n :| n in left;
      store.Replace(n, wanted[n], validAt);
      indexed, left := indexed + 1, left - {n};
    }
  }

  lemma WantedIsComplete(g: Graph, referenced: set<Node>, wanted: map<Node, map<EntityRef, nat>>, validAt: nat)
    requires Ranked(g.namespaces) && wanted.Keys == WantedRows(g, referenced, validAt).Keys
    requires forall n | n in wanted :: wanted[n] == Walks.FlattenSet(g, n).members
    ensures (map n | n in wanted :: SetRow(wanted[n], validAt)) == WantedRows(g, referenced, validAt)
    ensures (map n | n in wanted :: SetRow(wanted[n], validAt)).Keys == wanted.Keys
  {
  }

  // An organization over the bound is skipped and left as it is. Otherwise its index becomes
  // exactly the wanted rows of its tuples and namespaces, stamped with `validAt`, whatever it
  // held before.
  method ReindexOrg(store: OrgSets, orgId: string, tuples: seq<RelationTuple>, namespaces: Registry,
                    referenced: seq<Node>, validAt: nat,
                    maxTuples: nat) returns (result: Option<(nat, nat)>, ghost g: Graph)
    requires Ranked(namespaces) && forall t | t in tuples :: t.orgId == orgId
    modifies store
    ensures result.None? <==> |tuples| > maxTuples
    ensures result.None? ==> store.sets == old(store.sets)
    ensures result.Some? ==>
              && g.namespaces == namespaces && Presents(g, Keys(tuples), namespaces)
              && store.sets == WantedRows(g, (set n | n in referenced), validAt)
              && result.value.0 == |store.sets.Keys|
              && result.value.1 == |old(store.sets).Keys - store.sets.Keys|
  {
    if |tuples| > maxTuples {
      g := Graph(namespaces, map[]);
      return None, g;
    }
    var buckets := IndexTuples(orgId, tuples);
    var s := Snapshot(orgId, Graph(namespaces, buckets), None);
    g := s.graph;
    BucketsPresent(orgId, tuples, g);
    var wanted := Wanted(s, referenced, validAt);
    var removed := RemoveUnwanted(store, wanted);
    var indexed := ReplaceWanted(store, wanted, validAt);
    WantedIsComplete(g, (set n | n in referenced), wanted, validAt);
    return Some((indexed, removed)), g;
  }
}
