/**
 Where the qualified results cannot be strengthened: one small organization in which the
 depth bound cuts a node that is first reached too deep.
 */
module Limits {
  import opened Prelude
  import opened Refs
  import opened Usersets
  import opened Snapshots
  import opened Walks
  import opened Semantics
  import opened Derivations
  import opened Transparency
  import opened Agreement
  import opened Decisions
  import opened Loading
  import opened FaithfulLoading
  import opened GroupChain

  const TUPLES: Buckets :=
    MEMBERSHIPS[Node(DOC, "viewer") := [InGroup(1), InGroup(10)]]
               [Node(DOC, "owner") := [InGroup(1)]]
               [Node(DOC, "editor") := [InGroup(10)]]
               [Node(DOC, "auditor") := [InGroup(1), InGroup(12)]]

  const CONFIG := NamespaceConfig(
    {"viewer", "owner", "editor", "auditor"},
    map["view" := ["viewer"], "edit" := ["owner", "editor"]],
    map["auditor" := Intersection([This])])

  const GRAPH := Graph(map["doc" := NamespaceDefinition("org", "doc", CONFIG)], TUPLES)

  const STORED := Snapshot("org", GRAPH, None)

  // All that the proofs below use of the organization.
  ghost predicate Layout(s: Snapshot) {
    && s.orgId == "org" && s.memberships.None? && OneOrg(s) && Chain(s.graph, 1)
    && SubjectsOf(s.graph.tuples, Node(DOC, "viewer")) == [InGroup(1), InGroup(10)]
    && SubjectsOf(s.graph.tuples, Node(DOC, "owner")) == [InGroup(1)]
    && SubjectsOf(s.graph.tuples, Node(DOC, "editor")) == [InGroup(10)]
    && SubjectsOf(s.graph.tuples, Node(DOC, "auditor")) == [InGroup(1), InGroup(12)]
    && Rewritten(s.graph) && Required(s.graph.namespaces)
    && forall n: Node | Direct(USER) in SubjectsOf(s.graph.tuples, n) :: n == Group(11) || n == Group(12)
  }

  ghost predicate Rewritten(g: Graph) {
    forall n: Node ::
      RewriteOf(g, n) == if n.entity.kind == "doc" && n.relation == "auditor" then Intersection([This]) else This
  }

  ghost predicate Required(namespaces: Registry) {
    && "doc" in namespaces
    && RequiredRelations(namespaces, Action("doc", "view"), DOC) == ["viewer"]
    && RequiredRelations(namespaces, Action("doc", "edit"), DOC) == ["owner", "editor"]
  }

  lemma DifferentNames()
    ensures "doc" != "group" && "view" != "edit"
    ensures "viewer" != "owner" && "viewer" != "editor" && "owner" != "editor"
    ensures "viewer" != "auditor" && "owner" != "auditor" && "editor" != "auditor"
  {
    assert "doc"[0] != "group"[0] && "view"[0] != "edit"[0];
    assert "viewer"[0] != "owner"[0] && "viewer"[0] != "editor"[0] && "owner"[0] != "editor"[0];
    assert "viewer"[0] != "auditor"[0] && "owner"[0] != "auditor"[0] && "editor"[0] != "auditor"[0];
  }

  lemma StoredNamespaces()
    ensures Ranked(GRAPH.namespaces) && OneOrg(STORED) && Rewritten(GRAPH) && Required(GRAPH.namespaces)
  {
    DifferentNames();
    assert Ranks(CONFIG, map[]);
  }

  lemma StoredRows()
    ensures forall i: nat | 1 <= i <= 12 :: SubjectsOf(TUPLES, Group(i)) == RowsOfGroup(i)
    ensures SubjectsOf(TUPLES, Node(DOC, "viewer")) == [InGroup(1), InGroup(10)]
    ensures SubjectsOf(TUPLES, Node(DOC, "owner")) == [InGroup(1)]
    ensures SubjectsOf(TUPLES, Node(DOC, "editor")) == [InGroup(10)]
    ensures SubjectsOf(TUPLES, Node(DOC, "auditor")) == [InGroup(1), InGroup(12)]
    ensures forall n: Node | Direct(USER) in SubjectsOf(TUPLES, n) :: n == Group(11) || n == Group(12)
  {
    DifferentNames();
    GroupRows();
  }

  lemma StoredLayout()
    ensures Layout(STORED)
  {
    StoredNamespaces();
    StoredRows();
  }

  // ----- A fresh index can turn a truncated denial into a permit -----

  const INDEX := IndexedMemberships(Some(USER), map[Group(10) := 1])

  lemma TenthGroupFlattens(s: Snapshot)
    requires Layout(s)
    ensures Flattens(s.graph, USER, Group(10), 1)
  {
    assert Group(10) != Group(11);
    var visited := {} + {Group(10)};
    LeafMembers(s.graph, 11, 1, visited);
    assert SubjectsOf(s.graph.tuples, Group(10)) == [InGroup(11)] + [];
    CollectStep(s.graph, 11, [], 0, visited);
    assert RewriteOf(s.graph, Group(10)) == This && [InGroup(11)] + [] == [InGroup(11)];
    var g := CollectRewrite(s.graph, Group(10), This, 0, visited);
    assert Collect(s.graph, Group(10), 0, {}) == g;
    assert g == CollectSubjects(s.graph, [InGroup(11)], 0, visited);
    assert g.members == [Member(USER, 1)] && !g.excluded;
    LeastDepthsOfOne(Member(USER, 1));
    assert FlattenSet(s.graph, Group(10)) == FlattenedSet(map[USER := 1], true);
  }

  lemma IndexIsFresh(s: Snapshot)
    requires Layout(s)
    ensures Setting(s, USER, INDEX)
  {
    TenthGroupFlattens(s);
    assert SameFacts(s.graph, s.graph);
  }

  lemma ViewerIsCut(s: Snapshot)
    requires Layout(s)
    ensures var w := Derive(s, Node(DOC, "viewer"), USER, 0, {}); w.grant.None? && w.truncated
  {
    DifferentNames();
    var n := Node(DOC, "viewer");
    EnterRoot(s, n);
    ChainIsCut(s, 1, {n});
    assert SubjectsOf(s.graph.tuples, n) == [InGroup(1)] + [InGroup(10)];
    GroupStep(s, n, 1, [InGroup(10)], 0, {n});
    var w := Derive(s, Group(1), USER, 1, {n});
    assert [InGroup(10)] == [InGroup(10)] + [];
    GroupStep(s, n, 10, [], 0, w.visited);
  }

  lemma IndexedViewerIsGranted(s: Snapshot)
    requires Layout(s)
    ensures Derive(Indexed(s, INDEX), Node(DOC, "viewer"), USER, 0, {}).grant.Some?
  {
    DifferentNames();
    var s', n := Indexed(s, INDEX), Node(DOC, "viewer");
    EnterRoot(s', n);
    var subjects := SubjectsOf(s.graph.tuples, n);
    assert subjects[1..] == [InGroup(10)] && NodeOf(subjects[0]) == Group(1) && NodeOf(InGroup(10)) == Group(10);
    assert IndexGrants(s', Group(10), USER, 0);
    var w := Derive(s', Group(1), USER, 1, {n});
    assert DeriveUsersets(s', n, [InGroup(10)], USER, 0, w.visited).grant.Some?;
  }

  lemma ViewIsDecidedByViewer(s: Snapshot)
    requires Ranked(s.graph.namespaces) && s.orgId == "org" && OneOrg(s) && Required(s.graph.namespaces)
    ensures var w := Derive(s, Node(DOC, "viewer"), USER, 0, {});
            && (w.grant.Some? ==> Evaluate(Asking("view"), s).effect == Permit)
            && (w.grant.None? && w.truncated ==> Evaluate(Asking("view"), s) == DenyWith([DefaultDeny, WalkTruncated]))
  {
    assert ["viewer"][0] in ["viewer"] && ["viewer"][1..] == [];
    TriedRelations(s, DOC, ["viewer"], USER);
  }

  lemma ViewerIsMember(s: Snapshot)
    requires Layout(s)
    ensures Node(DOC, "viewer") in Members(s.graph, USER)
  {
    IndexIsFresh(s);
    IndexedViewerIsGranted(s);
    var m := Members(s.graph, USER);
    ExclusionFreeModel(s.graph, USER, m, m);
    IndexIsTransparent(s, USER, INDEX, m, m, Node(DOC, "viewer"));
    WithinIsCertain(s.graph, USER, m, m, MAX_USERSET_DEPTH, Node(DOC, "viewer"));
  }

  // The walk denies a member, truncated; the same walk with a fresh index entry permits it.
  lemma IndexTurnsTruncatedDenial()
    ensures Setting(STORED, USER, INDEX)
    ensures Evaluate(Asking("view"), STORED) == DenyWith([DefaultDeny, WalkTruncated])
    ensures Evaluate(Asking("view"), Indexed(STORED, INDEX)).effect == Permit
    ensures Node(DOC, "viewer") in Members(GRAPH, USER)
  {
    StoredLayout();
    IndexIsFresh(STORED);
    ViewerIsCut(STORED);
    IndexedViewerIsGranted(STORED);
    ViewIsDecidedByViewer(STORED);
    ViewIsDecidedByViewer(Indexed(STORED, INDEX));
    ViewerIsMember(STORED);
  }

  // ----- A cut load of two required relations can lose a permit -----

  lemma LoadOfRoot(s: Snapshot, relation: string, i: nat, st: Loading)
    requires Layout(s) && relation != "auditor" && Node(DOC, relation) !in st.walked
    requires SubjectsOf(s.graph.tuples, Node(DOC, relation)) == [InGroup(i)]
    ensures Load(s, Some(USER), Node(DOC, relation), 0, st)
         == Load(s, Some(USER), Group(i), 1, Enter(s.graph, Node(DOC, relation), st).(consulted := true))
  {
    LoadStep(s, Some(USER), i, 0, Enter(s.graph, Node(DOC, relation), st));
  }

  lemma LoadOfTwo(s: Snapshot, q: Query)
    requires Layout(s) && q == Asking("edit")
    ensures var st0 := LoadNamespace(s.graph, "doc", NOTHING_LOADED);
            var st1 := Load(s, Some(USER), Node(DOC, "owner"), 0, st0);
            LoadFor(s, q) == Load(s, Some(USER), Node(DOC, "editor"), 0, st1)
    ensures Faithful(s.graph, LoadFor(s, q))
  {
    var st0 := LoadNamespace(s.graph, "doc", NOTHING_LOADED);
    var st1 := Load(s, Some(USER), Node(DOC, "owner"), 0, st0);
    var st2 := Load(s, Some(USER), Node(DOC, "editor"), 0, st1);
    assert ["owner", "editor"][1..] == ["editor"] && ["editor"][1..] == [];
    assert LoadRelations(s, Some(USER), DOC, ["editor"], st1) == LoadRelations(s, Some(USER), DOC, [], st2) == st2;
    LoadRelationsAdds(s, Some(USER), DOC, ["owner", "editor"], st0);
  }

  lemma EleventhGroupIsNotLoaded(s: Snapshot, q: Query)
    requires Layout(s) && q == Asking("edit")
    ensures var st := LoadFor(s, q); Faithful(s.graph, st) && forall j: nat | j >= 11 :: Group(j) !in st.local
  {
    DifferentNames();
    var st0 := LoadNamespace(s.graph, "doc", NOTHING_LOADED);
    var owner, editor := Node(DOC, "owner"), Node(DOC, "editor");
    LoadOfTwo(s, q);
    LoadOfRoot(s, "owner", 1, st0);
    LoadOfChain(s, Some(USER), 1, Enter(s.graph, owner, st0).(consulted := true));
    var st1 := Load(s, Some(USER), owner, 0, st0);
    if editor !in st1.walked { LoadOfRoot(s, "editor", 10, st1); }
  }

  // Without a direct tuple for the user nobody grants them anything.
  lemma NoDirectTupleNoPermit(s: Snapshot, q: Query)
    requires Ranked(s.graph.namespaces) && s.memberships.None? && q.subject == USER
    requires forall n: Node :: RewriteOf(s.graph, n) == This || RewriteOf(s.graph, n) == Intersection([This])
    requires forall n: Node :: Direct(USER) !in SubjectsOf(s.graph.tuples, n)
    ensures Evaluate(q, s).effect == Deny
  {
    var none: Interpretation := iset{};
    forall n: Node ensures !Reduct(s.graph, USER, none, none, none, n, RewriteOf(s.graph, n)) {
      assert !Reduct(s.graph, USER, none, none, none, n, This);
      assert This in [This];
    }
    assert Closed(s.graph, USER, none, none, none);
    LeastFixedPointIsLeastClosed(s.graph, USER, none, none);
    ExclusionFreeModel(s.graph, USER, Members(s.graph, USER), Members(s.graph, USER));
    EvaluateIsExact(q, s, Members(s.graph, USER), Members(s.graph, USER));
  }

  lemma EditorIsGranted(s: Snapshot)
    requires Layout(s)
    ensures Evaluate(Asking("edit"), s).effect == Permit
  {
    DifferentNames();
    var editor := Node(DOC, "editor");
    EnterRoot(s, editor);
    assert SubjectsOf(s.graph.tuples, editor) == [InGroup(10)] + [];
    GroupStep(s, editor, 10, [], 0, {editor});
    TenthGroupGrants(s, 1, {editor});
    TriedRelations(s, DOC, ["owner", "editor"], USER);
    assert ["owner", "editor"][1] in ["owner", "editor"];
  }

  lemma LoadedEditIsDenied(s: Snapshot, q: Query)
    requires Layout(s) && q == Asking("edit")
    ensures var st := LoadFor(s, q); Ranked(st.reached) && Evaluate(q, LoadedSnapshot(s, st)).effect == Deny
  {
    EleventhGroupIsNotLoaded(s, q);
    var st := LoadFor(s, q);
    LoadedIsRanked(s, st);
    var loaded := LoadedSnapshot(s, st);
    forall n: Node ensures RewriteOf(loaded.graph, n) == This || RewriteOf(loaded.graph, n) == Intersection([This]) {
      assert RewriteOf(loaded.graph, n) == RewriteOf(s.graph, n) || RewriteOf(loaded.graph, n) == This;
    }
    NoDirectTupleNoPermit(loaded, q);
  }

  // The eleventh group is cut while loading the first relation, and never read for the
  // second, although the second relation's own walk reaches it in two hops.
  lemma CutLoadLosesPermit()
    ensures Ranked(GRAPH.namespaces) && Evaluate(Asking("edit"), STORED).effect == Permit
    ensures var st := LoadFor(STORED, Asking("edit"));
            Ranked(st.reached) && Evaluate(Asking("edit"), LoadedSnapshot(STORED, st)).effect == Deny
  {
    StoredLayout();
    EditorIsGranted(STORED);
    LoadedEditIsDenied(STORED, Asking("edit"));
  }

  // ----- With an intersection a truncated check and expand can differ -----

  lemma AuditorsAreCollected(s: Snapshot)
    requires Layout(s)
    ensures Member(USER, 1) in CollectSubjects(s.graph, [InGroup(1), InGroup(12)], 0, {}).members
  {
    CollectOfChain(s, 1, {});
    var g := Collect(s.graph, Group(1), 1, {});
    assert Group(12) !in g.visited;
    LeafMembers(s.graph, 12, 1, g.visited);
    assert [InGroup(1), InGroup(12)] == [InGroup(1)] + [InGroup(12)] && [InGroup(12)] == [InGroup(12)] + [];
    CollectStep(s.graph, 1, [InGroup(12)], 0, {});
    CollectStep(s.graph, 12, [], 0, g.visited);
    assert [Member(USER, 1)][0] in [Member(USER, 1)];
  }

  lemma AuditorIsExpanded(s: Snapshot)
    requires Layout(s)
    ensures USER in Expand(s, "org", Node(DOC, "auditor"))
  {
    var n := Node(DOC, "auditor");
    var all := CollectSubjects(s.graph, SubjectsOf(s.graph.tuples, n), 0, {});
    AuditorsAreCollected(s);
    assert [This][1..] == [];
    assert CollectIntersection(s.graph, n, [This], None, 0).members == all.members;
    assert Collect(s.graph, n, 0, {}).members == all.members;
    LeastDepthsAreLeast(all.members);
  }

  lemma AuditorIsCut(s: Snapshot)
    requires Layout(s)
    ensures var w := Derive(s, Node(DOC, "auditor"), USER, 0, {}); w.grant.None? && w.truncated
  {
    var n := Node(DOC, "auditor");
    ChainIsCut(s, 1, {});
    assert SubjectsOf(s.graph.tuples, n) == [InGroup(1)] + [InGroup(12)];
    GroupStep(s, n, 1, [InGroup(12)], 0, {});
    assert DeriveRewrite(s, n, This, USER, 0, {}).truncated;
    assert DeriveIntersection(s, n, [This], [], USER, 0).truncated;
  }

  lemma CheckAndExpandCanDiffer()
    ensures Ranked(GRAPH.namespaces) && NonEmptyGraph(GRAPH)
    ensures var w := Derive(STORED, Node(DOC, "auditor"), USER, 0, {}); w.grant.None? && w.truncated
    ensures USER in Expand(STORED, "org", Node(DOC, "auditor"))
  {
    StoredLayout();
    AuditorIsExpanded(STORED);
    AuditorIsCut(STORED);
  }
}
