/**
 A fresh index entry prunes the load of a node at one depth, while the evaluation needs its
 rows at another. One small organization, under two rewrites: an exclusion, where that opens
 access to a blocked user, and an intersection, where it denies a member.
 */
module PruningLimits {
  import opened Prelude
  import opened Refs
  import opened Usersets
  import opened Snapshots
  import opened Walks
  import opened Semantics
  import opened Exactness
  import opened Derivations
  import opened Transparency
  import opened Decisions
  import opened Loading
  import opened FaithfulLoading
  import opened LoadedChecks
  import opened GroupChain
  import opened LoadingLimits

  const FOLDER := EntityRef("folder", "f")
  const BOX := EntityRef("box", "x")

  function Viewers(e: EntityRef): Node { Node(e, "viewer") }

  const IN_FOLDER := UsersetOf(FOLDER, "viewer")

  // Viewers are members or see the parent folder; and they must not see a box the document is
  // blocked by, or, under the other rewrite, must see it as well. The third group holds the
  // eleventh and, the long way round, the fourth.
  const TUPLES: Buckets :=
    MEMBERSHIPS[Group(3) := [InGroup(11), InGroup(4)]]
               [Viewers(DOC) := [Direct(USER)]]
               [Node(DOC, "parent") := [Direct(FOLDER)]]
               [Node(DOC, "blocked") := [Direct(BOX)]]
               [Viewers(BOX) := [IN_FOLDER]]
               [Viewers(FOLDER) := [InGroup(3)]]

  const ALLOWED := Union([This, TupleToUserset("parent", "viewer")])
  const BLOCKED := TupleToUserset("blocked", "viewer")

  const UNLESS := Exclusion(ALLOWED, BLOCKED)
  const BOTH := Intersection([ALLOWED, BLOCKED])

  predicate Joins(u: Userset) { u == UNLESS || u == BOTH }

  function Config(viewer: Userset): NamespaceConfig {
    NamespaceConfig({"viewer", "parent", "blocked"}, map["view" := ["viewer"]], map["viewer" := viewer])
  }

  function Stored(viewer: Userset): Snapshot {
    Snapshot("org", Graph(map["doc" := NamespaceDefinition("org", "doc", Config(viewer))], TUPLES), None)
  }

  const INDEX := IndexedMemberships(Some(USER), map[Group(3) := 8])

  ghost predicate Rules(g: Graph) {
    && "doc" in g.namespaces && Joins(RewriteOf(g, Viewers(DOC)))
    && RewriteOf(g, Viewers(BOX)) == This && RewriteOf(g, Viewers(FOLDER)) == This && RewriteOf(g, Group(3)) == This
    && RequiredRelations(g.namespaces, Action("doc", "view"), DOC) == ["viewer"]
  }

  ghost predicate Rows(tuples: Buckets) {
    && SubjectsOf(tuples, Viewers(DOC)) == [Direct(USER)]
    && SubjectsOf(tuples, Node(DOC, "blocked")) == [Direct(BOX)]
    && SubjectsOf(tuples, Viewers(BOX)) == [IN_FOLDER]
    && SubjectsOf(tuples, Viewers(FOLDER)) == [InGroup(3)]
  }

  ghost predicate Layout(s: Snapshot) {
    && s.orgId == "org" && s.memberships.None? && OneOrg(s) && Chain(s.graph, 4) && Rules(s.graph)
    && Rows(s.graph.tuples) && SubjectsOf(s.graph.tuples, Node(DOC, "parent")) == [Direct(FOLDER)]
    && SubjectsOf(s.graph.tuples, Group(3)) == [InGroup(11), InGroup(4)]
  }

  lemma Kinds()
    ensures "doc" != "folder" && "doc" != "box" && "folder" != "box" && "group" != "folder" && "group" != "box"
    ensures "viewer" != "parent" && "viewer" != "blocked" && "parent" != "blocked"
  {
    assert "doc"[0] != "folder"[0] && "doc"[0] != "box"[0] && "folder"[0] != "box"[0];
    assert "group"[0] != "folder"[0] && "group"[0] != "box"[0];
    assert "viewer"[0] != "parent"[0] && "viewer"[0] != "blocked"[0] && "parent"[0] != "blocked"[0];
  }

  lemma StoredRanks(viewer: Userset)
    requires Joins(viewer)
    ensures Ranked(Stored(viewer).graph.namespaces) && OneOrg(Stored(viewer))
  {
    var rank: Ranking := map[];
    assert TargetsBelow(ALLOWED, rank, 0) && TargetsBelow(BLOCKED, rank, 0);
    assert Ranks(Config(viewer), rank);
  }

  lemma StoredRules(viewer: Userset)
    requires Joins(viewer)
    ensures var g := Stored(viewer).graph;
            Rules(g) && RewriteOf(g, Viewers(DOC)) == viewer && forall i: nat :: RewriteOf(g, Group(i)) == This
  {
    Kinds();
    GroupRows();
  }

  lemma StoredRows()
    ensures Rows(TUPLES) && SubjectsOf(TUPLES, Node(DOC, "parent")) == [Direct(FOLDER)]
    ensures SubjectsOf(TUPLES, Group(3)) == [InGroup(11), InGroup(4)]
    ensures forall i: nat | 4 <= i <= 12 :: SubjectsOf(TUPLES, Group(i)) == RowsOfGroup(i)
  {
    Kinds();
    GroupRows();
  }

  lemma StoredLayout(viewer: Userset)
    requires Joins(viewer)
    ensures Layout(Stored(viewer)) && RewriteOf(Stored(viewer).graph, Viewers(DOC)) == viewer
  {
    StoredRanks(viewer);
    StoredRules(viewer);
    StoredRows();
  }

  // ----- The index entry is fresh: the same rows, read in the other order -----

  function Reordered(g: Graph): Graph {
    g.(tuples := g.tuples[Group(3) := [InGroup(4), InGroup(11)]])
  }

  lemma ReorderedHoldsTheSame(g: Graph)
    requires SubjectsOf(g.tuples, Group(3)) == [InGroup(11), InGroup(4)]
    ensures SameFacts(Reordered(g), g)
  {
    var g' := Reordered(g);
    forall n: Node, sub: Subject ensures sub in SubjectsOf(g'.tuples, n) <==> sub in SubjectsOf(g.tuples, n) {
      if n == Group(3) { assert sub in [InGroup(4), InGroup(11)] <==> sub in [InGroup(11), InGroup(4)]; }
    }
  }

  lemma ReorderedChain(g: Graph)
    requires Chain(g, 4)
    ensures Chain(Reordered(g), 4)
  {
    var g' := Reordered(g);
    forall i: nat ensures RewriteOf(g', Group(i)) == This { assert RewriteOf(g, Group(i)) == This; }
    forall i: nat | 4 <= i <= 12 ensures SubjectsOf(g'.tuples, Group(i)) == RowsOfGroup(i) {
      assert Group(i) != Group(3);
    }
  }

  lemma {:induction false} CollectUp(g: Graph, i: nat, visited: set<Node>)
    requires Chain(g, 4) && 4 <= i <= 11 && forall j: nat | i <= j <= 11 :: Group(j) !in visited
    ensures var c := Collect(g, Group(i), i - 3, visited);
            c.members == [Member(USER, 8)] && !c.excluded && Group(11) in c.visited
    decreases 11 - i
  {
    if i == 11 {
      LeafMembers(g, 11, 8, visited);
    } else {
      assert SubjectsOf(g.tuples, Group(i)) == [InGroup(i + 1)] + [];
      CollectStep(g, i + 1, [], i - 3, visited + {Group(i)});
      CollectUp(g, i + 1, visited + {Group(i)});
    }
  }

  lemma ThirdGroupFlattens(g: Graph)
    requires Chain(g, 4) && SubjectsOf(g.tuples, Group(3)) == [InGroup(4), InGroup(11)]
    ensures Flattens(g, USER, Group(3), 8)
  {
    var visited := {} + {Group(3)};
    CollectUp(g, 4, visited);
    var first := Collect(g, Group(4), 1, visited);
    assert [InGroup(4), InGroup(11)] == [InGroup(4)] + [InGroup(11)] && [InGroup(11)] == [InGroup(11)] + [];
    CollectStep(g, 4, [InGroup(11)], 0, visited);
    CollectStep(g, 11, [], 0, first.visited);
    var c := CollectRewrite(g, Group(3), This, 0, visited);
    assert Collect(g, Group(3), 0, {}) == c;
    assert c.members == [Member(USER, 8)] + [] && !c.excluded;
    LeastDepthsOfOne(Member(USER, 8));
    assert FlattenSet(g, Group(3)) == FlattenedSet(map[USER := 8], true);
  }

  lemma IndexIsFresh(s: Snapshot)
    requires Layout(s)
    ensures Setting(s, USER, INDEX)
  {
    ReorderedChain(s.graph);
    ReorderedHoldsTheSame(s.graph);
    ThirdGroupFlattens(Reordered(s.graph));
  }

  // ----- Stored: the user is allowed, and sees the box -----

  lemma OperandsAreBelow(g: Graph)
    requires Ranked(g.namespaces) && Joins(RewriteOf(g, Viewers(DOC)))
    ensures Below(g.namespaces, Viewers(DOC), ALLOWED) && Below(g.namespaces, Viewers(DOC), BLOCKED)
  {
    RewriteIsBelow(g, Viewers(DOC));
    assert BOTH.children[0] == ALLOWED && BOTH.children[1] == BLOCKED;
  }

  lemma AllowedIsGranted(s: Snapshot)
    requires Ranked(s.graph.namespaces) && Rows(s.graph.tuples) && Rules(s.graph)
    ensures Below(s.graph.namespaces, Viewers(DOC), ALLOWED)
    ensures Grants(DeriveRewrite(s, Viewers(DOC), ALLOWED, USER, 0, {}))
  {
    OperandsAreBelow(s.graph);
    assert ALLOWED.children[0] in ALLOWED.children && Direct(USER) in SubjectsOf(s.graph.tuples, Viewers(DOC));
    assert Grants(DeriveRewrite(s, Viewers(DOC), This, USER, 0, {}));
  }

  // The blocking operand follows the walk of the box.
  lemma BlockedFollowsBox(s: Snapshot)
    requires Ranked(s.graph.namespaces) && Rows(s.graph.tuples) && Rules(s.graph)
    ensures Below(s.graph.namespaces, Viewers(DOC), BLOCKED)
    ensures var w, box := DeriveRewrite(s, Viewers(DOC), BLOCKED, USER, 0, {}), Derive(s, Viewers(BOX), USER, 1, {});
            (Grants(box) ==> Grants(w)) && (Denies(box) ==> Denies(w))
  {
    OperandsAreBelow(s.graph);
    var tn := Node(DOC, "blocked");
    var subjects := SubjectsOf(s.graph.tuples, tn);
    assert subjects[0] == Direct(BOX) && subjects[1..] == [];
    var box := Derive(s, Viewers(BOX), USER, 1, {});
    assert DeriveParents(s, tn, [], "viewer", USER, 0, box.visited) == Walk(None, box.visited, false);
  }

  // The box follows the folder, and the folder the third group, unless the index answers.
  lemma BoxFollowsGroup(s: Snapshot)
    requires Ranked(s.graph.namespaces) && Rows(s.graph.tuples) && Rules(s.graph)
    requires !IndexGrants(s, Viewers(FOLDER), USER, 1) && !IndexGrants(s, Group(3), USER, 2)
    ensures var visited := {Viewers(BOX)} + {Viewers(FOLDER)};
            var w, group := Derive(s, Viewers(BOX), USER, 1, {}), Derive(s, Group(3), USER, 3, visited);
            (Grants(group) ==> Grants(w)) && (Denies(group) ==> Denies(w))
  {
    Kinds();
    var box, folder := Viewers(BOX), Viewers(FOLDER);
    assert NodeOf(IN_FOLDER) == folder && NodeOf(InGroup(3)) == Group(3) && {} + {box} == {box};
    assert [IN_FOLDER] == [IN_FOLDER] + [] && [InGroup(3)] == [InGroup(3)] + [];
    UsersetStep(s, box, IN_FOLDER, [], 1, {box});
    UsersetStep(s, folder, InGroup(3), [], 2, {box} + {folder});
    assert Derive(s, box, USER, 1, {}) == DeriveUsersets(s, box, [IN_FOLDER], USER, 1, {box});
    assert Derive(s, folder, USER, 2, {box}) == DeriveUsersets(s, folder, [InGroup(3)], USER, 2, {box} + {folder});
  }

  lemma StoredGroupGrants(s: Snapshot, visited: set<Node>)
    requires Layout(s) && Group(3) !in visited && Group(11) !in visited
    ensures Grants(Derive(s, Group(3), USER, 3, visited))
  {
    assert Group(3) != Group(11);
    assert [InGroup(11), InGroup(4)] == [InGroup(11)] + [InGroup(4)];
    GroupStep(s, Group(3), 11, [InGroup(4)], 3, visited + {Group(3)});
    assert SubjectsOf(s.graph.tuples, Group(11)) == [Direct(USER)];
    assert Grants(Derive(s, Group(11), USER, 4, visited + {Group(3)}));
  }

  // The walk of the viewers in terms of their second operand.
  lemma JoinedWalk(s: Snapshot)
    requires Ranked(s.graph.namespaces) && Rows(s.graph.tuples) && Rules(s.graph)
    ensures Below(s.graph.namespaces, Viewers(DOC), BLOCKED)
    ensures var w := Derive(s, Viewers(DOC), USER, 0, {});
            var other := DeriveRewrite(s, Viewers(DOC), BLOCKED, USER, 0, {});
            if RewriteOf(s.graph, Viewers(DOC)) == UNLESS
            then (Grants(other) ==> Denies(w)) && (Denies(other) ==> w.grant.Some?)
            else (Grants(other) ==> w.grant.Some?) && (Denies(other) ==> Denies(w))
  {
    OperandsAreBelow(s.graph);
    AllowedIsGranted(s);
    if RewriteOf(s.graph, Viewers(DOC)) == BOTH {
      var cs, n := BOTH.children, Viewers(DOC);
      assert cs[1..] == [BLOCKED] && cs[1..][1..] == [];
      var own, other := DeriveRewrite(s, n, ALLOWED, USER, 0, {}), DeriveRewrite(s, n, BLOCKED, USER, 0, {});
      var path := [] + own.grant.value.path;
      assert DeriveIntersection(s, n, cs, [], USER, 0) == DeriveIntersection(s, n, [BLOCKED], path, USER, 0);
      if Grants(other) { assert DeriveIntersection(s, n, [], path + other.grant.value.path, USER, 0).grant.Some?; }
    }
  }

  lemma StoredDecision(s: Snapshot)
    requires Layout(s)
    ensures var d := Evaluate(Asking("view"), s);
            if RewriteOf(s.graph, Viewers(DOC)) == UNLESS then d == DenyWith([DefaultDeny]) else d.effect == Permit
  {
    Kinds();
    StoredGroupGrants(s, {Viewers(BOX)} + {Viewers(FOLDER)});
    BoxFollowsGroup(s);
    BlockedFollowsBox(s);
    JoinedWalk(s);
    OneAttempt(s, "view", "viewer");
  }

  // ----- Loaded: the third group is pruned below the folder, at depth 1 -----

  ghost function Loaded(g: Graph): Loading {
    var st0 := Enter(g, Viewers(DOC), LoadNamespace(g, "doc", NOTHING_LOADED));
    var st1 := Enter(g, Viewers(FOLDER), LoadRows(g, Node(DOC, "parent"), st0)).(consulted := true, pruned := true);
    Enter(g, Viewers(BOX), LoadRows(g, Node(DOC, "blocked"), st1)).(consulted := true)
  }

  lemma FolderLoad(s: Snapshot, st: Loading)
    requires Layout(s) && Viewers(FOLDER) !in st.walked
    ensures Load(Indexed(s, INDEX), Some(USER), Viewers(FOLDER), 1, st)
         == Enter(s.graph, Viewers(FOLDER), st).(consulted := true, pruned := true)
  {
    var s' := Indexed(s, INDEX);
    var subjects := SubjectsOf(s.graph.tuples, Viewers(FOLDER));
    assert subjects[0] == InGroup(3) && NodeOf(subjects[0]) == Group(3) && subjects[1..] == [];
    assert IndexGrants(s', Group(3), USER, 1);
    var entered := Enter(s.graph, Viewers(FOLDER), st);
    var next := entered.(consulted := true, pruned := true);
    assert LoadUsersets(s', Some(USER), subjects[1..], 1, next) == next;
    assert LoadUsersets(s', Some(USER), subjects, 1, entered) == next;
    assert LoadRewrite(s', Some(USER), Viewers(FOLDER), This, 1, entered) == next;
    assert RewriteOf(s'.graph, Viewers(FOLDER)) == This;
  }

  lemma BoxLoad(s: Snapshot, st: Loading)
    requires Layout(s) && Viewers(BOX) !in st.walked && Viewers(FOLDER) in st.walked
    ensures Load(Indexed(s, INDEX), Some(USER), Viewers(BOX), 1, st)
         == Enter(s.graph, Viewers(BOX), st).(consulted := true)
  {
    Kinds();
    var s' := Indexed(s, INDEX);
    var subjects := SubjectsOf(s.graph.tuples, Viewers(BOX));
    assert subjects[0] == IN_FOLDER && NodeOf(subjects[0]) == Viewers(FOLDER) && subjects[1..] == [];
    assert !IndexGrants(s', Viewers(FOLDER), USER, 1);
    var entered := Enter(s.graph, Viewers(BOX), st);
    var next := entered.(consulted := true);
    assert Load(s', Some(USER), Viewers(FOLDER), 2, next) == next;
    assert LoadUsersets(s', Some(USER), subjects[1..], 1, next) == next;
    assert LoadUsersets(s', Some(USER), subjects, 1, entered) == next;
    assert LoadRewrite(s', Some(USER), Viewers(BOX), This, 1, entered) == next;
    assert RewriteOf(s'.graph, Viewers(BOX)) == This;
  }

  // Loading a tupleset with one direct subject loads that subject's viewers.
  lemma ParentLoad(s: Snapshot, tupleset: string, parent: EntityRef, st: Loading)
    requires Ranked(s.graph.namespaces) && SubjectsOf(s.graph.tuples, Node(DOC, tupleset)) == [Direct(parent)]
    ensures LoadRewrite(s, Some(USER), Viewers(DOC), TupleToUserset(tupleset, "viewer"), 0, st)
         == Load(s, Some(USER), Viewers(parent), 1, LoadRows(s.graph, Node(DOC, tupleset), st))
  {
    var subjects := SubjectsOf(s.graph.tuples, Node(DOC, tupleset));
    assert subjects[0] == Direct(parent) && subjects[1..] == [];
    var next := Load(s, Some(USER), Viewers(parent), 1, LoadRows(s.graph, Node(DOC, tupleset), st));
    assert LoadParents(s, Some(USER), [], "viewer", 0, next) == next;
  }

  lemma AllowedLoad(s: Snapshot, st: Loading)
    requires Layout(s) && Viewers(FOLDER) !in st.walked
    ensures Below(s.graph.namespaces, Viewers(DOC), ALLOWED)
    ensures LoadRewrite(Indexed(s, INDEX), Some(USER), Viewers(DOC), ALLOWED, 0, st)
         == Enter(s.graph, Viewers(FOLDER), LoadRows(s.graph, Node(DOC, "parent"), st))
              .(consulted := true, pruned := true)
  {
    OperandsAreBelow(s.graph);
    var s', cs := Indexed(s, INDEX), ALLOWED.children;
    var subjects := SubjectsOf(s.graph.tuples, Viewers(DOC));
    assert subjects[0] == Direct(USER) && subjects[1..] == [] && LoadUsersets(s', Some(USER), [], 0, st) == st;
    assert LoadRewrite(s', Some(USER), Viewers(DOC), This, 0, st) == st;
    ParentLoad(s', "parent", FOLDER, st);
    FolderLoad(s, LoadRows(s.graph, Node(DOC, "parent"), st));
    assert cs[1] in cs && cs[1..] == [TupleToUserset("parent", "viewer")] && cs[1..][1..] == [];
    var last := LoadRewrite(s', Some(USER), Viewers(DOC), cs[1], 0, st);
    assert LoadAll(s', Some(USER), Viewers(DOC), [], 0, last) == last;
    assert LoadAll(s', Some(USER), Viewers(DOC), cs[1..], 0, st) == last;
  }

  // Either rewrite loads its first operand, then the second.
  lemma JoinedLoad(s: Snapshot, st: Loading)
    requires Ranked(s.graph.namespaces) && Joins(RewriteOf(s.graph, Viewers(DOC)))
    ensures Below(s.graph.namespaces, Viewers(DOC), ALLOWED) && Below(s.graph.namespaces, Viewers(DOC), BLOCKED)
    ensures Below(s.graph.namespaces, Viewers(DOC), RewriteOf(s.graph, Viewers(DOC)))
    ensures LoadRewrite(s, Some(USER), Viewers(DOC), RewriteOf(s.graph, Viewers(DOC)), 0, st)
         == LoadRewrite(s, Some(USER), Viewers(DOC), BLOCKED, 0,
              LoadRewrite(s, Some(USER), Viewers(DOC), ALLOWED, 0, st))
  {
    OperandsAreBelow(s.graph);
    if RewriteOf(s.graph, Viewers(DOC)) == BOTH {
      var cs, n := BOTH.children, Viewers(DOC);
      assert cs[1..] == [BLOCKED] && cs[1..][1..] == [];
      var st' := LoadRewrite(s, Some(USER), n, ALLOWED, 0, st);
      var last := LoadRewrite(s, Some(USER), n, BLOCKED, 0, st');
      assert LoadAll(s, Some(USER), n, [], 0, last) == last;
      assert LoadAll(s, Some(USER), n, cs[1..], 0, st') == last;
    }
  }

  lemma LoadIs(s: Snapshot)
    requires Layout(s)
    ensures LoadFor(Indexed(s, INDEX), Asking("view")) == Loaded(s.graph)
  {
    Kinds();
    var s' := Indexed(s, INDEX);
    var st0 := LoadNamespace(s.graph, "doc", NOTHING_LOADED);
    var st1 := Enter(s.graph, Viewers(DOC), st0);
    LoadOfOneRelation(s', "view", "viewer");
    AllowedLoad(s, st1);
    JoinedLoad(s', st1);
    var st2 := LoadRewrite(s', Some(USER), Viewers(DOC), ALLOWED, 0, st1);
    ParentLoad(s', "blocked", BOX, st2);
    BoxLoad(s, LoadRows(s.graph, Node(DOC, "blocked"), st2));
  }

  lemma LoadedLocals(g: Graph)
    requires "doc" in g.namespaces
    ensures var st := Loaded(g);
            && Viewers(DOC) in st.local && Node(DOC, "blocked") in st.local && Viewers(BOX) in st.local
            && Viewers(FOLDER) in st.local && Group(3) !in st.local && "doc" in st.reached
            && st.consulted && !st.cut
  {
    Kinds();
    GroupRows();
  }

  lemma LoadedRows(s: Snapshot)
    requires Layout(s)
    ensures var loaded := Checked(Indexed(s, INDEX), Asking("view"));
            Rows(loaded.graph.tuples) && SubjectsOf(loaded.graph.tuples, Group(3)) == []
  {
    LoadIs(s);
    LoadedLocals(s.graph);
    LoadIsFaithful(Indexed(s, INDEX), Asking("view"));
  }

  lemma LoadedRules(s: Snapshot)
    requires Layout(s)
    ensures var loaded := Checked(Indexed(s, INDEX), Asking("view"));
            && loaded.orgId == "org" && OneOrg(loaded) && loaded.memberships == Some(INDEX) && Rules(loaded.graph)
            && RewriteOf(loaded.graph, Viewers(DOC)) == RewriteOf(s.graph, Viewers(DOC))
  {
    LoadIs(s);
    LoadedLocals(s.graph);
    LoadIsFaithful(Indexed(s, INDEX), Asking("view"));
    var loaded := Checked(Indexed(s, INDEX), Asking("view"));
    assert RewriteOf(loaded.graph, Viewers(DOC)) == RewriteOf(s.graph, Viewers(DOC));
    forall n: Node | RewriteOf(s.graph, n) == This ensures RewriteOf(loaded.graph, n) == This {}
  }

  lemma PrunedDecision(s: Snapshot)
    requires Layout(s)
    ensures var d := Evaluate(Asking("view"), Checked(Indexed(s, INDEX), Asking("view")));
            if RewriteOf(s.graph, Viewers(DOC)) == UNLESS then d.effect == Permit else d == DenyWith([DefaultDeny])
  {
    LoadedRows(s);
    LoadedRules(s);
    var loaded := Checked(Indexed(s, INDEX), Asking("view"));
    var visited := {Viewers(BOX)} + {Viewers(FOLDER)};
    Kinds();
    assert DeriveUsersets(loaded, Group(3), [], USER, 3, visited + {Group(3)})
        == Walk(None, visited + {Group(3)}, false);
    assert Denies(Derive(loaded, Group(3), USER, 3, visited));
    BoxFollowsGroup(loaded);
    BlockedFollowsBox(loaded);
    JoinedWalk(loaded);
    OneAttempt(loaded, "view", "viewer");
  }

  // An uncut load pruned by a fresh entry can open access: without the index the stored facts
  // deny, unmarked; with it the loaded ones permit.
  lemma PrunedLoadGainsPermit()
    ensures var s := Stored(UNLESS);
            && Setting(s, USER, INDEX) && Evaluate(Asking("view"), s) == DenyWith([DefaultDeny])
            && !LoadFor(Indexed(s, INDEX), Asking("view")).cut
            && Evaluate(Asking("view"), Checked(Indexed(s, INDEX), Asking("view"))).effect == Permit
  {
    var s := Stored(UNLESS);
    StoredLayout(UNLESS);
    IndexIsFresh(s);
    StoredDecision(s);
    LoadIs(s);
    LoadedLocals(s.graph);
    PrunedDecision(s);
  }

  lemma BothIsExclusionFree()
    ensures ExclusionFreeGraph(Stored(BOTH).graph)
  {
    var g := Stored(BOTH).graph;
    forall c | c in ALLOWED.children ensures ExclusionFree(c) { assert c == This || c.TupleToUserset?; }
    forall c | c in BOTH.children ensures ExclusionFree(c) { assert c == ALLOWED || c == BLOCKED; }
    forall n: Node ensures ExclusionFree(RewriteOf(g, n)) {
      assert RewriteOf(g, n) == BOTH || RewriteOf(g, n) == This;
    }
  }

  // It can also hide a member, without an exclusion and without a mark: the stored facts
  // permit, the loaded ones deny. One intersection and one required relation are enough.
  lemma PrunedLoadHidesMember()
    ensures var s := Stored(BOTH);
            && ExclusionFreeGraph(s.graph)
            && Setting(s, USER, INDEX) && Evaluate(Asking("view"), s).effect == Permit
            && !LoadFor(Indexed(s, INDEX), Asking("view")).cut
            && Evaluate(Asking("view"), Checked(Indexed(s, INDEX), Asking("view"))) == DenyWith([DefaultDeny])
  {
    var s := Stored(BOTH);
    BothIsExclusionFree();
    StoredLayout(BOTH);
    IndexIsFresh(s);
    StoredDecision(s);
    LoadIs(s);
    LoadedLocals(s.graph);
    PrunedDecision(s);
  }
}
