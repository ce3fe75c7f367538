/**
 What a load that the depth bound cuts, with the index off, can do to a decision or to an
 expansion when rewrites exclude or intersect: one small organization.
 */
module LoadingLimits {
  import opened Prelude
  import opened Refs
  import opened Usersets
  import opened Snapshots
  import opened Walks
  import opened Exactness
  import opened Agreement
  import opened Decisions
  import opened Loading
  import opened FaithfulLoading
  import opened LoadedChecks
  import opened LoadedExpansion
  import opened GroupChain

  lemma OneAttempt(s: Snapshot, verb: string, relation: string)
    requires Ranked(s.graph.namespaces) && s.orgId == "org" && OneOrg(s)
    requires RequiredRelations(s.graph.namespaces, Action("doc", verb), DOC) == [relation]
    ensures var w := Derive(s, Node(DOC, relation), USER, 0, {});
            && (w.grant.Some? ==> Evaluate(Asking(verb), s).effect == Permit)
            && (Denies(w) ==> Evaluate(Asking(verb), s) == DenyWith([DefaultDeny]))
  {
    assert [relation][1..] == [];
    assert TryRelations(s, DOC, [], USER) == Attempt(None, false);
  }

  lemma LoadOfOneRelation(s: Snapshot, verb: string, relation: string)
    requires Ranked(s.graph.namespaces)
    requires RequiredRelations(s.graph.namespaces, Action("doc", verb), DOC) == [relation]
    ensures LoadFor(s, Asking(verb))
         == Load(s, Some(USER), Node(DOC, relation), 0, LoadNamespace(s.graph, "doc", NOTHING_LOADED))
  {
    var st := Load(s, Some(USER), Node(DOC, relation), 0, LoadNamespace(s.graph, "doc", NOTHING_LOADED));
    assert [relation][1..] == [];
    assert LoadRelations(s, Some(USER), DOC, [], st) == st;
  }

  // ----- Guests are banned, signers must be members twice over -----

  const BAN_TUPLES: Buckets :=
    MEMBERSHIPS[Node(DOC, "guest") := [Direct(USER), InGroup(1)]]
               [Node(DOC, "signer") := [Direct(USER), InGroup(1)]]
               [Node(DOC, "banned") := [InGroup(10)]]

  const BAN_CONFIG := NamespaceConfig(
    {"guest", "signer", "banned"},
    map["enter" := ["guest"], "sign" := ["signer"]],
    map["guest" := Exclusion(This, Computed("banned")), "signer" := Intersection([This, Computed("banned")])])

  const BAN_GRAPH := Graph(map["doc" := NamespaceDefinition("org", "doc", BAN_CONFIG)], BAN_TUPLES)

  const BANS := Snapshot("org", BAN_GRAPH, None)

  // A relation that combines its own rows with `banned`.
  predicate Combines(u: Userset) {
    u == Exclusion(This, Computed("banned")) || u == Intersection([This, Computed("banned")])
  }

  function Root(verb: string): Node { Node(DOC, if verb == "enter" then "guest" else "signer") }

  ghost predicate BanRules(g: Graph) {
    && "doc" in g.namespaces
    && RewriteOf(g, Root("enter")) == Exclusion(This, Computed("banned"))
    && RewriteOf(g, Root("sign")) == Intersection([This, Computed("banned")])
    && RewriteOf(g, Node(DOC, "banned")) == This
    && RequiredRelations(g.namespaces, Action("doc", "enter"), DOC) == ["guest"]
    && RequiredRelations(g.namespaces, Action("doc", "sign"), DOC) == ["signer"]
  }

  ghost predicate BanLayout(s: Snapshot) {
    && s.orgId == "org" && s.memberships.None? && OneOrg(s) && Chain(s.graph, 1) && BanRules(s.graph)
    && SubjectsOf(s.graph.tuples, Root("enter")) == [Direct(USER), InGroup(1)]
    && SubjectsOf(s.graph.tuples, Root("sign")) == [Direct(USER), InGroup(1)]
    && SubjectsOf(s.graph.tuples, Node(DOC, "banned")) == [InGroup(10)]
  }

  lemma BanNames()
    ensures "enter" != "sign" && "guest" != "signer" && "guest" != "banned" && "signer" != "banned"
  {
    assert "enter"[0] != "sign"[0] && "guest"[0] != "signer"[0] && "guest"[0] != "banned"[0]
        && "signer"[0] != "banned"[0];
  }

  lemma CombinedIsBelow(u: Userset, rank: Ranking)
    requires Combines(u) && RankIn(rank, "banned") == 0
    ensures TargetsBelow(u, rank, 1)
  {
  }

  lemma BanRanks()
    ensures Ranked(BAN_GRAPH.namespaces) && OneOrg(BANS)
  {
    BanNames();
    var rank: Ranking := map["guest" := 1, "signer" := 1];
    assert RankIn(rank, "banned") == 0 && RankIn(rank, "guest") == 1 && RankIn(rank, "signer") == 1;
    CombinedIsBelow(Exclusion(This, Computed("banned")), rank);
    CombinedIsBelow(Intersection([This, Computed("banned")]), rank);
    assert BAN_CONFIG.rewrites.Keys == {"guest", "signer"};
    assert Ranks(BAN_CONFIG, rank);
  }

  lemma BanActions()
    ensures "doc" in BAN_GRAPH.namespaces
    ensures RequiredRelations(BAN_GRAPH.namespaces, Action("doc", "enter"), DOC) == ["guest"]
    ensures RequiredRelations(BAN_GRAPH.namespaces, Action("doc", "sign"), DOC) == ["signer"]
  {
    BanNames();
    assert BAN_CONFIG.actions["enter"] == ["guest"] && BAN_CONFIG.actions["sign"] == ["signer"];
  }

  lemma BanRewrites()
    ensures RewriteOf(BAN_GRAPH, Root("enter")) == Exclusion(This, Computed("banned"))
    ensures RewriteOf(BAN_GRAPH, Root("sign")) == Intersection([This, Computed("banned")])
    ensures RewriteOf(BAN_GRAPH, Node(DOC, "banned")) == This
    ensures forall i: nat :: RewriteOf(BAN_GRAPH, Group(i)) == This
  {
    BanNames();
    GroupRows();
  }

  lemma BansLayout()
    ensures BanLayout(BANS)
  {
    BanNames();
    GroupRows();
    BanRanks();
    BanActions();
    BanRewrites();
  }

  // Both operands grant: the user is in the relation's own rows and, two hops away, banned.
  lemma StoredOperandsGrant(s: Snapshot, root: Node)
    requires BanLayout(s) && (root == Root("enter") || root == Root("sign"))
    ensures Grants(DeriveRewrite(s, root, This, USER, 0, {}))
    ensures Grants(DeriveRewrite(s, root, Computed("banned"), USER, 0, {}))
  {
    var banned := Node(DOC, "banned");
    assert Direct(USER) in SubjectsOf(s.graph.tuples, root);
    EnterRoot(s, banned);
    assert [InGroup(10)] == [InGroup(10)] + [];
    GroupStep(s, banned, 10, [], 0, {banned});
    TenthGroupGrants(s, 1, {banned});
  }

  lemma StoredBans(s: Snapshot)
    requires BanLayout(s)
    ensures Evaluate(Asking("enter"), s) == DenyWith([DefaultDeny])
    ensures Evaluate(Asking("sign"), s).effect == Permit
  {
    BanNames();
    StoredOperandsGrant(s, Root("enter"));
    StoredOperandsGrant(s, Root("sign"));
    CombinedWalk(s, Root("enter"));
    CombinedWalk(s, Root("sign"));
    OneAttempt(s, "enter", "guest");
    OneAttempt(s, "sign", "signer");
  }

  // The walk of a combining relation in terms of its operands.
  lemma CombinedWalk(s: Snapshot, root: Node)
    requires Ranked(s.graph.namespaces) && Combines(RewriteOf(s.graph, root))
    ensures var w := Derive(s, root, USER, 0, {});
            var own := DeriveRewrite(s, root, This, USER, 0, {});
            Below(s.graph.namespaces, root, Computed("banned")) &&
            var other := DeriveRewrite(s, root, Computed("banned"), USER, 0, {});
            Grants(own) ==>
              && (RewriteOf(s.graph, root).Exclusion? && Grants(other) ==> Denies(w))
              && (RewriteOf(s.graph, root).Exclusion? && Denies(other) ==> w.grant.Some?)
              && (RewriteOf(s.graph, root).Intersection? && Grants(other) ==> w.grant.Some?)
              && (RewriteOf(s.graph, root).Intersection? && Denies(other) ==> Denies(w))
  {
    RewriteIsBelow(s.graph, root);
    var cs := [This, Computed("banned")];
    assert cs[1] in cs && cs[1..] == [Computed("banned")] && cs[1..][1..] == [];
    var own := DeriveRewrite(s, root, This, USER, 0, {});
    if RewriteOf(s.graph, root).Intersection? && Grants(own) {
      var path := [] + own.grant.value.path;
      var rest := DeriveIntersection(s, root, cs[1..], path, USER, 0);
      assert DeriveIntersection(s, root, cs, [], USER, 0) == rest;
      var other := DeriveRewrite(s, root, Computed("banned"), USER, 0, {});
      if Grants(other) { assert DeriveIntersection(s, root, [], path + other.grant.value.path, USER, 0).grant.Some?; }
    }
  }

  // What a check of USER loads for the relation, or, for nobody, an expansion.
  ghost function LoadRoot(s: Snapshot, member: Option<EntityRef>, root: Node): Loading
    requires Ranked(s.graph.namespaces)
  {
    Load(s, member, root, 0, LoadNamespace(s.graph, "doc", NOTHING_LOADED))
  }

  ghost function EnteredRoot(s: Snapshot, member: Option<EntityRef>, root: Node): Loading {
    Consult(member, Enter(s.graph, root, LoadNamespace(s.graph, "doc", NOTHING_LOADED)))
  }

  // What the relation's own rows load: the whole chain, cut at the eleventh group.
  ghost function OwnLoad(s: Snapshot, member: Option<EntityRef>, root: Node): Loading
    requires Ranked(s.graph.namespaces)
  {
    Load(s, member, Group(1), 1, EnteredRoot(s, member, root))
  }

  lemma RootIsEntered(s: Snapshot, member: Option<EntityRef>, root: Node)
    requires BanLayout(s) && (root == Root("enter") || root == Root("sign"))
    ensures var st := EnteredRoot(s, member, root);
            && Faithful(s.graph, st) && st.walked == {root} && st.local.Keys == {root} && "doc" in st.reached
            && forall i: nat :: Group(i) !in st.walked && Group(i) !in st.local
  {
    GroupRows();
    EnterIsFaithful(s.graph, root, LoadNamespace(s.graph, "doc", NOTHING_LOADED));
  }

  lemma OwnLoadIsCut(s: Snapshot, member: Option<EntityRef>, root: Node)
    requires BanLayout(s) && (root == Root("enter") || root == Root("sign"))
    ensures var st := OwnLoad(s, member, root);
            && Faithful(s.graph, st) && Group(10) in st.walked && Group(10) in st.local && Group(11) !in st.local
            && root in st.local && "doc" in st.reached
            && Node(DOC, "banned") !in st.walked
  {
    BanNames();
    GroupRows();
    RootIsEntered(s, member, root);
    var st := EnteredRoot(s, member, root);
    LoadOfChain(s, member, 1, st);
    LoadKeeps(s, member, Group(1), 1, st);
  }

  // Loading either relation walks its own rows first and then finds the tenth group walked.
  lemma BanLoad(s: Snapshot, member: Option<EntityRef>, verb: string)
    requires BanLayout(s) && (verb == "enter" || verb == "sign")
    ensures var st := LoadRoot(s, member, Root(verb));
            && Faithful(s.graph, st) && "doc" in st.reached && Group(11) !in st.local && Group(10) in st.local
            && Root(verb) in st.local && Node(DOC, "banned") in st.local
  {
    var root, banned := Root(verb), Node(DOC, "banned");
    var st := Enter(s.graph, root, LoadNamespace(s.graph, "doc", NOTHING_LOADED));
    OwnLoadIsCut(s, member, root);
    OwnRowsLoad(s, member, root, st);
    CombinedLoad(s, member, root, st, OwnLoad(s, member, root));
    assert LoadRoot(s, member, root) == Load(s, member, banned, 0, OwnLoad(s, member, root));
    BannedLoad(s, member, OwnLoad(s, member, root));
    LoadKeeps(s, member, banned, 0, OwnLoad(s, member, root));
  }

  lemma OwnRowsLoad(s: Snapshot, member: Option<EntityRef>, root: Node, st: Loading)
    requires BanLayout(s) && (root == Root("enter") || root == Root("sign"))
    ensures LoadRewrite(s, member, root, This, 0, st) == Load(s, member, Group(1), 1, Consult(member, st))
  {
    var subjects := SubjectsOf(s.graph.tuples, root);
    assert subjects[0] == Direct(USER) && subjects[1..] == [InGroup(1)];
    LoadStep(s, member, 1, 0, st);
  }

  lemma CombinedLoad(s: Snapshot, member: Option<EntityRef>, root: Node, st: Loading, st': Loading)
    requires Ranked(s.graph.namespaces) && Combines(RewriteOf(s.graph, root))
    requires LoadRewrite(s, member, root, This, 0, st) == st'
    ensures Below(s.graph.namespaces, root, RewriteOf(s.graph, root))
    ensures LoadRewrite(s, member, root, RewriteOf(s.graph, root), 0, st)
         == Load(s, member, Node(root.entity, "banned"), 0, st')
  {
    RewriteIsBelow(s.graph, root);
    var cs := [This, Computed("banned")];
    assert cs[1] in cs && cs[1..] == [Computed("banned")] && cs[1..][1..] == [];
    if RewriteOf(s.graph, root).Intersection? {
      var last := LoadRewrite(s, member, root, Computed("banned"), 0, st');
      assert LoadAll(s, member, root, [], 0, last) == last;
      assert LoadAll(s, member, root, cs[1..], 0, st') == last;
    }
  }

  lemma BannedLoad(s: Snapshot, member: Option<EntityRef>, st: Loading)
    requires BanLayout(s) && Faithful(s.graph, st) && Group(10) in st.walked && Group(11) !in st.local
    requires Node(DOC, "banned") !in st.walked
    ensures var st' := Load(s, member, Node(DOC, "banned"), 0, st);
            Group(11) !in st'.local && Node(DOC, "banned") in st'.local
  {
    var banned := Node(DOC, "banned");
    LoadStep(s, member, 10, 0, Enter(s.graph, banned, st));
  }

  // On the loaded rows nobody is banned.
  lemma LoadedOperands(s: Snapshot, loaded: Snapshot, root: Node)
    requires BanLayout(s) && (root == Root("enter") || root == Root("sign"))
    requires Ranked(loaded.graph.namespaces) && loaded.memberships.None? && BanRules(loaded.graph)
    requires SubjectsOf(loaded.graph.tuples, root) == SubjectsOf(s.graph.tuples, root)
    requires SubjectsOf(loaded.graph.tuples, Node(DOC, "banned")) == [InGroup(10)]
    requires TenthGroupIsEmpty(loaded)
    ensures Grants(DeriveRewrite(loaded, root, This, USER, 0, {}))
    ensures Denies(DeriveRewrite(loaded, root, Computed("banned"), USER, 0, {}))
  {
    var banned := Node(DOC, "banned");
    assert Direct(USER) in SubjectsOf(loaded.graph.tuples, root);
    EnterRoot(loaded, banned);
    assert [InGroup(10)] == [InGroup(10)] + [];
    GroupStep(loaded, banned, 10, [], 0, {banned});
    TenthGroupDenies(loaded, {banned});
  }

  ghost predicate TenthGroupIsEmpty(loaded: Snapshot) {
    && SubjectsOf(loaded.graph.tuples, Group(10)) == [InGroup(11)]
    && SubjectsOf(loaded.graph.tuples, Group(11)) == []
    && forall i: nat :: RewriteOf(loaded.graph, Group(i)) == This
  }

  lemma TenthGroupDenies(loaded: Snapshot, visited: set<Node>)
    requires Ranked(loaded.graph.namespaces) && loaded.memberships.None? && TenthGroupIsEmpty(loaded)
    ensures Denies(Derive(loaded, Group(10), USER, 1, visited))
  {
    assert [InGroup(11)] == [InGroup(11)] + [];
    GroupStep(loaded, Group(10), 11, [], 1, visited + {Group(10)});
    assert DeriveUsersets(loaded, Group(11), [], USER, 2, visited + {Group(10)} + {Group(11)}).grant.None?;
  }

  // The loaded snapshot grants the guest, who is banned, and denies the signer, who is one.
  lemma LoadedWalk(s: Snapshot, member: Option<EntityRef>, verb: string)
    requires BanLayout(s) && (verb == "enter" || verb == "sign")
    ensures var loaded := LoadedSnapshot(s, LoadRoot(s, member, Root(verb)));
            && Ranked(loaded.graph.namespaces) && BanRules(loaded.graph) && OneOrg(loaded)
            && var w := Derive(loaded, Root(verb), USER, 0, {});
               if verb == "enter" then w.grant.Some? else Denies(w)
  {
    BanNames();
    BanLoad(s, member, verb);
    var st := LoadRoot(s, member, Root(verb));
    LoadedIsRanked(s, st);
    var loaded := LoadedSnapshot(s, st);
    assert forall n: Node | n.entity == DOC :: RewriteOf(loaded.graph, n) == RewriteOf(s.graph, n);
    forall i: nat ensures RewriteOf(loaded.graph, Group(i)) == This { assert RewriteOf(s.graph, Group(i)) == This; }
    LoadedOperands(s, loaded, Root(verb));
    CombinedWalk(loaded, Root(verb));
  }

  lemma LoadedBans(s: Snapshot, verb: string)
    requires BanLayout(s) && (verb == "enter" || verb == "sign")
    ensures var d := Evaluate(Asking(verb), Checked(s, Asking(verb)));
            if verb == "enter" then d.effect == Permit else d == DenyWith([DefaultDeny])
  {
    BanNames();
    LoadOfOneRelation(s, verb, Root(verb).relation);
    LoadedWalk(s, Some(USER), verb);
    OneAttempt(Checked(s, Asking(verb)), verb, Root(verb).relation);
  }

  // A cut load can open access: the stored facts deny, unmarked, and the loaded ones permit.
  lemma CutLoadGainsPermit()
    ensures Ranked(BAN_GRAPH.namespaces)
    ensures Evaluate(Asking("enter"), BANS) == DenyWith([DefaultDeny])
    ensures Evaluate(Asking("enter"), Checked(BANS, Asking("enter"))).effect == Permit
  {
    BansLayout();
    StoredBans(BANS);
    LoadedBans(BANS, "enter");
  }

  // A cut load can hide a member without a mark, exclusions or not.
  lemma CutLoadHidesMember()
    ensures Ranked(BAN_GRAPH.namespaces)
    ensures Evaluate(Asking("sign"), BANS).effect == Permit
    ensures Evaluate(Asking("sign"), Checked(BANS, Asking("sign"))) == DenyWith([DefaultDeny])
  {
    BansLayout();
    StoredBans(BANS);
    LoadedBans(BANS, "sign");
  }

  // ----- The same for expand -----

  ghost predicate BanRewritesOnly(g: Graph) {
    forall n: Node :: RewriteOf(g, n) == This || Combines(RewriteOf(g, n))
  }

  lemma BansAreNonEmpty(g: Graph)
    requires BanRewritesOnly(g)
    ensures NonEmptyGraph(g)
  {
    forall n: Node ensures NonEmpty(RewriteOf(g, n)) {
      assert RewriteOf(g, n) == This || Combines(RewriteOf(g, n));
    }
  }

  lemma BanRewritesAreThese()
    ensures BanRewritesOnly(BAN_GRAPH)
  {
    BanNames();
  }

  lemma StoredWalk(s: Snapshot, verb: string)
    requires BanLayout(s) && (verb == "enter" || verb == "sign")
    ensures var w := Derive(s, Root(verb), USER, 0, {}); if verb == "enter" then Denies(w) else w.grant.Some?
  {
    BanNames();
    StoredOperandsGrant(s, Root(verb));
    CombinedWalk(s, Root(verb));
  }

  lemma CutLoadExpands(s: Snapshot, verb: string)
    requires BanLayout(s) && BanRewritesOnly(s.graph) && (verb == "enter" || verb == "sign")
    ensures var loaded := LoadedSnapshot(s, LoadForExpand(s, Root(verb)));
            && Ranked(loaded.graph.namespaces)
            && (USER in Expand(s, "org", Root(verb)) <==> verb == "sign")
            && (USER in Expand(loaded, "org", Root(verb)) <==> verb == "enter")
  {
    BanNames();
    var loaded := LoadedSnapshot(s, LoadForExpand(s, Root(verb)));
    StoredWalk(s, verb);
    LoadedWalk(s, None, verb);
    assert LoadForExpand(s, Root(verb)) == LoadRoot(s, None, Root(verb));
    LoadedRewritesOnly(s, Root(verb));
    BansAreNonEmpty(s.graph);
    BansAreNonEmpty(loaded.graph);
    CheckAgreesWithExpand(s, Root(verb), USER);
    CheckAgreesWithExpand(loaded, Root(verb), USER);
  }

  lemma LoadedRewritesOnly(s: Snapshot, n: Node)
    requires Ranked(s.graph.namespaces) && BanRewritesOnly(s.graph) && IndexOff(s)
    ensures BanRewritesOnly(LoadedSnapshot(s, LoadForExpand(s, n)).graph)
  {
    var loaded := LoadedSnapshot(s, LoadForExpand(s, n));
    NobodyPrunes(s, n);
    forall m: Node ensures RewriteOf(loaded.graph, m) == This || Combines(RewriteOf(loaded.graph, m)) {
      assert RewriteOf(s.graph, m) == This || Combines(RewriteOf(s.graph, m));
    }
  }

  // Below an exclusion a cut load can list a banned user; below an intersection it can leave a
  // member out.
  lemma CutLoadExpandsWrongly()
    ensures Ranked(BAN_GRAPH.namespaces)
    ensures var guests := LoadedSnapshot(BANS, LoadForExpand(BANS, Root("enter")));
            && Ranked(guests.graph.namespaces)
            && USER !in Expand(BANS, "org", Root("enter")) && USER in Expand(guests, "org", Root("enter"))
    ensures var signers := LoadedSnapshot(BANS, LoadForExpand(BANS, Root("sign")));
            && Ranked(signers.graph.namespaces)
            && USER in Expand(BANS, "org", Root("sign")) && USER !in Expand(signers, "org", Root("sign"))
  {
    BanNames();
    BansLayout();
    BanRewritesAreThese();
    CutLoadExpands(BANS, "enter");
    CutLoadExpands(BANS, "sign");
  }
}
