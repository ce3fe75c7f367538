/** The closure loader as a function, and what evaluating its snapshot yields. */
module Loading {
  import opened Prelude
  import opened Refs
  import opened Usersets
  import opened Snapshots
  import opened Walks

  // The loader's locals: tuple rows by node, walked nodes, namespaces reached and whether the
  // index was consulted; and, to state results, whether the depth bound was met and whether
  // the index spared a walk.
  datatype Loading = Loading(
    local: Buckets, walked: set<Node>, reached: Registry, consulted: bool, cut: bool, pruned: bool)

  const NOTHING_LOADED := Loading(map[], {}, map[], false, false, false)

  function LoadRows(g: Graph, n: Node, st: Loading): Loading {
    st.(local := st.local[n := SubjectsOf(g.tuples, n)])
  }

  function LoadNamespace(g: Graph, kind: string, st: Loading): Loading {
    if kind in g.namespaces then st.(reached := st.reached[kind := g.namespaces[kind]]) else st
  }

  // Marks a node as walked and reads its rows and its namespace.
  function Enter(g: Graph, n: Node, st: Loading): Loading {
    LoadNamespace(g, n.entity.kind, LoadRows(g, n, st.(walked := st.walked + {n})))
  }

  // Asking the index about a userset, which the loader does only for a given member.
  function Consult(member: Option<EntityRef>, st: Loading): Loading {
    if member.Some? then st.(consulted := true) else st
  }

  // `s` is everything stored for the organization, with the index entries of `member`.
  function Load(s: Snapshot, member: Option<EntityRef>, n: Node, depth: nat, st: Loading): Loading
    requires Ranked(s.graph.namespaces)
    decreases Fuel(depth), NodeRank(s.graph.namespaces, n), 2
  {
    if n in st.walked then st
    else if depth > MAX_USERSET_DEPTH then st.(cut := true)
    else
      RewriteIsBelow(s.graph, n);
      LoadRewrite(s, member, n, RewriteOf(s.graph, n), depth, Enter(s.graph, n, st))
  }

  function LoadRewrite(s: Snapshot, member: Option<EntityRef>, n: Node, u: Userset, depth: nat, st: Loading): Loading
    requires Ranked(s.graph.namespaces) && Below(s.graph.namespaces, n, u) && depth <= MAX_USERSET_DEPTH
    decreases Fuel(depth), NodeRank(s.graph.namespaces, n), 1, u
  {
    match u
    case This => LoadUsersets(s, member, SubjectsOf(s.graph.tuples, n), depth, st)
    case Computed(r) => Load(s, member, Node(n.entity, r), depth, st)
    case TupleToUserset(ts, c) =>
      var tn := Node(n.entity, ts);
      LoadParents(s, member, SubjectsOf(s.graph.tuples, tn), c, depth, LoadRows(s.graph, tn, st))
    case Union(cs) => LoadAll(s, member, n, cs, depth, st)
    case Intersection(cs) => LoadAll(s, member, n, cs, depth, st)
    case Exclusion(b, sub) => LoadRewrite(s, member, n, sub, depth, LoadRewrite(s, member, n, b, depth, st))
  }

  function LoadUsersets(s: Snapshot, member: Option<EntityRef>, subjects: seq<Subject>, depth: nat,
                        st: Loading): Loading
    requires Ranked(s.graph.namespaces) && depth <= MAX_USERSET_DEPTH
    decreases Fuel(depth), 0, 0, |subjects|
  {
    if subjects == [] then st
    else if subjects[0].Direct? then LoadUsersets(s, member, subjects[1..], depth, st)
    else
      var st' := Consult(member, st);
      var pruned := member.Some? && IndexGrants(s, NodeOf(subjects[0]), member.value, depth);
      var next :=
        if pruned then st'.(pruned := true) else Load(s, member, NodeOf(subjects[0]), depth + 1, st');
      LoadUsersets(s, member, subjects[1..], depth, next)
  }

  function LoadParents(s: Snapshot, member: Option<EntityRef>, subjects: seq<Subject>, computed: string, depth: nat,
                       st: Loading): Loading
    requires Ranked(s.graph.namespaces) && depth <= MAX_USERSET_DEPTH
    decreases Fuel(depth), 0, 0, |subjects|
  {
    if subjects == [] then st
    else
      var next := if subjects[0].Direct? then Load(s, member, Node(subjects[0].ref, computed), depth + 1, st) else st;
      LoadParents(s, member, subjects[1..], computed, depth, next)
  }

  function LoadAll(s: Snapshot, member: Option<EntityRef>, n: Node, cs: seq<Userset>, depth: nat, st: Loading): Loading
    requires Ranked(s.graph.namespaces) && depth <= MAX_USERSET_DEPTH
    requires forall c | c in cs :: Below(s.graph.namespaces, n, c)
    decreases Fuel(depth), NodeRank(s.graph.namespaces, n), 1, cs
  {
    if cs == [] then st
    else LoadAll(s, member, n, cs[1..], depth, LoadRewrite(s, member, n, cs[0], depth, st))
  }

  function LoadRelations(s: Snapshot, member: Option<EntityRef>, resource: EntityRef, relations: seq<string>,
                         st: Loading): Loading
    requires Ranked(s.graph.namespaces)
  {
    if relations == [] then st
    else LoadRelations(s, member, resource, relations[1..], Load(s, member, Node(resource, relations[0]), 0, st))
  }

  function LoadClosure(s: Snapshot, member: Option<EntityRef>, resource: EntityRef, relations: seq<string>): Loading
    requires Ranked(s.graph.namespaces)
  {
    LoadRelations(s, member, resource, relations, LoadNamespace(s.graph, resource.kind, NOTHING_LOADED))
  }

  // The index view is attached only if the walk asked for it.
  function LoadedSnapshot(s: Snapshot, st: Loading): Snapshot {
    Snapshot(s.orgId, Graph(st.reached, st.local), if st.consulted then s.memberships else None)
  }

  // ----- Everything walked is loaded -----

  // What was loaded is a part of what is stored.
  ghost predicate Faithful(g: Graph, st: Loading) {
    && (forall n | n in st.local :: st.local[n] == SubjectsOf(g.tuples, n))
    && (forall k | k in st.reached :: k in g.namespaces && st.reached[k] == g.namespaces[k])
  }

  ghost predicate Extends(st: Loading, st': Loading) {
    && st.local.Keys <= st'.local.Keys && st.walked <= st'.walked && st.reached.Keys <= st'.reached.Keys
    && (st.consulted ==> st'.consulted) && (st.cut ==> st'.cut) && (st.pruned ==> st'.pruned)
  }

  // Every node with loaded rows has its namespace reached.
  ghost predicate RowsReached(g: Graph, st: Loading) {
    forall n | n in st.local && n.entity.kind in g.namespaces :: n.entity.kind in st.reached
  }

  // The load went everywhere evaluation may go.
  ghost predicate Complete(st: Loading) { !st.cut && !st.pruned }

  // The rows that evaluating `u` at `n` may read are loaded.
  ghost predicate RowsLoaded(s: Snapshot, st: Loading, n: Node, u: Userset) {
    match u
    case This =>
      && n in st.local
      && (s.memberships.None? || st.consulted || forall sub | sub in SubjectsOf(s.graph.tuples, n) :: sub.Direct?)
    case Computed(_) => true
    case TupleToUserset(ts, _) => Node(n.entity, ts) in st.local
    case Union(cs) => forall c | c in cs :: RowsLoaded(s, st, n, c)
    case Intersection(cs) => forall c | c in cs :: RowsLoaded(s, st, n, c)
    case Exclusion(b, sub) => RowsLoaded(s, st, n, b) && RowsLoaded(s, st, n, sub)
  }

  // Every node that evaluating `u` at `n` may step to is walked.
  ghost predicate StepsWalked(s: Snapshot, st: Loading, n: Node, u: Userset) {
    match u
    case This => forall sub | sub in SubjectsOf(s.graph.tuples, n) && sub.UsersetOf? :: NodeOf(sub) in st.walked
    case Computed(r) => Node(n.entity, r) in st.walked
    case TupleToUserset(ts, c) =>
      forall sub | sub in SubjectsOf(s.graph.tuples, Node(n.entity, ts)) && sub.Direct? :: Node(sub.ref, c) in st.walked
    case Union(cs) => forall c | c in cs :: StepsWalked(s, st, n, c)
    case Intersection(cs) => forall c | c in cs :: StepsWalked(s, st, n, c)
    case Exclusion(b, sub) => StepsWalked(s, st, n, b) && StepsWalked(s, st, n, sub)
  }

  // The index is off: no entries, or nobody to look up.
  ghost predicate IndexOff(s: Snapshot) { s.memberships.None? }

  // Evaluating `u` at `n` reads only loaded data; after a complete load it also stays inside.
  ghost predicate Ready(s: Snapshot, st: Loading, n: Node, u: Userset) {
    RowsLoaded(s, st, n, u) && (Complete(st) ==> StepsWalked(s, st, n, u))
  }

  ghost predicate NodeReady(s: Snapshot, st: Loading, n: Node) {
    && (n.entity.kind in s.graph.namespaces ==> n.entity.kind in st.reached)
    && Ready(s, st, n, RewriteOf(s.graph, n))
  }

  // From `st` to `st'` only ready nodes were added.
  ghost predicate Adds(s: Snapshot, st: Loading, st': Loading) {
    && Faithful(s.graph, st') && Extends(st, st')
    && (RowsReached(s.graph, st) ==> RowsReached(s.graph, st'))
    && (IndexOff(s) ==> st'.pruned == st.pruned)
    && forall n | n in st'.walked && n !in st.walked :: NodeReady(s, st', n)
  }

  lemma {:induction false} ReadyStays(s: Snapshot, st: Loading, st': Loading, n: Node, u: Userset)
    requires Ready(s, st, n, u) && Extends(st, st')
    ensures Ready(s, st', n, u)
  {
    match u
    case Union(cs) => ReadyStaysForAll(s, st, st', n, cs);
    case Intersection(cs) => ReadyStaysForAll(s, st, st', n, cs);
    case Exclusion(b, sub) =>
      ReadyStays(s, st, st', n, b);
      ReadyStays(s, st, st', n, sub);
    case _ =>
  }

  lemma {:induction false} ReadyStaysForAll(s: Snapshot, st: Loading, st': Loading, n: Node, cs: seq<Userset>)
    requires Extends(st, st') && forall c | c in cs :: Ready(s, st, n, c)
    ensures forall c | c in cs :: Ready(s, st', n, c)
  {
    forall c | c in cs ensures Ready(s, st', n, c) { ReadyStays(s, st, st', n, c); }
  }

  lemma AddsJoin(s: Snapshot, st0: Loading, st1: Loading, st2: Loading)
    requires Adds(s, st0, st1) && Adds(s, st1, st2)
    ensures Adds(s, st0, st2)
  {
    forall n | n in st2.walked && n !in st0.walked ensures NodeReady(s, st2, n) {
      if n in st1.walked { ReadyStays(s, st1, st2, n, RewriteOf(s.graph, n)); }
    }
  }

  lemma EnterIsFaithful(g: Graph, n: Node, st: Loading)
    requires Faithful(g, st)
    ensures var st' := Enter(g, n, st);
            && Faithful(g, st') && Extends(st, st') && n in st'.local && st'.walked == st.walked + {n}
            && (n.entity.kind in g.namespaces ==> n.entity.kind in st'.reached)
            && (RowsReached(g, st) ==> RowsReached(g, st')) && st'.pruned == st.pruned
  {
  }

  lemma EnteredAdds(s: Snapshot, n: Node, st: Loading, st': Loading)
    requires Faithful(s.graph, st) && Adds(s, Enter(s.graph, n, st), st') && Ready(s, st', n, RewriteOf(s.graph, n))
    ensures Adds(s, st, st') && n in st'.walked
  {
    EnterIsFaithful(s.graph, n, st);
    forall m | m in st'.walked && m !in st.walked ensures NodeReady(s, st', m) {
      if m != n { assert m !in Enter(s.graph, n, st).walked; }
    }
  }

  lemma {:induction false} LoadAdds(s: Snapshot, member: Option<EntityRef>, n: Node, depth: nat, st: Loading)
    requires Ranked(s.graph.namespaces) && Faithful(s.graph, st) && (member.None? ==> IndexOff(s))
    ensures var st' := Load(s, member, n, depth, st);
            Adds(s, st, st') && (!st'.cut ==> n in st'.walked)
    decreases Fuel(depth), NodeRank(s.graph.namespaces, n), 2
  {
    if n !in st.walked && depth <= MAX_USERSET_DEPTH {
      RewriteIsBelow(s.graph, n);
      var st1 := Enter(s.graph, n, st);
      EnterIsFaithful(s.graph, n, st);
      LoadRewriteAdds(s, member, n, RewriteOf(s.graph, n), depth, st1);
      EnteredAdds(s, n, st, LoadRewrite(s, member, n, RewriteOf(s.graph, n), depth, st1));
    }
  }

  lemma {:induction false} LoadRewriteAdds(s: Snapshot, member: Option<EntityRef>, n: Node, u: Userset, depth: nat,
                                           st: Loading)
    requires Ranked(s.graph.namespaces) && Below(s.graph.namespaces, n, u) && depth <= MAX_USERSET_DEPTH
    requires Faithful(s.graph, st) && (member.None? ==> IndexOff(s)) && n in st.local
    ensures var st' := LoadRewrite(s, member, n, u, depth, st);
            Adds(s, st, st') && Ready(s, st', n, u)
    decreases Fuel(depth), NodeRank(s.graph.namespaces, n), 1, u
  {
    match u
    case This => LoadUsersetsAdds(s, member, SubjectsOf(s.graph.tuples, n), depth, st);
    case Computed(r) => LoadAdds(s, member, Node(n.entity, r), depth, st);
    case TupleToUserset(ts, c) => LoadTuplesetAdds(s, member, n, ts, c, depth, st);
    case Union(cs) => LoadAllAdds(s, member, n, cs, depth, st);
    case Intersection(cs) => LoadAllAdds(s, member, n, cs, depth, st);
    case Exclusion(b, sub) => LoadExclusionAdds(s, member, n, b, sub, depth, st);
  }

  lemma {:induction false} LoadExclusionAdds(s: Snapshot, member: Option<EntityRef>, n: Node, b: Userset, sub: Userset,
                                             depth: nat, st: Loading)
    requires Ranked(s.graph.namespaces) && depth <= MAX_USERSET_DEPTH
    requires Below(s.graph.namespaces, n, b) && Below(s.graph.namespaces, n, sub)
    requires Faithful(s.graph, st) && (member.None? ==> IndexOff(s)) && n in st.local
    ensures var st' := LoadRewrite(s, member, n, Exclusion(b, sub), depth, st);
            Adds(s, st, st') && Ready(s, st', n, Exclusion(b, sub))
    decreases Fuel(depth), NodeRank(s.graph.namespaces, n), 1, Exclusion(b, sub), 0
  {
    LoadRewriteAdds(s, member, n, b, depth, st);
    var st1 := LoadRewrite(s, member, n, b, depth, st);
    LoadRewriteAdds(s, member, n, sub, depth, st1);
    var st2 := LoadRewrite(s, member, n, sub, depth, st1);
    BothReady(s, st, st1, st2, n, b);
  }

  lemma {:induction false} LoadTuplesetAdds(s: Snapshot, member: Option<EntityRef>, n: Node, tupleset: string,
                                            computed: string, depth: nat, st: Loading)
    requires Ranked(s.graph.namespaces) && depth <= MAX_USERSET_DEPTH
    requires Faithful(s.graph, st) && (member.None? ==> IndexOff(s)) && n in st.local
    ensures var st' := LoadRewrite(s, member, n, TupleToUserset(tupleset, computed), depth, st);
            Adds(s, st, st') && Ready(s, st', n, TupleToUserset(tupleset, computed))
    decreases Fuel(depth), NodeRank(s.graph.namespaces, n), 0
  {
    var tn := Node(n.entity, tupleset);
    var subjects := SubjectsOf(s.graph.tuples, tn);
    var st1 := LoadRows(s.graph, tn, st);
    RowsAdd(s, n, tn, st);
    LoadParentsAdds(s, member, subjects, computed, depth, st1);
    AddsJoin(s, st, st1, LoadParents(s, member, subjects, computed, depth, st1));
  }

  lemma BothReady(s: Snapshot, st0: Loading, st1: Loading, st2: Loading, n: Node, u: Userset)
    requires Adds(s, st0, st1) && Adds(s, st1, st2) && Ready(s, st1, n, u)
    ensures Adds(s, st0, st2) && Ready(s, st2, n, u)
  {
    AddsJoin(s, st0, st1, st2);
    ReadyStays(s, st1, st2, n, u);
  }

  // Reading a tupleset of an object whose rows are already loaded.
  lemma RowsAdd(s: Snapshot, n: Node, tn: Node, st: Loading)
    requires Faithful(s.graph, st) && n in st.local && tn.entity == n.entity
    ensures Adds(s, st, LoadRows(s.graph, tn, st))
  {
  }

  lemma {:induction false} LoadUsersetsAdds(s: Snapshot, member: Option<EntityRef>, subjects: seq<Subject>, depth: nat,
                                            st: Loading)
    requires Ranked(s.graph.namespaces) && depth <= MAX_USERSET_DEPTH
    requires Faithful(s.graph, st) && (member.None? ==> IndexOff(s))
    ensures var st' := LoadUsersets(s, member, subjects, depth, st);
            Adds(s, st, st') && UsersetsReady(s, st', subjects)
    decreases Fuel(depth), 0, 0, |subjects|
  {
    if subjects != [] {
      var rest := subjects[1..];
      if subjects[0].Direct? {
        LoadUsersetsAdds(s, member, rest, depth, st);
        MoreUsersetsReady(s, st, LoadUsersets(s, member, rest, depth, st), subjects);
      } else {
        var st2 := AfterUserset(s, member, subjects[0], depth, st);
        OneUsersetAdds(s, member, subjects[0], depth, st);
        LoadUsersetsAdds(s, member, rest, depth, st2);
        var st3 := LoadUsersets(s, member, rest, depth, st2);
        assert LoadUsersets(s, member, subjects, depth, st) == st3;
        AddsJoin(s, st, st2, st3);
        MoreUsersetsReady(s, st2, st3, subjects);
      }
    }
  }

  // The loader's step for one userset row.
  function AfterUserset(s: Snapshot, member: Option<EntityRef>, sub: Subject, depth: nat, st: Loading): Loading
    requires Ranked(s.graph.namespaces) && depth <= MAX_USERSET_DEPTH && sub.UsersetOf?
  {
    var st' := Consult(member, st);
    if member.Some? && IndexGrants(s, NodeOf(sub), member.value, depth) then st'.(pruned := true)
    else Load(s, member, NodeOf(sub), depth + 1, st')
  }

  lemma {:induction false} OneUsersetAdds(s: Snapshot, member: Option<EntityRef>, sub: Subject, depth: nat, st: Loading)
    requires Ranked(s.graph.namespaces) && depth <= MAX_USERSET_DEPTH && sub.UsersetOf?
    requires Faithful(s.graph, st) && (member.None? ==> IndexOff(s))
    ensures var st' := AfterUserset(s, member, sub, depth, st);
            && Adds(s, st, st') && (s.memberships.None? || st'.consulted)
            && (Complete(st') ==> NodeOf(sub) in st'.walked)
    decreases Fuel(depth), 0, 0, 0
  {
    var st1 := Consult(member, st);
    assert Adds(s, st, st1);
    if !(member.Some? && IndexGrants(s, NodeOf(sub), member.value, depth)) {
      LoadAdds(s, member, NodeOf(sub), depth + 1, st1);
      AddsJoin(s, st, st1, Load(s, member, NodeOf(sub), depth + 1, st1));
    }
  }

  // The index was consulted if there was reason to, and a complete load walked all usersets.
  ghost predicate UsersetsReady(s: Snapshot, st: Loading, subjects: seq<Subject>) {
    && (s.memberships.None? || st.consulted || forall sub | sub in subjects :: sub.Direct?)
    && (Complete(st) ==> forall sub | sub in subjects && sub.UsersetOf? :: NodeOf(sub) in st.walked)
  }

  lemma MoreUsersetsReady(s: Snapshot, st: Loading, st': Loading, subjects: seq<Subject>)
    requires subjects != [] && Extends(st, st') && UsersetsReady(s, st', subjects[1..])
    requires subjects[0].UsersetOf? ==>
               (s.memberships.None? || st.consulted) && (Complete(st) ==> NodeOf(subjects[0]) in st.walked)
    ensures UsersetsReady(s, st', subjects)
  {
    assert forall sub :: sub in subjects <==> sub == subjects[0] || sub in subjects[1..];
  }

  lemma {:induction false} LoadParentsAdds(s: Snapshot, member: Option<EntityRef>, subjects: seq<Subject>,
                                           computed: string, depth: nat, st: Loading)
    requires Ranked(s.graph.namespaces) && depth <= MAX_USERSET_DEPTH
    requires Faithful(s.graph, st) && (member.None? ==> IndexOff(s))
    ensures var st' := LoadParents(s, member, subjects, computed, depth, st);
            && Adds(s, st, st')
            && (!st'.cut ==> forall sub | sub in subjects && sub.Direct? :: Node(sub.ref, computed) in st'.walked)
    decreases Fuel(depth), 0, 0, |subjects|
  {
    if subjects != [] {
      var rest := subjects[1..];
      assert forall sub :: sub in subjects <==> sub == subjects[0] || sub in rest;
      if subjects[0].UsersetOf? {
        LoadParentsAdds(s, member, rest, computed, depth, st);
      } else {
        LoadAdds(s, member, Node(subjects[0].ref, computed), depth + 1, st);
        var st1 := Load(s, member, Node(subjects[0].ref, computed), depth + 1, st);
        LoadParentsAdds(s, member, rest, computed, depth, st1);
        AddsJoin(s, st, st1, LoadParents(s, member, rest, computed, depth, st1));
      }
    }
  }

  lemma {:induction false} LoadAllAdds(s: Snapshot, member: Option<EntityRef>, n: Node, cs: seq<Userset>, depth: nat,
                                       st: Loading)
    requires Ranked(s.graph.namespaces) && depth <= MAX_USERSET_DEPTH
    requires forall c | c in cs :: Below(s.graph.namespaces, n, c)
    requires Faithful(s.graph, st) && (member.None? ==> IndexOff(s)) && n in st.local
    ensures var st' := LoadAll(s, member, n, cs, depth, st);
            Adds(s, st, st') && forall c | c in cs :: Ready(s, st', n, c)
    decreases Fuel(depth), NodeRank(s.graph.namespaces, n), 1, cs
  {
    if cs != [] {
      assert forall c :: c in cs <==> c == cs[0] || c in cs[1..];
      LoadRewriteAdds(s, member, n, cs[0], depth, st);
      var st1 := LoadRewrite(s, member, n, cs[0], depth, st);
      LoadAllAdds(s, member, n, cs[1..], depth, st1);
      var st2 := LoadAll(s, member, n, cs[1..], depth, st1);
      AddsJoin(s, st, st1, st2);
      ReadyStays(s, st1, st2, n, cs[0]);
    }
  }

  // ----- What the walks beside the loader need of the above -----

  ghost predicate Keeps(s: Snapshot, st: Loading, st': Loading) { Faithful(s.graph, st') && Extends(st, st') }

  lemma LoadKeeps(s: Snapshot, member: Option<EntityRef>, n: Node, depth: nat, st: Loading)
    requires Ranked(s.graph.namespaces) && Faithful(s.graph, st) && (member.None? ==> IndexOff(s))
    ensures Keeps(s, st, Load(s, member, n, depth, st))
  {
    LoadAdds(s, member, n, depth, st);
  }

  lemma LoadUsersetsKeeps(s: Snapshot, member: Option<EntityRef>, subjects: seq<Subject>, depth: nat, st: Loading)
    requires Ranked(s.graph.namespaces) && depth <= MAX_USERSET_DEPTH
    requires Faithful(s.graph, st) && (member.None? ==> IndexOff(s))
    ensures Keeps(s, st, LoadUsersets(s, member, subjects, depth, st))
  {
    LoadUsersetsAdds(s, member, subjects, depth, st);
  }

  lemma LoadParentsKeeps(s: Snapshot, member: Option<EntityRef>, subjects: seq<Subject>, computed: string, depth: nat,
                         st: Loading)
    requires Ranked(s.graph.namespaces) && depth <= MAX_USERSET_DEPTH
    requires Faithful(s.graph, st) && (member.None? ==> IndexOff(s))
    ensures Keeps(s, st, LoadParents(s, member, subjects, computed, depth, st))
  {
    LoadParentsAdds(s, member, subjects, computed, depth, st);
  }

  lemma LoadRewriteKeeps(s: Snapshot, member: Option<EntityRef>, n: Node, u: Userset, depth: nat, st: Loading)
    requires Ranked(s.graph.namespaces) && Below(s.graph.namespaces, n, u) && depth <= MAX_USERSET_DEPTH
    requires Faithful(s.graph, st) && (member.None? ==> IndexOff(s)) && n in st.local
    ensures Keeps(s, st, LoadRewrite(s, member, n, u, depth, st))
  {
    LoadRewriteAdds(s, member, n, u, depth, st);
  }

  lemma LoadAllKeeps(s: Snapshot, member: Option<EntityRef>, n: Node, cs: seq<Userset>, depth: nat, st: Loading)
    requires Ranked(s.graph.namespaces) && depth <= MAX_USERSET_DEPTH
    requires forall c | c in cs :: Below(s.graph.namespaces, n, c)
    requires Faithful(s.graph, st) && (member.None? ==> IndexOff(s)) && n in st.local
    ensures Keeps(s, st, LoadAll(s, member, n, cs, depth, st))
  {
    LoadAllAdds(s, member, n, cs, depth, st);
  }
}
