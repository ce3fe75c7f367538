/** A chain of groups that meets the depth bound, and single steps of the walks over it. */
module GroupChain {
  import opened Prelude
  import opened Refs
  import opened Usersets
  import opened Snapshots
  import opened Walks
  import opened Decisions
  import opened Loading

  const USER := EntityRef("user", "u")
  const DOC := EntityRef("doc", "d")

  function Name(i: nat): (s: string)
    ensures |s| == i
  {
    if i == 0 then "" else Name(i - 1) + "x"
  }

  function Group(i: nat): Node { Node(EntityRef("group", Name(i)), "member") }

  function InGroup(i: nat): Subject { UsersetOf(EntityRef("group", Name(i)), "member") }

  // Groups 1 to 10 each hold the next one; 11 and 12 hold the user.
  function RowsOfGroup(i: nat): seq<Subject> {
    if i <= 10 then [InGroup(i + 1)] else [Direct(USER)]
  }

  const GROUPS := set i: nat | 1 <= i <= 12 :: Group(i)

  const MEMBERSHIPS: Buckets := map n | n in GROUPS :: RowsOfGroup(|n.entity.id|)

  function Asking(verb: string): Query { Query("org", USER, Action("doc", verb), DOC) }

  lemma GroupRows()
    ensures forall i: nat | 1 <= i <= 12 :: Group(i) in MEMBERSHIPS && MEMBERSHIPS[Group(i)] == RowsOfGroup(i)
    ensures forall n | n in MEMBERSHIPS :: n.entity.kind == "group"
    ensures forall n | n in MEMBERSHIPS && Direct(USER) in MEMBERSHIPS[n] :: n == Group(11) || n == Group(12)
    ensures DOC.kind != "group"
  {
    assert "doc"[0] != "group"[0];
    forall i: nat | 1 <= i <= 12 ensures Group(i) in MEMBERSHIPS && MEMBERSHIPS[Group(i)] == RowsOfGroup(i) {
      assert Group(i) in GROUPS;
    }
    forall n | n in MEMBERSHIPS && Direct(USER) in MEMBERSHIPS[n] ensures n == Group(11) || n == Group(12) {
      var i: nat :| 1 <= i <= 12 && n == Group(i);
      assert i > 10;
    }
  }

  // The groups from `first` on are stored as above, and are rewritten as themselves.
  ghost predicate Chain(g: Graph, first: nat) {
    && Ranked(g.namespaces)
    && (forall i: nat | first <= i <= 12 :: SubjectsOf(g.tuples, Group(i)) == RowsOfGroup(i))
    && forall i: nat :: RewriteOf(g, Group(i)) == This
  }

  // A walk that grants and was cut nowhere.
  predicate Grants(w: Walk) { w.grant.Some? && !w.truncated }

  // ----- One step of either walk -----

  lemma EnterRoot(s: Snapshot, n: Node)
    requires Ranked(s.graph.namespaces) && RewriteOf(s.graph, n) == This
    requires Direct(USER) !in SubjectsOf(s.graph.tuples, n)
    ensures Derive(s, n, USER, 0, {}) == DeriveUsersets(s, n, SubjectsOf(s.graph.tuples, n), USER, 0, {n})
  {
    assert {} + {n} == {n};
  }

  lemma UsersetStep(s: Snapshot, n: Node, sub: Subject, rest: seq<Subject>, depth: nat, visited: set<Node>)
    requires Ranked(s.graph.namespaces) && depth <= MAX_USERSET_DEPTH
    requires sub.UsersetOf? && !IndexGrants(s, NodeOf(sub), USER, depth)
    ensures var w := Derive(s, NodeOf(sub), USER, depth + 1, visited);
            var all := DeriveUsersets(s, n, [sub] + rest, USER, depth, visited);
            var others := DeriveUsersets(s, n, rest, USER, depth, w.visited);
            && all.grant.Some? == (w.grant.Some? || others.grant.Some?)
            && (w.grant.Some? ==> all.truncated == w.truncated)
            && (w.grant.None? ==> all.visited == others.visited && all.truncated == (w.truncated || others.truncated))
  {
    var subjects := [sub] + rest;
    assert subjects[0] == sub && subjects[1..] == rest;
  }

  // The same for a group, without an index.
  lemma GroupStep(s: Snapshot, n: Node, i: nat, rest: seq<Subject>, depth: nat, visited: set<Node>)
    requires Ranked(s.graph.namespaces) && depth <= MAX_USERSET_DEPTH && s.memberships.None?
    ensures var w := Derive(s, Group(i), USER, depth + 1, visited);
            var all := DeriveUsersets(s, n, [InGroup(i)] + rest, USER, depth, visited);
            var others := DeriveUsersets(s, n, rest, USER, depth, w.visited);
            && all.grant.Some? == (w.grant.Some? || others.grant.Some?)
            && (w.grant.Some? ==> all.truncated == w.truncated)
            && (w.grant.None? ==> all.visited == others.visited && all.truncated == (w.truncated || others.truncated))
  {
    assert NodeOf(InGroup(i)) == Group(i);
    UsersetStep(s, n, InGroup(i), rest, depth, visited);
  }

  lemma CollectStep(g: Graph, i: nat, rest: seq<Subject>, depth: nat, visited: set<Node>)
    requires Ranked(g.namespaces) && depth <= MAX_USERSET_DEPTH
    ensures var first := Collect(g, Group(i), depth + 1, visited);
            var others := CollectSubjects(g, rest, depth, first.visited);
            CollectSubjects(g, [InGroup(i)] + rest, depth, visited)
              == Gather(first.members + others.members, others.visited, first.excluded || others.excluded)
  {
    var subjects := [InGroup(i)] + rest;
    assert subjects[0] == InGroup(i) && subjects[1..] == rest && NodeOf(subjects[0]) == Group(i);
  }

  lemma LeafMembers(g: Graph, i: nat, depth: nat, visited: set<Node>)
    requires Chain(g, 11) && 11 <= i <= 12 && depth <= MAX_USERSET_DEPTH && Group(i) !in visited
    ensures Collect(g, Group(i), depth, visited) == Gather([Member(USER, depth)], visited + {Group(i)}, false)
  {
    var subjects := SubjectsOf(g.tuples, Group(i));
    assert subjects == [Direct(USER)] && subjects[1..] == [];
    assert CollectSubjects(g, subjects, depth, visited + {Group(i)}).members == [Member(USER, depth)] + [];
  }

  lemma LoadStep(s: Snapshot, member: Option<EntityRef>, i: nat, depth: nat, st: Loading)
    requires Ranked(s.graph.namespaces) && depth <= MAX_USERSET_DEPTH && s.memberships.None?
    ensures LoadUsersets(s, member, [InGroup(i)], depth, st)
         == Load(s, member, Group(i), depth + 1, Consult(member, st))
  {
    var subjects := [InGroup(i)];
    var next := Load(s, member, Group(i), depth + 1, Consult(member, st));
    assert subjects[0] == InGroup(i) && NodeOf(subjects[0]) == Group(i) && subjects[1..] == [];
    assert LoadUsersets(s, member, [], depth, next) == next;
  }

  // ----- The chain is walked to its tenth group and cut there -----

  lemma {:induction false} ChainIsCut(s: Snapshot, i: nat, visited: set<Node>)
    requires Chain(s.graph, 1) && s.memberships.None? && 1 <= i <= 10 && forall j | i <= j <= 10 :: Group(j) !in visited
    ensures var w := Derive(s, Group(i), USER, i, visited);
            && w.grant.None? && w.truncated && Group(10) in w.visited
            && forall n | n in w.visited :: n in visited || |n.entity.id| <= 10
    decreases 10 - i
  {
    assert SubjectsOf(s.graph.tuples, Group(i)) == [InGroup(i + 1)] + [];
    GroupStep(s, Group(i), i + 1, [], i, visited + {Group(i)});
    if i < 10 { ChainIsCut(s, i + 1, visited + {Group(i)}); }
  }

  // Within the bound the eleventh group grants, and so does the tenth.
  lemma TenthGroupGrants(s: Snapshot, depth: nat, visited: set<Node>)
    requires Chain(s.graph, 1) && s.memberships.None? && depth <= 9 && Group(10) !in visited && Group(11) !in visited
    ensures Grants(Derive(s, Group(10), USER, depth, visited))
  {
    assert SubjectsOf(s.graph.tuples, Group(10)) == [InGroup(11)] + [];
    GroupStep(s, Group(10), 11, [], depth, visited + {Group(10)});
  }

  // ----- Loading and collecting along the chain -----

  lemma {:induction false} LoadOfChain(s: Snapshot, member: Option<EntityRef>, i: nat, st: Loading)
    requires Chain(s.graph, 1) && s.memberships.None? && 1 <= i <= 10
    requires forall j: nat | i <= j <= 10 :: Group(j) !in st.walked
    requires forall j: nat | j >= 11 :: Group(j) !in st.local
    ensures var st' := Load(s, member, Group(i), i, st);
            && Group(10) in st'.walked && Group(10) in st'.local && (forall j: nat | j >= 11 :: Group(j) !in st'.local)
            && forall n | n in st'.walked && n !in st.walked :: n.entity.kind == "group"
    decreases 10 - i
  {
    var st1 := Enter(s.graph, Group(i), st);
    LoadStep(s, member, i + 1, i, st1);
    if i < 10 { LoadOfChain(s, member, i + 1, Consult(member, st1)); }
  }

  lemma {:induction false} CollectOfChain(s: Snapshot, i: nat, visited: set<Node>)
    requires Chain(s.graph, 1) && 1 <= i <= 10
    ensures forall n | n in Collect(s.graph, Group(i), i, visited).visited :: n in visited || |n.entity.id| <= 10
    decreases 10 - i
  {
    assert SubjectsOf(s.graph.tuples, Group(i)) == [InGroup(i + 1)] + [];
    CollectStep(s.graph, i + 1, [], i, visited + {Group(i)});
    if i < 10 { CollectOfChain(s, i + 1, visited + {Group(i)}); }
  }

  lemma LeastDepthsOfOne(m: Member)
    ensures LeastDepths([m]) == map[m.ref := m.depth]
  {
    assert [m][..0] == [];
    assert LeastDepths([]) == map[];
  }
}
