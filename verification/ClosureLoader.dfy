/** The closure loader in its own form: one object per query, sharing a transaction's read caches. */
module ClosureLoader {
  import opened Prelude
  import opened Refs
  import opened Usersets
  import opened Snapshots
  import opened Walks
  import Loading

  // Rows and namespaces already read in this transaction, shared by the queries of a batch.
  class EvaluationContext {
    var namespaces: map<string, Option<NamespaceDefinition>>
    var tuples: map<Node, seq<Subject>>

    constructor ()
      ensures namespaces == map[] && tuples == map[]
    {
      namespaces, tuples := map[], map[];
    }

    // The caches repeat what the transaction's snapshot holds.
    ghost predicate Caches(g: Graph)
      reads this
    {
      && (forall k | k in namespaces ::
            namespaces[k] == if k in g.namespaces then Some(g.namespaces[k]) else None)
      && (forall n | n in tuples :: tuples[n] == SubjectsOf(g.tuples, n))
    }
  }

  class Loader {
    const stored: Snapshot
    const member: Option<EntityRef>
    const context: EvaluationContext
    var local: map<Node, seq<Subject>>
    var walked: set<Node>
    var reached: map<string, NamespaceDefinition>
    var consulted: bool
    ghost var cut: bool
    ghost var pruned: bool

    constructor (stored: Snapshot, member: Option<EntityRef>, context: EvaluationContext)
      requires Ranked(stored.graph.namespaces) && context.Caches(stored.graph)
      ensures this.stored == stored && this.member == member && this.context == context
      ensures Valid() && State() == Loading.NOTHING_LOADED
    {
      this.stored, this.member, this.context := stored, member, context;
      local, walked, reached, consulted, cut, pruned := map[], {}, map[], false, false, false;
    }

    ghost function State(): Loading.Loading
      reads this
    {
      Loading.Loading(local, walked, reached, consulted, cut, pruned)
    }

    ghost predicate Valid()
      reads this, context
    {
      Ranked(stored.graph.namespaces) && Loading.Faithful(stored.graph, State()) && context.Caches(stored.graph)
    }

    method IndexedGrant(set_: Node, depth: nat) returns (granted: bool)
      requires Valid() && depth >= 1
      modifies this`consulted
      ensures Valid()
      ensures granted == (member.Some? && IndexGrants(stored, set_, member.value, depth - 1))
      ensures State() == Loading.Consult(member, old(State()))
    {
      if member.None? { return false; }
      consulted := true;
      var indexed := DepthOf(stored.memberships, set_, member.value);
      return indexed.Some? && depth + indexed.value <= MAX_USERSET_DEPTH;
    }

    method NamespaceOf(kind: string) returns (namespace: Option<NamespaceDefinition>)
      requires Valid()
      modifies this`reached, context
      ensures Valid() && State() == Loading.LoadNamespace(stored.graph, kind, old(State()))
      ensures namespace == if kind in stored.graph.namespaces then Some(stored.graph.namespaces[kind]) else None
    {
      if kind in context.namespaces {
        namespace := context.namespaces[kind];
      } else {
        namespace := if kind in stored.graph.namespaces then Some(stored.graph.namespaces[kind]) else None;
        context.namespaces := context.namespaces[kind := namespace];
      }
      if namespace.Some? {
        reached := reached[kind := namespace.value];
      }
    }

    method RowsOf(n: Node) returns (rows: seq<Subject>)
      requires Valid()
      modifies this`local, context
      ensures Valid() && State() == Loading.LoadRows(stored.graph, n, old(State()))
      ensures rows == SubjectsOf(stored.graph.tuples, n)
    {
      if n in local {
        assert local == local[n := SubjectsOf(stored.graph.tuples, n)];
        return local[n];
      }
      if n in context.tuples {
        rows := context.tuples[n];
      } else {
        rows := SubjectsOf(stored.graph.tuples, n);
        context.tuples := context.tuples[n := rows];
      }
      local := local[n := rows];
    }

    method WalkRewrite(n: Node, rewrite: Userset, rows: seq<Subject>, depth: nat)
      requires Valid() && Below(stored.graph.namespaces, n, rewrite) && depth <= MAX_USERSET_DEPTH
      requires rows == SubjectsOf(stored.graph.tuples, n)
      modifies this, context
      ensures Valid() && State() == Loading.LoadRewrite(stored, member, n, rewrite, depth, old(State()))
      decreases Fuel(depth), NodeRank(stored.graph.namespaces, n), 1, rewrite
    {
      match rewrite
      case This => WalkUsersets(rows, depth);
      case Computed(r) => Walk(Node(n.entity, r), depth);
      case TupleToUserset(tupleset, computed) =>
        var subjects := RowsOf(Node(n.entity, tupleset));
        WalkParents(subjects, computed, depth);
      case Union(children) => WalkChildren(n, children, rows, depth);
      case Intersection(children) => WalkChildren(n, children, rows, depth);
      case Exclusion(base, subtract) =>
        WalkRewrite(n, base, rows, depth);
        WalkRewrite(n, subtract, rows, depth);
    }

    method WalkUsersets(rows: seq<Subject>, depth: nat)
      requires Valid() && depth <= MAX_USERSET_DEPTH
      modifies this, context
      ensures Valid() && State() == Loading.LoadUsersets(stored, member, rows, depth, old(State()))
      decreases Fuel(depth), 0, 0
    {
      ghost var whole := Loading.LoadUsersets(stored, member, rows, depth, State());
      for i := 0 to |rows|
        invariant Valid() && whole == Loading.LoadUsersets(stored, member, rows[i..], depth, State())
      {
        assert rows[i..][1..] == rows[i + 1..];
        if rows[i].UsersetOf? {
          var granted := IndexedGrant(NodeOf(rows[i]), depth + 1);
          if granted { pruned := true; } else { Walk(NodeOf(rows[i]), depth + 1); }
        }
      }
    }

    method WalkParents(rows: seq<Subject>, computed: string, depth: nat)
      requires Valid() && depth <= MAX_USERSET_DEPTH
      modifies this, context
      ensures Valid() && State() == Loading.LoadParents(stored, member, rows, computed, depth, old(State()))
      decreases Fuel(depth), 0, 0
    {
      ghost var whole := Loading.LoadParents(stored, member, rows, computed, depth, State());
      for i := 0 to |rows|
        invariant Valid() && whole == Loading.LoadParents(stored, member, rows[i..], computed, depth, State())
      {
        assert rows[i..][1..] == rows[i + 1..];
        if rows[i].Direct? { Walk(Node(rows[i].ref, computed), depth + 1); }
      }
    }

    method WalkChildren(n: Node, children: seq<Userset>, rows: seq<Subject>, depth: nat)
      requires Valid() && depth <= MAX_USERSET_DEPTH && rows == SubjectsOf(stored.graph.tuples, n)
      requires forall c | c in children :: Below(stored.graph.namespaces, n, c)
      modifies this, context
      ensures Valid() && State() == Loading.LoadAll(stored, member, n, children, depth, old(State()))
      decreases Fuel(depth), NodeRank(stored.graph.namespaces, n), 1, children
    {
      ghost var whole := Loading.LoadAll(stored, member, n, children, depth, State());
      for i := 0 to |children|
        invariant Valid() && whole == Loading.LoadAll(stored, member, n, children[i..], depth, State())
      {
        assert children[i..][1..] == children[i + 1..];
        WalkRewrite(n, children[i], rows, depth);
      }
    }

    method Walk(n: Node, depth: nat)
      requires Valid()
      modifies this, context
      ensures Valid() && State() == Loading.Load(stored, member, n, depth, old(State()))
      decreases Fuel(depth), NodeRank(stored.graph.namespaces, n), 2
    {
      if n in walked || depth > MAX_USERSET_DEPTH {
        cut := cut || n !in walked;
        return;
      }
      walked := walked + {n};
      var rows := RowsOf(n);
      var namespace := NamespaceOf(n.entity.kind);
      var rewrite := if namespace.Some? then ConfigRewrite(namespace.value.config, n.relation) else This;
      RewriteIsBelow(stored.graph, n);
      WalkRewrite(n, rewrite, rows, depth);
    }

    // loadClosure: the snapshot is the loaded rows and namespaces, with the index view if consulted.
    method LoadClosure(resource: EntityRef, relations: seq<string>) returns (loaded: Snapshot)
      requires Valid() && State() == Loading.NOTHING_LOADED
      modifies this, context
      ensures Valid() && State() == Loading.LoadClosure(stored, member, resource, relations)
      ensures loaded == Loading.LoadedSnapshot(stored, State())
    {
      var _ := NamespaceOf(resource.kind);
      ghost var whole := Loading.LoadRelations(stored, member, resource, relations, State());
      for i := 0 to |relations|
        invariant Valid() && whole == Loading.LoadRelations(stored, member, resource, relations[i..], State())
      {
        assert relations[i..][1..] == relations[i + 1..];
        Walk(Node(resource, relations[i]), 0);
      }
      return Snapshot(stored.orgId, Graph(reached, local), if consulted then stored.memberships else None);
    }
  }
}
