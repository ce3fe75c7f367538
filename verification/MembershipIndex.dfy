/**
 The membership indexer beside writers and readers. Writers, and any number of indexers that
 read at the default isolation level (each read sees the latest commit), interleave freely.
 */
module MembershipIndex {
  import opened Prelude
  import opened Refs
  import opened Snapshots
  import opened Walks
  import opened Derivations
  import opened Transparency
  import opened Decisions
  import opened Semantics
  import opened LoadedChecks
  import opened Store

  datatype SetRow = SetRow(members: map<EntityRef, nat>, validAt: nat)

  type OrgIndex = map<Node, SetRow>

  // Where one indexer transaction stands, with what it has read.
  datatype Indexer =
    | Idle
    | Started(cursor: nat)
    | Locked(cursor: nat)
    | KnowsHigh(cursor: nat, high: nat)
    | KnowsChanges(cursor: nat, upTo: nat, orgs: set<string>)
    | Working(upTo: nat, todo: set<string>, written: map<string, OrgIndex>)
    | KnowsTuples(upTo: nat, todo: set<string>, written: map<string, OrgIndex>, org: string, tuples: set<TupleKey>)
    | KnowsNamespaces(upTo: nat, todo: set<string>, written: map<string, OrgIndex>, org: string,
                      tuples: set<TupleKey>, namespaces: Registry)

  datatype Options = Options(changePageSize: nat, maxTuplesPerOrg: nat)

  datatype System = System(
    options: Options, writers: Writers, index: map<string, OrgIndex>, cursor: nat,
    lock: Option<nat>, indexers: map<nat, Indexer>)

  datatype Step =
    | Write(step: WriterStep)
    | ReadCursor(i: nat) | TryLock(i: nat) | ReadHigh(i: nat) | ReadChanges(i: nat) | ReadNamespaceChanges(i: nat)
    | ReadTuples(i: nat, org: string) | ReadNamespaces(i: nat) | Flatten(i: nat, g: Graph)
    | CommitIndex(i: nat) | AbortIndex(i: nat)

  function At(sys: System, i: nat): Indexer { if i in sys.indexers then sys.indexers[i] else Idle }

  function Put(sys: System, i: nat, t: Indexer): System { sys.(indexers := sys.indexers[i := t]) }

  function Release(sys: System, i: nat): System { Put(sys, i, Idle).(lock := None) }

  // The first `limit` changes after `after`, over all organizations.
  function SinceAll(log: seq<Change>, after: nat, limit: nat): (page: seq<Change>)
    ensures |page| <= limit && forall c | c in page :: c in log && c.revision > after
  {
    if log == [] || limit == 0 then []
    else if log[0].revision > after then [log[0]] + SinceAll(log[1..], after, limit - 1)
    else SinceAll(log[1..], after, limit)
  }

  // The end of the window: the last change of a full page, else the later of it and the high-water mark.
  function WindowEnd(page: seq<Change>, cursor: nat, high: nat, pageSize: nat): nat {
    var last := if page == [] then cursor else page[|page| - 1].revision;
    if |page| == pageSize then last else Max(high, last)
  }

  function NamespaceChanges(db: Db, after: nat, upTo: nat): set<string> {
    set org | org in db.orgs && exists k | k in db.orgs[org].definedAt :: after < db.orgs[org].definedAt[k] <= upTo
  }

  function ReferencedUsersets(tuples: set<TupleKey>): set<Node> {
    set k | k in tuples && k.subject.UsersetOf? :: NodeOf(k.subject)
  }

  // The rows written for an organization: its referenced sets that cross no exclusion.
  function WantedRows(g: Graph, referenced: set<Node>, upTo: nat): OrgIndex
    requires Ranked(g.namespaces)
  {
    map n | n in referenced && FlattenSet(g, n).monotonic :: SetRow(FlattenSet(g, n).members, upTo)
  }

  ghost predicate Enabled(sys: System, step: Step) {
    match step
    case Write(ws) => WriterEnabled(sys.writers, ws)
    case ReadCursor(i) => At(sys, i).Idle?
    case TryLock(i) => At(sys, i).Started?
    case ReadHigh(i) => At(sys, i).Locked?
    case ReadChanges(i) => At(sys, i).KnowsHigh?
    case ReadNamespaceChanges(i) => At(sys, i).KnowsChanges?
    case ReadTuples(i, org) => At(sys, i).Working? && org in At(sys, i).todo
    case ReadNamespaces(i) => At(sys, i).KnowsTuples?
    case Flatten(i, g) =>
      At(sys, i).KnowsNamespaces? && Ranked(g.namespaces)
      && Presents(g, At(sys, i).tuples, At(sys, i).namespaces)
    case CommitIndex(i) => At(sys, i).Working? && At(sys, i).todo == {}
    case AbortIndex(i) => !At(sys, i).Idle?
  }

  ghost function Next(sys: System, step: Step): System
    requires Enabled(sys, step)
  {
    var db := sys.writers.db;
    match step
    case Write(ws) => sys.(writers := WriterNext(sys.writers, ws))
    case ReadCursor(i) => Put(sys, i, Started(sys.cursor))
    case TryLock(i) =>
      if sys.lock.None? then Put(sys, i, Locked(At(sys, i).cursor)).(lock := Some(i)) else Put(sys, i, Idle)
    case ReadHigh(i) => Put(sys, i, KnowsHigh(At(sys, i).cursor, db.revision))
    case ReadChanges(i) =>
      var t := At(sys, i);
      var page := SinceAll(db.changelog, t.cursor, sys.options.changePageSize);
      var upTo := WindowEnd(page, t.cursor, t.high, sys.options.changePageSize);
      if upTo <= t.cursor then Release(sys, i)
      else Put(sys, i, KnowsChanges(t.cursor, upTo, set c | c in page :: c.orgId))
    case ReadNamespaceChanges(i) =>
      var t := At(sys, i);
      Put(sys, i, Working(t.upTo, t.orgs + NamespaceChanges(db, t.cursor, t.upTo), map[]))
    case ReadTuples(i, org) =>
      var t := At(sys, i);
      var tuples := RowsOf(db, org).tuples;
      if |tuples| > sys.options.maxTuplesPerOrg then Put(sys, i, Working(t.upTo, t.todo - {org}, t.written))
      else Put(sys, i, KnowsTuples(t.upTo, t.todo, t.written, org, tuples))
    case ReadNamespaces(i) =>
      var t := At(sys, i);
      Put(sys, i, KnowsNamespaces(t.upTo, t.todo, t.written, t.org, t.tuples, RowsOf(db, t.org).namespaces))
    case Flatten(i, g) =>
      var t := At(sys, i);
      var rows := WantedRows(g, ReferencedUsersets(RowsOf(db, t.org).tuples), t.upTo);
      Put(sys, i, Working(t.upTo, t.todo - {t.org}, t.written[t.org := rows]))
    case CommitIndex(i) =>
      var t := At(sys, i);
      Release(sys, i).(index := sys.index + t.written, cursor := t.upTo)
    case AbortIndex(i) =>
      if sys.lock == Some(i) then Release(sys, i) else Put(sys, i, Idle)
  }

  ghost predicate Initial(sys: System) {
    sys.writers == EMPTY && sys.index == map[] && sys.cursor == 0 && sys.lock == None && sys.indexers == map[]
  }

  // A finite interleaving: each state is the next of the one before under some enabled step.
  ghost predicate Run(trace: seq<System>) {
    && trace != [] && Initial(trace[0])
    && forall k | 0 <= k < |trace| - 1 :: Leads(trace[k], trace[k + 1])
  }

  ghost predicate Leads(sys: System, sys': System) {
    exists step :: Enabled(sys, step) && sys' == Next(sys, step)
  }

  // ----- The invariant -----

  // The row holds exactly what flattening these facts computes.
  ghost predicate Right(tuples: set<TupleKey>, namespaces: Registry, n: Node, row: SetRow) {
    exists g :: Presents(g, tuples, namespaces) && RowOfGraph(g, n, row)
  }

  ghost predicate RowOfGraph(g: Graph, n: Node, row: SetRow) {
    Ranked(g.namespaces) && FlattenSet(g, n).monotonic && FlattenSet(g, n).members == row.members
  }

  // Rows valid at a revision the organization has not moved past are right today.
  ghost predicate RightUnlessStale(db: Db, org: string, rows: OrgIndex) {
    forall n | n in rows && AtMost(db, org, rows[n].validAt) ::
      Right(RowsOf(db, org).tuples, RowsOf(db, org).namespaces, n, rows[n])
  }

  ghost predicate StampedBy(rows: OrgIndex, v: nat) { forall n | n in rows :: rows[n].validAt <= v }

  ghost predicate GoodIndex(db: Db, index: map<string, OrgIndex>) {
    forall org | org in index :: StampedBy(index[org], db.revision) && RightUnlessStale(db, org, index[org])
  }

  ghost predicate Holding(t: Indexer) { !t.Idle? && !t.Started? }

  ghost predicate GoodIndexer(db: Db, t: Indexer) {
    match t
    case KnowsHigh(_, high) => high <= db.revision
    case KnowsChanges(_, upTo, _) => upTo <= db.revision
    case Working(upTo, _, written) => upTo <= db.revision && GoodIndex(db, written)
    case KnowsTuples(upTo, _, written, org, tuples) =>
      && upTo <= db.revision && GoodIndex(db, written)
      && (AtMost(db, org, upTo) ==> tuples == RowsOf(db, org).tuples)
    case KnowsNamespaces(upTo, _, written, org, tuples, namespaces) =>
      && upTo <= db.revision && GoodIndex(db, written)
      && (AtMost(db, org, upTo) ==>
            tuples == RowsOf(db, org).tuples && namespaces == RowsOf(db, org).namespaces)
    case _ => true
  }

  ghost predicate Inv(sys: System) {
    && WritersInv(sys.writers)
    && GoodIndex(sys.writers.db, sys.index)
    && (forall i: nat :: GoodIndexer(sys.writers.db, At(sys, i)))
    && (forall i: nat :: Holding(At(sys, i)) <==> sys.lock == Some(i))
  }

  lemma CommitKeepsIndex(db: Db, revision: nat, op: Op, index: map<string, OrgIndex>)
    requires GoodIndex(db, index) && revision > db.revision
    ensures GoodIndex(Apply(db, revision, op), index)
  {
    var db' := Apply(db, revision, op);
    forall org, n | org in index && n in index[org] && AtMost(db', org, index[org][n].validAt)
      ensures Right(RowsOf(db', org).tuples, RowsOf(db', org).namespaces, n, index[org][n])
    {
      CommitMovesVersion(db, revision, op, org, index[org][n].validAt);
    }
  }

  lemma CommitKeepsIndexer(db: Db, revision: nat, op: Op, t: Indexer)
    requires GoodIndexer(db, t) && revision > db.revision
    ensures GoodIndexer(Apply(db, revision, op), t)
  {
    if t.Working? || t.KnowsTuples? || t.KnowsNamespaces? { CommitKeepsIndex(db, revision, op, t.written); }
    if t.KnowsTuples? || t.KnowsNamespaces? { CommitMovesVersion(db, revision, op, t.org, t.upTo); }
  }

  lemma WriteKeepsInv(sys: System, ws: WriterStep)
    requires Inv(sys) && WriterEnabled(sys.writers, ws)
    ensures Inv(sys.(writers := WriterNext(sys.writers, ws)))
  {
    WriterStepKeepsInv(sys.writers, ws);
    var sys' := sys.(writers := WriterNext(sys.writers, ws));
    assert forall i: nat :: At(sys', i) == At(sys, i);
    if ws.Commit? {
      var db, p := sys.writers.db, sys.writers.holder.value;
      CommitKeepsIndex(db, p.revision, p.op, sys.index);
      forall i: nat ensures GoodIndexer(Apply(db, p.revision, p.op), At(sys, i)) {
        CommitKeepsIndexer(db, p.revision, p.op, At(sys, i));
      }
    }
  }

  // The window ends at a committed revision.
  lemma WindowEndIsCommitted(db: Db, cursor: nat, high: nat, pageSize: nat)
    requires GoodDb(db) && high <= db.revision
    ensures var page := SinceAll(db.changelog, cursor, pageSize);
            var upTo := WindowEnd(page, cursor, high, pageSize);
            upTo > cursor ==> upTo <= db.revision
  {
    var page := SinceAll(db.changelog, cursor, pageSize);
    if page != [] { assert page[|page| - 1] in page; }
  }

  lemma FlattenedRowsAreGood(db: Db, g: Graph, tuples: set<TupleKey>, namespaces: Registry, org: string, upTo: nat,
                             referenced: set<Node>)
    requires Ranked(g.namespaces) && Presents(g, tuples, namespaces) && upTo <= db.revision
    requires AtMost(db, org, upTo) ==> tuples == RowsOf(db, org).tuples && namespaces == RowsOf(db, org).namespaces
    ensures var rows := WantedRows(g, referenced, upTo);
            StampedBy(rows, db.revision) && RightUnlessStale(db, org, rows)
  {
    var rows := WantedRows(g, referenced, upTo);
    forall n | n in rows && AtMost(db, org, rows[n].validAt)
      ensures Right(RowsOf(db, org).tuples, RowsOf(db, org).namespaces, n, rows[n])
    {
      assert RowOfGraph(g, n, rows[n]);
    }
  }

  // What a step leaves in the acting indexer is good, and nobody else changed.
  lemma IndexerStepIsGood(sys: System, step: Step, i: nat)
    requires Inv(sys) && Enabled(sys, step) && !step.Write? && step.i == i
    ensures var sys' := Next(sys, step);
            && sys'.writers == sys.writers
            && GoodIndexer(sys.writers.db, At(sys', i))
            && (forall j: nat | j != i :: At(sys', j) == At(sys, j))
            && GoodIndex(sys.writers.db, sys'.index)
  {
    var db, t := sys.writers.db, At(sys, i);
    assert GoodIndexer(db, t);
    match step
    case ReadChanges(_) => WindowEndIsCommitted(db, t.cursor, t.high, sys.options.changePageSize);
    case Flatten(_, g) =>
      FlattenedRowsAreGood(db, g, t.tuples, t.namespaces, t.org, t.upTo, ReferencedUsersets(RowsOf(db, t.org).tuples));
    case _ =>
  }

  lemma StepKeepsInv(sys: System, step: Step)
    requires Inv(sys) && Enabled(sys, step)
    ensures Inv(Next(sys, step))
  {
    if step.Write? {
      WriteKeepsInv(sys, step.step);
    } else {
      IndexerStepIsGood(sys, step, step.i);
      var sys' := Next(sys, step);
      forall j: nat ensures GoodIndexer(sys'.writers.db, At(sys', j)) {
        if j != step.i { assert At(sys', j) == At(sys, j); }
      }
      assert Holding(At(sys, step.i)) <==> sys.lock == Some(step.i);
      forall j: nat ensures Holding(At(sys', j)) <==> sys'.lock == Some(j) {
        assert Holding(At(sys, j)) <==> sys.lock == Some(j);
      }
    }
  }

  lemma RevisionNeverFalls(sys: System, step: Step)
    requires Inv(sys) && Enabled(sys, step)
    ensures sys.writers.db.revision <= Next(sys, step).writers.db.revision
  {
    if step.Write? { WriterStepKeepsInv(sys.writers, step.step); } else { IndexerStepIsGood(sys, step, step.i); }
  }

  lemma InitialIsGood(sys: System)
    requires Initial(sys)
    ensures Inv(sys)
  {
    assert forall org: string :: GoodRows(EMPTY.db, org);
  }

  lemma {:induction false} RunKeepsInv(trace: seq<System>, k: nat)
    requires Run(trace) && k < |trace|
    ensures Inv(trace[k])
  {
    if k > 0 {
      RunKeepsInv(trace, k - 1);
      assert Leads(trace[k - 1], trace[k]);
      var step :| Enabled(trace[k - 1], step) && trace[k] == Next(trace[k - 1], step);
      StepKeepsInv(trace[k - 1], step);
    }
  }

  // ----- Main results -----

  // A reader's snapshot is a committed state. It accepts the sets stamped at or after the
  // organization's version in that same state.
  ghost predicate Accepted(sys: System, org: string, n: Node) {
    org in sys.index && n in sys.index[org] && sys.index[org][n].validAt >= Version(sys.writers.db, org)
  }

  // In every interleaving, an accepted set holds exactly what flattening the reader's own data computes.
  lemma AcceptedSetsAreFresh(trace: seq<System>, k: nat, org: string, n: Node)
    requires Run(trace) && k < |trace| && Accepted(trace[k], org, n)
    ensures var rows := RowsOf(trace[k].writers.db, org);
            Right(rows.tuples, rows.namespaces, n, trace[k].index[org][n])
  {
    RunKeepsInv(trace, k);
    VersionIsNewestChange(trace[k].writers.db, org, trace[k].index[org][n].validAt);
  }

  // The view of the index a check of `t` is given.
  ghost function View(sys: System, org: string, t: EntityRef): IndexedMemberships {
    var rows: OrgIndex := if org in sys.index then sys.index[org] else map[];
    IndexedMemberships(Some(t), map n | n in rows && Accepted(sys, org, n) && t in rows[n].members ::
        rows[n].members[t])
  }

  // It holds the depth of `t` in every accepted set that has it, and nothing else.
  lemma ViewIsExact(sys: System, org: string, t: EntityRef, n: Node, depth: nat)
    ensures DepthOf(Some(View(sys, org, t)), n, t) == Some(depth)
       <==> Accepted(sys, org, n) && t in sys.index[org][n].members && sys.index[org][n].members[t] == depth
  {
  }

  lemma ViewIsFresh(trace: seq<System>, k: nat, org: string, t: EntityRef, s: Snapshot)
    requires Run(trace) && k < |trace| && s.memberships.None?
    requires Presents(s.graph, RowsOf(trace[k].writers.db, org).tuples, RowsOf(trace[k].writers.db, org).namespaces)
    ensures Setting(s, t, View(trace[k], org, t))
  {
    RunKeepsInv(trace, k);
    assert GoodRows(trace[k].writers.db, org);
    InvGivesFreshView(trace[k], org, t, s);
  }

  lemma InvGivesFreshView(sys: System, org: string, t: EntityRef, s: Snapshot)
    requires Inv(sys) && s.memberships.None? && Ranked(s.graph.namespaces)
    requires Presents(s.graph, RowsOf(sys.writers.db, org).tuples, RowsOf(sys.writers.db, org).namespaces)
    ensures Setting(s, t, View(sys, org, t))
  {
    var view, rows := View(sys, org, t), RowsOf(sys.writers.db, org);
    forall n | n in view.depths ensures FreshEntry(s.graph, t, n, view.depths[n]) {
      VersionIsNewestChange(sys.writers.db, org, sys.index[org][n].validAt);
      var g :| Presents(g, rows.tuples, rows.namespaces) && RowOfGraph(g, n, sys.index[org][n]);
      assert SameFacts(g, s.graph) && Flattens(g, t, n, view.depths[n]);
    }
  }

  // A snapshot of everything the organization has stored in state `sys`.
  ghost predicate StoredIn(sys: System, org: string, s: Snapshot) {
    && s.orgId == org && s.memberships.None?
    && Presents(s.graph, RowsOf(sys.writers.db, org).tuples, RowsOf(sys.writers.db, org).namespaces)
  }

  // In every state of every run, `evaluate` on all stored facts with the accepted index
  // entries permits whatever it permits without them, and denies whatever it denies without
  // them and untruncated.
  lemma IndexedEvaluationIsSafe(trace: seq<System>, k: nat, q: Query, s: Snapshot)
    requires Run(trace) && k < |trace| && StoredIn(trace[k], q.orgId, s)
    ensures Ranked(s.graph.namespaces)
    ensures var view := View(trace[k], q.orgId, q.subject);
            var plain, indexed := Evaluate(q, s), Evaluate(q, Indexed(s, view));
            && (plain.effect == Permit ==> indexed.effect == Permit)
            && (WalkTruncated !in plain.reasons ==> indexed.effect == plain.effect && WalkTruncated !in indexed.reasons)
  {
    ViewIsFresh(trace, k, q.orgId, q.subject, s);
    IndexedDecision(q, s, View(trace[k], q.orgId, q.subject));
  }

  // End to end, load, pruning and evaluation with the accepted entries. Without exclusions a
  // permit always rests on a membership among all stored facts within the depth bound. With
  // only unions, and one required relation or an uncut load, permits and untruncated denials
  // are those of the stored facts; and so they are after a complete load.
  lemma IndexedChecksAreSafe(trace: seq<System>, k: nat, q: Query, s: Snapshot)
    requires Run(trace) && k < |trace| && StoredIn(trace[k], q.orgId, s)
    ensures Ranked(s.graph.namespaces)
    ensures var s' := Indexed(s, View(trace[k], q.orgId, q.subject));
            var plain, checked := Evaluate(q, s), Evaluate(q, Checked(s', q));
            var m := Members(s.graph, q.subject);
            && (ExclusionFreeGraph(s.graph) && checked.effect == Permit ==>
                  exists r :: && Requires(q, s, r) && Node(q.resource, r) in m
                              && Within(s.graph, q.subject, m, m, MAX_USERSET_DEPTH, Node(q.resource, r)))
            && (DecidesAlike(s', q) ==>
                  && (plain.effect == Permit ==> checked.effect == Permit)
                  && (WalkTruncated !in plain.reasons ==>
                        checked.effect == plain.effect && WalkTruncated !in checked.reasons))
  {
    ViewIsFresh(trace, k, q.orgId, q.subject, s);
    RunKeepsInv(trace, k);
    assert GoodRows(trace[k].writers.db, q.orgId);
    FreshChecksAreSafe(q, s, View(trace[k], q.orgId, q.subject));
  }

  // ----- An undisturbed indexer run is worth something -----

  ghost predicate Reaches(sys: System, sys': System) {
    exists trace: seq<System> :: Path(trace, sys, sys')
  }

  ghost predicate Path(trace: seq<System>, sys: System, sys': System) {
    && trace != [] && trace[0] == sys && trace[|trace| - 1] == sys'
    && forall k | 0 <= k < |trace| - 1 :: Leads(trace[k], trace[k + 1])
  }

  lemma StepReaches(sys: System, mid: System, step: Step)
    requires Reaches(sys, mid) && Enabled(mid, step)
    ensures Reaches(sys, Next(mid, step))
  {
    var trace :| Path(trace, sys, mid);
    assert Leads(mid, Next(mid, step));
    assert Path(trace + [Next(mid, step)], sys, Next(mid, step));
  }

  // The page of changes a run started now would read, and where its window would end.
  function NextPage(sys: System): seq<Change> {
    SinceAll(sys.writers.db.changelog, sys.cursor, sys.options.changePageSize)
  }

  function End(sys: System): nat {
    WindowEnd(NextPage(sys), sys.cursor, sys.writers.db.revision, sys.options.changePageSize)
  }

  // The organizations the run would rebuild.
  function Changed(sys: System): set<string> {
    (set c | c in NextPage(sys) :: c.orgId) + NamespaceChanges(sys.writers.db, sys.cursor, End(sys))
  }

  // The indexer may start, and there is something new.
  ghost predicate Quiet(sys: System, i: nat) {
    && Inv(sys) && At(sys, i).Idle? && sys.lock == None
    && sys.cursor < sys.writers.db.revision && sys.options.changePageSize > 0
  }

  // A page holds every change after the cursor, or as many as fit, the first ones.
  ghost predicate FirstPage(page: seq<Change>, limit: nat, c: Change) {
    c in page || (|page| == limit && (limit > 0 ==> page[limit - 1].revision < c.revision))
  }

  lemma RestIsIncreasing(log: seq<Change>)
    requires Increasing(log) && log != []
    ensures Increasing(log[1..]) && forall c :: c in log <==> c == log[0] || c in log[1..]
  {
  }

  lemma PageGrows(first: Change, page: seq<Change>, limit: nat, c: Change)
    requires limit > 0 && FirstPage(page, limit, c) && first.revision < c.revision
    ensures FirstPage([first] + page, limit + 1, c)
  {
    assert |page| == limit ==> ([first] + page)[limit] == page[limit - 1];
  }

  lemma {:induction false} PageIsFirst(log: seq<Change>, after: nat, limit: nat, c: Change)
    requires Increasing(log) && c in log && c.revision > after
    ensures FirstPage(SinceAll(log, after, limit), limit, c)
  {
    if limit > 0 {
      RestIsIncreasing(log);
      if log[0].revision <= after {
        PageIsFirst(log[1..], after, limit, c);
      } else if c != log[0] {
        FirstIsLowest(log, c);
        if limit > 1 {
          PageIsFirst(log[1..], after, limit - 1, c);
          PageGrows(log[0], SinceAll(log[1..], after, limit - 1), limit - 1, c);
        }
      }
    }
  }

  lemma FirstIsLowest(log: seq<Change>, c: Change)
    requires Increasing(log) && c in log && c != log[0]
    ensures log[0].revision < c.revision
  {
    var j :| 0 <= j < |log| && log[j] == c;
  }

  // Up to its end the window leaves no change out, full page or not.
  lemma WindowIsCovered(db: Db, cursor: nat, high: nat, pageSize: nat, c: Change)
    requires GoodDb(db) && high <= db.revision && c in db.changelog
    requires var page := SinceAll(db.changelog, cursor, pageSize);
             cursor < c.revision <= WindowEnd(page, cursor, high, pageSize)
    ensures c in SinceAll(db.changelog, cursor, pageSize)
  {
    PageIsFirst(db.changelog, cursor, pageSize, c);
  }

  // There is always progress, and never beyond what is committed.
  lemma WindowAdvances(sys: System, i: nat)
    requires Quiet(sys, i)
    ensures sys.cursor < End(sys) <= sys.writers.db.revision
  {
    var page := NextPage(sys);
    if page != [] { assert page[|page| - 1] in page; }
    WindowEndIsCommitted(sys.writers.db, sys.cursor, sys.writers.db.revision, sys.options.changePageSize);
  }

  // The window's organizations are those whose facts changed in it.
  lemma ChangedIsNewer(sys: System, i: nat, org: string)
    requires Quiet(sys, i)
    ensures sys.cursor < Version(sys.writers.db, org) <= End(sys) ==> org in Changed(sys)
  {
    var db, v := sys.writers.db, Version(sys.writers.db, org);
    if sys.cursor < v <= End(sys) {
      GreatestIsGreatest(ChangeRevisions(db, org));
      if c :| c in db.changelog && c.orgId == org && c.revision == v {
        WindowIsCovered(db, sys.cursor, db.revision, sys.options.changePageSize, c);
      } else {
        var k :| k in RowsOf(db, org).definedAt && RowsOf(db, org).definedAt[k] == v;
        assert org in db.orgs;
      }
    }
  }

  // `sys` with indexer `i` holding the lock in phase `t`.
  function Held(sys: System, i: nat, t: Indexer): System { Put(sys, i, t).(lock := Some(i)) }

  lemma HeldMoves(start: System, sys: System, i: nat, t: Indexer, step: Step, t': Indexer)
    requires Reaches(start, Held(sys, i, t)) && Enabled(Held(sys, i, t), step)
    requires Next(Held(sys, i, t), step) == Put(Held(sys, i, t), i, t')
    ensures Reaches(start, Held(sys, i, t'))
  {
    StepReaches(start, Held(sys, i, t), step);
    assert sys.indexers[i := t][i := t'] == sys.indexers[i := t'];
  }

  lemma QuietLock(sys: System, i: nat)
    requires At(sys, i).Idle? && sys.lock == None
    ensures Reaches(sys, Held(sys, i, Locked(sys.cursor)))
  {
    assert Path([sys], sys, sys);
    StepReaches(sys, sys, ReadCursor(i));
    StepReaches(sys, Next(sys, ReadCursor(i)), TryLock(i));
    assert sys.indexers[i := Started(sys.cursor)][i := Locked(sys.cursor)] == sys.indexers[i := Locked(sys.cursor)];
  }

  // Locked, and having read what changed.
  lemma QuietStart(sys: System, i: nat)
    requires Quiet(sys, i)
    ensures Reaches(sys, Held(sys, i, Working(End(sys), Changed(sys), map[])))
  {
    var db, c := sys.writers.db, sys.cursor;
    var orgs := set c | c in NextPage(sys) :: c.orgId;
    WindowAdvances(sys, i);
    QuietLock(sys, i);
    HeldMoves(sys, sys, i, Locked(c), ReadHigh(i), KnowsHigh(c, db.revision));
    HeldMoves(sys, sys, i, KnowsHigh(c, db.revision), ReadChanges(i), KnowsChanges(c, End(sys), orgs));
    HeldMoves(sys, sys, i, KnowsChanges(c, End(sys), orgs), ReadNamespaceChanges(i),
              Working(End(sys), Changed(sys), map[]));
  }

  // One graph for each organization to rebuild, presenting its rows in some order.
  ghost predicate Presented(sys: System, todo: set<string>, graphs: map<string, Graph>) {
    forall org | org in todo ::
      && org in graphs && Ranked(graphs[org].namespaces)
      && Presents(graphs[org], RowsOf(sys.writers.db, org).tuples, RowsOf(sys.writers.db, org).namespaces)
  }

  ghost predicate Fits(sys: System, org: string) {
    |RowsOf(sys.writers.db, org).tuples| <= sys.options.maxTuplesPerOrg
  }

  ghost function RebuiltRows(sys: System, org: string, g: Graph): OrgIndex
    requires Ranked(g.namespaces)
  {
    WantedRows(g, ReferencedUsersets(RowsOf(sys.writers.db, org).tuples), End(sys))
  }

  // What the run writes: the wanted rows of every organization within the bound.
  ghost function Rebuilt(sys: System, todo: set<string>, graphs: map<string, Graph>): map<string, OrgIndex>
    requires Presented(sys, todo, graphs)
  {
    map org | org in todo && Fits(sys, org) :: RebuiltRows(sys, org, graphs[org])
  }

  lemma QuietReads(start: System, sys: System, i: nat, org: string, todo: set<string>, written: map<string, OrgIndex>)
    requires Reaches(start, Held(sys, i, Working(End(sys), todo, written)))
    requires org in todo && Fits(sys, org)
    ensures var v, stored := End(sys), RowsOf(sys.writers.db, org);
            Reaches(start, Held(sys, i, KnowsNamespaces(v, todo, written, org, stored.tuples, stored.namespaces)))
  {
    var v, stored := End(sys), RowsOf(sys.writers.db, org);
    var t1 := KnowsTuples(v, todo, written, org, stored.tuples);
    var t2 := KnowsNamespaces(v, todo, written, org, stored.tuples, stored.namespaces);
    HeldMoves(start, sys, i, Working(v, todo, written), ReadTuples(i, org), t1);
    HeldMoves(start, sys, i, t1, ReadNamespaces(i), t2);
  }

  // One organization: rebuilt if it fits, skipped if it does not.
  lemma QuietOrg(start: System, sys: System, i: nat, org: string, todo: set<string>, written: map<string, OrgIndex>,
                 g: Graph)
    requires Reaches(start, Held(sys, i, Working(End(sys), todo, written))) && org in todo
    requires Ranked(g.namespaces)
    requires Presents(g, RowsOf(sys.writers.db, org).tuples, RowsOf(sys.writers.db, org).namespaces)
    ensures var written' := if Fits(sys, org) then written[org := RebuiltRows(sys, org, g)] else written;
            Reaches(start, Held(sys, i, Working(End(sys), todo - {org}, written')))
  {
    var v, stored := End(sys), RowsOf(sys.writers.db, org);
    if Fits(sys, org) {
      QuietReads(start, sys, i, org, todo, written);
      HeldMoves(start, sys, i, KnowsNamespaces(v, todo, written, org, stored.tuples, stored.namespaces), Flatten(i, g),
                Working(v, todo - {org}, written[org := RebuiltRows(sys, org, g)]));
    } else {
      HeldMoves(start, sys, i, Working(v, todo, written), ReadTuples(i, org), Working(v, todo - {org}, written));
    }
  }

  lemma {:induction false} QuietWork(start: System, sys: System, i: nat, todo: set<string>,
                                     written: map<string, OrgIndex>, graphs: map<string, Graph>)
    requires Reaches(start, Held(sys, i, Working(End(sys), todo, written)))
    requires Presented(sys, todo, graphs)
    ensures Reaches(start, Held(sys, i, Working(End(sys), {}, written + Rebuilt(sys, todo, graphs))))
    decreases todo
  {
    if todo == {} {
      assert written + Rebuilt(sys, todo, graphs) == written;
    } else {
      var org :| org in todo;
      var rest := todo - {org};
      var written' := if Fits(sys, org) then written[org := RebuiltRows(sys, org, graphs[org])] else written;
      QuietOrg(start, sys, i, org, todo, written, graphs[org]);
      QuietWork(start, sys, i, rest, written', graphs);
      RebuiltStep(sys, todo, org, written, graphs);
    }
  }

  lemma RebuiltStep(sys: System, todo: set<string>, org: string, written: map<string, OrgIndex>,
                    graphs: map<string, Graph>)
    requires Presented(sys, todo, graphs) && org in todo
    ensures var written' := if Fits(sys, org) then written[org := RebuiltRows(sys, org, graphs[org])] else written;
            written' + Rebuilt(sys, todo - {org}, graphs) == written + Rebuilt(sys, todo, graphs)
  {
    var all, rest := Rebuilt(sys, todo, graphs), Rebuilt(sys, todo - {org}, graphs);
    if Fits(sys, org) {
      SameWithOne(rest, all, org, RebuiltRows(sys, org, graphs[org]));
      AddedFirst(written, rest, org, RebuiltRows(sys, org, graphs[org]));
    } else {
      assert all.Keys == rest.Keys && forall o | o in rest :: all[o] == rest[o];
    }
  }

  lemma SameWithOne<K, V>(rest: map<K, V>, all: map<K, V>, k: K, v: V)
    requires all.Keys == rest.Keys + {k} && all[k] == v
    requires forall o | o in rest && o != k :: all[o] == rest[o]
    ensures all == rest[k := v]
  {
  }

  lemma AddedFirst<K, V>(written: map<K, V>, rest: map<K, V>, k: K, v: V)
    requires k !in rest
    ensures written[k := v] + rest == written + rest[k := v]
  {
  }

  lemma QuietCommit(start: System, sys: System, i: nat, written: map<string, OrgIndex>)
    requires Reaches(start, Held(sys, i, Working(End(sys), {}, written)))
    ensures Reaches(start, Release(sys, i).(index := sys.index + written, cursor := End(sys)))
  {
    var t := Working(End(sys), {}, written);
    StepReaches(start, Held(sys, i, t), CommitIndex(i));
    assert sys.indexers[i := t][i := Idle] == sys.indexers[i := Idle];
  }

  // The organization's rows are what a run with this window end writes for it.
  ghost predicate IsRebuilt(sys: System, org: string, g: Graph, upTo: nat)
    requires Ranked(g.namespaces)
  {
    org in sys.index
    && sys.index[org] == WantedRows(g, ReferencedUsersets(RowsOf(sys.writers.db, org).tuples), upTo)
  }

  // A check accepts every userset a stored tuple refers to whose collection crosses no exclusion.
  ghost predicate AllAccepted(sys: System, org: string, g: Graph)
    requires Ranked(g.namespaces)
  {
    forall k | k in RowsOf(sys.writers.db, org).tuples && k.subject.UsersetOf?
               && FlattenSet(g, NodeOf(k.subject)).monotonic ::
      Accepted(sys, org, NodeOf(k.subject))
  }

  // Rows stamped at or after the organization's version are accepted.
  lemma RebuiltIsAccepted(sys: System, org: string, g: Graph, upTo: nat)
    requires Ranked(g.namespaces) && IsRebuilt(sys, org, g, upTo) && Version(sys.writers.db, org) <= upTo
    ensures AllAccepted(sys, org, g)
  {
    forall k | k in RowsOf(sys.writers.db, org).tuples && k.subject.UsersetOf?
               && FlattenSet(g, NodeOf(k.subject)).monotonic
      ensures Accepted(sys, org, NodeOf(k.subject))
    {
      assert NodeOf(k.subject) in ReferencedUsersets(RowsOf(sys.writers.db, org).tuples);
    }
  }

  ghost predicate SameIndex(sys: System, sys': System, org: string) {
    (org in sys.index <==> org in sys'.index) && (org in sys.index ==> sys'.index[org] == sys.index[org])
  }

  // The graphs present what is stored for every organization the cursor has not reached.
  ghost predicate PresentNewer(sys: System, graphs: map<string, Graph>) {
    forall org: string | Version(sys.writers.db, org) > sys.cursor ::
      && org in graphs && Ranked(graphs[org].namespaces)
      && Presents(graphs[org], RowsOf(sys.writers.db, org).tuples, RowsOf(sys.writers.db, org).namespaces)
  }

  lemma NewerIsChanged(sys: System, org: string)
    requires org in Changed(sys)
    ensures Version(sys.writers.db, org) > sys.cursor
  {
    var db := sys.writers.db;
    VersionIsNewestChange(db, org, sys.cursor);
    if c :| c in NextPage(sys) && c.orgId == org { assert c in db.changelog && c.revision > sys.cursor; }
  }

  // What an undisturbed run leaves: the cursor at the end of its window; the organizations whose
  // facts last changed in it, and that are within the bound, accepted; all that did not change
  // as they were.
  ghost predicate RunLeaves(sys: System, i: nat, graphs: map<string, Graph>, sys': System)
    requires PresentNewer(sys, graphs)
  {
    && sys'.writers == sys.writers && sys'.options == sys.options && sys'.cursor == End(sys)
    && At(sys', i).Idle? && sys'.lock == None
    && (forall org: string | sys.cursor < Version(sys.writers.db, org) <= End(sys) && Fits(sys, org) ::
          AllAccepted(sys', org, graphs[org]))
    && (forall org: string | Version(sys.writers.db, org) <= sys.cursor :: SameIndex(sys, sys', org))
  }

  // From a quiet state one run, undisturbed, always gets that far, full page or not, whatever
  // the order its rows are read in.
  lemma UndisturbedRunIsAccepted(sys: System, i: nat, graphs: map<string, Graph>)
    requires Quiet(sys, i) && PresentNewer(sys, graphs)
    ensures End(sys) > sys.cursor
    ensures exists sys' :: Reaches(sys, sys') && RunLeaves(sys, i, graphs, sys')
  {
    forall org | org in Changed(sys) ensures Version(sys.writers.db, org) > sys.cursor { NewerIsChanged(sys, org); }
    WindowAdvances(sys, i);
    QuietStart(sys, i);
    QuietWork(sys, sys, i, Changed(sys), map[], graphs);
    var written := map[] + Rebuilt(sys, Changed(sys), graphs);
    QuietCommit(sys, sys, i, written);
    CommittedRunLeaves(sys, i, graphs, written);
  }

  lemma CommittedRunLeaves(sys: System, i: nat, graphs: map<string, Graph>, written: map<string, OrgIndex>)
    requires Quiet(sys, i) && PresentNewer(sys, graphs) && Presented(sys, Changed(sys), graphs)
    requires written == map[] + Rebuilt(sys, Changed(sys), graphs)
    ensures RunLeaves(sys, i, graphs, Release(sys, i).(index := sys.index + written, cursor := End(sys)))
  {
    var sys' := Release(sys, i).(index := sys.index + written, cursor := End(sys));
    forall org: string | sys.cursor < Version(sys.writers.db, org) <= End(sys) && Fits(sys, org)
      ensures AllAccepted(sys', org, graphs[org])
    {
      ChangedIsNewer(sys, i, org);
      assert sys'.index[org] == RebuiltRows(sys, org, graphs[org]);
      RebuiltIsAccepted(sys', org, graphs[org], End(sys));
    }
    forall org: string | Version(sys.writers.db, org) <= sys.cursor ensures SameIndex(sys, sys', org) {
      if org in Changed(sys) { NewerIsChanged(sys, org); }
    }
  }

  lemma ReachesOn(sys: System, mid: System, sys': System)
    requires Reaches(sys, mid) && Reaches(mid, sys')
    ensures Reaches(sys, sys')
  {
    var a :| Path(a, sys, mid);
    var b :| Path(b, mid, sys');
    var trace := a + b[1..];
    forall k | 0 <= k < |trace| - 1 ensures Leads(trace[k], trace[k + 1]) {
      if k < |a| - 1 { assert Leads(a[k], a[k + 1]); } else { assert Leads(b[k - |a| + 1], b[k - |a| + 2]); }
    }
    assert Path(trace, sys, sys');
  }

  lemma {:induction false} ReachesKeepsInv(trace: seq<System>, sys: System, sys': System)
    requires Path(trace, sys, sys') && Inv(sys)
    ensures Inv(sys')
    decreases |trace|
  {
    if |trace| > 1 {
      var last := |trace| - 1;
      ReachesKeepsInv(trace[..last], sys, trace[last - 1]);
      assert Leads(trace[last - 1], trace[last]);
      var step :| Enabled(trace[last - 1], step) && sys' == Next(trace[last - 1], step);
      StepKeepsInv(trace[last - 1], step);
    }
  }

  // What repeated runs have reached: the cursor at the last revision, and every organization
  // that was behind it, within the bound, accepted.
  ghost predicate CaughtUp(sys: System, graphs: map<string, Graph>, sys': System)
    requires PresentNewer(sys, graphs)
  {
    && sys'.writers == sys.writers && sys'.cursor >= sys.writers.db.revision
    && (forall org: string | Version(sys.writers.db, org) > sys.cursor && Fits(sys, org) ::
          AllAccepted(sys', org, graphs[org]))
    && (forall org: string | Version(sys.writers.db, org) <= sys.cursor :: SameIndex(sys, sys', org))
  }

  lemma SameIndexStaysAccepted(sys: System, sys': System, org: string, g: Graph)
    requires Ranked(g.namespaces) && sys'.writers == sys.writers && SameIndex(sys, sys', org)
    requires AllAccepted(sys, org, g)
    ensures AllAccepted(sys', org, g)
  {
    forall k | k in RowsOf(sys.writers.db, org).tuples && k.subject.UsersetOf?
               && FlattenSet(g, NodeOf(k.subject)).monotonic
      ensures Accepted(sys', org, NodeOf(k.subject))
    {
      assert Accepted(sys, org, NodeOf(k.subject));
    }
  }

  lemma CaughtUpOn(sys: System, i: nat, mid: System, graphs: map<string, Graph>, sys': System)
    requires PresentNewer(sys, graphs) && PresentNewer(mid, graphs)
    requires RunLeaves(sys, i, graphs, mid) && CaughtUp(mid, graphs, sys') && End(sys) > sys.cursor
    ensures CaughtUp(sys, graphs, sys')
  {
    forall org: string | Version(sys.writers.db, org) > sys.cursor && Fits(sys, org)
      ensures AllAccepted(sys', org, graphs[org])
    {
      if Version(sys.writers.db, org) <= End(sys) {
        assert SameIndex(mid, sys', org);
        SameIndexStaysAccepted(mid, sys', org, graphs[org]);
      } else {
        assert Fits(mid, org);
      }
    }
    forall org: string | Version(sys.writers.db, org) <= sys.cursor ensures SameIndex(sys, sys', org) {
      assert SameIndex(sys, mid, org) && SameIndex(mid, sys', org);
    }
  }

  // However far the cursor lies behind, page by page undisturbed runs catch up with everything.
  lemma {:induction false} UndisturbedRunsCatchUp(sys: System, i: nat, graphs: map<string, Graph>)
    requires Inv(sys) && At(sys, i).Idle? && sys.lock == None && sys.options.changePageSize > 0
    requires PresentNewer(sys, graphs)
    ensures exists sys' :: Reaches(sys, sys') && CaughtUp(sys, graphs, sys')
    decreases if sys.cursor < sys.writers.db.revision then sys.writers.db.revision - sys.cursor else 0
  {
    if sys.cursor >= sys.writers.db.revision {
      assert Path([sys], sys, sys);
      forall org: string ensures Version(sys.writers.db, org) <= sys.cursor { VersionIsCommitted(sys.writers.db, org); }
      assert CaughtUp(sys, graphs, sys);
    } else {
      UndisturbedRunIsAccepted(sys, i, graphs);
      var mid :| Reaches(sys, mid) && RunLeaves(sys, i, graphs, mid);
      var trace :| Path(trace, sys, mid);
      ReachesKeepsInv(trace, sys, mid);
      UndisturbedRunsCatchUp(mid, i, graphs);
      var sys' :| Reaches(mid, sys') && CaughtUp(mid, graphs, sys');
      ReachesOn(sys, mid, sys');
      CaughtUpOn(sys, i, mid, graphs, sys');
    }
  }

  lemma VersionIsCommitted(db: Db, org: string)
    requires GoodDb(db)
    ensures Version(db, org) <= db.revision
  {
    assert GoodRows(db, org);
    VersionIsNewestChange(db, org, db.revision);
  }
}
