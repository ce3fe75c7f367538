/**
 The shared tables and the writers. A writer allocates its revision under a lock it holds
 until its transaction ends, so revisions commit in order.
 */
module Store {
  import opened Prelude
  import opened Refs
  import opened Usersets
  import opened Snapshots
  import opened Conditions

  datatype Change = Change(orgId: string, revision: nat, upsert: bool, key: TupleKey)

  // The tuple and namespace rows of one organization, with each definition's revision.
  datatype OrgRows = OrgRows(tuples: set<TupleKey>, namespaces: Registry, definedAt: map<string, nat>)

  // `revision` is the highest committed revision. The changelog is in append order.
  datatype Db = Db(revision: nat, orgs: map<string, OrgRows>, changelog: seq<Change>, policies: map<string, Policy>)

  datatype Op =
    | WriteTuple(orgId: string, key: TupleKey)
    | RevokeTuple(orgId: string, key: TupleKey)
    | DefineNamespace(orgId: string, namespace: string, config: NamespaceConfig)
    | WritePolicy(policy: Policy)
    | DeletePolicy(orgId: string, id: string)

  function RowsOf(db: Db, org: string): OrgRows {
    if org in db.orgs then db.orgs[org] else OrgRows({}, map[], map[])
  }

  // The writes of a transaction that was given `revision`.
  function Apply(db: Db, revision: nat, op: Op): Db {
    match op
    case WriteTuple(org, key) =>
      var rows := RowsOf(db, org);
      db.(revision := revision,
          orgs := db.orgs[org := rows.(tuples := rows.tuples + {key})],
          changelog := db.changelog + [Change(org, revision, true, key)])
    case RevokeTuple(org, key) =>
      var rows := RowsOf(db, org);
      if key in rows.tuples then
        db.(revision := revision,
            orgs := db.orgs[org := rows.(tuples := rows.tuples - {key})],
            changelog := db.changelog + [Change(org, revision, false, key)])
      else db.(revision := revision)
    case DefineNamespace(org, namespace, config) =>
      var rows := RowsOf(db, org);
      var defined := rows.(namespaces := rows.namespaces[namespace := NamespaceDefinition(org, namespace, config)],
                           definedAt := rows.definedAt[namespace := revision]);
      db.(revision := revision, orgs := db.orgs[org := defined])
    case WritePolicy(policy) => db.(revision := revision, policies := db.policies[policy.id := policy])
    case DeletePolicy(org, id) =>
      if id in db.policies && db.policies[id].orgId == org
      then db.(revision := revision, policies := db.policies - {id})
      else db.(revision := revision)
  }

  // ----- Writers -----

  datatype Pending = Pending(revision: nat, op: Op)

  // `sequence` is the last revision handed out; `holder` is the transaction holding the lock.
  datatype Writers = Writers(db: Db, sequence: nat, holder: Option<Pending>)

  datatype WriterStep = Allocate(op: Op) | Commit | Abort

  // Only configurations accepted by the validator reach the table.
  ghost predicate Validated(op: Op) {
    op.DefineNamespace? ==>
      Rankable(op.config) && forall r | r in op.config.rewrites :: NonEmpty(op.config.rewrites[r])
  }

  ghost predicate WriterEnabled(w: Writers, step: WriterStep) {
    match step
    case Allocate(op) => w.holder.None? && Validated(op)
    case Commit => w.holder.Some?
    case Abort => w.holder.Some?
  }

  // An aborted transaction burns its revision.
  function WriterNext(w: Writers, step: WriterStep): Writers {
    match step
    case Allocate(op) => w.(sequence := w.sequence + 1, holder := Some(Pending(w.sequence + 1, op)))
    case Commit =>
      if w.holder.Some? then w.(db := Apply(w.db, w.holder.value.revision, w.holder.value.op), holder := None) else w
    case Abort => w.(holder := None)
  }

  const EMPTY := Writers(Db(0, map[], [], map[]), 0, None)

  // ----- Revision order is commit order -----

  ghost predicate Increasing(log: seq<Change>) {
    forall i, j | 0 <= i < j < |log| :: log[i].revision < log[j].revision
  }

  ghost predicate GoodRows(db: Db, org: string) {
    var rows := RowsOf(db, org);
    && rows.definedAt.Keys == rows.namespaces.Keys
    && Ranked(rows.namespaces)
    && (forall k | k in rows.namespaces :: rows.namespaces[k].orgId == org && rows.namespaces[k].namespace == k)
    && (forall k, r | k in rows.namespaces && r in rows.namespaces[k].config.rewrites ::
          NonEmpty(rows.namespaces[k].config.rewrites[r]))
    && (forall k | k in rows.definedAt :: 0 < rows.definedAt[k] <= db.revision)
  }

  // The log holds an upsert of the key for the organization with no later deletion.
  ghost predicate LogStands(log: seq<Change>, org: string, key: TupleKey) {
    exists i | 0 <= i < |log| :: LoggedAt(log, i, org, key, true) && NoneLater(log, i, org, key)
  }

  ghost predicate LoggedAt(log: seq<Change>, i: nat, org: string, key: TupleKey, upsert: bool)
    requires i < |log|
  {
    log[i].orgId == org && log[i].key == key && log[i].upsert == upsert
  }

  ghost predicate NoneLater(log: seq<Change>, i: nat, org: string, key: TupleKey) {
    forall j | i < j < |log| :: !LoggedAt(log, j, org, key, false)
  }

  // The stored tuples are what replaying the log leaves.
  ghost predicate ReplaysLog(db: Db) {
    forall org: string, key: TupleKey {:trigger LogStands(db.changelog, org, key)} ::
      key in RowsOf(db, org).tuples <==> LogStands(db.changelog, org, key)
  }

  // A policy row is stored under its own id.
  ghost predicate PoliciesKeyed(db: Db) { forall id | id in db.policies :: db.policies[id].id == id }

  ghost predicate GoodDb(db: Db) {
    && ReplaysLog(db)
    && PoliciesKeyed(db)
    && Increasing(db.changelog)
    && (forall c | c in db.changelog :: 0 < c.revision <= db.revision)
    && (forall org: string :: GoodRows(db, org))
  }

  ghost predicate WritersInv(w: Writers) {
    && GoodDb(w.db)
    && w.db.revision <= w.sequence
    && (w.holder.Some? ==> w.db.revision < w.holder.value.revision == w.sequence && Validated(w.holder.value.op))
  }

  lemma ApplyKeepsRows(db: Db, revision: nat, op: Op, org: string)
    requires GoodRows(db, org) && revision > db.revision && Validated(op)
    ensures GoodRows(Apply(db, revision, op), org)
  {
    var rows, rows' := RowsOf(db, org), RowsOf(Apply(db, revision, op), org);
    if op.DefineNamespace? && op.orgId == org {
      assert rows'.namespaces[op.namespace].config == op.config;
      forall k | k in rows'.namespaces ensures Rankable(rows'.namespaces[k].config) {
        if k != op.namespace { assert rows'.namespaces[k] == rows.namespaces[k]; }
      }
    } else {
      assert rows'.namespaces == rows.namespaces && rows'.definedAt == rows.definedAt;
    }
  }

  lemma OneMoreChange(log: seq<Change>, c: Change, org: string, key: TupleKey)
    ensures LogStands(log + [c], org, key)
       <==> (c.orgId == org && c.key == key && c.upsert)
            || (LogStands(log, org, key) && !(c.orgId == org && c.key == key && !c.upsert))
  {
    var log' := log + [c];
    if c.orgId == org && c.key == key && c.upsert {
      assert LoggedAt(log', |log|, org, key, true) && NoneLater(log', |log|, org, key);
    } else if LogStands(log', org, key) {
      var i :| 0 <= i < |log'| && LoggedAt(log', i, org, key, true) && NoneLater(log', i, org, key);
      assert !LoggedAt(log', |log|, org, key, false) && LoggedAt(log, i, org, key, true);
      forall j | i < j < |log| ensures !LoggedAt(log, j, org, key, false) {
        assert !LoggedAt(log', j, org, key, false);
      }
      assert NoneLater(log, i, org, key);
    } else if LogStands(log, org, key) {
      var i :| 0 <= i < |log| && LoggedAt(log, i, org, key, true) && NoneLater(log, i, org, key);
      assert LoggedAt(log', i, org, key, true);
      forall j | i < j < |log| ensures !LoggedAt(log', j, org, key, false) {
        assert !LoggedAt(log, j, org, key, false);
      }
      if NoneLater(log', i, org, key) { assert LogStands(log', org, key); }
    }
  }

  lemma ApplyKeepsReplay(db: Db, revision: nat, op: Op)
    requires ReplaysLog(db)
    ensures ReplaysLog(Apply(db, revision, op))
  {
    var db' := Apply(db, revision, op);
    forall org: string, key: TupleKey
      ensures key in RowsOf(db', org).tuples <==> LogStands(db'.changelog, org, key)
    {
      assert key in RowsOf(db, org).tuples <==> LogStands(db.changelog, org, key);
      match op
      case WriteTuple(o, k) => OneMoreChange(db.changelog, Change(o, revision, true, k), org, key);
      case RevokeTuple(o, k) => OneMoreChange(db.changelog, Change(o, revision, false, k), org, key);
      case _ =>
    }
  }

  lemma ApplyKeepsGood(db: Db, revision: nat, op: Op)
    requires GoodDb(db) && revision > db.revision && Validated(op)
    ensures GoodDb(Apply(db, revision, op))
  {
    ApplyKeepsReplay(db, revision, op);
    assert PoliciesKeyed(Apply(db, revision, op));
    forall org: string ensures GoodRows(Apply(db, revision, op), org) { ApplyKeepsRows(db, revision, op, org); }
  }

  lemma WriterStepKeepsInv(w: Writers, step: WriterStep)
    requires WritersInv(w) && WriterEnabled(w, step)
    ensures WritersInv(WriterNext(w, step))
    ensures WriterNext(w, step).db.revision >= w.db.revision
  {
    if step.Commit? { ApplyKeepsGood(w.db, w.holder.value.revision, w.holder.value.op); }
  }

  // ----- Organization versions -----

  // Every tuple or namespace change of the organization is at or below `v`.
  ghost predicate AtMost(db: Db, org: string, v: nat) {
    && (forall c | c in db.changelog && c.orgId == org :: c.revision <= v)
    && (forall k | k in RowsOf(db, org).definedAt :: RowsOf(db, org).definedAt[k] <= v)
  }

  ghost function ChangeRevisions(db: Db, org: string): set<nat> {
    (set c | c in db.changelog && c.orgId == org :: c.revision)
    + set k | k in RowsOf(db, org).definedAt :: RowsOf(db, org).definedAt[k]
  }

  ghost function Pick(s: set<nat>): (x: nat)
    requires s != {}
    ensures x in s
  {
    var x :| x in s; x
  }

  ghost function Greatest(s: set<nat>): nat {
    if s == {} then 0
    else
      var rest := Greatest(s - {Pick(s)});
      if Pick(s) > rest then Pick(s) else rest
  }

  lemma {:induction false} GreatestIsGreatest(s: set<nat>)
    ensures forall x | x in s :: x <= Greatest(s)
    ensures s != {} ==> Greatest(s) in s
  {
    if s != {} {
      var p := Pick(s);
      GreatestIsGreatest(s - {p});
      forall x | x in s ensures x <= Greatest(s) {
        if x != p { assert x in s - {p}; }
      }
    }
  }

  // The organization's version: its newest tuple or namespace change, 0 if none.
  ghost function Version(db: Db, org: string): nat { Greatest(ChangeRevisions(db, org)) }

  lemma VersionIsNewestChange(db: Db, org: string, v: nat)
    ensures Version(db, org) <= v <==> AtMost(db, org, v)
  {
    var s := ChangeRevisions(db, org);
    GreatestIsGreatest(s);
    if AtMost(db, org, v) {
      assert forall x | x in s :: x <= v;
    }
    if Version(db, org) <= v {
      forall c | c in db.changelog && c.orgId == org ensures c.revision <= v { assert c.revision in s; }
      forall k | k in RowsOf(db, org).definedAt ensures RowsOf(db, org).definedAt[k] <= v {
        assert RowsOf(db, org).definedAt[k] in s;
      }
    }
  }

  ghost predicate SameOrgFacts(db: Db, db': Db, org: string) {
    RowsOf(db, org).tuples == RowsOf(db', org).tuples && RowsOf(db, org).namespaces == RowsOf(db', org).namespaces
  }

  // A commit either leaves an organization's facts alone or moves its version past `v`.
  lemma CommitMovesVersion(db: Db, revision: nat, op: Op, org: string, v: nat)
    requires v < revision
    ensures var db' := Apply(db, revision, op);
            AtMost(db', org, v) ==> AtMost(db, org, v) && SameOrgFacts(db, db', org)
  {
    var db' := Apply(db, revision, op);
    if AtMost(db', org, v) {
      match op
      case WriteTuple(o, key) =>
        assert Change(o, revision, true, key) in db'.changelog;
        assert forall c | c in db.changelog :: c in db'.changelog;
        assert RowsOf(db', org).definedAt == RowsOf(db, org).definedAt;
      case RevokeTuple(o, key) =>
        if key in RowsOf(db, o).tuples { assert Change(o, revision, false, key) in db'.changelog; }
        assert forall c | c in db.changelog :: c in db'.changelog;
        assert RowsOf(db', org).definedAt == RowsOf(db, org).definedAt;
      case DefineNamespace(o, namespace, _) =>
        assert RowsOf(db', o).definedAt[namespace] == revision;
        assert RowsOf(db', org) == RowsOf(db, org);
      case _ => assert RowsOf(db', org) == RowsOf(db, org);
    }
  }

  // The graph an organization's rows are read into, rows of a node in any order.
  ghost predicate Presents(g: Graph, tuples: set<TupleKey>, namespaces: Registry) {
    && g.namespaces == namespaces
    && forall n: Node, sub: Subject :: sub in SubjectsOf(g.tuples, n) <==> TupleKey(n.entity, n.relation, sub) in tuples
  }
}
