/**
 Checks with the revision-keyed decision cache beside writers and indexers. Cached entries may
 vanish at any time; a check reads the revision, the cache and one snapshot of the database,
 index included, each in a step of its own. Runs without indexer steps are those with the
 index off.
 */
module DecisionCache {
  import opened Prelude
  import opened Refs
  import opened Snapshots
  import opened Walks
  import opened Semantics
  import opened Derivations
  import opened Transparency
  import opened Decisions
  import opened FaithfulLoading
  import opened LoadedChecks
  import opened Conditions
  import opened Store
  import Index = MembershipIndex

  datatype Consistency = Full | AtLeast(revision: nat)

  datatype Request = Request(
    orgId: Option<string>, subject: EntityRef, action: Action, resource: EntityRef,
    consistency: Consistency, context: Context)

  datatype Key = Key(orgId: string, subject: EntityRef, action: Action, resource: EntityRef, revision: nat)

  datatype Outcome = Outcome(decision: Decision, revisionUsed: nat, cacheable: bool)

  // A check between its steps. `begun` is the committed revision when it started.
  datatype Check =
    | Begun(request: Request, begun: nat)
    | KnowsRevision(request: Request, begun: nat, key: Option<Key>)
    | Missed(request: Request, begun: nat, key: Option<Key>)
    | Evaluated(request: Request, begun: nat, key: Option<Key>, outcome: Outcome)
    | Done(request: Request, begun: nat, outcome: Outcome, fromCache: bool)

  // `past` lists the states of database and index up to now; kept only to state results.
  datatype System = System(
    stored: Index.System, past: seq<Index.System>, cache: map<Key, Decision>, checks: map<nat, Check>)

  function RevisionOf(stored: Index.System): nat { stored.writers.db.revision }

  // ----- What a check answers on one committed state -----

  // Rows are read in an order that depends only on the stored rows.
  ghost function GraphOf(rows: OrgRows): (g: Graph)
    requires exists g :: Presents(g, rows.tuples, rows.namespaces)
    ensures Presents(g, rows.tuples, rows.namespaces)
  {
    var g :| Presents(g, rows.tuples, rows.namespaces); g
  }

  ghost function BucketsFrom(tuples: set<TupleKey>): (b: Buckets)
    ensures forall n: Node, sub: Subject :: sub in SubjectsOf(b, n) <==> TupleKey(n.entity, n.relation, sub) in tuples
  {
    if tuples == {} then map[]
    else
      var k :| k in tuples;
      var rest := BucketsFrom(tuples - {k});
      var n := Node(k.entity, k.relation);
      rest[n := SubjectsOf(rest, n) + [k.subject]]
  }

  lemma SomeGraph(rows: OrgRows)
    ensures exists g :: Presents(g, rows.tuples, rows.namespaces)
  {
    assert Presents(Graph(rows.namespaces, BucketsFrom(rows.tuples)), rows.tuples, rows.namespaces);
  }

  ghost function Stored(db: Db, org: string): (s: Snapshot)
    requires GoodDb(db)
    ensures s.orgId == org && s.memberships.None? && Ranked(s.graph.namespaces) && OneOrg(s)
    ensures Presents(s.graph, RowsOf(db, org).tuples, RowsOf(db, org).namespaces)
  {
    assert GoodRows(db, org);
    SomeGraph(RowsOf(db, org));
    Snapshot(org, GraphOf(RowsOf(db, org)), None)
  }

  ghost predicate Applies(p: Policy, org: string, resourceType: string, verb: string) {
    p.orgId == org && p.resourceType == resourceType && (p.action == verb || p.action == "*")
  }

  // The applicable policies, in an order that depends only on the stored policies.
  ghost function Applicable(policies: map<string, Policy>, org: string, resourceType: string,
                            verb: string): (ps: seq<Policy>)
    ensures forall p :: p in ps <==>
              exists id :: id in policies && policies[id] == p && Applies(p, org, resourceType, verb)
  {
    if policies == map[] then []
    else
      var id :| id in policies;
      var rest := Applicable(policies - {id}, org, resourceType, verb);
      assert policies == (policies - {id})[id := policies[id]];
      if Applies(policies[id], org, resourceType, verb) then [policies[id]] + rest else rest
  }

  // The relationship decision: load the closure, pruned by the accepted index entries, and
  // evaluate it with them.
  ghost function Rebac(stored: Index.System, org: string, r: Request): Decision
    requires Index.Inv(stored)
  {
    var q := Query(org, r.subject, r.action, r.resource);
    Evaluate(q, Checked(Indexed(Stored(stored.writers.db, org), Index.View(stored, org, r.subject)), q))
  }

  // evaluateWithin on one committed state.
  ghost function Answer(stored: Index.System, r: Request, rt: Runtime): Outcome
    requires Index.Inv(stored)
  {
    var db := stored.writers.db;
    if r.orgId.None? then Outcome(DenyWith([NoOrgContext]), 0, false)
    else if r.consistency.AtLeast? && db.revision < r.consistency.revision then
      Outcome(DenyWith([ConsistencyUnavailable]), db.revision, false)
    else
      var org := r.orgId.value;
      var policies := Applicable(db.policies, org, r.resource.kind, r.action.verb);
      Outcome(DecideOn(Rebac(stored, org, r), Rulings(policies, r.context, rt)), db.revision, policies == [])
  }

  function KeyFor(r: Request, revision: nat): Option<Key> {
    if r.orgId.None? || !r.consistency.Full? then None
    else Some(Key(r.orgId.value, r.subject, r.action, r.resource, revision))
  }

  // ----- Steps -----

  datatype Step =
    | Store(step: Index.Step)
    | Begin(i: nat, request: Request)
    | ReadRevision(i: nat)
    | Lookup(i: nat)
    | EvaluateIn(i: nat)
    | Remember(i: nat)
    | Evict(key: Key)

  ghost predicate Enabled(sys: System, step: Step) {
    match step
    case Store(st) => Index.Enabled(sys.stored, st)
    case Begin(i, _) => i !in sys.checks
    case ReadRevision(i) => i in sys.checks && sys.checks[i].Begun?
    case Lookup(i) => i in sys.checks && sys.checks[i].KnowsRevision?
    case EvaluateIn(i) => i in sys.checks && sys.checks[i].Missed? && Index.Inv(sys.stored)
    case Remember(i) => i in sys.checks && sys.checks[i].Evaluated?
    case Evict(key) => true
  }

  ghost function Next(sys: System, step: Step, rt: Runtime): System
    requires Enabled(sys, step)
  {
    var db := sys.stored.writers.db;
    match step
    case Store(st) =>
      var next := Index.Next(sys.stored, st);
      sys.(stored := next, past := sys.past + [next])
    case Begin(i, request) => sys.(checks := sys.checks[i := Begun(request, db.revision)])
    case ReadRevision(i) =>
      var c := sys.checks[i];
      sys.(checks := sys.checks[i := KnowsRevision(c.request, c.begun, KeyFor(c.request, db.revision))])
    case Lookup(i) =>
      var c := sys.checks[i];
      var c' := if c.key.Some? && c.key.value in sys.cache
                then Done(c.request, c.begun, Outcome(sys.cache[c.key.value], c.key.value.revision, true), true)
                else Missed(c.request, c.begun, c.key);
      sys.(checks := sys.checks[i := c'])
    case EvaluateIn(i) =>
      var c := sys.checks[i];
      sys.(checks := sys.checks[i := Evaluated(c.request, c.begun, c.key, Answer(sys.stored, c.request, rt))])
    case Remember(i) =>
      var c := sys.checks[i];
      var done := sys.checks[i := Done(c.request, c.begun, c.outcome, false)];
      if c.key.Some? && c.outcome.cacheable
      then
        var key := c.key.value.(revision := c.outcome.revisionUsed);
        sys.(checks := done, cache := sys.cache[key := c.outcome.decision])
      else sys.(checks := done)
    case Evict(key) => sys.(cache := sys.cache - {key})
  }

  ghost predicate Initial(sys: System) {
    Index.Initial(sys.stored) && sys.past == [sys.stored] && sys.cache == map[] && sys.checks == map[]
  }

  ghost predicate Leads(sys: System, sys': System, rt: Runtime) {
    exists step :: Enabled(sys, step) && sys' == Next(sys, step, rt)
  }

  ghost predicate Run(trace: seq<System>, rt: Runtime) {
    trace != [] && Initial(trace[0]) && forall k | 0 <= k < |trace| - 1 :: Leads(trace[k], trace[k + 1], rt)
  }

  // ----- The invariant -----

  ghost predicate Recorded(sys: System, j: nat) { j < |sys.past| && Index.Inv(sys.past[j]) }

  // The outcome is the answer on one past state, of a revision no older than `begun`.
  ghost predicate Genuine(sys: System, r: Request, begun: nat, o: Outcome, fromCache: bool, rt: Runtime) {
    exists j: nat :: IsAnswer(sys, r, begun, o, fromCache, rt, j)
  }

  ghost predicate IsAnswer(sys: System, r: Request, begun: nat, o: Outcome, fromCache: bool, rt: Runtime, j: nat) {
    && Recorded(sys, j) && begun <= RevisionOf(sys.past[j])
    && o == Answer(sys.past[j], r, rt) && (r.orgId.Some? ==> o.revisionUsed == RevisionOf(sys.past[j]))
    && (fromCache ==> forall ctx: Context :: Answer(sys.past[j], r.(context := ctx), rt) == o)
  }

  // A cached decision is the answer in one past state of its key's revision, for every context.
  ghost predicate GoodEntry(sys: System, key: Key, rt: Runtime)
    requires key in sys.cache
  {
    exists j: nat :: EntryFrom(sys, key, sys.cache[key], rt, j)
  }

  ghost predicate EntryFrom(sys: System, key: Key, d: Decision, rt: Runtime, j: nat) {
    && Recorded(sys, j) && RevisionOf(sys.past[j]) == key.revision
    && forall r: Request | KeyFor(r, key.revision) == Some(key) ::
         Answer(sys.past[j], r, rt) == Outcome(d, key.revision, true)
  }

  ghost predicate GoodKey(sys: System, r: Request, begun: nat, key: Option<Key>) {
    key.Some? ==> begun <= key.value.revision <= RevisionOf(sys.stored) && key == KeyFor(r, key.value.revision)
  }

  ghost predicate GoodCheck(sys: System, c: Check, rt: Runtime) {
    && c.begun <= RevisionOf(sys.stored)
    && match c
       case Begun(_, _) => true
       case KnowsRevision(r, begun, key) => GoodKey(sys, r, begun, key)
       case Missed(r, begun, key) => GoodKey(sys, r, begun, key)
       case Evaluated(r, begun, key, o) => GoodKey(sys, r, begun, key) && Genuine(sys, r, begun, o, false, rt)
       case Done(r, begun, o, fromCache) => Genuine(sys, r, begun, o, fromCache, rt)
  }

  ghost predicate Inv(sys: System, rt: Runtime) {
    && sys.past != [] && sys.past[|sys.past| - 1] == sys.stored
    && (forall j: nat | j < |sys.past| :: Recorded(sys, j))
    && (forall key | key in sys.cache :: GoodEntry(sys, key, rt))
    && (forall i | i in sys.checks :: GoodCheck(sys, sys.checks[i], rt))
  }

  // Without applicable policies the context plays no part.
  lemma CacheableIgnoresContext(stored: Index.System, r: Request, r': Request, rt: Runtime, revision: nat)
    requires Index.Inv(stored) && Answer(stored, r, rt).cacheable
    requires KeyFor(r, revision).Some? && KeyFor(r, revision) == KeyFor(r', revision)
    ensures Answer(stored, r', rt) == Answer(stored, r, rt)
  {
    var org := r.orgId.value;
    assert Rebac(stored, org, r) == Rebac(stored, org, r');
    NoPolicyNoContext(Rebac(stored, org, r), r.context, rt);
    NoPolicyNoContext(Rebac(stored, org, r), r'.context, rt);
  }

  // Past states stay where they are.
  ghost predicate Grows(sys: System, sys': System) {
    sys.past <= sys'.past && RevisionOf(sys.stored) <= RevisionOf(sys'.stored)
  }

  lemma AnswerStays(sys: System, sys': System, r: Request, begun: nat, o: Outcome, fromCache: bool, rt: Runtime)
    requires Grows(sys, sys') && Genuine(sys, r, begun, o, fromCache, rt)
    ensures Genuine(sys', r, begun, o, fromCache, rt)
  {
    var j: nat :| IsAnswer(sys, r, begun, o, fromCache, rt, j);
    assert sys'.past[j] == sys.past[j];
    assert IsAnswer(sys', r, begun, o, fromCache, rt, j);
  }

  lemma EntryStays(sys: System, sys': System, key: Key, rt: Runtime)
    requires Grows(sys, sys') && key in sys.cache && key in sys'.cache && sys'.cache[key] == sys.cache[key]
    requires GoodEntry(sys, key, rt)
    ensures GoodEntry(sys', key, rt)
  {
    var j: nat :| EntryFrom(sys, key, sys.cache[key], rt, j);
    assert sys'.past[j] == sys.past[j];
    assert EntryFrom(sys', key, sys'.cache[key], rt, j);
  }

  lemma CheckStays(sys: System, sys': System, c: Check, rt: Runtime)
    requires Grows(sys, sys') && GoodCheck(sys, c, rt)
    ensures GoodCheck(sys', c, rt)
  {
    match c
    case Evaluated(r, begun, key, o) => AnswerStays(sys, sys', r, begun, o, false, rt);
    case Done(r, begun, o, fromCache) => AnswerStays(sys, sys', r, begun, o, fromCache, rt);
    case _ =>
  }

  // A step of the database or the index.
  lemma StoreKeepsInv(sys: System, st: Index.Step, rt: Runtime)
    requires Inv(sys, rt) && Index.Enabled(sys.stored, st)
    ensures Inv(Next(sys, Store(st), rt), rt)
  {
    var sys' := Next(sys, Store(st), rt);
    assert Recorded(sys, |sys.past| - 1);
    Index.StepKeepsInv(sys.stored, st);
    Index.RevisionNeverFalls(sys.stored, st);
    assert Grows(sys, sys');
    forall j: nat | j < |sys'.past| ensures Recorded(sys', j) {
      if j < |sys.past| { assert Recorded(sys, j) && sys'.past[j] == sys.past[j]; }
    }
    forall key | key in sys'.cache ensures GoodEntry(sys', key, rt) { EntryStays(sys, sys', key, rt); }
    forall i | i in sys'.checks ensures GoodCheck(sys', sys'.checks[i], rt) {
      CheckStays(sys, sys', sys.checks[i], rt);
    }
  }

  lemma LookupIsGood(sys: System, i: nat, rt: Runtime)
    requires Inv(sys, rt) && Enabled(sys, Lookup(i))
    ensures var sys' := Next(sys, Lookup(i), rt); GoodCheck(sys', sys'.checks[i], rt)
  {
    var sys', c := Next(sys, Lookup(i), rt), sys.checks[i];
    assert GoodCheck(sys, c, rt);
    if c.key.Some? && c.key.value in sys.cache {
      var key, o := c.key.value, sys'.checks[i].outcome;
      assert GoodEntry(sys, key, rt);
      var j: nat :| EntryFrom(sys, key, sys.cache[key], rt, j);
      assert forall ctx: Context :: KeyFor(c.request.(context := ctx), key.revision) == Some(key);
      assert IsAnswer(sys', c.request, c.begun, o, true, rt, j);
    }
  }

  lemma EvaluateIsGood(sys: System, i: nat, rt: Runtime)
    requires Inv(sys, rt) && Enabled(sys, EvaluateIn(i))
    ensures var sys' := Next(sys, EvaluateIn(i), rt); GoodCheck(sys', sys'.checks[i], rt)
  {
    var sys', c := Next(sys, EvaluateIn(i), rt), sys.checks[i];
    assert GoodCheck(sys, c, rt);
    var j := |sys.past| - 1;
    assert Recorded(sys, j) && Recorded(sys', j);
    assert IsAnswer(sys', c.request, c.begun, sys'.checks[i].outcome, false, rt, j);
  }

  // The acting check is good after its step.
  lemma CheckStepIsGood(sys: System, step: Step, i: nat, rt: Runtime)
    requires Inv(sys, rt) && Enabled(sys, step) && !step.Store? && !step.Evict? && step.i == i
    ensures var sys' := Next(sys, step, rt);
            i in sys'.checks && GoodCheck(sys', sys'.checks[i], rt)
  {
    var sys' := Next(sys, step, rt);
    if i in sys.checks { assert GoodCheck(sys, sys.checks[i], rt); }
    match step
    case Lookup(_) => LookupIsGood(sys, i, rt);
    case EvaluateIn(_) => EvaluateIsGood(sys, i, rt);
    case Remember(_) =>
      AnswerStays(sys, sys', sys.checks[i].request, sys.checks[i].begun, sys.checks[i].outcome, false, rt);
    case _ =>
  }

  lemma StoredEntryIsGood(sys: System, i: nat, rt: Runtime)
    requires Inv(sys, rt) && Enabled(sys, Remember(i))
    requires sys.checks[i].key.Some? && sys.checks[i].outcome.cacheable
    ensures var sys' := Next(sys, Remember(i), rt);
            var key := sys.checks[i].key.value.(revision := sys.checks[i].outcome.revisionUsed);
            key in sys'.cache && GoodEntry(sys', key, rt)
  {
    var sys', c := Next(sys, Remember(i), rt), sys.checks[i];
    var key := c.key.value.(revision := c.outcome.revisionUsed);
    assert GoodCheck(sys, c, rt);
    var j: nat :| IsAnswer(sys, c.request, c.begun, c.outcome, false, rt, j);
    forall r: Request | KeyFor(r, key.revision) == Some(key)
      ensures Answer(sys'.past[j], r, rt) == Outcome(sys'.cache[key], key.revision, true)
    {
      CacheableIgnoresContext(sys.past[j], c.request, r, rt, key.revision);
    }
    assert EntryFrom(sys', key, sys'.cache[key], rt, j);
  }

  lemma CheckStepKeepsCache(sys: System, step: Step, rt: Runtime)
    requires Inv(sys, rt) && Enabled(sys, step) && !step.Store?
    ensures var sys' := Next(sys, step, rt); forall key | key in sys'.cache :: GoodEntry(sys', key, rt)
  {
    var sys' := Next(sys, step, rt);
    forall key | key in sys'.cache ensures GoodEntry(sys', key, rt) {
      if step.Remember? && sys.checks[step.i].key.Some? && sys.checks[step.i].outcome.cacheable
         && key == sys.checks[step.i].key.value.(revision := sys.checks[step.i].outcome.revisionUsed) {
        StoredEntryIsGood(sys, step.i, rt);
      } else {
        EntryStays(sys, sys', key, rt);
      }
    }
  }

  lemma CheckStepKeepsChecks(sys: System, step: Step, rt: Runtime)
    requires Inv(sys, rt) && Enabled(sys, step) && !step.Store?
    ensures var sys' := Next(sys, step, rt); forall i | i in sys'.checks :: GoodCheck(sys', sys'.checks[i], rt)
  {
    var sys' := Next(sys, step, rt);
    if !step.Evict? { CheckStepIsGood(sys, step, step.i, rt); }
    forall i | i in sys'.checks ensures GoodCheck(sys', sys'.checks[i], rt) {
      if step.Evict? || i != step.i { CheckStays(sys, sys', sys.checks[i], rt); }
    }
  }

  lemma StepKeepsInv(sys: System, step: Step, rt: Runtime)
    requires Inv(sys, rt) && Enabled(sys, step)
    ensures Inv(Next(sys, step, rt), rt)
  {
    if step.Store? {
      StoreKeepsInv(sys, step.step, rt);
    } else {
      var sys' := Next(sys, step, rt);
      assert sys'.past == sys.past && sys'.stored == sys.stored;
      forall j: nat | j < |sys'.past| ensures Recorded(sys', j) { assert Recorded(sys, j); }
      CheckStepKeepsChecks(sys, step, rt);
      CheckStepKeepsCache(sys, step, rt);
    }
  }

  lemma {:induction false} RunKeepsInv(trace: seq<System>, k: nat, rt: Runtime)
    requires Run(trace, rt) && k < |trace|
    ensures Inv(trace[k], rt)
  {
    if k == 0 {
      Index.InitialIsGood(trace[0].stored);
      assert Recorded(trace[0], 0);
    } else {
      RunKeepsInv(trace, k - 1, rt);
      assert Leads(trace[k - 1], trace[k], rt);
      var step :| Enabled(trace[k - 1], step) && trace[k] == Next(trace[k - 1], step, rt);
      StepKeepsInv(trace[k - 1], step, rt);
    }
  }

  // ----- Main results -----

  // Every finished check, cached or fresh, is the answer on one past state of database and
  // index, of a revision no older than any write committed before it began. A cached answer
  // is that state's answer for every context, and an at-least request is answered at or after
  // its revision or denied.
  lemma NoStaleCheck(trace: seq<System>, k: nat, i: nat, rt: Runtime)
    requires Run(trace, rt) && k < |trace| && i in trace[k].checks && trace[k].checks[i].Done?
    ensures var sys, c := trace[k], trace[k].checks[i];
            exists j: nat ::
              && Recorded(sys, j) && c.begun <= RevisionOf(sys.past[j])
              && c.outcome == Answer(sys.past[j], c.request, rt)
              && (c.request.consistency.AtLeast? && c.request.orgId.Some?
                  && RevisionOf(sys.past[j]) < c.request.consistency.revision ==>
                    c.outcome.decision == DenyWith([ConsistencyUnavailable]))
              && (c.fromCache ==> forall ctx: Context ::
                    Answer(sys.past[j], c.request.(context := ctx), rt) == c.outcome)
  {
    RunKeepsInv(trace, k, rt);
    var sys, c := trace[k], trace[k].checks[i];
    assert GoodCheck(sys, c, rt);
    var j: nat :| IsAnswer(sys, c.request, c.begun, c.outcome, c.fromCache, rt, j);
    assert Recorded(sys, j);
  }

  // ----- The same in terms of the run alone -----

  // The check is there, for this request and begun at this revision.
  ghost predicate IsFor(sys: System, i: nat, r: Request, begun: nat) {
    i in sys.checks && sys.checks[i].request == r && sys.checks[i].begun == begun
  }

  ghost predicate StaysFor(trace: seq<System>, k: nat, i: nat, r: Request, begun: nat)
    requires k + 1 < |trace|
  {
    IsFor(trace[k], i, r, begun) ==> IsFor(trace[k + 1], i, r, begun)
  }

  lemma RunKeepsCheck(trace: seq<System>, k: nat, i: nat, r: Request, begun: nat, rt: Runtime)
    requires Run(trace, rt) && k + 1 < |trace|
    ensures StaysFor(trace, k, i, r, begun)
  {
    assert Leads(trace[k], trace[k + 1], rt);
  }

  lemma {:induction false} IsForOnward(trace: seq<System>, j: nat, k: nat, i: nat, r: Request, begun: nat)
    requires j <= k < |trace| && IsFor(trace[j], i, r, begun)
    requires forall m: nat | m + 1 < |trace| :: StaysFor(trace, m, i, r, begun)
    ensures IsFor(trace[k], i, r, begun)
  {
    if j < k {
      IsForOnward(trace, j, k - 1, i, r, begun);
      assert StaysFor(trace, k - 1, i, r, begun);
    }
  }

  // The recorded past states are states of the run.
  ghost predicate PastIsHistory(trace: seq<System>, k: nat)
    requires k < |trace|
  {
    forall x: nat | x < |trace[k].past| :: exists m: nat | m <= k :: trace[k].past[x] == trace[m].stored
  }

  lemma {:induction false} RunRecordsHistory(trace: seq<System>, k: nat, rt: Runtime)
    requires Run(trace, rt) && k < |trace|
    ensures PastIsHistory(trace, k)
  {
    if k == 0 {
      assert trace[0].past[0] == trace[0].stored;
    } else {
      RunRecordsHistory(trace, k - 1, rt);
      assert Leads(trace[k - 1], trace[k], rt);
      forall x: nat | x < |trace[k].past| ensures exists m: nat | m <= k :: trace[k].past[x] == trace[m].stored {
        if x < |trace[k - 1].past| {
          var m: nat :| m <= k - 1 && trace[k - 1].past[x] == trace[m].stored;
          assert trace[k].past[x] == trace[m].stored;
        } else {
          assert trace[k].past[x] == trace[k].stored;
        }
      }
    }
  }

  lemma AnswerOfTheRun(trace: seq<System>, k: nat, i: nat, rt: Runtime)
    requires k < |trace| && Inv(trace[k], rt) && PastIsHistory(trace, k)
    requires i in trace[k].checks && trace[k].checks[i].Done?
    ensures var c := trace[k].checks[i];
            exists m: nat | m <= k ::
              && Index.Inv(trace[m].stored) && RevisionOf(trace[m].stored) >= c.begun
              && c.outcome == Answer(trace[m].stored, c.request, rt)
  {
    var sys, c := trace[k], trace[k].checks[i];
    assert GoodCheck(sys, c, rt);
    var x: nat :| IsAnswer(sys, c.request, c.begun, c.outcome, c.fromCache, rt, x);
    var m: nat :| m <= k && sys.past[x] == trace[m].stored;
    assert Index.Inv(trace[m].stored);
  }

  // A check that begins in one state of a run and has ended in a later one answered its request as
  // some state of the run up to then does, of a revision no older than the one it began at.
  lemma EveryCheckIsCurrent(trace: seq<System>, j: nat, k: nat, i: nat, r: Request, rt: Runtime)
    requires Run(trace, rt) && j < k < |trace| && Enabled(trace[j], Begin(i, r))
    requires trace[j + 1] == Next(trace[j], Begin(i, r), rt) && i in trace[k].checks && trace[k].checks[i].Done?
    ensures exists m: nat | m <= k ::
              && Index.Inv(trace[m].stored) && RevisionOf(trace[m].stored) >= RevisionOf(trace[j].stored)
              && trace[k].checks[i].outcome == Answer(trace[m].stored, r, rt)
  {
    var begun := RevisionOf(trace[j].stored);
    forall m: nat | m + 1 < |trace| ensures StaysFor(trace, m, i, r, begun) {
      RunKeepsCheck(trace, m, i, r, begun, rt);
    }
    IsForOnward(trace, j + 1, k, i, r, begun);
    RunKeepsInv(trace, k, rt);
    RunRecordsHistory(trace, k, rt);
    AnswerOfTheRun(trace, k, i, rt);
  }

  // The policy is stored for the organization and resource type, for this verb or for all.
  ghost predicate Governs(db: Db, p: Policy, r: Request) {
    && p.id in db.policies && db.policies[p.id] == p
    && r.orgId == Some(p.orgId) && p.resourceType == r.resource.kind && p.action in {r.action.verb, "*"}
  }

  lemma GoverningApply(db: Db, r: Request)
    requires r.orgId.Some? && GoodDb(db)
    ensures forall p :: p in Applicable(db.policies, r.orgId.value, r.resource.kind, r.action.verb)
              <==> Governs(db, p, r)
  {
    var org := r.orgId.value;
    forall p ensures p in Applicable(db.policies, org, r.resource.kind, r.action.verb) <==> Governs(db, p, r) {
      assert Applies(p, org, r.resource.kind, r.action.verb) <==>
          (r.orgId == Some(p.orgId) && p.resourceType == r.resource.kind && p.action in {r.action.verb, "*"});
    }
  }

  // A request is refused without an organization or before its revision; otherwise it is
  // answered at the current one: permitted if and only if no governing policy forbids and
  // relationships or a governing policy permit, and cacheable if and only if none governs.
  lemma AnswerFollowsPolicies(stored: Index.System, r: Request, rt: Runtime)
    requires Index.Inv(stored)
    ensures var db, o := stored.writers.db, Answer(stored, r, rt);
            if r.orgId.None? then o.decision == DenyWith([NoOrgContext]) && !o.cacheable
            else if r.consistency.AtLeast? && RevisionOf(stored) < r.consistency.revision then
              o.decision == DenyWith([ConsistencyUnavailable]) && !o.cacheable
            else
              && o.revisionUsed == RevisionOf(stored)
              && (o.cacheable <==> forall p :: !Governs(db, p, r))
              && (o.decision.effect == Permit <==>
                    && (forall p | Governs(db, p, r) && p.effect == ForbidPolicy :: IsFalse(p.condition, r.context, rt))
                    && (|| Rebac(stored, r.orgId.value, r).effect == Permit
                        || exists p | Governs(db, p, r) ::
                             p.effect == PermitPolicy && IsTrue(p.condition, r.context, rt)))
  {
    if r.orgId.Some? {
      var db := stored.writers.db;
      var policies := Applicable(db.policies, r.orgId.value, r.resource.kind, r.action.verb);
      GoverningApply(db, r);
      PoliciesDecide(Rebac(stored, r.orgId.value, r), policies, r.context, rt);
      if policies != [] { assert policies[0] in policies; }
    }
  }

  // While its revision is the current one, a cacheable answer that was remembered answers the
  // next check of the same question from the cache, whatever its context.
  lemma RememberedAnswerIsReused(sys: System, i: nat, j: nat, r: Request, rt: Runtime)
    requires Inv(sys, rt) && Enabled(sys, Remember(i)) && sys.checks[i].key.Some? && sys.checks[i].outcome.cacheable
    requires sys.checks[i].outcome.revisionUsed == RevisionOf(sys.stored) && j !in sys.checks
    requires r.(context := sys.checks[i].request.context) == sys.checks[i].request
    ensures var s1 := Next(sys, Remember(i), rt);
            Enabled(s1, Begin(j, r)) &&
            var s2 := Next(s1, Begin(j, r), rt);
            Enabled(s2, ReadRevision(j)) &&
            var s3 := Next(s2, ReadRevision(j), rt);
            Enabled(s3, Lookup(j)) &&
            var c := Next(s3, Lookup(j), rt).checks[j];
            c.Done? && c.fromCache && c.outcome == sys.checks[i].outcome
  {
    assert GoodCheck(sys, sys.checks[i], rt);
    var key := KeyFor(r, RevisionOf(sys.stored));
    assert key == Some(sys.checks[i].key.value.(revision := RevisionOf(sys.stored)));
    var s1 := Next(sys, Remember(i), rt);
    assert key.value in s1.cache && s1.cache[key.value] == sys.checks[i].outcome.decision;
    var s3 := Next(Next(s1, Begin(j, r), rt), ReadRevision(j), rt);
    assert s3.checks[j] == KnowsRevision(r, RevisionOf(sys.stored), key) && s3.cache == s1.cache;
  }

  // What such an answer is worth. Of an organization without exclusions, a permit by
  // relationship rests on a required relation that held among its stored facts, within the
  // depth bound, whatever the index and the load left out.
  lemma AnsweredPermitIsMembership(stored: Index.System, r: Request, rt: Runtime)
    requires Index.Inv(stored) && r.orgId.Some?
    requires var d := Answer(stored, r, rt).decision;
             d.effect == Permit && d.reasons != [] && d.reasons[0].Granted?
    requires ExclusionFreeGraph(Stored(stored.writers.db, r.orgId.value).graph)
    ensures var s := Stored(stored.writers.db, r.orgId.value);
            var q, m := Query(s.orgId, r.subject, r.action, r.resource), Members(s.graph, r.subject);
            exists relation :: && Requires(q, s, relation) && Node(r.resource, relation) in m
                               && Within(s.graph, r.subject, m, m, MAX_USERSET_DEPTH, Node(r.resource, relation))
  {
    var org := r.orgId.value;
    var s, q := Stored(stored.writers.db, org), Query(org, r.subject, r.action, r.resource);
    Index.InvGivesFreshView(stored, org, r.subject, s);
    CheckedPermitIsMembership(q, s, Index.View(stored, org, r.subject));
  }

  // Of an organization on which the load decides alike, a check without applicable policies
  // permits whatever evaluation of all stored facts permits, and denies what it denies untruncated.
  lemma AnswerDecidesAlike(stored: Index.System, r: Request, rt: Runtime)
    requires Index.Inv(stored) && r.orgId.Some? && r.consistency.Full?
    requires Applicable(stored.writers.db.policies, r.orgId.value, r.resource.kind, r.action.verb) == []
    requires var s := Stored(stored.writers.db, r.orgId.value);
             DecidesAlike(Indexed(s, Index.View(stored, s.orgId, r.subject)),
                          Query(s.orgId, r.subject, r.action, r.resource))
    ensures var s := Stored(stored.writers.db, r.orgId.value);
            var plain := Evaluate(Query(s.orgId, r.subject, r.action, r.resource), s);
            var d := Answer(stored, r, rt).decision;
            && (plain.effect == Permit ==> d.effect == Permit)
            && (WalkTruncated !in plain.reasons ==> d.effect == plain.effect && WalkTruncated !in d.reasons)
  {
    var org := r.orgId.value;
    var s, q := Stored(stored.writers.db, org), Query(org, r.subject, r.action, r.resource);
    Index.InvGivesFreshView(stored, org, r.subject, s);
    FreshChecksAreSafe(q, s, Index.View(stored, org, r.subject));
    NoPolicyNoContext(Rebac(stored, org, r), r.context, rt);
  }
}
