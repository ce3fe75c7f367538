/** The stored tables as the history of committed operations: for every key the last one counts. */
module StoreHistory {
  import opened Refs
  import opened Snapshots
  import opened Conditions
  import opened Store

  ghost predicate Leads(w: Writers, w': Writers) {
    exists step :: WriterEnabled(w, step) && w' == WriterNext(w, step)
  }

  ghost predicate Run(trace: seq<Writers>) {
    trace != [] && trace[0] == EMPTY && forall k | 0 <= k < |trace| - 1 :: Leads(trace[k], trace[k + 1])
  }

  // From `w` to `w'` the transaction holding the lock committed: only that moves the revision.
  function CommittedIn(w: Writers, w': Writers): seq<Pending> {
    if w.holder.Some? && w'.db.revision != w.db.revision then [w.holder.value] else []
  }

  // The committed operations up to a state of the run, in commit order, with their revisions.
  function History(trace: seq<Writers>, k: nat): seq<Pending>
    requires k < |trace|
  {
    if k == 0 then [] else History(trace, k - 1) + CommittedIn(trace[k - 1], trace[k])
  }

  // ----- The last operation on a key -----

  predicate Sets(op: Op, org: string, key: TupleKey) { op == WriteTuple(org, key) }

  predicate Clears(op: Op, org: string, key: TupleKey) { op == RevokeTuple(org, key) }

  // The tuple was written and not revoked since.
  ghost predicate Written(h: seq<Pending>, org: string, key: TupleKey) {
    exists i | 0 <= i < |h| :: Sets(h[i].op, org, key) && forall j | i < j < |h| :: !Clears(h[j].op, org, key)
  }

  predicate Defines(op: Op, org: string, namespace: string) {
    op.DefineNamespace? && op.orgId == org && op.namespace == namespace
  }

  // The namespace was defined like this, and not defined again since.
  ghost predicate Defined(h: seq<Pending>, org: string, namespace: string, config: NamespaceConfig) {
    exists i | 0 <= i < |h| ::
      && h[i].op == DefineNamespace(org, namespace, config)
      && forall j | i < j < |h| :: !Defines(h[j].op, org, namespace)
  }

  predicate Replaces(op: Op, policy: Policy) {
    || (op.WritePolicy? && op.policy.id == policy.id)
    || op == DeletePolicy(policy.orgId, policy.id)
  }

  // The policy was written like this, and neither written again nor deleted since.
  ghost predicate InForce(h: seq<Pending>, policy: Policy) {
    exists i | 0 <= i < |h| ::
      h[i].op == WritePolicy(policy) && forall j | i < j < |h| :: !Replaces(h[j].op, policy)
  }

  // What the log must hold: every write, and every revocation of a tuple that was there.
  ghost function LogOf(h: seq<Pending>): seq<Change> {
    if h == [] then []
    else
      var before, last := h[..|h| - 1], h[|h| - 1];
      LogOf(before) + match last.op
                      case WriteTuple(org, key) => [Change(org, last.revision, true, key)]
                      case RevokeTuple(org, key) =>
                        if Written(before, org, key) then [Change(org, last.revision, false, key)] else []
                      case _ => []
  }

  // ----- One more committed operation -----

  lemma WrittenStep(h: seq<Pending>, p: Pending, org: string, key: TupleKey)
    ensures Written(h + [p], org, key) <==> Sets(p.op, org, key) || (Written(h, org, key) && !Clears(p.op, org, key))
  {
    var h' := h + [p];
    if Sets(p.op, org, key) {
      assert h'[|h|] == p;
    }
    if !(Sets(p.op, org, key)) && Written(h', org, key) {
      var i :| 0 <= i < |h'| && Sets(h'[i].op, org, key) && forall j | i < j < |h'| :: !Clears(h'[j].op, org, key);
      assert h'[|h|] == p && h[i] == h'[i];
      assert forall j | i < j < |h| :: h[j] == h'[j];
    }
    if Written(h, org, key) && !Clears(p.op, org, key) {
      var i :| 0 <= i < |h| && Sets(h[i].op, org, key) && forall j | i < j < |h| :: !Clears(h[j].op, org, key);
      assert h'[i] == h[i];
      assert forall j | i < j < |h'| :: !Clears(h'[j].op, org, key);
    }
  }

  lemma DefinedStep(h: seq<Pending>, p: Pending, org: string, namespace: string, config: NamespaceConfig)
    ensures Defined(h + [p], org, namespace, config)
       <==> || p.op == DefineNamespace(org, namespace, config)
            || (Defined(h, org, namespace, config) && !Defines(p.op, org, namespace))
  {
    var h' := h + [p];
    if p.op == DefineNamespace(org, namespace, config) {
      assert h'[|h|] == p;
    }
    if !(p.op == DefineNamespace(org, namespace, config)) && Defined(h', org, namespace, config) {
      var i :| && 0 <= i < |h'| && h'[i].op == DefineNamespace(org, namespace, config)
               && forall j | i < j < |h'| :: !Defines(h'[j].op, org, namespace);
      assert h'[|h|] == p && h[i] == h'[i];
      assert forall j | i < j < |h| :: h[j] == h'[j];
    }
    if Defined(h, org, namespace, config) && !Defines(p.op, org, namespace) {
      var i :| && 0 <= i < |h| && h[i].op == DefineNamespace(org, namespace, config)
               && forall j | i < j < |h| :: !Defines(h[j].op, org, namespace);
      assert h'[i] == h[i];
      assert forall j | i < j < |h'| :: !Defines(h'[j].op, org, namespace);
    }
  }

  lemma InForceStep(h: seq<Pending>, p: Pending, policy: Policy)
    ensures InForce(h + [p], policy) <==> p.op == WritePolicy(policy) || (InForce(h, policy) && !Replaces(p.op, policy))
  {
    var h' := h + [p];
    if p.op == WritePolicy(policy) {
      assert h'[|h|] == p;
    }
    if !(p.op == WritePolicy(policy)) && InForce(h', policy) {
      var i :| 0 <= i < |h'| && h'[i].op == WritePolicy(policy)
               && forall j | i < j < |h'| :: !Replaces(h'[j].op, policy);
      assert h'[|h|] == p && h[i] == h'[i];
      assert forall j | i < j < |h| :: h[j] == h'[j];
    }
    if InForce(h, policy) && !Replaces(p.op, policy) {
      var i :| 0 <= i < |h| && h[i].op == WritePolicy(policy) && forall j | i < j < |h| :: !Replaces(h[j].op, policy);
      assert h'[i] == h[i];
      assert forall j | i < j < |h'| :: !Replaces(h'[j].op, policy);
    }
  }

  // ----- The tables follow the history -----

  ghost predicate TuplesFollow(db: Db, h: seq<Pending>) {
    forall org: string, key: TupleKey {:trigger Written(h, org, key)} ::
      key in RowsOf(db, org).tuples <==> Written(h, org, key)
  }

  ghost predicate HasDefinition(db: Db, org: string, namespace: string, config: NamespaceConfig) {
    var namespaces := RowsOf(db, org).namespaces;
    namespace in namespaces && namespaces[namespace] == NamespaceDefinition(org, namespace, config)
  }

  ghost predicate NamespacesFollow(db: Db, h: seq<Pending>) {
    forall org: string, namespace: string, config: NamespaceConfig {:trigger Defined(h, org, namespace, config)} ::
      HasDefinition(db, org, namespace, config) <==> Defined(h, org, namespace, config)
  }

  ghost predicate PoliciesFollow(db: Db, h: seq<Pending>) {
    forall policy: Policy {:trigger InForce(h, policy)} ::
      policy.id in db.policies && db.policies[policy.id] == policy <==> InForce(h, policy)
  }

  lemma TuplesStep(db: Db, h: seq<Pending>, p: Pending)
    requires TuplesFollow(db, h)
    ensures TuplesFollow(Apply(db, p.revision, p.op), h + [p])
  {
    var db' := Apply(db, p.revision, p.op);
    forall org: string, key: TupleKey
      ensures key in RowsOf(db', org).tuples <==> Written(h + [p], org, key)
    {
      WrittenStep(h, p, org, key);
      assert key in RowsOf(db, org).tuples <==> Written(h, org, key);
    }
  }

  lemma NamespacesStep(db: Db, h: seq<Pending>, p: Pending)
    requires NamespacesFollow(db, h)
    ensures NamespacesFollow(Apply(db, p.revision, p.op), h + [p])
  {
    var db' := Apply(db, p.revision, p.op);
    forall org: string, namespace: string, config: NamespaceConfig
      ensures HasDefinition(db', org, namespace, config) <==> Defined(h + [p], org, namespace, config)
    {
      DefinedStep(h, p, org, namespace, config);
      assert HasDefinition(db, org, namespace, config) <==> Defined(h, org, namespace, config);
    }
  }

  lemma PoliciesStep(db: Db, h: seq<Pending>, p: Pending)
    requires PoliciesFollow(db, h) && PoliciesKeyed(db)
    ensures PoliciesFollow(Apply(db, p.revision, p.op), h + [p]) && PoliciesKeyed(Apply(db, p.revision, p.op))
  {
    var db' := Apply(db, p.revision, p.op);
    forall policy: Policy
      ensures policy.id in db'.policies && db'.policies[policy.id] == policy <==> InForce(h + [p], policy)
    {
      InForceStep(h, p, policy);
      assert policy.id in db.policies && db.policies[policy.id] == policy <==> InForce(h, policy);
    }
  }

  lemma LogStep(db: Db, h: seq<Pending>, p: Pending)
    requires TuplesFollow(db, h) && db.changelog == LogOf(h)
    ensures Apply(db, p.revision, p.op).changelog == LogOf(h + [p])
  {
    assert (h + [p])[..|h|] == h;
    if p.op.RevokeTuple? {
      assert p.op.key in RowsOf(db, p.op.orgId).tuples <==> Written(h, p.op.orgId, p.op.key);
    }
  }

  ghost predicate Follows(db: Db, h: seq<Pending>) {
    && TuplesFollow(db, h) && NamespacesFollow(db, h) && PoliciesFollow(db, h) && PoliciesKeyed(db)
    && db.changelog == LogOf(h)
  }

  lemma EmptyFollows()
    ensures Follows(EMPTY.db, [])
  {
  }

  lemma CommitFollows(db: Db, h: seq<Pending>, p: Pending)
    requires Follows(db, h)
    ensures Follows(Apply(db, p.revision, p.op), h + [p])
  {
    TuplesStep(db, h, p);
    NamespacesStep(db, h, p);
    PoliciesStep(db, h, p);
    LogStep(db, h, p);
  }

  lemma StepFollows(w: Writers, w': Writers, h: seq<Pending>)
    requires WritersInv(w) && Leads(w, w') && Follows(w.db, h)
    ensures WritersInv(w') && Follows(w'.db, h + CommittedIn(w, w'))
  {
    var step :| WriterEnabled(w, step) && w' == WriterNext(w, step);
    WriterStepKeepsInv(w, step);
    if step.Commit? {
      CommitFollows(w.db, h, w.holder.value);
      assert w'.db.revision == w.holder.value.revision;
    } else {
      assert w'.db == w.db && h + [] == h;
    }
  }

  lemma {:induction false} RunFollows(trace: seq<Writers>, k: nat)
    requires Run(trace) && k < |trace|
    ensures WritersInv(trace[k]) && Follows(trace[k].db, History(trace, k))
  {
    if k == 0 {
      EmptyFollows();
      assert forall org: string :: GoodRows(EMPTY.db, org);
    } else {
      RunFollows(trace, k - 1);
      assert Leads(trace[k - 1], trace[k]);
      StepFollows(trace[k - 1], trace[k], History(trace, k - 1));
    }
  }

  // ----- Main results -----

  // In every run a tuple is stored if and only if it was written and not revoked since.
  lemma StoredTuplesAreWritten(trace: seq<Writers>, k: nat, org: string, key: TupleKey)
    requires Run(trace) && k < |trace|
    ensures key in RowsOf(trace[k].db, org).tuples <==> Written(History(trace, k), org, key)
  {
    RunFollows(trace, k);
    assert Written(History(trace, k), org, key) || !Written(History(trace, k), org, key);
  }

  // A namespace has exactly its last definition, and a policy is in force exactly as last written.
  lemma StoredDefinitionsAreLast(trace: seq<Writers>, k: nat, org: string, namespace: string, config: NamespaceConfig)
    requires Run(trace) && k < |trace|
    ensures var namespaces := RowsOf(trace[k].db, org).namespaces;
            namespace in namespaces && namespaces[namespace] == NamespaceDefinition(org, namespace, config)
            <==> Defined(History(trace, k), org, namespace, config)
  {
    RunFollows(trace, k);
    assert HasDefinition(trace[k].db, org, namespace, config)
        <==> Defined(History(trace, k), org, namespace, config);
  }

  lemma StoredPoliciesAreLast(trace: seq<Writers>, k: nat, policy: Policy)
    requires Run(trace) && k < |trace|
    ensures policy.id in trace[k].db.policies && trace[k].db.policies[policy.id] == policy
       <==> InForce(History(trace, k), policy)
  {
    RunFollows(trace, k);
    assert InForce(History(trace, k), policy) || !InForce(History(trace, k), policy);
  }

  // Replaying the changelog gives the stored tuples; and it holds exactly the writes and the
  // revocations that removed something, in commit order, under their revisions.
  lemma ReplayingLogGivesTuples(trace: seq<Writers>, k: nat, org: string, key: TupleKey)
    requires Run(trace) && k < |trace|
    ensures key in RowsOf(trace[k].db, org).tuples <==> LogStands(trace[k].db.changelog, org, key)
    ensures trace[k].db.changelog == LogOf(History(trace, k))
  {
    RunFollows(trace, k);
    assert LogStands(trace[k].db.changelog, org, key) || !LogStands(trace[k].db.changelog, org, key);
  }

  // A committed write leaves the key stored, a committed revocation absent; every other key of
  // every organization stays as it was.
  lemma CommitTakesEffect(trace: seq<Writers>, k: nat, org: string, key: TupleKey)
    requires Run(trace) && k + 1 < |trace| && trace[k].holder.Some?
    requires trace[k + 1].db.revision != trace[k].db.revision
    ensures var before, after := RowsOf(trace[k].db, org).tuples, RowsOf(trace[k + 1].db, org).tuples;
            var op := trace[k].holder.value.op;
            && (op == WriteTuple(org, key) ==> key in after)
            && (op == RevokeTuple(org, key) ==> key !in after)
            && (op != WriteTuple(org, key) && op != RevokeTuple(org, key) ==> (key in after <==> key in before))
  {
    StoredTuplesAreWritten(trace, k, org, key);
    StoredTuplesAreWritten(trace, k + 1, org, key);
    WrittenStep(History(trace, k), trace[k].holder.value, org, key);
  }
}
