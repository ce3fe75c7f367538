/**
 What a run of the indexer leaves when it commits, whatever writers and other indexers did
 beside it: it forgets no organization of its window and rebuilds each one whole.
 */
module IndexCoverage {
  import opened Snapshots
  import opened Store
  import opened MembershipIndex

  // ----- What a run holds -----

  predicate Rebuilding(t: Indexer) { t.Working? || t.KnowsTuples? || t.KnowsNamespaces? }

  // Exactly the wanted rows of the organization, flattened from what is stored in some order.
  ghost predicate Whole(db: Db, org: string, rows: OrgIndex, upTo: nat) {
    exists g :: Presents(g, RowsOf(db, org).tuples, RowsOf(db, org).namespaces) && WholeFrom(db, org, rows, upTo, g)
  }

  ghost predicate WholeFrom(db: Db, org: string, rows: OrgIndex, upTo: nat, g: Graph) {
    Ranked(g.namespaces) && rows == WantedRows(g, ReferencedUsersets(RowsOf(db, org).tuples), upTo)
  }

  ghost predicate WholeUnlessMoved(db: Db, written: map<string, OrgIndex>, upTo: nat) {
    forall org | org in written && AtMost(db, org, upTo) :: Whole(db, org, written[org], upTo)
  }

  // The window's tuple changes are all accounted for, and what is written is whole.
  ghost predicate Thorough(db: Db, t: Indexer) {
    match t
    case KnowsChanges(cursor, upTo, orgs) =>
      forall c | c in db.changelog && cursor < c.revision <= upTo :: c.orgId in orgs
    case Working(upTo, _, written) => WholeUnlessMoved(db, written, upTo)
    case KnowsTuples(upTo, _, written, _, _) => WholeUnlessMoved(db, written, upTo)
    case KnowsNamespaces(upTo, _, written, _, _, _) => WholeUnlessMoved(db, written, upTo)
    case _ => true
  }

  ghost predicate AllThorough(sys: System) { forall i: nat :: Thorough(sys.writers.db, At(sys, i)) }

  // ----- Every step keeps it -----

  lemma CommitStaysWhole(db: Db, revision: nat, op: Op, written: map<string, OrgIndex>, upTo: nat)
    requires WholeUnlessMoved(db, written, upTo) && upTo < revision
    ensures WholeUnlessMoved(Apply(db, revision, op), written, upTo)
  {
    var db' := Apply(db, revision, op);
    forall org | org in written && AtMost(db', org, upTo) ensures Whole(db', org, written[org], upTo) {
      CommitMovesVersion(db, revision, op, org, upTo);
      var g :| Presents(g, RowsOf(db, org).tuples, RowsOf(db, org).namespaces)
               && WholeFrom(db, org, written[org], upTo, g);
      assert WholeFrom(db', org, written[org], upTo, g);
    }
  }

  lemma CommitStaysThorough(db: Db, revision: nat, op: Op, t: Indexer)
    requires GoodIndexer(db, t) && Thorough(db, t) && revision > db.revision
    ensures Thorough(Apply(db, revision, op), t)
  {
    if Rebuilding(t) {
      CommitStaysWhole(db, revision, op, t.written, t.upTo);
    } else if t.KnowsChanges? {
      forall c | c in Apply(db, revision, op).changelog && t.cursor < c.revision <= t.upTo ensures c.orgId in t.orgs {
        assert c in db.changelog;
      }
    }
  }

  // The page the run reads holds every change of its window.
  lemma ReadChangesIsThorough(sys: System, i: nat)
    requires Inv(sys) && Enabled(sys, ReadChanges(i))
    ensures Thorough(sys.writers.db, At(Next(sys, ReadChanges(i)), i))
  {
    var db, t, t' := sys.writers.db, At(sys, i), At(Next(sys, ReadChanges(i)), i);
    assert GoodIndexer(db, t);
    if t'.KnowsChanges? {
      forall c | c in db.changelog && t'.cursor < c.revision <= t'.upTo ensures c.orgId in t'.orgs {
        WindowIsCovered(db, t.cursor, t.high, sys.options.changePageSize, c);
      }
    }
  }

  lemma FlattenIsWhole(sys: System, i: nat, g: Graph)
    requires Inv(sys) && Enabled(sys, Flatten(i, g)) && Thorough(sys.writers.db, At(sys, i))
    ensures Thorough(sys.writers.db, At(Next(sys, Flatten(i, g)), i))
  {
    var db, t, t' := sys.writers.db, At(sys, i), At(Next(sys, Flatten(i, g)), i);
    assert GoodIndexer(db, t);
    forall org | org in t'.written && AtMost(db, org, t.upTo) ensures Whole(db, org, t'.written[org], t.upTo) {
      if org == t.org {
        assert WholeFrom(db, org, t'.written[org], t.upTo, g);
      } else {
        assert t'.written[org] == t.written[org];
      }
    }
  }

  lemma IndexerStaysThorough(sys: System, step: Step)
    requires Inv(sys) && AllThorough(sys) && Enabled(sys, step) && !step.Write?
    ensures AllThorough(Next(sys, step))
  {
    var sys' := Next(sys, step);
    IndexerStepIsGood(sys, step, step.i);
    forall j: nat ensures Thorough(sys.writers.db, At(sys', j)) {
      if j != step.i {
        assert At(sys', j) == At(sys, j);
      } else {
        assert Thorough(sys.writers.db, At(sys, j));
        match step
        case ReadChanges(_) => ReadChangesIsThorough(sys, j);
        case Flatten(_, g) => FlattenIsWhole(sys, j, g);
        case _ =>
      }
    }
  }

  lemma StepStaysThorough(sys: System, sys': System)
    requires Inv(sys) && AllThorough(sys) && Leads(sys, sys')
    ensures AllThorough(sys')
  {
    var step :| Enabled(sys, step) && sys' == Next(sys, step);
    if !step.Write? {
      IndexerStaysThorough(sys, step);
    } else {
      forall i: nat ensures Thorough(sys'.writers.db, At(sys', i)) {
        assert At(sys', i) == At(sys, i) && GoodIndexer(sys.writers.db, At(sys, i));
        if step.step.Commit? {
          var p := sys.writers.holder.value;
          CommitStaysThorough(sys.writers.db, p.revision, p.op, At(sys, i));
        }
      }
    }
  }

  lemma {:induction false} RunIsThorough(trace: seq<System>, k: nat)
    requires Run(trace) && k < |trace|
    ensures AllThorough(trace[k])
  {
    if k > 0 {
      RunIsThorough(trace, k - 1);
      RunKeepsInv(trace, k - 1);
      assert Leads(trace[k - 1], trace[k]);
      StepStaysThorough(trace[k - 1], trace[k]);
    }
  }

  // ----- Nothing in hand is dropped -----

  // The run, whose window ends at `upTo`, has the organization still to do or written.
  ghost predicate InHand(sys: System, i: nat, org: string, upTo: nat) {
    var t := At(sys, i);
    Rebuilding(t) && t.upTo == upTo && (org in t.todo || org in t.written)
  }

  lemma StepKeepsInHand(sys: System, sys': System, i: nat, org: string, upTo: nat)
    requires Leads(sys, sys') && InHand(sys, i, org, upTo) && Fits(sys, org) && Rebuilding(At(sys', i))
    ensures InHand(sys', i, org, upTo)
  {
    var step :| Enabled(sys, step) && sys' == Next(sys, step);
    if step.Write? || step.i != i {
      assert At(sys', i) == At(sys, i);
    }
  }

  // While the run goes on and the organization stays within the bound.
  ghost predicate StaysInHand(trace: seq<System>, m: nat, i: nat, org: string, upTo: nat)
    requires m + 1 < |trace|
  {
    InHand(trace[m], i, org, upTo) && Fits(trace[m], org) && Rebuilding(At(trace[m + 1], i)) ==>
      InHand(trace[m + 1], i, org, upTo)
  }

  lemma RunKeepsInHand(trace: seq<System>, m: nat, i: nat, org: string, upTo: nat)
    requires Run(trace) && m + 1 < |trace|
    ensures StaysInHand(trace, m, i, org, upTo)
  {
    assert Leads(trace[m], trace[m + 1]);
    if InHand(trace[m], i, org, upTo) && Fits(trace[m], org) && Rebuilding(At(trace[m + 1], i)) {
      StepKeepsInHand(trace[m], trace[m + 1], i, org, upTo);
    }
  }

  ghost predicate Undropped(trace: seq<System>, j: nat, k: nat, i: nat, org: string)
    requires k < |trace|
  {
    forall m: nat | j <= m <= k :: Rebuilding(At(trace[m], i)) && Fits(trace[m], org)
  }

  lemma {:induction false} InHandOnward(trace: seq<System>, j: nat, k: nat, i: nat, org: string, upTo: nat)
    requires j <= k < |trace| && InHand(trace[j], i, org, upTo) && Undropped(trace, j, k, i, org)
    requires forall m: nat | m + 1 < |trace| :: StaysInHand(trace, m, i, org, upTo)
    ensures InHand(trace[k], i, org, upTo)
  {
    if j < k {
      InHandOnward(trace, j, k - 1, i, org, upTo);
      assert StaysInHand(trace, k - 1, i, org, upTo);
    }
  }

  // An organization whose facts last changed in the window is among those the run takes up.
  lemma WindowIsTakenUp(sys: System, i: nat, org: string)
    requires AllThorough(sys) && Enabled(sys, ReadNamespaceChanges(i))
    requires At(sys, i).cursor < Version(sys.writers.db, org) <= At(sys, i).upTo
    ensures InHand(Next(sys, ReadNamespaceChanges(i)), i, org, At(sys, i).upTo)
  {
    var db, t, v := sys.writers.db, At(sys, i), Version(sys.writers.db, org);
    assert Thorough(db, t);
    GreatestIsGreatest(ChangeRevisions(db, org));
    if c :| c in db.changelog && c.orgId == org && c.revision == v {
      assert org in t.orgs;
    } else {
      var k :| k in RowsOf(db, org).definedAt && RowsOf(db, org).definedAt[k] == v;
      assert org in db.orgs;
    }
  }

  // ----- Main result -----

  // A run that read its changes in one state and commits in a later one, with anything going on
  // beside it, leaves the cursor at the end of its window. Every organization whose facts had
  // last changed in the window, have not moved on since and stayed within the bound has then
  // exactly its wanted rows, and all of them are accepted.
  lemma CommittedRunCovers(trace: seq<System>, j: nat, k: nat, i: nat, org: string)
    requires Run(trace) && j < k && k + 1 < |trace|
    requires Enabled(trace[j], ReadNamespaceChanges(i)) && trace[j + 1] == Next(trace[j], ReadNamespaceChanges(i))
    requires Undropped(trace, j + 1, k, i, org)
    requires Enabled(trace[k], CommitIndex(i)) && trace[k + 1] == Next(trace[k], CommitIndex(i))
    requires At(trace[j], i).cursor < Version(trace[j].writers.db, org) <= At(trace[j], i).upTo
    requires Version(trace[k + 1].writers.db, org) <= At(trace[j], i).upTo
    ensures trace[k + 1].cursor == At(trace[j], i).upTo
    ensures var rows := RowsOf(trace[k + 1].writers.db, org);
            exists g: Graph :: Ranked(g.namespaces) && Presents(g, rows.tuples, rows.namespaces)
                        && IsRebuilt(trace[k + 1], org, g, At(trace[j], i).upTo) && AllAccepted(trace[k + 1], org, g)
  {
    var upTo := At(trace[j], i).upTo;
    RunIsThorough(trace, j);
    WindowIsTakenUp(trace[j], i, org);
    forall m: nat | m + 1 < |trace| ensures StaysInHand(trace, m, i, org, upTo) {
      RunKeepsInHand(trace, m, i, org, upTo);
    }
    InHandOnward(trace, j + 1, k, i, org, upTo);
    RunIsThorough(trace, k);
    CommitAccepts(trace[k], i, org, upTo);
  }

  lemma CommitAccepts(sys: System, i: nat, org: string, upTo: nat)
    requires AllThorough(sys) && Enabled(sys, CommitIndex(i)) && InHand(sys, i, org, upTo)
    requires Version(sys.writers.db, org) <= upTo
    ensures var sys' := Next(sys, CommitIndex(i));
            var rows := RowsOf(sys.writers.db, org);
            sys'.writers == sys.writers && sys'.cursor == upTo &&
            exists g: Graph :: Ranked(g.namespaces) && Presents(g, rows.tuples, rows.namespaces)
                        && IsRebuilt(sys', org, g, upTo) && AllAccepted(sys', org, g)
  {
    var db, t, sys' := sys.writers.db, At(sys, i), Next(sys, CommitIndex(i));
    VersionIsNewestChange(db, org, upTo);
    assert Thorough(db, t);
    var g :| Presents(g, RowsOf(db, org).tuples, RowsOf(db, org).namespaces)
             && WholeFrom(db, org, t.written[org], upTo, g);
    assert sys'.index[org] == t.written[org];
    RebuiltIsAccepted(sys', org, g, upTo);
  }
}
