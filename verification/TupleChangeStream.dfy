/** The Watch stream: polling readers of the changelog beside writers. */
module TupleChangeStream {
  import opened Prelude
  import opened Store

  datatype Event = ChangeEvent(revision: nat, change: Change) | Heartbeat(revision: nat)

  // Where the generator stands. `rest` is the part of the page not yet yielded.
  datatype Phase =
    | Head(cursor: nat)
    | KnowsHigh(cursor: nat, high: nat)
    | Emitting(cursor: nat, high: nat, rest: seq<Change>, fullPage: bool)
    | Closed(cursor: nat)

  datatype Stream = Stream(org: string, start: nat, events: seq<Event>, phase: Phase)

  datatype System = System(pageSize: nat, writers: Writers, streams: map<nat, Stream>)

  // The organization's changes after `a`, in log order; and those up to `b`.
  function After(log: seq<Change>, org: string, a: nat): seq<Change> {
    if log == [] then []
    else
      var last := log[|log| - 1];
      After(log[..|log| - 1], org, a) + if last.orgId == org && last.revision > a then [last] else []
  }

  function Between(log: seq<Change>, org: string, a: nat, b: nat): seq<Change> {
    if log == [] then []
    else
      var last := log[|log| - 1];
      Between(log[..|log| - 1], org, a, b) + if last.orgId == org && a < last.revision <= b then [last] else []
  }

  // One page of `since`.
  function Since(log: seq<Change>, org: string, after: nat, limit: nat): seq<Change> {
    var all := After(log, org, after);
    if |all| <= limit then all else all[..limit]
  }

  datatype Step =
    | Write(step: WriterStep)
    | Open(i: nat, org: string, from: Option<nat>)
    | ReadHigh(i: nat)
    | ReadPage(i: nat)
    | Yield(i: nat)
    | Continue(i: nat)
    | Beat(i: nat)
    | Close(i: nat)

  ghost predicate Live(sys: System, i: nat) { i in sys.streams }

  ghost predicate Enabled(sys: System, step: Step) {
    match step
    case Write(ws) => WriterEnabled(sys.writers, ws)
    case Open(i, _, _) => i !in sys.streams
    case ReadHigh(i) => Live(sys, i) && sys.streams[i].phase.Head?
    case ReadPage(i) => Live(sys, i) && sys.streams[i].phase.KnowsHigh?
    case Yield(i) => Live(sys, i) && sys.streams[i].phase.Emitting? && sys.streams[i].phase.rest != []
    case Continue(i) => Live(sys, i) && sys.streams[i].phase.Emitting? && sys.streams[i].phase.rest == []
    // The heartbeat falls due at times the model does not fix.
    case Beat(i) =>
      Live(sys, i) && sys.streams[i].phase.Emitting? && sys.streams[i].phase.rest == []
          && !sys.streams[i].phase.fullPage
    case Close(i) => Live(sys, i)
  }

  function Put(sys: System, i: nat, s: Stream): System { sys.(streams := sys.streams[i := s]) }

  ghost function Next(sys: System, step: Step): System
    requires Enabled(sys, step)
  {
    var db := sys.writers.db;
    match step
    case Write(ws) => sys.(writers := WriterNext(sys.writers, ws))
    case Open(i, org, from) =>
      var cursor := OrElse(from, db.revision);
      Put(sys, i, Stream(org, cursor, [], Head(cursor)))
    case ReadHigh(i) =>
      var s := sys.streams[i];
      Put(sys, i, s.(phase := KnowsHigh(s.phase.cursor, db.revision)))
    case ReadPage(i) =>
      var s := sys.streams[i];
      var page := Since(db.changelog, s.org, s.phase.cursor, sys.pageSize);
      Put(sys, i, s.(phase := Emitting(s.phase.cursor, s.phase.high, page, |page| == sys.pageSize)))
    case Yield(i) =>
      var s := sys.streams[i];
      var c := s.phase.rest[0];
      Put(sys, i, s.(events := s.events + [ChangeEvent(c.revision, c)],
                     phase := Emitting(c.revision, s.phase.high, s.phase.rest[1..], s.phase.fullPage)))
    case Continue(i) =>
      var s := sys.streams[i];
      Put(sys, i, s.(phase := Head(s.phase.cursor)))
    case Beat(i) =>
      var s := sys.streams[i];
      var cursor := if s.phase.high >= s.phase.cursor then s.phase.high else s.phase.cursor;
      Put(sys, i, s.(events := s.events + [Heartbeat(cursor)], phase := Head(cursor)))
    case Close(i) =>
      var s := sys.streams[i];
      Put(sys, i, s.(phase := Closed(s.phase.cursor)))
  }

  ghost predicate Initial(sys: System) { sys.writers == EMPTY && sys.streams == map[] }

  ghost predicate Leads(sys: System, sys': System) {
    exists step :: Enabled(sys, step) && sys' == Next(sys, step)
  }

  ghost predicate Run(trace: seq<System>) {
    trace != [] && Initial(trace[0]) && forall k | 0 <= k < |trace| - 1 :: Leads(trace[k], trace[k + 1])
  }

  // The changes among the events, in order.
  function Yielded(events: seq<Event>): seq<Change> {
    if events == [] then []
    else
      var last := events[|events| - 1];
      Yielded(events[..|events| - 1]) + if last.ChangeEvent? then [last.change] else []
  }

  // ----- Facts about ordered logs -----

  // The last change of an ordered log is above all others.
  lemma LastIsHighest(log: seq<Change>)
    requires Increasing(log) && log != []
    ensures var last := |log| - 1;
            Increasing(log[..last]) && forall c | c in log[..last] :: c.revision < log[last].revision
  {
    var last := |log| - 1;
    forall c | c in log[..last] ensures c.revision < log[last].revision {
      var j :| 0 <= j < last && log[j] == c;
    }
  }

  lemma IncreasingGrows(log: seq<Change>, c: Change)
    requires Increasing(log) && forall d | d in log :: d.revision < c.revision
    ensures Increasing(log + [c])
  {
  }

  lemma {:induction false} AfterIsAscending(log: seq<Change>, org: string, a: nat)
    requires Increasing(log)
    ensures Increasing(After(log, org, a))
    ensures forall c | c in After(log, org, a) :: c in log && c.orgId == org && c.revision > a
  {
    if log != [] {
      var before := log[..|log| - 1];
      LastIsHighest(log);
      AfterIsAscending(before, org, a);
      IncreasingGrows(After(before, org, a), log[|log| - 1]);
    }
  }

  lemma {:induction false} BetweenJoin(log: seq<Change>, org: string, a: nat, b: nat, c: nat)
    requires Increasing(log) && a <= b <= c
    ensures Between(log, org, a, b) + Between(log, org, b, c) == Between(log, org, a, c)
  {
    if log != [] {
      var before, last := log[..|log| - 1], log[|log| - 1];
      LastIsHighest(log);
      BetweenJoin(before, org, a, b, c);
      var x, y := Between(before, org, a, b), Between(before, org, b, c);
      if last.revision <= b {
        NothingAbove(before, org, b, c);
        assert y == [] && Between(log, org, b, c) == [];
      } else {
        assert Between(log, org, a, b) == x;
        assert x + (y + [last]) == (x + y) + [last];
      }
    }
  }

  lemma {:induction false} NothingAbove(log: seq<Change>, org: string, b: nat, c: nat)
    requires forall d | d in log :: d.revision <= b
    ensures Between(log, org, b, c) == [] && After(log, org, b) == []
  {
    if log != [] {
      assert log[|log| - 1] in log && forall d | d in log[..|log| - 1] :: d in log;
      NothingAbove(log[..|log| - 1], org, b, c);
    }
  }

  // The next change after `a` is alone between `a` and its own revision.
  lemma {:induction false} NextChange(log: seq<Change>, org: string, a: nat)
    requires Increasing(log) && After(log, org, a) != []
    ensures var c := After(log, org, a)[0];
            c.revision > a && Between(log, org, a, c.revision) == [c]
                && After(log, org, c.revision) == After(log, org, a)[1..]
  {
    var before, last := log[..|log| - 1], log[|log| - 1];
    LastIsHighest(log);
    if After(before, org, a) != [] {
      NextChange(before, org, a);
      AfterIsAscending(before, org, a);
      var c := After(before, org, a)[0];
      assert c in After(before, org, a);
      assert c.revision < last.revision;
      assert After(log, org, a)[1..] == After(before, org, a)[1..] + if last.orgId == org then [last] else [];
    } else {
      NoneAfter(before, org, a, last.revision);
      NothingAbove(before, org, last.revision, last.revision);
    }
  }

  lemma {:induction false} NoneAfter(log: seq<Change>, org: string, a: nat, b: nat)
    requires After(log, org, a) == []
    ensures Between(log, org, a, b) == []
  {
    if log != [] { NoneAfter(log[..|log| - 1], org, a, b); }
  }

  // ----- The invariant -----

  // Everything up to the cursor has been yielded; the rest of the page comes next; and behind
  // a page that was not full nothing lies up to the high-water mark.
  ghost predicate GoodPhase(sys: System, s: Stream) {
    var log, cursor := sys.writers.db.changelog, s.phase.cursor;
    && s.start <= cursor && (cursor <= sys.writers.db.revision || cursor == s.start)
    && Yielded(s.events) == Between(log, s.org, s.start, cursor)
    && match s.phase
       case KnowsHigh(_, high) => high <= sys.writers.db.revision
       case Emitting(_, high, rest, fullPage) =>
         && high <= sys.writers.db.revision
         && rest <= After(log, s.org, cursor)
         && (!fullPage ==> Between(log, s.org, PageEnd(cursor, rest), high) == [])
       case _ => true
  }

  function PageEnd(cursor: nat, rest: seq<Change>): nat {
    if rest == [] then cursor else rest[|rest| - 1].revision
  }

  // Each event marks a complete prefix of the organization's changes.
  ghost predicate GoodEvents(sys: System, s: Stream) {
    forall k | 0 <= k < |s.events| ::
      && s.start <= s.events[k].revision
      && (s.events[k].revision <= sys.writers.db.revision || s.events[k].revision == s.start)
      && Yielded(s.events[..k + 1]) == Between(sys.writers.db.changelog, s.org, s.start, s.events[k].revision)
  }

  ghost predicate Inv(sys: System) {
    && WritersInv(sys.writers)
    && forall i | i in sys.streams :: GoodPhase(sys, sys.streams[i]) && GoodEvents(sys, sys.streams[i])
  }

  // A commit appends at most one change, above every committed revision.
  lemma CommitAppends(db: Db, revision: nat, op: Op, org: string, a: nat, b: nat)
    requires revision > db.revision
    ensures var db' := Apply(db, revision, op);
            && (b <= db.revision || b <= a ==> Between(db'.changelog, org, a, b) == Between(db.changelog, org, a, b))
            && After(db.changelog, org, a) <= After(db'.changelog, org, a)
  {
    var db' := Apply(db, revision, op);
    if db'.changelog != db.changelog {
      assert db'.changelog[..|db'.changelog| - 1] == db.changelog;
    }
  }

  // What a phase says carries over to a longer log that agrees where the phase looks.
  lemma PhaseCarriesOver(sys: System, sys': System, s: Stream)
    requires GoodPhase(sys, s) && sys.writers.db.revision <= sys'.writers.db.revision
    requires var log, log', cursor := sys.writers.db.changelog, sys'.writers.db.changelog, s.phase.cursor;
             && Between(log', s.org, s.start, cursor) == Between(log, s.org, s.start, cursor)
             && After(log, s.org, cursor) <= After(log', s.org, cursor)
             && (s.phase.Emitting? ==>
                   var end := PageEnd(cursor, s.phase.rest);
                   Between(log', s.org, end, s.phase.high) == Between(log, s.org, end, s.phase.high))
    ensures GoodPhase(sys', s)
  {
  }

  lemma PhaseStays(sys: System, ws: WriterStep, s: Stream)
    requires Inv(sys) && WriterEnabled(sys.writers, ws) && GoodPhase(sys, s)
    ensures GoodPhase(sys.(writers := WriterNext(sys.writers, ws)), s)
  {
    var sys' := sys.(writers := WriterNext(sys.writers, ws));
    if ws.Commit? {
      var db, p, cursor := sys.writers.db, sys.writers.holder.value, s.phase.cursor;
      CommitAppends(db, p.revision, p.op, s.org, s.start, cursor);
      CommitAppends(db, p.revision, p.op, s.org, cursor, cursor);
      if s.phase.Emitting? { CommitAppends(db, p.revision, p.op, s.org, PageEnd(cursor, s.phase.rest), s.phase.high); }
      PhaseCarriesOver(sys, sys', s);
    }
  }

  lemma EventsStay(sys: System, ws: WriterStep, s: Stream)
    requires Inv(sys) && WriterEnabled(sys.writers, ws) && GoodEvents(sys, s)
    ensures GoodEvents(sys.(writers := WriterNext(sys.writers, ws)), s)
  {
    if ws.Commit? {
      var db, p := sys.writers.db, sys.writers.holder.value;
      forall k | 0 <= k < |s.events| ensures
        Yielded(s.events[..k + 1])
            == Between(Apply(db, p.revision, p.op).changelog, s.org, s.start, s.events[k].revision)
      {
        CommitAppends(db, p.revision, p.op, s.org, s.start, s.events[k].revision);
      }
    }
  }

  lemma EventsGrow(sys: System, s: Stream, e: Event)
    requires GoodEvents(sys, s)
    requires s.start <= e.revision && (e.revision <= sys.writers.db.revision || e.revision == s.start)
    requires Yielded(s.events + [e]) == Between(sys.writers.db.changelog, s.org, s.start, e.revision)
    ensures GoodEvents(sys, s.(events := s.events + [e]))
  {
    var events := s.events + [e];
    forall k | 0 <= k < |events|
      ensures Yielded(events[..k + 1]) == Between(sys.writers.db.changelog, s.org, s.start, events[k].revision)
    {
      if k < |s.events| { assert events[..k + 1] == s.events[..k + 1]; } else { assert events[..k + 1] == events; }
    }
  }

  lemma YieldIsGood(sys: System, i: nat)
    requires Inv(sys) && Enabled(sys, Yield(i))
    ensures var sys' := Next(sys, Yield(i)); GoodPhase(sys', sys'.streams[i]) && GoodEvents(sys', sys'.streams[i])
  {
    var log, s := sys.writers.db.changelog, sys.streams[i];
    var rest := s.phase.rest;
    var c := rest[0];
    YieldedNext(log, s.org, s.start, s.phase.cursor, rest);
    assert (s.events + [ChangeEvent(c.revision, c)])[..|s.events|] == s.events;
    EventsGrow(sys, s, ChangeEvent(c.revision, c));
  }

  // Yielding the first change of the page extends what lies behind the cursor by it.
  lemma YieldedNext(log: seq<Change>, org: string, start: nat, cursor: nat, rest: seq<Change>)
    requires Increasing(log) && start <= cursor && rest != [] && rest <= After(log, org, cursor)
    ensures var c := rest[0];
            && c in log && c.revision > cursor
            && Between(log, org, start, c.revision) == Between(log, org, start, cursor) + [c]
            && rest[1..] <= After(log, org, c.revision)
  {
    var c := rest[0];
    NextChange(log, org, cursor);
    AfterIsAscending(log, org, cursor);
    assert c == After(log, org, cursor)[0];
    assert c in After(log, org, cursor);
    BetweenJoin(log, org, start, cursor, c.revision);
  }

  lemma BeatIsGood(sys: System, i: nat)
    requires Inv(sys) && Enabled(sys, Beat(i))
    ensures var sys' := Next(sys, Beat(i)); GoodPhase(sys', sys'.streams[i]) && GoodEvents(sys', sys'.streams[i])
  {
    var log, s := sys.writers.db.changelog, sys.streams[i];
    var cursor := if s.phase.high >= s.phase.cursor then s.phase.high else s.phase.cursor;
    BetweenJoin(log, s.org, s.start, s.phase.cursor, cursor);
    if cursor == s.phase.cursor { BetweenEmpty(log, s.org, cursor); }
    assert (s.events + [Heartbeat(cursor)])[..|s.events|] == s.events;
    EventsGrow(sys, s, Heartbeat(cursor));
  }

  lemma {:induction false} BetweenEmpty(log: seq<Change>, org: string, a: nat)
    ensures Between(log, org, a, a) == []
  {
    if log != [] { BetweenEmpty(log[..|log| - 1], org, a); }
  }

  // A page that is not full reaches past every change committed when the high-water mark was read.
  lemma {:induction false} ShortPageIsComplete(log: seq<Change>, org: string, cursor: nat, high: nat)
    requires Increasing(log)
    ensures Between(log, org, PageEnd(cursor, After(log, org, cursor)), high) == []
    decreases |After(log, org, cursor)|
  {
    var all := After(log, org, cursor);
    if all == [] {
      NoneAfter(log, org, cursor, high);
    } else {
      NextChange(log, org, cursor);
      ShortPageIsComplete(log, org, all[0].revision, high);
    }
  }

  lemma PageIsGood(sys: System, i: nat)
    requires Inv(sys) && Enabled(sys, ReadPage(i))
    ensures var sys' := Next(sys, ReadPage(i)); GoodPhase(sys', sys'.streams[i])
  {
    var s := sys.streams[i];
    ShortPageIsComplete(sys.writers.db.changelog, s.org, s.phase.cursor, s.phase.high);
  }

  lemma StepKeepsInv(sys: System, step: Step)
    requires Inv(sys) && Enabled(sys, step)
    ensures Inv(Next(sys, step))
  {
    if step.Write? { WriteKeepsInv(sys, step.step); } else { StreamStepIsGood(sys, step); }
  }

  lemma WriteKeepsInv(sys: System, ws: WriterStep)
    requires Inv(sys) && WriterEnabled(sys.writers, ws)
    ensures Inv(sys.(writers := WriterNext(sys.writers, ws)))
  {
    WriterStepKeepsInv(sys.writers, ws);
    forall i | i in sys.streams
      ensures GoodPhase(sys.(writers := WriterNext(sys.writers, ws)), sys.streams[i])
      ensures GoodEvents(sys.(writers := WriterNext(sys.writers, ws)), sys.streams[i])
    {
      PhaseStays(sys, ws, sys.streams[i]);
      EventsStay(sys, ws, sys.streams[i]);
    }
  }

  // A step of stream `step.i` touches no other stream and no row.
  lemma StreamStepIsLocal(sys: System, step: Step)
    requires Enabled(sys, step) && !step.Write?
    ensures Next(sys, step).writers == sys.writers && Next(sys, step).streams.Keys == sys.streams.Keys + {step.i}
    ensures forall k | k in sys.streams && k != step.i :: Next(sys, step).streams[k] == sys.streams[k]
  {
  }

  lemma OpenIsGood(sys: System, step: Step)
    requires Inv(sys) && Enabled(sys, step) && step.Open?
    ensures var sys' := Next(sys, step); GoodPhase(sys', sys'.streams[step.i]) && GoodEvents(sys', sys'.streams[step.i])
  {
    BetweenEmpty(sys.writers.db.changelog, step.org, Next(sys, step).streams[step.i].start);
  }

  // Steps that emit nothing and keep the cursor.
  lemma MoveIsGood(sys: System, step: Step)
    requires Inv(sys) && Enabled(sys, step) && (step.ReadHigh? || step.Continue? || step.Close?)
    ensures var sys' := Next(sys, step); GoodPhase(sys', sys'.streams[step.i]) && GoodEvents(sys', sys'.streams[step.i])
  {
    var s, s' := sys.streams[step.i], Next(sys, step).streams[step.i];
    assert GoodPhase(sys, s) && GoodEvents(sys, s);
    assert s'.events == s.events && s'.phase.cursor == s.phase.cursor;
  }

  lemma StreamStepIsGood(sys: System, step: Step)
    requires Inv(sys) && Enabled(sys, step) && !step.Write?
    ensures Inv(Next(sys, step))
  {
    StreamStepIsLocal(sys, step);
    if step.Open? { OpenIsGood(sys, step); }
    else if step.ReadPage? { PageIsGood(sys, step.i); }
    else if step.Yield? { YieldIsGood(sys, step.i); }
    else if step.Beat? { BeatIsGood(sys, step.i); }
    else { MoveIsGood(sys, step); }
    StreamsStayGood(sys, Next(sys, step), step.i);
  }

  lemma StreamsStayGood(sys: System, sys': System, i: nat)
    requires Inv(sys) && sys'.writers == sys.writers && sys'.streams.Keys == sys.streams.Keys + {i}
    requires forall k | k in sys.streams && k != i :: sys'.streams[k] == sys.streams[k]
    requires GoodPhase(sys', sys'.streams[i]) && GoodEvents(sys', sys'.streams[i])
    ensures Inv(sys')
  {
    forall k | k in sys'.streams ensures GoodPhase(sys', sys'.streams[k]) && GoodEvents(sys', sys'.streams[k]) {
      if k != i { assert GoodPhase(sys, sys.streams[k]) && GoodEvents(sys, sys.streams[k]); }
    }
  }

  lemma {:induction false} RunKeepsInv(trace: seq<System>, k: nat)
    requires Run(trace) && k < |trace|
    ensures Inv(trace[k])
  {
    if k == 0 {
      assert forall org: string :: GoodRows(EMPTY.db, org);
    } else {
      RunKeepsInv(trace, k - 1);
      assert Leads(trace[k - 1], trace[k]);
      var step :| Enabled(trace[k - 1], step) && trace[k] == Next(trace[k - 1], step);
      StepKeepsInv(trace[k - 1], step);
    }
  }

  // ----- Main results -----

  lemma {:induction false} BetweenIsIncreasing(log: seq<Change>, org: string, a: nat, b: nat)
    requires Increasing(log)
    ensures Increasing(Between(log, org, a, b))
    ensures forall c :: c in Between(log, org, a, b) <==> c in log && c.orgId == org && a < c.revision <= b
  {
    if log != [] {
      var before, last := log[..|log| - 1], log[|log| - 1];
      LastIsHighest(log);
      BetweenIsIncreasing(before, org, a, b);
      IncreasingGrows(Between(before, org, a, b), last);
      assert log == before + [last];
    }
  }

  // At every emitted event the changes yielded so far are exactly the organization's changes
  // after the start and up to that event's revision, each once, in strictly increasing order.
  lemma WatchLosesNothing(trace: seq<System>, k: nat, i: nat, e: nat)
    requires Run(trace) && k < |trace| && i in trace[k].streams && e < |trace[k].streams[i].events|
    ensures var s, log := trace[k].streams[i], trace[k].writers.db.changelog;
            var yielded := Yielded(s.events[..e + 1]);
            && Increasing(yielded)
            && forall c :: c in yielded <==>
                             c in log && c.orgId == s.org && s.start < c.revision <= s.events[e].revision
  {
    RunKeepsInv(trace, k);
    var s, log := trace[k].streams[i], trace[k].writers.db.changelog;
    BetweenIsIncreasing(log, s.org, s.start, s.events[e].revision);
  }

  // Resuming a second stream at any event of a first, heartbeats included, continues it: the
  // two together are one stream.
  lemma ResumingNeitherSkipsNorRepeats(trace: seq<System>, k: nat, i: nat, e: nat, j: nat, f: nat)
    requires Run(trace) && k < |trace| && i in trace[k].streams && j in trace[k].streams
    requires var s, r := trace[k].streams[i], trace[k].streams[j];
             e < |s.events| && f < |r.events| && r.org == s.org && r.start == s.events[e].revision
    ensures var s, r := trace[k].streams[i], trace[k].streams[j];
            Yielded(s.events[..e + 1]) + Yielded(r.events[..f + 1])
              == Between(trace[k].writers.db.changelog, s.org, s.start, r.events[f].revision)
  {
    RunKeepsInv(trace, k);
    var s, r := trace[k].streams[i], trace[k].streams[j];
    assert GoodEvents(trace[k], s) && GoodEvents(trace[k], r);
    BetweenJoin(trace[k].writers.db.changelog, s.org, s.start, s.events[e].revision, r.events[f].revision);
  }

  // ----- Where a stream starts, and that it gets on -----

  // A stream opened at a revision starts there, and one opened without at the current revision.
  lemma OpenStartsAtRequest(sys: System, i: nat, org: string, from: Option<nat>)
    requires Enabled(sys, Open(i, org, from))
    ensures var s := Next(sys, Open(i, org, from)).streams[i];
            && s.org == org && s.events == [] && s.phase == Head(s.start)
            && (from.Some? ==> s.start == from.value)
            && (from.None? ==> s.start == sys.writers.db.revision)
  {
  }

  // Later states keep the organization, the start and the events of a stream.
  ghost predicate Continues(s: Stream, s': Stream) {
    s'.org == s.org && s'.start == s.start && s.events <= s'.events
  }

  ghost predicate AllContinue(sys: System, sys': System) {
    forall i | i in sys.streams :: i in sys'.streams && Continues(sys.streams[i], sys'.streams[i])
  }

  lemma StepContinues(sys: System, sys': System)
    requires Leads(sys, sys')
    ensures AllContinue(sys, sys')
  {
    var step :| Enabled(sys, step) && sys' == Next(sys, step);
    if !step.Write? { StreamStepIsLocal(sys, step); }
  }

  lemma {:induction false} StreamContinues(trace: seq<System>, j: nat, k: nat)
    requires Run(trace) && j <= k < |trace|
    ensures AllContinue(trace[j], trace[k])
  {
    if j < k {
      StreamContinues(trace, j, k - 1);
      assert Leads(trace[k - 1], trace[k]);
      StepContinues(trace[k - 1], trace[k]);
    }
  }

  ghost predicate Path(trace: seq<System>, sys: System, sys': System, i: nat) {
    && trace != [] && trace[0] == sys && trace[|trace| - 1] == sys'
    && forall k | 0 <= k < |trace| - 1 :: StreamLeads(trace[k], trace[k + 1], i)
  }

  // A step of stream `i`.
  ghost predicate StreamLeads(sys: System, sys': System, i: nat) {
    exists step :: Enabled(sys, step) && !step.Write? && step.i == i && sys' == Next(sys, step)
  }

  ghost predicate Reaches(sys: System, sys': System, i: nat) {
    exists trace: seq<System> :: Path(trace, sys, sys', i)
  }

  lemma StepReaches(start: System, mid: System, step: Step, i: nat)
    requires Reaches(start, mid, i) && Enabled(mid, step) && !step.Write? && step.i == i
    ensures Reaches(start, Next(mid, step), i)
  {
    var trace :| Path(trace, start, mid, i);
    assert StreamLeads(mid, Next(mid, step), i);
    assert Path(trace + [Next(mid, step)], start, Next(mid, step), i);
  }

  lemma {:induction false} PathKeepsInv(trace: seq<System>, sys: System, sys': System, i: nat)
    requires Path(trace, sys, sys', i) && Inv(sys)
    ensures Inv(sys') && sys'.writers == sys.writers
    decreases |trace|
  {
    if |trace| > 1 {
      var last := |trace| - 1;
      var mid := trace[last - 1];
      PathKeepsInv(trace[..last], sys, mid, i);
      assert StreamLeads(trace[last - 1], trace[last], i);
      var step :| Enabled(mid, step) && !step.Write? && step.i == i && sys' == Next(mid, step);
      StepKeepsInv(mid, step);
      StreamStepIsLocal(mid, step);
    }
  }

  // Once stream `i` stands at `s` and takes the step, it stands at `s'`.
  lemma StreamMoves(start: System, sys: System, i: nat, s: Stream, step: Step, s': Stream)
    requires Reaches(start, Put(sys, i, s), i) && Enabled(Put(sys, i, s), step) && !step.Write? && step.i == i
    requires Next(Put(sys, i, s), step) == Put(Put(sys, i, s), i, s')
    ensures Reaches(start, Put(sys, i, s'), i)
  {
    StepReaches(start, Put(sys, i, s), step, i);
    assert sys.streams[i := s][i := s'] == sys.streams[i := s'];
  }

  // The stream with the whole rest of its page yielded.
  function YieldedRest(s: Stream): Stream
    requires s.phase.Emitting?
    decreases |s.phase.rest|
  {
    if s.phase.rest == [] then s
    else
      var c := s.phase.rest[0];
      YieldedRest(s.(events := s.events + [ChangeEvent(c.revision, c)],
                     phase := Emitting(c.revision, s.phase.high, s.phase.rest[1..], s.phase.fullPage)))
  }

  lemma {:induction false} RestIsYielded(start: System, sys: System, i: nat, s: Stream)
    requires s.phase.Emitting? && Reaches(start, Put(sys, i, s), i)
    ensures var s' := YieldedRest(s);
            && Reaches(start, Put(sys, i, s'), i)
            && s'.phase == Emitting(PageEnd(s.phase.cursor, s.phase.rest), s.phase.high, [], s.phase.fullPage)
            && s'.org == s.org && s'.start == s.start
    decreases |s.phase.rest|
  {
    if s.phase.rest != [] {
      var c := s.phase.rest[0];
      var next := s.(events := s.events + [ChangeEvent(c.revision, c)],
                     phase := Emitting(c.revision, s.phase.high, s.phase.rest[1..], s.phase.fullPage));
      StreamMoves(start, sys, i, s, Yield(i), next);
      RestIsYielded(start, sys, i, next);
    }
  }

  // One poll from the head of the loop: the whole page, then the head again, or a heartbeat.
  lemma PollMoves(start: System, sys: System, i: nat, s: Stream) returns (s': Stream)
    requires s.phase.Head? && Reaches(start, Put(sys, i, s), i)
    ensures var db := sys.writers.db;
            var page := Since(db.changelog, s.org, s.phase.cursor, sys.pageSize);
            && Reaches(start, Put(sys, i, s'), i) && s'.org == s.org && s'.start == s.start
            && (if |page| == sys.pageSize then s'.phase == Head(PageEnd(s.phase.cursor, page))
                else s'.events != [] && s'.events[|s'.events| - 1].Heartbeat?
                     && s'.events[|s'.events| - 1].revision >= db.revision)
  {
    var db := sys.writers.db;
    var page := Since(db.changelog, s.org, s.phase.cursor, sys.pageSize);
    var s1 := s.(phase := KnowsHigh(s.phase.cursor, db.revision));
    var s2 := s.(phase := Emitting(s.phase.cursor, db.revision, page, |page| == sys.pageSize));
    StreamMoves(start, sys, i, s, ReadHigh(i), s1);
    StreamMoves(start, sys, i, s1, ReadPage(i), s2);
    RestIsYielded(start, sys, i, s2);
    var s3 := YieldedRest(s2);
    if |page| == sys.pageSize {
      s' := s3.(phase := Head(s3.phase.cursor));
      StreamMoves(start, sys, i, s3, Continue(i), s');
    } else {
      var cursor := if db.revision >= s3.phase.cursor then db.revision else s3.phase.cursor;
      s' := s3.(events := s3.events + [Heartbeat(cursor)], phase := Head(cursor));
      StreamMoves(start, sys, i, s3, Beat(i), s');
    }
  }

  // A page leaves fewer changes behind it.
  lemma PageShortens(log: seq<Change>, org: string, cursor: nat, limit: nat)
    requires Increasing(log) && limit > 0 && After(log, org, cursor) != []
    ensures var page := Since(log, org, cursor, limit);
            |After(log, org, PageEnd(cursor, page))| < |After(log, org, cursor)|
  {
    var all, page := After(log, org, cursor), Since(log, org, cursor, limit);
    AfterIsAscending(log, org, cursor);
    var last := page[|page| - 1];
    assert page[|page| - 1] == all[|page| - 1] && last in all;
    AfterShrinks(log, org, cursor, last);
  }

  lemma {:induction false} AfterShrinks(log: seq<Change>, org: string, a: nat, c: Change)
    requires Increasing(log) && c in After(log, org, a)
    ensures |After(log, org, c.revision)| < |After(log, org, a)|
    decreases |After(log, org, a)|
  {
    var all := After(log, org, a);
    NextChange(log, org, a);
    if c != all[0] { AfterShrinks(log, org, all[0].revision, c); }
  }

  lemma {:induction false} StreamReachesHeartbeat(start: System, sys: System, i: nat, s: Stream) returns (s': Stream)
    requires s.phase.Head? && Reaches(start, Put(sys, i, s), i) && WritersInv(sys.writers) && sys.pageSize > 0
    ensures Reaches(start, Put(sys, i, s'), i) && s'.org == s.org && s'.start == s.start
    ensures s'.events != [] && s'.events[|s'.events| - 1].Heartbeat?
    ensures s'.events[|s'.events| - 1].revision >= sys.writers.db.revision
    decreases |After(sys.writers.db.changelog, s.org, s.phase.cursor)|
  {
    var log := sys.writers.db.changelog;
    s' := PollMoves(start, sys, i, s);
    var page := Since(log, s.org, s.phase.cursor, sys.pageSize);
    if |page| == sys.pageSize {
      PageShortens(log, s.org, s.phase.cursor, sys.pageSize);
      s' := StreamReachesHeartbeat(start, sys, i, s');
    }
  }

  // A stream at the head of its loop that nobody disturbs yields every change there is: by its
  // own steps it reaches a heartbeat at or past the current revision, with exactly the
  // organization's changes after its start behind it.
  lemma UndisturbedStreamDelivers(sys: System, i: nat)
    requires Inv(sys) && i in sys.streams && sys.streams[i].phase.Head? && sys.pageSize > 0
    ensures exists sys' :: && Reaches(sys, sys', i) && sys'.writers == sys.writers && i in sys'.streams
                           && Delivered(sys', sys'.streams[i], sys.streams[i])
  {
    assert Path([sys], sys, sys, i);
    assert sys.streams[i := sys.streams[i]] == sys.streams;
    var s' := StreamReachesHeartbeat(sys, sys, i, sys.streams[i]);
    var sys' := Put(sys, i, s');
    var trace :| Path(trace, sys, sys', i);
    PathKeepsInv(trace, sys, sys', i);
    HeartbeatDelivers(sys', i);
  }

  // At a heartbeat past every commit nothing is left to deliver.
  lemma HeartbeatDelivers(sys: System, i: nat)
    requires Inv(sys) && i in sys.streams
    requires var events := sys.streams[i].events;
             events != [] && events[|events| - 1].revision >= sys.writers.db.revision
    ensures Delivered(sys, sys.streams[i], sys.streams[i])
  {
    var s, last := sys.streams[i], |sys.streams[i].events| - 1;
    assert GoodEvents(sys, s) && s.events[..last + 1] == s.events;
    BetweenIsIncreasing(sys.writers.db.changelog, s.org, s.start, s.events[last].revision);
  }

  ghost predicate Delivered(sys: System, s': Stream, s: Stream) {
    var log := sys.writers.db.changelog;
    && s'.org == s.org && s'.start == s.start
    && s'.events != [] && s'.events[|s'.events| - 1].revision >= sys.writers.db.revision
    && Increasing(Yielded(s'.events))
    && forall c :: c in Yielded(s'.events) <==> c in log && c.orgId == s.org && s.start < c.revision
  }
}
