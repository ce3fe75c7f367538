/** The audit hash chain: verification, what it pins down, and concurrent appends. */
module AuditChain {
  import opened Prelude
  import opened CanonicalJson
  import opened Texts

  datatype AuditRecord = AuditRecord(
    kind: string, orgId: Option<string>, subject: Option<string>, payload: Json, recordedAt: string)

  datatype Linked = Linked(record: AuditRecord, hash: string)

  const GENESIS_HASH := "0000000000000000000000000000000000000000000000000000000000000000"

  function OrNull(s: Option<string>): Json {
    match s case Some(text) => Str(text) case None => Null
  }

  function ToJson(r: AuditRecord): Json {
    Obj([Entry("type", Str(r.kind)), Entry("orgId", OrNull(r.orgId)), Entry("subject", OrNull(r.subject)),
         Entry("payload", r.payload), Entry("recordedAt", Str(r.recordedAt))])
  }

  function TextOf(prevHash: string, r: AuditRecord): string { prevHash + "\n" + Canonicalize(ToJson(r)) }

  // The hash of a record after a given previous hash.
  type Digest = (string, AuditRecord) -> string

  // SHA-256 and its hex form are the parameter `hash`.
  function HashRecord(hash: string -> string): Digest {
    (prevHash, r) => hash(TextOf(prevHash, r))
  }

  // ----- Verification -----

  function Previous(records: seq<Linked>, i: nat): string
    requires i < |records|
  {
    if i == 0 then GENESIS_HASH else records[i - 1].hash
  }

  function Rehash(digest: Digest, records: seq<Linked>, i: nat): string
    requires i < |records|
  {
    digest(Previous(records, i), records[i].record)
  }

  predicate LinkHolds(digest: Digest, records: seq<Linked>, i: nat)
    requires i < |records|
  {
    Rehash(digest, records, i) == records[i].hash
  }

  ghost predicate Verifies(digest: Digest, records: seq<Linked>) {
    forall i | 0 <= i < |records| :: LinkHolds(digest, records, i)
  }

  // Reports the first bad link, if there is one.
  method VerifyChain(digest: Digest, records: seq<Linked>) returns (ok: bool, length: nat, brokenAt: Option<nat>)
    ensures length == |records|
    ensures ok <==> Verifies(digest, records)
    ensures ok <==> brokenAt.None?
    ensures forall i | brokenAt == Some(i) ::
              i < |records| && !LinkHolds(digest, records, i) && forall j | 0 <= j < i :: LinkHolds(digest, records, j)
  {
    var previous := GENESIS_HASH;
    for index := 0 to |records|
      invariant index < |records| ==> previous == Previous(records, index)
      invariant forall j | 0 <= j < index :: LinkHolds(digest, records, j)
    {
      var record := records[index];
      if digest(previous, record.record) != record.hash {
        assert !LinkHolds(digest, records, index);
        return false, |records|, Some(index);
      }
      previous := record.hash;
    }
    return true, |records|, None;
  }

  // ----- The hashed text determines the previous hash and the record -----

  ghost predicate GoodRecord(r: AuditRecord) { WellFormed(r.payload) }

  // Payloads are compared up to key order, the rest exactly.
  ghost predicate SameRecord(r: AuditRecord, s: AuditRecord) {
    && r.kind == s.kind && r.orgId == s.orgId && r.subject == s.subject && r.recordedAt == s.recordedAt
    && Equivalent(r.payload, s.payload)
  }

  lemma GoodRecordIsWellFormed(r: AuditRecord)
    requires GoodRecord(r)
    ensures WellFormed(ToJson(r))
  {
    assert "subject"[0] != "payload"[0];
  }

  ghost predicate Pairwise(fs: seq<Entry<Json>>, gs: seq<Entry<Json>>) {
    |fs| == |gs| && forall i | 0 <= i < |fs| :: fs[i].key == gs[i].key && Equivalent(fs[i].value, gs[i].value)
  }

  lemma PairwiseIsMatched(fs: seq<Entry<Json>>, gs: seq<Entry<Json>>)
    requires Pairwise(fs, gs)
    ensures Matched(fs, gs)
  {
    forall f | f in fs ensures exists g | g in gs :: g.key == f.key && Equivalent(f.value, g.value) {
      var i :| 0 <= i < |fs| && fs[i] == f;
      assert gs[i] in gs;
    }
  }

  lemma PairwiseIsMatchedBack(fs: seq<Entry<Json>>, gs: seq<Entry<Json>>)
    requires Pairwise(fs, gs)
    ensures MatchedBack(fs, gs)
  {
    forall g | g in gs ensures exists f | f in fs :: f.key == g.key && Equivalent(f.value, g.value) {
      var i :| 0 <= i < |gs| && gs[i] == g;
      assert fs[i] in fs;
    }
  }

  lemma MatchedIsPairwise(fs: seq<Entry<Json>>, gs: seq<Entry<Json>>)
    requires DistinctKeys(gs) && |fs| == |gs| && (forall i | 0 <= i < |fs| :: fs[i].key == gs[i].key)
    requires Matched(fs, gs)
    ensures Pairwise(fs, gs)
  {
    forall i | 0 <= i < |fs| ensures Equivalent(fs[i].value, gs[i].value) {
      assert fs[i] in fs;
      var g :| g in gs && g.key == fs[i].key && Equivalent(fs[i].value, g.value);
      var j :| 0 <= j < |gs| && gs[j] == g;
      assert j == i;
    }
  }

  lemma SameRecordIsPairwise(r: AuditRecord, s: AuditRecord)
    ensures SameRecord(r, s) <==> Pairwise(ToJson(r).fields, ToJson(s).fields)
  {
    var fs, gs := ToJson(r).fields, ToJson(s).fields;
    assert Equivalent(fs[0].value, gs[0].value) <==> r.kind == s.kind;
    assert Equivalent(fs[1].value, gs[1].value) <==> r.orgId == s.orgId;
    assert Equivalent(fs[2].value, gs[2].value) <==> r.subject == s.subject;
    assert Equivalent(fs[3].value, gs[3].value) <==> Equivalent(r.payload, s.payload);
    assert Equivalent(fs[4].value, gs[4].value) <==> r.recordedAt == s.recordedAt;
  }

  lemma PairwiseIsEquivalent(fs: seq<Entry<Json>>, gs: seq<Entry<Json>>)
    requires DistinctKeys(gs) && |fs| == |gs| && (forall i | 0 <= i < |fs| :: fs[i].key == gs[i].key)
    ensures Pairwise(fs, gs) <==> EquivalentFields(fs, gs)
  {
    if Pairwise(fs, gs) {
      PairwiseIsMatched(fs, gs);
      PairwiseIsMatchedBack(fs, gs);
    } else if Matched(fs, gs) {
      MatchedIsPairwise(fs, gs);
    }
  }

  lemma SameRecordIsEquivalent(r: AuditRecord, s: AuditRecord)
    ensures SameRecord(r, s) <==> Equivalent(ToJson(r), ToJson(s))
  {
    SameRecordIsPairwise(r, s);
    assert "subject"[0] != "payload"[0];
    PairwiseIsEquivalent(ToJson(r).fields, ToJson(s).fields);
  }

  lemma TextDeterminesRecord(p: string, r: AuditRecord, q: string, s: AuditRecord)
    requires GoodRecord(r) && GoodRecord(s)
    ensures TextOf(p, r) == TextOf(q, s) <==> p == q && SameRecord(r, s)
  {
    GoodRecordIsWellFormed(r);
    GoodRecordIsWellFormed(s);
    TextHasNoBreak(ToJson(r));
    TextHasNoBreak(ToJson(s));
    SameTextIsSameValue(ToJson(r), ToJson(s));
    SameRecordIsEquivalent(r, s);
    if TextOf(p, r) == TextOf(q, s) { SplitsAtLast(p, q, Canonicalize(ToJson(r)), Canonicalize(ToJson(s)), '\n'); }
  }

  // A hash without collisions on these texts gives a digest that tells records apart.
  lemma DigestTellsRecords(hash: string -> string, p: string, r: AuditRecord, q: string, s: AuditRecord)
    requires GoodRecord(r) && GoodRecord(s)
    requires hash(TextOf(p, r)) == hash(TextOf(q, s)) ==> TextOf(p, r) == TextOf(q, s)
    ensures HashRecord(hash)(p, r) == HashRecord(hash)(q, s) <==> p == q && SameRecord(r, s)
  {
    TextDeterminesRecord(p, r, q, s);
  }

  // Key order in a payload does not matter to a digest.
  ghost predicate IgnoresKeyOrder(digest: Digest) {
    forall p, r, s | GoodRecord(r) && GoodRecord(s) && SameRecord(r, s) :: digest(p, r) == digest(p, s)
  }

  lemma HashIgnoresKeyOrder(hash: string -> string)
    ensures IgnoresKeyOrder(HashRecord(hash))
  {
    forall p, r, s | GoodRecord(r) && GoodRecord(s) && SameRecord(r, s)
      ensures HashRecord(hash)(p, r) == HashRecord(hash)(p, s)
    {
      TextDeterminesRecord(p, r, p, s);
    }
  }

  // ----- Chains with the same last hash -----

  function LastHash(records: seq<Linked>): string {
    if records == [] then GENESIS_HASH else records[|records| - 1].hash
  }

  // In the two chains a hash determines the previous hash, and is not the genesis value.
  ghost predicate CollisionFree(digest: Digest, rs: seq<Linked>, ss: seq<Linked>) {
    && (forall i, j | 0 <= i < |rs| && 0 <= j < |ss| && Rehash(digest, rs, i) == Rehash(digest, ss, j) ::
          Previous(rs, i) == Previous(ss, j))
    && (forall i | 0 <= i < |rs| :: Rehash(digest, rs, i) != GENESIS_HASH)
    && (forall j | 0 <= j < |ss| :: Rehash(digest, ss, j) != GENESIS_HASH)
  }

  ghost predicate GoodRecords(records: seq<Linked>) {
    forall i | 0 <= i < |records| :: GoodRecord(records[i].record)
  }

  lemma PrefixKeepsLinks(digest: Digest, records: seq<Linked>, n: nat)
    requires n <= |records|
    ensures forall i | 0 <= i < n :: Previous(records[..n], i) == Previous(records, i)
    ensures forall i | 0 <= i < n :: Rehash(digest, records[..n], i) == Rehash(digest, records, i)
    ensures forall i | 0 <= i < n :: LinkHolds(digest, records[..n], i) == LinkHolds(digest, records, i)
  {
    forall i | 0 <= i < n ensures Previous(records[..n], i) == Previous(records, i) {
      if i > 0 { assert records[..n][i - 1] == records[i - 1]; }
    }
  }

  // A log that was cut short still verifies: only the last hash shows the cut.
  lemma CutLogVerifies(digest: Digest, records: seq<Linked>, n: nat)
    requires Verifies(digest, records) && n <= |records|
    ensures Verifies(digest, records[..n])
  {
    PrefixKeepsLinks(digest, records, n);
    forall i | 0 <= i < n ensures LinkHolds(digest, records[..n], i) { assert LinkHolds(digest, records, i); }
  }

  lemma CutLogsDoNotCollide(digest: Digest, rs: seq<Linked>, ss: seq<Linked>, m: nat, n: nat)
    requires CollisionFree(digest, rs, ss) && m <= |rs| && n <= |ss|
    ensures CollisionFree(digest, rs[..m], ss[..n])
  {
    PrefixKeepsLinks(digest, rs, m);
    PrefixKeepsLinks(digest, ss, n);
    var pre, post := rs[..m], ss[..n];
    forall i, j | 0 <= i < m && 0 <= j < n && Rehash(digest, pre, i) == Rehash(digest, post, j)
      ensures Previous(pre, i) == Previous(post, j)
    {
      assert Rehash(digest, rs, i) == Rehash(digest, ss, j);
    }
    forall i | 0 <= i < m ensures Rehash(digest, pre, i) != GENESIS_HASH {}
    forall j | 0 <= j < n ensures Rehash(digest, post, j) != GENESIS_HASH {}
  }

  ghost predicate SameHashes(rs: seq<Linked>, ss: seq<Linked>) {
    |rs| == |ss| && forall i | 0 <= i < |rs| :: rs[i].hash == ss[i].hash
  }

  lemma LastLinksAgree(digest: Digest, rs: seq<Linked>, ss: seq<Linked>)
    requires CollisionFree(digest, rs, ss)
    requires Verifies(digest, rs) && Verifies(digest, ss) && LastHash(rs) == LastHash(ss)
    ensures rs == [] <==> ss == []
    ensures rs != [] ==> LastHash(rs[..|rs| - 1]) == LastHash(ss[..|ss| - 1])
  {
    var m, n := |rs|, |ss|;
    assert m > 0 ==> LinkHolds(digest, rs, m - 1) && Rehash(digest, rs, m - 1) != GENESIS_HASH;
    assert n > 0 ==> LinkHolds(digest, ss, n - 1) && Rehash(digest, ss, n - 1) != GENESIS_HASH;
    if m > 0 {
      assert LastHash(rs[..m - 1]) == Previous(rs, m - 1) && LastHash(ss[..n - 1]) == Previous(ss, n - 1);
    }
  }

  lemma {:induction false} SameLastHashSameChain(digest: Digest, rs: seq<Linked>, ss: seq<Linked>)
    requires CollisionFree(digest, rs, ss)
    requires Verifies(digest, rs) && Verifies(digest, ss) && LastHash(rs) == LastHash(ss)
    ensures SameHashes(rs, ss)
  {
    LastLinksAgree(digest, rs, ss);
    if rs != [] {
      var m, n := |rs| - 1, |ss| - 1;
      CutLogVerifies(digest, rs, m);
      CutLogVerifies(digest, ss, n);
      CutLogsDoNotCollide(digest, rs, ss, m, n);
      SameLastHashSameChain(digest, rs[..m], ss[..n]);
      SameHashesWithLast(rs, ss);
    }
  }

  lemma SameHashesWithLast(rs: seq<Linked>, ss: seq<Linked>)
    requires rs != [] && ss != [] && LastHash(rs) == LastHash(ss) && SameHashes(rs[..|rs| - 1], ss[..|ss| - 1])
    ensures SameHashes(rs, ss)
  {
    var pre, post := rs[..|rs| - 1], ss[..|ss| - 1];
    forall i | 0 <= i < |pre| ensures rs[i].hash == ss[i].hash {
      assert pre[i].hash == post[i].hash;
    }
  }

  // What is hashed for a record of the chain.
  function TextAt(records: seq<Linked>, i: nat): string
    requires i < |records|
  {
    TextOf(Previous(records, i), records[i].record)
  }

  ghost predicate NoneHashesToGenesis(hash: string -> string, records: seq<Linked>) {
    forall i | 0 <= i < |records| :: hash(TextAt(records, i)) != GENESIS_HASH
  }

  ghost predicate NoTextsCollide(hash: string -> string, rs: seq<Linked>, ss: seq<Linked>) {
    forall i, j | 0 <= i < |rs| && 0 <= j < |ss| && hash(TextAt(rs, i)) == hash(TextAt(ss, j)) ::
      TextAt(rs, i) == TextAt(ss, j)
  }

  lemma HashesAreNotGenesis(hash: string -> string, records: seq<Linked>)
    requires NoneHashesToGenesis(hash, records)
    ensures forall i | 0 <= i < |records| :: Rehash(HashRecord(hash), records, i) != GENESIS_HASH
  {
    forall i | 0 <= i < |records| ensures Rehash(HashRecord(hash), records, i) != GENESIS_HASH {
      assert hash(TextAt(records, i)) != GENESIS_HASH;
    }
  }

  lemma LinksDoNotCollide(hash: string -> string, rs: seq<Linked>, ss: seq<Linked>, i: nat, j: nat)
    requires NoTextsCollide(hash, rs, ss) && i < |rs| && j < |ss|
    requires GoodRecord(rs[i].record) && GoodRecord(ss[j].record)
    requires Rehash(HashRecord(hash), rs, i) == Rehash(HashRecord(hash), ss, j)
    ensures Previous(rs, i) == Previous(ss, j) && SameRecord(rs[i].record, ss[j].record)
  {
    assert hash(TextAt(rs, i)) == hash(TextAt(ss, j));
    DigestTellsRecords(hash, Previous(rs, i), rs[i].record, Previous(ss, j), ss[j].record);
  }

  // Two verifying logs that end in the same hash hold the same records.
  lemma SameTailSameLog(hash: string -> string, rs: seq<Linked>, ss: seq<Linked>)
    requires GoodRecords(rs) && GoodRecords(ss) && NoTextsCollide(hash, rs, ss)
    requires NoneHashesToGenesis(hash, rs) && NoneHashesToGenesis(hash, ss)
    requires Verifies(HashRecord(hash), rs) && Verifies(HashRecord(hash), ss) && LastHash(rs) == LastHash(ss)
    ensures |rs| == |ss|
    ensures forall i | 0 <= i < |rs| :: rs[i].hash == ss[i].hash && SameRecord(rs[i].record, ss[i].record)
  {
    var digest := HashRecord(hash);
    forall i, j | 0 <= i < |rs| && 0 <= j < |ss| && Rehash(digest, rs, i) == Rehash(digest, ss, j)
      ensures Previous(rs, i) == Previous(ss, j) && SameRecord(rs[i].record, ss[j].record)
    {
      LinksDoNotCollide(hash, rs, ss, i, j);
    }
    HashesAreNotGenesis(hash, rs);
    HashesAreNotGenesis(hash, ss);
    SameLastHashSameChain(digest, rs, ss);
    forall i | 0 <= i < |rs| ensures SameRecord(rs[i].record, ss[i].record) {
      assert LinkHolds(digest, rs, i) && LinkHolds(digest, ss, i);
    }
  }

  // ----- The table -----

  datatype Event = Event(kind: string, orgId: Option<string>, subject: Option<string>, payload: Json)

  datatype Row = Row(position: nat, prevHash: string, record: AuditRecord, hash: string)

  function Links(rows: seq<Row>): (links: seq<Linked>)
    ensures |links| == |rows|
    ensures forall i | 0 <= i < |rows| :: links[i] == Linked(rows[i].record, rows[i].hash)
  {
    seq(|rows|, i requires 0 <= i < |rows| => Linked(rows[i].record, rows[i].hash))
  }

  function TailHash(rows: seq<Row>): string { LastHash(Links(rows)) }

  function Stamp(e: Event, at: string): AuditRecord { AuditRecord(e.kind, e.orgId, e.subject, e.payload, at) }

  // The database may hand back the payload with its keys in another order.
  function RowFor(digest: Digest, e: Event, at: string, stored: Json, prevHash: string, position: nat): Row {
    Row(position, prevHash, Stamp(e, at).(payload := stored), digest(prevHash, Stamp(e, at)))
  }

  // The record says what the event said, the payload up to key order.
  ghost predicate Tells(r: AuditRecord, e: Event) {
    r.kind == e.kind && r.orgId == e.orgId && r.subject == e.subject && Equivalent(r.payload, e.payload)
  }

  ghost predicate Stores(e: Event, stored: Json) {
    WellFormed(e.payload) && WellFormed(stored) && Equivalent(stored, e.payload)
  }

  ghost predicate InOrder(rows: seq<Row>) {
    forall i, j | 0 <= i < j < |rows| :: rows[i].position < rows[j].position
  }

  ghost predicate Chained(digest: Digest, rows: seq<Row>, nextPosition: nat) {
    && InOrder(rows) && (forall i | 0 <= i < |rows| :: rows[i].position < nextPosition)
    && GoodRecords(Links(rows)) && Verifies(digest, Links(rows)) && StoresPrevious(rows)
  }

  ghost predicate StoresPrevious(rows: seq<Row>) {
    forall i | 0 <= i < |rows| :: rows[i].prevHash == Previous(Links(rows), i)
  }

  // A row that may follow `rows`.
  ghost predicate Follows(digest: Digest, rows: seq<Row>, row: Row) {
    && row.prevHash == TailHash(rows) && GoodRecord(row.record)
    && row.hash == digest(TailHash(rows), row.record)
    && forall i | 0 <= i < |rows| :: rows[i].position < row.position
  }

  lemma NewRowFollows(digest: Digest, rows: seq<Row>, nextPosition: nat, e: Event, at: string, stored: Json)
    requires IgnoresKeyOrder(digest) && Chained(digest, rows, nextPosition) && Stores(e, stored)
    ensures var row := RowFor(digest, e, at, stored, TailHash(rows), nextPosition);
            Follows(digest, rows, row) && Tells(row.record, e)
  {
    assert SameRecord(Stamp(e, at).(payload := stored), Stamp(e, at));
  }

  lemma LongerChain(digest: Digest, links: seq<Linked>, next: Linked)
    ensures forall i | 0 <= i < |links| :: Previous(links + [next], i) == Previous(links, i)
    ensures Previous(links + [next], |links|) == LastHash(links)
    ensures Verifies(digest, links) && digest(LastHash(links), next.record) == next.hash
        ==> Verifies(digest, links + [next])
  {
    var longer := links + [next];
    assert longer[..|links|] == links;
    PrefixKeepsLinks(digest, longer, |links|);
    assert Rehash(digest, longer, |links|) == digest(LastHash(links), next.record);
    if Verifies(digest, links) && digest(LastHash(links), next.record) == next.hash {
      forall i | 0 <= i <= |links| ensures LinkHolds(digest, longer, i) {
        if i < |links| { assert LinkHolds(digest, links, i); }
      }
    }
  }

  lemma FollowingKeepsChain(digest: Digest, rows: seq<Row>, row: Row, nextPosition: nat)
    requires Chained(digest, rows, nextPosition) && Follows(digest, rows, row) && row.position < nextPosition
    ensures Chained(digest, rows + [row], nextPosition)
  {
    assert Links(rows + [row]) == Links(rows) + [Linked(row.record, row.hash)];
    LongerChain(digest, Links(rows), Linked(row.record, row.hash));
    LongerRecords(rows, row);
  }

  lemma LongerRecords(rows: seq<Row>, row: Row)
    requires GoodRecords(Links(rows)) && GoodRecord(row.record)
    requires StoresPrevious(rows) && row.prevHash == TailHash(rows)
    ensures GoodRecords(Links(rows + [row])) && StoresPrevious(rows + [row])
  {
    var links, longer := Links(rows), Links(rows + [row]);
    forall i | 0 <= i <= |rows|
      ensures GoodRecord(longer[i].record) && (rows + [row])[i].prevHash == Previous(longer, i)
    {
      if i < |rows| { assert GoodRecord(links[i].record) && Previous(longer, i) == Previous(links, i); }
    }
  }

  class AuditLog {
    const digest: Digest
    var rows: seq<Row>
    var nextPosition: nat

    ghost predicate Valid()
      reads this
    {
      IgnoresKeyOrder(digest) && Chained(digest, rows, nextPosition)
    }

    constructor (hash: string -> string)
      ensures Valid() && digest == HashRecord(hash) && rows == []
    {
      digest := HashRecord(hash);
      HashIgnoresKeyOrder(hash);
      rows := [];
      nextPosition := 1;
    }

    // One transaction, under the advisory lock: the event becomes the last row, chained to the
    // one before.
    method Append(e: Event, at: string, stored: Json) returns (position: nat, hash: string)
      requires Valid() && Stores(e, stored)
      modifies this`rows, this`nextPosition
      ensures Valid() && nextPosition == old(nextPosition) + 1
      ensures rows == old(rows) + [RowFor(digest, e, at, stored, TailHash(old(rows)), old(nextPosition))]
      ensures position == old(nextPosition) && hash == TailHash(rows)
      ensures var row := rows[|old(rows)|];
              && row.position == position && row.record.recordedAt == at && Tells(row.record, e)
              && row.prevHash == TailHash(old(rows)) && row.hash == hash == digest(row.prevHash, row.record)
    {
      var prevHash := if |rows| > 0 then rows[|rows| - 1].hash else GENESIS_HASH;
      var row := RowFor(digest, e, at, stored, prevHash, nextPosition);
      position, hash := row.position, row.hash;
      NewRowFollows(digest, rows, nextPosition, e, at, stored);
      FollowingKeepsChain(digest, rows, row, nextPosition + 1);
      rows, nextPosition := rows + [row], nextPosition + 1;
    }

    method Verify() returns (ok: bool, length: nat, brokenAt: Option<nat>)
      requires Valid()
      ensures ok && length == |rows| && brokenAt == None
    {
      ok, length, brokenAt := VerifyChain(digest, Links(rows));
    }
  }

  // ----- Concurrent appends -----

  datatype Session =
    | Waiting(event: Event)
    | Locked(event: Event)
    | HasTail(event: Event, prevHash: string)
    | Inserted(event: Event, row: Row)
    | Done(event: Event, appended: Option<Row>)

  // `rows` are the committed rows, in commit order.
  datatype System = System(rows: seq<Row>, nextPosition: nat, lock: Option<nat>, sessions: map<nat, Session>)

  datatype Step =
    | Begin(i: nat, event: Event)
    | TakeLock(i: nat)
    | ReadTail(i: nat, prevHash: string)
    | InsertRow(i: nat, at: string, stored: Json)
    | Commit(i: nat)
    | Abort(i: nat)

  // The hash of the row with the highest position.
  ghost predicate IsTail(rows: seq<Row>, prevHash: string) {
    if rows == [] then prevHash == GENESIS_HASH
    else
      exists row | row in rows ::
        row.hash == prevHash && forall other | other in rows :: other.position <= row.position
  }

  ghost predicate Enabled(sys: System, step: Step) {
    match step
    case Begin(i, _) => i !in sys.sessions
    case TakeLock(i) => i in sys.sessions && sys.sessions[i].Waiting? && sys.lock == None
    case ReadTail(i, prevHash) => i in sys.sessions && sys.sessions[i].Locked? && IsTail(sys.rows, prevHash)
    case InsertRow(i, _, stored) => i in sys.sessions && sys.sessions[i].HasTail?
        && Stores(sys.sessions[i].event, stored)
    case Commit(i) => i in sys.sessions && sys.sessions[i].Inserted?
    case Abort(i) => i in sys.sessions && !sys.sessions[i].Done?
  }

  function Put(sys: System, i: nat, s: Session): System { sys.(sessions := sys.sessions[i := s]) }

  function Unlocked(sys: System, i: nat): System { if sys.lock == Some(i) then sys.(lock := None) else sys }

  ghost function Next(digest: Digest, sys: System, step: Step): System
    requires Enabled(sys, step)
  {
    match step
    case Begin(i, event) => Put(sys, i, Waiting(event))
    case TakeLock(i) => Put(sys, i, Locked(sys.sessions[i].event)).(lock := Some(i))
    case ReadTail(i, prevHash) => Put(sys, i, HasTail(sys.sessions[i].event, prevHash))
    // A position drawn from the sequence is not given back.
    case InsertRow(i, at, stored) =>
      var s := sys.sessions[i];
      Put(sys, i, Inserted(s.event, RowFor(digest, s.event, at, stored, s.prevHash, sys.nextPosition)))
        .(nextPosition := sys.nextPosition + 1)
    case Commit(i) =>
      var row := sys.sessions[i].row;
      Unlocked(Put(sys, i, Done(sys.sessions[i].event, Some(row))), i).(rows := sys.rows + [row])
    case Abort(i) => Unlocked(Put(sys, i, Done(sys.sessions[i].event, None)), i)
  }

  ghost predicate Initial(sys: System) { sys == System([], 1, None, map[]) }

  ghost predicate Leads(digest: Digest, sys: System, sys': System) {
    exists step :: Enabled(sys, step) && sys' == Next(digest, sys, step)
  }

  ghost predicate Run(digest: Digest, trace: seq<System>) {
    trace != [] && Initial(trace[0]) && forall k | 0 <= k < |trace| - 1 :: Leads(digest, trace[k], trace[k + 1])
  }

  ghost predicate GoodSession(digest: Digest, sys: System, i: nat, s: Session) {
    && (s.Locked? || s.HasTail? || s.Inserted? ==> sys.lock == Some(i))
    && (s.HasTail? ==> s.prevHash == TailHash(sys.rows))
    && (s.Inserted? ==>
          Follows(digest, sys.rows, s.row) && s.row.position < sys.nextPosition && Tells(s.row.record, s.event))
    && (s.Done? && s.appended.Some? ==> s.appended.value in sys.rows && Tells(s.appended.value.record, s.event))
  }

  // The session appended this row.
  ghost predicate Appended(sys: System, i: nat, row: Row) {
    i in sys.sessions && sys.sessions[i].Done? && sys.sessions[i].appended == Some(row)
  }

  // Every committed row was appended by exactly one session.
  ghost predicate EachAppendedOnce(sys: System) {
    && (forall row | row in sys.rows :: exists i :: Appended(sys, i, row))
    && forall i, j, row | Appended(sys, i, row) && Appended(sys, j, row) :: i == j
  }

  ghost predicate Inv(digest: Digest, sys: System) {
    && Chained(digest, sys.rows, sys.nextPosition) && EachAppendedOnce(sys)
    && forall i | i in sys.sessions :: GoodSession(digest, sys, i, sys.sessions[i])
  }

  lemma TailIsLast(rows: seq<Row>, prevHash: string)
    requires InOrder(rows) && IsTail(rows, prevHash)
    ensures prevHash == TailHash(rows)
  {
    if rows != [] {
      var row :| row in rows && row.hash == prevHash && forall other | other in rows :: other.position <= row.position;
      var i :| 0 <= i < |rows| && rows[i] == row;
      assert rows[|rows| - 1] in rows;
    }
  }

  lemma StepKeepsInv(digest: Digest, sys: System, step: Step)
    requires IgnoresKeyOrder(digest) && Inv(digest, sys) && Enabled(sys, step)
    ensures Inv(digest, Next(digest, sys, step))
  {
    if step.Commit? {
      CommitKeepsInv(digest, sys, step.i);
    } else if step.InsertRow? {
      InsertKeepsInv(digest, sys, step);
    } else {
      RowsStayAppended(digest, sys, step);
      if step.ReadTail? { TailIsLast(sys.rows, step.prevHash); }
    }
  }

  lemma RowsStayAppended(digest: Digest, sys: System, step: Step)
    requires EachAppendedOnce(sys) && Enabled(sys, step) && !step.Commit?
    ensures EachAppendedOnce(Next(digest, sys, step))
  {
    var sys' := Next(digest, sys, step);
    assert forall i, row :: Appended(sys', i, row) <==> Appended(sys, i, row);
  }

  lemma CommitAppendsOnce(digest: Digest, sys: System, i: nat)
    requires Inv(digest, sys) && Enabled(sys, Commit(i))
    ensures EachAppendedOnce(Next(digest, sys, Commit(i)))
  {
    var sys' := Next(digest, sys, Commit(i));
    var row := sys.sessions[i].row;
    assert GoodSession(digest, sys, i, sys.sessions[i]);
    assert row !in sys.rows;
    assert Appended(sys', i, row);
    forall j, r ensures Appended(sys', j, r) <==> Appended(sys, j, r) || (j == i && r == row) {}
    forall r | r in sys'.rows ensures exists j :: Appended(sys', j, r) {
      if r in sys.rows {
        var j :| Appended(sys, j, r);
        assert Appended(sys', j, r);
      }
    }
    forall j, r | Appended(sys, j, r) ensures r != row { assert GoodSession(digest, sys, j, sys.sessions[j]); }
  }

  lemma InsertKeepsInv(digest: Digest, sys: System, step: Step)
    requires IgnoresKeyOrder(digest) && Inv(digest, sys) && Enabled(sys, step) && step.InsertRow?
    ensures Inv(digest, Next(digest, sys, step))
  {
    assert GoodSession(digest, sys, step.i, sys.sessions[step.i]);
    NewRowFollows(digest, sys.rows, sys.nextPosition, sys.sessions[step.i].event, step.at, step.stored);
    RowsStayAppended(digest, sys, step);
    var sys' := Next(digest, sys, step);
    forall k | k in sys'.sessions ensures GoodSession(digest, sys', k, sys'.sessions[k]) {
      if k != step.i { assert GoodSession(digest, sys, k, sys.sessions[k]); }
    }
  }

  lemma CommitKeepsInv(digest: Digest, sys: System, i: nat)
    requires Inv(digest, sys) && Enabled(sys, Commit(i))
    ensures Inv(digest, Next(digest, sys, Commit(i)))
  {
    var sys' := Next(digest, sys, Commit(i));
    var row := sys.sessions[i].row;
    assert GoodSession(digest, sys, i, sys.sessions[i]);
    FollowingKeepsChain(digest, sys.rows, row, sys.nextPosition);
    CommitAppendsOnce(digest, sys, i);
    forall k | k in sys'.sessions ensures GoodSession(digest, sys', k, sys'.sessions[k]) {
      if k != i { assert GoodSession(digest, sys, k, sys.sessions[k]); }
    }
  }

  lemma {:induction false} RunKeepsInv(digest: Digest, trace: seq<System>, k: nat)
    requires IgnoresKeyOrder(digest) && Run(digest, trace) && k < |trace|
    ensures Inv(digest, trace[k])
  {
    if k > 0 {
      RunKeepsInv(digest, trace, k - 1);
      assert Leads(digest, trace[k - 1], trace[k - 1 + 1]);
      var step :| Enabled(trace[k - 1], step) && trace[k] == Next(digest, trace[k - 1], step);
      StepKeepsInv(digest, trace[k - 1], step);
    }
  }

  // The committed rows as `verify` reads them: each once, by ascending position.
  ghost predicate ListedByPosition(rows: seq<Row>, listed: seq<Row>) {
    InOrder(listed) && (forall row :: row in listed <==> row in rows)
  }

  lemma LastHasHighestPosition(rows: seq<Row>)
    requires rows != [] && InOrder(rows)
    ensures forall row | row in rows :: row == rows[|rows| - 1] || row.position < rows[|rows| - 1].position
    ensures forall row :: row in rows[..|rows| - 1] <==> row in rows && row.position < rows[|rows| - 1].position
  {
  }

  lemma {:induction false} ListingIsUnique(rows: seq<Row>, listed: seq<Row>)
    requires InOrder(rows) && ListedByPosition(rows, listed)
    ensures listed == rows
  {
    var m, n := |rows| - 1, |listed| - 1;
    assert (m >= 0 ==> rows[m] in listed) && (n >= 0 ==> listed[n] in rows);
    if m >= 0 {
      LastHasHighestPosition(rows);
      LastHasHighestPosition(listed);
      assert rows[m] == listed[n];
      ListingIsUnique(rows[..m], listed[..n]);
      assert rows == rows[..m] + [rows[m]] && listed == listed[..n] + [listed[n]];
    }
  }

  // In every interleaving of appends the log verifies; its rows are exactly those of the finished
  // appends, each with the event it was begun with and each there once.
  lemma ConcurrentAppendsKeepChain(hash: string -> string, trace: seq<System>, k: nat, listed: seq<Row>)
    requires Run(HashRecord(hash), trace) && k < |trace| && ListedByPosition(trace[k].rows, listed)
    ensures Verifies(HashRecord(hash), Links(listed))
    ensures forall i | 0 <= i < |listed| :: listed[i].prevHash == Previous(Links(listed), i)
    ensures forall row :: row in listed <==> exists i :: Appended(trace[k], i, row)
    ensures forall i, row | Appended(trace[k], i, row) :: Tells(row.record, trace[k].sessions[i].event)
    ensures forall i, j, row | Appended(trace[k], i, row) && Appended(trace[k], j, row) :: i == j
  {
    HashIgnoresKeyOrder(hash);
    RunKeepsInv(HashRecord(hash), trace, k);
    ListingIsUnique(trace[k].rows, listed);
    forall i, row | Appended(trace[k], i, row)
      ensures row in listed && Tells(row.record, trace[k].sessions[i].event)
    {
      assert GoodSession(HashRecord(hash), trace[k], i, trace[k].sessions[i]);
    }
  }
}
