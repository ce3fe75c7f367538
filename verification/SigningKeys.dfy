/** Signing-key rotation, promotion and retirement beside token issuance. */
module SigningKeys {
  import opened Prelude

  // A key version being drained, and the time (in ms) from which it may be retired.
  datatype RetiringKey = RetiringKey(version: nat, drainUntilMs: nat)

  // The stored document, and the signer's newest and least accepted versions.
  datatype KeyState = KeyState(pinned: Option<nat>, retiring: seq<RetiringKey>, latest: nat, minVersion: nat)

  function ActiveVersion(k: KeyState): nat { OrElse(k.pinned, k.latest) }

  function Rotated(k: KeyState): KeyState { k.(latest := k.latest + 1, pinned := Some(ActiveVersion(k))) }

  function WithoutVersion(retiring: seq<RetiringKey>, version: nat): (r: seq<RetiringKey>)
    ensures forall e :: e in r <==> e in retiring && e.version != version
  {
    if retiring == [] then []
    else (if retiring[0].version != version then [retiring[0]] else []) + WithoutVersion(retiring[1..], version)
  }

  function Promoted(k: KeyState, nowMs: nat, ttlSeconds: nat): KeyState {
    var previous := ActiveVersion(k);
    if k.latest <= previous then k.(pinned := None)
    else k.(pinned := None,
            retiring := WithoutVersion(k.retiring, previous) + [RetiringKey(previous, nowMs + ttlSeconds * 1000)])
  }

  function Drained(retiring: seq<RetiringKey>, nowMs: nat): (d: seq<RetiringKey>)
    ensures forall e :: e in d <==> e in retiring && e.drainUntilMs <= nowMs
  {
    if retiring == [] then []
    else (if retiring[0].drainUntilMs <= nowMs then [retiring[0]] else []) + Drained(retiring[1..], nowMs)
  }

  function Remaining(retiring: seq<RetiringKey>, nowMs: nat): (d: seq<RetiringKey>)
    ensures forall e :: e in d <==> e in retiring && e.drainUntilMs > nowMs
  {
    if retiring == [] then []
    else (if retiring[0].drainUntilMs > nowMs then [retiring[0]] else []) + Remaining(retiring[1..], nowMs)
  }

  function MaxVersion(keys: seq<RetiringKey>): (v: nat)
    requires keys != []
    ensures (exists e | e in keys :: e.version == v) && forall e | e in keys :: e.version <= v
  {
    if |keys| == 1 then keys[0].version
    else
      var rest := MaxVersion(keys[1..]);
      assert forall e :: e in keys <==> e == keys[0] || e in keys[1..];
      if keys[0].version > rest then keys[0].version else rest
  }

  function Retired(k: KeyState, nowMs: nat): KeyState {
    var drained := Drained(k.retiring, nowMs);
    if drained == [] then k
    else k.(minVersion := MaxVersion(drained) + 1, retiring := Remaining(k.retiring, nowMs))
  }

  function EntriesOf(retiring: seq<RetiringKey>, version: nat): (r: seq<RetiringKey>)
    ensures forall e :: e in r <==> e in retiring && e.version == version
  {
    if retiring == [] then []
    else (if retiring[0].version == version then [retiring[0]] else []) + EntriesOf(retiring[1..], version)
  }

  // From `k` to `k'` an active version that was not the latest got the one entry `until`, and
  // no other entry changed.
  ghost predicate Drains(k: KeyState, k': KeyState, until: nat) {
    var previous := ActiveVersion(k);
    if k.latest <= previous then k'.retiring == k.retiring
    else
      && EntriesOf(k'.retiring, previous) == [RetiringKey(previous, until)]
      && WithoutVersion(k'.retiring, previous) == WithoutVersion(k.retiring, previous)
  }

  lemma RestOfEntries(others: seq<RetiringKey>, last: RetiringKey)
    requires others != [] && forall e | e in others :: e.version != last.version
    ensures others[0].version != last.version && forall e | e in others[1..] :: e.version != last.version
    ensures (others + [last])[0] == others[0] && (others + [last])[1..] == others[1..] + [last]
  {
    assert others[0] in others && forall e | e in others[1..] :: e in others;
  }

  // Behind other versions, an entry is the only one of its version.
  lemma {:induction false} LastIsAlone(others: seq<RetiringKey>, last: RetiringKey)
    requires forall e | e in others :: e.version != last.version
    ensures EntriesOf(others + [last], last.version) == [last]
  {
    if others == [] {
      assert others + [last] == [last];
      assert EntriesOf([last][1..], last.version) == [];
    } else {
      RestOfEntries(others, last);
      LastIsAlone(others[1..], last);
    }
  }

  lemma {:induction false} OthersStay(others: seq<RetiringKey>, last: RetiringKey)
    requires forall e | e in others :: e.version != last.version
    ensures WithoutVersion(others + [last], last.version) == others
  {
    if others == [] {
      assert others + [last] == [last];
      assert WithoutVersion([last][1..], last.version) == [];
    } else {
      RestOfEntries(others, last);
      OthersStay(others[1..], last);
      assert others == [others[0]] + others[1..];
    }
  }

  lemma PromotionDrains(k: KeyState, nowMs: nat, ttlSeconds: nat)
    ensures Drains(k, Promoted(k, nowMs, ttlSeconds), nowMs + ttlSeconds * 1000)
  {
    var last := RetiringKey(ActiveVersion(k), nowMs + ttlSeconds * 1000);
    LastIsAlone(WithoutVersion(k.retiring, last.version), last);
    OthersStay(WithoutVersion(k.retiring, last.version), last);
  }

  ghost predicate Finished(k: KeyState, e: RetiringKey, nowMs: nat) { e in k.retiring && e.drainUntilMs <= nowMs }

  // From `k` to `k'` the entries with a finished drain are gone and their versions refused, the
  // least accepted version being just past the newest of them; it stays if there was none.
  ghost predicate Retires(k: KeyState, k': KeyState, nowMs: nat) {
    && k'.pinned == k.pinned && k'.latest == k.latest
    && (forall e :: e in k'.retiring <==> e in k.retiring && e.drainUntilMs > nowMs)
    && (forall e | Finished(k, e, nowMs) :: e.version < k'.minVersion)
    && ((exists e :: Finished(k, e, nowMs)) ==> exists e | Finished(k, e, nowMs) :: e.version + 1 == k'.minVersion)
    && ((forall e :: !Finished(k, e, nowMs)) ==> k'.minVersion == k.minVersion)
  }

  lemma RetirementRetires(k: KeyState, nowMs: nat)
    ensures Retires(k, Retired(k, nowMs), nowMs)
  {
    var drained := Drained(k.retiring, nowMs);
    if drained == [] {
      forall e ensures !Finished(k, e, nowMs) { assert e !in drained; }
    } else {
      var newest := MaxVersion(drained);
      assert exists e | e in drained :: e.version == newest;
      var e :| e in drained && e.version == newest;
      assert Finished(k, e, nowMs);
    }
  }

  // The service with its state document and signer; each operation reads, changes and writes them.
  class SigningKeyService {
    const ttlSeconds: nat
    var pinned: Option<nat>
    var retiring: seq<RetiringKey>
    var latest: nat
    var minVersion: nat

    constructor (ttlSeconds: nat)
      ensures this.ttlSeconds == ttlSeconds && State() == KeyState(None, [], 1, 1)
    {
      this.ttlSeconds := ttlSeconds;
      pinned, retiring, latest, minVersion := None, [], 1, 1;
    }

    function State(): KeyState
      reads this
    {
      KeyState(pinned, retiring, latest, minVersion)
    }

    method ResolveActive() returns (version: nat)
      ensures version == ActiveVersion(State())
    {
      version := if pinned.Some? then pinned.value else latest;
    }

    // The new version is the latest, and the one that signed before goes on signing.
    method Rotate()
      modifies this
      ensures State() == Rotated(old(State()))
      ensures ActiveVersion(State()) == ActiveVersion(old(State())) && latest == old(latest) + 1
      ensures retiring == old(retiring) && minVersion == old(minVersion)
    {
      var active := ResolveActive();
      latest := latest + 1;
      pinned := Some(active);
    }

    // The latest version signs. An older one that signed until now drains for one token
    // lifetime, under exactly one entry; the other entries stay.
    method Promote(nowMs: nat)
      modifies this
      ensures State() == Promoted(old(State()), nowMs, ttlSeconds)
      ensures ActiveVersion(State()) == latest == old(latest) && minVersion == old(minVersion)
      ensures Drains(old(State()), State(), nowMs + ttlSeconds * 1000)
    {
      PromotionDrains(State(), nowMs, ttlSeconds);
      var previous := ResolveActive();
      pinned := None;
      if latest <= previous { return; }
      retiring := WithoutVersion(retiring, previous) + [RetiringKey(previous, nowMs + ttlSeconds * 1000)];
    }

    // Every version whose drain is over stops being accepted, the newest of them being the last
    // that does, and leaves the document; nothing else changes.
    method Retire(nowMs: nat) returns (versions: seq<nat>)
      modifies this
      ensures State() == Retired(old(State()), nowMs)
      ensures Retires(old(State()), State(), nowMs)
      ensures |versions| == |Drained(old(retiring), nowMs)|
      ensures forall i | 0 <= i < |versions| :: versions[i] == Drained(old(retiring), nowMs)[i].version
    {
      RetirementRetires(State(), nowMs);
      var drained := Drained(retiring, nowMs);
      if drained == [] { return []; }
      minVersion := MaxVersion(drained) + 1;
      retiring := Remaining(retiring, nowMs);
      return seq(|drained|, i requires 0 <= i < |drained| => drained[i].version);
    }
  }

  // ----- Issuance interleaved with key operations -----

  // An issuance: it reads the clock, then the document, then (unless a version is pinned) the
  // newest version, then signs.
  datatype Issue =
    | ReadClock(iat: nat)
    | ReadDoc(iat: nat)
    | Resolved(iat: nat, version: nat)
    | Signed(iat: nat, version: nat)

  datatype System = System(keys: KeyState, nowMs: nat, issues: map<nat, Issue>)

  datatype Step =
    | Tick(ms: nat) | Rotate | Promote | Retire
    | Begin(i: nat) | Resolve(i: nat) | ResolveLatest(i: nat) | Sign(i: nat)

  predicate Enabled(sys: System, step: Step) {
    match step
    case Begin(i) => i !in sys.issues
    case Resolve(i) => i in sys.issues && sys.issues[i].ReadClock?
    case ResolveLatest(i) => i in sys.issues && sys.issues[i].ReadDoc?
    case Sign(i) => i in sys.issues && sys.issues[i].Resolved?
    case _ => true
  }

  function Next(sys: System, step: Step, ttlSeconds: nat): System
    requires Enabled(sys, step)
  {
    match step
    case Tick(ms) => sys.(nowMs := sys.nowMs + ms)
    case Rotate => sys.(keys := Rotated(sys.keys))
    case Promote => sys.(keys := Promoted(sys.keys, sys.nowMs, ttlSeconds))
    case Retire => sys.(keys := Retired(sys.keys, sys.nowMs))
    case Begin(i) => sys.(issues := sys.issues[i := ReadClock(sys.nowMs / 1000)])
    case Resolve(i) =>
      var iat := sys.issues[i].iat;
      var next := if sys.keys.pinned.Some? then Resolved(iat, sys.keys.pinned.value) else ReadDoc(iat);
      sys.(issues := sys.issues[i := next])
    case ResolveLatest(i) => sys.(issues := sys.issues[i := Resolved(sys.issues[i].iat, sys.keys.latest)])
    case Sign(i) => sys.(issues := sys.issues[i := Signed(sys.issues[i].iat, sys.issues[i].version)])
  }

  ghost predicate Initial(sys: System) {
    sys.keys == KeyState(None, [], 1, 1) && sys.issues == map[]
  }

  ghost predicate Leads(sys: System, sys': System, ttlSeconds: nat) {
    exists step :: Enabled(sys, step) && sys' == Next(sys, step, ttlSeconds)
  }

  ghost predicate Run(trace: seq<System>, ttlSeconds: nat) {
    trace != [] && Initial(trace[0]) && forall k | 0 <= k < |trace| - 1 :: Leads(trace[k], trace[k + 1], ttlSeconds)
  }

  function ExpiryMs(iat: nat, ttlSeconds: nat): nat { (iat + ttlSeconds) * 1000 }

  // Keys being drained are older than the active one, which is accepted.
  ghost predicate GoodKeys(k: KeyState) {
    && (k.pinned.Some? ==> k.pinned.value <= k.latest)
    && k.minVersion <= ActiveVersion(k)
    && forall e | e in k.retiring :: e.version < ActiveVersion(k)
  }

  // Draining a key no older than the signing one outlasts the token; the key is accepted
  // unless the token has expired.
  ghost predicate GoodClaim(sys: System, iat: nat, version: nat, ttlSeconds: nat) {
    && (forall e | e in sys.keys.retiring && e.version >= version :: e.drainUntilMs >= ExpiryMs(iat, ttlSeconds))
    && (sys.keys.minVersion <= version || ExpiryMs(iat, ttlSeconds) <= sys.nowMs)
  }

  ghost predicate GoodIssue(sys: System, issue: Issue, ttlSeconds: nat) {
    && issue.iat * 1000 <= sys.nowMs
    && (issue.Resolved? || issue.Signed? ==> GoodClaim(sys, issue.iat, issue.version, ttlSeconds))
  }

  // Newer versions drain later, none longer than a token lifetime from now, and none of them
  // is refused yet.
  ghost predicate GoodDrains(sys: System, ttlSeconds: nat) {
    && (forall e | e in sys.keys.retiring ::
          e.drainUntilMs <= sys.nowMs + ttlSeconds * 1000 && e.version >= sys.keys.minVersion)
    && (forall d, e | d in sys.keys.retiring && e in sys.keys.retiring && d.version < e.version ::
          d.drainUntilMs <= e.drainUntilMs)
    && (forall d, e | d in sys.keys.retiring && e in sys.keys.retiring && d.version == e.version :: d == e)
  }

  ghost predicate Inv(sys: System, ttlSeconds: nat) {
    && GoodKeys(sys.keys) && GoodDrains(sys, ttlSeconds)
    && forall i | i in sys.issues :: GoodIssue(sys, sys.issues[i], ttlSeconds)
  }

  lemma StepKeepsDrains(sys: System, step: Step, ttlSeconds: nat)
    requires GoodKeys(sys.keys) && GoodDrains(sys, ttlSeconds) && Enabled(sys, step)
    ensures GoodDrains(Next(sys, step, ttlSeconds), ttlSeconds)
    ensures Next(sys, step, ttlSeconds).keys.minVersion >= sys.keys.minVersion
  {
    if step.Retire? { RetireKeepsDrains(sys, ttlSeconds); }
    else if step.Promote? { PromoteKeepsDrains(sys, ttlSeconds); }
  }

  lemma RetireKeepsDrains(sys: System, ttlSeconds: nat)
    requires GoodDrains(sys, ttlSeconds)
    ensures GoodDrains(Next(sys, Retire, ttlSeconds), ttlSeconds)
    ensures Next(sys, Retire, ttlSeconds).keys.minVersion >= sys.keys.minVersion
  {
    var k, k' := sys.keys, Retired(sys.keys, sys.nowMs);
    RetirementRetires(k, sys.nowMs);
    forall e | e in k'.retiring ensures e.version >= k'.minVersion {
      if d :| Finished(k, d, sys.nowMs) && d.version + 1 == k'.minVersion { assert d in k.retiring && e in k.retiring; }
    }
  }

  lemma PromoteKeepsDrains(sys: System, ttlSeconds: nat)
    requires GoodKeys(sys.keys) && GoodDrains(sys, ttlSeconds)
    ensures GoodDrains(Next(sys, Promote, ttlSeconds), ttlSeconds)
    ensures Next(sys, Promote, ttlSeconds).keys.minVersion == sys.keys.minVersion
  {
  }

  lemma StepKeepsInv(sys: System, step: Step, ttlSeconds: nat)
    requires Inv(sys, ttlSeconds) && Enabled(sys, step)
    ensures Inv(Next(sys, step, ttlSeconds), ttlSeconds)
  {
    var sys' := Next(sys, step, ttlSeconds);
    StepKeepsDrains(sys, step, ttlSeconds);
    forall i | i in sys'.issues ensures GoodIssue(sys', sys'.issues[i], ttlSeconds) {
      if i in sys.issues { assert GoodIssue(sys, sys.issues[i], ttlSeconds); }
    }
  }

  lemma {:induction false} RunKeepsInv(trace: seq<System>, k: nat, ttlSeconds: nat)
    requires Run(trace, ttlSeconds) && k < |trace|
    ensures Inv(trace[k], ttlSeconds)
  {
    if k > 0 {
      RunKeepsInv(trace, k - 1, ttlSeconds);
      assert Leads(trace[k - 1], trace[k], ttlSeconds);
      var step :| Enabled(trace[k - 1], step) && trace[k] == Next(trace[k - 1], step, ttlSeconds);
      StepKeepsInv(trace[k - 1], step, ttlSeconds);
    }
  }

  // A rotation completes by a promotion: the new version signs; the one that signed before
  // drains past every token it can have signed by then, and is accepted until that is over.
  lemma RotationCompletes(k: KeyState, nowMs: nat, ttlSeconds: nat, iat: nat, laterMs: nat)
    requires GoodKeys(k) && iat * 1000 <= nowMs
    ensures var k' := Promoted(Rotated(k), nowMs, ttlSeconds);
            var previous := ActiveVersion(k);
            && ActiveVersion(k') == k.latest + 1 > previous
            && (exists e | e in k'.retiring :: e.version == previous && e.drainUntilMs >= ExpiryMs(iat, ttlSeconds))
            && (laterMs < ExpiryMs(iat, ttlSeconds) ==> Retired(k', laterMs).minVersion <= previous)
  {
    var rotated := Rotated(k);
    var k', until := Promoted(rotated, nowMs, ttlSeconds), nowMs + ttlSeconds * 1000;
    PromotionDrains(rotated, nowMs, ttlSeconds);
    var entry := RetiringKey(ActiveVersion(k), until);
    assert entry in EntriesOf(k'.retiring, ActiveVersion(k));
    var drained := Drained(k'.retiring, laterMs);
    if laterMs < ExpiryMs(iat, ttlSeconds) && drained != [] {
      forall e | e in drained ensures e.version < ActiveVersion(k) {
        assert e != entry && e in k'.retiring;
        assert e.version == ActiveVersion(k) ==> e in EntriesOf(k'.retiring, ActiveVersion(k));
        assert e in WithoutVersion(k'.retiring, ActiveVersion(k)) || e.version == ActiveVersion(k);
      }
    }
  }

  // An issuance keeps the time it read when it began.
  lemma {:induction false} IssueKeepsTime(trace: seq<System>, j: nat, k: nat, ttlSeconds: nat, i: nat)
    requires Run(trace, ttlSeconds) && j <= k < |trace| && i in trace[j].issues
    ensures i in trace[k].issues && trace[k].issues[i].iat == trace[j].issues[i].iat
  {
    if j < k {
      IssueKeepsTime(trace, j, k - 1, ttlSeconds, i);
      assert Leads(trace[k - 1], trace[k], ttlSeconds);
    }
  }

  // In terms of the run alone: while a token, issued from the moment its issuance began, has not
  // expired, the version that signed it is accepted.
  lemma IssuedTokenIsAccepted(trace: seq<System>, j: nat, k: nat, ttlSeconds: nat, i: nat)
    requires Run(trace, ttlSeconds) && j < k < |trace| && Enabled(trace[j], Begin(i))
    requires trace[j + 1] == Next(trace[j], Begin(i), ttlSeconds)
    requires i in trace[k].issues && trace[k].issues[i].Signed?
    requires trace[k].nowMs < (trace[j].nowMs / 1000 + ttlSeconds) * 1000
    ensures trace[k].keys.minVersion <= trace[k].issues[i].version
  {
    IssueKeepsTime(trace, j + 1, k, ttlSeconds, i);
    RetirementIsSafe(trace, k, ttlSeconds);
  }

  // An issuance that runs undisturbed signs with the active version, pinned or latest.
  lemma UndisturbedIssueUsesActive(sys: System, ttlSeconds: nat, i: nat)
    requires i !in sys.issues
    ensures var begun := Next(sys, Begin(i), ttlSeconds);
            Enabled(begun, Resolve(i)) &&
            var read := Next(begun, Resolve(i), ttlSeconds);
            (sys.keys.pinned.None? <==> Enabled(read, ResolveLatest(i))) &&
            var resolved := if sys.keys.pinned.None? then Next(read, ResolveLatest(i), ttlSeconds) else read;
            Enabled(resolved, Sign(i)) &&
            Next(resolved, Sign(i), ttlSeconds)
              == sys.(issues := sys.issues[i := Signed(sys.nowMs / 1000, ActiveVersion(sys.keys))])
  {
    var signed := sys.issues[i := Signed(sys.nowMs / 1000, ActiveVersion(sys.keys))];
    var begun := Next(sys, Begin(i), ttlSeconds);
    var read := Next(begun, Resolve(i), ttlSeconds);
    var resolved := if sys.keys.pinned.None? then Next(read, ResolveLatest(i), ttlSeconds) else read;
    assert Next(resolved, Sign(i), ttlSeconds).issues == signed;
  }

  lemma {:induction false} MinVersionNeverFalls(trace: seq<System>, j: nat, k: nat, ttlSeconds: nat)
    requires Run(trace, ttlSeconds) && j <= k < |trace|
    ensures trace[j].keys.minVersion <= trace[k].keys.minVersion
  {
    if j < k {
      MinVersionNeverFalls(trace, j, k - 1, ttlSeconds);
      RunKeepsInv(trace, k - 1, ttlSeconds);
      assert Leads(trace[k - 1], trace[k], ttlSeconds);
      var step :| Enabled(trace[k - 1], step) && trace[k] == Next(trace[k - 1], step, ttlSeconds);
      StepKeepsDrains(trace[k - 1], step, ttlSeconds);
    }
  }

  // In every run a version retired at or past the end of its drain is refused from then on.
  lemma RetiredVersionIsRefused(trace: seq<System>, j: nat, k: nat, ttlSeconds: nat, e: RetiringKey)
    requires Run(trace, ttlSeconds) && j < k < |trace| && trace[j + 1] == Next(trace[j], Retire, ttlSeconds)
    requires Finished(trace[j].keys, e, trace[j].nowMs)
    ensures e.version < trace[k].keys.minVersion
  {
    RetirementRetires(trace[j].keys, trace[j].nowMs);
    MinVersionNeverFalls(trace, j + 1, k, ttlSeconds);
  }

  // In no run does the least accepted version pass the version that signed a token whose
  // expiry is ahead, nor the active version.
  lemma RetirementIsSafe(trace: seq<System>, k: nat, ttlSeconds: nat)
    requires Run(trace, ttlSeconds) && k < |trace|
    ensures var sys := trace[k];
            && sys.keys.minVersion <= ActiveVersion(sys.keys)
            && forall i | i in sys.issues && sys.issues[i].Signed?
                          && ExpiryMs(sys.issues[i].iat, ttlSeconds) > sys.nowMs ::
                 sys.keys.minVersion <= sys.issues[i].version
  {
    RunKeepsInv(trace, k, ttlSeconds);
    forall i | i in trace[k].issues ensures GoodIssue(trace[k], trace[k].issues[i], ttlSeconds) {}
  }
}
