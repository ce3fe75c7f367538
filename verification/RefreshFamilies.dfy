/**
 Refresh-token rotation with reuse detection. Refreshes, logins, logouts and expiring grace
 entries interleave; each database statement or transaction and each cache access is a step.
 A token's identity stands for its hash.
 */
module RefreshFamilies {
  import opened Prelude

  datatype TokenStatus = Active | Rotated | Revoked

  datatype Token = Token(family: nat, generation: nat, status: TokenStatus, expiresAt: nat)

  datatype Family = Family(session: nat, live: bool)

  datatype Session = Session(live: bool, expiresAt: nat)

  datatype GracePair = GracePair(successor: nat, successorGeneration: nat)

  datatype Answer = Granted(token: nat) | Invalid | Reuse

  const RACE_RETRIES := 6

  // What a refresh fixes when it begins: the clock, the token it presents, and three facts
  // noted only to state results: whether that token exists, how many generations came after
  // it, and whether its family is already revoked.
  datatype Start = Start(now: nat, id: nat, known: bool, superseded: nat, dead: bool)

  // A refresh between its steps, with the rows it has read.
  datatype Refresh =
    | Begun(b: Start)
    | KnowsToken(b: Start, token: Token)
    | KnowsFamily(b: Start, token: Token, family: Family)
    | Rotating(b: Start, token: Token, family: Family, session: Session)
    | Won(b: Start, pair: GracePair)
    | Replaying(b: Start, token: Token, family: Family, attempts: nat)
    | Comparing(b: Start, token: Token, family: Family, pair: GracePair)
    | Revoking(b: Start, token: Token, family: Family)
    | RevokingSession(b: Start, token: Token, family: Family)
    | Done(b: Start, answer: Answer)

  // `newest` counts each family's tokens and `rotations` lists the tokens in the order their
  // rotation won; both only state results.
  datatype System = System(
    clock: nat, tokens: map<nat, Token>, families: map<nat, Family>, sessions: map<nat, Session>,
    grace: map<nat, GracePair>, refreshes: map<nat, Refresh>, newest: map<nat, nat>, rotations: seq<nat>)

  datatype Step =
    | Tick
    | Login(session: nat, family: nat, token: nat, expiresAt: nat)
    | Logout(session: nat)
    | GraceExpires(id: nat)
    | Begin(i: nat, id: nat)
    | FindToken(i: nat)
    | FindFamily(i: nat)
    | FindSession(i: nat)
    | Rotate(i: nat, successor: nat)
    | PutGrace(i: nat, stored: bool)
    | GetGrace(i: nat)
    | Compare(i: nat, active: Option<nat>)
    | RevokeForReuse(i: nat, missed: set<nat>)
    | RevokeSession(i: nat)

  function At(sys: System, i: nat): Option<Refresh> {
    if i in sys.refreshes then Some(sys.refreshes[i]) else None
  }

  // One of the family's active tokens, or none when there is none.
  ghost predicate FindsActive(sys: System, family: nat, active: Option<nat>) {
    match active
    case Some(a) => a in sys.tokens && sys.tokens[a].family == family && sys.tokens[a].status == Active
    case None => forall a | a in sys.tokens :: !(sys.tokens[a].family == family && sys.tokens[a].status == Active)
  }

  ghost predicate Enabled(sys: System, step: Step) {
    match step
    case Tick => true
    case Login(s, f, t, _) => s !in sys.sessions && f !in sys.families && t !in sys.tokens
    case Logout(s) => s in sys.sessions
    case GraceExpires(_) => true
    case Begin(i, _) => i !in sys.refreshes
    case FindToken(i) => At(sys, i).Some? && At(sys, i).value.Begun?
    case FindFamily(i) => At(sys, i).Some? && At(sys, i).value.KnowsToken?
    case FindSession(i) => At(sys, i).Some? && At(sys, i).value.KnowsFamily?
    case Rotate(i, successor) => At(sys, i).Some? && At(sys, i).value.Rotating? && successor !in sys.tokens
    case PutGrace(i, _) => At(sys, i).Some? && At(sys, i).value.Won?
    case GetGrace(i) => At(sys, i).Some? && At(sys, i).value.Replaying?
    case Compare(i, active) =>
      At(sys, i).Some? && At(sys, i).value.Comparing? && FindsActive(sys, At(sys, i).value.token.family, active)
    case RevokeForReuse(i, _) => At(sys, i).Some? && At(sys, i).value.Revoking?
    case RevokeSession(i) => At(sys, i).Some? && At(sys, i).value.RevokingSession?
  }

  // How many generations came after the presented token, and whether its family is revoked.
  function Superseded(sys: System, id: nat): nat {
    if id in sys.tokens && sys.tokens[id].family in sys.newest
       && sys.newest[sys.tokens[id].family] >= sys.tokens[id].generation
    then sys.newest[sys.tokens[id].family] - sys.tokens[id].generation else 0
  }

  predicate FamilyDead(sys: System, id: nat) {
    id in sys.tokens && sys.tokens[id].family in sys.families && !sys.families[sys.tokens[id].family].live
  }

  function StartOf(sys: System, id: nat): Start {
    Start(sys.clock, id, id in sys.tokens, Superseded(sys, id), FamilyDead(sys, id))
  }

  // Revokes the family's tokens; rows inserted while the statement runs may be missed.
  function RevokeTokens(tokens: map<nat, Token>, family: nat, missed: set<nat>): map<nat, Token> {
    map id | id in tokens ::
      if tokens[id].family == family && id !in missed then tokens[id].(status := Revoked) else tokens[id]
  }

  function RevokeFamilies(families: map<nat, Family>, session: nat): map<nat, Family> {
    map f | f in families :: if families[f].session == session then families[f].(live := false) else families[f]
  }

  function RevokeFamily(families: map<nat, Family>, family: nat): map<nat, Family> {
    if family in families then families[family := families[family].(live := false)] else families
  }

  function EndSession(sessions: map<nat, Session>, session: nat): map<nat, Session> {
    if session in sessions then sessions[session := sessions[session].(live := false)] else sessions
  }

  // The rotating transaction of `r` wins if its token is still active.
  predicate Wins(sys: System, r: Refresh) {
    r.Rotating? && r.b.id in sys.tokens && sys.tokens[r.b.id].status == Active
  }

  function SuccessorOf(r: Refresh): Token
    requires r.Rotating?
  {
    Token(r.token.family, r.token.generation + 1, Active, r.session.expiresAt)
  }

  // The next state of the refresh that takes the step.
  function Advance(sys: System, r: Refresh, step: Step): Refresh {
    match (step, r)
    case (FindToken(_), Begun(b)) =>
      if b.id !in sys.tokens || sys.tokens[b.id].expiresAt <= b.now then Done(b, Invalid)
      else KnowsToken(b, sys.tokens[b.id])
    case (FindFamily(_), KnowsToken(b, t)) =>
      if t.family !in sys.families || !sys.families[t.family].live then Done(b, Invalid)
      else KnowsFamily(b, t, sys.families[t.family])
    case (FindSession(_), KnowsFamily(b, t, f)) =>
      if f.session !in sys.sessions || !sys.sessions[f.session].live || sys.sessions[f.session].expiresAt <= b.now
      then Done(b, Invalid)
      else if t.status == Active then Rotating(b, t, f, sys.sessions[f.session])
      else Replaying(b, t, f, 1)
    case (Rotate(_, successor), Rotating(b, t, f, _)) =>
      if Wins(sys, r) then Won(b, GracePair(successor, t.generation + 1)) else Replaying(b, t, f, RACE_RETRIES)
    case (PutGrace(_, _), Won(b, pair)) => Done(b, Granted(pair.successor))
    case (GetGrace(_), Replaying(b, t, f, attempts)) =>
      if b.id in sys.grace then Comparing(b, t, f, sys.grace[b.id])
      else if attempts > 1 then Replaying(b, t, f, attempts - 1)
      else Revoking(b, t, f)
    case (Compare(_, active), Comparing(b, t, f, pair)) =>
      if active.Some? && active.value in sys.tokens && sys.tokens[active.value].generation == pair.successorGeneration
      then Done(b, Granted(pair.successor))
      else Revoking(b, t, f)
    case (RevokeForReuse(_, _), Revoking(b, t, f)) => RevokingSession(b, t, f)
    case (RevokeSession(_), RevokingSession(b, _, _)) => Done(b, Reuse)
    case _ => r
  }

  function NextTokens(sys: System, step: Step): map<nat, Token> {
    match step
    case Login(_, f, t, expiresAt) => sys.tokens[t := Token(f, 1, Active, expiresAt)]
    case Rotate(i, successor) =>
      if At(sys, i).Some? && Wins(sys, sys.refreshes[i]) then
        var r := sys.refreshes[i];
        sys.tokens[r.b.id := sys.tokens[r.b.id].(status := Rotated)][successor := SuccessorOf(r)]
      else sys.tokens
    case RevokeForReuse(i, missed) =>
      if At(sys, i).Some? && sys.refreshes[i].Revoking?
      then RevokeTokens(sys.tokens, sys.refreshes[i].token.family, missed) else sys.tokens
    case _ => sys.tokens
  }

  function NextNewest(sys: System, step: Step): map<nat, nat> {
    match step
    case Login(_, f, _, _) => sys.newest[f := 1]
    case Rotate(i, _) =>
      if At(sys, i).Some? && Wins(sys, sys.refreshes[i])
      then sys.newest[sys.refreshes[i].token.family := sys.refreshes[i].token.generation + 1] else sys.newest
    case _ => sys.newest
  }

  function NextRotations(sys: System, step: Step): seq<nat> {
    if step.Rotate? && At(sys, step.i).Some? && Wins(sys, sys.refreshes[step.i])
    then sys.rotations + [sys.refreshes[step.i].b.id] else sys.rotations
  }

  function NextFamilies(sys: System, step: Step): map<nat, Family> {
    match step
    case Login(s, f, _, _) => sys.families[f := Family(s, true)]
    case Logout(s) => RevokeFamilies(sys.families, s)
    case RevokeForReuse(i, _) =>
      if At(sys, i).Some? && sys.refreshes[i].Revoking?
      then RevokeFamily(sys.families, sys.refreshes[i].token.family) else sys.families
    case _ => sys.families
  }

  function NextSessions(sys: System, step: Step): map<nat, Session> {
    match step
    case Login(s, _, _, expiresAt) => sys.sessions[s := Session(true, expiresAt)]
    case Logout(s) => EndSession(sys.sessions, s)
    case RevokeSession(i) =>
      if At(sys, i).Some? && sys.refreshes[i].RevokingSession?
      then EndSession(sys.sessions, sys.refreshes[i].family.session) else sys.sessions
    case _ => sys.sessions
  }

  function NextGrace(sys: System, step: Step): map<nat, GracePair> {
    match step
    case GraceExpires(id) => sys.grace - {id}
    case PutGrace(i, stored) =>
      if stored && At(sys, i).Some? && sys.refreshes[i].Won?
      then sys.grace[sys.refreshes[i].b.id := sys.refreshes[i].pair] else sys.grace
    case _ => sys.grace
  }

  function NextRefreshes(sys: System, step: Step): map<nat, Refresh> {
    match Actor(step)
    case None => sys.refreshes
    case Some(i) =>
      if step.Begin? then
        sys.refreshes[i := Begun(StartOf(sys, step.id))]
      else if i in sys.refreshes then sys.refreshes[i := Advance(sys, sys.refreshes[i], step)]
      else sys.refreshes
  }

  // The refresh that takes the step, if one does.
  function Actor(step: Step): Option<nat> {
    match step
    case Tick => None
    case Login(_, _, _, _) => None
    case Logout(_) => None
    case GraceExpires(_) => None
    case _ => Some(step.i)
  }

  function Next(sys: System, step: Step): System {
    System(if step.Tick? then sys.clock + 1 else sys.clock,
           NextTokens(sys, step), NextFamilies(sys, step), NextSessions(sys, step), NextGrace(sys, step),
           NextRefreshes(sys, step), NextNewest(sys, step), NextRotations(sys, step))
  }

  ghost predicate Initial(sys: System) {
    sys == System(0, map[], map[], map[], map[], map[], map[], [])
  }

  ghost predicate Leads(sys: System, sys': System) {
    exists step :: Enabled(sys, step) && sys' == Next(sys, step)
  }

  ghost predicate Run(trace: seq<System>) {
    trace != [] && Initial(trace[0]) && forall k | 0 <= k < |trace| - 1 :: Leads(trace[k], trace[k + 1])
  }

  // ----- Tokens of a family -----

  type Tokens = map<nat, Token>

  // Generations are unique within a family and fill 1..newest; only the newest may be active.
  ghost predicate GoodTokens(tokens: Tokens, newest: map<nat, nat>) {
    && (forall id | id in tokens :: GoodToken(newest, tokens[id]))
    && Unique(tokens)
    && (forall f | f in newest :: newest[f] >= 1)
    && (forall f, g: nat | f in newest && 1 <= g <= newest[f] :: HasGeneration(tokens, f, g))
  }

  ghost predicate GoodToken(newest: map<nat, nat>, t: Token) {
    && t.family in newest && 1 <= t.generation <= newest[t.family]
    && (t.status == Active ==> t.generation == newest[t.family])
  }

  ghost predicate Unique(tokens: Tokens) {
    forall x, y | x in tokens && y in tokens && x != y && tokens[x].family == tokens[y].family ::
      tokens[x].generation != tokens[y].generation
  }

  ghost predicate HasGeneration(tokens: Tokens, f: nat, g: nat) {
    exists id :: id in tokens && tokens[id].family == f && tokens[id].generation == g
  }

  ghost predicate GoodRotations(tokens: Tokens, rotations: seq<nat>) {
    && (forall k | 0 <= k < |rotations| :: rotations[k] in tokens && tokens[rotations[k]].status != Active)
    && forall j, k | 0 <= j < k < |rotations| :: rotations[j] != rotations[k]
  }

  // The pair holds the direct successor of the token it is stored under, which lasts as long
  // as the session.
  ghost predicate GoodPair(sys: System, id: nat, pair: GracePair) {
    && IsSuccessor(sys, id, pair.successor) && sys.tokens[pair.successor].generation == pair.successorGeneration
  }

  ghost predicate IsSuccessor(sys: System, id: nat, next: nat) {
    && id in sys.tokens && next in sys.tokens
    && sys.tokens[next].family == sys.tokens[id].family
    && sys.tokens[next].generation == sys.tokens[id].generation + 1
    && HasSession(sys, id) && sys.tokens[next].expiresAt == SessionOf(sys, id).expiresAt
  }

  ghost predicate HasSession(sys: System, id: nat) {
    id in sys.tokens && sys.tokens[id].family in sys.families
    && sys.families[sys.tokens[id].family].session in sys.sessions
  }

  function SessionOf(sys: System, id: nat): Session
    requires HasSession(sys, id)
  {
    sys.sessions[sys.families[sys.tokens[id].family].session]
  }

  // Neither the token nor its session had expired when the refresh began.
  ghost predicate Unexpired(sys: System, b: Start) { b.id in sys.tokens && sys.tokens[b.id].expiresAt > b.now }

  ghost predicate Lasting(sys: System, b: Start) {
    Unexpired(sys, b) && HasSession(sys, b.id) && SessionOf(sys, b.id).expiresAt > b.now
  }

  // The copy a refresh holds agrees with the row in everything that never changes.
  ghost predicate Copies(sys: System, id: nat, t: Token) {
    && id in sys.tokens
    && t.family == sys.tokens[id].family && t.generation == sys.tokens[id].generation
    && (t.status != Active ==> sys.tokens[id].status != Active)
  }

  // The token had expired, or its family or session is revoked, or the session had expired.
  ghost predicate Ended(sys: System, now: nat, t: Token) {
    || t.expiresAt <= now
    || (t.family in sys.families
        && (|| !sys.families[t.family].live
            || (sys.families[t.family].session in sys.sessions
                && var s := sys.sessions[sys.families[t.family].session]; !s.live || s.expiresAt <= now)))
  }

  ghost predicate SameSession(sys: System, t: Token, f: Family) {
    t.family in sys.families && sys.families[t.family].session == f.session && f.session in sys.sessions
  }

  ghost predicate Reads(sys: System, b: Start, t: Token, f: Family) {
    Copies(sys, b.id, t) && SameSession(sys, t, f) && !b.dead
  }

  ghost predicate Late(b: Start) { b.superseded >= 2 }

  ghost predicate GoodStart(sys: System, b: Start) {
    && (if b.known then b.id in sys.tokens && Superseded(sys, b.id) >= b.superseded else b.superseded == 0 && !b.dead)
    && (b.dead ==> FamilyDead(sys, b.id))
  }

  ghost predicate GoodRefresh(sys: System, r: Refresh) {
    && GoodStart(sys, r.b)
    && match r
       case Begun(_) => true
       case KnowsToken(b, t) => Copies(sys, b.id, t) && Unexpired(sys, b) && (Late(b) ==> t.status != Active)
       case KnowsFamily(b, t, f) => Reads(sys, b, t, f) && Unexpired(sys, b) && (Late(b) ==> t.status != Active)
       case Rotating(b, t, f, s) =>
         Reads(sys, b, t, f) && Lasting(sys, b) && !Late(b) && s.expiresAt == SessionOf(sys, b.id).expiresAt
       case Won(b, pair) => GoodPair(sys, b.id, pair) && Lasting(sys, b) && !b.dead && !Late(b)
       case Replaying(b, t, f, _) => Reads(sys, b, t, f) && Lasting(sys, b)
       case Comparing(b, t, f, pair) => Reads(sys, b, t, f) && Lasting(sys, b) && GoodPair(sys, b.id, pair)
       case Revoking(b, t, f) => Reads(sys, b, t, f) && Lasting(sys, b)
       case RevokingSession(b, t, f) => Reads(sys, b, t, f) && Lasting(sys, b) && FamilyDead(sys, b.id)
       case Done(b, answer) => GoodAnswer(sys, b, answer)
  }

  ghost predicate GoodAnswer(sys: System, b: Start, answer: Answer) {
    match answer
    case Granted(successor) => !b.dead && !Late(b) && IsSuccessor(sys, b.id, successor) && Lasting(sys, b)
    case Invalid => b.known ==> b.id in sys.tokens && Ended(sys, b.now, sys.tokens[b.id])
    case Reuse =>
      !b.dead && FamilyDead(sys, b.id) && Lasting(sys, b)
      && var session := sys.families[sys.tokens[b.id].family].session;
         session in sys.sessions && !sys.sessions[session].live
  }

  ghost predicate Inv(sys: System) {
    && GoodTokens(sys.tokens, sys.newest) && GoodRotations(sys.tokens, sys.rotations)
    && sys.newest.Keys == sys.families.Keys
    && (forall f | f in sys.families :: sys.families[f].session in sys.sessions)
    && (forall id | id in sys.grace :: GoodPair(sys, id, sys.grace[id]))
    && (forall i | i in sys.refreshes :: GoodRefresh(sys, sys.refreshes[i]))
  }

  // ----- What never changes -----

  ghost predicate SameToken(t: Token, t': Token) {
    && t'.family == t.family && t'.generation == t.generation && t'.expiresAt == t.expiresAt
    && (t.status != Active ==> t'.status != Active)
  }

  ghost predicate Grows(sys: System, sys': System) {
    && (forall id | id in sys.tokens :: id in sys'.tokens && SameToken(sys.tokens[id], sys'.tokens[id]))
    && (forall f | f in sys.families ::
          && f in sys'.families && sys'.families[f].session == sys.families[f].session
          && (!sys.families[f].live ==> !sys'.families[f].live))
    && (forall s | s in sys.sessions ::
          && s in sys'.sessions && sys'.sessions[s].expiresAt == sys.sessions[s].expiresAt
          && (!sys.sessions[s].live ==> !sys'.sessions[s].live))
    && (forall f | f in sys.newest :: f in sys'.newest && sys'.newest[f] >= sys.newest[f])
  }

  lemma PairStays(sys: System, sys': System, id: nat, pair: GracePair)
    requires Grows(sys, sys') && GoodPair(sys, id, pair)
    ensures GoodPair(sys', id, pair)
  {
  }

  lemma RefreshStays(sys: System, sys': System, r: Refresh)
    requires GoodTokens(sys.tokens, sys.newest) && Grows(sys, sys') && GoodRefresh(sys, r)
    ensures GoodRefresh(sys', r)
  {
    if r.b.known { assert GoodToken(sys.newest, sys.tokens[r.b.id]); }
    if r.Won? || r.Comparing? { PairStays(sys, sys', r.b.id, r.pair); }
  }

  // Steps that only move one refresh along.
  ghost predicate Quiet(sys: System, sys': System) {
    sys'.tokens == sys.tokens && sys'.families == sys.families && sys'.sessions == sys.sessions
    && sys'.newest == sys.newest && sys'.rotations == sys.rotations
  }

  ghost predicate IsQuiet(step: Step) {
    !step.Login? && !step.Logout? && !step.Rotate? && !step.RevokeForReuse? && !step.RevokeSession?
  }

  lemma QuietSteps(sys: System, step: Step)
    requires Enabled(sys, step) && IsQuiet(step)
    ensures Quiet(sys, Next(sys, step))
  {
  }

  lemma RotationGrows(sys: System, i: nat, successor: nat)
    requires Inv(sys) && Enabled(sys, Rotate(i, successor))
    ensures Grows(sys, Next(sys, Rotate(i, successor)))
  {
    var r := sys.refreshes[i];
    assert GoodRefresh(sys, r);
    assert GoodToken(sys.newest, sys.tokens[r.b.id]);
  }

  lemma LoginGrows(sys: System, step: Step)
    requires Inv(sys) && Enabled(sys, step) && step.Login?
    ensures Grows(sys, Next(sys, step))
  {
  }

  lemma ReuseGrows(sys: System, step: Step)
    requires Inv(sys) && Enabled(sys, step) && step.RevokeForReuse?
    ensures Grows(sys, Next(sys, step))
  {
  }

  lemma EndingGrows(sys: System, step: Step)
    requires Inv(sys) && Enabled(sys, step) && (step.Logout? || step.RevokeSession?)
    ensures Grows(sys, Next(sys, step))
  {
  }

  // Rows change only as `Grows` says.
  lemma StepGrows(sys: System, step: Step)
    requires Inv(sys) && Enabled(sys, step)
    ensures Grows(sys, Next(sys, step))
  {
    if IsQuiet(step) { QuietSteps(sys, step); }
    else if step.Rotate? { RotationGrows(sys, step.i, step.successor); }
    else if step.Login? { LoginGrows(sys, step); }
    else if step.RevokeForReuse? { ReuseGrows(sys, step); }
    else { EndingGrows(sys, step); }
  }

  // ----- Each step keeps the token rows good -----

  // A successful rotation: generation n becomes rotated, generation n + 1 is inserted.
  lemma RotationKeepsTokens(tokens: Tokens, newest: map<nat, nat>, rotations: seq<nat>, id: nat, next: nat, t: Token)
    requires GoodTokens(tokens, newest) && GoodRotations(tokens, rotations)
    requires id in tokens && next !in tokens && tokens[id].status == Active
    requires t.family == tokens[id].family && t.generation == tokens[id].generation + 1
    ensures var tokens' := tokens[id := tokens[id].(status := Rotated)][next := t];
            GoodTokens(tokens', newest[t.family := t.generation]) && GoodRotations(tokens', rotations + [id])
  {
    var tokens', newest' := tokens[id := tokens[id].(status := Rotated)][next := t], newest[t.family := t.generation];
    assert GoodToken(newest, tokens[id]);
    forall x | x in tokens' ensures GoodToken(newest', tokens'[x]) {
      if x != next {
        assert GoodToken(newest, tokens[x]);
        if x != id && tokens[x].family == t.family { assert tokens[x].generation != tokens[id].generation; }
      }
    }
    forall x, y | x in tokens' && y in tokens' && x != y && tokens'[x].family == tokens'[y].family
      ensures tokens'[x].generation != tokens'[y].generation
    {
      if x != next { assert GoodToken(newest, tokens[x]); }
      if y != next { assert GoodToken(newest, tokens[y]); }
    }
    forall h, g: nat | h in newest' && 1 <= g <= newest'[h] ensures HasGeneration(tokens', h, g) {
      if h == t.family && g == t.generation {
        assert tokens'[next].family == h && tokens'[next].generation == g;
      } else {
        assert HasGeneration(tokens, h, g);
        var x :| x in tokens && tokens[x].family == h && tokens[x].generation == g;
        assert tokens'[x].family == h && tokens'[x].generation == g;
      }
    }
  }

  lemma LoginKeepsTokens(tokens: Tokens, newest: map<nat, nat>, rotations: seq<nat>, id: nat, t: Token)
    requires GoodTokens(tokens, newest) && GoodRotations(tokens, rotations)
    requires id !in tokens && t.family !in newest && t.generation == 1
    ensures GoodTokens(tokens[id := t], newest[t.family := 1]) && GoodRotations(tokens[id := t], rotations)
  {
    var tokens', newest' := tokens[id := t], newest[t.family := 1];
    forall x | x in tokens' ensures GoodToken(newest', tokens'[x]) {
      if x != id { assert GoodToken(newest, tokens[x]); }
    }
    forall x, y | x in tokens' && y in tokens' && x != y && tokens'[x].family == tokens'[y].family
      ensures tokens'[x].generation != tokens'[y].generation
    {
      if x != id { assert GoodToken(newest, tokens[x]); }
      if y != id { assert GoodToken(newest, tokens[y]); }
    }
    forall h, g: nat | h in newest' && 1 <= g <= newest'[h] ensures HasGeneration(tokens', h, g) {
      if h == t.family {
        assert tokens'[id].family == h && tokens'[id].generation == g;
      } else {
        assert HasGeneration(tokens, h, g);
        var x :| x in tokens && tokens[x].family == h && tokens[x].generation == g;
        assert tokens'[x].family == h && tokens'[x].generation == g;
      }
    }
  }

  lemma RevocationKeepsTokens(tokens: Tokens, newest: map<nat, nat>, rotations: seq<nat>, family: nat, missed: set<nat>)
    requires GoodTokens(tokens, newest) && GoodRotations(tokens, rotations)
    ensures var tokens' := RevokeTokens(tokens, family, missed);
            GoodTokens(tokens', newest) && GoodRotations(tokens', rotations)
  {
    var tokens' := RevokeTokens(tokens, family, missed);
    forall x | x in tokens' ensures GoodToken(newest, tokens'[x]) { assert GoodToken(newest, tokens[x]); }
    forall h, g: nat | h in newest && 1 <= g <= newest[h] ensures HasGeneration(tokens', h, g) {
      assert HasGeneration(tokens, h, g);
      var x :| x in tokens && tokens[x].family == h && tokens[x].generation == g;
      assert tokens'[x].family == h && tokens'[x].generation == g;
    }
  }

  lemma StepKeepsTokens(sys: System, step: Step)
    requires Inv(sys) && Enabled(sys, step)
    ensures var sys' := Next(sys, step);
            && GoodTokens(sys'.tokens, sys'.newest) && GoodRotations(sys'.tokens, sys'.rotations)
            && sys'.newest.Keys == sys'.families.Keys
            && forall f | f in sys'.families :: sys'.families[f].session in sys'.sessions
  {
    if IsQuiet(step) {
      QuietSteps(sys, step);
    } else if step.Rotate? {
      var r := sys.refreshes[step.i];
      assert GoodRefresh(sys, r);
      if Wins(sys, r) {
        RotationKeepsTokens(sys.tokens, sys.newest, sys.rotations, r.b.id, step.successor, SuccessorOf(r));
      }
    } else if step.Login? {
      LoginKeepsTokens(sys.tokens, sys.newest, sys.rotations, step.token,
          Token(step.family, 1, Active, step.expiresAt));
    } else if step.RevokeForReuse? {
      RevocationKeepsTokens(sys.tokens, sys.newest, sys.rotations, sys.refreshes[step.i].token.family, step.missed);
    }
  }

  // ----- The acting refresh is good after its step -----

  ghost predicate ActorGood(sys: System, step: Step)
    requires Enabled(sys, step) && Actor(step).Some?
  {
    var i, sys' := Actor(step).value, Next(sys, step);
    i in sys'.refreshes && GoodRefresh(sys', sys'.refreshes[i])
  }

  lemma BeginIsGood(sys: System, step: Step)
    requires Inv(sys) && Enabled(sys, step) && step.Begin?
    ensures ActorGood(sys, step)
  {
    if step.id in sys.tokens { assert GoodToken(sys.newest, sys.tokens[step.id]); }
  }

  lemma FindTokenIsGood(sys: System, r: Refresh, step: Step)
    requires Inv(sys) && GoodRefresh(sys, r) && step.FindToken? && r.Begun?
    ensures GoodRefresh(sys, Advance(sys, r, step))
  {
    if r.b.id in sys.tokens { assert GoodToken(sys.newest, sys.tokens[r.b.id]); }
  }

  lemma FindFamilyIsGood(sys: System, r: Refresh, step: Step)
    requires Inv(sys) && GoodRefresh(sys, r) && step.FindFamily? && r.KnowsToken?
    ensures GoodRefresh(sys, Advance(sys, r, step))
  {
    assert GoodToken(sys.newest, sys.tokens[r.b.id]);
  }

  lemma FindSessionIsGood(sys: System, r: Refresh, step: Step)
    requires Inv(sys) && GoodRefresh(sys, r) && step.FindSession? && r.KnowsFamily?
    ensures GoodRefresh(sys, Advance(sys, r, step))
  {
  }

  lemma FindIsGood(sys: System, step: Step)
    requires Inv(sys) && Enabled(sys, step) && (step.FindToken? || step.FindFamily? || step.FindSession?)
    ensures ActorGood(sys, step)
  {
    var r := sys.refreshes[step.i];
    assert GoodRefresh(sys, r);
    if step.FindToken? { FindTokenIsGood(sys, r, step); }
    else if step.FindFamily? { FindFamilyIsGood(sys, r, step); }
    else { FindSessionIsGood(sys, r, step); }
    StepGrows(sys, step);
    RefreshStays(sys, Next(sys, step), Advance(sys, r, step));
  }

  lemma RotateIsGood(sys: System, step: Step)
    requires Inv(sys) && Enabled(sys, step) && step.Rotate?
    ensures ActorGood(sys, step)
  {
    var r := sys.refreshes[step.i];
    assert GoodRefresh(sys, r);
    assert GoodToken(sys.newest, sys.tokens[r.b.id]);
    RotationGrows(sys, step.i, step.successor);
    RefreshStays(sys, Next(sys, step), r);
  }

  lemma PutGraceIsGood(sys: System, r: Refresh, step: Step)
    requires Inv(sys) && GoodRefresh(sys, r) && step.PutGrace? && r.Won?
    ensures GoodRefresh(sys, Advance(sys, r, step))
  {
  }

  lemma GetGraceIsGood(sys: System, r: Refresh, step: Step)
    requires Inv(sys) && GoodRefresh(sys, r) && step.GetGrace? && r.Replaying?
    ensures GoodRefresh(sys, Advance(sys, r, step))
  {
  }

  lemma GraceIsGood(sys: System, step: Step)
    requires Inv(sys) && Enabled(sys, step) && (step.PutGrace? || step.GetGrace?)
    ensures ActorGood(sys, step)
  {
    var r := sys.refreshes[step.i];
    assert GoodRefresh(sys, r);
    if step.PutGrace? { PutGraceIsGood(sys, r, step); } else { GetGraceIsGood(sys, r, step); }
    StepGrows(sys, step);
    RefreshStays(sys, Next(sys, step), Advance(sys, r, step));
  }

  // The active token is the newest, so a pair that names its generation is not out of date.
  lemma ComparedIsGood(sys: System, r: Refresh, step: Step)
    requires Inv(sys) && GoodRefresh(sys, r) && step.Compare? && r.Comparing?
    requires FindsActive(sys, r.token.family, step.active)
    ensures GoodRefresh(sys, Advance(sys, r, step))
  {
    if step.active.Some? {
      assert GoodToken(sys.newest, sys.tokens[step.active.value]);
      assert GoodToken(sys.newest, sys.tokens[r.b.id]);
    }
  }

  lemma CompareIsGood(sys: System, step: Step)
    requires Inv(sys) && Enabled(sys, step) && step.Compare?
    ensures ActorGood(sys, step)
  {
    var r := sys.refreshes[step.i];
    assert GoodRefresh(sys, r);
    ComparedIsGood(sys, r, step);
    StepGrows(sys, step);
    RefreshStays(sys, Next(sys, step), Advance(sys, r, step));
  }

  lemma RevokeIsGood(sys: System, step: Step)
    requires Inv(sys) && Enabled(sys, step) && (step.RevokeForReuse? || step.RevokeSession?)
    ensures ActorGood(sys, step)
  {
    var r := sys.refreshes[step.i];
    assert GoodRefresh(sys, r);
    StepGrows(sys, step);
    RefreshStays(sys, Next(sys, step), r);
  }

  lemma ActorIsGood(sys: System, step: Step)
    requires Inv(sys) && Enabled(sys, step) && Actor(step).Some?
    ensures ActorGood(sys, step)
  {
    match step
    case Begin(_, _) => BeginIsGood(sys, step);
    case Rotate(_, _) => RotateIsGood(sys, step);
    case PutGrace(_, _) => GraceIsGood(sys, step);
    case GetGrace(_) => GraceIsGood(sys, step);
    case Compare(_, _) => CompareIsGood(sys, step);
    case RevokeForReuse(_, _) => RevokeIsGood(sys, step);
    case RevokeSession(_) => RevokeIsGood(sys, step);
    case _ => FindIsGood(sys, step);
  }

  lemma OthersAreUntouched(sys: System, step: Step, i: nat)
    requires Enabled(sys, step) && i in Next(sys, step).refreshes && !(Actor(step) == Some(i))
    ensures i in sys.refreshes && Next(sys, step).refreshes[i] == sys.refreshes[i]
  {
  }

  lemma GraceStaysGood(sys: System, sys': System, step: Step, id: nat)
    requires Inv(sys) && Enabled(sys, step) && Grows(sys, sys') && id in NextGrace(sys, step)
    ensures GoodPair(sys', id, NextGrace(sys, step)[id])
  {
    if step.PutGrace? && step.stored && sys.refreshes[step.i].b.id == id {
      assert GoodRefresh(sys, sys.refreshes[step.i]);
      PairStays(sys, sys', id, sys.refreshes[step.i].pair);
    } else {
      assert id in sys.grace && NextGrace(sys, step)[id] == sys.grace[id];
      PairStays(sys, sys', id, sys.grace[id]);
    }
  }

  lemma StepKeepsInv(sys: System, step: Step)
    requires Inv(sys) && Enabled(sys, step)
    ensures Inv(Next(sys, step))
  {
    var sys' := Next(sys, step);
    StepGrows(sys, step);
    StepKeepsTokens(sys, step);
    forall id | id in sys'.grace ensures GoodPair(sys', id, sys'.grace[id]) { GraceStaysGood(sys, sys', step, id); }
    forall i | i in sys'.refreshes ensures GoodRefresh(sys', sys'.refreshes[i]) {
      if Actor(step) == Some(i) {
        ActorIsGood(sys, step);
      } else {
        OthersAreUntouched(sys, step, i);
        RefreshStays(sys, sys', sys.refreshes[i]);
      }
    }
  }

  lemma {:induction false} RunKeepsInv(trace: seq<System>, k: nat)
    requires Run(trace) && k < |trace|
    ensures Inv(trace[k])
  {
    if k > 0 {
      RunKeepsInv(trace, k - 1);
      assert Leads(trace[k - 1], trace[k]);
      var step :| Enabled(trace[k - 1], step) && trace[k] == Next(trace[k - 1], step);
      StepKeepsInv(trace[k - 1], step);
    }
  }

  // ----- What a refresh notes when it begins -----

  ghost predicate StartsStay(sys: System, sys': System) {
    forall i | i in sys.refreshes :: i in sys'.refreshes && sys'.refreshes[i].b == sys.refreshes[i].b
  }

  lemma {:induction false} RunKeepsStarts(trace: seq<System>, j: nat, k: nat)
    requires Run(trace) && j <= k < |trace|
    ensures StartsStay(trace[j], trace[k])
  {
    if j < k {
      RunKeepsStarts(trace, j, k - 1);
      assert Leads(trace[k - 1], trace[k]);
      StepKeepsStarts(trace[k - 1], trace[k]);
    }
  }

  lemma StepKeepsStarts(sys: System, sys': System)
    requires Leads(sys, sys')
    ensures StartsStay(sys, sys')
  {
    var step :| Enabled(sys, step) && sys' == Next(sys, step);
    forall i | i in sys.refreshes ensures i in sys'.refreshes && sys'.refreshes[i].b == sys.refreshes[i].b {
      if Actor(step) != Some(i) { assert sys'.refreshes[i] == sys.refreshes[i]; }
    }
  }

  // It counts the generations that came after the token's own.
  lemma SupersededCounts(sys: System, id: nat, n: nat)
    requires GoodTokens(sys.tokens, sys.newest) && id in sys.tokens
    ensures Superseded(sys, id) >= n
       <==> HasGeneration(sys.tokens, sys.tokens[id].family, sys.tokens[id].generation + n)
  {
    var t := sys.tokens[id];
    assert GoodToken(sys.newest, t);
    if HasGeneration(sys.tokens, t.family, t.generation + n) {
      var x :| x in sys.tokens && sys.tokens[x].family == t.family && sys.tokens[x].generation == t.generation + n;
      assert GoodToken(sys.newest, sys.tokens[x]);
    }
  }

  lemma {:induction false} RunGrows(trace: seq<System>, j: nat, k: nat)
    requires Run(trace) && j <= k < |trace|
    ensures Grows(trace[j], trace[k])
  {
    if j < k {
      RunGrows(trace, j, k - 1);
      RunKeepsInv(trace, k - 1);
      assert Leads(trace[k - 1], trace[k]);
      LeadsGrows(trace[k - 1], trace[k]);
      GrowsOn(trace[j], trace[k - 1], trace[k]);
    }
  }

  lemma LeadsGrows(sys: System, sys': System)
    requires Inv(sys) && Leads(sys, sys')
    ensures Grows(sys, sys')
  {
    var step :| Enabled(sys, step) && sys' == Next(sys, step);
    StepGrows(sys, step);
  }

  lemma GrowsOn(a: System, b: System, c: System)
    requires Grows(a, b) && Grows(b, c)
    ensures Grows(a, c)
  {
  }

  // ----- Main results -----

  // A token presented when the family already holds a generation two above its own is never
  // honoured: the refresh ends in reuse, or as invalid because token, family or session had ended.
  lemma SupersededTokenIsNotHonoured(trace: seq<System>, j: nat, k: nat, i: nat, id: nat)
    requires Run(trace) && j < k < |trace| && Enabled(trace[j], Begin(i, id)) && id in trace[j].tokens
    requires trace[j + 1] == Next(trace[j], Begin(i, id))
    requires HasGeneration(trace[j].tokens, trace[j].tokens[id].family, trace[j].tokens[id].generation + 2)
    requires i in trace[k].refreshes && trace[k].refreshes[i].Done?
    ensures var r := trace[k].refreshes[i];
            && r.b.id == id && r.b.now == trace[j].clock && id in trace[k].tokens
            && (r.answer == Reuse || (r.answer == Invalid && Ended(trace[k], trace[j].clock, trace[k].tokens[id])))
  {
    RunKeepsInv(trace, j);
    SupersededCounts(trace[j], id, 2);
    RunKeepsStarts(trace, j + 1, k);
    assert trace[j + 1].refreshes[i].b == StartOf(trace[j], id);
    LateTokenIsReuse(trace, k, i);
  }

  // A token that has been spent in one state is active in no later one, so none rotates twice.
  lemma SpentTokenStaysSpent(trace: seq<System>, j: nat, k: nat, x: nat)
    requires Run(trace) && j <= k < |trace| && x in trace[j].tokens && trace[j].tokens[x].status != Active
    ensures x in trace[k].tokens && trace[k].tokens[x].status != Active
  {
    RunGrows(trace, j, k);
  }

  // In every state of every run: a family's generations are exactly 1..n, each held by one
  // token; only generation n can be active, so at most one token is; and no token has rotated twice.
  lemma FamiliesStayLinear(trace: seq<System>, k: nat, f: nat)
    requires Run(trace) && k < |trace| && f in trace[k].families
    ensures f in trace[k].newest
    ensures var sys := trace[k];
            var n := sys.newest[f];
            && n >= 1
            && (forall g: nat :: HasGeneration(sys.tokens, f, g) <==> 1 <= g <= n)
            && (forall x, y | x in sys.tokens && y in sys.tokens && sys.tokens[x].family == sys.tokens[y].family == f
                              && sys.tokens[x].generation == sys.tokens[y].generation :: x == y)
            && (forall x | x in sys.tokens && sys.tokens[x].family == f && sys.tokens[x].status == Active ::
                  sys.tokens[x].generation == n)
            && (forall a, b | 0 <= a < b < |sys.rotations| :: sys.rotations[a] != sys.rotations[b])
  {
    RunKeepsInv(trace, k);
    var sys := trace[k];
    forall g: nat | HasGeneration(sys.tokens, f, g) ensures 1 <= g <= sys.newest[f] {
      var x :| x in sys.tokens && sys.tokens[x].family == f && sys.tokens[x].generation == g;
      assert GoodToken(sys.newest, sys.tokens[x]);
    }
  }

  // A token superseded at least twice when presented is never honoured. The refresh ends in
  // reuse, with family and session revoked, unless token, family or session had ended.
  lemma LateTokenIsReuse(trace: seq<System>, k: nat, i: nat)
    requires Run(trace) && k < |trace| && i in trace[k].refreshes && trace[k].refreshes[i].Done?
    requires trace[k].refreshes[i].b.superseded >= 2
    ensures var sys, r := trace[k], trace[k].refreshes[i];
            var id := r.b.id;
            && id in sys.tokens
            && (r.answer == Reuse || (r.answer == Invalid && Ended(sys, r.b.now, sys.tokens[id])))
            && (r.answer == Reuse ==>
                  && FamilyDead(sys, id)
                  && var session := sys.families[sys.tokens[id].family].session;
                     session in sys.sessions && !sys.sessions[session].live)
  {
    RunKeepsInv(trace, k);
    assert GoodRefresh(trace[k], trace[k].refreshes[i]);
  }

  // The refresh has yet to read its family, or its session, which is revoked; or it has failed
  // as invalid.
  ghost predicate Fails(sys: System, i: nat) {
    && i in sys.refreshes
    && var r := sys.refreshes[i];
       || ((r.Begun? || r.KnowsToken?) && FamilyDead(sys, r.b.id))
       || ((r.Begun? || r.KnowsToken? || r.KnowsFamily?) && SessionDead(sys, r.b.id))
       || (r.Done? && r.answer == Invalid)
  }

  ghost predicate SessionDead(sys: System, id: nat) { HasSession(sys, id) && !SessionOf(sys, id).live }

  lemma OwnStepKeepsFailing(sys: System, step: Step, i: nat)
    requires Fails(sys, i) && GoodRefresh(sys, sys.refreshes[i]) && Enabled(sys, step) && Actor(step) == Some(i)
    ensures Fails(Next(sys, step), i)
  {
    assert step.FindToken? || step.FindFamily? || step.FindSession?;
    QuietSteps(sys, step);
  }

  lemma OtherStepKeepsFailing(sys: System, sys': System, i: nat)
    requires Grows(sys, sys') && Fails(sys, i) && i in sys'.refreshes && sys'.refreshes[i] == sys.refreshes[i]
    ensures Fails(sys', i)
  {
  }

  lemma StepKeepsFailing(sys: System, sys': System, i: nat)
    requires Inv(sys) && Leads(sys, sys') && Fails(sys, i)
    ensures Fails(sys', i)
  {
    var step :| Enabled(sys, step) && sys' == Next(sys, step);
    if Actor(step) == Some(i) {
      OwnStepKeepsFailing(sys, step, i);
    } else {
      StepGrows(sys, step);
      OtherStepKeepsFailing(sys, sys', i);
    }
  }

  ghost predicate StaysFailed(trace: seq<System>, k: nat, i: nat)
    requires k + 1 < |trace|
  {
    Fails(trace[k], i) ==> Fails(trace[k + 1], i)
  }

  lemma RunKeepsFailing(trace: seq<System>, k: nat, i: nat)
    requires Run(trace) && k + 1 < |trace|
    ensures StaysFailed(trace, k, i)
  {
    RunKeepsInv(trace, k);
    assert Leads(trace[k], trace[k + 1]);
    if Fails(trace[k], i) { StepKeepsFailing(trace[k], trace[k + 1], i); }
  }

  lemma {:induction false} FailsOnward(trace: seq<System>, j: nat, k: nat, i: nat)
    requires j <= k < |trace| && Fails(trace[j], i)
    requires forall m: nat | m + 1 < |trace| :: StaysFailed(trace, m, i)
    ensures Fails(trace[k], i)
  {
    if j < k {
      FailsOnward(trace, j, k - 1, i);
      assert StaysFailed(trace, k - 1, i);
    }
  }

  // A refresh whose family is revoked at any moment before the refresh reads it fails as
  // invalid, however the run goes on.
  lemma RevokedFamilyIsInvalid(trace: seq<System>, j: nat, k: nat, i: nat)
    requires Run(trace) && j <= k < |trace| && i in trace[j].refreshes
    requires var r := trace[j].refreshes[i]; (r.Begun? || r.KnowsToken?) && FamilyDead(trace[j], r.b.id)
    ensures Fails(trace[k], i)
    ensures trace[k].refreshes[i].Done? ==> trace[k].refreshes[i].answer == Invalid
  {
    forall m: nat | m + 1 < |trace| ensures StaysFailed(trace, m, i) { RunKeepsFailing(trace, m, i); }
    assert Fails(trace[j], i);
    FailsOnward(trace, j, k, i);
  }

  // The same for a session that ends at any moment before the refresh reads it.
  lemma EndedSessionIsInvalid(trace: seq<System>, j: nat, k: nat, i: nat)
    requires Run(trace) && j <= k < |trace| && i in trace[j].refreshes
    requires var r := trace[j].refreshes[i];
             (r.Begun? || r.KnowsToken? || r.KnowsFamily?) && SessionDead(trace[j], r.b.id)
    ensures Fails(trace[k], i)
    ensures trace[k].refreshes[i].Done? ==> trace[k].refreshes[i].answer == Invalid
  {
    forall m: nat | m + 1 < |trace| ensures StaysFailed(trace, m, i) { RunKeepsFailing(trace, m, i); }
    assert Fails(trace[j], i);
    FailsOnward(trace, j, k, i);
  }

  // In terms of the finished refresh alone: its family was revoked when it began.
  lemma RevokedBeforehandIsInvalid(trace: seq<System>, k: nat, i: nat)
    requires Run(trace) && k < |trace| && i in trace[k].refreshes && trace[k].refreshes[i].Done?
    requires trace[k].refreshes[i].b.dead
    ensures trace[k].refreshes[i].answer == Invalid
  {
    RunKeepsInv(trace, k);
    assert GoodRefresh(trace[k], trace[k].refreshes[i]);
  }

  // A granted refresh, first or replayed, returns the one direct successor of the presented
  // token, which lasts as long as the session; and neither token nor session had expired.
  lemma GrantedTokenIsSuccessor(trace: seq<System>, k: nat, i: nat)
    requires Run(trace) && k < |trace| && i in trace[k].refreshes
    requires trace[k].refreshes[i].Done? && trace[k].refreshes[i].answer.Granted?
    ensures var sys, r := trace[k], trace[k].refreshes[i];
            var id, next := r.b.id, r.answer.token;
            && id in sys.tokens && next in sys.tokens
            && sys.tokens[next].family == sys.tokens[id].family
            && sys.tokens[id].expiresAt > r.b.now
            && HasSession(sys, id) && SessionOf(sys, id).expiresAt > r.b.now
            && sys.tokens[next].expiresAt == SessionOf(sys, id).expiresAt
            && forall x | x in sys.tokens && sys.tokens[x].family == sys.tokens[id].family
                          && sys.tokens[x].generation == sys.tokens[id].generation + 1 :: x == next
  {
    RunKeepsInv(trace, k);
    assert GoodRefresh(trace[k], trace[k].refreshes[i]);
  }
}
