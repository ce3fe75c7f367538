/** What one refresh answers while nobody else takes a step: every case, with the state it leaves. */
module UndisturbedRefreshes {
  import opened Prelude
  import opened RefreshFamilies

  // In each phase a refresh has one kind of step; an ended one has none.
  lemma OwnStepIsFixed(sys: System, step: Step, i: nat)
    requires Enabled(sys, step) && Actor(step) == Some(i) && i in sys.refreshes
    ensures match sys.refreshes[i]
            case Begun(_) => step == FindToken(i)
            case KnowsToken(_, _) => step == FindFamily(i)
            case KnowsFamily(_, _, _) => step == FindSession(i)
            case Rotating(_, _, _, _) => step.Rotate?
            case Won(_, _) => step.PutGrace?
            case Replaying(_, _, _, _) => step == GetGrace(i)
            case Comparing(_, _, _, _) => step.Compare?
            case Revoking(_, _, _) => step.RevokeForReuse?
            case RevokingSession(_, _, _) => step == RevokeSession(i)
            case Done(_, _) => false
  {
  }

  // The token is there, its family and session are live, and neither token nor session has expired.
  ghost predicate Usable(sys: System, id: nat) {
    && id in sys.tokens && sys.tokens[id].expiresAt > sys.clock
    && HasSession(sys, id) && sys.families[sys.tokens[id].family].live
    && SessionOf(sys, id).live && SessionOf(sys, id).expiresAt > sys.clock
  }

  // The state after the refresh `i` of token `id` has begun and read token, family and session.
  function Looked(sys: System, i: nat, id: nat): System {
    var s1 := Next(Next(sys, Begin(i, id)), FindToken(i));
    Next(Next(s1, FindFamily(i)), FindSession(i))
  }

  // `sys` with the refresh `i` in phase `r`.
  function With(sys: System, i: nat, r: Refresh): System { sys.(refreshes := sys.refreshes[i := r]) }

  lemma QuietOwnStep(sys: System, i: nat, r: Refresh, step: Step)
    requires step == FindToken(i) || step == FindFamily(i) || step == FindSession(i) || step == GetGrace(i)
    ensures Next(With(sys, i, r), step) == With(sys, i, Advance(sys, r, step))
  {
    var sys' := With(sys, i, r);
    assert Advance(sys', r, step) == Advance(sys, r, step);
    assert sys.refreshes[i := r][i := Advance(sys, r, step)] == sys.refreshes[i := Advance(sys, r, step)];
  }

  // A token, family or session that is missing, ended or expired fails the refresh and changes
  // nothing; otherwise an active token goes to rotation and any other to replay.
  lemma LookedUp(sys: System, i: nat, id: nat)
    ensures var b := StartOf(sys, id);
            !Usable(sys, id) && (id in sys.tokens ==> HasSession(sys, id)) ==>
              Looked(sys, i, id) == With(sys, i, Done(b, Invalid))
    ensures var b := StartOf(sys, id);
            Usable(sys, id) ==>
              var t, f := sys.tokens[id], sys.families[sys.tokens[id].family];
              var found := if t.status == Active then Rotating(b, t, f, SessionOf(sys, id)) else Replaying(b, t, f, 1);
              Looked(sys, i, id) == With(sys, i, found)
  {
    var b := StartOf(sys, id);
    var r1 := Advance(sys, Begun(b), FindToken(i));
    var r2 := Advance(sys, r1, FindFamily(i));
    assert Next(sys, Begin(i, id)) == With(sys, i, Begun(b));
    QuietOwnStep(sys, i, Begun(b), FindToken(i));
    QuietOwnStep(sys, i, r1, FindFamily(i));
    QuietOwnStep(sys, i, r2, FindSession(i));
  }

  // An unusable token is answered as invalid.
  lemma UnusableTokenIsInvalid(sys: System, i: nat, id: nat)
    requires Inv(sys) && !Usable(sys, id)
    ensures Looked(sys, i, id) == With(sys, i, Done(StartOf(sys, id), Invalid))
  {
    if id in sys.tokens { assert GoodToken(sys.newest, sys.tokens[id]); }
    LookedUp(sys, i, id);
  }

  // The refresh `i` has ended with the answer.
  predicate Answers(sys: System, i: nat, b: Start, answer: Answer) { At(sys, i) == Some(Done(b, answer)) }

  // What a first use leaves: the token rotated, its successor active for as long as the
  // session lasts, and the pair in the cache if the cache took it.
  ghost predicate Rotates(sys: System, sys': System, id: nat, successor: nat, stored: bool)
    requires HasSession(sys, id)
  {
    var t := sys.tokens[id];
    var next := Token(t.family, t.generation + 1, Active, SessionOf(sys, id).expiresAt);
    && sys'.tokens == sys.tokens[id := t.(status := Rotated)][successor := next]
    && sys'.families == sys.families && sys'.sessions == sys.sessions
    && sys'.grace == if stored then sys.grace[id := GracePair(successor, t.generation + 1)] else sys.grace
  }

  lemma RotatingWins(sys: System, looked: System, i: nat, b: Start, successor: nat, stored: bool)
    requires HasSession(sys, b.id) && sys.tokens[b.id].status == Active && successor !in sys.tokens
    requires var t := sys.tokens[b.id];
             looked == With(sys, i, Rotating(b, t, sys.families[t.family], SessionOf(sys, b.id)))
    ensures Enabled(looked, Rotate(i, successor))
    ensures var rotated := Next(looked, Rotate(i, successor));
            Enabled(rotated, PutGrace(i, stored))
            && var done := Next(rotated, PutGrace(i, stored));
               Answers(done, i, b, Granted(successor)) && Rotates(sys, done, b.id, successor, stored)
  {
    var t := sys.tokens[b.id];
    var rotated := Next(looked, Rotate(i, successor));
    assert At(rotated, i) == Some(Won(b, GracePair(successor, t.generation + 1)));
    assert rotated.grace == sys.grace && rotated.families == sys.families && rotated.sessions == sys.sessions;
  }

  // A usable active token is rotated: the refresh is granted the successor.
  lemma ActiveTokenIsRotated(sys: System, i: nat, id: nat, successor: nat, stored: bool)
    requires Inv(sys) && Usable(sys, id) && sys.tokens[id].status == Active && successor !in sys.tokens
    ensures Enabled(Looked(sys, i, id), Rotate(i, successor))
    ensures var rotated := Next(Looked(sys, i, id), Rotate(i, successor));
            Enabled(rotated, PutGrace(i, stored))
            && var done := Next(rotated, PutGrace(i, stored));
               Answers(done, i, StartOf(sys, id), Granted(successor)) && Rotates(sys, done, id, successor, stored)
  {
    LookedUp(sys, i, id);
    RotatingWins(sys, Looked(sys, i, id), i, StartOf(sys, id), successor, stored);
  }

  lemma CacheHit(sys: System, i: nat, b: Start, t: Token, f: Family, attempts: nat)
    requires b.id in sys.grace
    ensures Next(With(sys, i, Replaying(b, t, f, attempts)), GetGrace(i))
         == With(sys, i, Comparing(b, t, f, sys.grace[b.id]))
  {
    QuietOwnStep(sys, i, Replaying(b, t, f, attempts), GetGrace(i));
  }

  lemma PairIsNewest(sys: System, i: nat, b: Start, t: Token, f: Family, pair: GracePair, active: nat)
    requires FindsActive(sys, t.family, Some(active)) && sys.tokens[active].generation == pair.successorGeneration
    ensures var comparing := With(sys, i, Comparing(b, t, f, pair));
            && Enabled(comparing, Compare(i, Some(active)))
            && Next(comparing, Compare(i, Some(active))) == With(sys, i, Done(b, Granted(pair.successor)))
  {
    var done := Done(b, Granted(pair.successor));
    assert sys.refreshes[i := Comparing(b, t, f, pair)][i := done] == sys.refreshes[i := done];
  }

  lemma PairIsOutdated(sys: System, i: nat, b: Start, t: Token, f: Family, pair: GracePair, active: Option<nat>)
    requires FindsActive(sys, t.family, active)
    requires active.Some? ==> sys.tokens[active.value].generation != pair.successorGeneration
    ensures var comparing := With(sys, i, Comparing(b, t, f, pair));
            && Enabled(comparing, Compare(i, active))
            && Next(comparing, Compare(i, active)) == With(sys, i, Revoking(b, t, f))
  {
    assert sys.refreshes[i := Comparing(b, t, f, pair)][i := Revoking(b, t, f)]
        == sys.refreshes[i := Revoking(b, t, f)];
  }

  // The generation of the pair is one above the token's, and the active token of that
  // generation is the pair's own.
  lemma PairOf(sys: System, id: nat, active: nat)
    requires Inv(sys) && id in sys.grace && id in sys.tokens && FindsActive(sys, sys.tokens[id].family, Some(active))
    ensures sys.grace[id].successorGeneration == sys.tokens[id].generation + 1
    ensures sys.tokens[active].generation == sys.tokens[id].generation + 1 ==> sys.grace[id].successor == active
  {
    assert GoodPair(sys, id, sys.grace[id]);
  }

  // A usable token that is no longer active, with its pair still in the cache: if the family's
  // active token is the next generation, the refresh is granted it and nothing changes.
  lemma SpentTokenIsReplayed(sys: System, i: nat, id: nat, active: nat)
    requires Inv(sys) && Usable(sys, id) && sys.tokens[id].status != Active && id in sys.grace
    requires FindsActive(sys, sys.tokens[id].family, Some(active))
    requires sys.tokens[active].generation == sys.tokens[id].generation + 1
    ensures Enabled(Looked(sys, i, id), GetGrace(i))
    ensures var compared := Next(Looked(sys, i, id), GetGrace(i));
            && (forall a :: Enabled(compared, Compare(i, a)) <==> a == Some(active))
            && Next(compared, Compare(i, Some(active))) == With(sys, i, Done(StartOf(sys, id), Granted(active)))
  {
    LookedUp(sys, i, id);
    var b, t := StartOf(sys, id), sys.tokens[id];
    var f := sys.families[t.family];
    PairOf(sys, id, active);
    CacheHit(sys, i, b, t, f, 1);
    PairIsNewest(sys, i, b, t, f, sys.grace[id], active);
    forall a ensures FindsActive(sys, t.family, a) <==> a == Some(active) {
      ActiveIsAlone(sys, t.family, active, a);
    }
  }

  // The active token of a family is the only one there is to find.
  lemma ActiveIsAlone(sys: System, family: nat, active: nat, a: Option<nat>)
    requires Inv(sys) && FindsActive(sys, family, Some(active))
    ensures FindsActive(sys, family, a) <==> a == Some(active)
  {
    if a.Some? && FindsActive(sys, family, a) {
      assert GoodToken(sys.newest, sys.tokens[active]) && GoodToken(sys.newest, sys.tokens[a.value]);
    }
  }

  // What a refresh that has decided on reuse leaves: family and session ended, no token of the
  // family usable, and everything else as it was.
  ghost predicate Ends(sys: System, sys': System, id: nat)
    requires HasSession(sys, id)
  {
    var family, session := sys.tokens[id].family, sys.families[sys.tokens[id].family].session;
    && sys'.tokens.Keys == sys.tokens.Keys
    && (forall x | x in sys.tokens ::
          sys'.tokens[x] == if sys.tokens[x].family == family then sys.tokens[x].(status := Revoked) else sys.tokens[x])
    && sys'.families == sys.families[family := sys.families[family].(live := false)]
    && sys'.sessions == sys.sessions[session := sys.sessions[session].(live := false)]
    && sys'.grace == sys.grace
  }

  // From `sys` the refresh `i` revokes family and session and ends with reuse, in two steps.
  ghost predicate EndsInReuse(sys: System, revoking: System, i: nat, b: Start)
    requires HasSession(sys, b.id)
  {
    && Enabled(revoking, RevokeForReuse(i, {}))
    && var revoked := Next(revoking, RevokeForReuse(i, {}));
       && Enabled(revoked, RevokeSession(i))
       && var done := Next(revoked, RevokeSession(i));
          Answers(done, i, b, Reuse) && Ends(sys, done, b.id)
  }

  lemma RevokingEnds(sys: System, i: nat, b: Start, t: Token, f: Family)
    requires HasSession(sys, b.id) && t.family == sys.tokens[b.id].family && f == sys.families[t.family]
    ensures EndsInReuse(sys, With(sys, i, Revoking(b, t, f)), i, b)
  {
    var revoked := Next(With(sys, i, Revoking(b, t, f)), RevokeForReuse(i, {}));
    assert At(revoked, i) == Some(RevokingSession(b, t, f)) && revoked.sessions == sys.sessions;
  }

  lemma CacheMiss(sys: System, i: nat, b: Start, t: Token, f: Family)
    requires b.id !in sys.grace
    ensures var replaying := With(sys, i, Replaying(b, t, f, 1));
            Enabled(replaying, GetGrace(i)) && Next(replaying, GetGrace(i)) == With(sys, i, Revoking(b, t, f))
  {
    QuietOwnStep(sys, i, Replaying(b, t, f, 1), GetGrace(i));
  }

  // The same token without a pair in the cache is reuse.
  lemma SpentTokenIsReuse(sys: System, i: nat, id: nat)
    requires Inv(sys) && Usable(sys, id) && sys.tokens[id].status != Active && id !in sys.grace
    ensures Enabled(Looked(sys, i, id), GetGrace(i))
    ensures EndsInReuse(sys, Next(Looked(sys, i, id), GetGrace(i)), i, StartOf(sys, id))
  {
    LookedUp(sys, i, id);
    var b, t := StartOf(sys, id), sys.tokens[id];
    var f := sys.families[t.family];
    CacheMiss(sys, i, b, t, f);
    RevokingEnds(sys, i, b, t, f);
  }

  // And so is one whose pair is not the newest any more, or whose family has no active token.
  lemma OutdatedPairIsReuse(sys: System, i: nat, id: nat, active: Option<nat>)
    requires Inv(sys) && Usable(sys, id) && sys.tokens[id].status != Active && id in sys.grace
    requires FindsActive(sys, sys.tokens[id].family, active)
    requires active.Some? ==> sys.tokens[active.value].generation != sys.tokens[id].generation + 1
    ensures Enabled(Looked(sys, i, id), GetGrace(i))
    ensures var compared := Next(Looked(sys, i, id), GetGrace(i));
            && Enabled(compared, Compare(i, active))
            && EndsInReuse(sys, Next(compared, Compare(i, active)), i, StartOf(sys, id))
  {
    LookedUp(sys, i, id);
    var b, t := StartOf(sys, id), sys.tokens[id];
    var f := sys.families[t.family];
    if active.Some? { PairOf(sys, id, active.value); }
    CacheHit(sys, i, b, t, f, 1);
    PairIsOutdated(sys, i, b, t, f, sys.grace[id], active);
    RevokingEnds(sys, i, b, t, f);
  }

  // A refresh that loses the race for an active token looks for the winner's pair six times
  // before it takes the token for reused.
  function Misses(sys: System, i: nat, n: nat): System {
    if n == 0 then sys else Next(Misses(sys, i, n - 1), GetGrace(i))
  }

  lemma {:induction false} LostRaceWaits(sys: System, i: nat, n: nat)
    requires i in sys.refreshes && sys.refreshes[i].Rotating? && !Wins(sys, sys.refreshes[i])
    requires sys.refreshes[i].b.id !in sys.grace && n <= 6
    ensures var r := sys.refreshes[i];
            var waiting := Misses(With(sys, i, Replaying(r.b, r.token, r.family, 6)), i, n);
            && (forall successor :: Next(sys, Rotate(i, successor))
                  == With(sys, i, Replaying(r.b, r.token, r.family, 6)))
            && waiting == With(sys, i, if n < 6 then Replaying(r.b, r.token, r.family, 6 - n)
                                       else Revoking(r.b, r.token, r.family))
  {
    var r := sys.refreshes[i];
    forall successor ensures Next(sys, Rotate(i, successor)) == With(sys, i, Replaying(r.b, r.token, r.family, 6)) {
      LostRace(sys, i, successor);
    }
    if n > 0 {
      LostRaceWaits(sys, i, n - 1);
      QuietOwnStep(sys, i, Replaying(r.b, r.token, r.family, 7 - n), GetGrace(i));
    }
  }

  lemma LostRace(sys: System, i: nat, successor: nat)
    requires i in sys.refreshes && sys.refreshes[i].Rotating? && !Wins(sys, sys.refreshes[i])
    ensures var r := sys.refreshes[i];
            Next(sys, Rotate(i, successor)) == With(sys, i, Replaying(r.b, r.token, r.family, 6))
  {
  }

  // ----- What login and logout leave -----

  // A login's token is usable until it expires, and is the only token of its family.
  lemma LoginIsUsable(sys: System, session: nat, family: nat, token: nat, expiresAt: nat)
    requires Inv(sys) && Enabled(sys, Login(session, family, token, expiresAt)) && expiresAt > sys.clock
    ensures var sys' := Next(sys, Login(session, family, token, expiresAt));
            && Usable(sys', token) && sys'.tokens[token].status == Active && sys'.tokens[token].family == family
            && sys'.families[family].session == session
            && forall x | x in sys'.tokens && sys'.tokens[x].family == family :: x == token
  {
    forall x | x in sys.tokens ensures sys.tokens[x].family != family {
      assert GoodToken(sys.newest, sys.tokens[x]);
    }
  }

  // A logout ends the session with all its families and no others, so that none of their
  // tokens is usable any more.
  lemma LogoutEndsSession(sys: System, session: nat, id: nat)
    requires Inv(sys) && Enabled(sys, Logout(session))
    ensures var sys' := Next(sys, Logout(session));
            if HasSession(sys, id) && sys.families[sys.tokens[id].family].session == session
            then !Usable(sys', id) && FamilyDead(sys', id) && SessionDead(sys', id)
            else Usable(sys', id) == Usable(sys, id)
  {
  }
}
