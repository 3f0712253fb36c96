/**
 * Every interleaving of logins, device redemptions, logouts, deprovisioning and restarts.
 *
 * Whatever holds the session lock excludes the others that need it; a login reads its clock
 * before taking the lock and checks the account before it inserts; a deactivation updates the
 * directory, the pairings and the sessions one after the other.
 *
 * The clock never goes back. Session tokens and pairing secrets are never drawn twice, and a PIN
 * is not drawn while another pairing still holds it (Pairings says what happens otherwise).
 */
module SessionRuns {
  import opened Wrappers
  import opened Collections
  import opened LogoutLog
  import opened Pairings
  import opened Sessions

  /** A login holding the session lock: its checks passed, its session not yet in the table. */
  datatype Starting = Starting(token: string, session: Session)

  /** A directory deactivation under way, and whether it has cancelled the pairings yet. */
  datatype Leaving = Leaving(user: string, cancelled: bool)

  datatype World = World(
    clock: int, active: set<string>, sessions: SessionTable, log: Log, pairings: Table,
    starting: Option<Starting>, leaving: Option<Leaving>,
    minted: set<string>,           // every token ever drawn
    issued: map<string, string>,   // every pairing secret ever drawn, and for whom
    cancelled: set<string>,        // those drawn for a user before a cancel of that user's pairings, however caused
    accepted: Events,              // logout tokens accepted, the latest under each key
    gone: set<string>)             // users whose deactivation has returned, not reactivated since

  datatype Event =
    | Tick(d: nat)
    | BeginStart(user: string, id: Identity, now: int, lifetime: nat, token: string)
    | FinishStart
    | Logout(e: LogoutEvent, now: int, saves: bool)
    | LocalLogout(token: string)
    | Deactivate(user: string)        // UpdateDirectory stores the inactive account
    | CancelPairings
    | RevokeSessions                  // the deactivation's last step; then it returns
    | LocalDeactivate(user: string)
    | Activate(user: string)          // created, restored or locally reactivated
    | StartPairing(p: Pairing)
    | Redeem(code: string)            // reads its clock under the pairings' own lock
    | Restart

  const BOOT := World(0, {}, map[], Log(map[], map[]), EMPTY, None, None, {}, map[], {}, map[], {})

  function SecretsIssued(issued: map<string, string>, users: set<string>): set<string> {
    set s | s in issued && issued[s] in users
  }

  predicate Possible(w: World, ev: Event) {
    match ev
    case BeginStart(_, _, now, _, token) => w.starting.None? && now <= w.clock && token !in w.minted
    case FinishStart => w.starting.Some?
    case Logout(_, now, _) => w.starting.None? && now <= w.clock
    case LocalLogout(_) => w.starting.None?
    case Deactivate(_) => w.leaving.None?
    case CancelPairings => w.leaving.Some? && !w.leaving.value.cancelled
    case RevokeSessions => w.leaving.Some? && w.leaving.value.cancelled && w.starting.None?
    case StartPairing(p) =>
      && |p.pin| == 6 && |p.secret| != 6 && p.secret !in w.issued
      && (p.pin in w.pairings.pins ==> !Redeemable(w.pairings.pins[p.pin], w.clock))
    case _ => true
  }

  function Perform(w: World, ev: Event): World
    requires Possible(w, ev)
  {
    match ev
    case Tick(d) => w.(clock := w.clock + d)
    case BeginStart(user, id, now, lifetime, token) =>
      var v := w.(minted := w.minted + {token});
      if MayStart(w.active, w.log.events, user, id, now) then
        v.(starting := Some(Starting(token, Session(user, id, now + lifetime))))
      else v
    case FinishStart =>
      w.(sessions := w.sessions[w.starting.value.token := w.starting.value.session], starting := None)
    case Logout(e, now, saves) =>
      var (log, error) := Admission(w.log, e, now, saves);
      if error.Some? then w.(log := log)
      else
        var (sessions, pairings) := Ended(w.sessions, w.pairings, LoggedOut(w.sessions, e));
        w.(log := log, sessions := sessions, pairings := pairings, accepted := w.accepted[e.Key() := e],
           cancelled := w.cancelled + SecretsIssued(w.issued, UsersOf(w.sessions, LoggedOut(w.sessions, e))))
    case LocalLogout(token) => w.(sessions := w.sessions - {token})
    case Deactivate(user) => w.(active := w.active - {user}, leaving := Some(Leaving(user, false)))
    case CancelPairings =>
      var user := w.leaving.value.user;
      w.(pairings := Cancelled(w.pairings, user), leaving := Some(Leaving(user, true)),
         cancelled := w.cancelled + SecretsIssued(w.issued, {user}))
    case RevokeSessions =>
      var user := w.leaving.value.user;
      w.(sessions := WithoutUser(w.sessions, user), leaving := None,
         gone := if user in w.active then w.gone else w.gone + {user})
    case LocalDeactivate(user) => w.(active := w.active - {user})
    case Activate(user) => w.(active := w.active + {user}, gone := w.gone - {user})
    case StartPairing(p) =>
      w.(pairings := Created(w.pairings, p), issued := w.issued[p.secret := p.user])
    case Redeem(code) => w.(pairings := Redemption(w.pairings, code, w.clock).0)
    case Restart =>
      w.(sessions := map[], log := Log(w.log.file, w.log.file), pairings := EMPTY,
         starting := None, leaving := None)
  }

  function Step(w: World, ev: Event): World {
    if Possible(w, ev) then Perform(w, ev) else w
  }

  function Run(w: World, events: seq<Event>): World
    decreases |events|
  {
    if events == [] then w else Run(Step(w, events[0]), events[1..])
  }

  // ---------------------------------------------------------------- what every run keeps

  /** No retained, unexpired logout names this identity. */
  predicate Clear(events: Events, clock: int, id: Identity) {
    forall k {:trigger events[k]} :: k in events && clock <= events[k].retainUntil ==> !events[k].Matches(id)
  }

  predicate FenceHolds(sessions: SessionTable, starting: Option<Starting>, events: Events, clock: int) {
    && (forall t :: t in sessions ==> sessions[t].id.Revocable() && Clear(events, clock, sessions[t].id))
    && (starting.Some? ==>
          starting.value.session.id.Revocable() && Clear(events, clock, starting.value.session.id))
  }

  /** What was accepted is in memory and on disk for as long as it is retained, and nothing else is. */
  predicate Retained(log: Log, accepted: Events, clock: int) {
    && Within(log.events, accepted) && Within(log.file, accepted)
    && Within(Unexpired(accepted, clock), log.events)
    && Within(Unexpired(accepted, clock), log.file)
    && (forall k :: k in accepted ==> accepted[k].Key() == k)
  }

  predicate GoneHolds(gone: set<string>, active: set<string>, sessions: SessionTable, starting: Option<Starting>) {
    && gone !! active
    && (forall t :: t in sessions ==> sessions[t].user !in gone)
    && (starting.Some? ==> starting.value.session.user !in gone)
  }

  predicate TokensDrawn(sessions: SessionTable, starting: Option<Starting>, minted: set<string>) {
    && sessions.Keys <= minted
    && (starting.Some? ==> starting.value.token in minted && starting.value.token !in sessions)
  }

  predicate PairingsHold(pairings: Table, issued: map<string, string>, cancelled: set<string>, clock: int) {
    && Paired(pairings, clock)
    && (forall s :: s in pairings.codes ==> s in issued && issued[s] == pairings.codes[s].user)
    && (forall s :: s in cancelled ==> s in issued && (s in pairings.codes ==> !Redeemable(pairings.codes[s], clock)))
  }

  predicate Sound(w: World) {
    && FenceHolds(w.sessions, w.starting, w.log.events, w.clock)
    && Retained(w.log, w.accepted, w.clock)
    && GoneHolds(w.gone, w.active, w.sessions, w.starting)
    && TokensDrawn(w.sessions, w.starting, w.minted)
    && PairingsHold(w.pairings, w.issued, w.cancelled, w.clock)
  }

  /** Admitting a logout fences only what it names. */
  lemma AdmissionKeepsClear(log: Log, e: LogoutEvent, now: int, saves: bool, clock: int, id: Identity)
    requires Clear(log.events, clock, id)
    requires Admission(log, e, now, saves).1.None? ==> !e.Matches(id)
    ensures Clear(Admission(log, e, now, saves).0.events, clock, id)
  {
  }

  lemma LogoutKeepsFence(w: World, e: LogoutEvent, now: int, saves: bool)
    requires Sound(w) && Possible(w, Logout(e, now, saves))
    ensures
      var v := Perform(w, Logout(e, now, saves));
      FenceHolds(v.sessions, v.starting, v.log.events, v.clock)
  {
    var v := Perform(w, Logout(e, now, saves));
    forall t | t in v.sessions
      ensures Clear(v.log.events, v.clock, v.sessions[t].id)
    {
      AdmissionKeepsClear(w.log, e, now, saves, w.clock, w.sessions[t].id);
    }
  }

  /** A clock read earlier fences at least as much: `now` may be stale, never ahead. */
  lemma StaleFenceIsSafe(events: Events, id: Identity, now: int, clock: int)
    requires now <= clock && !Fences(events, id, now)
    ensures Clear(events, clock, id)
  {
  }

  lemma LaterStaysClear(events: Events, id: Identity, before: int, clock: int)
    requires before <= clock && Clear(events, before, id)
    ensures Clear(events, clock, id)
  {
  }

  lemma FenceKeeps(w: World, ev: Event)
    requires Sound(w) && Possible(w, ev)
    ensures
      var v := Perform(w, ev);
      FenceHolds(v.sessions, v.starting, v.log.events, v.clock)
  {
    match ev
    case Logout(e, now, saves) => LogoutKeepsFence(w, e, now, saves);
    case BeginStart(user, id, now, _, _) =>
      if MayStart(w.active, w.log.events, user, id, now) {
        StaleFenceIsSafe(w.log.events, id, now, w.clock);
      }
    case Tick(d) =>
      forall id | Clear(w.log.events, w.clock, id)
        ensures Clear(w.log.events, w.clock + d, id)
      {
        LaterStaysClear(w.log.events, id, w.clock, w.clock + d);
      }
    case _ =>
  }

  lemma AdmissionRetains(log: Log, accepted: Events, clock: int, e: LogoutEvent, now: int, saves: bool)
    requires now <= clock
    requires Within(log.events, accepted) && Within(log.file, accepted)
    requires Within(Unexpired(accepted, clock), log.events) && Within(Unexpired(accepted, clock), log.file)
    ensures
      var (after, error) := Admission(log, e, now, saves);
      var all := if error.Some? then accepted else accepted[e.Key() := e];
      && Within(after.events, all) && Within(after.file, all)
      && Within(Unexpired(all, clock), after.events) && Within(Unexpired(all, clock), after.file)
  {
    var (after, error) := Admission(log, e, now, saves);
    var left := Unexpired(log.events, now);
    assert Within(left, accepted) && Within(Unexpired(accepted, clock), left);
    if error.None? {
      var all := accepted[e.Key() := e];
      forall k | k in Unexpired(all, clock)
        ensures k in after.events && after.events[k] == all[k]
      {
        assert k != e.Key() ==> k in Unexpired(accepted, clock);
      }
    }
  }

  lemma LogoutRetains(w: World, e: LogoutEvent, now: int, saves: bool)
    requires Retained(w.log, w.accepted, w.clock) && Possible(w, Logout(e, now, saves))
    ensures
      var v := Perform(w, Logout(e, now, saves));
      Retained(v.log, v.accepted, v.clock)
  {
    AdmissionRetains(w.log, w.accepted, w.clock, e, now, saves);
  }

  lemma LaterStaysRetained(log: Log, accepted: Events, clock: int, later: int)
    requires Retained(log, accepted, clock) && clock <= later
    ensures Retained(log, accepted, later)
  {
    assert Within(Unexpired(accepted, later), Unexpired(accepted, clock));
  }

  lemma RetainedKeeps(w: World, ev: Event)
    requires Retained(w.log, w.accepted, w.clock) && Possible(w, ev)
    ensures
      var v := Perform(w, ev);
      Retained(v.log, v.accepted, v.clock)
  {
    match ev
    case Logout(e, now, saves) => LogoutRetains(w, e, now, saves);
    case Tick(d) => LaterStaysRetained(w.log, w.accepted, w.clock, w.clock + d);
    case _ =>
  }

  lemma LogoutOnlyEnds(w: World, e: LogoutEvent, now: int, saves: bool)
    requires Possible(w, Logout(e, now, saves))
    ensures
      var v := Perform(w, Logout(e, now, saves));
      && v.sessions.Keys <= w.sessions.Keys && (forall t :: t in v.sessions ==> v.sessions[t] == w.sessions[t])
      && v.starting == w.starting && v.active == w.active && v.gone == w.gone && v.minted == w.minted
  {
  }

  lemma GoneKeeps(w: World, ev: Event)
    requires Sound(w) && Possible(w, ev)
    ensures
      var v := Perform(w, ev);
      GoneHolds(v.gone, v.active, v.sessions, v.starting)
  {
    match ev
    case Logout(e, now, saves) => LogoutOnlyEnds(w, e, now, saves);
    case _ =>
  }

  lemma TokensKeep(w: World, ev: Event)
    requires Sound(w) && Possible(w, ev)
    ensures
      var v := Perform(w, ev);
      TokensDrawn(v.sessions, v.starting, v.minted)
  {
    match ev
    case Logout(e, now, saves) => LogoutOnlyEnds(w, e, now, saves);
    case _ =>
  }

  lemma CancelKeeps(t: Table, issued: map<string, string>, cancelled: set<string>, clock: int, users: set<string>)
    requires PairingsHold(t, issued, cancelled, clock)
    ensures PairingsHold(CancelledAll(t, users), issued, cancelled + SecretsIssued(issued, users), clock)
  {
    var u := CancelledAll(t, users);
    CancelAllIsComplete(t, users, clock);
    forall s | s in SecretsIssued(issued, users) && s in u.codes
      ensures !Redeemable(u.codes[s], clock)
    {
      assert t.codes[s] == u.codes[s];
    }
  }

  lemma PairingsKeep(w: World, ev: Event)
    requires Sound(w) && Possible(w, ev)
    ensures
      var v := Perform(w, ev);
      PairingsHold(v.pairings, v.issued, v.cancelled, v.clock)
  {
    match ev
    case Tick(d) => LaterStaysPaired(w.pairings, w.clock, w.clock + d);
    case StartPairing(p) => CreationKeepsPairs(w.pairings, p, w.clock);
    case Redeem(code) => RedemptionKeepsPairs(w.pairings, code, w.clock);
    case CancelPairings =>
      CancelOneUser(w.pairings, w.leaving.value.user);
      CancelKeeps(w.pairings, w.issued, w.cancelled, w.clock, {w.leaving.value.user});
    case Logout(e, _, _) =>
      CancelKeeps(w.pairings, w.issued, w.cancelled, w.clock, UsersOf(w.sessions, LoggedOut(w.sessions, e)));
    case _ =>
  }

  lemma StepKeeps(w: World, ev: Event)
    requires Sound(w)
    ensures Sound(Step(w, ev))
  {
    if Possible(w, ev) {
      FenceKeeps(w, ev);
      RetainedKeeps(w, ev);
      GoneKeeps(w, ev);
      TokensKeep(w, ev);
      PairingsKeep(w, ev);
    }
  }

  lemma {:induction false} RunKeeps(w: World, events: seq<Event>)
    requires Sound(w)
    ensures Sound(Run(w, events))
    decreases |events|
  {
    if events != [] {
      StepKeeps(w, events[0]);
      RunKeeps(Step(w, events[0]), events[1..]);
    }
  }

  lemma BootIsSound()
    ensures Sound(BOOT)
  {
  }

  // ---------------------------------------------------------------- the results

  /** In every run, no session in the table is named by a logout still retained, and all can be named by one. */
  lemma LogoutFence(events: seq<Event>, token: string, k: string)
    requires
      var w := Run(BOOT, events);
      token in w.sessions && k in w.log.events
    ensures
      var w := Run(BOOT, events);
      var id, e := w.sessions[token].id, w.log.events[k];
      && id.issuer != "" && id.clientId != "" && id.subject != ""
      && (w.clock <= e.retainUntil && id.issuer == e.issuer && id.clientId == e.clientId ==>
            && (e.sessionId != "" && id.sessionId == e.sessionId ==> e.subject != "" && id.subject != e.subject)
            && (e.sessionId == "" && id.subject == e.subject ==> id.issuedAt > e.issuedAt))
  {
    BootIsSound();
    RunKeeps(BOOT, events);
    var w := Run(BOOT, events);
    assert Clear(w.log.events, w.clock, w.sessions[token].id);
  }

  /**
   * An accepted logout ends exactly these sessions: of its issuer and client, the one it names if it
   * names one, and otherwise those of its subject that were issued no later than it was.
   */
  lemma LogoutEndsExactly(w: World, e: LogoutEvent, now: int, saves: bool)
    requires Possible(w, Logout(e, now, saves)) && Admission(w.log, e, now, saves).1.None?
    ensures
      var v := Perform(w, Logout(e, now, saves));
      && (forall t :: t in w.sessions ==>
            var id := w.sessions[t].id;
            t !in v.sessions <==>
              && id.subject != "" && id.issuer == e.issuer && id.clientId == e.clientId
              && (e.sessionId != "" ==> id.sessionId == e.sessionId && (e.subject == "" || id.subject == e.subject))
              && (e.sessionId == "" ==> id.subject == e.subject && id.issuedAt <= e.issuedAt))
      && (forall t :: t in v.sessions ==> t in w.sessions && v.sessions[t] == w.sessions[t])
  {
  }

  /** A login that is checked is admitted exactly for an active user no retained logout names, and then answered. */
  lemma LoginIsExact(w: World, user: string, id: Identity, now: int, lifetime: nat, token: string, later: int)
    requires Possible(w, BeginStart(user, id, now, lifetime, token)) && token != ""
    ensures
      var v := Perform(w, BeginStart(user, id, now, lifetime, token));
      && (v.starting.Some? <==>
            && user in w.active && id.issuer != "" && id.clientId != "" && id.subject != ""
            && forall k :: k in w.log.events && now <= w.log.events[k].retainUntil ==> !w.log.events[k].Matches(id))
      && (v.starting.Some? ==>
            var u := Perform(v, FinishStart);
            && u.sessions == w.sessions[token := Session(user, id, now + lifetime)]
            && (later <= now + lifetime ==> Answering(u.sessions, u.active, token, later) == Some(user)))
  {
  }

  /** A token accepted once is refused as long as it is retained, through any number of restarts. */
  lemma AcceptedTokenIsRefusedAgain(events: seq<Event>, e: LogoutEvent, now: int, saves: bool)
    requires
      var w := Run(BOOT, events);
      && now <= w.clock && e.Key() in w.accepted && w.clock <= w.accepted[e.Key()].retainUntil
    ensures Admission(Run(BOOT, events).log, e, now, saves).1 == Some(Replayed)
  {
    BootIsSound();
    RunKeeps(BOOT, events);
    var w := Run(BOOT, events);
    assert e.Key() in Unexpired(w.accepted, w.clock);
  }

  lemma StepAfterReturn(w: World, ev: Event, user: string)
    requires user in w.gone && ev != Activate(user)
    ensures user in Step(w, ev).gone
  {
  }

  /**
   * Once a deactivation has returned, and until the account is activated again, the user has no
   * session in the table, none about to enter it, and none can be started.
   */
  lemma {:induction false} DeprovisioningHolds(w: World, events: seq<Event>, user: string)
    requires Sound(w) && user in w.gone && Activate(user) !in events
    ensures
      var v := Run(w, events);
      && user in v.gone && user !in v.active
      && (forall t :: t in v.sessions ==> v.sessions[t].user != user)
      && (v.starting.Some? ==> v.starting.value.session.user != user)
      && (forall id, now :: !MayStart(v.active, v.log.events, user, id, now))
      && (forall token, now :: Answering(v.sessions, v.active, token, now) != Some(user))
    decreases |events|
  {
    if events != [] {
      StepKeeps(w, events[0]);
      StepAfterReturn(w, events[0], user);
      DeprovisioningHolds(Step(w, events[0]), events[1..], user);
    }
  }

  /** A deactivation that returns while the account is still inactive is in force from then on. */
  lemma DeactivationReturns(w: World)
    requires Possible(w, RevokeSessions) && w.leaving.value.user !in w.active
    ensures w.leaving.value.user in Step(w, RevokeSessions).gone
  {
  }

  /** Drawn, and neither in the table nor about to be. */
  predicate IsOver(w: World, token: string) {
    && token in w.minted && token !in w.sessions
    && (w.starting.Some? ==> w.starting.value.token != token)
  }

  lemma StaysOver(w: World, ev: Event, token: string)
    requires IsOver(w, token)
    ensures IsOver(Step(w, ev), token)
  {
  }

  /** A token that has been drawn and is neither in the table nor about to be never gets there. */
  lemma {:induction false} EndedSessionNeverRevives(w: World, events: seq<Event>, token: string)
    requires IsOver(w, token)
    ensures IsOver(Run(w, events), token)
    ensures forall now :: Answering(Run(w, events).sessions, Run(w, events).active, token, now) == None
    decreases |events|
  {
    if events != [] {
      StaysOver(w, events[0], token);
      EndedSessionNeverRevives(Step(w, events[0]), events[1..], token);
    }
  }

  lemma CancelledGrows(w: World, ev: Event)
    ensures w.cancelled <= Step(w, ev).cancelled
  {
  }

  lemma {:induction false} CancelledStays(w: World, events: seq<Event>, secret: string)
    requires Sound(w) && secret in w.cancelled
    ensures Sound(Run(w, events)) && secret in Run(w, events).cancelled
    decreases |events|
  {
    if events != [] {
      StepKeeps(w, events[0]);
      CancelledGrows(w, events[0]);
      CancelledStays(Step(w, events[0]), events[1..], secret);
    }
  }

  /**
   * A pairing drawn before a cancel of its user's pairings, by a deactivation or by a logout, is
   * never redeemed, by PIN or by secret.
   */
  lemma CancelledPairingNeverRedeems(w: World, events: seq<Event>, secret: string, code: string, now: int)
    requires Sound(w) && secret in w.cancelled && now >= Run(w, events).clock
    ensures
      var p := Redemption(Run(w, events).pairings, code, now).1;
      p.Some? ==> p.value.secret != secret
  {
    CancelledStays(w, events, secret);
    var t := Run(w, events).pairings;
    if Find(t, code).Some? {
      assert Find(t, code).value.secret in t.codes;
    }
  }

  /** Both ways of cancelling reach every pairing the user has been issued. */
  lemma CancelsReachAll(w: World, secret: string)
    requires secret in w.issued
    ensures Possible(w, CancelPairings) && w.leaving.value.user == w.issued[secret] ==>
              secret in Perform(w, CancelPairings).cancelled
    ensures forall e, now, saves, t ::
              Possible(w, Logout(e, now, saves)) && Admission(w.log, e, now, saves).1.None?
              && t in w.sessions && e.Matches(w.sessions[t].id) && w.sessions[t].user == w.issued[secret] ==>
                secret in Perform(w, Logout(e, now, saves)).cancelled
  {
    forall e, now, saves, t |
      Possible(w, Logout(e, now, saves)) && Admission(w.log, e, now, saves).1.None?
      && t in w.sessions && e.Matches(w.sessions[t].id) && w.sessions[t].user == w.issued[secret]
      ensures secret in Perform(w, Logout(e, now, saves)).cancelled
    {
      assert t in LoggedOut(w.sessions, e);
    }
  }
}
