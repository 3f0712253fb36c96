/**
 * The session table: what starts a session and what ends one. SessionRuns interleaves these
 * calls as the locks allow.
 */
module Sessions {
  import opened Wrappers
  import opened LogoutLog
  import opened Pairings

  datatype Session = Session(user: string, id: Identity, expiresAt: int)

  type SessionTable = map<string, Session>

  /** Minting refuses an inactive account, an identity no logout could name, and a fenced one. */
  predicate MayStart(active: set<string>, events: Events, user: string, id: Identity, now: int) {
    user in active && id.Revocable() && !Fences(events, id, now)
  }

  const DEVICE_SESSION := 90 * 24 * 3600 * 1_000_000_000

  /** Whom a request with this token is answered as: the user of an unexpired session, while active. */
  function Answering(sessions: SessionTable, active: set<string>, token: string, now: int): Option<string> {
    if token != "" && token in sessions && now <= sessions[token].expiresAt && sessions[token].user in active
    then Some(sessions[token].user) else None
  }

  function LoggedOut(sessions: SessionTable, e: LogoutEvent): set<string> {
    set t | t in sessions && e.Matches(sessions[t].id)
  }

  function UsersOf(sessions: SessionTable, tokens: set<string>): set<string> {
    set t | t in tokens && t in sessions :: sessions[t].user
  }

  function WithoutUser(sessions: SessionTable, user: string): SessionTable {
    map t | t in sessions && sessions[t].user != user :: sessions[t]
  }

  /** The table and the pairings once the sessions in `gone` have been ended. */
  function Ended(sessions: SessionTable, t: Table, gone: set<string>): (SessionTable, Table) {
    (sessions - gone, CancelledAll(t, UsersOf(sessions, gone)))
  }

  lemma EndedNone(sessions: SessionTable, t: Table)
    ensures Ended(sessions, t, {}) == (sessions, t)
  {
    CancelNone(t);
    assert UsersOf(sessions, {}) == {};
    assert sessions - {} == sessions;
  }

  lemma EndOneMore(sessions: SessionTable, t: Table, gone: set<string>, token: string)
    requires token in sessions && token !in gone
    ensures
      var (s, u) := Ended(sessions, t, gone);
      Ended(sessions, t, gone + {token}) == (s - {token}, Cancelled(u, sessions[token].user))
  {
    CancelOneMore(t, UsersOf(sessions, gone), sessions[token].user);
    assert UsersOf(sessions, gone + {token}) == UsersOf(sessions, gone) + {sessions[token].user};
    assert sessions - gone - {token} == sessions - (gone + {token});
  }

  lemma NextToken(hit: set<string>, todo: set<string>, token: string)
    requires token in todo
    ensures hit - (todo - {token}) == if token in hit then (hit - todo) + {token} else hit - todo
    ensures token in hit ==> |hit - (todo - {token})| == |hit - todo| + 1
  {
  }

  // ---------------------------------------------------------------- the server's methods

  class Server {
    const logouts: LogoutStore
    const devices: DeviceStore
    var active: set<string>     // accounts the user store reports as active
    var sessions: SessionTable

    constructor (logouts: LogoutStore, devices: DeviceStore, active: set<string>)
      ensures this.logouts == logouts && this.devices == devices
      ensures this.active == active && sessions == map[]
    {
      this.logouts, this.devices := logouts, devices;
      this.active := active;
      sessions := map[];
    }

    /** startSession and startSessionWithToken; they differ in `now` and in the lifetime. */
    method StartSession(user: string, id: Identity, now: int, lifetime: nat, token: string) returns (ok: bool)
      modifies this`sessions
      ensures ok == MayStart(active, logouts.events, user, id, now)
      ensures sessions == if ok then old(sessions)[token := Session(user, id, now + lifetime)] else old(sessions)
      ensures ok <==>
        && user in active && id.issuer != "" && id.clientId != "" && id.subject != ""
        && forall k :: k in logouts.events && now <= logouts.events[k].retainUntil ==> !logouts.events[k].Matches(id)
    {
      if user !in active {
        return false;
      }
      if !id.Revocable() {
        return false;
      }
      var fenced := logouts.Fenced(id, now);
      if fenced {
        return false;
      }
      sessions := sessions[token := Session(user, id, now + lifetime)];
      return true;
    }

    /** applySSOLogout: the event is on disk before any session goes, and exactly its sessions go. */
    method ApplySSOLogout(e: LogoutEvent, now: int, saves: bool) returns (ended: nat, error: Option<LogoutError>)
      modifies this`sessions, logouts, devices`pins, devices`codes
      ensures (logouts.State(), error) == Admission(old(logouts.State()), e, now, saves)
      ensures error.Some? ==> ended == 0 && sessions == old(sessions) && devices.State() == old(devices.State())
      ensures error.None? ==>
        var gone := LoggedOut(old(sessions), e);
        && ended == |gone|
        && (sessions, devices.State()) == Ended(old(sessions), old(devices.State()), gone)
      ensures error.None? ==>
        forall t :: t in old(sessions) ==>
          var id := old(sessions)[t].id;
          t !in sessions <==>
            && id.subject != "" && id.issuer == e.issuer && id.clientId == e.clientId
            && (e.sessionId != "" ==> id.sessionId == e.sessionId && (e.subject == "" || id.subject == e.subject))
            && (e.sessionId == "" ==> id.subject == e.subject && id.issuedAt <= e.issuedAt)
      ensures forall t :: t in sessions ==> t in old(sessions) && sessions[t] == old(sessions)[t]
      ensures forall pin :: pin in old(devices.pins) ==>
        (pin in devices.pins <==>
         forall t :: t in old(sessions) && t !in sessions ==> old(sessions)[t].user != old(devices.pins)[pin].user)
      ensures forall pin :: pin in devices.pins ==>
        pin in old(devices.pins) && devices.pins[pin] == old(devices.pins)[pin]
    {
      error := logouts.Admit(e, now, saves);
      ended := 0;
      if error.None? {
        ended := EndMatching(e);
      }
    }

    /** The loop over the table: every session the event names goes, with its user's pairings. */
    method EndMatching(e: LogoutEvent) returns (ended: nat)
      modifies this`sessions, devices`pins, devices`codes
      ensures
        var gone := LoggedOut(old(sessions), e);
        && ended == |gone|
        && (sessions, devices.State()) == Ended(old(sessions), old(devices.State()), gone)
    {
      ended := 0;
      ghost var sessions0, table0, hit := sessions, devices.State(), LoggedOut(sessions, e);
      ghost var gone: set<string> := {};
      EndedNone(sessions0, table0);
      var todo := sessions.Keys;
      while todo != {}
        invariant todo <= sessions0.Keys
        invariant gone == hit - todo && ended == |gone|
        invariant (sessions, devices.State()) == Ended(sessions0, table0, gone)
        decreases |todo|
      {
        var token :| token in todo;
        NextToken(hit, todo, token);
        todo := todo - {token};
        var session := sessions[token];
        if e.Matches(session.id) {
          EndOneMore(sessions0, table0, gone, token);
          EndOne(token);
          gone := gone + {token};
          ended := ended + 1;
        }
      }
      assert gone == hit;
    }

    method EndOne(token: string)
      requires token in sessions
      modifies this`sessions, devices`pins, devices`codes
      ensures sessions == old(sessions) - {token}
      ensures devices.State() == Cancelled(old(devices.State()), old(sessions)[token].user)
    {
      var session := sessions[token];
      sessions := sessions - {token};
      devices.CancelUserPairings(session.user);
    }

    method RevokeDirectorySessions(user: string)
      modifies this`sessions, devices`pins, devices`codes
      ensures devices.State() == Cancelled(old(devices.State()), user)
      ensures sessions == WithoutUser(old(sessions), user)
      ensures forall t :: t in sessions <==> t in old(sessions) && old(sessions)[t].user != user
      ensures forall t :: t in sessions ==> sessions[t] == old(sessions)[t]
    {
      devices.CancelUserPairings(user);
      ghost var sessions0 := sessions;
      var todo := sessions.Keys;
      while todo != {}
        invariant devices.State() == Cancelled(old(devices.State()), user)
        invariant todo <= sessions.Keys <= sessions0.Keys
        invariant forall t :: t in sessions0 ==> (t in sessions <==> t in todo || sessions0[t].user != user)
        invariant forall t :: t in sessions ==> sessions[t] == sessions0[t]
        decreases |todo|
      {
        var token :| token in todo;
        todo := todo - {token};
        if sessions[token].user == user {
          sessions := sessions - {token};
        }
      }
    }

    /** handlePairingRedeem: a device is left registered exactly when a session was minted for it. */
    method HandlePairingRedeem(code: string, device: string, token: string, now: int, later: int, saves: bool)
      returns (r: Option<string>)
      requires device !in devices.devices
      modifies this`sessions, devices
      ensures
        var (table, p) := Redemption(old(devices.State()), code, now);
        && devices.State() == table
        && (r.Some? <==> p.Some? && saves && MayStart(active, logouts.events, p.value.user, p.value.origin, later))
        && (r.Some? ==>
              && r == Some(token)
              && sessions == old(sessions)[token := Session(p.value.user, p.value.origin, later + DEVICE_SESSION)]
              && devices.devices == old(devices.devices)[device := p.value.user])
        && (r.None? ==> sessions == old(sessions) && devices.devices == old(devices.devices))
    {
      var p := devices.RedeemPairing(code, device, now, saves);
      if p.None? {
        return None;
      }
      var started := StartSession(p.value.user, p.value.origin, later, DEVICE_SESSION, token);
      if !started {
        var revoked := devices.Revoke(device);
        assert devices.devices == old(devices.devices);
        return None;
      }
      return Some(token);
    }

    method CurrentUser(token: string, now: int) returns (user: Option<string>)
      ensures user == Answering(sessions, active, token, now)
      ensures user.Some? <==>
        token != "" && token in sessions && now <= sessions[token].expiresAt && sessions[token].user in active
      ensures user.Some? ==> user.value == sessions[token].user
    {
      if token == "" || token !in sessions || now > sessions[token].expiresAt {
        return None;
      }
      var session := sessions[token];
      if session.user !in active {
        return None;
      }
      return Some(session.user);
    }
  }
}
