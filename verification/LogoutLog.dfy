/**
 * The record of accepted back-channel logout tokens (OpenID Connect Back-Channel Logout 1.0,
 * section 2.7), which fences logins that a logout overtakes and refuses a token twice.
 */
module LogoutLog {
  import opened Wrappers
  import opened Collections

  datatype Identity = Identity(issuer: string, clientId: string, subject: string, sessionId: string, issuedAt: int)
  {
    predicate Revocable() {
      issuer != "" && clientId != "" && subject != ""
    }
  }

  datatype LogoutEvent = LogoutEvent(issuer: string, clientId: string, jti: string, subject: string,
                                     sessionId: string, issuedAt: int, retainUntil: int)
  {
    /** The named session, or every session of the subject issued no later than the logout. */
    predicate Matches(id: Identity) {
      if id.subject == "" || id.issuer != issuer || id.clientId != clientId then false
      else if sessionId != "" then id.sessionId == sessionId && (subject == "" || id.subject == subject)
      else id.subject == subject && id.issuedAt <= issuedAt
    }

    function Key(): string {
      issuer + (['\0'] + (clientId + (['\0'] + jti)))
    }
  }

  /** Keys are equal only for one issuer, client and token ID, as long as the first two hold no zero. */
  lemma KeysDiffer(a: LogoutEvent, b: LogoutEvent)
    requires a.Key() == b.Key()
    requires '\0' !in a.issuer && '\0' !in b.issuer && '\0' !in a.clientId && '\0' !in b.clientId
    ensures a.issuer == b.issuer && a.clientId == b.clientId && a.jti == b.jti
  {
    SplitAtFirst(a.issuer, a.clientId + (['\0'] + a.jti), b.issuer, b.clientId + (['\0'] + b.jti), '\0');
    SplitAtFirst(a.clientId, a.jti, b.clientId, b.jti, '\0');
  }

  datatype LogoutError = Replayed | AtCapacity | NotSaved

  const LOGOUT_CAPACITY := 4096

  type Events = map<string, LogoutEvent>

  /** The events in memory and the list on disk. */
  datatype Log = Log(events: Events, file: Events)

  function Unexpired(events: Events, now: int): Events {
    map k | k in events && now <= events[k].retainUntil :: events[k]
  }

  function Admission(log: Log, e: LogoutEvent, now: int, saves: bool): (Log, Option<LogoutError>) {
    var left := Unexpired(log.events, now);
    if e.Key() in left then (log.(events := left), Some(Replayed))
    else if |left| >= LOGOUT_CAPACITY then (log.(events := left), Some(AtCapacity))
    else if !saves then (log.(events := left), Some(NotSaved))
    else
      var more := left[e.Key() := e];
      (Log(more, more), None)
  }

  predicate Fences(events: Events, id: Identity, now: int) {
    exists k :: k in events && now <= events[k].retainUntil && events[k].Matches(id)
  }

  class LogoutStore {
    var events: Events
    var file: Events

    function State(): Log
      reads this
    {
      Log(events, file)
    }

    /** NewLogoutLog, on the list an earlier process left. */
    constructor (file: Events)
      ensures State() == Log(file, file)
    {
      this.file := file;
      events := file;
    }

    method Admit(e: LogoutEvent, now: int, saves: bool) returns (error: Option<LogoutError>)
      modifies this
      ensures (State(), error) == Admission(old(State()), e, now, saves)
      ensures forall k :: k in events <==>
                || (k in old(events) && now <= old(events)[k].retainUntil)
                || (error.None? && k == e.Key())
      ensures forall k :: k in events ==> events[k] == if error.None? && k == e.Key() then e else old(events)[k]
      ensures file == if error.None? then events else old(file)
      ensures error == Some(Replayed) <==> e.Key() in old(events) && now <= old(events)[e.Key()].retainUntil
      ensures error.None? ==> saves && |events| <= LOGOUT_CAPACITY
      ensures error.Some? ==> error == Some(Replayed) || |events| >= LOGOUT_CAPACITY || !saves
    {
      Purge(now);
      if e.Key() in events {
        return Some(Replayed);
      }
      if |events| >= LOGOUT_CAPACITY {
        return Some(AtCapacity);
      }
      events := events[e.Key() := e];
      if !saves {
        events := events - {e.Key()};
        assert events == Unexpired(old(events), now);
        return Some(NotSaved);
      }
      file := events;
      return None;
    }

    method Purge(now: int)
      modifies this`events
      ensures events == Unexpired(old(events), now)
    {
      var todo := events.Keys;
      while todo != {}
        invariant todo <= events.Keys <= old(events).Keys
        invariant forall k :: k in old(events) ==> (k in events <==> k in todo || now <= old(events)[k].retainUntil)
        invariant forall k :: k in events ==> events[k] == old(events)[k]
        decreases |todo|
      {
        var k :| k in todo;
        todo := todo - {k};
        if now > events[k].retainUntil {
          events := events - {k};
        }
      }
    }

    method Fenced(id: Identity, now: int) returns (fenced: bool)
      ensures fenced == Fences(events, id, now)
      ensures fenced <==>
        exists k :: k in events && now <= events[k].retainUntil
          && id.subject != "" && events[k].issuer == id.issuer && events[k].clientId == id.clientId
          && (events[k].sessionId != "" ==>
                events[k].sessionId == id.sessionId && (events[k].subject == "" || events[k].subject == id.subject))
          && (events[k].sessionId == "" ==> events[k].subject == id.subject && id.issuedAt <= events[k].issuedAt)
    {
      var todo := events.Keys;
      while todo != {}
        invariant todo <= events.Keys
        invariant forall k :: k in events && k !in todo ==> !(now <= events[k].retainUntil && events[k].Matches(id))
        decreases |todo|
      {
        var k :| k in todo;
        if now <= events[k].retainUntil && events[k].Matches(id) {
          return true;
        }
        todo := todo - {k};
      }
      return false;
    }
  }
}
