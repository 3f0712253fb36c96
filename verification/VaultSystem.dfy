/**
 * Any number of save queues, in any number of sessions, against one vault on the server:
 * uploads race, answers are lost while their upload still lands, histories are restored.
 *
 * A content is the set of edits it holds. Each queue is the one of SaveQueue; the server accepts
 * an upload as VaultStore.Saved does.
 */
module VaultSystem {
  import opened SaveQueue
  import VaultStore

  type Edit = nat
  type Content = set<Edit>

  /** How version v + 1 came about. */
  datatype Origin = Upload(client: nat, base: nat) | Rollback

  datatype Outcome = InFlight | Accepted | Conflicted

  datatype Request = Request(client: nat, base: nat, content: Content, outcome: Outcome)

  /**
   * A client's queue, its vault in memory, that vault as of the revision being uploaded, the
   * request it awaits, whether it has ever been told of a conflict, and the versions the server
   * has acknowledged to it, by sending them or by accepting them.
   */
  datatype Client = Client(q: Queue, local: Content, atRevision: Content, awaits: nat, sawConflict: bool,
                           known: set<nat>)

  datatype System = System(ledger: seq<Content>, origins: seq<Origin>, clients: seq<Client>, requests: seq<Request>)

  datatype Event =
    | Open(v: nat)                     // a session starts from a version, the current one or its draft's
    | MakeEdit(c: nat, e: Edit)
    | Retry(c: nat)
    | TimerFires(c: nat)
    | ExportSettles(c: nat, ok: bool, content: Content)   // serialised at some moment of the export
    | ServerHandles(r: nat)
    | AnswerArrives(c: nat)
    | AnswerLost(c: nat)               // the upload may still be on its way
    | RecoverDraft(c: nat, draft: Content)
    | Abandon(c: nat)
    | Restore(content: Content)        // whatever the history or a path in its ID leads to

  const EMPTY := System([], [], [], [])

  function ContentAt(ledger: seq<Content>, version: nat): Content
    requires version <= |ledger|
  {
    if version == 0 then {} else ledger[version - 1]
  }

  function With(s: System, c: nat, next: Client): System
    requires c < |s.clients|
  {
    s.(clients := s.clients[c := next])
  }

  /** A queue that has just taken a new round starts it from the vault as it is. */
  function Rounded(k: Client, q: Queue): Client {
    k.(q := q, atRevision := if q.phase.Exporting? && q.phase != k.q.phase then k.local else k.atRevision)
  }

  function Step(s: System, e: Event): System {
    match e
    case Open(v) =>
      if v > |s.ledger| then s
      else s.(clients := s.clients + [Client(New(v), ContentAt(s.ledger, v), {}, 0, false, {v})])
    case MakeEdit(c, x) =>
      if c >= |s.clients| then s
      else
        var k := s.clients[c];
        With(s, c, k.(local := k.local + {x}, q := Changed(k.q)))
    case Retry(c) =>
      if c >= |s.clients| then s else With(s, c, Rounded(s.clients[c], Save(s.clients[c].q)))
    case TimerFires(c) =>
      if c >= |s.clients| || !s.clients[c].q.timer then s
      else With(s, c, Rounded(s.clients[c], Save(s.clients[c].q)))
    case ExportSettles(c, ok, content) =>
      if c >= |s.clients| || !s.clients[c].q.phase.Exporting? then s
      else if !(s.clients[c].atRevision <= content <= s.clients[c].local) then s
      else
        var k := s.clients[c];
        var q := Exported(k.q, ok);
        var t := With(s, c, k.(q := q, awaits := |s.requests|));
        if q.phase.Uploading? then
          t.(requests := s.requests + [Request(c, q.phase.base, content, InFlight)])
        else t
    case ServerHandles(r) =>
      if r >= |s.requests| || s.requests[r].outcome != InFlight then s
      else
        var q := s.requests[r];
        var ledger := VaultStore.Saved(s.ledger, q.base, q.content);
        if ledger != s.ledger then
          s.(ledger := ledger,
             origins := s.origins + [Upload(q.client, q.base)],
             requests := s.requests[r := q.(outcome := Accepted)])
        else s.(requests := s.requests[r := q.(outcome := Conflicted)])
    case AnswerArrives(c) =>
      if c >= |s.clients| || !s.clients[c].q.phase.Uploading? then s
      else
        var k := s.clients[c];
        if k.awaits >= |s.requests| || s.requests[k.awaits].outcome == InFlight then s
        else
          var ok := s.requests[k.awaits].outcome == Accepted;
          var a := if ok then Confirmed(s.requests[k.awaits].base + 1) else Rejected409;
          var q := Answered(k.q, a);
          With(s, c, Rounded(k, q).(sawConflict := k.sawConflict || !ok, known := k.known + {q.state.version}))
    case AnswerLost(c) =>
      if c >= |s.clients| || !s.clients[c].q.phase.Uploading? then s
      else With(s, c, Rounded(s.clients[c], Answered(s.clients[c].q, Lost)))
    case RecoverDraft(c, draft) =>
      if c >= |s.clients| then s
      else
        var k := s.clients[c];
        With(s, c, k.(local := k.local + draft, q := RecoverUnsaved(k.q)))
    case Abandon(c) =>
      if c >= |s.clients| then s else With(s, c, s.clients[c].(q := Discard(s.clients[c].q)))
    case Restore(content) =>
      s.(ledger := s.ledger + [content], origins := s.origins + [Rollback])
  }

  function Run(s: System, events: seq<Event>): System
    decreases |events|
  {
    if events == [] then s else Run(Step(s, events[0]), events[1..])
  }

  // ---------------------------------------------------------------- what every run keeps

  /**
   * An accepted upload was made on the version before it, which its writer had been sent or had
   * confirmed, and holds everything that version holds.
   */
  predicate SoundOrigin(s: System, v: nat)
    requires v < |s.ledger| == |s.origins|
  {
    s.origins[v].Upload? ==>
      && s.origins[v].base == v && ContentAt(s.ledger, v) <= s.ledger[v]
      && s.origins[v].client < |s.clients| && v in s.clients[s.origins[v].client].known
  }

  predicate SoundRequest(s: System, r: Request) {
    && r.client < |s.clients| && r.base in s.clients[r.client].known
    && r.base <= s.clients[r.client].q.state.version <= |s.ledger|
    && ContentAt(s.ledger, r.base) <= r.content
    && (r.outcome == Accepted ==> r.base < |s.ledger| && s.ledger[r.base] == r.content)
    && (r.outcome == Conflicted ==> r.base < |s.ledger|)
  }

  predicate Awaiting(s: System, k: Client, c: nat) {
    k.q.phase.Uploading? ==>
      && k.awaits < |s.requests|
      && s.requests[k.awaits].client == c
      && s.requests[k.awaits].base == k.q.phase.base
      && k.atRevision <= s.requests[k.awaits].content <= k.local
      && (k.sawConflict ==> s.requests[k.awaits].outcome != Accepted)
  }

  predicate SoundClient(s: System, c: nat)
    requires c < |s.clients|
  {
    var k := s.clients[c];
    && Consistent(k.q)
    && k.q.state.version <= |s.ledger| && k.q.state.version in k.known
    && ContentAt(s.ledger, k.q.state.version) <= k.local
    && (k.q.phase != Idle ==> k.atRevision <= k.local)
    && (k.q.phase.Exporting? ==> ContentAt(s.ledger, k.q.state.version) <= k.atRevision)
    && (k.q.phase != Idle && k.q.phase.upTo == k.q.revision && !k.q.aborted ==> k.local == k.atRevision)
    && (k.q.state.Saved? && !k.q.aborted ==> k.local == ContentAt(s.ledger, k.q.state.version))
    && (k.sawConflict ==> k.q.state.version < |s.ledger|)
    && Awaiting(s, k, c)
  }

  predicate Sound(s: System) {
    && |s.origins| == |s.ledger|
    && (forall v :: 0 <= v < |s.ledger| ==> SoundOrigin(s, v))
    && (forall r :: 0 <= r < |s.requests| ==> SoundRequest(s, s.requests[r]))
    && (forall c :: 0 <= c < |s.clients| ==> SoundClient(s, c))
  }

  // ---------------------------------------------------------------- what others do not disturb

  /** The ledger only grows, requests stay what they were up to their outcome, other clients stay put. */
  predicate Grows(s: System, t: System) {
    && s.ledger <= t.ledger && |t.origins| == |t.ledger| && s.origins <= t.origins
    && |s.requests| <= |t.requests|
    && (forall r :: 0 <= r < |s.requests| ==> SameRequest(s.requests[r], t.requests[r]))
  }

  predicate SameRequest(a: Request, b: Request) {
    && b.client == a.client && b.base == a.base && b.content == a.content
    && (a.outcome != InFlight ==> b.outcome == a.outcome)
  }

  lemma ClientUndisturbed(s: System, t: System, c: nat)
    requires Grows(s, t)
    requires c < |s.clients| && c < |t.clients| && t.clients[c] == s.clients[c]
    requires SoundClient(s, c)
    requires
      var k := s.clients[c];
      k.q.phase.Uploading? && k.sawConflict ==> t.requests[k.awaits].outcome != Accepted
    ensures SoundClient(t, c)
  {
    var k := s.clients[c];
    assert ContentAt(t.ledger, k.q.state.version) == ContentAt(s.ledger, k.q.state.version);
    if k.q.phase.Uploading? {
      assert SameRequest(s.requests[k.awaits], t.requests[k.awaits]);
    }
  }

  lemma RequestUndisturbed(s: System, t: System, r: Request)
    requires s.ledger <= t.ledger && SoundRequest(s, r)
    requires r.client < |t.clients|
    requires s.clients[r.client].q.state.version <= t.clients[r.client].q.state.version <= |t.ledger|
    requires s.clients[r.client].known <= t.clients[r.client].known
    ensures SoundRequest(t, r)
  {
    assert ContentAt(t.ledger, r.base) == ContentAt(s.ledger, r.base);
  }

  /** An event that moves one client, and neither the server nor the network, is checked on that client. */
  lemma OneClientMoves(s: System, c: nat, next: Client)
    requires Sound(s) && c < |s.clients|
    requires s.clients[c].q.state.version <= next.q.state.version && s.clients[c].known <= next.known
    requires SoundClient(With(s, c, next), c)
    ensures Sound(With(s, c, next))
  {
    var t := With(s, c, next);
    forall d | 0 <= d < |t.clients|
      ensures SoundClient(t, d)
    {
      if d != c {
        assert SoundClient(s, d);
        ClientUndisturbed(s, t, d);
      }
    }
    forall r | 0 <= r < |t.requests|
      ensures SoundRequest(t, t.requests[r])
    {
      RequestUndisturbed(s, t, s.requests[r]);
    }
    forall v | 0 <= v < |t.ledger|
      ensures SoundOrigin(t, v)
    {
      assert SoundOrigin(s, v);
    }
  }

  lemma LedgerGrowth(s: System, t: System)
    requires Sound(s) && Grows(s, t) && s.clients == t.clients
    requires forall v :: |s.ledger| <= v < |t.ledger| ==> SoundOrigin(t, v)
    requires forall r :: 0 <= r < |t.requests| ==> SoundRequest(t, t.requests[r])
    requires forall c :: 0 <= c < |s.clients| ==>
               var k := s.clients[c];
               k.q.phase.Uploading? && k.sawConflict ==>
                 k.awaits < |t.requests| && t.requests[k.awaits].outcome != Accepted
    ensures Sound(t)
  {
    forall c | 0 <= c < |t.clients|
      ensures SoundClient(t, c)
    {
      assert SoundClient(s, c);
      ClientUndisturbed(s, t, c);
    }
    forall v | 0 <= v < |t.ledger|
      ensures SoundOrigin(t, v)
    {
      if v < |s.ledger| {
        assert SoundOrigin(s, v);
        assert ContentAt(t.ledger, v) == ContentAt(s.ledger, v);
      }
    }
  }

  // ---------------------------------------------------------------- each event

  lemma OpenKeeps(s: System, v: nat)
    requires Sound(s) && v <= |s.ledger|
    ensures Sound(Step(s, Open(v)))
  {
    var t := Step(s, Open(v));
    forall c | 0 <= c < |t.clients|
      ensures SoundClient(t, c)
    {
      if c < |s.clients| {
        assert SoundClient(s, c);
        ClientUndisturbed(s, t, c);
      }
    }
    forall r | 0 <= r < |t.requests|
      ensures SoundRequest(t, t.requests[r])
    {
      RequestUndisturbed(s, t, s.requests[r]);
    }
    forall v | 0 <= v < |t.ledger|
      ensures SoundOrigin(t, v)
    {
      assert SoundOrigin(s, v);
    }
  }

  lemma LocalEventKeeps(s: System, c: nat, e: Event)
    requires Sound(s) && c < |s.clients|
    requires e == Retry(c) || e == TimerFires(c) || e == AnswerLost(c) || e == Abandon(c)
             || (e.MakeEdit? && e.c == c) || (e.RecoverDraft? && e.c == c)
             || (e.ExportSettles? && e.c == c && !e.ok)
    ensures Sound(Step(s, e))
  {
    assert SoundClient(s, c);
    var t := Step(s, e);
    if t != s {
      assert SoundClient(t, c);
      OneClientMoves(s, c, t.clients[c]);
      assert t == With(s, c, t.clients[c]);
    }
  }

  lemma ExportKeeps(s: System, c: nat, content: Content)
    requires Sound(s) && c < |s.clients|
    ensures Sound(Step(s, ExportSettles(c, true, content)))
  {
    assert SoundClient(s, c);
    var k := s.clients[c];
    var t := Step(s, ExportSettles(c, true, content));
    if k.q.phase.Exporting? && k.atRevision <= content <= k.local {
      var mid := s.(requests := t.requests);
      if !k.q.aborted {
        var r := t.requests[|s.requests|];
        assert t.requests == s.requests + [r];
        assert SoundRequest(mid, r);
        forall i | 0 <= i < |mid.requests|
          ensures SoundRequest(mid, mid.requests[i])
        {
          assert i < |s.requests| ==> SoundRequest(s, s.requests[i]);
        }
        forall d | 0 <= d < |s.clients| && s.clients[d].q.phase.Uploading?
          ensures s.clients[d].awaits < |s.requests|
          ensures s.clients[d].sawConflict ==> s.requests[s.clients[d].awaits].outcome != Accepted
        {
          assert SoundClient(s, d);
        }
        LedgerGrowth(s, mid);
      }
      assert SoundClient(t, c);
      OneClientMoves(mid, c, t.clients[c]);
    }
  }

  lemma AnswerKeeps(s: System, c: nat)
    requires Sound(s) && c < |s.clients|
    ensures Sound(Step(s, AnswerArrives(c)))
  {
    assert SoundClient(s, c);
    var k := s.clients[c];
    var t := Step(s, AnswerArrives(c));
    if t != s {
      var r := s.requests[k.awaits];
      assert SoundRequest(s, r);
      assert r.outcome == Accepted ==> ContentAt(s.ledger, r.base + 1) == r.content;
      assert SoundClient(t, c);
      OneClientMoves(s, c, t.clients[c]);
    }
  }

  lemma ServerKeeps(s: System, r: nat)
    requires Sound(s) && r < |s.requests|
    ensures Sound(Step(s, ServerHandles(r)))
  {
    var t := Step(s, ServerHandles(r));
    if t != s {
      assert SoundRequest(s, s.requests[r]);
      forall c | 0 <= c < |s.clients| && s.clients[c].q.phase.Uploading? && s.clients[c].sawConflict
        ensures s.clients[c].awaits < |t.requests|
        ensures t.requests[s.clients[c].awaits].outcome != Accepted
      {
        assert SoundClient(s, c);
        assert SoundRequest(s, s.requests[s.clients[c].awaits]);
      }
      forall i | 0 <= i < |t.requests|
        ensures SoundRequest(t, t.requests[i])
      {
        assert SoundRequest(s, s.requests[i]);
        assert ContentAt(t.ledger, s.requests[i].base) == ContentAt(s.ledger, s.requests[i].base);
      }
      LedgerGrowth(s, t);
    }
  }

  lemma RestoreKeeps(s: System, content: Content)
    requires Sound(s)
    ensures Sound(Step(s, Restore(content)))
  {
    var t := Step(s, Restore(content));
    forall c | 0 <= c < |s.clients| && s.clients[c].q.phase.Uploading? && s.clients[c].sawConflict
      ensures s.clients[c].awaits < |t.requests|
      ensures t.requests[s.clients[c].awaits].outcome != Accepted
    {
      assert SoundClient(s, c);
    }
    forall i | 0 <= i < |t.requests|
      ensures SoundRequest(t, t.requests[i])
    {
      RequestUndisturbed(s, t, s.requests[i]);
    }
    LedgerGrowth(s, t);
  }

  lemma StepKeeps(s: System, e: Event)
    requires Sound(s)
    ensures Sound(Step(s, e))
    ensures Step(s, e) == s || Grows(s, Step(s, e))
  {
    match e
    case Open(v) => if v <= |s.ledger| { OpenKeeps(s, v); }
    case MakeEdit(c, _) => if c < |s.clients| { LocalEventKeeps(s, c, e); }
    case Retry(c) => if c < |s.clients| { LocalEventKeeps(s, c, e); }
    case TimerFires(c) => if c < |s.clients| { LocalEventKeeps(s, c, e); }
    case ExportSettles(c, ok, content) =>
      if c < |s.clients| {
        if ok { ExportKeeps(s, c, content); } else { LocalEventKeeps(s, c, e); }
      }
    case ServerHandles(r) => if r < |s.requests| { ServerKeeps(s, r); }
    case AnswerArrives(c) => if c < |s.clients| { AnswerKeeps(s, c); }
    case AnswerLost(c) => if c < |s.clients| { LocalEventKeeps(s, c, e); }
    case RecoverDraft(c, _) => if c < |s.clients| { LocalEventKeeps(s, c, e); }
    case Abandon(c) => if c < |s.clients| { LocalEventKeeps(s, c, e); }
    case Restore(content) => RestoreKeeps(s, content);
  }

  lemma {:induction false} RunKeeps(s: System, events: seq<Event>)
    requires Sound(s)
    ensures Sound(Run(s, events))
    decreases |events|
  {
    if events != [] {
      StepKeeps(s, events[0]);
      RunKeeps(Step(s, events[0]), events[1..]);
    }
  }

  // ---------------------------------------------------------------- the results

  /**
   * No lost update: in every run, version v + 1 came from a writer the server had acknowledged
   * version v to, and holds every edit version v held, or it is a content restored.
   */
  lemma NoLostUpdate(events: seq<Event>)
    ensures
      var s := Run(EMPTY, events);
      && |s.origins| == |s.ledger|
      && (forall v :: 0 <= v < |s.ledger| ==> SoundOrigin(s, v))
  {
    RunKeeps(EMPTY, events);
  }

  /** So an edit once accepted is in every later version up to the next restore. */
  lemma {:induction false} UploadsOnlyAdd(s: System, lo: nat, hi: nat)
    requires Sound(s) && lo <= hi <= |s.ledger|
    requires forall v :: lo <= v < hi ==> s.origins[v].Upload?
    ensures ContentAt(s.ledger, lo) <= ContentAt(s.ledger, hi)
    decreases hi
  {
    if lo < hi {
      UploadsOnlyAdd(s, lo, hi - 1);
      assert SoundOrigin(s, hi - 1);
    }
  }

  /** "Saved at v" is true: the server's version v is exactly the vault in the client's memory. */
  lemma SavedIsTrue(events: seq<Event>, c: nat)
    requires c < |Run(EMPTY, events).clients|
    ensures
      var s := Run(EMPTY, events);
      var k := s.clients[c];
      k.q.state.Saved? && !k.q.aborted ==>
        k.q.state.version <= |s.ledger| && k.local == ContentAt(s.ledger, k.q.state.version)
  {
    RunKeeps(EMPTY, events);
    assert SoundClient(Run(EMPTY, events), c);
  }

  /** A client at rest with edits, on the version the server is at, and nothing said about how it got there. */
  predicate CanSave(s: System, c: nat) {
    c < |s.clients|
    && var q := s.clients[c].q;
       !q.aborted && q.phase == Idle && q.savedRevision < q.revision && q.state.version == |s.ledger|
  }

  function SaveRound(s: System, c: nat): seq<Event>
    requires c < |s.clients|
  {
    [Retry(c), ExportSettles(c, true, s.clients[c].local), ServerHandles(|s.requests|), AnswerArrives(c)]
  }

  lemma FourSteps(s: System, a: Event, b: Event, x: Event, d: Event)
    ensures Run(s, [a, b, x, d]) == Step(Step(Step(Step(s, a), b), x), d)
  {
    assert [a, b, x, d][1..] == [b, x, d] && [b, x, d][1..] == [x, d] && [x, d][1..] == [d] && [d][1..] == [];
    var s1 := Step(s, a);
    var s2 := Step(s1, b);
    var s3 := Step(s2, x);
    assert Run(s3, [d]) == Run(Step(s3, d), []);
    assert Run(s2, [x, d]) == Run(s3, [d]);
    assert Run(s1, [b, x, d]) == Run(s2, [x, d]);
  }

  lemma ServerAccepts(s: System, r: nat)
    requires r < |s.requests| && s.requests[r].outcome == InFlight && s.requests[r].base == |s.ledger|
    ensures
      var q := s.requests[r];
      Step(s, ServerHandles(r)) ==
      s.(ledger := s.ledger + [q.content], origins := s.origins + [Upload(q.client, q.base)],
         requests := s.requests[r := q.(outcome := Accepted)])
  {
    assert |s.ledger + [s.requests[r].content]| != |s.ledger|;
  }

  /** A retry by such a client, handled and answered, makes its vault the server's next version. */
  lemma RetrySaves(s: System, c: nat)
    requires Sound(s) && CanSave(s, c)
    ensures
      var t := Run(s, SaveRound(s, c));
      && t.ledger == s.ledger + [s.clients[c].local] && c < |t.clients|
      && t.clients[c].q.state == SaveQueue.Saved(|t.ledger|) && t.clients[c].local == s.clients[c].local
  {
    var k := s.clients[c];
    var n := |s.requests|;
    assert SoundClient(s, c);
    var s1 := Step(s, Retry(c));
    RetryStartsAnUpload(k.q);
    assert s1 == With(s, c, k.(q := Save(k.q), atRevision := k.local));
    var s2 := Step(s1, ExportSettles(c, true, k.local));
    assert s2.requests == s.requests + [Request(c, |s.ledger|, k.local, InFlight)];
    ServerAccepts(s2, n);
    FourSteps(s, Retry(c), ExportSettles(c, true, k.local), ServerHandles(n), AnswerArrives(c));
  }

  function AcceptedFrom(s: System, c: nat): set<nat> {
    set r | 0 <= r < |s.requests| && s.requests[r].client == c && s.requests[r].outcome == Accepted
  }

  function RequestsFrom(s: System, c: nat): set<nat> {
    set r | 0 <= r < |s.requests| && s.requests[r].client == c
  }

  lemma StepAfterConflict(s: System, c: nat, e: Event)
    requires Sound(s) && c < |s.clients| && s.clients[c].sawConflict
    ensures c < |Step(s, e).clients| && Step(s, e).clients[c].sawConflict
    ensures AcceptedFrom(Step(s, e), c) == AcceptedFrom(s, c)
  {
    var t := Step(s, e);
    assert SoundClient(s, c);
    forall r | 0 <= r < |t.requests| && t.requests[r].client == c && t.requests[r].outcome == Accepted
      ensures r in AcceptedFrom(s, c)
    {
      if r < |s.requests| {
        assert SoundRequest(s, s.requests[r]);
      }
    }
    forall r | r in AcceptedFrom(s, c)
      ensures r in AcceptedFrom(t, c)
    {
      assert SoundRequest(s, s.requests[r]);
    }
  }

  /** A client once told of a conflict never has another upload accepted, whatever it or others do. */
  lemma {:induction false} ConflictIsFinal(s: System, c: nat, events: seq<Event>)
    requires Sound(s) && c < |s.clients| && s.clients[c].sawConflict
    ensures AcceptedFrom(Run(s, events), c) == AcceptedFrom(s, c)
    decreases |events|
  {
    if events != [] {
      StepAfterConflict(s, c, events[0]);
      StepKeeps(s, events[0]);
      ConflictIsFinal(Step(s, events[0]), c, events[1..]);
    }
  }

  /** An abandoned client sends nothing more; what is on its way can still land. */
  lemma {:induction false} AbandonedClientIsSilent(s: System, c: nat, events: seq<Event>)
    requires Sound(s) && c < |s.clients| && s.clients[c].q.aborted
    ensures RequestsFrom(Run(s, events), c) == RequestsFrom(s, c)
    decreases |events|
  {
    if events != [] {
      StepKeeps(s, events[0]);
      AbandonedClientStaysSilent(s, c, events[0]);
      AbandonedClientIsSilent(Step(s, events[0]), c, events[1..]);
    }
  }

  lemma AbandonedClientStaysSilent(s: System, c: nat, ev: Event)
    requires Sound(s) && c < |s.clients| && s.clients[c].q.aborted
    ensures c < |Step(s, ev).clients| && Step(s, ev).clients[c].q.aborted
    ensures RequestsFrom(Step(s, ev), c) == RequestsFrom(s, c)
  {
    assert SoundClient(s, c);
    forall r | 0 <= r < |Step(s, ev).requests|
      ensures r in RequestsFrom(Step(s, ev), c) <==> r in RequestsFrom(s, c)
    {
    }
  }
}
