/**
 * The client's save queue, one per unlocked vault.
 *
 * `save` is asynchronous; between two awaits it runs alone, so its body is cut at its awaits
 * and `phase` says at which of them it is suspended. Listeners do not call back into the queue.
 */
module SaveQueue {

  datatype SaveState =
    | Saved(version: nat)
    | Saving(version: nat)
    | Failed(version: nat, conflict: bool)

  datatype Phase =
    | Idle
    | Exporting(upTo: nat)            // awaiting the export; `upTo` is the revision it started at
    | Uploading(upTo: nat, base: nat) // awaiting the server's answer to an upload against `base`

  datatype Queue = Queue(revision: nat, savedRevision: nat, phase: Phase, timer: bool,
                         aborted: bool, state: SaveState)

  /** What the server or the network made of an upload. */
  datatype Answer = Confirmed(version: nat) | Rejected409 | Lost

  function New(version: nat): Queue {
    Queue(0, 0, Idle, false, false, Saved(version))
  }

  function RecoverUnsaved(q: Queue): Queue {
    q.(revision := q.revision + 1, state := Failed(q.state.version, false))
  }

  function Changed(q: Queue): Queue {
    if q.aborted then q
    else
      var more := q.(revision := q.revision + 1);
      if q.state.Failed? || q.phase != Idle then more
      else more.(state := Saving(q.state.version), timer := true)
  }

  /** save(), up to its first await; also what a timer that fires runs. */
  function Save(q: Queue): Queue {
    var still := q.(timer := false);
    if q.aborted || q.phase != Idle || q.revision == q.savedRevision then still
    else Loop(still.(state := Saving(q.state.version)))
  }

  /** The head of the loop: another round, or done. */
  function Loop(q: Queue): Queue {
    q.(phase := if q.savedRevision < q.revision then Exporting(q.revision) else Idle)
  }

  /** The export settles: the upload begins, or the loop is left. */
  function Exported(q: Queue, ok: bool): Queue
    requires q.phase.Exporting?
  {
    if q.aborted then q.(phase := Idle)
    else if ok then q.(phase := Uploading(q.phase.upTo, q.state.version))
    else q.(phase := Idle, state := Failed(q.state.version, false))
  }

  /** The upload settles. An answer that does not confirm a newer version counts as a failure. */
  function Answered(q: Queue, a: Answer): Queue
    requires q.phase.Uploading?
  {
    if q.aborted then q.(phase := Idle)
    else if a.Confirmed? && a.version > q.phase.base then
      var saved := q.(savedRevision := q.phase.upTo);
      Loop(saved.(state := if saved.savedRevision == q.revision then Saved(a.version) else Saving(a.version)))
    else q.(phase := Idle, state := Failed(q.state.version, a == Rejected409))
  }

  function Discard(q: Queue): Queue {
    q.(timer := false, aborted := true)
  }

  datatype Event =
    | EChanged | ESave | ETimer | EExported(ok: bool) | EAnswered(a: Answer) | ERecover | EDiscard

  /** One segment between awaits; what cannot happen leaves the queue alone. */
  function Step(q: Queue, e: Event): Queue {
    match e
    case EChanged => Changed(q)
    case ESave => Save(q)
    case ETimer => if q.timer then Save(q) else q
    case EExported(ok) => if q.phase.Exporting? then Exported(q, ok) else q
    case EAnswered(a) => if q.phase.Uploading? then Answered(q, a) else q
    case ERecover => RecoverUnsaved(q)
    case EDiscard => Discard(q)
  }

  function Run(q: Queue, events: seq<Event>): Queue
    decreases |events|
  {
    if events == [] then q else Run(Step(q, events[0]), events[1..])
  }

  // ---------------------------------------------------------------- what every run keeps

  /** An edit not yet confirmed is being uploaded, waits for a timer, or the state says so. */
  predicate NotStranded(q: Queue) {
    !q.aborted && q.savedRevision < q.revision ==> q.phase != Idle || q.timer || q.state.Failed?
  }

  predicate Consistent(q: Queue) {
    && q.savedRevision <= q.revision
    && (q.phase != Idle ==> q.savedRevision < q.phase.upTo <= q.revision)
    && (q.phase.Uploading? ==> q.phase.base == q.state.version)
    && (q.aborted ==> !q.timer)
    && (q.state.Saved? <==> q.savedRevision == q.revision)
    && (q.state.Saved? ==> q.phase == Idle)
    && NotStranded(q)
  }

  lemma {:induction false} NoEditIsStranded(version: nat, events: seq<Event>)
    ensures Consistent(Run(New(version), events))
  {
    ConsistentRuns(New(version), events);
  }

  lemma {:induction false} ConsistentRuns(q: Queue, events: seq<Event>)
    requires Consistent(q)
    ensures Consistent(Run(q, events))
    decreases |events|
  {
    if events != [] {
      ConsistentRuns(Step(q, events[0]), events[1..]);
    }
  }

  /** No event starts an upload unless the queue is live, and nothing revives a discarded one. */
  lemma {:induction false} DiscardIsFinal(q: Queue, events: seq<Event>)
    requires Consistent(q) && q.aborted
    ensures
      var later := Run(q, events);
      && later.aborted && !later.timer
      && later.savedRevision == q.savedRevision
      && (later.phase == q.phase || later.phase == Idle)
      && (ERecover !in events ==> later.state == q.state && later.revision == q.revision)
    decreases |events|
  {
    if events != [] {
      DiscardIsFinal(Step(q, events[0]), events[1..]);
    }
  }

  /** A discarded queue changes what it shows exactly when a draft is recovered into it. */
  lemma DiscardedQueueIsSilent(q: Queue, e: Event)
    requires Consistent(q) && q.aborted
    ensures Step(q, e).state != q.state <==> e == ERecover && q.state != Failed(q.state.version, false)
  {
  }

  // ---------------------------------------------------------------- what can always be done

  /** In a live, idle queue with an unconfirmed edit a retry starts an upload, whatever the state. */
  lemma RetryStartsAnUpload(q: Queue)
    requires !q.aborted && q.phase == Idle && q.savedRevision < q.revision
    ensures Save(q) == q.(phase := Exporting(q.revision), state := Saving(q.state.version), timer := false)
  {
  }

  /** An export that settles and an answer that confirms the latest revision. */
  function OneRound(version: nat): seq<Event> {
    [EExported(true), EAnswered(Confirmed(version))]
  }

  /** What brings a live queue to rest: an answer to the upload under way, a retry, another round. */
  function Completion(q: Queue): seq<Event> {
    var v := q.state.version;
    match q.phase
    case Idle => if q.savedRevision == q.revision then [] else [ESave] + OneRound(v + 1)
    case Exporting(upTo) => OneRound(v + 1) + if upTo == q.revision then [] else OneRound(v + 2)
    case Uploading(upTo, _) => [EAnswered(Confirmed(v + 1))] + if upTo == q.revision then [] else OneRound(v + 2)
  }

  lemma RunOne(q: Queue, e: Event, rest: seq<Event>)
    ensures Run(q, [e] + rest) == Run(Step(q, e), rest)
  {
    assert ([e] + rest)[1..] == rest;
  }

  lemma RoundSaves(q: Queue, version: nat, rest: seq<Event>)
    requires !q.aborted && q.phase.Exporting? && version > q.state.version
    ensures
      var p := q.(phase := Uploading(q.phase.upTo, q.state.version));
      Run(q, OneRound(version) + rest) == Run(Answered(p, Confirmed(version)), rest)
  {
    var answer := EAnswered(Confirmed(version));
    assert OneRound(version) + rest == [EExported(true)] + ([answer] + rest);
    RunOne(q, EExported(true), [answer] + rest);
    RunOne(Step(q, EExported(true)), answer, rest);
  }

  /** A confirming answer ends in Saved if nothing changed meanwhile, and otherwise in another round. */
  lemma ConfirmedMovesOn(q: Queue, version: nat)
    requires Consistent(q) && !q.aborted && q.phase.Uploading? && version > q.phase.base
    ensures
      var r := Answered(q, Confirmed(version));
      && r.savedRevision == q.phase.upTo && r.state.version == version && r.revision == q.revision && !r.aborted
      && (q.phase.upTo == q.revision ==> r.state == Saved(version) && r.phase == Idle)
      && (q.phase.upTo < q.revision ==> r.state == Saving(version) && r.phase == Exporting(q.revision))
  {
  }

  /** From any live state a queue can be at, a retry and two rounds at most save every edit. */
  lemma EveryEditCanBeSaved(version: nat, events: seq<Event>)
    requires !Run(New(version), events).aborted
    ensures
      var q := Run(New(version), events);
      AtRest(Run(q, Completion(q)), q.revision)
  {
    NoEditIsStranded(version, events);
    LiveQueueSettles(Run(New(version), events));
  }

  predicate AtRest(r: Queue, revision: nat) {
    r.state.Saved? && r.savedRevision == r.revision == revision && r.phase == Idle
  }

  lemma LiveQueueSettles(q: Queue)
    requires Consistent(q) && !q.aborted
    ensures AtRest(Run(q, Completion(q)), q.revision)
  {
    match q.phase
    case Idle => IdleSettles(q);
    case Exporting(_) => ExportingSettles(q);
    case Uploading(_, _) => UploadingSettles(q);
  }

  lemma IdleSettles(q: Queue)
    requires Consistent(q) && !q.aborted && q.phase == Idle
    ensures AtRest(Run(q, Completion(q)), q.revision)
  {
    if q.savedRevision < q.revision {
      RunOne(q, ESave, OneRound(q.state.version + 1));
      LastRound(Save(q), q.state.version + 1);
    }
  }

  lemma ExportingSettles(q: Queue)
    requires Consistent(q) && !q.aborted && q.phase.Exporting?
    ensures AtRest(Run(q, Completion(q)), q.revision)
  {
    var v := q.state.version;
    RoundSaves(q, v + 1, if q.phase.upTo == q.revision then [] else OneRound(v + 2));
    SecondRound(q.(phase := Uploading(q.phase.upTo, v)));
  }

  lemma UploadingSettles(q: Queue)
    requires Consistent(q) && !q.aborted && q.phase.Uploading?
    ensures AtRest(Run(q, Completion(q)), q.revision)
  {
    var answer := EAnswered(Confirmed(q.state.version + 1));
    var more := if q.phase.upTo == q.revision then [] else OneRound(q.state.version + 2);
    assert Completion(q) == [answer] + more;
    RunOne(q, answer, more);
    assert Step(q, answer) == Answered(q, answer.a);
    SecondRound(q);
  }

  /** A round for the latest revision. */
  lemma LastRound(q: Queue, version: nat)
    requires !q.aborted && q.phase == Exporting(q.revision) && version > q.state.version
    ensures AtRest(Run(q, OneRound(version)), q.revision)
  {
    RoundSaves(q, version, []);
    assert OneRound(version) + [] == OneRound(version);
  }

  lemma SecondRound(q: Queue)
    requires Consistent(q) && !q.aborted && q.phase.Uploading?
    ensures
      var more := if q.phase.upTo == q.revision then [] else OneRound(q.state.version + 2);
      AtRest(Run(Answered(q, Confirmed(q.state.version + 1)), more), q.revision)
  {
    var v := q.state.version;
    ConfirmedMovesOn(q, v + 1);
    if q.phase.upTo < q.revision {
      LastRound(Answered(q, Confirmed(v + 1)), v + 2);
    }
  }

  // ---------------------------------------------------------------- the queue itself

  class VaultSaveQueue {
    var revision: nat
    var savedRevision: nat
    var running: bool
    var timer: bool
    var aborted: bool
    var state: SaveState
    var pending: Phase    // where the running save is suspended, with its locals

    ghost predicate Valid()
      reads this
    {
      running <==> pending != Idle
    }

    function Now(): Queue
      reads this
    {
      Queue(revision, savedRevision, pending, timer, aborted, state)
    }

    constructor (version: nat)
      ensures Valid() && Now() == New(version)
    {
      revision, savedRevision := 0, 0;
      running, timer, aborted := false, false, false;
      pending := Idle;
      state := Saved(version);
    }

    method RecoverDraft()
      requires Valid()
      modifies this`revision, this`state
      ensures Valid() && Now() == RecoverUnsaved(old(Now()))
      ensures revision == old(revision) + 1 && state == Failed(old(state.version), false)
    {
      revision := revision + 1;
      state := Failed(state.version, false);
    }

    method OnChanged()
      requires Valid()
      modifies this`revision, this`state, this`timer
      ensures Valid() && Now() == Changed(old(Now()))
      ensures revision == if aborted then old(revision) else old(revision) + 1
      ensures !aborted && !running && !old(state.Failed?) ==> timer && state == Saving(old(state.version))
      ensures aborted || running || old(state.Failed?) ==> timer == old(timer) && state == old(state)
    {
      if aborted {
        return;
      }
      revision := revision + 1;
      if state.Failed? || running {
        return;
      }
      state := Saving(state.version);
      timer := true;
    }

    method StartSave()
      requires Valid()
      requires savedRevision <= revision
      modifies this
      ensures Valid() && Now() == Save(old(Now()))
      ensures !timer && revision == old(revision) && savedRevision == old(savedRevision)
      ensures !aborted && !old(running) && savedRevision < revision ==>
        running && pending == Exporting(revision) && state == Saving(old(state.version))
      ensures aborted || old(running) || revision == savedRevision ==> pending == old(pending) && state == old(state)
    {
      timer := false;
      if aborted || running || revision == savedRevision {
        return;
      }
      running := true;
      state := Saving(state.version);
      NextRound();
    }

    method NextRound()
      requires running
      modifies this`pending, this`running
      ensures Valid() && Now() == Loop(old(Now()))
    {
      if savedRevision < revision {
        pending := Exporting(revision);
      } else {
        Leave();
      }
    }

    /** The finally block. */
    method Leave()
      modifies this`pending, this`running
      ensures pending == Idle && !running
    {
      pending := Idle;
      running := false;
    }

    method OnExported(ok: bool)
      requires Valid() && pending.Exporting?
      modifies this
      ensures Valid() && Now() == Exported(old(Now()), ok)
      ensures !aborted && ok ==> pending == Uploading(old(pending.upTo), state.version) && state == old(state)
      ensures !aborted && !ok ==> pending == Idle && state == Failed(old(state.version), false)
      ensures aborted ==> pending == Idle && state == old(state)
    {
      if aborted {
        Leave();
      } else if ok {
        pending := Uploading(pending.upTo, state.version);
      } else {
        state := Failed(state.version, false);
        Leave();
      }
    }

    method OnAnswer(a: Answer)
      requires Valid() && pending.Uploading?
      modifies this
      ensures Valid() && Now() == Answered(old(Now()), a)
      ensures aborted ==> pending == Idle && state == old(state) && savedRevision == old(savedRevision)
      ensures !aborted && a.Confirmed? && a.version > old(pending.base) ==>
        && savedRevision == old(pending.upTo) && state.version == a.version
        && (savedRevision == revision ==> state == Saved(a.version) && pending == Idle)
        && (savedRevision < revision ==> state == Saving(a.version) && pending == Exporting(revision))
      ensures !aborted && !(a.Confirmed? && a.version > old(pending.base)) ==>
        && savedRevision == old(savedRevision) && pending == Idle
        && state == Failed(old(state.version), a == Rejected409)
    {
      if aborted {
        Leave();
        return;
      }
      if a.Confirmed? && a.version > pending.base {
        savedRevision := pending.upTo;
        state := if savedRevision == revision then Saved(a.version) else Saving(a.version);
        NextRound();
        return;
      }
      state := Failed(state.version, a == Rejected409);
      Leave();
    }

    method OnDiscard()
      requires Valid()
      modifies this`timer, this`aborted
      ensures Valid() && Now() == Discard(old(Now()))
      ensures aborted && !timer
    {
      timer := false;
      aborted := true;
    }
  }
}
