/**
 * Three incidents a fresh install can meet, each of them the shortest run that shows it: a first
 * mark that never lands, a flush error, and a record that is adopted without having been flushed.
 */
module AuditIncidents {
  import opened AuditChain
  import opened AuditCodec
  import opened AuditStore
  import opened AuditBoot
  import opened AuditRuns
  import opened AuditRecovery

  lemma OneStep(c: Codec, m: Machine, ev: Event, rest: seq<Event>)
    requires c.Bounded()
    ensures Run(c, m, [ev] + rest) == Run(c, Step(c, m, ev), rest)
    ensures Run(c, m, [ev]) == Step(c, m, ev)
  {
    assert ([ev] + rest)[1..] == rest && [ev][1..] == [];
  }

  lemma ThreeSteps(c: Codec, m: Machine, a: Event, b: Event, d: Event)
    requires c.Bounded()
    ensures Run(c, m, [a, b, d]) == Step(c, Step(c, Step(c, m, a), b), d)
  {
    assert [a, b, d] == [a] + [b, d] && [b, d] == [b] + [d];
    OneStep(c, m, a, [b, d]);
    OneStep(c, Step(c, m, a), b, [d]);
    OneStep(c, Step(c, Step(c, m, a), b), d, []);
  }

  lemma FourSteps(c: Codec, m: Machine, a: Event, b: Event, d: Event, e: Event)
    requires c.Bounded()
    ensures Run(c, m, [a, b, d, e]) == Step(c, Step(c, Step(c, Step(c, m, a), b), d), e)
  {
    assert [a, b, d, e] == [a] + [b, d, e];
    OneStep(c, m, a, [b, d, e]);
    ThreeSteps(c, Step(c, m, a), b, d, e);
  }

  const STARTED :=
    Live(Running(Files([], NO_MARK), NO_MARK, HeadOf([])), Risk([], 0, 0, [NO_MARK]), History([], [], []))

  lemma FirstStart(c: Codec)
    requires c.Lawful()
    ensures Step(c, FRESH_INSTALL, Restart(true)) == STARTED
  {
    ReadNothing(c);
    KeptIsTrimmed(c, [], []);
    MintedLogBoots(c, FRESH_INSTALL.files, [], true);
  }

  function FirstRecord(f: Fields): Entry {
    NextEntry(HeadOf([]), f)
  }

  /** The machine once its first append has landed. */
  function AfterFirst(c: Codec, f: Fields): Machine {
    var e := FirstRecord(f);
    var mark := Anchor(1, e.hash);
    Live(Running(Files(c.Line(e), mark), mark, mark), Risk(c.Line(e), 1, 0, [NO_MARK, mark]), History([f], [], [e]))
  }

  lemma FirstLanding(c: Codec, f: Fields)
    ensures LogStep(c, STARTED, f, Lands) == AfterFirst(c, f)
  {
    assert [] + c.Line(FirstRecord(f)) == c.Line(FirstRecord(f));
  }

  lemma FirstAppend(c: Codec, f: Fields)
    requires c.Lawful()
    ensures Step(c, Step(c, FRESH_INSTALL, Restart(true)), LogCall(f, Lands)) == AfterFirst(c, f)
  {
    FirstStart(c);
    FirstLanding(c, f);
  }

  lemma FirstMark(f: Fields)
    ensures Mint([f]) == [FirstRecord(f)] && AnchorOf([f]) == HeadOf([f]) == Anchor(1, FirstRecord(f).hash)
  {
    MintStep([], f);
    ChainHashStep([], f);
    assert [] + [f] == [f];
  }

  // ---------------------------------------------------------------- the first mark

  lemma MarkIsLost(c: Codec, f: Fields)
    requires c.Bounded()
    ensures
      var m := AfterFirst(c, f);
      && LossIsPossible(c, m, PowerLoss(1, [], f, 0, 0))
      && LossStep(c, m, PowerLoss(1, [], f, 0, 0)) == Off(Files(c.Line(FirstRecord(f)), NO_MARK), m.hist)
  {
    var m, loss := AfterFirst(c, f), PowerLoss(1, [], f, 0, 0);
    assert LossIsPossible(c, m, loss);
    assert Wreck(c, m, loss).log == m.risk.synced;
  }

  /** A power loss right after the first append can take its mark, and boot is refused. */
  lemma FirstMarkCanBeMissed(c: Codec, f: Fields)
    requires c.Lawful()
    ensures
      var m := Run(c, FRESH_INSTALL, [Restart(true), LogCall(f, Lands), PowerLoss(1, [], f, 0, 0)]);
      && m.Off? && m.hist.acked == [FirstRecord(f)]
      && Read(c, m.files.log).entries == m.hist.acked
      && Boot(c, m.files, true) == Refused(m.files, NoMarkForLog)
  {
    ThreeSteps(c, FRESH_INSTALL, Restart(true), LogCall(f, Lands), PowerLoss(1, [], f, 0, 0));
    FirstAppend(c, f);
    MarkIsLost(c, f);
    LoneRecordIsRefused(c, FirstRecord(f));
  }

  /** Once the rename of that mark can no longer be undone, the window is shut. */
  lemma FirstMarkSettles(c: Codec, f: Fields)
    requires c.Lawful()
    ensures
      var events := [Restart(true), LogCall(f, Lands), Settle(1)];
      FlushesWork(events) && NothingAdopted(c, FRESH_INSTALL, events) && Marked(Run(c, FRESH_INSTALL, events))
  {
    var events := [Restart(true), LogCall(f, Lands), Settle(1)];
    ThreeSteps(c, FRESH_INSTALL, Restart(true), LogCall(f, Lands), Settle(1));
    FirstStart(c);
    FirstAppend(c, f);
    assert events[1..] == [LogCall(f, Lands), Settle(1)];
    assert [LogCall(f, Lands), Settle(1)][1..] == [Settle(1)] && [Settle(1)][1..] == [];
    var started, logged := Step(c, FRESH_INSTALL, Restart(true)), AfterFirst(c, f);
    assert NothingAdopted(c, Step(c, logged, Settle(1)), []);
    assert NothingAdopted(c, logged, [Settle(1)]);
    assert NothingAdopted(c, started, [LogCall(f, Lands), Settle(1)]);
  }

  // ---------------------------------------------------------------- a flush error

  /** A flush error is all it takes to leave a record behind that the next append will fork. */
  lemma FlushErrorLeavesARecordBehind(c: Codec, f: Fields)
    requires c.Lawful()
    ensures
      var m := Run(c, FRESH_INSTALL, [Restart(true), LogCall(f, Lands), LogCall(f, FlushFails)]);
      m.Live? && m.risk.loose == 1 && m.hist.acked == [FirstRecord(f)]
  {
    ThreeSteps(c, FRESH_INSTALL, Restart(true), LogCall(f, Lands), LogCall(f, FlushFails));
    FirstAppend(c, f);
  }

  // ---------------------------------------------------------------- a record adopted unflushed

  function SecondRecord(f: Fields, g: Fields): Entry {
    NextEntry(HeadOf([f]), g)
  }

  /** Killed between writing its second record and flushing it. */
  function KilledWriting(c: Codec, f: Fields, g: Fields): Machine {
    var m := AfterFirst(c, f);
    Killed(Files(c.Line(FirstRecord(f)) + c.Line(SecondRecord(f, g)), m.store.files.mark), m.risk,
           History([f], [g], [FirstRecord(f)]))
  }

  lemma KillWhileWriting(c: Codec, f: Fields, g: Fields)
    requires c.Lawful()
    ensures Step(c, AfterFirst(c, f), Kill(g, |c.Line(SecondRecord(f, g))|)) == KilledWriting(c, f, g)
  {
    FirstMark(f);
    var line := c.Line(SecondRecord(f, g));
    assert line[..|line|] == line;
    assert [] + [g] == [g];
  }

  lemma TwoRecords(c: Codec, f: Fields, g: Fields)
    requires c.Lawful()
    ensures Holds(c, c.Line(FirstRecord(f)) + c.Line(SecondRecord(f, g)), Mint([f, g]))
    ensures IsMarkOf([f, g], Anchor(1, FirstRecord(f).hash))
  {
    var e := FirstRecord(f);
    FirstMark(f);
    MintStep([f], g);
    assert [f] + [g] == [f, g] && [f, g][..1] == [f];
    ReadLine(c, e);
    assert c.Line(e)[|c.encode(e)|..] == [NEWLINE];
    AppendLine(c, c.Line(e), [e], SecondRecord(f, g));
  }

  lemma RestartAdopts(c: Codec, f: Fields, g: Fields)
    requires c.Lawful()
    ensures AdoptsUnflushed(c, KilledWriting(c, f, g), Restart(true))
  {
    var m := KilledWriting(c, f, g);
    TwoRecords(c, f, g);
    KeptIsTrimmed(c, m.files.log, Mint([f, g]));
    MintedLogBoots(c, m.files, [f, g], true);
  }

  /**
   * No call fails and no flush reports an error, and yet the log can be lost: a kill between the
   * write of a record and its flush, a restart that adopts the record and marks it, and a power
   * loss that keeps the mark and takes the record.
   */
  lemma AdoptedRecordCanBeLost(c: Codec, f: Fields, g: Fields) returns (events: seq<Event>, loss: Event)
    requires c.Lawful()
    ensures events == [Restart(true), LogCall(f, Lands), Kill(g, |c.Line(SecondRecord(f, g))|), Restart(true)]
    ensures FlushesWork(events) && Exposed(Run(c, FRESH_INSTALL, events))
    ensures TruncatedBy(c, Run(c, FRESH_INSTALL, events), loss)
  {
    var kill := Kill(g, |c.Line(SecondRecord(f, g))|);
    events := [Restart(true), LogCall(f, Lands), kill, Restart(true)];
    FourSteps(c, FRESH_INSTALL, Restart(true), LogCall(f, Lands), kill, Restart(true));
    AdoptionExposes(c, f, g);
    loss := ExposedLogCanBeLost(c, events);
  }

  lemma AdoptionExposes(c: Codec, f: Fields, g: Fields)
    requires c.Lawful()
    ensures
      var kill := Kill(g, |c.Line(SecondRecord(f, g))|);
      Exposed(Step(c, Step(c, Step(c, Step(c, FRESH_INSTALL, Restart(true)), LogCall(f, Lands)), kill), Restart(true)))
  {
    var m := KilledWriting(c, f, g);
    FirstAppend(c, f);
    KillWhileWriting(c, f, g);
    RestartAdopts(c, f, g);
    KilledIsSound(c, f, g);
    ExposureBegins(c, m, Restart(true));
  }

  lemma KilledIsSound(c: Codec, f: Fields, g: Fields)
    requires c.Lawful()
    ensures Sound(c, KilledWriting(c, f, g)) && !Exposed(KilledWriting(c, f, g))
  {
    var kill := Kill(g, |c.Line(SecondRecord(f, g))|);
    ThreeSteps(c, FRESH_INSTALL, Restart(true), LogCall(f, Lands), kill);
    FirstAppend(c, f);
    KillWhileWriting(c, f, g);
    FreshRunKeeps(c, [Restart(true), LogCall(f, Lands), kill]);
    TwoRecords(c, f, g);
  }
}
