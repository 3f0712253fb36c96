/**
 * What an operator can count on: which runs boot again, what they boot to, and exactly which
 * failures cost the log.
 */
module AuditRecovery {
  import opened AuditChain
  import opened AuditCodec
  import opened AuditStore
  import opened AuditBoot
  import opened AuditRuns

  // ---------------------------------------------------------------- boot after any run

  /** What can be read off the two files: enough records, a mark that counts, the last one in place. */
  predicate Recoverable(es: seq<Entry>, mark: Anchor) {
    mark.count <= |es| && (es == [] || (mark.count > 0 && es[|es| - 1].index == |es| - 1))
  }

  /** The records read extend everything counted by at most one record that was being written. */
  predicate Recovers(hist: History, es: seq<Entry>) {
    var t := Contents(es);
    && es == Mint(t)
    && hist.counted <= t
    && |t| <= |hist.counted| + 1
    && (|t| > |hist.counted| ==> t[|hist.counted|] in hist.tries)
    && AckedIn(t, hist.acked)
  }

  predicate ComesUpOn(b: BootResult, es: seq<Entry>) {
    var mark := AnchorOf(Contents(es));
    b.Up? && b.store.head == HeadOf(Contents(es)) && b.store.anchor == b.store.files.mark == mark
  }

  /**
   * Boot after any run from a fresh install, whatever failed, wherever the process was killed or
   * the power went: it comes up exactly when the log is no shorter than its mark and either empty,
   * or marked by a mark that counts something with the last record at its own position. Coming
   * up, it resumes a chain that holds every acknowledged record at its own place and nothing that
   * was not being written.
   */
  lemma RecoveryIsExact(c: Codec, events: seq<Event>)
    requires c.Lawful() && !Run(c, FRESH_INSTALL, events).Live?
    ensures
      var m := Run(c, FRESH_INSTALL, events);
      var es := Read(c, m.files.log).entries;
      var b := Boot(c, m.files, true);
      && (b.Up? <==> Recoverable(es, m.files.mark))
      && (b.Up? ==> Recovers(m.hist, es) && ComesUpOn(b, es) && Holds(c, b.store.files.log, es))
  {
    FreshRunKeeps(c, events);
    var m := Run(c, FRESH_INSTALL, events);
    if Forked(c, m) {
      UnbootableStays(c, m, true);
    } else {
      SoundRecovery(c, m);
    }
  }

  lemma SoundRecovery(c: Codec, m: Machine)
    requires c.Lawful() && !m.Live? && Sound(c, m)
    ensures
      var es := Read(c, m.files.log).entries;
      var b := Boot(c, m.files, true);
      && (b.Up? <==> Recoverable(es, m.files.mark))
      && (b.Up? ==> Recovers(m.hist, es) && ComesUpOn(b, es) && Holds(c, b.store.files.log, es))
  {
    var es := Read(c, m.files.log).entries;
    WellPlacedRecords(m.hist, es);
    if |es| < m.files.mark.count || Misplaces(es) {
      UnbootableStays(c, m, true);
    } else {
      SoundFilesBoot(c, m.files, m.hist, true);
      WellPlacedBoots(c, m.files, m.hist);
      if |es| > |m.hist.counted| {
        assert IsTry(m.hist, es[|m.hist.counted|]);
      }
    }
  }

  lemma WellPlacedBoots(c: Codec, files: Files, hist: History)
    requires c.Lawful() && SoundFiles(c, files, hist) && !Misplaces(Read(c, files.log).entries)
    ensures Boot(c, files, true).Up? <==> Read(c, files.log).entries == [] || files.mark.count > 0
  {
    var es := Read(c, files.log).entries;
    SoundFilesBoot(c, files, hist, true);
    MintedLogBoots(c, files, Contents(es), true);
  }

  // ---------------------------------------------------------------- while no flush fails

  predicate FlushesWork(events: seq<Event>) {
    forall i :: 0 <= i < |events| ==> !(events[i].LogCall? && events[i].fate == FlushFails)
  }

  /** Nothing is ever written twice at one position. */
  ghost predicate OneChain(c: Codec, m: Machine)
    requires c.Bounded()
  {
    && Sound(c, m)
    && (!m.Off? ==> m.risk.loose == 0)
    && (!m.Live? ==> !Misplaces(Read(c, m.files.log).entries))
  }

  lemma StepKeepsOneChain(c: Codec, m: Machine, ev: Event)
    requires c.Lawful() && OneChain(c, m) && !(ev.LogCall? && ev.fate == FlushFails)
    ensures OneChain(c, Step(c, m, ev))
    ensures m.Live? && Step(c, m, ev).Live? ==> m.store.anchor.count <= Step(c, m, ev).store.anchor.count
  {
    StepKeepsSound(c, m, ev);
    match ev
    case LogCall(f, fate) =>
      if m.Live? {
        LogKeepsSound(c, m, f, fate);
      }
    case Kill(_, _) =>
      if m.Live? && KillIsPossible(c, m, ev) {
        KillKeepsOneChain(c, m, ev);
      }
    case PowerLoss(_, _, _, _, _) =>
      if !m.Off? && LossIsPossible(c, m, ev) {
        LossKeepsOneChain(c, m, ev);
      }
    case Settle(_) =>
    case Restart(markSaves) =>
      if !m.Live? {
        RestartKeepsOneChain(c, m, markSaves);
      }
  }

  lemma KillKeepsOneChain(c: Codec, m: Machine, ev: Event)
    requires c.Lawful() && m.Live? && ev.Kill? && KillIsPossible(c, m, ev) && OneChain(c, m)
    ensures !Misplaces(Read(c, KillStep(c, m, ev).files.log).entries)
  {
    var on := Read(c, m.store.files.log).entries;
    assert on == on[..|on|];
    KillReads(c, m.store.files.log, on, NextEntry(m.store.head, ev.torn), ev.cut);
    NotMisplaced(m.hist.counted, ev.torn);
  }

  lemma NotMisplaced(t: seq<Fields>, f: Fields)
    ensures !Misplaces(Mint(t)) && !Misplaces(Mint(t) + [NextEntry(HeadOf(t), f)])
  {
  }

  lemma LossKeepsOneChain(c: Codec, m: Machine, ev: Event)
    requires c.Lawful() && !m.Off? && ev.PowerLoss? && LossIsPossible(c, m, ev)
    requires Sound(c, m) && m.risk.loose == 0
    ensures !Misplaces(Read(c, Wreck(c, m, ev).log).entries)
  {
    var t, r := m.hist.counted, m.risk;
    var kept := WreckReads(c, m, ev, Mint(t[..r.durable]));
    DurableAndKept(t, r.durable, ev.upTo);
    var base := t[..ev.upTo];
    var es := Mint(base) + Nexts(HeadOf(base), kept);
    if kept == [] {
      assert es == Mint(base);
    } else {
      assert Nexts(HeadOf(base), kept) == [NextEntry(HeadOf(base), kept[0])];
      NotMisplaced(base, kept[0]);
    }
  }

  lemma RestartKeepsOneChain(c: Codec, m: Machine, markSaves: bool)
    requires c.Lawful() && !m.Live? && OneChain(c, m)
    ensures
      var m' := RestartStep(c, m, markSaves);
      && (!m'.Off? ==> m'.risk.loose == 0)
      && (!m'.Live? ==> !Misplaces(Read(c, m'.files.log).entries))
  {
    if |Read(c, m.files.log).entries| < m.files.mark.count {
      UnbootableStays(c, m, markSaves);
    } else {
      SoundFilesBoot(c, m.files, m.hist, markSaves);
    }
  }

  lemma {:induction false} RunKeepsOneChain(c: Codec, m: Machine, events: seq<Event>)
    requires c.Lawful() && OneChain(c, m) && FlushesWork(events)
    ensures OneChain(c, Run(c, m, events))
    decreases |events|
  {
    if events != [] {
      StepKeepsOneChain(c, m, events[0]);
      RunKeepsOneChain(c, Step(c, m, events[0]), events[1..]);
    }
  }

  /**
   * While no flush reports an error, boot is refused in two cases and no other: the log has records
   * and the mark counts none, or the mark counts more than the log has. The second takes a power
   * loss after a restart that adopted a record nobody had flushed.
   */
  lemma TwoWaysToLoseTheLog(c: Codec, events: seq<Event>)
    requires c.Lawful() && FlushesWork(events) && !Run(c, FRESH_INSTALL, events).Live?
    ensures
      var files := Run(c, FRESH_INSTALL, events).files;
      var es := Read(c, files.log).entries;
      && (Boot(c, files, true).Up? <==> files.mark.count <= |es| && (es == [] || files.mark.count > 0))
      && (NothingAdopted(c, FRESH_INSTALL, events) ==> files.mark.count <= |es|)
  {
    FreshInstallIsSound(c);
    RunKeepsOneChain(c, FRESH_INSTALL, events);
    RecoveryIsExact(c, events);
    var m := Run(c, FRESH_INSTALL, events);
    WellPlacedRecords(m.hist, Read(c, m.files.log).entries);
    if NothingAdopted(c, FRESH_INSTALL, events) {
      OnlyAdoptionTruncates(c, events);
    }
  }

  /**
   * While it runs, the log on disk is one chain: record i carries position i, its own digest and
   * the digest before it; the head in memory is the last record on disk; and the mark on disk is
   * that of a prefix, never of more records than the log holds. So verifying it succeeds.
   */
  lemma SingleChainWhileRunning(c: Codec, events: seq<Event>)
    requires c.Lawful() && FlushesWork(events) && Run(c, FRESH_INSTALL, events).Live?
    ensures
      var m := Run(c, FRESH_INSTALL, events);
      var t := m.hist.counted;
      && Holds(c, m.store.files.log, Mint(t))
      && m.store.head == HeadOf(t) && m.store.anchor == AnchorOf(t)
      && IsMarkOf(t, m.store.files.mark)
      && AckedIn(t, m.hist.acked)
      && Verifies(c, m.store.files.log, m.store.anchor)
  {
    FreshInstallIsSound(c);
    RunKeepsOneChain(c, FRESH_INSTALL, events);
    var m := Run(c, FRESH_INSTALL, events);
    var on := Read(c, m.store.files.log).entries;
    assert on == on[..|on|];
    AllAcked(c, m.risk, m.hist.counted, m.hist.acked, m.store.files.mark);
    HonestLogVerifies(c, m.store.files.log, m.hist.counted);
  }

  // ---------------------------------------------------------------- a mark ahead of its log

  /** Some mark a power loss may leave counts more records than are durable. */
  predicate Exposed(m: Machine) {
    !m.Off? && MarksAhead(m.risk)
  }

  predicate MarksAhead(r: Risk) {
    exists i :: 0 <= i < |r.marks| && r.marks[i].count > r.durable
  }

  /** The restart of a killed process that reads more than is durable, repairs nothing and marks it. */
  ghost predicate AdoptsUnflushed(c: Codec, m: Machine, ev: Event)
    requires c.Bounded()
  {
    && m.Killed? && ev.Restart?
    && Boot(c, m.files, ev.markSaves).Up?
    && Boot(c, m.files, ev.markSaves).store.files.log == m.files.log
    && m.risk.durable < |Read(c, m.files.log).entries|
  }

  ghost predicate TruncatedBy(c: Codec, m: Machine, ev: Event)
    requires c.Bounded()
  {
    && ev.PowerLoss? && !m.Off? && LossIsPossible(c, m, ev)
    && Boot(c, Wreck(c, m, ev), true) == Refused(Wreck(c, m, ev), Truncated)
  }

  /** A power loss can leave a mark ahead of its log exactly when the machine is exposed. */
  lemma TruncationIsExposure(c: Codec, m: Machine)
    requires c.Lawful() && Sound(c, m)
    ensures Exposed(m) <==> exists ev :: TruncatedBy(c, m, ev)
  {
    if Exposed(m) {
      var i :| 0 <= i < |m.risk.marks| && m.risk.marks[i].count > m.risk.durable;
      var ev := TruncatingLoss(c, m, i);
      assert TruncatedBy(c, m, ev);
    }
    if ev :| TruncatedBy(c, m, ev) {
      LossKeepsSound(c, m, ev);
      ShortLogIsRefused(c, Wreck(c, m, ev), true);
      assert m.risk.marks[ev.mark].count > m.risk.durable;
    }
  }

  /** It takes everything that is not durable and leaves the mark that counts it. */
  lemma TruncatingLoss(c: Codec, m: Machine, i: nat) returns (ev: Event)
    requires c.Lawful() && Sound(c, m) && !m.Off?
    requires i < |m.risk.marks| && m.risk.marks[i].count > m.risk.durable
    ensures TruncatedBy(c, m, ev)
    ensures ev.PowerLoss? && ev.upTo == m.risk.durable && ev.whole == [] && ev.cut == 0 && ev.mark == i
  {
    var t, d := m.hist.counted, m.risk.durable;
    assert IsMarkOf(t, m.risk.marks[i]);
    ev := PowerLoss(d, [], t[d], 0, i);
    var kept := WreckReads(c, m, ev, Mint(t[..d]));
    assert Mint(t[..d]) + Mint(t)[d..d] + Nexts(HeadOf(t[..d]), []) == Mint(t[..d]);
    ShortLogIsRefused(c, Wreck(c, m, ev), true);
  }

  /** A machine becomes exposed by such a restart, and by nothing else. */
  lemma ExposureBegins(c: Codec, m: Machine, ev: Event)
    requires c.Lawful() && Sound(c, m) && !Exposed(m)
    ensures Exposed(Step(c, m, ev)) <==> AdoptsUnflushed(c, m, ev)
  {
    match ev
    case LogCall(f, fate) =>
      if m.Live? {
        LogExposes(c, m, f, fate);
      }
    case Restart(markSaves) =>
      if !m.Live? {
        RestartExposes(c, m, markSaves);
      }
    case Settle(n) =>
      if SettleIsPossible(m, ev) {
        SettlingExposes(m.hist.counted, m.risk, n, m.risk.marks[|m.risk.marks| - 1]);
      }
    case _ =>
  }

  /** The last mark counts most, so settling older ones changes nothing. */
  lemma SettlingExposes(t: seq<Fields>, r: Risk, n: nat, inPlace: Anchor)
    requires SoundMarks(t, r.marks, inPlace) && n < |r.marks|
    ensures MarksAhead(Settled(r, n)) <==> MarksAhead(r)
  {
    var marks := r.marks[n..];
    assert marks[|marks| - 1] == r.marks[|r.marks| - 1];
    assert forall i :: 0 <= i < |marks| ==> marks[i] == r.marks[n + i];
  }

  lemma LogExposes(c: Codec, m: Machine, f: Fields, fate: Fate)
    requires c.Lawful() && m.Live? && Sound(c, m)
    ensures Exposed(LogStep(c, m, f, fate)) <==> Exposed(m) && fate != MarkFails && fate != Lands
  {
    if fate == MarkFails || fate == Lands {
      MarksWithin(m.hist, m.risk, Read(c, m.store.files.log).entries[..|m.hist.counted|], m.store.files.mark);
      LandingShelters(c, m, f, fate);
    }
  }

  lemma LandingShelters(c: Codec, m: Machine, f: Fields, fate: Fate)
    requires m.Live? && m.store.head == HeadOf(m.hist.counted) && (fate == MarkFails || fate == Lands)
    requires forall i :: 0 <= i < |m.risk.marks| ==> m.risk.marks[i].count <= |m.hist.counted|
    requires m.store.files.mark.count <= |m.hist.counted|
    ensures !Exposed(LogStep(c, m, f, fate))
  {
  }

  lemma RestartExposes(c: Codec, m: Machine, markSaves: bool)
    requires c.Lawful() && !m.Live? && Sound(c, m)
    ensures
      var quiet := Boot(c, m.files, markSaves).After().log == m.files.log;
      Exposed(RestartStep(c, m, markSaves)) <==>
        (Exposed(m) && quiet) || AdoptsUnflushed(c, m, Restart(markSaves))
  {
    var es := Read(c, m.files.log).entries;
    WellPlacedRecords(m.hist, es);
    if |es| < m.files.mark.count || Misplaces(es) {
      UnbootableStays(c, m, markSaves);
    } else if m.Off? {
      OffExposesNothing(c, m, markSaves);
    } else {
      KilledReopens(c, m, markSaves);
    }
  }

  lemma OffExposesNothing(c: Codec, m: Machine, markSaves: bool)
    requires c.Lawful() && m.Off? && SoundFiles(c, m.files, m.hist)
    requires !Misplaces(Read(c, m.files.log).entries)
    ensures !Exposed(RestartStep(c, m, markSaves))
  {
    var es := Read(c, m.files.log).entries;
    var b := Boot(c, m.files, markSaves);
    SoundFilesBoot(c, m.files, m.hist, markSaves);
    ReopenedExposes(Risk(m.files.log, |es|, 0, [m.files.mark]), m.files, b.After(), |es|);
  }

  lemma KilledReopens(c: Codec, m: Machine, markSaves: bool)
    requires c.Lawful() && m.Killed? && SoundFiles(c, m.files, m.hist) && Sound(c, m)
    requires !Misplaces(Read(c, m.files.log).entries)
    ensures
      var quiet := Boot(c, m.files, markSaves).After().log == m.files.log;
      Exposed(RestartStep(c, m, markSaves)) <==>
        (Exposed(m) && quiet) || AdoptsUnflushed(c, m, Restart(markSaves))
  {
    var es := Read(c, m.files.log).entries;
    var b := Boot(c, m.files, markSaves);
    SoundFilesBoot(c, m.files, m.hist, markSaves);
    MarksWithin(m.hist, m.risk, es, m.files.mark);
    ReopenedExposes(m.risk, m.files, b.After(), |es|);
  }

  lemma MarksWithin(hist: History, r: Risk, es: seq<Entry>, inPlace: Anchor)
    requires SoundMarks(hist.counted, r.marks, inPlace) && |hist.counted| <= |es|
    ensures forall i :: 0 <= i < |r.marks| ==> r.marks[i].count <= |es|
  {
    forall i | 0 <= i < |r.marks|
      ensures r.marks[i].count <= |es|
    {
      assert IsMarkOf(hist.counted, r.marks[i]);
    }
  }

  lemma ReopenedExposes(r: Risk, before: Files, after: Files, records: nat)
    requires r.durable <= records && (forall i :: 0 <= i < |r.marks| ==> r.marks[i].count <= records)
    requires r.marks != [] && r.marks[|r.marks| - 1] == before.mark
    requires after.mark == before.mark || after.mark.count == records
    ensures MarksAhead(Reopened(r, before, after, records)) <==>
              after.log == before.log && (MarksAhead(r) || (after.mark != before.mark && r.durable < records))
    ensures before.mark.count == records && r.durable < records ==> MarksAhead(r)
  {
    var marks := Reopened(r, before, after, records).marks;
    assert forall i :: 0 <= i < |r.marks| ==> marks[i] == r.marks[i];
    assert marks[|marks| - 1] == after.mark;
  }

  /** It stops being exposed when a flush succeeds or the power goes, and never otherwise. */
  lemma ExposureEnds(c: Codec, m: Machine, ev: Event)
    requires c.Lawful() && Sound(c, m) && Exposed(m)
    ensures
      !Exposed(Step(c, m, ev)) <==>
      match ev
      case LogCall(_, fate) => m.Live? && (fate == MarkFails || fate == Lands)
      case Kill(_, _) => false
      case PowerLoss(_, _, _, _, _) => LossIsPossible(c, m, ev)
      case Settle(_) => false
      case Restart(markSaves) => m.Killed? && Boot(c, m.files, markSaves).After().log != m.files.log
  {
    match ev
    case LogCall(f, fate) =>
      if m.Live? {
        LogExposes(c, m, f, fate);
      }
    case Restart(markSaves) =>
      if !m.Live? {
        RestartExposes(c, m, markSaves);
        assert AdoptsUnflushed(c, m, ev) ==> Boot(c, m.files, markSaves).After().log == m.files.log;
      }
    case Settle(n) =>
      if SettleIsPossible(m, ev) {
        SettlingExposes(m.hist.counted, m.risk, n, m.risk.marks[|m.risk.marks| - 1]);
      }
    case _ =>
  }

  /** No restart in the run adopts a record that is not durable. */
  ghost predicate NothingAdopted(c: Codec, m: Machine, events: seq<Event>)
    requires c.Bounded()
    decreases |events|
  {
    events != [] ==> !AdoptsUnflushed(c, m, events[0]) && NothingAdopted(c, Step(c, m, events[0]), events[1..])
  }

  /** The mark is within the log, or the log is forked for good. */
  ghost predicate Unexposed(c: Codec, m: Machine)
    requires c.Bounded()
  {
    Forked(c, m) ||
    (Sound(c, m) && !Exposed(m) && (!m.Live? ==> m.files.mark.count <= |Read(c, m.files.log).entries|))
  }

  lemma UnexposedStays(c: Codec, m: Machine, ev: Event)
    requires c.Lawful() && Unexposed(c, m) && !AdoptsUnflushed(c, m, ev)
    ensures Unexposed(c, Step(c, m, ev))
  {
    if Forked(c, m) {
      StepKeepsForked(c, m, ev);
    } else {
      StepKeepsSound(c, m, ev);
      ExposureBegins(c, m, ev);
      match ev
      case Kill(_, _) =>
        if m.Live? && KillIsPossible(c, m, ev) {
          KillKeepsSound(c, m, ev);
        }
      case PowerLoss(_, _, _, _, _) =>
        if !m.Off? && LossIsPossible(c, m, ev) {
          LossKeepsSound(c, m, ev);
          assert m.risk.marks[ev.mark].count <= m.risk.durable;
        }
      case Restart(markSaves) =>
        if !m.Live? {
          RestartStaysWithin(c, m, markSaves);
        }
      case _ =>
    }
  }

  lemma RestartStaysWithin(c: Codec, m: Machine, markSaves: bool)
    requires c.Lawful() && !m.Live? && Sound(c, m) && m.files.mark.count <= |Read(c, m.files.log).entries|
    ensures
      var m' := RestartStep(c, m, markSaves);
      !m'.Live? ==> m'.files.mark.count <= |Read(c, m'.files.log).entries|
  {
    var es := Read(c, m.files.log).entries;
    WellPlacedRecords(m.hist, es);
    if Misplaces(es) {
      UnbootableStays(c, m, markSaves);
    } else {
      SoundFilesBoot(c, m.files, m.hist, markSaves);
    }
  }

  lemma {:induction false} UnexposedRuns(c: Codec, m: Machine, events: seq<Event>)
    requires c.Lawful() && Unexposed(c, m) && NothingAdopted(c, m, events)
    ensures Unexposed(c, Run(c, m, events))
    decreases |events|
  {
    if events != [] {
      UnexposedStays(c, m, events[0]);
      UnexposedRuns(c, Step(c, m, events[0]), events[1..]);
    }
  }

  /** Whatever fails, the mark never gets ahead of the log unless such a restart has happened. */
  lemma OnlyAdoptionTruncates(c: Codec, events: seq<Event>)
    requires c.Lawful() && NothingAdopted(c, FRESH_INSTALL, events) && !Run(c, FRESH_INSTALL, events).Live?
    ensures
      var files := Run(c, FRESH_INSTALL, events).files;
      files.mark.count <= |Read(c, files.log).entries|
  {
    FreshInstallIsSound(c);
    UnexposedRuns(c, FRESH_INSTALL, events);
  }

  /** And it always can once one has: a power loss then ends the log for good. */
  lemma ExposedLogCanBeLost(c: Codec, events: seq<Event>) returns (ev: Event)
    requires c.Lawful() && Exposed(Run(c, FRESH_INSTALL, events))
    ensures TruncatedBy(c, Run(c, FRESH_INSTALL, events), ev)
    ensures forall after, markSaves :: IsLost(c, Step(c, Run(c, FRESH_INSTALL, events), ev), after, markSaves)
  {
    var m := Run(c, FRESH_INSTALL, events);
    FreshRunKeeps(c, events);
    var i :| 0 <= i < |m.risk.marks| && m.risk.marks[i].count > m.risk.durable;
    ev := TruncatingLoss(c, m, i);
    ShortLogIsRefused(c, Wreck(c, m, ev), true);
    var lost := LossStep(c, m, ev);
    forall after, markSaves
      ensures IsLost(c, lost, after, markSaves)
    {
      LostForGood(c, lost, after, markSaves);
    }
  }

  /** Whatever happens next, boot is refused because the log is shorter than its mark. */
  ghost predicate IsLost(c: Codec, m: Machine, after: seq<Event>, markSaves: bool)
    requires c.Bounded()
  {
    var n := Run(c, m, after);
    n.Off? && Boot(c, n.files, markSaves) == Refused(n.files, Truncated)
  }

  lemma LostForGood(c: Codec, m: Machine, after: seq<Event>, markSaves: bool)
    requires c.Lawful() && m.Off? && |Read(c, m.files.log).entries| < m.files.mark.count
    ensures IsLost(c, m, after, markSaves)
  {
    TruncatedForGood(c, m, after);
    ShortLogIsRefused(c, m.files, markSaves);
  }

  lemma {:induction false} TruncatedForGood(c: Codec, m: Machine, events: seq<Event>)
    requires c.Lawful() && m.Off? && |Read(c, m.files.log).entries| < m.files.mark.count
    ensures Run(c, m, events) == m
    decreases |events|
  {
    if events != [] {
      if events[0].Restart? {
        UnbootableStays(c, m, events[0].markSaves);
      }
      TruncatedForGood(c, m, events[1..]);
    }
  }

  // ---------------------------------------------------------------- once a mark is durable

  /** Every mark a power loss may bring back counts at least one record. */
  predicate Marked(m: Machine) {
    if m.Off? then m.files.mark.count > 0
    else AllMarked(m.risk.marks)
  }

  predicate AllMarked(marks: seq<Anchor>) {
    forall i :: 0 <= i < |marks| ==> marks[i].count > 0
  }

  /** One chain, within reach of every mark, and marked. */
  ghost predicate Safe(c: Codec, m: Machine)
    requires c.Bounded()
  {
    OneChain(c, m) && Unexposed(c, m) && Marked(m)
  }

  lemma MarkedStays(c: Codec, m: Machine, ev: Event)
    requires c.Lawful() && Sound(c, m) && Marked(m)
    ensures Marked(Step(c, m, ev))
  {
    match ev
    case LogCall(f, fate) =>
      if m.Live? {
        LogIsMarked(c, m, f, fate);
      }
    case Restart(markSaves) =>
      if !m.Live? {
        VisibleIsMarked(c, m);
        MarkedRestart(c, m, markSaves);
      }
    case _ =>
  }

  lemma LogIsMarked(c: Codec, m: Machine, f: Fields, fate: Fate)
    requires m.Live? && AllMarked(m.risk.marks)
    ensures AllMarked(LogStep(c, m, f, fate).risk.marks)
  {
  }

  lemma VisibleIsMarked(c: Codec, m: Machine)
    requires c.Bounded() && !m.Live? && Sound(c, m) && Marked(m)
    ensures m.files.mark.count > 0
  {
  }

  lemma MarkedRestart(c: Codec, m: Machine, markSaves: bool)
    requires c.Bounded() && !m.Live? && Marked(m) && m.files.mark.count > 0
    ensures Marked(RestartStep(c, m, markSaves))
  {
    BootKeepsMarked(c, m.files, markSaves);
    if m.Killed? {
      ReopenedMarked(m.risk, m.files, Boot(c, m.files, markSaves).After(), |Read(c, m.files.log).entries|);
    }
  }

  lemma ReopenedMarked(r: Risk, before: Files, after: Files, records: nat)
    requires AllMarked(r.marks) && after.mark.count > 0
    ensures AllMarked(Reopened(r, before, after, records).marks)
  {
  }

  /** Boot takes a mark that counts something to one that does. */
  lemma BootKeepsMarked(c: Codec, files: Files, markSaves: bool)
    requires c.Bounded() && files.mark.count > 0
    ensures Boot(c, files, markSaves).After().mark.count > 0
  {
  }

  lemma SafeStays(c: Codec, m: Machine, ev: Event)
    requires c.Lawful() && Safe(c, m) && !(ev.LogCall? && ev.fate == FlushFails) && !AdoptsUnflushed(c, m, ev)
    ensures Safe(c, Step(c, m, ev))
  {
    StepKeepsOneChain(c, m, ev);
    UnexposedStays(c, m, ev);
    MarkedStays(c, m, ev);
  }

  lemma {:induction false} SafeRuns(c: Codec, m: Machine, events: seq<Event>)
    requires c.Lawful() && Safe(c, m) && FlushesWork(events) && NothingAdopted(c, m, events)
    ensures Safe(c, Run(c, m, events))
    decreases |events|
  {
    if events != [] {
      SafeStays(c, m, events[0]);
      SafeRuns(c, Step(c, m, events[0]), events[1..]);
    }
  }

  /**
   * Once every mark a power loss may bring back counts a record, and as long as no flush reports an
   * error and no restart adopts an unflushed record, every boot comes up, after any torn writes, failed
   * marks, kills and power losses, on a chain that holds every acknowledged record in its place.
   */
  lemma MarkedLogAlwaysBoots(c: Codec, before: seq<Event>, events: seq<Event>)
    requires c.Lawful() && FlushesWork(before) && FlushesWork(events)
    requires NothingAdopted(c, FRESH_INSTALL, before) && Marked(Run(c, FRESH_INSTALL, before))
    requires NothingAdopted(c, Run(c, FRESH_INSTALL, before), events)
    requires !Run(c, Run(c, FRESH_INSTALL, before), events).Live?
    ensures
      var m := Run(c, Run(c, FRESH_INSTALL, before), events);
      var es := Read(c, m.files.log).entries;
      ComesUpOn(Boot(c, m.files, true), es) && Recovers(m.hist, es)
  {
    var m := Run(c, FRESH_INSTALL, before);
    FreshInstallIsSound(c);
    RunKeepsOneChain(c, FRESH_INSTALL, before);
    UnexposedRuns(c, FRESH_INSTALL, before);
    SafeRuns(c, m, events);
    SafeBoots(c, Run(c, m, events));
  }

  lemma SafeBoots(c: Codec, m: Machine)
    requires c.Lawful() && Safe(c, m) && !m.Live?
    ensures
      var es := Read(c, m.files.log).entries;
      ComesUpOn(Boot(c, m.files, true), es) && Recovers(m.hist, es)
  {
    WellPlacedRecords(m.hist, Read(c, m.files.log).entries);
    SoundRecovery(c, m);
  }

  // ---------------------------------------------------------------- a fork

  /**
   * A flush error is not rolled back as a write error is. One later append that succeeds in the
   * same process puts two records at one position, and from then on no boot ever succeeds,
   * whatever happens next.
   */
  lemma AppendAfterFlushErrorForksForGood(
    c: Codec, before: seq<Event>, f: Fields, fate: Fate, after: seq<Event>, markSaves: bool)
    requires c.Lawful() && (fate == Lands || fate == MarkFails)
    requires
      var m := Run(c, FRESH_INSTALL, before);
      m.Live? && m.risk.loose > 0
    ensures
      var m := Run(c, Step(c, Run(c, FRESH_INSTALL, before), LogCall(f, fate)), after);
      !m.Live? ==> Boot(c, m.files, markSaves).Refused?
  {
    FreshRunKeeps(c, before);
    var m := Run(c, FRESH_INSTALL, before);
    if Sound(c, m) {
      LogForks(c, m, f, fate);
    } else {
      LogKeepsForked(c, m, f, fate);
    }
    var forked := Step(c, m, LogCall(f, fate));
    RunKeepsForked(c, forked, after);
    if !Run(c, forked, after).Live? {
      UnbootableStays(c, Run(c, forked, after), markSaves);
    }
  }
}
