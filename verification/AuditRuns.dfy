/**
 * Runs of the audit store: appends that fail in every way the disk lets them, a process killed
 * at any byte of a write while the machine stays up, power lost with anything unflushed, and
 * restarts after either.
 */
module AuditRuns {
  import opened Wrappers
  import opened AuditChain
  import opened Collections
  import opened AuditCodec
  import opened AuditStore
  import opened AuditBoot

  /**
   * What a run has done. `counted` are the tuples the chain counts, `tries` those written at its
   * head since, `acked` the records whose Log call returned no error.
   */
  datatype History = History(counted: seq<Fields>, tries: seq<Fields>, acked: seq<Entry>)

  /**
   * What the disk alone knows: the bytes of the log no power loss can take, how many counted
   * records they hold, how many tries lie whole behind the counted ones, and the renames of the
   * mark a power loss may still undo, oldest first.
   */
  datatype Risk = Risk(synced: Bytes, durable: nat, loose: nat, marks: seq<Anchor>)

  /** Without power everything there is, is durable; a killed process leaves what it wrote. */
  datatype Machine =
    | Off(files: Files, hist: History)
    | Killed(files: Files, risk: Risk, hist: History)
    | Live(store: Running, risk: Risk, hist: History)

  /** A kill and a power loss may each cut the record being written, `torn`, after any byte. */
  datatype Event =
    | LogCall(f: Fields, fate: Fate)
    | Kill(torn: Fields, cut: nat)
    | PowerLoss(upTo: nat, whole: seq<Fields>, torn: Fields, cut: nat, mark: nat)
    | Settle(n: nat)      // the first `n` of the marks at risk can come back no more
    | Restart(markSaves: bool)

  const FRESH_INSTALL := Off(Files([], NO_MARK), History([], [], []))

  function Nexts(head: Anchor, fs: seq<Fields>): seq<Entry> {
    seq(|fs|, i requires 0 <= i < |fs| => NextEntry(head, fs[i]))
  }

  function Attempted(hist: History, torn: Fields, cut: nat): History {
    hist.(tries := if cut == 0 then hist.tries else hist.tries + [torn])
  }

  function LogStep(c: Codec, m: Machine, f: Fields, fate: Fate): Machine
    requires m.Live?
  {
    var (store, result) := Append(c, m.store, f, fate);
    var acked := if result.Logged? then m.hist.acked + [result.entry] else m.hist.acked;
    var tried := History(m.hist.counted, m.hist.tries + [f], acked);
    match fate
    case WriteFails => Live(store, m.risk, tried)
    case FlushFails => Live(store, m.risk.(loose := m.risk.loose + 1), tried)
    case _ =>
      Live(store,
           Risk(store.files.log, |m.hist.counted| + 1, 0,
                if store.files.mark == m.store.files.mark then m.risk.marks else m.risk.marks + [store.files.mark]),
           History(m.hist.counted + [f], [], acked))
  }

  /** Whatever the record being written, a kill or a power loss may cut it after any byte. */
  lemma EveryCutHappens(c: Codec, m: Machine, f: Fields, cut: nat, i: nat)
    requires m.Live? && m.store.head == HeadOf(m.hist.counted) && m.risk.durable <= |m.hist.counted|
    requires cut <= |c.Line(NextEntry(m.store.head, f))| && i < |m.risk.marks|
    ensures KillIsPossible(c, m, Kill(f, cut))
    ensures LossIsPossible(c, m, PowerLoss(|m.hist.counted|, [], f, cut, i))
  {
    assert m.hist.counted[..|m.hist.counted|] == m.hist.counted;
  }

  predicate KillIsPossible(c: Codec, m: Machine, ev: Event)
    requires m.Live? && ev.Kill?
  {
    ev.cut <= |c.Line(NextEntry(m.store.head, ev.torn))|
  }

  function KillStep(c: Codec, m: Machine, ev: Event): Machine
    requires m.Live? && ev.Kill? && KillIsPossible(c, m, ev)
  {
    var log := m.store.files.log + c.Line(NextEntry(m.store.head, ev.torn))[..ev.cut];
    Killed(m.store.files.(log := log), m.risk, Attempted(m.hist, ev.torn, ev.cut))
  }

  /**
   * A power loss leaves the counted records up to `upTo`; then, if those are all, some whole tries;
   * then a cut of one record more; and one of the marks.
   */
  predicate LossIsPossible(c: Codec, m: Machine, ev: Event)
    requires !m.Off? && ev.PowerLoss?
  {
    var t := m.hist.counted;
    && ev.mark < |m.risk.marks|
    && m.risk.durable <= ev.upTo <= |t|
    && ev.cut <= |c.Line(NextEntry(HeadOf(t[..ev.upTo]), ev.torn))|
    && if ev.upTo < |t| then ev.whole == [] && ev.torn == t[ev.upTo]
       else
         && |ev.whole| <= m.risk.loose && (forall f :: f in ev.whole ==> f in m.hist.tries)
         && (m.Killed? && ev.cut > 0 ==> ev.torn in m.hist.tries)
  }

  function Wreck(c: Codec, m: Machine, ev: Event): Files
    requires !m.Off? && ev.PowerLoss? && LossIsPossible(c, m, ev)
  {
    var t := m.hist.counted;
    var head := HeadOf(t[..ev.upTo]);
    Files(
      m.risk.synced + c.Lines(Mint(t)[m.risk.durable..ev.upTo]) + c.Lines(Nexts(head, ev.whole))
      + c.Line(NextEntry(head, ev.torn))[..ev.cut],
      m.risk.marks[ev.mark])
  }

  ghost function LossStep(c: Codec, m: Machine, ev: Event): Machine
    requires c.Bounded() && !m.Off? && ev.PowerLoss? && LossIsPossible(c, m, ev)
  {
    var files := Wreck(c, m, ev);
    Off(files,
        if ev.upTo < |m.hist.counted| then History(Contents(Read(c, files.log).entries), [], m.hist.acked)
        else Attempted(m.hist, ev.torn, ev.cut))
  }

  function Settled(r: Risk, n: nat): Risk
    requires n < |r.marks|
  {
    r.(marks := r.marks[n..])
  }

  predicate SettleIsPossible(m: Machine, ev: Event)
    requires ev.Settle?
  {
    !m.Off? && ev.n < |m.risk.marks|
  }

  /** A repair flushes the whole log it leaves. A boot that repairs nothing flushes nothing. */
  function Reopened(r: Risk, before: Files, after: Files, records: nat): Risk {
    Risk(if after.log == before.log then r.synced else after.log,
         if after.log == before.log then r.durable else records,
         0,
         if after.mark == before.mark then r.marks else r.marks + [after.mark])
  }

  ghost function RestartStep(c: Codec, m: Machine, markSaves: bool): Machine
    requires c.Bounded() && !m.Live?
  {
    var b := Boot(c, m.files, markSaves);
    var found := Contents(Read(c, m.files.log).entries);
    var before := if m.Off? then Risk(m.files.log, |found|, 0, [m.files.mark]) else m.risk;
    var risk := Reopened(before, m.files, b.After(), |found|);
    match b
    case Refused(files, _) =>
      if m.Off? then Off(files, m.hist)
      else if files.log == m.files.log then Killed(files, m.risk, m.hist)
      else Killed(files, risk, History(found, [], m.hist.acked))
    case Up(store) => Live(store, risk, History(found, [], m.hist.acked))
  }

  /** Events that cannot happen where the machine is leave it alone. */
  ghost function Step(c: Codec, m: Machine, ev: Event): Machine
    requires c.Bounded()
  {
    match ev
    case LogCall(f, fate) => if m.Live? then LogStep(c, m, f, fate) else m
    case Kill(_, _) => if m.Live? && KillIsPossible(c, m, ev) then KillStep(c, m, ev) else m
    case PowerLoss(_, _, _, _, _) => if !m.Off? && LossIsPossible(c, m, ev) then LossStep(c, m, ev) else m
    case Settle(n) => if SettleIsPossible(m, ev) then m.(risk := Settled(m.risk, n)) else m
    case Restart(markSaves) => if m.Live? then m else RestartStep(c, m, markSaves)
  }

  ghost function Run(c: Codec, m: Machine, events: seq<Event>): Machine
    requires c.Bounded()
    decreases |events|
  {
    if events == [] then m else Run(c, Step(c, m, events[0]), events[1..])
  }

  // ---------------------------------------------------------------- what every run keeps

  predicate IsTry(hist: History, e: Entry) {
    e == NextEntry(HeadOf(hist.counted), e.fields) && e.fields in hist.tries
  }

  /** The records on disk: the counted history, then records written at its head and not counted. */
  predicate Records(hist: History, es: seq<Entry>) {
    && |hist.counted| <= |es|
    && es[..|hist.counted|] == Mint(hist.counted)
    && (forall j :: |hist.counted| <= j < |es| ==> IsTry(hist, es[j]))
  }

  predicate AckedIn(history: seq<Fields>, acked: seq<Entry>) {
    forall a :: a in acked ==> 0 <= a.index < |history| && a == EntryAt(history, a.index)
  }

  /** Every mark a power loss may bring back is the mark of a prefix, longer and longer; the last one is in place. */
  predicate SoundMarks(t: seq<Fields>, marks: seq<Anchor>, inPlace: Anchor) {
    && marks != [] && marks[|marks| - 1] == inPlace
    && (forall i :: 0 <= i < |marks| ==> IsMarkOf(t, marks[i]))
    && (forall i, j :: 0 <= i <= j < |marks| ==> marks[i].count <= marks[j].count)
  }

  /** The durable bytes hold a prefix of the history, and every acknowledged record is in it. */
  ghost predicate SoundRisk(c: Codec, r: Risk, t: seq<Fields>, acked: seq<Entry>, inPlace: Anchor)
    requires c.Bounded()
  {
    && r.durable <= |t|
    && Holds(c, r.synced, Mint(t[..r.durable]))
    && AckedIn(t[..r.durable], acked)
    && SoundMarks(t, r.marks, inPlace)
  }

  ghost predicate SoundLog(c: Codec, log: Bytes, hist: History)
    requires c.Bounded()
  {
    var r := Read(c, log);
    Records(hist, r.entries) && Trim(log, r.end).Ok?
  }

  ghost predicate SoundFiles(c: Codec, files: Files, hist: History)
    requires c.Bounded()
  {
    SoundLog(c, files.log, hist) && IsMarkOf(hist.counted, files.mark) && AckedIn(hist.counted, hist.acked)
  }

  /** After a power loss the mark may count more than is left; otherwise it is that of a prefix. */
  ghost predicate SoundOff(c: Codec, files: Files, hist: History)
    requires c.Bounded()
  {
    && SoundLog(c, files.log, hist) && AckedIn(hist.counted, hist.acked)
    && (files.mark.count <= |Read(c, files.log).entries| ==> IsMarkOf(hist.counted, files.mark))
  }

  ghost predicate SoundLive(c: Codec, m: Machine)
    requires c.Bounded() && m.Live?
  {
    var t, log := m.hist.counted, m.store.files.log;
    && m.store.head == HeadOf(t) && m.store.anchor == AnchorOf(t)
    && Holds(c, log, Read(c, log).entries) && Records(m.hist, Read(c, log).entries)
    && |Read(c, log).entries| == |t| + m.risk.loose
    && SoundRisk(c, m.risk, t, m.hist.acked, m.store.files.mark)
  }

  ghost predicate Sound(c: Codec, m: Machine)
    requires c.Bounded()
  {
    match m
    case Off(files, hist) => SoundOff(c, files, hist)
    case Killed(files, risk, hist) =>
      SoundFiles(c, files, hist) && SoundRisk(c, risk, hist.counted, hist.acked, files.mark)
    case Live(_, _, _) => SoundLive(c, m)
  }

  /** Two records at one position, out of any mark's reach. */
  predicate ForkedLog(es: seq<Entry>, mark: Anchor) {
    Misplaces(es) && mark.count < |es|
  }

  /** And durable: no power loss takes either of them. */
  ghost predicate ForkedRisk(c: Codec, r: Risk, t: seq<Fields>)
    requires c.Bounded()
  {
    var safe := Read(c, r.synced).entries;
    && Holds(c, r.synced, safe) && Misplaces(safe) && |t| < |safe| && r.durable == |t|
    && (forall i :: 0 <= i < |r.marks| ==> r.marks[i].count <= |t|)
  }

  ghost predicate ForkedLive(c: Codec, m: Machine)
    requires c.Bounded() && m.Live?
  {
    var t := m.hist.counted;
    var on := Read(c, m.store.files.log).entries;
    && m.store.head == HeadOf(t) && m.store.anchor.count <= |t| && m.store.files.mark.count <= |t|
    && Holds(c, m.store.files.log, on) && Misplaces(on) && |t| < |on|
    && ForkedRisk(c, m.risk, t)
  }

  ghost predicate Forked(c: Codec, m: Machine)
    requires c.Bounded()
  {
    match m
    case Off(files, hist) => ForkedLog(Read(c, files.log).entries, files.mark)
    case Killed(files, risk, hist) =>
      ForkedLog(Read(c, files.log).entries, files.mark) && ForkedRisk(c, risk, hist.counted)
    case Live(_, _, _) => ForkedLive(c, m)
  }

  // ---------------------------------------------------------------- histories growing

  lemma MarksSurviveGrowth(t: seq<Fields>, more: seq<Fields>, mark: Anchor)
    requires IsMarkOf(t, mark)
    ensures IsMarkOf(t + more, mark)
  {
    assert (t + more)[..mark.count] == t[..mark.count];
  }

  lemma MarksSurviveLoss(t: seq<Fields>, n: nat, mark: Anchor)
    requires IsMarkOf(t, mark) && mark.count <= n <= |t|
    ensures IsMarkOf(t[..n], mark)
  {
    assert t[..n][..mark.count] == t[..mark.count];
  }

  lemma AckedSurviveGrowth(t: seq<Fields>, more: seq<Fields>, acked: seq<Entry>)
    requires AckedIn(t, acked)
    ensures AckedIn(t + more, acked)
  {
    MintPrefix(t, more);
    forall a | a in acked
      ensures 0 <= a.index < |t| && a == EntryAt(t + more, a.index)
    {
      assert Mint(t + more)[a.index] == Mint(t)[a.index];
    }
  }

  lemma AckedInPrefix(t: seq<Fields>, n: nat, k: nat, acked: seq<Entry>)
    requires n <= k <= |t| && AckedIn(t[..n], acked)
    ensures AckedIn(t[..k], acked)
  {
    assert t[..k] == t[..n] + t[n..k];
    AckedSurviveGrowth(t[..n], t[n..k], acked);
  }

  lemma RiskSurvivesGrowth(c: Codec, r: Risk, t: seq<Fields>, more: seq<Fields>, acked: seq<Entry>, inPlace: Anchor)
    requires c.Bounded() && SoundRisk(c, r, t, acked, inPlace)
    ensures SoundRisk(c, r, t + more, acked, inPlace)
  {
    assert (t + more)[..r.durable] == t[..r.durable];
    forall i | 0 <= i < |r.marks|
      ensures IsMarkOf(t + more, r.marks[i])
    {
      MarksSurviveGrowth(t, more, r.marks[i]);
    }
  }

  lemma MarkLands(t: seq<Fields>, marks: seq<Anchor>, inPlace: Anchor)
    requires SoundMarks(t, marks, inPlace)
    ensures IsMarkOf(t, AnchorOf(t)) && SoundMarks(t, marks + [AnchorOf(t)], AnchorOf(t))
  {
    assert t[..|t|] == t;
  }

  /** Once the log is flushed, the whole history is durable. */
  lemma FlushedIsSound(c: Codec, log: Bytes, t: seq<Fields>, acked: seq<Entry>, marks: seq<Anchor>, inPlace: Anchor)
    requires c.Bounded() && Holds(c, log, Mint(t)) && AckedIn(t, acked) && SoundMarks(t, marks, inPlace)
    ensures SoundRisk(c, Risk(log, |t|, 0, marks), t, acked, inPlace)
  {
    assert t[..|t|] == t;
  }

  lemma AllAcked(c: Codec, r: Risk, t: seq<Fields>, acked: seq<Entry>, inPlace: Anchor)
    requires c.Bounded() && SoundRisk(c, r, t, acked, inPlace)
    ensures AckedIn(t, acked) && IsMarkOf(t, inPlace)
  {
    AckedInPrefix(t, r.durable, |t|, acked);
    assert t[..|t|] == t;
  }

  lemma {:induction false} AppendLines(c: Codec, file: Bytes, es: seq<Entry>, more: seq<Entry>)
    requires c.Lawful() && Holds(c, file, es)
    ensures Holds(c, file + c.Lines(more), es + more)
    decreases |more|
  {
    if more == [] {
      assert file + c.Lines(more) == file && es + more == es;
    } else {
      var n := |more| - 1;
      AppendLines(c, file, es, more[..n]);
      AppendLine(c, file + c.Lines(more[..n]), es + more[..n], more[n]);
      Assoc(file, c.Lines(more[..n]), c.Line(more[n]));
      Assoc(es, more[..n], [more[n]]);
      assert more[..n] + [more[n]] == more;
    }
  }

  lemma WellPlacedRecords(hist: History, es: seq<Entry>)
    requires Records(hist, es)
    ensures es == [] || Misplaces(es) || es[|es| - 1].index == |es| - 1
    ensures !Misplaces(es) ==> |es| <= |hist.counted| + 1
    ensures !Misplaces(es) ==> es == Mint(Contents(es)) && hist.counted <= Contents(es)
    ensures Misplaces(es) ==> |es| > |hist.counted|
  {
    var t, n := hist.counted, |es|;
    if n > |t| {
      assert IsTry(hist, es[n - 1]);
    } else if n > 0 {
      assert es[n - 1] == es[..n][n - 1] == Mint(t)[n - 1];
    }
    if n == |t| {
      assert es == es[..n] == Mint(t);
      assert Contents(es) == t;
    } else if n == |t| + 1 {
      assert es == es[..|t|] + [es[|t|]];
      MintStep(t, es[|t|].fields);
      assert Contents(es) == t + [es[|t|].fields];
    }
  }

  lemma AllCounted(t: seq<Fields>, acked: seq<Entry>)
    ensures Records(History(t, [], acked), Mint(t)) && Contents(Mint(t)) == t
  {
    assert Mint(t)[..|t|] == Mint(t);
  }

  // ---------------------------------------------------------------- appends

  lemma TriesGrow(hist: History, on: seq<Entry>, f: Fields)
    requires Records(hist, on)
    ensures
      var more := hist.(tries := hist.tries + [f]);
      Records(more, on) && Records(more, on + [NextEntry(HeadOf(hist.counted), f)])
  {
    var more := hist.(tries := hist.tries + [f]);
    var longer := on + [NextEntry(HeadOf(hist.counted), f)];
    assert longer[..|hist.counted|] == on[..|hist.counted|];
    forall j | |hist.counted| <= j < |longer|
      ensures IsTry(more, longer[j])
    {
      assert j < |on| ==> IsTry(hist, on[j]);
    }
  }

  lemma LogKeepsSound(c: Codec, m: Machine, f: Fields, fate: Fate)
    requires c.Lawful() && m.Live? && SoundLive(c, m)
    requires m.risk.loose == 0 || !(fate == MarkFails || fate == Lands)
    ensures SoundLive(c, LogStep(c, m, f, fate))
  {
    if fate == MarkFails || fate == Lands {
      LandingKeepsSound(c, m, f, fate);
    } else {
      var on := Read(c, m.store.files.log).entries;
      TriesGrow(m.hist, on, f);
      AppendLine(c, m.store.files.log, on, NextEntry(m.store.head, f));
    }
  }

  lemma FlushGrows(t: seq<Fields>, f: Fields, acked: seq<Entry>)
    requires AckedIn(t, acked)
    ensures
      var longer := t + [f];
      var e := NextEntry(HeadOf(t), f);
      && Mint(longer) == Mint(t) + [e]
      && Anchor(|t| + 1, e.hash) == HeadOf(longer) == AnchorOf(longer)
      && AckedIn(longer, acked + [e])
      && AckedIn(longer, acked)
  {
    MintStep(t, f);
    ChainHashStep(t, f);
    AckedSurviveGrowth(t, [f], acked);
    assert Mint(t + [f])[|t|] == NextEntry(HeadOf(t), f);
  }

  lemma MarksGrow(t: seq<Fields>, f: Fields, marks: seq<Anchor>, inPlace: Anchor)
    requires SoundMarks(t, marks, inPlace)
    ensures SoundMarks(t + [f], marks, inPlace)
    ensures SoundMarks(t + [f], marks + [AnchorOf(t + [f])], AnchorOf(t + [f]))
    ensures inPlace != AnchorOf(t + [f])
  {
    forall i | 0 <= i < |marks|
      ensures IsMarkOf(t + [f], marks[i])
    {
      MarksSurviveGrowth(t, [f], marks[i]);
    }
    MarkLands(t + [f], marks, inPlace);
    assert IsMarkOf(t, inPlace);
  }

  lemma LandingKeepsSound(c: Codec, m: Machine, f: Fields, fate: Fate)
    requires c.Lawful() && m.Live? && SoundLive(c, m) && m.risk.loose == 0
    requires fate == MarkFails || fate == Lands
    ensures SoundLive(c, LogStep(c, m, f, fate))
  {
    var t, r := m.hist.counted, m.risk;
    var on := Read(c, m.store.files.log).entries;
    var m' := LogStep(c, m, f, fate);
    AllAcked(c, r, t, m.hist.acked, m.store.files.mark);
    FlushGrows(t, f, m.hist.acked);
    MarksGrow(t, f, r.marks, m.store.files.mark);
    assert on == on[..|on|] == Mint(t);
    AppendLine(c, m.store.files.log, on, NextEntry(m.store.head, f));
    AllCounted(t + [f], m'.hist.acked);
    FlushedIsSound(c, m'.store.files.log, t + [f], m'.hist.acked, m'.risk.marks, m'.store.files.mark);
  }

  /** One append that lands behind an unflushed record forks the log. */
  lemma LogForks(c: Codec, m: Machine, f: Fields, fate: Fate)
    requires c.Lawful() && m.Live? && SoundLive(c, m)
    requires m.risk.loose > 0 && (fate == MarkFails || fate == Lands)
    ensures ForkedLive(c, LogStep(c, m, f, fate))
  {
    var t := m.hist.counted;
    var on := Read(c, m.store.files.log).entries;
    AllAcked(c, m.risk, t, m.hist.acked, m.store.files.mark);
    FlushGrows(t, f, m.hist.acked);
    MarksGrow(t, f, m.risk.marks, m.store.files.mark);
    LandedTwice(c, m.store.files.log, on, NextEntry(HeadOf(t), f));
  }

  lemma LandedTwice(c: Codec, log: Bytes, on: seq<Entry>, e: Entry)
    requires c.Lawful() && Holds(c, log, on) && e.index < |on|
    ensures Holds(c, log + c.Line(e), on + [e]) && Misplaces(on + [e])
  {
    AppendLine(c, log, on, e);
  }

  lemma LogKeepsForked(c: Codec, m: Machine, f: Fields, fate: Fate)
    requires c.Lawful() && m.Live? && ForkedLive(c, m)
    ensures ForkedLive(c, LogStep(c, m, f, fate))
  {
    if fate == FlushFails {
      LandedTwice(c, m.store.files.log, Read(c, m.store.files.log).entries, NextEntry(m.store.head, f));
    } else if fate != WriteFails {
      LandingKeepsForked(c, m, f, fate);
    }
  }

  lemma LandingKeepsForked(c: Codec, m: Machine, f: Fields, fate: Fate)
    requires c.Lawful() && m.Live? && ForkedLive(c, m) && (fate == MarkFails || fate == Lands)
    ensures ForkedLive(c, LogStep(c, m, f, fate))
  {
    var t := m.hist.counted;
    var on := Read(c, m.store.files.log).entries;
    var m', e := LogStep(c, m, f, fate), NextEntry(HeadOf(t), f);
    LandedTwice(c, m.store.files.log, on, e);
    LandedHead(t, f);
    ForkIsFlushed(c, m.store.files.log + c.Line(e), on + [e], t + [f], m'.risk.marks);
  }

  lemma LandedHead(t: seq<Fields>, f: Fields)
    ensures Anchor(|t| + 1, NextEntry(HeadOf(t), f).hash) == HeadOf(t + [f])
  {
    ChainHashStep(t, f);
  }

  lemma ForkIsFlushed(c: Codec, log: Bytes, on: seq<Entry>, t: seq<Fields>, marks: seq<Anchor>)
    requires c.Bounded() && Holds(c, log, on) && Misplaces(on) && |t| < |on|
    requires forall i :: 0 <= i < |marks| ==> marks[i].count <= |t|
    ensures ForkedRisk(c, Risk(log, |t|, 0, marks), t)
  {
  }

  // ---------------------------------------------------------------- kills

  /** What a write cut short leaves behind a clean log. */
  lemma KillReads(c: Codec, log: Bytes, on: seq<Entry>, e: Entry, cut: nat)
    requires c.Lawful() && Holds(c, log, on) && cut <= |c.Line(e)|
    ensures
      var after := log + c.Line(e)[..cut];
      && Trim(after, Read(c, after).end).Ok?
      && (Read(c, after).entries == on || (cut > 0 && Read(c, after).entries == on + [e]))
  {
    TornAppend(c, log, on, e, c.Line(e)[..cut]);
    assert c.RoundTrips(e) && c.Bounded();
  }

  lemma KillKeepsSound(c: Codec, m: Machine, ev: Event)
    requires c.Lawful() && m.Live? && ev.Kill? && KillIsPossible(c, m, ev) && SoundLive(c, m)
    ensures Sound(c, KillStep(c, m, ev))
  {
    var on := Read(c, m.store.files.log).entries;
    KillReads(c, m.store.files.log, on, NextEntry(m.store.head, ev.torn), ev.cut);
    TriesGrow(m.hist, on, ev.torn);
    AllAcked(c, m.risk, m.hist.counted, m.hist.acked, m.store.files.mark);
  }

  lemma KillKeepsForked(c: Codec, m: Machine, ev: Event)
    requires c.Lawful() && m.Live? && ev.Kill? && KillIsPossible(c, m, ev) && ForkedLive(c, m)
    ensures Forked(c, KillStep(c, m, ev))
  {
    var on := Read(c, m.store.files.log).entries;
    KillReads(c, m.store.files.log, on, NextEntry(m.store.head, ev.torn), ev.cut);
  }

  // ---------------------------------------------------------------- power losses

  /** A wreck reads as what was durable, the counted records kept, and some of what came after. */
  lemma WreckReads(c: Codec, m: Machine, ev: Event, safe: seq<Entry>) returns (kept: seq<Fields>)
    requires c.Lawful() && !m.Off? && ev.PowerLoss? && LossIsPossible(c, m, ev)
    requires Holds(c, m.risk.synced, safe)
    ensures
      var log := Wreck(c, m, ev).log;
      && Read(c, log).entries ==
         safe + Mint(m.hist.counted)[m.risk.durable..ev.upTo] + Nexts(HeadOf(m.hist.counted[..ev.upTo]), kept)
      && Trim(log, Read(c, log).end).Ok?
    ensures kept == ev.whole || (ev.cut > 0 && kept == ev.whole + [ev.torn])
  {
    var head := HeadOf(m.hist.counted[..ev.upTo]);
    var counted, whole := Mint(m.hist.counted)[m.risk.durable..ev.upTo], Nexts(head, ev.whole);
    var e := NextEntry(head, ev.torn);
    AppendLines(c, m.risk.synced, safe, counted);
    AppendLines(c, m.risk.synced + c.Lines(counted), safe + counted, whole);
    KillReads(c, m.risk.synced + c.Lines(counted) + c.Lines(whole), safe + counted + whole, e, ev.cut);
    kept := ev.whole;
    if Read(c, Wreck(c, m, ev).log).entries != safe + counted + whole {
      kept := ev.whole + [ev.torn];
      NextsAppend(safe + counted, head, ev.whole, ev.torn);
    }
  }

  lemma NextsAppend(before: seq<Entry>, head: Anchor, fs: seq<Fields>, f: Fields)
    ensures before + Nexts(head, fs) + [NextEntry(head, f)] == before + Nexts(head, fs + [f])
  {
    assert Nexts(head, fs + [f]) == Nexts(head, fs) + [NextEntry(head, f)];
    Assoc(before, Nexts(head, fs), [NextEntry(head, f)]);
  }

  lemma DurableAndKept(t: seq<Fields>, durable: nat, upTo: nat)
    requires durable <= upTo <= |t|
    ensures Mint(t[..durable]) + Mint(t)[durable..upTo] == Mint(t[..upTo])
  {
    MintPrefix(t[..durable], t[durable..]);
    MintPrefix(t[..upTo], t[upTo..]);
    assert t[..durable] + t[durable..] == t && t[..upTo] + t[upTo..] == t;
  }

  lemma KeptAreTries(hist: History, kept: seq<Fields>)
    requires forall f :: f in kept ==> f in hist.tries
    ensures Records(hist, Mint(hist.counted) + Nexts(HeadOf(hist.counted), kept))
  {
    var t := hist.counted;
    var es := Mint(t) + Nexts(HeadOf(t), kept);
    assert es[..|t|] == Mint(t);
    forall j | |t| <= j < |es|
      ensures IsTry(hist, es[j])
    {
      assert es[j] == NextEntry(HeadOf(t), kept[j - |t|]);
    }
  }

  /** Cut among the counted records, what is left is again the honest log of a prefix. */
  lemma CutAmongCounted(t: seq<Fields>, upTo: nat, kept: seq<Fields>)
    requires upTo < |t| && (kept == [] || kept == [t[upTo]])
    ensures
      var es := Mint(t[..upTo]) + Nexts(HeadOf(t[..upTo]), kept);
      |es| <= |t| && es == Mint(t[..|es|]) && Contents(es) == t[..|es|] && |es| >= upTo
  {
    var head := HeadOf(t[..upTo]);
    if kept == [] {
      assert Mint(t[..upTo]) + Nexts(head, kept) == Mint(t[..upTo]);
      AllCounted(t[..upTo], []);
    } else {
      MintStep(t[..upTo], t[upTo]);
      assert Nexts(head, kept) == [NextEntry(head, t[upTo])];
      assert t[..upTo] + [t[upTo]] == t[..upTo + 1];
      AllCounted(t[..upTo + 1], []);
    }
  }

  lemma LossKeepsSound(c: Codec, m: Machine, ev: Event)
    requires c.Lawful() && !m.Off? && ev.PowerLoss? && LossIsPossible(c, m, ev) && Sound(c, m)
    ensures Sound(c, LossStep(c, m, ev))
    ensures |Read(c, Wreck(c, m, ev).log).entries| >= ev.upTo
  {
    var t, r := m.hist.counted, m.risk;
    var kept := WreckReads(c, m, ev, Mint(t[..r.durable]));
    DurableAndKept(t, r.durable, ev.upTo);
    assert IsMarkOf(t, r.marks[ev.mark]);
    if ev.upTo < |t| {
      CutAmongCounted(t, ev.upTo, kept);
      var n := |Read(c, Wreck(c, m, ev).log).entries|;
      AllCounted(t[..n], m.hist.acked);
      AckedInPrefix(t, r.durable, n, m.hist.acked);
      if r.marks[ev.mark].count <= n {
        MarksSurviveLoss(t, n, r.marks[ev.mark]);
      }
    } else {
      assert t[..ev.upTo] == t;
      KeptAreTries(Attempted(m.hist, ev.torn, ev.cut), kept);
      AckedInPrefix(t, r.durable, |t|, m.hist.acked);
    }
  }

  lemma KeptAreMisplaced(safe: seq<Entry>, head: Anchor, kept: seq<Fields>)
    requires Misplaces(safe) && head.count < |safe|
    ensures Misplaces(safe + Nexts(head, kept))
  {
    var es := safe + Nexts(head, kept);
    if kept == [] {
      assert es == safe;
    } else {
      assert es[|es| - 1] == NextEntry(head, kept[|kept| - 1]);
    }
  }

  lemma LossKeepsForked(c: Codec, m: Machine, ev: Event)
    requires c.Lawful() && !m.Off? && ev.PowerLoss? && LossIsPossible(c, m, ev) && Forked(c, m)
    ensures Forked(c, LossStep(c, m, ev))
  {
    var t, safe := m.hist.counted, Read(c, m.risk.synced).entries;
    var kept := WreckReads(c, m, ev, safe);
    assert safe + Mint(t)[|t|..|t|] == safe && t[..|t|] == t;
    KeptAreMisplaced(safe, HeadOf(t), kept);
  }

  lemma SettleKeepsSound(c: Codec, m: Machine, n: nat)
    requires c.Bounded() && Sound(c, m) && !m.Off? && n < |m.risk.marks|
    ensures Sound(c, m.(risk := Settled(m.risk, n)))
  {
  }

  lemma SettleKeepsForked(c: Codec, m: Machine, n: nat)
    requires c.Bounded() && Forked(c, m) && !m.Off? && n < |m.risk.marks|
    ensures Forked(c, m.(risk := Settled(m.risk, n)))
  {
  }

  // ---------------------------------------------------------------- restarts

  /** What a restart reads extends what was counted, so marks and acknowledgements stay true of it. */
  lemma Adopted(hist: History, t: seq<Fields>, mark: Anchor)
    requires hist.counted <= t && IsMarkOf(hist.counted, mark) && AckedIn(hist.counted, hist.acked)
    ensures IsMarkOf(t, mark) && AckedIn(t, hist.acked) && IsMarkOf(t, AnchorOf(t))
    ensures mark == AnchorOf(t) || mark.count < |t|
    ensures Records(History(t, [], hist.acked), Mint(t))
  {
    var more := t[|hist.counted|..];
    assert t == hist.counted + more;
    MarksSurviveGrowth(hist.counted, more, mark);
    AckedSurviveGrowth(hist.counted, more, hist.acked);
    AllCounted(t, hist.acked);
    assert t[..|t|] == t;
  }

  /** Boot on sound files none of whose records is misplaced adopts every record there is. */
  predicate Adopts(hist: History, es: seq<Entry>, before: Files, b: BootResult) {
    var t := Contents(es);
    && es == Mint(t) && hist.counted <= t && IsMarkOf(t, before.mark) && AckedIn(t, hist.acked)
    && IsMarkOf(t, AnchorOf(t)) && Records(History(t, [], hist.acked), es)
    && match b
       case Up(store) => store == Running(Files(store.files.log, AnchorOf(t)), AnchorOf(t), HeadOf(t))
       case Refused(files, _) => files.mark == before.mark
  }

  lemma SoundFilesBoot(c: Codec, files: Files, hist: History, markSaves: bool)
    requires c.Lawful() && SoundFiles(c, files, hist) && !Misplaces(Read(c, files.log).entries)
    ensures
      var es := Read(c, files.log).entries;
      var b := Boot(c, files, markSaves);
      && Adopts(hist, es, files, b)
      && (b.Up? || b.After().log != files.log ==> Holds(c, b.After().log, es))
  {
    var r := Read(c, files.log);
    var t := Contents(r.entries);
    WellPlacedRecords(hist, r.entries);
    Adopted(hist, t, files.mark);
    MintedLogBoots(c, files, t, markSaves);
    TrimIsExact(c, files.log);
  }

  /** What a boot leaves at risk of what it found. */
  lemma ReopenedIsSound(c: Codec, r: Risk, hist: History, before: Files, after: Files, es: seq<Entry>)
    requires c.Lawful() && SoundRisk(c, r, hist.counted, hist.acked, before.mark)
    requires es == Mint(Contents(es)) && hist.counted <= Contents(es)
    requires after.log != before.log ==> Holds(c, after.log, es)
    requires after.mark == before.mark || after.mark == AnchorOf(Contents(es))
    ensures SoundRisk(c, Reopened(r, before, after, |es|), Contents(es), hist.acked, after.mark)
  {
    var t := Contents(es);
    assert t == hist.counted + t[|hist.counted|..];
    RiskSurvivesGrowth(c, r, hist.counted, t[|hist.counted|..], hist.acked, before.mark);
    AllAcked(c, r, t, hist.acked, before.mark);
    MarkLands(t, r.marks, before.mark);
    if after.log != before.log {
      FlushedIsSound(c, after.log, t, hist.acked, Reopened(r, before, after, |es|).marks, after.mark);
    }
  }

  lemma KilledRestarts(c: Codec, m: Machine, markSaves: bool)
    requires c.Lawful() && m.Killed? && Sound(c, m) && !Misplaces(Read(c, m.files.log).entries)
    ensures Sound(c, RestartStep(c, m, markSaves))
  {
    var es := Read(c, m.files.log).entries;
    var b := Boot(c, m.files, markSaves);
    SoundFilesBoot(c, m.files, m.hist, markSaves);
    ReopenedIsSound(c, m.risk, m.hist, m.files, b.After(), es);
    if b.After().log != m.files.log {
      KeptIsTrimmed(c, b.After().log, es);
    }
  }

  lemma OffRestarts(c: Codec, m: Machine, markSaves: bool)
    requires c.Lawful() && m.Off? && SoundFiles(c, m.files, m.hist) && !Misplaces(Read(c, m.files.log).entries)
    ensures Sound(c, RestartStep(c, m, markSaves))
  {
    var es := Read(c, m.files.log).entries;
    var b := Boot(c, m.files, markSaves);
    SoundFilesBoot(c, m.files, m.hist, markSaves);
    if b.Up? {
      var t := Contents(es);
      var log, marks := b.store.files.log, RestartStep(c, m, markSaves).risk.marks;
      MarkLands(t, [m.files.mark], m.files.mark);
      FlushedIsSound(c, log, t, m.hist.acked, marks, b.store.files.mark);
    } else if b.files.log != m.files.log {
      KeptIsTrimmed(c, b.files.log, es);
    }
  }

  /** Sound files that misplace a record, or a mark ahead of its log: refused, and left as they are. */
  lemma UnbootableStays(c: Codec, m: Machine, markSaves: bool)
    requires c.Lawful() && !m.Live?
    requires
      var es := Read(c, m.files.log).entries;
      ForkedLog(es, m.files.mark) || |es| < m.files.mark.count
    ensures RestartStep(c, m, markSaves) == m
    ensures Boot(c, m.files, markSaves).Refused?
  {
    if |Read(c, m.files.log).entries| < m.files.mark.count {
      ShortLogIsRefused(c, m.files, markSaves);
    } else {
      MisplacedLogIsRefused(c, m.files, markSaves);
    }
  }

  lemma RestartKeepsSound(c: Codec, m: Machine, markSaves: bool)
    requires c.Lawful() && !m.Live? && Sound(c, m)
    ensures Sound(c, RestartStep(c, m, markSaves))
  {
    var es := Read(c, m.files.log).entries;
    WellPlacedRecords(m.hist, es);
    if |es| < m.files.mark.count || Misplaces(es) {
      UnbootableStays(c, m, markSaves);
    } else if m.Off? {
      OffRestarts(c, m, markSaves);
    } else {
      KilledRestarts(c, m, markSaves);
    }
  }

  // ---------------------------------------------------------------- steps and runs

  lemma StepKeepsSound(c: Codec, m: Machine, ev: Event)
    requires c.Lawful() && Sound(c, m)
    ensures Sound(c, Step(c, m, ev)) || Forked(c, Step(c, m, ev))
    ensures !(m.Live? && m.risk.loose > 0 && ev.LogCall?) ==> Sound(c, Step(c, m, ev))
  {
    match ev
    case LogCall(f, fate) =>
      if m.Live? {
        if m.risk.loose > 0 && (fate == MarkFails || fate == Lands) {
          LogForks(c, m, f, fate);
        } else {
          LogKeepsSound(c, m, f, fate);
        }
      }
    case Kill(_, _) =>
      if m.Live? && KillIsPossible(c, m, ev) {
        KillKeepsSound(c, m, ev);
      }
    case PowerLoss(_, _, _, _, _) =>
      if !m.Off? && LossIsPossible(c, m, ev) {
        LossKeepsSound(c, m, ev);
      }
    case Settle(n) =>
      if SettleIsPossible(m, ev) {
        SettleKeepsSound(c, m, n);
      }
    case Restart(markSaves) =>
      if !m.Live? {
        RestartKeepsSound(c, m, markSaves);
      }
  }

  lemma StepKeepsForked(c: Codec, m: Machine, ev: Event)
    requires c.Lawful() && Forked(c, m)
    ensures Forked(c, Step(c, m, ev))
  {
    match ev
    case LogCall(f, fate) =>
      if m.Live? {
        LogKeepsForked(c, m, f, fate);
      }
    case Kill(_, _) =>
      if m.Live? && KillIsPossible(c, m, ev) {
        KillKeepsForked(c, m, ev);
      }
    case PowerLoss(_, _, _, _, _) =>
      if !m.Off? && LossIsPossible(c, m, ev) {
        LossKeepsForked(c, m, ev);
      }
    case Settle(n) =>
      if SettleIsPossible(m, ev) {
        SettleKeepsForked(c, m, n);
      }
    case Restart(markSaves) =>
      if !m.Live? {
        UnbootableStays(c, m, markSaves);
      }
  }

  lemma {:induction false} RunKeepsForked(c: Codec, m: Machine, events: seq<Event>)
    requires c.Lawful() && Forked(c, m)
    ensures Forked(c, Run(c, m, events))
    decreases |events|
  {
    if events != [] {
      StepKeepsForked(c, m, events[0]);
      RunKeepsForked(c, Step(c, m, events[0]), events[1..]);
    }
  }

  lemma {:induction false} RunKeeps(c: Codec, m: Machine, events: seq<Event>)
    requires c.Lawful() && Sound(c, m)
    ensures Sound(c, Run(c, m, events)) || Forked(c, Run(c, m, events))
    decreases |events|
  {
    if events != [] {
      StepKeepsSound(c, m, events[0]);
      if Sound(c, Step(c, m, events[0])) {
        RunKeeps(c, Step(c, m, events[0]), events[1..]);
      } else {
        RunKeepsForked(c, Step(c, m, events[0]), events[1..]);
      }
    }
  }

  lemma FreshInstallIsSound(c: Codec)
    requires c.Lawful()
    ensures Sound(c, FRESH_INSTALL) && Read(c, []).entries == []
  {
    ReadNothing(c);
  }

  lemma FreshRunKeeps(c: Codec, events: seq<Event>)
    requires c.Lawful()
    ensures Sound(c, Run(c, FRESH_INSTALL, events)) || Forked(c, Run(c, FRESH_INSTALL, events))
  {
    FreshInstallIsSound(c);
    RunKeeps(c, FRESH_INSTALL, events);
  }
}
