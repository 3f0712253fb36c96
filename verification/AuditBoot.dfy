/**
 * What boot makes of a pair of files: of any bytes at all beside the mark of a true history, of
 * an honest log beside the mark of one of its prefixes, and of a log in the retired format.
 */
module AuditBoot {
  import opened Wrappers
  import opened Collections
  import opened AuditChain
  import opened AuditCodec
  import opened AuditStore

  predicate IsMarkOf(history: seq<Fields>, mark: Anchor) {
    mark.count <= |history| && mark == AnchorOf(history[..mark.count])
  }

  /** The last record claims an earlier position than the one it is found at. */
  predicate Misplaces(es: seq<Entry>) {
    es != [] && es[|es| - 1].index < |es| - 1
  }

  // ---------------------------------------------------------------- any log beside a true mark

  /** Resumed at the digest of the history extended by exactly the records past it. */
  predicate ResumesTheHistory(history: seq<Fields>, es: seq<Entry>, store: Running) {
    && 0 < |history| <= |es|
    && store.head == store.anchor == store.files.mark == AnchorOf(Continued(history, es))
    && es[|history|..] == Mint(Continued(history, es))[|history|..]
    && es[|es| - 1] == EntryAt(Continued(history, es), |es| - 1)
  }

  /**
   * Reconciliation is sound against anyone who can write the log: if the mark is the digest of a
   * true history and boot comes up, the chain resumes at the digest of that history extended by
   * exactly the records found past the mark, each of them minted at its own place.
   */
  lemma BootIsSound(c: Codec, files: Files, history: seq<Fields>, markSaves: bool)
    requires c.Lawful() && history != [] && files.mark == AnchorOf(history)
    requires Boot(c, files, markSaves).Up?
    ensures ResumesTheHistory(history, Read(c, files.log).entries, Boot(c, files, markSaves).store)
    ensures Read(c, Boot(c, files, markSaves).store.files.log).entries == Read(c, files.log).entries
  {
    var r := Read(c, files.log);
    var trimmed := Trim(files.log, r.end);
    TrueMarkBoots(c, files, history, markSaves);
    EntriesBootSoundly(files, r.entries, trimmed, history, markSaves);
    TrimKeepsTheRecords(c, files.log);
  }

  lemma TrueMarkBoots(c: Codec, files: Files, history: seq<Fields>, markSaves: bool)
    requires c.Bounded() && history != [] && files.mark == AnchorOf(history)
    ensures
      var r := Read(c, files.log);
      Boot(c, files, markSaves) == BootEntries(files, r.entries, Trim(files.log, r.end), markSaves)
  {
    TrueMarkIsNotConverted(Read(c, files.log).entries, history);
  }

  lemma TrimKeepsTheRecords(c: Codec, log: Bytes)
    requires c.Lawful() && Trim(log, Read(c, log).end).Ok?
    ensures Read(c, Trim(log, Read(c, log).end).value).entries == Read(c, log).entries
  {
    TrimIsExact(c, log);
  }

  lemma EntriesBootSoundly(
    files: Files, es: seq<Entry>, trimmed: Result<Bytes, TrimError>, history: seq<Fields>, markSaves: bool)
    requires history != [] && files.mark == AnchorOf(history)
    requires BootEntries(files, es, trimmed, markSaves).Up?
    ensures trimmed.Ok? && BootEntries(files, es, trimmed, markSaves).store.files.log == trimmed.value
    ensures ResumesTheHistory(history, es, BootEntries(files, es, trimmed, markSaves).store)
  {
    PlacedOnTrueMark(es, history);
  }

  lemma TrueMarkIsNotConverted(es: seq<Entry>, history: seq<Fields>)
    requires history != []
    ensures !Converts(es, AnchorOf(history))
  {
    assert LegacyChainVerifies(es) && es != [] ==> LegacyAt(es, |es| - 1);
  }

  lemma PlacedOnTrueMark(es: seq<Entry>, history: seq<Fields>)
    requires history != []
    requires PlaceTail(es, AnchorOf(history)).Ok?
    requires es != [] ==> Resumes(es[|es| - 1], PlaceTail(es, AnchorOf(history)).value)
    ensures |history| <= |es|
    ensures PlaceTail(es, AnchorOf(history)).value == AnchorOf(Continued(history, es))
    ensures es[|history|..] == Mint(Continued(history, es))[|history|..]
    ensures es[|es| - 1] == EntryAt(Continued(history, es), |es| - 1)
  {
    PlaceTailAcceptsContinuations(es, history);
    var n, t := |es|, |history|;
    var longer := Continued(history, es);
    if n == t {
      assert longer == history && history[..t] == history;
      assert es[n - 1] == EntryAt(history, n - 1);
    } else {
      assert es[n - 1] == es[t..][n - 1 - t] == Mint(longer)[n - 1];
    }
  }

  /** Boot finds a log truncated exactly when it is shorter than its mark, and then touches nothing. */
  lemma ShortLogIsRefused(c: Codec, files: Files, markSaves: bool)
    requires c.Lawful()
    ensures
      var b := Boot(c, files, markSaves);
      && (b.Refused? && b.why == Truncated <==> |Read(c, files.log).entries| < files.mark.count)
      && (b.Refused? && b.why == Truncated ==> b.files == files)
  {
  }

  // ---------------------------------------------------------------- verifying a whole log

  predicate IsWhitespace(b: byte) {
    b == 9 || b == NEWLINE || b == 13 || b == 32
  }

  /** Decoding ends at the end of the file: past the last record there is only white space. */
  ghost predicate WholeStream(c: Codec, log: Bytes)
    requires c.Bounded()
  {
    forall i :: Read(c, log).end <= i < |log| ==> IsWhitespace(log[i])
  }

  /** VerifyIntegrity, on the bytes of the log. */
  ghost predicate Verifies(c: Codec, log: Bytes, mark: Anchor)
    requires c.Bounded()
  {
    WholeStream(c, log) && StreamVerifies(Read(c, log).entries, mark)
  }

  /** Against the mark of a true history it accepts a log that reads, to its end, as that history, and no other. */
  lemma VerificationIsExact(c: Codec, log: Bytes, history: seq<Fields>)
    requires c.Bounded() && history != []
    ensures Verifies(c, log, AnchorOf(history)) <==> WholeStream(c, log) && Read(c, log).entries == Mint(history)
  {
    VerificationPinsTheLog(Read(c, log).entries, history);
  }

  /** And any clean honest log. */
  lemma HonestLogVerifies(c: Codec, log: Bytes, t: seq<Fields>)
    requires c.Bounded() && Holds(c, log, Mint(t))
    ensures Verifies(c, log, AnchorOf(t))
  {
    var end := Read(c, log).end;
    forall i | end <= i < |log|
      ensures IsWhitespace(log[i])
    {
      assert log[i] == log[end..][i - end];
    }
    if t != [] {
      VerificationIsExact(c, log, t);
    }
  }

  // ---------------------------------------------------------------- an honest log

  lemma MintedLogIsPlaced(t: seq<Fields>, mark: Anchor)
    requires t != [] && IsMarkOf(t, mark) && mark.count > 0
    ensures PlaceTail(Mint(t), mark) == Ok(AnchorOf(t))
    ensures Resumes(Mint(t)[|t| - 1], AnchorOf(t)) && !Converts(Mint(t), mark)
  {
    MintIsChained(t, mark.count);
    MintEndsInItsDigest(t);
    PlaceFromAccepts(Mint(t), mark.count, mark.hash);
    EntryVerifies(t, |t| - 1);
    assert t[..|t|] == t;
  }

  /** A mark of a prefix is reconciled with the whole minted log. */
  lemma MintedLogBoots(c: Codec, files: Files, t: seq<Fields>, markSaves: bool)
    requires c.Lawful()
    requires Read(c, files.log).entries == Mint(t)
    requires Trim(files.log, Read(c, files.log).end).Ok?
    requires IsMarkOf(t, files.mark)
    ensures
      var b := Boot(c, files, markSaves);
      var log := Trim(files.log, Read(c, files.log).end).value;
      if t == [] then b == Up(Running(Files(log, NO_MARK), NO_MARK, HeadOf([])))
      else if files.mark.count == 0 then b == Refused(files, NoMarkForLog)
      else if files.mark == AnchorOf(t) || markSaves then
        b == Up(Running(Files(log, AnchorOf(t)), AnchorOf(t), HeadOf(t)))
      else b == Refused(Files(log, files.mark), MarkNotSaved)
  {
    MintedIsNotConverted(t, files.mark);
    MintedEntriesBoot(files, t, Trim(files.log, Read(c, files.log).end), markSaves);
  }

  lemma MintedIsNotConverted(t: seq<Fields>, mark: Anchor)
    ensures !Converts(Mint(t), mark)
  {
    if t != [] {
      EntryVerifies(t, |t| - 1);
    }
  }

  lemma MintedEntriesBoot(files: Files, t: seq<Fields>, trimmed: Result<Bytes, TrimError>, markSaves: bool)
    requires trimmed.Ok? && IsMarkOf(t, files.mark)
    ensures
      var b := BootEntries(files, Mint(t), trimmed, markSaves);
      if t == [] then b == Up(Running(Files(trimmed.value, NO_MARK), NO_MARK, HeadOf([])))
      else if files.mark.count == 0 then b == Refused(files, NoMarkForLog)
      else if files.mark == AnchorOf(t) || markSaves then
        b == Up(Running(Files(trimmed.value, AnchorOf(t)), AnchorOf(t), HeadOf(t)))
      else b == Refused(Files(trimmed.value, files.mark), MarkNotSaved)
  {
    if t != [] && files.mark.count > 0 {
      MintedLogIsPlaced(t, files.mark);
    }
  }

  lemma MisplacedLogIsRefused(c: Codec, files: Files, markSaves: bool)
    requires c.Lawful() && Misplaces(Read(c, files.log).entries) && files.mark.count < |Read(c, files.log).entries|
    ensures Boot(c, files, markSaves).Refused?
    ensures Boot(c, files, markSaves).files == files
  {
    var es := Read(c, files.log).entries;
    var n := |es|;
    assert LegacyChainVerifies(es) ==> LegacyAt(es, n - 1);
    if files.mark.count > 0 {
      PlaceFromAccepts(es, files.mark.count, files.mark.hash);
      assert ChainedFrom(es, files.mark.count, files.mark.hash) ==>
               Follows(es, files.mark.count, files.mark.hash, n - 1);
    }
  }

  lemma LoneRecordIsRefused(c: Codec, e: Entry)
    requires c.Lawful() && VerifyRecord(e)
    ensures Read(c, c.Line(e)).entries == [e]
    ensures Boot(c, Files(c.Line(e), NO_MARK), true) == Refused(Files(c.Line(e), NO_MARK), NoMarkForLog)
  {
    ReadLine(c, e);
  }

  lemma KeptIsTrimmed(c: Codec, log: Bytes, es: seq<Entry>)
    requires c.Lawful() && Holds(c, log, es)
    ensures Trim(log, Read(c, log).end) == Ok(log)
  {
    SplitAt(log, Read(c, log).end);
    var end := Read(c, log).end;
    if log[end..] == [NEWLINE] {
      assert log[end] == log[end..][0];
    }
    assert log[..|log|] == log;
  }

  // ---------------------------------------------------------------- the retired format

  /** The log an honest server left in the retired format. */
  function LegacyLog(tuples: seq<Fields>): (es: seq<Entry>)
    ensures |es| == |tuples|
  {
    if tuples == [] then []
    else
      var n := |tuples| - 1;
      var before := LegacyLog(tuples[..n]);
      var prev := if n == 0 then Genesis else before[n - 1].hash;
      before + [Entry(n, tuples[n], prev, Legacy(n, Joined(tuples[n]), prev))]
  }

  lemma {:induction false} LegacyLogVerifies(tuples: seq<Fields>)
    ensures LegacyChainVerifies(LegacyLog(tuples)) && Contents(LegacyLog(tuples)) == tuples
  {
    if tuples != [] {
      var n := |tuples| - 1;
      LegacyLogVerifies(tuples[..n]);
      var before, all := LegacyLog(tuples[..n]), LegacyLog(tuples);
      forall i | 0 <= i < |all|
        ensures LegacyAt(all, i)
      {
        assert i < n ==> LegacyAt(before, i);
      }
      assert Contents(all) == Contents(before) + [tuples[n]];
    }
  }

  /** The mark an honest server left beside it. */
  function LegacyMark(tuples: seq<Fields>): Anchor
    requires tuples != []
  {
    Anchor(|tuples|, LegacyLog(tuples)[|tuples| - 1].hash)
  }

  lemma LegacyLogConverts(tuples: seq<Fields>)
    requires tuples != []
    ensures Converts(LegacyLog(tuples), LegacyMark(tuples)) && Contents(LegacyLog(tuples)) == tuples
  {
    LegacyLogVerifies(tuples);
    assert LegacyAt(LegacyLog(tuples), |tuples| - 1);
  }

  /** Records whose text is that of the tuples, in place, under the tuples' own digests. */
  predicate ReadsAs(es: seq<Entry>, tuples: seq<Fields>) {
    && |es| == |tuples|
    && forall i :: 0 <= i < |es| ==>
         && es[i].index == i && Joined(es[i].fields) == Joined(tuples[i])
         && es[i].prev == LegacyLog(tuples)[i].prev && es[i].hash == LegacyLog(tuples)[i].hash
  }

  lemma LegacyLogPrefix(tuples: seq<Fields>)
    requires tuples != []
    ensures
      var n := |tuples| - 1;
      && LegacyLog(tuples)[..n] == LegacyLog(tuples[..n])
      && LegacyLog(tuples)[n].index == n && LegacyLog(tuples)[n].fields == tuples[n]
      && LegacyLog(tuples)[n].prev == (if n == 0 then Genesis else LegacyLog(tuples)[n - 1].hash)
      && LegacyLog(tuples)[n].hash == Legacy(n, Joined(tuples[n]), LegacyLog(tuples)[n].prev)
  {
  }

  /** A verified log in the retired format that ends in the marked digest reads as the marked tuples. */
  lemma {:induction false} LegacyDigestPins(es: seq<Entry>, tuples: seq<Fields>)
    requires LegacyChainVerifies(es) && |es| == |tuples|
    requires es != [] ==> es[|es| - 1].hash == LegacyLog(tuples)[|es| - 1].hash
    ensures ReadsAs(es, tuples)
    decreases |es|
  {
    if es != [] {
      var n := |es| - 1;
      LegacyLogPrefix(tuples);
      assert LegacyAt(es, n);
      forall i | 0 <= i < n
        ensures LegacyAt(es[..n], i)
      {
        assert LegacyAt(es, i);
      }
      if n > 0 {
        assert es[n - 1].hash == LegacyLog(tuples)[..n][n - 1].hash;
      }
      LegacyDigestPins(es[..n], tuples[..n]);
      forall i | 0 <= i < n
        ensures es[i].index == i && Joined(es[i].fields) == Joined(tuples[i])
        ensures es[i].prev == LegacyLog(tuples)[i].prev && es[i].hash == LegacyLog(tuples)[i].hash
      {
        assert es[..n][i] == es[i] && tuples[..n][i] == tuples[i];
        assert LegacyLog(tuples)[..n][i] == LegacyLog(tuples)[i];
      }
    }
  }

  /**
   * Against the mark of an honest log in the retired format exactly those logs are converted whose
   * records read, joined, as its tuples do. An altered, shortened or reordered log is left alone;
   * one whose fields only share the bars out differently is not told apart.
   */
  lemma ConversionIsExact(es: seq<Entry>, tuples: seq<Fields>)
    requires tuples != []
    ensures Converts(es, LegacyMark(tuples)) <==> ReadsAs(es, tuples)
  {
    var n := |tuples| - 1;
    LegacyLogPrefix(tuples);
    if Converts(es, LegacyMark(tuples)) {
      LegacyDigestPins(es, tuples);
    }
    if ReadsAs(es, tuples) {
      LegacyLogVerifies(tuples);
      forall i | 0 <= i < |es|
        ensures LegacyAt(es, i)
      {
        assert LegacyAt(LegacyLog(tuples), i);
        LegacyFields(tuples, i);
      }
    }
  }

  lemma LegacyFields(tuples: seq<Fields>, i: nat)
    requires i < |tuples|
    ensures LegacyLog(tuples)[i].fields == tuples[i]
  {
    LegacyLogVerifies(tuples);
    assert Contents(LegacyLog(tuples))[i] == tuples[i];
  }

  /** Fields without a bar, the last excepted, are told apart. */
  predicate Unbarred(f: Fields) {
    '|' !in f.at && '|' !in f.action && '|' !in f.user && '|' !in f.device && '|' !in f.ip
  }

  const BAR := ['|']

  function FromIp(f: Fields): string { f.ip + (BAR + f.details) }
  function FromDevice(f: Fields): string { f.device + (BAR + FromIp(f)) }
  function FromUser(f: Fields): string { f.user + (BAR + FromDevice(f)) }
  function FromAction(f: Fields): string { f.action + (BAR + FromUser(f)) }

  lemma JoinedFromTheFront(f: Fields)
    ensures Joined(f) == f.at + (BAR + FromAction(f))
  {
    assert "|" == BAR;
  }

  lemma JoinedTellsApart(a: Fields, b: Fields)
    requires Unbarred(a) && Unbarred(b) && Joined(a) == Joined(b)
    ensures a == b
  {
    JoinedFromTheFront(a);
    JoinedFromTheFront(b);
    SplitAtFirst(a.at, FromAction(a), b.at, FromAction(b), '|');
    SplitAtFirst(a.action, FromUser(a), b.action, FromUser(b), '|');
    SplitAtFirst(a.user, FromDevice(a), b.user, FromDevice(b), '|');
    SplitAtFirst(a.device, FromIp(a), b.device, FromIp(b), '|');
    SplitAtFirst(a.ip, a.details, b.ip, b.details, '|');
  }

  /** The record of one tuple under the digest of another. */
  function Passed(shown: Fields, logged: Fields): Entry {
    Entry(0, shown, Genesis, Legacy(0, Joined(logged), Genesis))
  }

  lemma PassesExactly(shown: Fields, logged: Fields)
    ensures Converts([Passed(shown, logged)], LegacyMark([logged])) <==> Joined(shown) == Joined(logged)
  {
    LegacyLogPrefix([logged]);
    assert [logged][..0] == [];
    ConversionIsExact([Passed(shown, logged)], [logged]);
  }

  /** A bar moved between two fields: the altered record is converted in place of the logged one. */
  lemma ShiftedBarConverts(f: Fields, more: string)
    requires more != ""
    ensures
      var logged := f.(action := f.action + (BAR + more));
      var altered := f.(user := more + (BAR + f.user));
      altered != logged && Converts([Passed(altered, logged)], LegacyMark([logged]))
  {
    var logged := f.(action := f.action + (BAR + more));
    var altered := f.(user := more + (BAR + f.user));
    assert |altered.action| < |logged.action|;
    JoinedFromTheFront(logged);
    JoinedFromTheFront(altered);
    MovedBar(f.action, more, FromUser(f));
    MovedBar(more, f.user, FromDevice(f));
    PassesExactly(altered, logged);
  }

  lemma MovedBar(a: string, b: string, c: string)
    ensures (a + (BAR + b)) + (BAR + c) == a + (BAR + (b + (BAR + c)))
  {
  }

  /** Conversion keeps every tuple in its place and comes up on a chain that verifies from genesis. */
  lemma ConversionKeepsTheHistory(c: Codec, log: Bytes, tuples: seq<Fields>)
    requires c.Lawful() && tuples != []
    requires Read(c, log).entries == LegacyLog(tuples)
    ensures Holds(c, c.Lines(Mint(tuples)), Mint(tuples)) && StreamVerifies(Mint(tuples), AnchorOf(tuples))
    ensures
      Boot(c, Files(log, LegacyMark(tuples)), true) ==
      Up(Running(Files(c.Lines(Mint(tuples)), AnchorOf(tuples)), AnchorOf(tuples), HeadOf(tuples)))
    ensures
      Boot(c, Files(log, LegacyMark(tuples)), false) ==
      Refused(Files(c.Lines(Mint(tuples)), LegacyMark(tuples)), MarkNotSaved)
  {
    LegacyLogConverts(tuples);
    LinesHold(c, Mint(tuples));
    VerificationPinsTheLog(Mint(tuples), tuples);
    assert VerifyRecord(Mint(tuples)[|tuples| - 1]);
    assert tuples[..|tuples|] == tuples;
  }

  /** Interrupted between the rewritten log and its mark, it leaves a pair no boot accepts. */
  lemma InterruptedConversionIsRefused(c: Codec, tuples: seq<Fields>, markSaves: bool)
    requires c.Lawful() && tuples != []
    ensures Boot(c, Files(c.Lines(Mint(tuples)), LegacyMark(tuples)), markSaves).Refused?
  {
    LinesHold(c, Mint(tuples));
    LegacyLogConverts(tuples);
    assert LegacyAt(LegacyLog(tuples), |tuples| - 1);
    VerificationPinsTheLog(Mint(tuples), tuples);
    assert VerifyRecord(Mint(tuples)[|tuples| - 1]);
  }
}
