/**
 * The audit store: appending a record, and reconciling the log with its external mark at boot.
 *
 * `Boot` and `Append` say what the two entry points do to the files and to memory; `Store`
 * performs them step by step. The environment's choices - where a write is cut, which call
 * fails - are parameters.
 */
module AuditStore {
  import opened Wrappers
  import opened AuditChain
  import opened AuditCodec

  /** The two files as a process sees them. */
  datatype Files = Files(log: Bytes, mark: Anchor)

  /** A running store: its files, the mark it holds in memory and the head of its chain. */
  datatype Running = Running(files: Files, anchor: Anchor, head: Anchor)

  datatype Refusal =
    Truncated | NoMarkForLog | Misplaced | Unverified | NotPredecessor | Corrupt | TailMismatch | MarkNotSaved

  // ---------------------------------------------------------------- placing the tail

  /** Why the first record past the mark that fails its checks is refused. */
  function PlaceFrom(entries: seq<Entry>, i: nat, prev: Digest): (why: Option<Refusal>)
    requires i <= |entries|
    ensures why == None || why == Some(Misplaced) || why == Some(Unverified) || why == Some(NotPredecessor)
    decreases |entries| - i
  {
    if i == |entries| then None
    else if SeqNo(entries[i]) != i + 1 then Some(Misplaced)
    else if !VerifyRecord(entries[i]) then Some(Unverified)
    else if entries[i].prev != prev then Some(NotPredecessor)
    else PlaceFrom(entries, i + 1, entries[i].hash)
  }

  function PlaceTail(entries: seq<Entry>, mark: Anchor): Result<Anchor, Refusal> {
    var n := |entries|;
    if n < mark.count then Err(Truncated)
    else if n == 0 then Ok(NO_MARK)
    else if mark.count == 0 then Err(NoMarkForLog)
    else if n > mark.count then
      match PlaceFrom(entries, mark.count, mark.hash)
      case Some(why) => Err(why)
      case None => Ok(Anchor(n, entries[n - 1].hash))
    else Ok(mark)
  }

  lemma PlaceFromAccepts(entries: seq<Entry>, from: nat, prev: Digest)
    requires from <= |entries|
    ensures PlaceFrom(entries, from, prev).None? <==> ChainedFrom(entries, from, prev)
    decreases |entries| - from
  {
    if from < |entries| {
      PlaceFromAccepts(entries, from + 1, entries[from].hash);
      ChainedStep(entries, from, prev);
    }
  }

  /**
   * Against the mark of a true history, exactly two logs are placed: one with as many records
   * as the mark counts, and one that continues the history with its own minted records. A
   * shorter log, a re-minted fork, an altered or misplaced record past the mark is refused.
   */
  lemma PlaceTailAcceptsContinuations(entries: seq<Entry>, history: seq<Fields>)
    ensures
      var n := |entries|;
      var c := |history|;
      PlaceTail(entries, AnchorOf(history)).Ok? <==>
        || n == c
        || (0 < c < n && entries[c..] == Mint(Continued(history, entries))[c..])
    ensures
      |history| < |entries| && PlaceTail(entries, AnchorOf(history)).Ok? ==>
        PlaceTail(entries, AnchorOf(history)).value == AnchorOf(Continued(history, entries))
  {
    var n, c := |entries|, |history|;
    if 0 < c < n {
      PlaceFromAccepts(entries, c, ChainHash(history));
      var longer := Continued(history, entries);
      if ChainedFrom(entries, c, ChainHash(history)) {
        ChainedRunExtends(history, entries);
        assert entries[c..] == Mint(longer)[c..];
      }
      if entries[c..] == Mint(longer)[c..] {
        TailIsMinted(entries, longer, c);
      }
    }
  }

  lemma TailIsMinted(entries: seq<Entry>, longer: seq<Fields>, c: nat)
    requires 0 < c < |entries| == |longer|
    requires entries[c..] == Mint(longer)[c..]
    ensures PlaceFrom(entries, c, ChainHash(longer[..c])).None?
    ensures entries[|entries| - 1].hash == ChainHash(longer)
  {
    forall i | c <= i < |entries|
      ensures entries[i] == EntryAt(longer, i) && VerifyRecord(entries[i])
    {
      assert entries[i] == entries[c..][i - c] == Mint(longer)[c..][i - c];
      EntryVerifies(longer, i);
    }
    forall i | c <= i < |entries|
      ensures Follows(entries, c, ChainHash(longer[..c]), i)
    {
      assert i > c ==> entries[i - 1] == EntryAt(longer, i - 1);
    }
    PlaceFromAccepts(entries, c, ChainHash(longer[..c]));
    assert longer[..|longer|] == longer;
  }

  // ---------------------------------------------------------------- conversion of the retired format

  /** The retired format joined the tuple with a bare "|". */
  function Joined(f: Fields): string {
    f.at + "|" + f.action + "|" + f.user + "|" + f.device + "|" + f.ip + "|" + f.details
  }

  function LegacyHash(e: Entry): Digest {
    Legacy(e.index, Joined(e.fields), e.prev)
  }

  predicate LegacyChainVerifies(entries: seq<Entry>) {
    forall i :: 0 <= i < |entries| ==> LegacyAt(entries, i)
  }

  predicate LegacyAt(entries: seq<Entry>, i: nat)
    requires i < |entries|
  {
    && entries[i].index == i
    && entries[i].prev == (if i == 0 then Genesis else entries[i - 1].hash)
    && entries[i].hash == LegacyHash(entries[i])
  }

  predicate Converts(entries: seq<Entry>, mark: Anchor) {
    && entries != []
    && !VerifyRecord(entries[|entries| - 1])
    && mark == Anchor(|entries|, entries[|entries| - 1].hash)
    && LegacyChainVerifies(entries)
  }

  // ---------------------------------------------------------------- boot

  datatype BootResult =
    | Up(store: Running)
    | Refused(files: Files, why: Refusal)
  {
    function After(): Files {
      match this
      case Up(store) => store.files
      case Refused(files, _) => files
    }
  }

  /** The shared package's Resume: the tail record must carry its digest and be what the mark names. */
  predicate Resumes(last: Entry, anchor: Anchor) {
    VerifyRecord(last) && SeqNo(last) == anchor.count && last.hash == anchor.hash
  }

  /** Boot once the log carries the shared format: place, trim, resume, catch the mark up. */
  function BootEntries(files: Files, entries: seq<Entry>, trimmed: Result<Bytes, TrimError>,
                       markSaves: bool): BootResult
  {
    match PlaceTail(entries, files.mark)
    case Err(why) => Refused(files, why)
    case Ok(anchor) =>
      match trimmed
      case Err(_) => Refused(files, Corrupt)
      case Ok(log) =>
        var kept := Files(log, files.mark);
        if entries == [] then Up(Running(kept, files.mark, HeadOf([])))
        else if !Resumes(entries[|entries| - 1], anchor) then Refused(kept, TailMismatch)
        else if anchor == files.mark then Up(Running(kept, anchor, anchor))
        else if markSaves then Up(Running(Files(log, anchor), anchor, anchor))
        else Refused(kept, MarkNotSaved)
  }

  ghost function Boot(c: Codec, files: Files, markSaves: bool): BootResult
    requires c.Bounded()
  {
    var r := Read(c, files.log);
    if Converts(r.entries, files.mark) then
      var entries := Mint(Contents(r.entries));
      var rewritten := Files(c.Lines(entries), files.mark);
      if !markSaves then Refused(rewritten, MarkNotSaved)
      else BootEntries(rewritten.(mark := AnchorOf(Contents(r.entries))), entries, Ok(rewritten.log), markSaves)
    else BootEntries(files, r.entries, Trim(files.log, r.end), markSaves)
  }

  // ---------------------------------------------------------------- append

  /** How one Log call meets the disk. */
  datatype Fate =
    | WriteFails   // short or failed write, truncated back
    | FlushFails   // written, but Sync or Close reports an error
    | MarkFails    // flushed; the mark's temporary file or rename fails
    | Lands

  datatype LogResult = Logged(entry: Entry) | MarkError(entry: Entry) | AppendError

  function Append(c: Codec, s: Running, f: Fields, fate: Fate): (Running, LogResult) {
    var e := NextEntry(s.head, f);
    var next := Anchor(s.head.count + 1, e.hash);
    var written := s.files.(log := s.files.log + c.Line(e));
    var advances := next.count > s.anchor.count;
    var anchor := if advances then next else s.anchor;
    match fate
    case WriteFails => (s, AppendError)
    case FlushFails => (s.(files := written), AppendError)
    case MarkFails =>
      if advances then (Running(written, anchor, next), MarkError(e))
      else (Running(written, anchor, next), Logged(e))
    case Lands =>
      (Running(written.(mark := if advances then next else s.files.mark), anchor, next), Logged(e))
  }

  // ---------------------------------------------------------------- the store itself

  class Store {
    const codec: Codec
    var log: Bytes       // the log file
    var mark: Anchor     // the mark file
    var anchor: Anchor
    var head: Anchor     // the chain object's head

    ghost function State(): Running
      reads this
    {
      Running(Files(log, mark), anchor, head)
    }

    /** Opens the directory of an earlier process; `Open` then reconciles it. */
    constructor (codec: Codec, files: Files)
      ensures this.codec == codec && log == files.log && mark == files.mark
    {
      this.codec := codec;
      log, mark := files.log, files.mark;
      anchor, head := files.mark, HeadOf([]);
    }

    method PlaceTailOf(entries: seq<Entry>) returns (r: Result<Anchor, Refusal>)
      ensures r == PlaceTail(entries, anchor)
    {
      var n := |entries|;
      if n < anchor.count {
        return Err(Truncated);
      }
      if n == 0 {
        return Ok(NO_MARK);
      }
      if anchor.count == 0 {
        return Err(NoMarkForLog);
      }
      if n > anchor.count {
        var prev := anchor.hash;
        var i := anchor.count;
        while i < n
          invariant anchor.count <= i <= n
          invariant PlaceFrom(entries, anchor.count, anchor.hash) == PlaceFrom(entries, i, prev)
        {
          var rec := entries[i];
          if SeqNo(rec) != i + 1 {
            return Err(Misplaced);
          }
          if !VerifyRecord(rec) {
            return Err(Unverified);
          }
          if rec.prev != prev {
            return Err(NotPredecessor);
          }
          prev := rec.hash;
          i := i + 1;
        }
        return Ok(Anchor(n, entries[n - 1].hash));
      }
      return Ok(anchor);
    }

    method LegacyVerifies(entries: seq<Entry>) returns (ok: bool)
      ensures ok == LegacyChainVerifies(entries)
    {
      var prev := Genesis;
      for i := 0 to |entries|
        invariant prev == if i == 0 then Genesis else entries[i - 1].hash
        invariant forall j :: 0 <= j < i ==> LegacyAt(entries, j)
      {
        var e := entries[i];
        assert LegacyAt(entries, i) <==> e.index == i && e.prev == prev && e.hash == LegacyHash(e);
        if e.index != i || e.prev != prev {
          return false;
        }
        if e.hash != LegacyHash(e) {
          return false;
        }
        prev := e.hash;
      }
      return true;
    }

    /** Rewrites a log in the retired format, and then its mark. */
    method Converge(entries: seq<Entry>, markSaves: bool)
      returns (converted: seq<Entry>, rewrote: bool, failed: bool)
      requires anchor == mark
      modifies this`log, this`mark, this`anchor
      ensures rewrote || failed <==> Converts(entries, old(mark))
      ensures failed <==> Converts(entries, old(mark)) && !markSaves
      ensures !rewrote && !failed ==> converted == entries && unchanged(this)
      ensures rewrote || failed ==> log == codec.Lines(Mint(Contents(entries)))
      ensures rewrote ==> converted == Mint(Contents(entries)) && mark == anchor == AnchorOf(Contents(entries))
      ensures failed ==> mark == old(mark)
    {
      converted, rewrote, failed := entries, false, false;
      if |entries| == 0 || VerifyRecord(entries[|entries| - 1]) {
        return;
      }
      if mark.count != |entries| || mark.hash != entries[|entries| - 1].hash {
        return;
      }
      var legacy := LegacyVerifies(entries);
      if !legacy {
        return;
      }
      var records, replayed := Replay(Contents(entries));
      converted := records;
      log := codec.Lines(converted);
      anchor := replayed;
      if !markSaves {
        failed := true;
        return;
      }
      mark := anchor;
      rewrote := true;
    }

    /** NewStore, past the key and the reading of the mark file. */
    method Open(markSaves: bool) returns (refused: Option<Refusal>)
      requires codec.Bounded()
      modifies this
      ensures
        match Boot(codec, old(Files(log, mark)), markSaves)
        case Up(store) => refused == None && State() == store
        case Refused(files, why) => refused == Some(why) && Files(log, mark) == files
    {
      anchor := mark;
      var found, end := ReadAll(codec, log);
      var entries, rewrote, failed := Converge(found, markSaves);
      if failed {
        return Some(MarkNotSaved);
      }
      var placed := PlaceTailOf(entries);
      if placed.Err? {
        return Some(placed.error);
      }
      if !rewrote {
        var trimmed := TrimTornTail(log, end);
        if trimmed.Err? {
          return Some(Corrupt);
        }
        log := trimmed.value;
      }
      if |entries| == 0 {
        head := HeadOf([]);
        return None;
      }
      if !Resumes(entries[|entries| - 1], placed.value) {
        return Some(TailMismatch);
      }
      head := placed.value;
      if placed.value != anchor {
        anchor := placed.value;
        if !markSaves {
          return Some(MarkNotSaved);
        }
        mark := anchor;
      }
      return None;
    }

    /** Log. A write that fails after `cut` bytes is truncated back to where it began. */
    method Log(f: Fields, fate: Fate, cut: nat) returns (r: LogResult)
      requires fate == WriteFails ==> cut <= |codec.Line(NextEntry(head, f))|
      modifies this
      ensures (State(), r) == Append(codec, old(State()), f, fate)
      ensures !r.AppendError? ==>
        && r.entry == Entry(old(head.count), f, old(head.hash), Keyed(old(head.count) + 1, old(head.hash), f))
        && log == old(log) + codec.encode(r.entry) + [NEWLINE]
        && head == Anchor(old(head.count) + 1, r.entry.hash)
        && anchor == if head.count > old(anchor.count) then head else old(anchor)
      ensures r.AppendError? <==> fate == WriteFails || fate == FlushFails
      ensures r.AppendError? ==> head == old(head) && anchor == old(anchor) && mark == old(mark)
      ensures fate == WriteFails ==> log == old(log)
      ensures r.Logged? ==> mark == if head.count > old(anchor.count) then head else old(mark)
      ensures r.MarkError? <==> fate == MarkFails && old(head.count) + 1 > old(anchor.count)
      ensures r.MarkError? ==> mark == old(mark)
    {
      var e := NextEntry(head, f);
      var next := Anchor(head.count + 1, e.hash);
      var data := codec.Line(e);
      var size := |log|;
      if fate == WriteFails {
        log := log + data[..cut];
        log := log[..size];
        return AppendError;
      }
      log := log + data;
      if fate == FlushFails {
        return AppendError;
      }
      var markFailed := false;
      if next.count > anchor.count {
        anchor := next;
        if fate == MarkFails {
          markFailed := true;
        } else {
          mark := anchor;
        }
      }
      head := next;
      r := if markFailed then MarkError(e) else Logged(e);
    }
  }

  /** The shared package's Replay: the tuples chained again from genesis. */
  method Replay(tuples: seq<Fields>) returns (records: seq<Entry>, anchor: Anchor)
    ensures records == Mint(tuples) && anchor == AnchorOf(tuples)
  {
    records := [];
    var head := HeadOf([]);
    for i := 0 to |tuples|
      invariant records == Mint(tuples[..i])
      invariant head == HeadOf(tuples[..i])
    {
      MintStep(tuples[..i], tuples[i]);
      ChainHashStep(tuples[..i], tuples[i]);
      assert tuples[..i + 1] == tuples[..i] + [tuples[i]];
      var e := NextEntry(head, tuples[i]);
      records := records + [e];
      head := Anchor(head.count + 1, e.hash);
    }
    assert tuples[..|tuples|] == tuples;
    anchor := if tuples == [] then NO_MARK else head;
  }
}
