/**
 * The byte-level log file: what the streaming decoder reads out of it, and the repair of an
 * incomplete record on its end.
 *
 * The JSON text of a record is abstract. What the code relies on is stated once, in `Lawful`:
 * a record's encoding holds no newline, is recognised at its own last byte and not before, and
 * the decoder skips the newline that separates records. Bytes no encoder wrote are arbitrary.
 */
module AuditCodec {
  import opened Wrappers
  import opened AuditChain
  import opened Collections

  newtype byte = x: int | 0 <= x < 256
  type Bytes = seq<byte>

  const NEWLINE: byte := 10

  datatype Decoded = Decoded(entry: Entry, used: nat)

  datatype Codec = Codec(encode: Entry -> Bytes, decode: Bytes -> Option<Decoded>)
  {
    /** One value takes at least a byte and no more than there are. */
    ghost predicate Bounded() {
      forall s :: decode(s).Some? ==> 0 < decode(s).value.used <= |s|
    }

    /** A value is recognised at its own end, whatever follows. */
    ghost predicate SelfDelimiting(s: Bytes, t: Bytes) {
      match decode(s)
      case None => true
      case Some(d) => d.used <= |s| && d.used <= |t| && t[..d.used] == s[..d.used] ==> decode(t) == Some(d)
    }

    ghost predicate RoundTrips(e: Entry) {
      decode(encode(e)) == Some(Decoded(e, |encode(e)|)) && NEWLINE !in encode(e)
    }

    /** No record is recognised in a proper prefix of its encoding. */
    ghost predicate CutIsUnread(e: Entry, s: Bytes) {
      s <= encode(e) && s != encode(e) ==> decode(s).None?
    }

    ghost predicate SkipsNewline(s: Bytes) {
      decode([NEWLINE] + s) ==
      match decode(s)
      case None => None
      case Some(d) => Some(Decoded(d.entry, d.used + 1))
    }

    ghost predicate Lawful() {
      && Bounded()
      && (forall s, t :: SelfDelimiting(s, t))
      && (forall e :: RoundTrips(e))
      && (forall e, s :: CutIsUnread(e, s))
      && (forall s :: SkipsNewline(s))
    }

    /** What Log writes for a record: the encoding and its newline, in one call. */
    function Line(e: Entry): Bytes {
      encode(e) + [NEWLINE]
    }

    function Lines(es: seq<Entry>): Bytes {
      if es == [] then [] else Lines(es[..|es| - 1]) + Line(es[|es| - 1])
    }
  }

  /** The records of a file, and the offset just past the last one decoded. */
  datatype Reading = Reading(entries: seq<Entry>, end: nat)

  ghost function Read(c: Codec, file: Bytes): (r: Reading)
    requires c.Bounded()
    ensures r.end <= |file|
    decreases |file|
  {
    match c.decode(file)
    case None => Reading([], 0)
    case Some(d) =>
      var rest := Read(c, file[d.used..]);
      Reading([d.entry] + rest.entries, d.used + rest.end)
  }

  lemma DropJoined(s: Bytes, done: Bytes, used: nat, more: Bytes)
    requires used <= |done| && done <= s
    ensures done[used..] <= s[used..]
    ensures (done + more)[..used] == s[..used]
    ensures (done + more)[used..] == done[used..] + more
  {
  }

  lemma SplitAt(s: Bytes, at: nat)
    requires at <= |s|
    ensures s == s[..at] + s[at..]
  {
  }

  method ReadAll(c: Codec, file: Bytes) returns (entries: seq<Entry>, end: nat)
    requires c.Bounded()
    ensures Reading(entries, end) == Read(c, file)
  {
    entries, end := [], 0;
    var stream := file;
    while true
      invariant Read(c, file).entries == entries + Read(c, stream).entries
      invariant Read(c, file).end == end + Read(c, stream).end
      decreases |stream|
    {
      var next := c.decode(stream);
      if next.None? {
        return;
      }
      stream := stream[next.value.used..];
      Assoc(entries, [next.value.entry], Read(c, stream).entries);
      entries, end := entries + [next.value.entry], end + next.value.used;
    }
  }

  /** The file holds exactly these records: after the last one there is at most its newline. */
  ghost predicate Holds(c: Codec, file: Bytes, es: seq<Entry>)
    requires c.Bounded()
  {
    var r := Read(c, file);
    && r.entries == es
    && (file[r.end..] == [] || file[r.end..] == [NEWLINE])
  }

  lemma ReadNothing(c: Codec)
    requires c.Lawful()
    ensures Holds(c, [], [])
    ensures Holds(c, [NEWLINE], [])
    ensures c.decode([NEWLINE]).None?
  {
    assert c.SkipsNewline([]);
    assert [NEWLINE] + [] == [NEWLINE];
  }

  /** The decoder stops where it stopped: nothing is left to read past `end`. */
  lemma {:induction false} NothingPastEnd(c: Codec, file: Bytes)
    requires c.Lawful()
    ensures c.decode(file[Read(c, file).end..]).None?
    decreases |file|
  {
    if c.decode(file).None? {
      assert file[0..] == file;
    } else {
      var used := c.decode(file).value.used;
      NothingPastEnd(c, file[used..]);
      assert file[used..][Read(c, file[used..]).end..] == file[Read(c, file).end..];
    }
  }

  /** Reading is compositional: what was decoded stays decoded, and reading resumes behind it. */
  lemma {:induction false} ReadAppend(c: Codec, file: Bytes, done: Bytes, more: Bytes)
    requires c.Lawful()
    requires done <= file && |done| == Read(c, file).end
    ensures Read(c, done + more).entries == Read(c, file).entries + Read(c, more).entries
    ensures Read(c, done + more).end == |done| + Read(c, more).end
    decreases |file|
  {
    if c.decode(file).None? {
      assert done + more == more;
    } else {
      var d := c.decode(file).value;
      ReadAppend(c, file[d.used..], done[d.used..], more);
      DropJoined(file, done, d.used, more);
      assert c.SelfDelimiting(file, done + more);
      Assoc([d.entry], Read(c, file[d.used..]).entries, Read(c, more).entries);
    }
  }

  lemma ReadAfterNewline(c: Codec, more: Bytes)
    requires c.Lawful()
    ensures Read(c, [NEWLINE] + more).entries == Read(c, more).entries
    ensures c.decode(more).Some? ==> Read(c, [NEWLINE] + more).end == 1 + Read(c, more).end
    ensures c.decode(more).None? ==> Read(c, [NEWLINE] + more).end == 0
  {
    var s := [NEWLINE] + more;
    assert c.SkipsNewline(more);
    if c.decode(more).Some? {
      assert s[c.decode(more).value.used + 1..] == more[c.decode(more).value.used..];
    }
  }

  lemma ReadLine(c: Codec, e: Entry)
    requires c.Lawful()
    ensures Read(c, c.Line(e)) == Reading([e], |c.encode(e)|)
    ensures Read(c, c.encode(e)) == Reading([e], |c.encode(e)|)
  {
    ReadNothing(c);
    var s := c.Line(e);
    assert c.RoundTrips(e);
    assert s[..|c.encode(e)|] == c.encode(e) == c.encode(e)[..|c.encode(e)|];
    assert c.SelfDelimiting(c.encode(e), s);
    assert s[|c.encode(e)|..] == [NEWLINE];
    assert c.encode(e)[|c.encode(e)|..] == [];
  }

  /** Bytes put behind a clean file are read as if they started one. */
  lemma ReadBehind(c: Codec, file: Bytes, es: seq<Entry>, more: Bytes)
    requires c.Lawful() && Holds(c, file, es)
    ensures Read(c, file + more).entries == es + Read(c, more).entries
    ensures c.decode(more).Some? ==> Read(c, file + more).end == |file| + Read(c, more).end
    ensures c.decode(more).None? ==> Read(c, file + more).end == Read(c, file).end
  {
    var end := Read(c, file).end;
    SplitAt(file, end);
    if file[end..] == [] {
      assert file[..end] == file;
      ReadAppend(c, file, file, more);
    } else {
      Assoc(file[..end], [NEWLINE], more);
      ReadAppend(c, file, file[..end], [NEWLINE] + more);
      ReadAfterNewline(c, more);
    }
  }

  lemma AppendLine(c: Codec, file: Bytes, es: seq<Entry>, e: Entry)
    requires c.Lawful() && Holds(c, file, es)
    ensures Holds(c, file + c.Line(e), es + [e])
  {
    ReadLine(c, e);
    ReadBehind(c, file, es, c.Line(e));
    assert (file + c.Line(e))[|file| + |c.encode(e)|..] == [NEWLINE];
  }

  lemma {:induction false} LinesHold(c: Codec, es: seq<Entry>)
    requires c.Lawful()
    ensures Holds(c, c.Lines(es), es)
    decreases |es|
  {
    if es == [] {
      ReadNothing(c);
    } else {
      var n := |es| - 1;
      LinesHold(c, es[..n]);
      AppendLine(c, c.Lines(es[..n]), es[..n], es[n]);
      assert es == es[..n] + [es[n]];
    }
  }

  // ---------------------------------------------------------------- torn tails

  /** A write of a record cut anywhere: before the last byte of the encoding, or after it. */
  lemma CutLine(c: Codec, e: Entry, cut: Bytes)
    requires c.Lawful() && cut <= c.Line(e)
    ensures |cut| < |c.encode(e)| ==> c.decode(cut).None? && NEWLINE !in cut && cut != c.Line(e)
    ensures |cut| >= |c.encode(e)| ==> cut == c.encode(e) || cut == c.Line(e)
  {
    var full := c.encode(e);
    assert c.RoundTrips(e) && c.CutIsUnread(e, cut);
    if |cut| < |full| {
      assert cut == full[..|cut|];
    } else if |cut| == |full| {
      assert cut == full;
    }
  }

  /** Only bytes after the last record are in question, and its newline is kept. */
  function CleanEnd(file: Bytes, end: nat): (clean: nat)
    requires end <= |file|
    ensures end <= clean <= |file|
  {
    if end < |file| && file[end] == NEWLINE then end + 1 else end
  }

  datatype TrimError = CorruptLog

  function Trim(file: Bytes, end: nat): Result<Bytes, TrimError>
    requires end <= |file|
  {
    var clean := CleanEnd(file, end);
    if NEWLINE in file[clean..] then Err(CorruptLog) else Ok(file[..clean])
  }

  lemma SplitChunk(file: Bytes, from: nat, at: nat, upTo: nat)
    requires from <= at <= upTo <= |file|
    ensures NEWLINE in file[from..upTo] <==> NEWLINE in file[from..at] || NEWLINE in file[at..upTo]
    ensures NEWLINE in file[at..upTo] ==> NEWLINE in file[from..]
  {
    assert file[from..upTo] == file[from..at] + file[at..upTo];
    assert file[from..] == file[from..upTo] + file[upTo..];
  }

  method HoldsNewline(file: Bytes, from: nat) returns (found: bool)
    requires from <= |file|
    ensures found == (NEWLINE in file[from..])
  {
    var at := from;
    while at < |file|
      invariant from <= at <= |file|
      invariant NEWLINE !in file[from..at]
    {
      var upTo := if |file| - at < 8192 then |file| else at + 8192;
      SplitChunk(file, from, at, upTo);
      if NEWLINE in file[at..upTo] {
        return true;
      }
      at := upTo;
    }
    return false;
  }

  method TrimTornTail(file: Bytes, end: nat) returns (r: Result<Bytes, TrimError>)
    requires end <= |file|
    ensures r == Trim(file, end)
  {
    if |file| <= end {
      assert file[..|file|] == file;
      return Ok(file);
    }
    var clean := end;
    if file[end] == NEWLINE {
      clean := clean + 1;
    }
    if |file| == clean {
      assert file[..clean] == file;
      return Ok(file);
    }
    var newline := HoldsNewline(file, clean);
    if newline {
      return Err(CorruptLog);
    }
    return Ok(file[..clean]);
  }

  lemma KeptSplits(file: Bytes, end: nat)
    requires end <= |file|
    ensures
      var kept := file[..CleanEnd(file, end)];
      && kept[..end] == file[..end]
      && kept == file[..end] + kept[end..]
      && (kept[end..] == [] || kept[end..] == [NEWLINE])
  {
  }

  lemma KeptHolds(c: Codec, file: Bytes)
    requires c.Lawful()
    ensures Holds(c, file[..CleanEnd(file, Read(c, file).end)], Read(c, file).entries)
  {
    var end := Read(c, file).end;
    var kept := file[..CleanEnd(file, end)];
    KeptSplits(file, end);
    CleanlyEnded(c, file, kept[end..]);
  }

  lemma CleanlyEnded(c: Codec, file: Bytes, rest: Bytes)
    requires c.Lawful() && (rest == [] || rest == [NEWLINE])
    ensures Holds(c, file[..Read(c, file).end] + rest, Read(c, file).entries)
  {
    var done := file[..Read(c, file).end];
    ReadNothing(c);
    ReadAppend(c, file, done, rest);
    assert Read(c, rest) == Reading([], 0);
    assert (done + rest)[|done|..] == rest;
  }

  /**
   * Repair is exact, for any bytes at all. What goes is newline-free and lies past the last
   * readable record; the list read does not change and the next append extends it. A newline
   * among the unread bytes is the only refusal.
   */
  lemma TrimIsExact(c: Codec, file: Bytes)
    requires c.Lawful()
    ensures
      var r := Read(c, file);
      var t := Trim(file, r.end);
      && (t.Err? <==> NEWLINE in file[CleanEnd(file, r.end)..])
      && (t.Ok? ==>
            && r.end <= |t.value| && t.value <= file
            && NEWLINE !in file[|t.value|..]
            && Holds(c, t.value, r.entries))
  {
    KeptHolds(c, file);
  }

  /** After a repair, any later append decodes as the old list and then that record. */
  lemma RepairedFileTakesAppends(c: Codec, file: Bytes, e: Entry)
    requires c.Lawful() && Trim(file, Read(c, file).end).Ok?
    ensures Holds(c, Trim(file, Read(c, file).end).value + c.Line(e), Read(c, file).entries + [e])
  {
    TrimIsExact(c, file);
    AppendLine(c, Trim(file, Read(c, file).end).value, Read(c, file).entries, e);
  }

  /**
   * A clean file with one interrupted append behind it: the record is either all there or
   * not there at all, and the repair accepts the file in both cases.
   */
  lemma TornAppend(c: Codec, file: Bytes, es: seq<Entry>, e: Entry, cut: Bytes)
    requires c.Lawful() && Holds(c, file, es) && cut <= c.Line(e)
    ensures Read(c, file + cut).entries == if |cut| < |c.encode(e)| then es else es + [e]
    ensures Trim(file + cut, Read(c, file + cut).end).Ok?
  {
    CutLine(c, e, cut);
    ReadLine(c, e);
    ReadBehind(c, file, es, cut);
    if |cut| < |c.encode(e)| {
      FragmentIsTrimmed(file, Read(c, file).end, cut);
    } else {
      WholeLineIsKept(file, |c.encode(e)|, cut);
    }
  }

  lemma FragmentIsTrimmed(file: Bytes, end: nat, cut: Bytes)
    requires end <= |file| && (file[end..] == [] || file[end..] == [NEWLINE])
    requires NEWLINE !in cut
    ensures Trim(file + cut, end).Ok?
  {
    var torn := file + cut;
    if file[end..] == [] {
      assert torn[end..] == cut;
    } else {
      assert torn[end..] == [NEWLINE] + cut;
      assert torn[end] == torn[end..][0] && torn[end + 1..] == cut;
    }
  }

  lemma WholeLineIsKept(file: Bytes, used: nat, cut: Bytes)
    requires used <= |cut| && (cut[used..] == [] || cut[used..] == [NEWLINE])
    ensures Trim(file + cut, |file| + used) == Ok(file + cut)
  {
    var torn := file + cut;
    assert torn[|file| + used..] == cut[used..];
    if cut[used..] == [NEWLINE] {
      assert torn[|file| + used] == torn[|file| + used..][0];
      assert |torn| == |file| + used + 1;
    }
    assert torn[..|torn|] == torn;
  }
}
