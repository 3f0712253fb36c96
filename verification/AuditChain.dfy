/**
 * The hash chain under the audit log.
 *
 * The keyed digest of the shared chain package is symbolic: a digest is the term that was
 * authenticated, so two digests are equal exactly when everything under them is equal, and
 * nobody without the key can write a `Keyed` or `Legacy` term that was not minted.
 */
module AuditChain {

  /** The content the chain authenticates, in chain order (fieldsOf). */
  datatype Fields = Fields(at: string, action: string, user: string,
                           device: string, ip: string, details: string)

  datatype Digest =
    | Blank                                          // the empty hash of a mark never advanced
    | Genesis                                        // sixty-four zeros
    | Keyed(seqNo: int, prev: Digest, fields: Fields)
    | Legacy(index: int, text: string, prev: Digest) // the retired joined format
    | Foreign(text: string)                          // any other string

  /** A stored log line. Indices are zero-based, chain sequence numbers one-based. */
  datatype Entry = Entry(index: int, fields: Fields, prev: Digest, hash: Digest)

  /** How many records a log held, and the digest of the last one. */
  datatype Anchor = Anchor(count: nat, hash: Digest)

  const NO_MARK := Anchor(0, Blank)

  function SeqNo(e: Entry): int { e.index + 1 }

  predicate VerifyRecord(e: Entry) {
    e.hash == Keyed(SeqNo(e), e.prev, e.fields)
  }

  /** The digest of a history: every tuple chained onto the ones before it. */
  function ChainHash(history: seq<Fields>): Digest {
    if history == [] then Genesis
    else
      var n := |history| - 1;
      Keyed(n + 1, ChainHash(history[..n]), history[n])
  }

  /** The mark an honest run leaves for a history. */
  function AnchorOf(history: seq<Fields>): Anchor {
    if history == [] then NO_MARK else Anchor(|history|, ChainHash(history))
  }

  /** The chain head for a history: it starts at genesis rather than blank. */
  function HeadOf(history: seq<Fields>): Anchor {
    Anchor(|history|, ChainHash(history))
  }

  function EntryAt(history: seq<Fields>, i: nat): Entry
    requires i < |history|
  {
    Entry(i, history[i], ChainHash(history[..i]), ChainHash(history[..i + 1]))
  }

  /** The log an honest run writes for a history. */
  function Mint(history: seq<Fields>): seq<Entry> {
    seq(|history|, i requires 0 <= i < |history| => EntryAt(history, i))
  }

  function Contents(entries: seq<Entry>): seq<Fields> {
    seq(|entries|, i requires 0 <= i < |entries| => entries[i].fields)
  }

  /** The next record of a chain, as Append builds it for its persist callback. */
  function NextEntry(head: Anchor, f: Fields): Entry {
    Entry(head.count, f, head.hash, Keyed(head.count + 1, head.hash, f))
  }

  /** Entries from position `from` on sit in place, carry their own digest and follow `prev`. */
  predicate ChainedFrom(entries: seq<Entry>, from: nat, prev: Digest)
    requires from <= |entries|
  {
    forall i :: from <= i < |entries| ==> Follows(entries, from, prev, i)
  }

  predicate Follows(entries: seq<Entry>, from: nat, prev: Digest, i: nat)
    requires from <= i < |entries|
  {
    && SeqNo(entries[i]) == i + 1
    && VerifyRecord(entries[i])
    && entries[i].prev == if i == from then prev else entries[i - 1].hash
  }

  /** A chained run is its first record and a chained run behind it. */
  lemma ChainedStep(entries: seq<Entry>, from: nat, prev: Digest)
    requires from < |entries|
    ensures ChainedFrom(entries, from, prev) <==>
            Follows(entries, from, prev, from) && ChainedFrom(entries, from + 1, entries[from].hash)
  {
    var c, next := from + 1, entries[from].hash;
    if ChainedFrom(entries, from, prev) {
      forall i | c <= i < |entries|
        ensures Follows(entries, c, next, i)
      {
        assert Follows(entries, from, prev, i);
      }
    }
    if Follows(entries, from, prev, from) && ChainedFrom(entries, c, next) {
      forall i | from <= i < |entries|
        ensures Follows(entries, from, prev, i)
      {
        assert i > from ==> Follows(entries, c, next, i);
      }
    }
  }

  /** What a whole-log verification accepts against a mark. */
  predicate StreamVerifies(entries: seq<Entry>, mark: Anchor) {
    && |entries| == mark.count
    && ChainedFrom(entries, 0, Genesis)
    && (entries != [] ==> entries[|entries| - 1].hash == mark.hash)
  }

  lemma ChainHashStep(history: seq<Fields>, f: Fields)
    ensures ChainHash(history + [f]) == Keyed(|history| + 1, ChainHash(history), f)
  {
    assert (history + [f])[..|history|] == history;
  }

  /** What comes later does not change a record. */
  lemma EntryPrefix(t: seq<Fields>, more: seq<Fields>, i: nat)
    requires i < |t|
    ensures EntryAt(t + more, i) == EntryAt(t, i)
  {
    assert (t + more)[..i] == t[..i] && (t + more)[..i + 1] == t[..i + 1];
  }

  lemma MintPrefix(t: seq<Fields>, more: seq<Fields>)
    ensures Mint(t + more)[..|t|] == Mint(t)
  {
    forall i | 0 <= i < |t|
      ensures Mint(t + more)[i] == Mint(t)[i]
    {
      EntryPrefix(t, more, i);
    }
  }

  lemma MintStep(history: seq<Fields>, f: Fields)
    ensures Mint(history + [f]) == Mint(history) + [NextEntry(HeadOf(history), f)]
  {
    var longer := history + [f];
    ChainHashStep(history, f);
    MintPrefix(history, [f]);
    assert longer[..|history|] == history && longer[..|longer|] == longer;
    assert Mint(longer) == Mint(longer)[..|history|] + [Mint(longer)[|history|]];
  }

  lemma EntryVerifies(history: seq<Fields>, i: nat)
    requires i < |history|
    ensures VerifyRecord(EntryAt(history, i))
  {
    assert history[..i + 1][..i] == history[..i];
  }

  /** Two histories with one digest are one history: a digest pins everything under it. */
  lemma {:induction false} ChainHashInjective(a: seq<Fields>, b: seq<Fields>)
    requires ChainHash(a) == ChainHash(b)
    ensures a == b
    decreases |a|
  {
    if a == [] || b == [] {
    } else {
      var m, n := |a| - 1, |b| - 1;
      ChainHashInjective(a[..m], b[..n]);
      assert a == a[..m] + [a[m]] && b == b[..n] + [b[n]];
    }
  }

  /** A true history continued by whatever the log holds past it. */
  function Continued(history: seq<Fields>, entries: seq<Entry>): (longer: seq<Fields>)
    requires |history| <= |entries|
    ensures |longer| == |entries| && longer[..|history|] == history
  {
    history + Contents(entries[|history|..])
  }

  /**
   * A chained run on top of a true history is the continuation of that history: nothing but
   * the minted records passes the position, digest and predecessor checks.
   */
  lemma {:induction false} ChainedRunExtends(history: seq<Fields>, entries: seq<Entry>)
    requires |history| <= |entries|
    requires ChainedFrom(entries, |history|, ChainHash(history))
    ensures forall i :: |history| <= i < |entries| ==>
              entries[i] == EntryAt(Continued(history, entries), i)
    decreases |entries| - |history|
  {
    var c := |history|;
    if c < |entries| {
      var e := entries[c];
      var next := history + [e.fields];
      ChainHashStep(history, e.fields);
      ChainedStep(entries, c, ChainHash(history));
      ChainedRunExtends(next, entries);
      var longer := Continued(history, entries);
      assert longer == Continued(next, entries);
      assert longer[..c + 1] == next;
      assert e == EntryAt(longer, c);
    }
  }

  /** And the minted records do pass: the checks accept exactly the continuation. */
  lemma MintIsChained(history: seq<Fields>, from: nat)
    requires from <= |history|
    ensures ChainedFrom(Mint(history), from, ChainHash(history[..from]))
  {
    forall i | from <= i < |history|
      ensures Follows(Mint(history), from, ChainHash(history[..from]), i)
    {
      MintedFollows(history, from, i);
    }
  }

  lemma MintEndsInItsDigest(history: seq<Fields>)
    requires history != []
    ensures Mint(history)[|history| - 1].hash == ChainHash(history)
  {
    assert history[..|history|] == history;
  }

  lemma MintedFollows(history: seq<Fields>, from: nat, i: nat)
    requires from <= i < |history|
    ensures Follows(Mint(history), from, ChainHash(history[..from]), i)
  {
    EntryVerifies(history, i);
    assert i > from ==> Mint(history)[i - 1] == EntryAt(history, i - 1);
  }

  /** Whole-log verification against a true mark accepts the honest log and no other. */
  lemma VerificationPinsTheLog(entries: seq<Entry>, history: seq<Fields>)
    requires history != []
    ensures StreamVerifies(entries, AnchorOf(history)) <==> entries == Mint(history)
  {
    if StreamVerifies(entries, AnchorOf(history)) {
      ChainedRunExtends([], entries);
      var found := Continued([], entries);
      assert found[..|found|] == found;
      assert entries == Mint(found);
      ChainHashInjective(found, history);
    }
    if entries == Mint(history) {
      MintIsChained(history, 0);
      MintEndsInItsDigest(history);
      assert history[..0] == [];
    }
  }
}
