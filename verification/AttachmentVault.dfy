/** The vault's methods that touch attachments, each tied to what Attachments says it does and costs. */
module AttachmentVault {
  import opened Wrappers
  import opened MapSums
  import opened Attachments

  /** The binaries of a version already looked at. */
  function CountedSoFar(v: Binaries, todo: set<string>): Binaries {
    map k | k in v && k !in todo :: v[k]
  }

  lemma NothingCounted(v: Binaries)
    ensures CountedSoFar(v, v.Keys) == map[]
    ensures InlineOf(CountedSoFar(v, v.Keys)) == 0 && HashedIn(CountedSoFar(v, v.Keys)) == {}
  {
  }

  lemma CountOneMore(v: Binaries, todo: set<string>, name: string)
    requires name in v && name in todo
    ensures
      var before, after := CountedSoFar(v, todo), CountedSoFar(v, todo - {name});
      && InlineOf(after) == InlineOf(before) + InlineSize()(v[name])
      && HashedIn(after) == HashedIn(before) + if v[name].Hashed? then {v[name].data} else {}
  {
    var before := CountedSoFar(v, todo);
    assert CountedSoFar(v, todo - {name}) == before[name := v[name]];
    TotalUpdate(before, InlineSize(), name, v[name]);
    HashedMore(before, name, v[name]);
  }

  ghost predicate Counted(v: Binaries, todo: set<string>, seen: set<Bytes>, bytes: int, hashes: set<Bytes>) {
    && hashes == seen + HashedIn(CountedSoFar(v, todo))
    && bytes == SizeOf(hashes) - SizeOf(seen) + InlineOf(CountedSoFar(v, todo))
  }

  lemma CountStep(v: Binaries, todo: set<string>, seen: set<Bytes>, bytes: int, hashes: set<Bytes>, name: string)
    requires name in v && name in todo && Counted(v, todo, seen, bytes, hashes)
    ensures
      match v[name]
      case Hashed(data) =>
        Counted(v, todo - {name}, seen, bytes + (if data in hashes then 0 else |data|), hashes + {data})
      case Inline(data) => Counted(v, todo - {name}, seen, bytes + Base64Size(|data|), hashes)
  {
    CountOneMore(v, todo, name);
    if v[name].Hashed? {
      SizeWith(hashes, v[name].data);
    }
  }

  class KeePassVault {
    var entries: seq<Entry>
    const settings: Settings

    constructor (entries: seq<Entry>, settings: Settings)
      ensures this.entries == entries && this.settings == settings
    {
      this.entries, this.settings := entries, settings;
    }

    method AttachmentUsage() returns (bytes: int, hashes: set<Bytes>)
      ensures bytes == Usage(entries) && hashes == Hashes(AllVersions(entries))
    {
      bytes, hashes := 0, {};
      for i := 0 to |entries|
        invariant bytes == Usage(entries[..i]) && hashes == Hashes(AllVersions(entries[..i]))
      {
        var versions := Versions(entries[i]);
        bytes, hashes := CountVersions(AllVersions(entries[..i]), versions, bytes, hashes);
        assert entries[..i + 1] == entries[..i] + [entries[i]];
        AllVersionsAppend(entries[..i], [entries[i]]);
        assert AllVersions([entries[i]]) == versions + [] == versions;
      }
      assert entries[..|entries|] == entries;
    }

    /** The middle loop: the versions of one entry, on top of those already counted. */
    method CountVersions(ghost before: seq<Binaries>, versions: seq<Binaries>, counted: int, seen: set<Bytes>)
      returns (bytes: int, hashes: set<Bytes>)
      requires seen == Hashes(before) && counted == SizeOf(seen) + InlineTotal(before)
      ensures hashes == Hashes(before + versions) && bytes == SizeOf(hashes) + InlineTotal(before + versions)
    {
      bytes, hashes := counted, seen;
      assert before + versions[..0] == before;
      for j := 0 to |versions|
        invariant hashes == Hashes(before + versions[..j])
        invariant bytes == SizeOf(hashes) + InlineTotal(before + versions[..j])
      {
        var b, h := CountVersion(versions[j], hashes);
        assert versions[..j + 1] == versions[..j] + [versions[j]];
        assert before + versions[..j + 1] == (before + versions[..j]) + [versions[j]];
        InlineAppend(before + versions[..j], [versions[j]]);
        assert InlineTotal([versions[j]]) == InlineOf(versions[j]) && Hashes([versions[j]]) == HashedIn(versions[j]);
        bytes, hashes := bytes + b, h;
      }
      assert versions[..|versions|] == versions;
    }

    /** The innermost loop: one version's binaries, each hash counted the first time it is met. */
    method CountVersion(v: Binaries, seen: set<Bytes>) returns (bytes: int, hashes: set<Bytes>)
      ensures hashes == seen + HashedIn(v)
      ensures bytes == SizeOf(hashes) - SizeOf(seen) + InlineOf(v)
    {
      bytes, hashes := 0, seen;
      var todo := v.Keys;
      NothingCounted(v);
      while todo != {}
        invariant todo <= v.Keys
        invariant Counted(v, todo, seen, bytes, hashes)
        decreases |todo|
      {
        var name :| name in todo;
        var binary := v[name];
        CountStep(v, todo, seen, bytes, hashes, name);
        todo := todo - {name};
        if binary.Hashed? {
          if binary.data !in hashes {
            bytes := bytes + |binary.data|;
          }
          hashes := hashes + {binary.data};
        } else {
          bytes := bytes + Base64Size(|binary.data|);
        }
      }
      assert CountedSoFar(v, {}) == v;
    }

    method InlineCheckpointBytes(i: nat) returns (bytes: int)
      requires i < |entries|
      ensures bytes == CheckpointCost(entries[i], settings)
    {
      if !settings.HistoryEnabled() {
        return 0;
      }
      bytes := 0;
      var v := entries[i].binaries;
      var todo := v.Keys;
      NothingCounted(v);
      while todo != {}
        invariant todo <= v.Keys
        invariant bytes == InlineOf(CountedSoFar(v, todo))
        decreases |todo|
      {
        var name :| name in todo;
        CountOneMore(v, todo, name);
        todo := todo - {name};
        bytes := bytes + if v[name].Hashed? then 0 else Base64Size(|v[name].data|);
      }
      assert CountedSoFar(v, {}) == v;
    }

    /**
     * An addition that goes ahead leaves the whole vault within its budget, checkpoint and pruning
     * included; one that is refused leaves it as it was.
     */
    method AddAttachment(i: nat, name: string, data: Bytes, aborted: bool) returns (r: Option<Failure>)
      requires i < |entries|
      modifies this
      ensures r == Refusal(old(entries), i, name, data, aborted, settings)
      ensures r.Some? ==> entries == old(entries)
      ensures r.None? ==> entries == old(entries)[i := Added(old(entries)[i], name, data, settings)]
      ensures r.None? ==> Usage(entries) <= MAX_VAULT_ATTACHMENT_BYTES
      ensures r.None? <==>
        && ValidName(name) && |data| <= 10 * 1024 * 1024 && !aborted
        && old(entries)[i].live && name !in old(entries)[i].binaries
        && Usage(old(entries)) + (if settings.HistoryEnabled() then InlineOf(old(entries)[i].binaries) else 0)
           + (if data in Hashes(AllVersions(old(entries))) then 0 else |data|) <= 40 * 1024 * 1024
      ensures r.None? ==> name in entries[i].binaries && entries[i].binaries[name] == Hashed(data)
    {
      if !ValidName(name) {
        return Some(InvalidName);
      }
      if |data| > MAX_ATTACHMENT_BYTES {
        return Some(TooLarge);
      }
      if aborted {
        return Some(Aborted);
      }
      if !entries[i].live {
        return Some(NotLive);
      }
      if name in entries[i].binaries {
        return Some(NameTaken);
      }
      var bytes, hashes := AttachmentUsage();
      var checkpoint := InlineCheckpointBytes(i);
      if bytes + checkpoint + (if data in hashes then 0 else |data|) > MAX_VAULT_ATTACHMENT_BYTES {
        return Some(OverBudget);
      }
      AdditionCost(entries, i, name, data, settings);
      InlineTotalIsNatural(Dropped(entries[i], settings));
      PushHistory(i);
      entries := entries[i := entries[i].(binaries := entries[i].binaries[name := Hashed(data)])];
      assert entries == old(entries)[i := Added(old(entries)[i], name, data, settings)];
      return None;
    }

    method PushHistory(i: nat)
      requires i < |entries|
      modifies this
      ensures entries == old(entries)[i := Checkpointed(old(entries)[i], settings)]
    {
      var e := entries[i];
      if !settings.HistoryEnabled() {
        assert entries == entries[i := e];
        return;
      }
      var history := e.history + [e.binaries];
      var limit := settings.Limit();
      if limit >= 0 && |history| > limit {
        history := history[|history| - limit..];
      }
      entries := entries[i := e.(history := history)];
    }

    method RemoveAttachment(i: nat, name: string, fromHistory: bool) returns (r: Result<bool, Failure>)
      requires i < |entries|
      modifies this
      ensures !old(entries)[i].live ==> r == Err(NotLive)
      ensures old(entries)[i].live ==> r == Ok(name in old(entries)[i].binaries)
      ensures entries == if r == Ok(true)
                         then old(entries)[i := Removed(old(entries)[i], name, settings, fromHistory)]
                         else old(entries)
      ensures r == Ok(true) ==>
        && entries[i].binaries == old(entries)[i].binaries - {name}
        && (fromHistory ==> forall v :: v in entries[i].history ==> name !in v)
      ensures r == Ok(true) ==>
        Usage(entries) == Usage(old(entries)) + RemovalPrice(old(entries)[i], name, settings, fromHistory)
                          - InlineTotal(Dropped(old(entries)[i], settings)) - SizeOf(Freed(old(entries), entries))
    {
      if !entries[i].live {
        return Err(NotLive);
      }
      if name !in entries[i].binaries {
        return Ok(false);
      }
      RemovalCost(entries, i, name, settings, fromHistory);
      PushHistory(i);
      var e := entries[i].(binaries := entries[i].binaries - {name});
      if fromHistory {
        e := e.(history := seq(|e.history|, k requires 0 <= k < |e.history| => e.history[k] - {name}));
      }
      entries := entries[i := e];
      assert entries == old(entries)[i := Removed(old(entries)[i], name, settings, fromHistory)];
      return Ok(true);
    }

    method ClearAttachmentHistory(i: nat) returns (r: Result<bool, Failure>)
      requires i < |entries|
      modifies this
      ensures !old(entries)[i].live ==> r == Err(NotLive) && entries == old(entries)
      ensures old(entries)[i].live ==>
        && r == Ok(exists j :: 0 <= j < |old(entries)[i].history| && old(entries)[i].history[j] != map[])
        && entries == old(entries)[i := Cleared(old(entries)[i])]
    {
      var e := entries[i];
      if !e.live {
        return Err(NotLive);
      }
      if forall j :: 0 <= j < |e.history| ==> e.history[j] == map[] {
        assert Cleared(e).history == e.history;
        assert entries == entries[i := Cleared(e)];
        return Ok(false);
      }
      entries := entries[i := Cleared(e)];
      return Ok(true);
    }

    method RestoreEntryVersion(i: nat, index: nat) returns (r: Option<Failure>)
      requires i < |entries|
      modifies this
      ensures r == RestoreRefusal(old(entries)[i], index, settings)
      ensures entries == if r.None?
                         then old(entries)[i := Restored(old(entries)[i], old(entries)[i].history[index], settings)]
                         else old(entries)
    {
      if !entries[i].live {
        return Some(NotLive);
      }
      if index >= |entries[i].history| {
        return Some(NoVersion);
      }
      if !settings.HistoryEnabled() {
        return Some(HistoryOff);
      }
      var version := entries[i].history[index];
      PushHistory(i);
      entries := entries[i := entries[i].(binaries := version)];
      assert entries == old(entries)[i := Restored(old(entries)[i], version, settings)];
      return None;
    }

    /** updateEntry, with a field or the group changed; `live` is whether the group lies outside the bin. */
    method UpdateEntry(i: nat, live: bool)
      requires i < |entries|
      modifies this
      ensures entries == old(entries)[i := Edited(old(entries)[i], live, settings)]
    {
      PushHistory(i);
      entries := entries[i := entries[i].(live := live)];
      assert entries == old(entries)[i := Edited(old(entries)[i], live, settings)];
    }

    /** recoverEntryCopy: a live entry of another vault comes in with its history, unchecked. */
    method RecoverEntryCopy(source: Entry) returns (r: Option<Failure>)
      modifies this
      ensures r == (if source.live then None else Some(NotLive))
      ensures entries == if source.live then old(entries) + [source] else old(entries)
    {
      if !source.live {
        return Some(NotLive);
      }
      entries := entries + [source];
      return None;
    }
  }

  lemma HashedMore(v: Binaries, name: string, b: Binary)
    requires name !in v
    ensures HashedIn(v[name := b]) == HashedIn(v) + if b.Hashed? then {b.data} else {}
  {
    var w := v[name := b];
    forall x | x in HashedIn(v)
      ensures x in HashedIn(w)
    {
      var k :| k in v && v[k].Hashed? && v[k].data == x;
      assert k in w && w[k] == v[k];
    }
    if b.Hashed? {
      assert name in w && w[name].data == b.data;
    }
  }
}
