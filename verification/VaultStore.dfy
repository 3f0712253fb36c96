/**
 * One user's vault on the server: the current ciphertext and its metadata, the archived versions
 * and the preserved rejected uploads.
 */
module VaultStore {
  import opened Wrappers
  import opened Collections
  import opened HistoryThinning
  import opened VaultPaths

  type Ciphertext = seq<bv8>

  /** SHA-256, as the content it identifies. */
  datatype Checksum = NoChecksum | Sha256(of: Ciphertext)

  datatype Archive = Archive(data: Ciphertext, at: int)

  /** What a rejected upload is answered with. */
  datatype Conflict = Conflict(currentVersion: nat, expectedVersion: int, id: string)

  datatype Metadata = Metadata(version: nat, checksum: Checksum, size: nat, updatedAt: int,
                               updatedBy: string, passwordEnvelope: string, recoveryEnvelope: string)

  const NANOS_PER_SECOND := 1_000_000_000

  /** The longest name a directory takes, in bytes. */
  const MAX_NAME := 255

  /** What a file may be called. */
  predicate Fits(leaf: string) {
    Utf8Length(leaf) <= MAX_NAME && '\0' !in leaf
  }

  predicate PlainName(device: string) {
    '/' !in device && '\\' !in device && '\0' !in device
  }

  /** Printable names without slashes of either kind are plain, and short ones fit. */
  lemma WhatIsPlain(name: string)
    requires forall i :: 0 <= i < |name| ==> ' ' <= name[i] <= '~' && name[i] != '/' && name[i] != '\\'
    ensures PlainName(name)
    ensures Fits(name) <==> |name| <= 255
    ensures name != "" && name[0] != '.' ==> ValidConflictId(name)
  {
    AsciiLength(name);
  }

  /** A conflict is looked up by a name, never by a path. */
  predicate ValidConflictId(id: string) {
    id != "" && id != "." && id != ".." && '/' !in id && '\\' !in id && '\0' !in id
  }

  // ---------------------------------------------------------------- what the store promises

  /** Every content the server has accepted, oldest first: version v is `accepted[v - 1]`. */
  type Ledger = seq<Ciphertext>

  /** An upload is accepted exactly when its base is the current version. */
  function Saved<T>(accepted: seq<T>, expected: int, data: T): seq<T> {
    if expected == |accepted| then accepted + [data] else accepted
  }

  ghost predicate Lists(all: seq<Snapshot>, archives: map<HistoryId, Archive>, cutoff: int) {
    && NewestFirst(all) && Distinct(all)
    && (forall x :: x in all <==> x.id in archives && archives[x.id].at == x.at && cutoff <= x.at)
  }

  function Names(s: seq<Snapshot>): set<HistoryId> {
    set x | x in s :: x.id
  }

  /** `after` is what expiry and thinning leave of `before`. */
  ghost predicate Pruned(before: map<HistoryId, Archive>, after: map<HistoryId, Archive>, cutoff: int) {
    && (forall id :: id in after ==> id in before && after[id] == before[id])
    && Selected(before, after.Keys, cutoff)
  }

  ghost predicate Selected(before: map<HistoryId, Archive>, left: set<HistoryId>, cutoff: int) {
    exists all, kept, picks :: PrunedBy(before, left, cutoff, all, kept, picks)
  }

  ghost predicate PrunedBy(before: map<HistoryId, Archive>, left: set<HistoryId>, cutoff: int,
                           all: seq<Snapshot>, kept: seq<Snapshot>, picks: seq<nat>)
  {
    && Lists(all, before, cutoff)
    && Covers(all, kept, picks)
    && |kept| == (if |all| < MAX_SNAPSHOTS then |all| else MAX_SNAPSHOTS)
    && left == Names(kept)
  }

  ghost predicate IsArchiveOf(id: HistoryId, version: int) {
    exists second, beforeRollback :: id == ArchiveFile(second, version, beforeRollback)
  }

  /**
   * Every accepted content but the current one is archived under an ID of its own version, until
   * pruning takes it; nothing else is archived but what a rejected upload's path put there.
   */
  ghost predicate Accounted(accepted: seq<Ciphertext>, archivedAs: seq<HistoryId>, archives: map<HistoryId, Archive>,
                            pruned: set<HistoryId>)
  {
    && |archivedAs| == (if |accepted| == 0 then 0 else |accepted| - 1)
    && (forall v :: 0 <= v < |archivedAs| ==> IsArchiveOf(archivedAs[v], v + 1))
    && (forall v :: 0 <= v < |archivedAs| ==>
          || archivedAs[v] in pruned
          || (archivedAs[v] in archives && archives[archivedAs[v]].data == accepted[v]))
    && (forall id :: id in archives || id in pruned ==> id in archivedAs || IsConflictLeaf(id))
    && archives.Keys !! pruned
  }

  lemma NewArchiveIsNew(accepted: seq<Ciphertext>, archivedAs: seq<HistoryId>, archives: map<HistoryId, Archive>,
                        pruned: set<HistoryId>, second: int, beforeRollback: bool)
    requires Accounted(accepted, archivedAs, archives, pruned) && accepted != []
    ensures ArchiveFile(second, |accepted|, beforeRollback) !in archives
    ensures ArchiveFile(second, |accepted|, beforeRollback) !in pruned
  {
    var id := ArchiveFile(second, |accepted|, beforeRollback);
    if IsConflictLeaf(id) {
      ConflictLeafIsNoArchive(id, second, |accepted|, beforeRollback);
    }
    forall v | 0 <= v < |archivedAs|
      ensures archivedAs[v] != id
    {
      var s, b :| archivedAs[v] == ArchiveFile(s, v + 1, b);
      if archivedAs[v] == id {
        ArchiveFilesDiffer(s, v + 1, b, second, |accepted|, beforeRollback);
      }
    }
  }

  lemma ReplacedIsAccounted(accepted: seq<Ciphertext>, archivedAs: seq<HistoryId>, archives: map<HistoryId, Archive>,
                            pruned: set<HistoryId>, id: HistoryId, now: int, data: Ciphertext)
    requires Accounted(accepted, archivedAs, archives, pruned) && accepted != []
    requires IsArchiveOf(id, |accepted|) && id !in archives && id !in pruned
    ensures Accounted(accepted + [data], archivedAs + [id],
                      archives[id := Archive(accepted[|accepted| - 1], now)], pruned)
  {
    var as', more := archivedAs + [id], archives[id := Archive(accepted[|accepted| - 1], now)];
    forall v | 0 <= v < |as'|
      ensures IsArchiveOf(as'[v], v + 1)
    {
      assert v < |archivedAs| ==> as'[v] == archivedAs[v];
    }
    EachIsSomewhere(accepted, archivedAs, archives, pruned, id, now, data);
    forall x | x in more || x in pruned
      ensures x in as' || IsConflictLeaf(x)
    {
      assert x in archivedAs ==> x in as';
    }
  }

  lemma EachIsSomewhere(accepted: seq<Ciphertext>, archivedAs: seq<HistoryId>, archives: map<HistoryId, Archive>,
                        pruned: set<HistoryId>, id: HistoryId, now: int, data: Ciphertext)
    requires accepted != [] && |archivedAs| == |accepted| - 1 && id !in archives && id !in pruned
    requires forall v :: 0 <= v < |archivedAs| ==>
               || archivedAs[v] in pruned
               || (archivedAs[v] in archives && archives[archivedAs[v]].data == accepted[v])
    ensures
      var as', more := archivedAs + [id], archives[id := Archive(accepted[|accepted| - 1], now)];
      forall v :: 0 <= v < |as'| ==>
        as'[v] in pruned || (as'[v] in more && more[as'[v]].data == (accepted + [data])[v])
  {
  }

  lemma PrunedIsAccounted(accepted: seq<Ciphertext>, archivedAs: seq<HistoryId>, archives: map<HistoryId, Archive>,
                          after: map<HistoryId, Archive>, pruned: set<HistoryId>, cutoff: int)
    requires Accounted(accepted, archivedAs, archives, pruned) && Pruned(archives, after, cutoff)
    ensures Accounted(accepted, archivedAs, after, pruned + (archives.Keys - after.Keys))
  {
  }

  /** A rejected upload among the archives takes no archive's place. */
  lemma StrayIsAccounted(accepted: seq<Ciphertext>, archivedAs: seq<HistoryId>, archives: map<HistoryId, Archive>,
                         pruned: set<HistoryId>, leaf: string, stray: Archive)
    requires Accounted(accepted, archivedAs, archives, pruned) && IsConflictLeaf(leaf)
    ensures Accounted(accepted, archivedAs, archives[leaf := stray], pruned - {leaf})
    ensures leaf !in archivedAs
  {
    forall v | 0 <= v < |archivedAs|
      ensures archivedAs[v] != leaf
    {
      var s, b :| archivedAs[v] == ArchiveFile(s, v + 1, b);
      ConflictLeafIsNoArchive(leaf, s, v + 1, b);
    }
  }

  class Vault {
    var meta: Metadata
    var kdbx: Option<Ciphertext>
    var archives: map<HistoryId, Archive>
    var conflicts: map<string, Ciphertext>
    const retention: nat
    const home: Path    // the user's own directory

    ghost var accepted: Ledger
    ghost var archivedAs: seq<HistoryId>   // the name version v + 1 was archived under
    ghost var pruned: set<HistoryId>       // pruned, and not put there again since

    /** The checksum and size on record are those of the stored ciphertext. */
    ghost predicate Matched()
      reads this
    {
      match kdbx
      case None => meta.version == 0
      case Some(data) => meta.version > 0 && meta.checksum == Sha256(data) && meta.size == |data|
    }

    /**
     * Nothing accepted is lost before pruning takes it: each version is current, archived under
     * its own name with its own content, or was pruned under that name.
     */
    ghost predicate Valid()
      reads this
    {
      && Matched()
      && meta.version == |accepted|
      && (kdbx.Some? ==> kdbx.value == accepted[|accepted| - 1])
      && Accounted(accepted, archivedAs, archives, pruned)
    }

    constructor (retentionDays: int, home: Path)
      ensures Valid() && accepted == [] && archives == map[] && conflicts == map[] && this.home == home
      ensures retention == (if retentionDays <= 0 then 90 else retentionDays) * 86_400 * NANOS_PER_SECOND
    {
      this.home := home;
      retention := (if retentionDays <= 0 then 90 else retentionDays) * 86_400 * NANOS_PER_SECOND;
      meta := Metadata(0, NoChecksum, 0, 0, "", "", "");
      kdbx, archives, conflicts := None, map[], map[];
      accepted, archivedAs, pruned := [], [], {};
    }

    /** Archiving the current ciphertext makes room for `data` in the account. */
    lemma ArchivedIsAccounted(beforeRollback: bool, now: int, data: Ciphertext)
      requires Valid()
      ensures
        var as' := if meta.version > 0 then archivedAs + [CurrentId(beforeRollback)] else archivedAs;
        Accounted(accepted + [data], as', Grown(beforeRollback, now), pruned)
      ensures meta.version > 0 ==> CurrentId(beforeRollback) !in archives && CurrentId(beforeRollback) !in pruned
    {
      if meta.version > 0 {
        CurrentIdIsNew(beforeRollback);
        ReplacedIsAccounted(accepted, archivedAs, archives, pruned, CurrentId(beforeRollback), now, data);
      }
    }

    /** Copies the current ciphertext into the history before `data` replaces it. */
    method ArchiveCurrent(beforeRollback: bool, now: int, ghost data: Ciphertext)
      requires Valid()
      modifies this`archives, this`archivedAs
      ensures archives == old(Grown(beforeRollback, now)) && old(archivedAs) <= archivedAs
      ensures Accounted(accepted + [data], archivedAs, archives, pruned)
      ensures meta.version > 0 ==> old(CurrentId(beforeRollback)) !in old(archives)
                                   && old(CurrentId(beforeRollback)) !in pruned
    {
      ArchivedIsAccounted(beforeRollback, now, data);
      if meta.version > 0 {
        var id := CurrentId(beforeRollback);
        archives := archives[id := Archive(kdbx.value, now)];
        archivedAs := archivedAs + [id];
      }
    }

    function CurrentId(beforeRollback: bool): HistoryId
      reads this
    {
      ArchiveFile(meta.updatedAt / NANOS_PER_SECOND, meta.version, beforeRollback)
    }

    lemma CurrentIdIsNew(beforeRollback: bool)
      requires Valid() && meta.version > 0
      ensures IsArchiveOf(CurrentId(beforeRollback), meta.version)
      ensures CurrentId(beforeRollback) !in archives && CurrentId(beforeRollback) !in pruned
    {
      NewArchiveIsNew(accepted, archivedAs, archives, pruned, meta.updatedAt / NANOS_PER_SECOND, beforeRollback);
    }

    /** The archives once the current ciphertext has joined them. */
    ghost function Grown(beforeRollback: bool, now: int): map<HistoryId, Archive>
      requires Valid()
      reads this
    {
      if meta.version == 0 then archives
      else archives[CurrentId(beforeRollback) := Archive(accepted[|accepted| - 1], now)]
    }

    /** Puts a ciphertext in place as the next version, over an archived current one. */
    method Replace(data: Ciphertext, author: string, password: string, recovery: string, beforeRollback: bool, now: int)
      requires Valid()
      modifies this`archives, this`kdbx, this`meta, this`accepted, this`archivedAs
      ensures Valid()
      ensures accepted == old(accepted) + [data]
      ensures kdbx == Some(data)
      ensures meta == Metadata(old(meta.version) + 1, Sha256(data), |data|, now, author,
                               if password != "" then password else old(meta.passwordEnvelope),
                               if recovery != "" then recovery else old(meta.recoveryEnvelope))
      ensures archives == old(Grown(beforeRollback, now))
      ensures archives == if old(meta.version) == 0 then old(archives)
        else old(archives)[ArchiveFile(old(meta.updatedAt) / 1_000_000_000, old(meta.version), beforeRollback) :=
                           Archive(old(accepted)[old(meta.version) - 1], now)]
      ensures old(archivedAs) <= archivedAs
    {
      ArchiveCurrent(beforeRollback, now, data);
      kdbx := Some(data);
      meta := Metadata(meta.version + 1, Sha256(data), |data|, now, author,
                       if password != "" then password else meta.passwordEnvelope,
                       if recovery != "" then recovery else meta.recoveryEnvelope);
      accepted := accepted + [data];
    }

    /** What saving and restoring share: the replacement, and then pruning. */
    method Install(data: Ciphertext, author: string, password: string, recovery: string, beforeRollback: bool, now: int)
      requires Valid()
      modifies this`archives, this`kdbx, this`meta, this`accepted, this`archivedAs, this`pruned
      ensures Valid()
      ensures accepted == old(accepted) + [data]
      ensures kdbx == Some(data)
      ensures meta == Metadata(old(meta.version) + 1, Sha256(data), |data|, now, author,
                               if password != "" then password else old(meta.passwordEnvelope),
                               if recovery != "" then recovery else old(meta.recoveryEnvelope))
      ensures Pruned(old(Grown(beforeRollback, now)), archives, now - retention)
      ensures pruned == old(pruned) + (old(Grown(beforeRollback, now)).Keys - archives.Keys)
      ensures old(archivedAs) <= archivedAs
    {
      Replace(data, author, password, recovery, beforeRollback, now);
      Prune(now);
    }

    function ConflictsDir(): Path {
      home + ["conflicts"]
    }

    function HistoryDir(): Path {
      home + ["history"]
    }

    /** What a file that arrives under `leaf` in `folder` becomes, whoever wrote it. */
    ghost function ArchivesWith(folder: Path, leaf: string, data: Ciphertext, now: int): map<HistoryId, Archive>
      reads this
    {
      if folder == HistoryDir() && Fits(leaf) then archives[leaf := Archive(data, now)] else archives
    }

    ghost function ConflictsWith(folder: Path, leaf: string, data: Ciphertext): map<string, Ciphertext>
      reads this
    {
      if folder == ConflictsDir() && Fits(leaf) then conflicts[leaf := data] else conflicts
    }

    /** Writes a rejected upload to where its path leads; that it cannot be written is not reported. */
    method Keep(folder: Path, leaf: string, data: Ciphertext, now: int)
      requires Valid() && IsConflictLeaf(leaf)
      modifies this`conflicts, this`archives, this`pruned
      ensures Valid()
      ensures conflicts == old(ConflictsWith(folder, leaf, data))
      ensures archives == old(ArchivesWith(folder, leaf, data, now))
      ensures folder != HistoryDir() ==> pruned == old(pruned)
      ensures pruned <= old(pruned)
    {
      if !Fits(leaf) {
        return;
      }
      assert ConflictsDir()[|home|] != HistoryDir()[|home|];
      ConflictLeafIsNotCurrent(leaf);
      if folder == home && leaf == CURRENT {
        assert false;
      } else if folder == ConflictsDir() {
        conflicts := conflicts[leaf := data];
      } else if folder == HistoryDir() {
        StrayIsAccounted(accepted, archivedAs, archives, pruned, leaf, Archive(data, now));
        archives := archives[leaf := Archive(data, now)];
        pruned := pruned - {leaf};
      }
    }

    /** A device name can lead a rejected upload into the history: it is archived, and no conflict is kept. */
    lemma RejectedAmongArchives(front: string, back: string, expected: int, data: Ciphertext, now: int)
      requires '/' !in front && '/' !in back && Fits(back + ConflictTail(expected))
      ensures
        var file := ConflictFile(now, Roundabout(front, back), expected);
        var folder, leaf := Folder(ConflictsDir(), file), Leaf(file);
        && ArchivesWith(folder, leaf, data, now) == archives[back + ConflictTail(expected) := Archive(data, now)]
        && ConflictsWith(folder, leaf, data) == conflicts
    {
      ConflictAmongArchives(home, now, front, back, expected);
      assert ConflictsDir()[|home|] != HistoryDir()[|home|];
    }

    /** OpenConflict: what a conflict's ID leads to. */
    function OpenConflict(id: string): Option<Ciphertext>
      reads this
    {
      if ValidConflictId(id) && Fits(id + SUFFIX) && id + SUFFIX in conflicts then Some(conflicts[id + SUFFIX])
      else None
    }

    method Reject(expected: int, data: Ciphertext, device: string, now: int) returns (id: string)
      requires Valid()
      modifies this`conflicts, this`archives, this`pruned
      ensures Valid() && id == Decimal(now) + "_" + device + ExpectedEnd(expected)
      ensures
        var file := ConflictFile(now, device, expected);
        var folder, leaf := Folder(ConflictsDir(), file), Leaf(file);
        && conflicts == old(ConflictsWith(folder, leaf, data))
        && archives == old(ArchivesWith(folder, leaf, data, now))
        && (OpenConflict(id) == Some(data) <==> PlainName(device) && Utf8Length(file) <= MAX_NAME)
    {
      id := Decimal(now) + "_" + device + ExpectedEnd(expected);
      var file := ConflictFile(now, device, expected);
      ConflictId(now, device, expected);
      ConflictLeaf(now, device, expected);
      if '/' !in device {
        PlainConflict(ConflictsDir(), now, device, expected);
      }
      Keep(Folder(ConflictsDir(), file), Leaf(file), data, now);
    }

    /**
     * Accepts an upload made against the current version. Any other leaves the current version
     * as it is and goes to the file its device's name spells: among the conflicts or, through
     * that name, elsewhere. The ID it is answered with leads to it exactly when the name is
     * plain and short enough.
     */
    method SaveVault(expected: int, data: Ciphertext, password: string, recovery: string, device: string, now: int)
      returns (r: Result<Metadata, Conflict>)
      requires Valid()
      modifies this
      ensures Valid()
      ensures accepted == Saved(old(accepted), expected, data)
      ensures expected == old(meta.version) ==> r == Ok(meta) && meta.version == old(meta.version) + 1
      ensures expected == old(meta.version) ==> conflicts == old(conflicts)
      ensures expected != old(meta.version) ==>
        var file := ConflictFile(now, device, expected);
        var folder, leaf := Folder(ConflictsDir(), file), Leaf(file);
        && r == Err(Conflict(old(meta.version), expected, Decimal(now) + "_" + device + ExpectedEnd(expected)))
        && meta == old(meta) && kdbx == old(kdbx)
        && conflicts == old(ConflictsWith(folder, leaf, data))
        && archives == old(ArchivesWith(folder, leaf, data, now))
        && (OpenConflict(r.error.id) == Some(data) <==> PlainName(device) && Utf8Length(file) <= MAX_NAME)
      ensures expected == old(meta.version) ==>
        && kdbx == Some(data)
        && meta == Metadata(old(meta.version) + 1, Sha256(data), |data|, now, device,
                            if password != "" then password else old(meta.passwordEnvelope),
                            if recovery != "" then recovery else old(meta.recoveryEnvelope))
        && Pruned(old(Grown(false, now)), archives, now - retention)
        && pruned == old(pruned) + (old(Grown(false, now)).Keys - archives.Keys)
      ensures old(archivedAs) <= archivedAs
    {
      if expected != meta.version {
        var id := Reject(expected, data, device, now);
        return Err(Conflict(meta.version, expected, id));
      }
      Install(data, device, password, recovery, false, now);
      r := Ok(meta);
    }

    /** What reading a file gives: this user's files, or `outside` for a path that leaves them. */
    function FileAt(folder: Path, leaf: string, outside: Option<Ciphertext>): Option<Ciphertext>
      reads this
    {
      if !Fits(leaf) then None
      else if folder == HistoryDir() then (if leaf in archives then Some(archives[leaf].data) else None)
      else if folder == ConflictsDir() then (if leaf in conflicts then Some(conflicts[leaf]) else None)
      else if folder == home && leaf == CURRENT then kdbx
      else outside
    }

    /** Makes the file a history ID leads to current, as a new version. */
    method RestoreHistory(id: string, outside: Option<Ciphertext>, now: int) returns (r: Option<Metadata>)
      requires Valid()
      modifies this
      ensures Valid()
      ensures conflicts == old(conflicts)
      ensures
        var found := old(FileAt(Folder(HistoryDir(), id + SUFFIX), Leaf(id + SUFFIX), outside));
        && (found.None? ==>
              && r == None && accepted == old(accepted)
              && meta == old(meta) && kdbx == old(kdbx) && archives == old(archives))
        && (found.Some? ==>
              && r == Some(meta)
              && accepted == old(accepted) + [found.value]
              && kdbx == found
              && meta.version == old(meta.version) + 1 && meta.updatedBy == "rollback"
              && meta.passwordEnvelope == old(meta.passwordEnvelope)
              && meta.recoveryEnvelope == old(meta.recoveryEnvelope)
              && Pruned(old(Grown(true, now)), archives, now - retention)
              && pruned == old(pruned) + (old(Grown(true, now)).Keys - archives.Keys))
      ensures old(archivedAs) <= archivedAs
    {
      var found := FileAt(Folder(HistoryDir(), id + SUFFIX), Leaf(id + SUFFIX), outside);
      if found.None? {
        return None;
      }
      Install(found.value, "rollback", "", "", true, now);
      r := Some(meta);
    }

    /** A listed archive of the store's own making restores the version it was made of. */
    lemma RestoringAnArchive(v: nat, outside: Option<Ciphertext>)
      requires Valid() && v < |archivedAs| && archivedAs[v] !in pruned && Utf8Length(archivedAs[v]) <= MAX_NAME
      ensures
        var file := archivedAs[v];
        && Folder(HistoryDir(), file) == HistoryDir() && Leaf(file) == file
        && FileAt(HistoryDir(), file, outside) == Some(accepted[v])
    {
      var second, beforeRollback :| archivedAs[v] == ArchiveFile(second, v + 1, beforeRollback);
      PlainIsOneSegment(archivedAs[v]);
      assert Segments(archivedAs[v])[..0] == [];
    }

    /** SaveEnvelopes: wrapped keys change, the ciphertext and its version do not. */
    method SaveEnvelopes(password: string, recovery: string, now: int)
      requires Valid()
      modifies this`meta
      ensures Valid()
      ensures meta == old(meta).(updatedAt := now,
                                 passwordEnvelope := if password != "" then password else old(meta.passwordEnvelope),
                                 recoveryEnvelope := if recovery != "" then recovery else old(meta.recoveryEnvelope))
    {
      meta := meta.(updatedAt := now,
                    passwordEnvelope := if password != "" then password else meta.passwordEnvelope,
                    recoveryEnvelope := if recovery != "" then recovery else meta.recoveryEnvelope);
    }

    method DiscardConflict(id: string) returns (found: bool)
      requires Valid()
      modifies this`conflicts
      ensures Valid()
      ensures found == (ValidConflictId(id) && id + SUFFIX in old(conflicts))
      ensures conflicts == if found then old(conflicts) - {id + SUFFIX} else old(conflicts)
    {
      if !ValidConflictId(id) {
        return false;
      }
      found := id + SUFFIX in conflicts;
      if found {
        conflicts := conflicts - {id + SUFFIX};
      }
    }

    /** Removes expired archives and thins the rest. Only archives change, and only by going. */
    method Prune(now: int)
      requires Valid()
      modifies this`archives, this`pruned
      ensures Valid()
      ensures Pruned(old(archives), archives, now - retention)
      ensures pruned == old(pruned) + (old(archives).Keys - archives.Keys)
    {
      var after := PruneOldHistory(archives, now - retention);
      PrunedIsAccounted(accepted, archivedAs, archives, after, pruned, now - retention);
      pruned := pruned + (archives.Keys - after.Keys);
      archives := after;
    }

    /** A capture of the store is refused unless the metadata and ciphertext belong together. */
    method Snapshot() returns (ok: bool)
      requires Valid()
      ensures ok
    {
      if meta.version == 0 {
        return true;
      }
      if kdbx.None? {
        return false;
      }
      ok := Sha256(kdbx.value) == meta.checksum && |kdbx.value| == meta.size;
    }
  }

  /** The archives a prune leaves: the fresh ones, thinned to the limit. */
  method SelectKept(archives: map<HistoryId, Archive>, cutoff: int) returns (left: set<HistoryId>)
    ensures Selected(archives, left, cutoff)
    ensures left <= archives.Keys
  {
    var times := map id | id in archives && archives[id].at >= cutoff :: archives[id].at;
    var all := Ordered(times);
    var kept, picks := Thin(all);
    left := Names(kept);
    KeptAreListed(all, kept, picks);
    assert PrunedBy(archives, left, cutoff, all, kept, picks);
  }

  method PruneOldHistory(archives: map<HistoryId, Archive>, cutoff: int) returns (after: map<HistoryId, Archive>)
    ensures Pruned(archives, after, cutoff)
  {
    var left := SelectKept(archives, cutoff);
    after := map id | id in archives && id in left :: archives[id];
    assert after.Keys == left;
  }

  lemma KeptAreListed(all: seq<Snapshot>, kept: seq<Snapshot>, picks: seq<nat>)
    requires Covers(all, kept, picks)
    ensures forall x :: x in kept ==> x in all
  {
  }

  lemma EndsBound(all: seq<Snapshot>, kept: seq<Snapshot>, picks: seq<nat>, x: Snapshot)
    requires NewestFirst(all) && Covers(all, kept, picks) && x in all
    ensures kept != [] && kept[|kept| - 1].at <= x.at <= kept[0].at
  {
    var i :| 0 <= i < |all| && all[i] == x;
    assert kept[0] == all[0] && kept[|kept| - 1] == all[|all| - 1];
  }

  /** Pruning never takes the newest fresh archive or the oldest, whatever else it takes. */
  lemma PruningKeepsTheEnds(before: map<HistoryId, Archive>, after: map<HistoryId, Archive>, cutoff: int)
    requires Pruned(before, after, cutoff)
    ensures forall id :: id in after ==> cutoff <= before[id].at
    ensures forall id :: id in before && cutoff <= before[id].at ==>
              exists a, b :: a in after && b in after && before[a].at <= before[id].at <= before[b].at
  {
    var all: seq<Snapshot>, kept: seq<Snapshot>, picks: seq<nat> :|
      PrunedBy(before, after.Keys, cutoff, all, kept, picks);
    KeptAreListed(all, kept, picks);
    forall id | id in before && cutoff <= before[id].at
      ensures exists a, b :: a in after && b in after && before[a].at <= before[id].at <= before[b].at
    {
      EndsBound(all, kept, picks, Snapshot(id, before[id].at));
      EndsAreKept(before, after.Keys, cutoff, all, kept, picks);
      assert before[kept[|kept| - 1].id].at <= before[id].at <= before[kept[0].id].at;
    }
  }

  lemma EndsAreKept(before: map<HistoryId, Archive>, left: set<HistoryId>, cutoff: int,
                    all: seq<Snapshot>, kept: seq<Snapshot>, picks: seq<nat>)
    requires PrunedBy(before, left, cutoff, all, kept, picks) && kept != []
    ensures
      forall x :: x == kept[0] || x == kept[|kept| - 1] ==>
        x.id in left && x.id in before && before[x.id].at == x.at
  {
    KeptAreListed(all, kept, picks);
    assert kept[0] in kept && kept[|kept| - 1] in kept;
  }
}
