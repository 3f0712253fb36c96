/**
 * Importing previewed rows into a vault: duplicates are skipped, every folder name is checked
 * before anything is created, and each row lands in the group its folder path names.
 *
 * What lower-casing and trimming must do for it is stated in FolderPaths.
 */
module CsvImport {
  import opened Wrappers
  import opened Collections
  import opened FolderPaths

  /** Everything a CSV row can say about an entry; what duplicates are compared on. */
  datatype Content =
    Content(title: string, username: string, password: string, url: string, notes: string, totp: string)

  datatype Item = Item(id: string, content: Content, folder: string, selected: bool)

  datatype Entry = Entry(content: Content, group: nat)

  datatype ImportError = BadName | TooDeep | NoFolder

  datatype Summary = Summary(imported: nat, skipped: nat, folders: seq<string>)

  const MAX_FOLDER_DEPTH := 16

  // ---------------------------------------------------------------- duplicates

  function KeyOf(item: Item): Content {
    item.content.(title := if item.content.title == "" then "Untitled" else item.content.title)
  }

  /** Rows already in the vault, or selected earlier in the same file. */
  function Duplicates(seen: set<Content>, items: seq<Item>): set<string>
    decreases |items|
  {
    if items == [] then {}
    else
      var key := KeyOf(items[0]);
      (if key in seen then {items[0].id} else {})
      + Duplicates(if items[0].selected then seen + {key} else seen, items[1..])
  }

  function Selected(items: seq<Item>): seq<Item> {
    if items == [] then [] else (if items[0].selected then [items[0]] else []) + Selected(items[1..])
  }

  function Pending(items: seq<Item>, duplicates: set<string>): seq<Item> {
    if items == [] then []
    else (if items[0].selected && items[0].id !in duplicates then [items[0]] else []) + Pending(items[1..], duplicates)
  }

  /** The row's content is there already, or in a row selected before it. */
  predicate Flagged(seen: set<Content>, items: seq<Item>, i: nat)
    requires i < |items|
  {
    KeyOf(items[i]) in seen || exists j :: 0 <= j < i && items[j].selected && KeyOf(items[j]) == KeyOf(items[i])
  }

  /** Exactly such rows are flagged. */
  lemma {:induction false} DuplicatesAreFlagged(seen: set<Content>, items: seq<Item>, id: string)
    ensures id in Duplicates(seen, items) <==>
            exists i :: 0 <= i < |items| && items[i].id == id && Flagged(seen, items, i)
    decreases |items|
  {
    if items != [] {
      var more := if items[0].selected then seen + {KeyOf(items[0])} else seen;
      var rest := items[1..];
      DuplicatesAreFlagged(more, rest, id);
      forall i | 0 < i < |items|
        ensures Flagged(seen, items, i) <==> Flagged(more, rest, i - 1)
      {
        FlaggedBehind(seen, items, i);
      }
      assert Flagged(seen, items, 0) <==> KeyOf(items[0]) in seen;
      if i :| 0 <= i < |rest| && rest[i].id == id && Flagged(more, rest, i) {
        assert items[i + 1] == rest[i] && Flagged(seen, items, i + 1);
      }
      if i :| 0 < i < |items| && items[i].id == id && Flagged(seen, items, i) {
        assert items[i] == rest[i - 1] && Flagged(more, rest, i - 1);
      }
    }
  }

  lemma FlaggedBehind(seen: set<Content>, items: seq<Item>, i: nat)
    requires 0 < i < |items|
    ensures
      var more := if items[0].selected then seen + {KeyOf(items[0])} else seen;
      Flagged(seen, items, i) <==> Flagged(more, items[1..], i - 1)
  {
    var more := if items[0].selected then seen + {KeyOf(items[0])} else seen;
    var rest := items[1..];
    if Flagged(seen, items, i) && KeyOf(items[i]) !in seen {
      var j :| 0 <= j < i && items[j].selected && KeyOf(items[j]) == KeyOf(items[i]);
      if j > 0 {
        assert rest[j - 1] == items[j];
      }
    }
    if Flagged(more, rest, i - 1) && KeyOf(rest[i - 1]) !in more {
      var j :| 0 <= j < i - 1 && rest[j].selected && KeyOf(rest[j]) == KeyOf(rest[i - 1]);
      assert items[j + 1] == rest[j];
    }
  }

  /** What is pending, and what is selected, row by row and in order. */
  lemma {:induction false} PendingRowByRow(items: seq<Item>, item: Item, duplicates: set<string>)
    ensures Pending(items + [item], duplicates) ==
            Pending(items, duplicates) + if item.selected && item.id !in duplicates then [item] else []
    ensures Selected(items + [item]) == Selected(items) + if item.selected then [item] else []
    decreases |items|
  {
    if items != [] {
      assert (items + [item])[1..] == items[1..] + [item];
      PendingRowByRow(items[1..], item, duplicates);
    } else {
      assert items + [item] == [item] && [item][1..] == [];
    }
  }

  lemma {:induction false} DuplicatesGrow(seen: set<Content>, more: set<Content>, items: seq<Item>)
    requires seen <= more
    ensures Duplicates(seen, items) <= Duplicates(more, items)
    decreases |items|
  {
    if items != [] {
      var key := KeyOf(items[0]);
      DuplicatesGrow(if items[0].selected then seen + {key} else seen,
                     if items[0].selected then more + {key} else more, items[1..]);
    }
  }

  lemma {:induction false} PresentIsDuplicate(seen: set<Content>, items: seq<Item>, i: nat)
    requires i < |items| && KeyOf(items[i]) in seen
    ensures items[i].id in Duplicates(seen, items)
    decreases |items|
  {
    if i > 0 {
      PresentIsDuplicate(if items[0].selected then seen + {KeyOf(items[0])} else seen, items[1..], i - 1);
    }
  }

  lemma {:induction false} PendingIsSelected(items: seq<Item>, duplicates: set<string>)
    ensures forall y :: y in Pending(items, duplicates) <==> y in items && y.selected && y.id !in duplicates
    ensures |Pending(items, duplicates)| <= |Selected(items)|
    decreases |items|
  {
    if items != [] {
      PendingIsSelected(items[1..], duplicates);
      assert items == [items[0]] + items[1..];
    }
  }

  /** Once everything selected is in the vault, or flagged before, nothing is pending. */
  lemma NothingLeft(before: set<Content>, after: set<Content>, items: seq<Item>)
    requires before <= after
    requires forall y :: y in Pending(items, Duplicates(before, items)) ==> KeyOf(y) in after
    ensures Pending(items, Duplicates(after, items)) == []
  {
    var pending := Pending(items, Duplicates(after, items));
    PendingIsSelected(items, Duplicates(before, items));
    PendingIsSelected(items, Duplicates(after, items));
    DuplicatesGrow(before, after, items);
    if pending != [] {
      var y := pending[0];
      assert y in pending;
      var i :| 0 <= i < |items| && items[i] == y;
      PresentIsDuplicate(after, items, i);
    }
  }

  // ---------------------------------------------------------------- what is refused

  datatype Options = Options(csvFolders: bool, target: Option<nat>, newFolder: string, defaultFolder: string,
                             skipDuplicates: bool)

  function FolderOf(item: Item, o: Options): string {
    if item.folder != "" then item.folder else o.defaultFolder
  }

  function FolderError(x: Text, segments: seq<string>): Option<ImportError> {
    if |segments| > MAX_FOLDER_DEPTH then Some(TooDeep)
    else if exists i :: 0 <= i < |segments| && !IsFolderName(x, segments[i]) then Some(BadName)
    else None
  }

  /** The first pending row whose folder cannot be created decides. */
  function RowsError(x: Text, pending: seq<Item>, o: Options): Option<ImportError> {
    if pending == [] then None
    else
      var e := FolderError(x, Split(x, FolderOf(pending[0], o)));
      if e.Some? then e else RowsError(x, pending[1..], o)
  }

  function Refusal(x: Text, pending: seq<Item>, o: Options): Option<ImportError> {
    if pending == [] then None
    else if o.csvFolders then RowsError(x, pending, o)
    else if x.trim(o.newFolder) != "" && !IsFolderName(x, o.newFolder) then Some(BadName)
    else None
  }

  /** The paths the pending rows need. */
  function Needed(x: Text, pending: seq<Item>, o: Options): set<string> {
    if pending == [] then {}
    else Needed(x, pending[..|pending| - 1], o) + Prefixes(x, Split(x, FolderOf(pending[|pending| - 1], o)))
  }

  predicate FolderIsFit(x: Text, folder: string) {
    var segments := Split(x, folder);
    |segments| <= 16 && forall j :: 0 <= j < |segments| ==> IsFolderName(x, segments[j])
  }

  lemma FitIsNoError(x: Text, folder: string)
    ensures FolderError(x, Split(x, folder)).None? <==> FolderIsFit(x, folder)
  {
  }

  /** An import by folder is refused exactly when a pending row's path is too deep or holds a bad name. */
  lemma {:induction false} RefusalIsExact(x: Text, pending: seq<Item>, o: Options)
    ensures
      RowsError(x, pending, o).None? <==>
      forall i :: 0 <= i < |pending| ==>
        FolderIsFit(x, if pending[i].folder != "" then pending[i].folder else o.defaultFolder)
    decreases |pending|
  {
    if pending != [] {
      RefusalIsExact(x, pending[1..], o);
      FitIsNoError(x, FolderOf(pending[0], o));
      assert pending == [pending[0]] + pending[1..];
    }
  }

  lemma {:induction false} NoRowsError(x: Text, pending: seq<Item>, o: Options, i: nat)
    requires i < |pending| && RowsError(x, pending, o).None?
    ensures FolderError(x, Split(x, FolderOf(pending[i], o))).None?
    decreases |pending|
  {
    if i > 0 {
      NoRowsError(x, pending[1..], o, i - 1);
    }
  }

  class Vault {
    const text: Text
    var groups: seq<Group>     // the default group first, then its tree in listing order
    var bin: set<nat>          // the recycle bin and every group under it
    var entries: seq<Entry>
    var next: nat              // identifiers from here on have not been drawn

    ghost predicate Valid()
      reads this
    {
      && text.Lawful()
      && groups != [] && DistinctGroups(groups)
      && (forall i :: 0 <= i < |groups| ==> groups[i].uuid < next)
      && (forall id :: id in bin ==> id < next)
      && groups[0].uuid !in bin
    }

    function Root(): nat
      requires groups != []
      reads this
    {
      groups[0].uuid
    }

    /** The paths the live groups have, as an import reads them. */
    function LivePaths(): map<nat, string>
      requires groups != []
      reads this
    {
      Paths(text, Live(groups, bin), Root())
    }

    function LiveContents(): set<Content>
      reads this
    {
      set i | 0 <= i < |entries| && entries[i].group !in bin :: entries[i].content
    }

    predicate HasGroup(id: nat)
      reads this
    {
      exists i :: 0 <= i < |groups| && groups[i].uuid == id
    }

    constructor (text: Text, groups: seq<Group>, bin: set<nat>, entries: seq<Entry>, next: nat)
      requires text.Lawful() && groups != [] && DistinctGroups(groups)
      requires forall i :: 0 <= i < |groups| ==> groups[i].uuid < next
      requires (forall id :: id in bin ==> id < next) && groups[0].uuid !in bin
      ensures Valid() && this.groups == groups && this.bin == bin && this.entries == entries
    {
      this.text, this.groups, this.bin, this.entries, this.next := text, groups, bin, entries, next;
    }

    lemma PathsAreLive(id: nat)
      requires Valid() && id in LivePaths()
      ensures HasGroup(id) && id !in bin && id < next
    {
      var live := Live(groups, bin);
      LiveIsListed(groups, bin);
      ByPathIsSound(text, live, Root());
      if id == Root() {
        assert groups[0].uuid == id;
      } else {
        var i :| 0 <= i < |live| && live[i].uuid == id;
        assert live[i] in groups;
      }
    }

    method CreateGroup(name: string, parent: nat) returns (r: Result<nat, ImportError>)
      requires Valid()
      modifies this`groups, this`next
      ensures Valid()
      ensures !IsFolderName(text, name) ==> r == Err(BadName)
      ensures IsFolderName(text, name) && !old(HasGroup(parent)) ==> r == Err(NoFolder)
      ensures r.Err? ==> groups == old(groups) && next == old(next)
      ensures IsFolderName(text, name) && old(HasGroup(parent)) ==>
        && r == Ok(old(next)) && next == old(next) + 1
        && groups == old(groups) + [Group(old(next), text.trim(name), Some(parent))]
    {
      if !IsFolderName(text, name) {
        return Err(BadName);
      }
      if !HasGroup(parent) {
        return Err(NoFolder);
      }
      groups := groups + [Group(next, text.trim(name), Some(parent))];
      r := Ok(next);
      next := next + 1;
    }

    method CreateEntry(content: Content, group: nat)
      requires Valid()
      modifies this`entries
      ensures entries == old(entries) + [Entry(content, if HasGroup(group) then group else Root())]
    {
      entries := entries + [Entry(content, if HasGroup(group) then group else Root())];
    }

    method FindDuplicates(items: seq<Item>) returns (duplicates: set<string>)
      ensures duplicates == Duplicates(LiveContents(), items)
    {
      var seen := LiveContents();
      duplicates := {};
      for i := 0 to |items|
        invariant Duplicates(LiveContents(), items) == duplicates + Duplicates(seen, items[i..])
      {
        var item := items[i];
        assert items[i..][1..] == items[i + 1..];
        var key := KeyOf(item);
        if key in seen {
          duplicates := duplicates + {item.id};
        }
        if item.selected {
          seen := seen + {key};
        }
      }
    }

    /** One step down the tree: the group of that name under `parent`, made if no path leads there. */
    method EnterFolder(segment: string, parent: nat, path: string, byPath: map<string, nat>)
      returns (uuid: nat, found: map<string, nat>, made: bool)
      requires Valid() && Finds(byPath, LivePaths(), Root())
      requires parent in LivePaths() && LivePaths()[parent] == path
      requires segment != "" && text.trim(segment) == segment && IsFolderName(text, segment)
      modifies this`groups, this`next
      ensures Valid() && old(groups) <= groups
      ensures Finds(found, LivePaths(), Root()) && Within(old(LivePaths()), LivePaths())
      ensures uuid in LivePaths() && LivePaths()[uuid] == Under(path, text.lower(segment))
      ensures found.Keys == byPath.Keys + {Under(path, text.lower(segment))}
      ensures made <==> Under(path, text.lower(segment)) !in byPath
      ensures groups == if made then old(groups) + [Group(old(next), segment, Some(parent))] else old(groups)
    {
      var here := Under(path, text.lower(segment));
      if here in byPath {
        return byPath[here], byPath, false;
      }
      PathsAreLive(parent);
      if next in LivePaths() {
        PathsAreLive(next);
      }
      ghost var id, gs, root, paths := next, groups, Root(), LivePaths();
      var created := CreateGroup(segment, parent);
      GrowTree(text, gs, bin, root, Group(id, segment, Some(parent)));
      assert text.trim(text.lower(text.trim(segment))) == text.lower(text.trim(segment));
      assert LivePaths() == paths[id := here];
      FindsMore(byPath, paths, root, id, here);
      return created.value, byPath[here := created.value], true;
    }

    /** getOrCreateGroup: the group at the end of a folder path, with whatever is missing on the way. */
    method GetOrCreateGroup(folder: string, byPath: map<string, nat>)
      returns (uuid: nat, found: map<string, nat>, made: seq<string>)
      requires Valid() && Finds(byPath, LivePaths(), Root())
      requires FolderError(text, Split(text, folder)).None?
      modifies this`groups, this`next
      ensures Valid() && old(groups) <= groups
      ensures Finds(found, LivePaths(), Root()) && Within(old(LivePaths()), LivePaths())
      ensures uuid in LivePaths() && LivePaths()[uuid] == PathOf(text, Split(text, folder))
      ensures found.Keys == byPath.Keys + Prefixes(text, Split(text, folder))
      ensures |groups| - |old(groups)| == |made| == |found| - |byPath|
    {
      var segments := Split(text, folder);
      CheckedFolderIsCreatable(text, folder);
      uuid, found, made := Root(), byPath, [];
      var path := "";
      ghost var paths := LivePaths();
      NoPrefixes(text, segments);
      for j := 0 to |segments|
        invariant Valid() && old(groups) <= groups
        invariant Reached(segments, j, uuid, path, found, paths)
        invariant found.Keys == byPath.Keys + Prefixes(text, segments[..j])
        invariant |groups| - |old(groups)| == |made| == |found| - |byPath|
      {
        var missing := NextFolder(segments, j, uuid, path, found, paths);
        OnePrefixMore(text, segments, j);
        UnionAssoc(byPath.Keys, Prefixes(text, segments[..j]), {PathOf(text, segments[..j + 1])});
        uuid, found := missing.0, missing.1;
        path := Under(path, text.lower(segments[j]));
        if missing.2 {
          made := made + [segments[j]];
        }
      }
      assert segments[..|segments|] == segments;
    }

    /** The walk has come to the group of the first `j` segments. */
    ghost predicate Reached(segments: seq<string>, j: nat, uuid: nat, path: string, found: map<string, nat>,
                            paths: map<nat, string>)
      requires groups != [] && j <= |segments|
      reads this
    {
      && Finds(found, LivePaths(), Root()) && Within(paths, LivePaths())
      && uuid in LivePaths() && LivePaths()[uuid] == path == PathOf(text, segments[..j])
    }

    method NextFolder(segments: seq<string>, j: nat, parent: nat, path: string, byPath: map<string, nat>,
                      ghost paths: map<nat, string>)
      returns (r: (nat, map<string, nat>, bool))
      requires Valid() && j < |segments| && Reached(segments, j, parent, path, byPath, paths)
      requires Creatable(text, segments)
      modifies this`groups, this`next
      ensures Valid() && old(groups) <= groups && |groups| == |old(groups)| + if r.2 then 1 else 0
      ensures Reached(segments, j + 1, r.0, PathOf(text, segments[..j + 1]), r.1, paths)
      ensures r.1.Keys == byPath.Keys + {PathOf(text, segments[..j + 1])}
      ensures |r.1| == |byPath| + if r.2 then 1 else 0
    {
      ghost var before := LivePaths();
      OnePrefixMore(text, segments, j);
      var uuid, found, made := EnterFolder(segments[j], parent, path, byPath);
      WithinTwice(paths, before, LivePaths());
      KeysGrow(byPath, found, PathOf(text, segments[..j + 1]));
      r := (uuid, found, made);
    }

    method CheckFolder(folder: string) returns (e: Option<ImportError>)
      ensures e == FolderError(text, Split(text, folder))
    {
      var segments := Split(text, folder);
      if |segments| > MAX_FOLDER_DEPTH {
        return Some(TooDeep);
      }
      for i := 0 to |segments|
        invariant forall j :: 0 <= j < i ==> IsFolderName(text, segments[j])
      {
        if !IsFolderName(text, segments[i]) {
          return Some(BadName);
        }
      }
      return None;
    }

    /** Every prospective name, before anything is created. */
    method Check(pending: seq<Item>, o: Options) returns (e: Option<ImportError>)
      ensures e == Refusal(text, pending, o)
    {
      if pending == [] {
        return None;
      }
      if !o.csvFolders {
        return if text.trim(o.newFolder) != "" && !IsFolderName(text, o.newFolder) then Some(BadName) else None;
      }
      for i := 0 to |pending|
        invariant RowsError(text, pending, o) == RowsError(text, pending[i..], o)
      {
        assert pending[i..][1..] == pending[i + 1..];
        e := CheckFolder(FolderOf(pending[i], o));
        if e.Some? {
          return;
        }
      }
      return None;
    }

    /** The rows, each into the group its folder names. */
    method ImportRows(pending: seq<Item>, o: Options, byPath: map<string, nat>)
      returns (found: map<string, nat>, made: seq<string>, ghost rows: seq<Entry>)
      requires Valid() && Finds(byPath, LivePaths(), Root()) && RowsError(text, pending, o).None?
      modifies this`groups, this`next, this`entries
      ensures Valid() && old(groups) <= groups
      ensures Finds(found, LivePaths(), Root())
      ensures found.Keys == byPath.Keys + Needed(text, pending, o)
      ensures |groups| - |old(groups)| == |made| == |found| - |byPath|
      ensures entries == old(entries) + rows && Landed(text, rows, pending, o, LivePaths())
    {
      found, made, rows := byPath, [], [];
      for i := 0 to |pending|
        invariant Valid() && old(groups) <= groups
        invariant Finds(found, LivePaths(), Root())
        invariant found.Keys == byPath.Keys + Needed(text, pending[..i], o)
        invariant |groups| - |old(groups)| == |made| == |found| - |byPath|
        invariant entries == old(entries) + rows && Landed(text, rows, pending[..i], o, LivePaths())
      {
        var more: seq<string>, row: Entry;
        NoRowsError(text, pending, o, i);
        found, more, row := ImportRow(pending[i], o, found, pending[..i], rows);
        OneRowMore(text, pending, o, i);
        UnionAssoc(byPath.Keys, Needed(text, pending[..i], o), Prefixes(text, Split(text, FolderOf(pending[i], o))));
        Assoc(old(entries), rows, [row]);
        made := made + more;
        rows := rows + [row];
      }
      assert pending[..|pending|] == pending;
    }

    method ImportRow(item: Item, o: Options, byPath: map<string, nat>, ghost earlier: seq<Item>, ghost rows: seq<Entry>)
      returns (found: map<string, nat>, made: seq<string>, row: Entry)
      requires Valid() && Finds(byPath, LivePaths(), Root())
      requires FolderError(text, Split(text, FolderOf(item, o))).None?
      requires Landed(text, rows, earlier, o, LivePaths())
      modifies this`groups, this`next, this`entries
      ensures Valid() && old(groups) <= groups
      ensures Finds(found, LivePaths(), Root())
      ensures found.Keys == byPath.Keys + Prefixes(text, Split(text, FolderOf(item, o)))
      ensures |groups| - |old(groups)| == |made| == |found| - |byPath|
      ensures entries == old(entries) + [row]
      ensures Landed(text, rows + [row], earlier + [item], o, LivePaths())
    {
      ghost var before := LivePaths();
      var uuid: nat;
      uuid, found, made := GetOrCreateGroup(FolderOf(item, o), byPath);
      PathsAreLive(uuid);
      row := Entry(KeyOf(item), uuid);
      CreateEntry(row.content, uuid);
      StillLanded(text, rows, earlier, o, before, LivePaths());
      LandedOneMore(text, rows, earlier, o, LivePaths(), item, row);
    }

    method ImportInto(pending: seq<Item>, group: nat) returns (ghost rows: seq<Entry>)
      requires Valid()
      modifies this`entries
      ensures entries == old(entries) + rows && |rows| == |pending|
      ensures forall i :: 0 <= i < |rows| ==>
                rows[i] == Entry(KeyOf(pending[i]), if HasGroup(group) then group else Root())
    {
      rows := [];
      for i := 0 to |pending|
        invariant entries == old(entries) + rows && |rows| == i
        invariant forall j :: 0 <= j < i ==>
                    rows[j] == Entry(KeyOf(pending[j]), if HasGroup(group) then group else Root())
      {
        CreateEntry(KeyOf(pending[i]), group);
        rows := rows + [Entry(KeyOf(pending[i]), if HasGroup(group) then group else Root())];
      }
    }

    /** Lowercase folder path -> group, off the listing. */
    method IndexGroups(existing: seq<Group>) returns (groupMap: map<string, nat>)
      requires groups != [] && DistinctGroups(existing)
      ensures groupMap == ByPath(text, existing, Root())
    {
      var pathByUuid: map<nat, string> := map[Root() := ""];
      groupMap := map[];
      for i := 0 to |existing|
        invariant pathByUuid == Paths(text, existing[..i], Root())
        invariant groupMap == ByPath(text, existing[..i], Root())
      {
        var g := existing[i];
        assert existing[..i + 1] == existing[..i] + [g];
        ListedStep(text, existing[..i], g, Root());
        if g.uuid == Root() {
          continue;
        }
        var parentPath := if g.parent.Some? && g.parent.value in pathByUuid then pathByUuid[g.parent.value] else "";
        var name := text.trim(text.lower(g.name));
        var path := Under(parentPath, name);
        pathByUuid := pathByUuid[g.uuid := path];
        groupMap := groupMap[path := g.uuid];
      }
      assert existing[..|existing|] == existing;
    }

    method ImportByFolder(pending: seq<Item>, o: Options) returns (made: seq<string>, ghost rows: seq<Entry>)
      requires Valid() && RowsError(text, pending, o).None?
      modifies this`groups, this`next, this`entries
      ensures Valid() && old(groups) <= groups
      ensures entries == old(entries) + rows && Landed(text, rows, pending, o, LivePaths())
      ensures PathSet(LivePaths(), Root()) == PathSet(old(LivePaths()), old(Root())) + Needed(text, pending, o)
      ensures |made| == |groups| - |old(groups)|
                     == |PathSet(LivePaths(), Root())| - |PathSet(old(LivePaths()), old(Root()))|
    {
      var existing := Live(groups, bin);
      LiveIsListed(groups, bin);
      var groupMap := IndexGroups(existing);
      ByPathFinds(text, existing, Root());
      FindsKeys(groupMap, LivePaths(), Root());
      var found: map<string, nat>;
      found, made, rows := ImportRows(pending, o, groupMap);
      FindsKeys(found, LivePaths(), Root());
    }

    method ImportToOne(pending: seq<Item>, o: Options) returns (made: seq<string>, ghost rows: seq<Entry>)
      requires Valid() && (text.trim(o.newFolder) != "" ==> IsFolderName(text, o.newFolder))
      modifies this`groups, this`next, this`entries
      ensures Valid() && old(groups) <= groups && |made| == |groups| - |old(groups)|
      ensures entries == old(entries) + rows && |rows| == |pending|
      ensures forall i :: 0 <= i < |rows| ==> rows[i].content == KeyOf(pending[i])
      ensures text.trim(o.newFolder) == "" ==>
        groups == old(groups) && forall i :: 0 <= i < |rows| ==> rows[i].group == SingleTarget(o)
      ensures text.trim(o.newFolder) != "" ==>
        && groups == old(groups) + [Group(old(next), text.trim(o.newFolder), Some(Root()))]
        && forall i :: 0 <= i < |rows| ==> rows[i].group == old(next)
    {
      made := [];
      var folder := SingleTarget(o);
      if text.trim(o.newFolder) != "" {
        assert text.trim(text.trim(o.newFolder)) == text.trim(o.newFolder);
        assert groups[0].uuid == Root();
        var created := CreateGroup(text.trim(o.newFolder), Root());
        assert groups[|groups| - 1].uuid == created.value;
        folder := created.value;
        made := [text.trim(o.newFolder)];
      } else {
        assert groups[0].uuid == Root();
      }
      rows := ImportInto(pending, folder);
    }

    ghost function Duplicated(items: seq<Item>, o: Options): set<string>
      reads this
    {
      if o.skipDuplicates then Duplicates(LiveContents(), items) else {}
    }

    /** Where single-folder rows go before any new folder: the target if it exists, or the root. */
    function SingleTarget(o: Options): nat
      requires groups != []
      reads this
    {
      if o.target.Some? && HasGroup(o.target.value) then o.target.value else Root()
    }

    /**
     * The import. A refusal leaves the vault as it was. Otherwise every selected row that is not
     * a duplicate gets one entry with its content: under the folders of the file, in a live group
     * whose case-folded path is the row's, with each missing path made exactly once; or all in
     * the one folder asked for.
     */
    method ApplyImport(items: seq<Item>, o: Options) returns (r: Result<Summary, ImportError>, ghost rows: seq<Entry>)
      requires Valid()
      modifies this`groups, this`next, this`entries
      ensures Valid() && old(groups) <= groups
      ensures
        var pending := Pending(items, old(Duplicated(items, o)));
        && (r.Err? <==> Refusal(text, pending, o).Some?)
        && (r.Err? ==> Some(r.error) == Refusal(text, pending, o))
        && (r.Err? || pending == [] ==> groups == old(groups) && entries == old(entries))
        && (r.Ok? ==>
              && r.value.imported == |pending| && r.value.skipped == |Selected(items)| - |pending|
              && entries == old(entries) + rows && |rows| == |pending|
              && |r.value.folders| == |groups| - |old(groups)|
              && (forall i :: 0 <= i < |rows| ==> rows[i].content == KeyOf(pending[i]))
              && (forall i :: 0 <= i < |rows| ==>
                    var c := pending[i].content;
                    rows[i].content == c.(title := if c.title == "" then "Untitled" else c.title)))
        && (r.Ok? && o.csvFolders ==>
              && Landed(text, rows, pending, o, LivePaths())
              && PathSet(LivePaths(), Root()) == PathSet(old(LivePaths()), old(Root())) + Needed(text, pending, o)
              && |r.value.folders| == |PathSet(LivePaths(), Root())| - |PathSet(old(LivePaths()), old(Root()))|)
        && (r.Ok? && !o.csvFolders && text.trim(o.newFolder) == "" ==>
              groups == old(groups) && forall i :: 0 <= i < |rows| ==> rows[i].group == SingleTarget(o))
        && (r.Ok? && !o.csvFolders && text.trim(o.newFolder) != "" && pending != [] ==>
              && groups == old(groups) + [Group(old(next), text.trim(o.newFolder), Some(Root()))]
              && forall i :: 0 <= i < |rows| ==> rows[i].group == old(next))
    {
      rows := [];
      var duplicates: set<string> := {};
      if o.skipDuplicates {
        duplicates := FindDuplicates(items);
      }
      var pending := Pending(items, duplicates);
      PendingIsSelected(items, duplicates);
      var skipped := |Selected(items)| - |pending|;
      if pending == [] {
        r := Ok(Summary(0, skipped, []));
        assert PathSet(LivePaths(), Root()) + Needed(text, pending, o) == PathSet(LivePaths(), Root());
        return;
      }
      var refusal := Check(pending, o);
      if refusal.Some? {
        return Err(refusal.value), [];
      }
      var made: seq<string>;
      if o.csvFolders {
        made, rows := ImportByFolder(pending, o);
      } else {
        made, rows := ImportToOne(pending, o);
      }
      r := Ok(Summary(|pending|, skipped, made));
    }

    /** The rows will land outside the recycle bin: always, unless an existing folder inside it is chosen. */
    predicate LandsLive(o: Options)
      requires groups != []
      reads this
    {
      o.csvFolders || text.trim(o.newFolder) != "" || SingleTarget(o) !in bin
    }

    /** Rows in live groups are among the live contents, and nothing live is lost. */
    lemma RowsCount(before: seq<Entry>, rows: seq<Entry>)
      requires entries == before + rows
      ensures forall i :: 0 <= i < |before| && before[i].group !in bin ==> before[i].content in LiveContents()
      ensures forall i :: 0 <= i < |rows| && rows[i].group !in bin ==> rows[i].content in LiveContents()
    {
      forall i | 0 <= i < |before| && before[i].group !in bin
        ensures before[i].content in LiveContents()
      {
        assert entries[i] == before[i];
      }
      forall i | 0 <= i < |rows| && rows[i].group !in bin
        ensures rows[i].content in LiveContents()
      {
        assert entries[|before| + i] == rows[i];
      }
    }

    lemma BinnedRowsDoNotCount(before: seq<Entry>, rows: seq<Entry>)
      requires entries == before + rows
      requires forall i :: 0 <= i < |rows| ==> rows[i].group in bin
      ensures LiveContents() == set i | 0 <= i < |before| && before[i].group !in bin :: before[i].content
    {
      var live := set i | 0 <= i < |before| && before[i].group !in bin :: before[i].content;
      RowsCount(before, rows);
      forall i | 0 <= i < |entries| && entries[i].group !in bin
        ensures entries[i].content in live
      {
        assert forall j :: |before| <= j < |entries| ==> entries[j] == rows[j - |before|];
        assert entries[i] == before[i];
      }
    }

    /** ApplyImport, seen from the live contents it leaves. */
    method ImportAndLook(items: seq<Item>, o: Options)
      returns (r: Result<Summary, ImportError>, ghost pending: seq<Item>)
      requires Valid() && o.skipDuplicates
      modifies this`groups, this`next, this`entries
      ensures Valid() && old(groups) <= groups
      ensures pending == Pending(items, Duplicates(old(LiveContents()), items))
      ensures pending == [] ==> groups == old(groups) && entries == old(entries)
      ensures pending == [] ==> r == Ok(Summary(0, |Selected(items)|, []))
      ensures r.Ok? ==> r.value.imported == |pending|
      ensures r.Ok? && old(LandsLive(o)) ==>
        old(LiveContents()) <= LiveContents() && forall y :: y in pending ==> KeyOf(y) in LiveContents()
      ensures r.Ok? && !old(LandsLive(o)) ==> LiveContents() == old(LiveContents())
      ensures r.Err? <==> Refusal(text, pending, o).Some?
    {
      pending := Pending(items, Duplicates(LiveContents(), items));
      ghost var before := entries;
      ghost var rows;
      r, rows := ApplyImport(items, o);
      if r.Ok? {
        RowsCount(before, rows);
        if old(LandsLive(o)) {
          RowsAreLive(rows, pending, o);
        } else {
          BinnedRowsDoNotCount(before, rows);
        }
      }
    }

    /**
     * Repeating an import with duplicates skipped imports nothing, makes no folder and changes
     * nothing - exactly when the rows land outside the recycle bin, where duplicates are looked
     * for. Into the bin, a repetition imports the same rows once more.
     */
    method ImportTwice(items: seq<Item>, o: Options)
      returns (first: Result<Summary, ImportError>, second: Result<Summary, ImportError>,
               ghost between: (seq<Group>, seq<Entry>))
      requires Valid() && o.skipDuplicates
      modifies this`groups, this`next, this`entries
      ensures first.Ok? && old(LandsLive(o)) ==>
        && second == Ok(Summary(0, |Selected(items)|, []))
        && (groups, entries) == between
      ensures first.Ok? && !old(LandsLive(o)) ==> second.Ok? && second.value.imported == first.value.imported
    {
      ghost var seen, live := LiveContents(), LandsLive(o);
      ghost var pending, again;
      first, pending := ImportAndLook(items, o);
      between := (groups, entries);
      if first.Err? {
        return first, first, between;
      }
      if live {
        NothingLeft(seen, LiveContents(), items);
      }
      second, again := ImportAndLook(items, o);
    }

    lemma RowsAreLive(rows: seq<Entry>, pending: seq<Item>, o: Options)
      requires Valid() && |rows| == |pending|
      requires forall i :: 0 <= i < |rows| ==> rows[i].content == KeyOf(pending[i])
      requires forall i :: 0 <= i < |rows| && rows[i].group !in bin ==> rows[i].content in LiveContents()
      requires forall i :: 0 <= i < |rows| ==> rows[i].group in LivePaths() || rows[i].group !in bin
      ensures forall y :: y in pending ==> KeyOf(y) in LiveContents()
    {
      forall i | 0 <= i < |rows|
        ensures rows[i].group !in bin
      {
        if rows[i].group in LivePaths() {
          PathsAreLive(rows[i].group);
        }
      }
    }
  }

  /** Row i is there with its content, in a live group whose path is its folder's. */
  predicate Landed(x: Text, rows: seq<Entry>, items: seq<Item>, o: Options, paths: map<nat, string>) {
    && |rows| == |items|
    && (forall i :: 0 <= i < |rows| ==>
          && rows[i].content == KeyOf(items[i])
          && rows[i].group in paths
          && paths[rows[i].group] == PathOf(x, Split(x, FolderOf(items[i], o))))
  }

  lemma StillLanded(x: Text, rows: seq<Entry>, items: seq<Item>, o: Options, before: map<nat, string>,
                    after: map<nat, string>)
    requires Landed(x, rows, items, o, before) && Within(before, after)
    ensures Landed(x, rows, items, o, after)
  {
  }

  lemma LandedOneMore(x: Text, rows: seq<Entry>, items: seq<Item>, o: Options, paths: map<nat, string>, item: Item,
                      row: Entry)
    requires Landed(x, rows, items, o, paths)
    requires row.content == KeyOf(item)
    requires row.group in paths && paths[row.group] == PathOf(x, Split(x, FolderOf(item, o)))
    ensures Landed(x, rows + [row], items + [item], o, paths)
  {
  }

  lemma FindsKeys(byPath: map<string, nat>, paths: map<nat, string>, root: nat)
    requires Finds(byPath, paths, root)
    ensures byPath.Keys == PathSet(paths, root)
  {
  }

  lemma OneRowMore(x: Text, pending: seq<Item>, o: Options, i: nat)
    requires i < |pending|
    ensures pending[..i + 1] == pending[..i] + [pending[i]]
    ensures Needed(x, pending[..i + 1], o) ==
            Needed(x, pending[..i], o) + Prefixes(x, Split(x, FolderOf(pending[i], o)))
  {
    assert pending[..i + 1][..i] == pending[..i];
  }

  predicate Creatable(x: Text, segments: seq<string>) {
    forall i :: 0 <= i < |segments| ==>
      segments[i] != "" && x.trim(segments[i]) == segments[i] && IsFolderName(x, segments[i])
  }

  lemma CheckedFolderIsCreatable(x: Text, folder: string)
    requires x.Lawful() && FolderError(x, Split(x, folder)).None?
    ensures Creatable(x, Split(x, folder))
  {
    PiecesAreTrimmed(x, folder, "");
  }

  lemma WithinTwice(a: map<nat, string>, b: map<nat, string>, c: map<nat, string>)
    requires Within(a, b) && Within(b, c)
    ensures Within(a, c)
  {
  }

  lemma KeysGrow(before: map<string, nat>, after: map<string, nat>, p: string)
    requires after.Keys == before.Keys + {p}
    ensures |after| == |before| + if p in before then 0 else 1
  {
    if p in before {
      assert after.Keys == before.Keys;
    }
  }

  lemma NoPrefixes(x: Text, segments: seq<string>)
    ensures PathOf(x, segments[..0]) == "" && Prefixes(x, segments[..0]) == {}
  {
  }

  lemma OnePrefixMore(x: Text, segments: seq<string>, j: nat)
    requires j < |segments|
    ensures PathOf(x, segments[..j + 1]) == Under(PathOf(x, segments[..j]), x.lower(segments[j]))
    ensures Prefixes(x, segments[..j + 1]) == Prefixes(x, segments[..j]) + {PathOf(x, segments[..j + 1])}
  {
    var longer, shorter := segments[..j + 1], segments[..j];
    assert longer[..j] == shorter && longer[..j + 1] == longer;
    assert forall k :: 0 < k <= j ==> longer[..k] == shorter[..k];
  }
}
