/**
 * Folder paths in a vault's tree: how a listing of its groups gives each of them a case-folded
 * path, and what that path says about the names down to it.
 *
 * Case folding and trimming are parameters; `Lawful` states what an import relies on.
 */
module FolderPaths {
  import opened Wrappers
  import opened Collections

  datatype Text = Text(lower: string -> string, trim: string -> string)
  {
    ghost predicate Lawful() {
      && (forall s :: trim(trim(s)) == trim(s))
      && (forall s {:trigger lower(trim(s))} :: trim(lower(trim(s))) == lower(trim(s)))
      && (forall s :: lower(s) == "" ==> s == "")
    }
  }

  datatype Group = Group(uuid: nat, name: string, parent: Option<nat>)

  const MAX_FOLDER_NAME := 255
  const SEPARATOR: char := '\0'

  // ---------------------------------------------------------------- names and paths

  predicate Forbidden(c: char) {
    || c <= '\U{1F}' || '\U{7F}' <= c <= '\U{9F}' || '\U{200B}' <= c <= '\U{200F}'
    || '\U{202A}' <= c <= '\U{202E}' || '\U{2066}' <= c <= '\U{2069}' || c == '\U{FEFF}'
  }

  predicate IsFolderName(x: Text, name: string) {
    var t := x.trim(name);
    t != "" && |t| <= MAX_FOLDER_NAME && forall i :: 0 <= i < |t| ==> !Forbidden(t[i])
  }

  /** Printable text of the right length is a folder name; blank, overlong and control text is not. */
  lemma WhatIsAFolderName(x: Text, name: string)
    requires x.trim(name) == name
    ensures 0 < |name| <= 255 && (forall i :: 0 <= i < |name| ==> ' ' <= name[i] <= '~') ==> IsFolderName(x, name)
    ensures name == "" || |name| > 255 || (exists i :: 0 <= i < |name| && name[i] < ' ') ==> !IsFolderName(x, name)
  {
  }

  /** The pieces between slashes of either kind, trimmed; empty ones do not count. */
  function Split(x: Text, folder: string): seq<string> {
    SplitFrom(x, folder, "")
  }

  function SplitFrom(x: Text, rest: string, piece: string): seq<string>
    decreases |rest|
  {
    if rest == "" then Piece(x, piece)
    else if rest[0] == '/' || rest[0] == '\\' then Piece(x, piece) + SplitFrom(x, rest[1..], "")
    else SplitFrom(x, rest[1..], piece + [rest[0]])
  }

  function Piece(x: Text, piece: string): seq<string> {
    if x.trim(piece) == "" then [] else [x.trim(piece)]
  }

  predicate IsSlash(c: char) {
    c == '/' || c == '\\'
  }

  /** A name a folder path can spell: trimmed, not blank, without slashes. */
  predicate Spellable(x: Text, name: string) {
    name != "" && x.trim(name) == name && forall i :: 0 <= i < |name| ==> !IsSlash(name[i])
  }

  /** Names with a slash of either kind between each and the next. */
  function Spelled(names: seq<string>, slashes: string): string
    requires |slashes| + 1 == |names|
    decreases |names|
  {
    if |names| == 1 then names[0] else names[0] + ([slashes[0]] + Spelled(names[1..], slashes[1..]))
  }

  lemma {:induction false} SplitName(x: Text, name: string, rest: string, piece: string)
    requires forall i :: 0 <= i < |name| ==> !IsSlash(name[i])
    ensures SplitFrom(x, name + rest, piece) == SplitFrom(x, rest, piece + name)
    decreases |name|
  {
    if name == "" {
      assert name + rest == rest && piece + name == piece;
    } else {
      assert (name + rest)[0] == name[0] && (name + rest)[1..] == name[1..] + rest;
      SplitName(x, name[1..], rest, piece + [name[0]]);
      assert piece + [name[0]] + name[1..] == piece + name;
    }
  }

  /** Splitting reads back the names a folder path spells. */
  lemma {:induction false} SplitReadsNames(x: Text, names: seq<string>, slashes: string)
    requires |slashes| + 1 == |names| && (forall i :: 0 <= i < |names| ==> Spellable(x, names[i]))
    requires forall i :: 0 <= i < |slashes| ==> IsSlash(slashes[i])
    ensures Split(x, Spelled(names, slashes)) == names
    decreases |names|
  {
    assert "" + names[0] == names[0];
    if |names| == 1 {
      SplitName(x, names[0], "", "");
      assert names[0] + "" == names[0];
    } else {
      var rest := Spelled(names[1..], slashes[1..]);
      SplitName(x, names[0], [slashes[0]] + rest, "");
      assert ([slashes[0]] + rest)[1..] == rest;
      SplitReadsNames(x, names[1..], slashes[1..]);
      assert names == [names[0]] + names[1..];
    }
  }

  function Under(path: string, name: string): string {
    if path == "" then name else path + [SEPARATOR] + name
  }

  /** The case-folded path a list of segments names. */
  function PathOf(x: Text, segments: seq<string>): string {
    if segments == [] then ""
    else Under(PathOf(x, segments[..|segments| - 1]), x.lower(segments[|segments| - 1]))
  }

  /** The paths of its leading parts, itself included. */
  function Prefixes(x: Text, segments: seq<string>): set<string> {
    set k | 0 < k <= |segments| :: PathOf(x, segments[..k])
  }

  lemma {:induction false} PiecesAreTrimmed(x: Text, rest: string, piece: string)
    requires x.Lawful()
    ensures forall i :: 0 <= i < |SplitFrom(x, rest, piece)| ==>
              SplitFrom(x, rest, piece)[i] != "" && x.trim(SplitFrom(x, rest, piece)[i]) == SplitFrom(x, rest, piece)[i]
    decreases |rest|
  {
    if rest != "" {
      if rest[0] == '/' || rest[0] == '\\' {
        PiecesAreTrimmed(x, rest[1..], "");
      } else {
        PiecesAreTrimmed(x, rest[1..], piece + [rest[0]]);
      }
    }
  }

  // ---------------------------------------------------------------- the tree

  /** Groups in the tree's listing order, outside the recycle bin. */
  function Live(gs: seq<Group>, bin: set<nat>): seq<Group> {
    if gs == [] then []
    else
      var rest := Live(gs[..|gs| - 1], bin);
      if gs[|gs| - 1].uuid in bin then rest else rest + [gs[|gs| - 1]]
  }

  function Folded(x: Text, name: string): string {
    x.trim(x.lower(name))
  }

  /** The path of every live group, as the import reads it off the listing; the root's is empty. */
  function Paths(x: Text, gs: seq<Group>, root: nat): map<nat, string> {
    if gs == [] then map[root := ""]
    else
      var m, g := Paths(x, gs[..|gs| - 1], root), gs[|gs| - 1];
      if g.uuid == root then m
      else m[g.uuid := Under(if g.parent.Some? && g.parent.value in m then m[g.parent.value] else "",
                             Folded(x, g.name))]
  }

  /** And the last group listed under each path. */
  function ByPath(x: Text, gs: seq<Group>, root: nat): map<string, nat> {
    if gs == [] then map[]
    else
      var m, g := ByPath(x, gs[..|gs| - 1], root), gs[|gs| - 1];
      if g.uuid == root then m else m[Paths(x, gs, root)[g.uuid] := g.uuid]
  }

  lemma ListedStep(x: Text, gs: seq<Group>, g: Group, root: nat)
    ensures
      var m, more := Paths(x, gs, root), gs + [g];
      if g.uuid == root then Paths(x, more, root) == m && ByPath(x, more, root) == ByPath(x, gs, root)
      else
        var path := Under(if g.parent.Some? && g.parent.value in m then m[g.parent.value] else "", Folded(x, g.name));
        && Paths(x, more, root) == m[g.uuid := path]
        && ByPath(x, more, root) == ByPath(x, gs, root)[path := g.uuid]
  {
    assert (gs + [g])[..|gs|] == gs;
  }

  /** Where in the listing before `i` the group is, if it is there. */
  function Listed(gs: seq<Group>, i: nat, id: nat): (at: Option<nat>)
    requires i <= |gs|
    ensures at.Some? ==> at.value < i && gs[at.value].uuid == id
    ensures at.None? ==> forall j :: 0 <= j < i ==> gs[j].uuid != id
  {
    if i == 0 then None
    else if gs[i - 1].uuid == id then Some(i - 1)
    else Listed(gs, i - 1, id)
  }

  /**
   * The folded names from the root down to a group: its own behind those of the parent it names,
   * if that parent is listed before it, as it is in a listing with parents first.
   */
  function Trail(x: Text, gs: seq<Group>, i: nat, root: nat): (names: seq<string>)
    requires i < |gs|
    ensures names != []
    decreases i
  {
    var own := Folded(x, gs[i].name);
    if gs[i].parent.None? || gs[i].parent.value == root then [own]
    else
      match Listed(gs, i, gs[i].parent.value)
      case None => [own]
      case Some(at) => Trail(x, gs, at, root) + [own]
  }

  /** Names with a separator between each and the next. */
  function Separated(names: seq<string>): string {
    if names == [] then ""
    else if |names| == 1 then names[0]
    else Separated(names[..|names| - 1]) + [SEPARATOR] + names[|names| - 1]
  }

  /** Blank names count for nothing until one that is not blank has been seen. */
  function FromFirstName(names: seq<string>): seq<string> {
    if names == [] || names[0] != "" then names else FromFirstName(names[1..])
  }

  lemma {:induction false} OneNameMore(names: seq<string>, name: string)
    ensures Separated(FromFirstName(names + [name])) == Under(Separated(FromFirstName(names)), name)
    ensures Separated(FromFirstName(names)) == "" <==> FromFirstName(names) == []
    decreases |names|
  {
    if names == [] {
      assert names + [name] == [name];
      assert [name][1..] == [];
    } else if names[0] == "" {
      assert (names + [name])[1..] == names[1..] + [name];
      OneNameMore(names[1..], name);
    } else {
      assert (names + [name])[..|names|] == names;
      NamedIsNotBlank(names);
    }
  }

  lemma {:induction false} NamedIsNotBlank(names: seq<string>)
    requires names != [] && names[0] != ""
    ensures Separated(names) != ""
    decreases |names|
  {
    if |names| > 1 {
      NamedIsNotBlank(names[..|names| - 1]);
    }
  }

  /**
   * A group's path is its trail with separators: the folded names of its ancestors and its own. A
   * group whose folded name is blank is transparent as long as nothing above it is named.
   */
  lemma {:induction false} PathIsTrail(x: Text, gs: seq<Group>, i: nat, root: nat)
    requires DistinctGroups(gs) && i < |gs| && gs[i].uuid != root
    ensures gs[i].uuid in Paths(x, gs, root)
    ensures Paths(x, gs, root)[gs[i].uuid] == Separated(FromFirstName(Trail(x, gs, i, root)))
    decreases |gs|, i
  {
    var n := |gs| - 1;
    if i < n {
      PathIsTrail(x, gs[..n], i, root);
      TrailOfPrefix(x, gs, n, i, root);
      assert gs[..n][i] == gs[i];
    } else {
      ParentIsListed(x, gs, root);
      var own := Folded(x, gs[n].name);
      if gs[n].parent.Some? && gs[n].parent.value != root && Listed(gs, n, gs[n].parent.value).Some? {
        var at := Listed(gs, n, gs[n].parent.value).value;
        PathIsTrail(x, gs[..n], at, root);
        TrailOfPrefix(x, gs, n, at, root);
        OneNameMore(Trail(x, gs, at, root), own);
      } else {
        OneNameMore([], own);
        assert [] + [own] == [own];
      }
    }
  }

  function Lowered(x: Text, segments: seq<string>): seq<string> {
    seq(|segments|, i requires 0 <= i < |segments| => x.lower(segments[i]))
  }

  /** Names that can be told apart in a path. */
  predicate AreNames(names: seq<string>) {
    forall i :: 0 <= i < |names| ==> names[i] != "" && SEPARATOR !in names[i]
  }

  lemma {:induction false} PathOfIsSeparated(x: Text, segments: seq<string>)
    requires AreNames(Lowered(x, segments))
    ensures PathOf(x, segments) == Separated(Lowered(x, segments))
    ensures segments != [] ==> PathOf(x, segments) != ""
    decreases |segments|
  {
    if segments != [] {
      var n, names := |segments| - 1, Lowered(x, segments);
      assert names[..n] == Lowered(x, segments[..n]);
      assert names[n] != "";
      PathOfIsSeparated(x, segments[..n]);
    }
  }

  lemma LastName(names: seq<string>)
    requires AreNames(names) && names != []
    ensures AfterLast(Separated(names), SEPARATOR) == names[|names| - 1]
    ensures SEPARATOR in Separated(names) <==> |names| > 1
  {
    var n := |names| - 1;
    if n > 0 {
      BehindSeparator(Separated(names[..n]), names[n]);
    }
  }

  lemma BehindSeparator(front: string, name: string)
    requires SEPARATOR !in name
    ensures AfterLast(front + [SEPARATOR] + name, SEPARATOR) == name
    ensures SEPARATOR in front + [SEPARATOR] + name
  {
    var s := front + [SEPARATOR] + name;
    assert s == front + ([SEPARATOR] + name) && s[|front|] == SEPARATOR;
    LastPast(front, [SEPARATOR] + name, SEPARATOR);
    LastPart(name, SEPARATOR);
  }

  lemma {:induction false} SeparatedDiffer(a: seq<string>, b: seq<string>)
    requires AreNames(a) && AreNames(b) && Separated(a) == Separated(b)
    ensures a == b
    decreases |a|
  {
    if a == [] || b == [] {
      if a != [] { NamedIsNotBlank(a); }
      if b != [] { NamedIsNotBlank(b); }
    } else {
      var m, n, s := |a| - 1, |b| - 1, Separated(a);
      LastName(a);
      LastName(b);
      if m > 0 {
        assert Separated(a[..m]) == s[..|s| - |a[m]| - 1] == Separated(b[..n]);
        SeparatedDiffer(a[..m], b[..n]);
        assert a == a[..m] + [a[m]] && b == b[..n] + [b[n]];
      }
    }
  }

  /** So a folder path leads to a group exactly when its segments are the names down to it, case folded. */
  lemma PathsAgreeOnNames(x: Text, gs: seq<Group>, i: nat, root: nat, segments: seq<string>)
    requires DistinctGroups(gs) && i < |gs| && gs[i].uuid != root
    requires AreNames(Trail(x, gs, i, root)) && AreNames(Lowered(x, segments))
    ensures gs[i].uuid in Paths(x, gs, root)
    ensures Paths(x, gs, root)[gs[i].uuid] == PathOf(x, segments) <==> Trail(x, gs, i, root) == Lowered(x, segments)
  {
    var trail := Trail(x, gs, i, root);
    PathIsTrail(x, gs, i, root);
    PathOfIsSeparated(x, segments);
    assert FromFirstName(trail) == trail;
    if Separated(trail) == Separated(Lowered(x, segments)) {
      SeparatedDiffer(trail, Lowered(x, segments));
    }
  }

  /** The parents the fold finds are the root and the groups already listed. */
  lemma ParentIsListed(x: Text, gs: seq<Group>, root: nat)
    requires DistinctGroups(gs) && gs != []
    ensures
      var m, n := Paths(x, gs[..|gs| - 1], root), |gs| - 1;
      root in m && m[root] == "" && forall id :: id in m <==> id == root || Listed(gs, n, id).Some?
  {
    var n := |gs| - 1;
    ByPathIsSound(x, gs[..n], root);
    forall j | 0 <= j < n
      ensures gs[j].uuid in Paths(x, gs[..n], root)
    {
      ListedHasPath(x, gs[..n], j, root);
    }
    forall id | id in Paths(x, gs[..n], root) && id != root
      ensures Listed(gs, n, id).Some?
    {
      var j :| 0 <= j < n && gs[..n][j].uuid == id;
      assert gs[j].uuid == id;
    }
  }

  lemma {:induction false} ListedHasPath(x: Text, gs: seq<Group>, j: nat, root: nat)
    requires DistinctGroups(gs) && j < |gs|
    ensures gs[j].uuid in Paths(x, gs, root)
    decreases |gs|
  {
    var n := |gs| - 1;
    ByPathIsSound(x, gs[..n], root);
    if j < n {
      ListedHasPath(x, gs[..n], j, root);
    }
  }

  /** The map leads to the last group listed under each path. */
  lemma {:induction false} ByPathIsLast(x: Text, gs: seq<Group>, i: nat, root: nat)
    requires DistinctGroups(gs) && i < |gs| && gs[i].uuid != root
    requires forall j :: 0 <= j < |gs| ==> gs[j].uuid in Paths(x, gs, root)
    requires forall j :: i < j < |gs| && gs[j].uuid != root ==>
               Paths(x, gs, root)[gs[j].uuid] != Paths(x, gs, root)[gs[i].uuid]
    ensures
      var p := Paths(x, gs, root)[gs[i].uuid];
      p in ByPath(x, gs, root) && ByPath(x, gs, root)[p] == gs[i].uuid
    decreases |gs|
  {
    var n := |gs| - 1;
    if i < n {
      forall j | 0 <= j < n
        ensures gs[..n][j].uuid in Paths(x, gs[..n], root)
        ensures Paths(x, gs[..n], root)[gs[j].uuid] == Paths(x, gs, root)[gs[j].uuid]
      {
        ListedHasPath(x, gs[..n], j, root);
        assert gs[..n][j].uuid == gs[j].uuid != gs[n].uuid;
      }
      ByPathIsLast(x, gs[..n], i, root);
    }
  }

  lemma {:induction false} ListedInPrefix(gs: seq<Group>, n: nat, i: nat, id: nat)
    requires i <= n <= |gs|
    ensures Listed(gs[..n], i, id) == Listed(gs, i, id)
    decreases i
  {
    if i > 0 {
      ListedInPrefix(gs, n, i - 1, id);
    }
  }

  lemma {:induction false} TrailOfPrefix(x: Text, gs: seq<Group>, n: nat, i: nat, root: nat)
    requires i < n <= |gs|
    ensures Trail(x, gs[..n], i, root) == Trail(x, gs, i, root)
    decreases i
  {
    if gs[i].parent.Some? && gs[i].parent.value != root {
      ListedInPrefix(gs, n, i, gs[i].parent.value);
      var at := Listed(gs, i, gs[i].parent.value);
      if at.Some? {
        TrailOfPrefix(x, gs, n, at.value, root);
      }
    }
  }

  predicate DistinctGroups(gs: seq<Group>) {
    forall i, j :: 0 <= i < j < |gs| ==> gs[i].uuid != gs[j].uuid
  }

  /** A path leads to a group that has it. */
  lemma {:induction false} ByPathIsSound(x: Text, gs: seq<Group>, root: nat)
    requires DistinctGroups(gs)
    ensures root in Paths(x, gs, root) && Paths(x, gs, root)[root] == ""
    ensures forall id :: id in Paths(x, gs, root) ==> id == root || exists i :: 0 <= i < |gs| && gs[i].uuid == id
    ensures forall p :: p in ByPath(x, gs, root) ==>
              && ByPath(x, gs, root)[p] in Paths(x, gs, root)
              && Paths(x, gs, root)[ByPath(x, gs, root)[p]] == p
              && ByPath(x, gs, root)[p] != root
    decreases |gs|
  {
    if gs != [] {
      var n := |gs| - 1;
      ByPathIsSound(x, gs[..n], root);
      var m := Paths(x, gs[..n], root);
      assert forall i :: 0 <= i < n ==> gs[..n][i].uuid != gs[n].uuid;
      assert gs[n].uuid != root ==> gs[n].uuid !in m;
    }
  }

  lemma {:induction false} LiveIsListed(gs: seq<Group>, bin: set<nat>)
    requires DistinctGroups(gs)
    ensures DistinctGroups(Live(gs, bin))
    ensures forall g :: g in Live(gs, bin) <==> g in gs && g.uuid !in bin
    ensures gs != [] && gs[0].uuid !in bin ==> Live(gs, bin) != [] && Live(gs, bin)[0] == gs[0]
    decreases |gs|
  {
    if gs != [] {
      var n := |gs| - 1;
      LiveIsListed(gs[..n], bin);
      forall g | g in Live(gs[..n], bin)
        ensures g.uuid != gs[n].uuid
      {
        assert g in gs[..n];
      }
    }
  }

  // ---------------------------------------------------------------- growing the tree

  /** Every non-root group's path. */
  function PathSet(paths: map<nat, string>, root: nat): set<string> {
    set id | id in paths && id != root :: paths[id]
  }

  /** `byPath` finds a group of each path there is, and only those. */
  predicate Finds(byPath: map<string, nat>, paths: map<nat, string>, root: nat) {
    && root in paths && paths[root] == ""
    && (forall p :: p in byPath ==> byPath[p] in paths && byPath[p] != root && paths[byPath[p]] == p)
    && (forall id :: id in paths && id != root ==> paths[id] in byPath)
  }

  lemma FindsMore(byPath: map<string, nat>, paths: map<nat, string>, root: nat, id: nat, p: string)
    requires Finds(byPath, paths, root) && id !in paths
    ensures Finds(byPath[p := id], paths[id := p], root)
  {
  }

  lemma {:induction false} ByPathFinds(x: Text, gs: seq<Group>, root: nat)
    requires DistinctGroups(gs)
    ensures Finds(ByPath(x, gs, root), Paths(x, gs, root), root)
    decreases |gs|
  {
    if gs != [] {
      var n := |gs| - 1;
      var m, byPath, id := Paths(x, gs[..n], root), ByPath(x, gs[..n], root), gs[n].uuid;
      ByPathFinds(x, gs[..n], root);
      ByPathIsSound(x, gs[..n], root);
      if id != root {
        assert id !in m by {
          assert forall i :: 0 <= i < n ==> gs[..n][i].uuid != id;
        }
        FindsMore(byPath, m, root, id, Paths(x, gs, root)[id]);
      }
    }
  }

  lemma GrowTree(x: Text, gs: seq<Group>, bin: set<nat>, root: nat, g: Group)
    requires g.uuid !in bin && g.uuid != root
    ensures Live(gs + [g], bin) == Live(gs, bin) + [g]
    ensures
      var m := Paths(x, Live(gs, bin), root);
      Paths(x, Live(gs + [g], bin), root) ==
      m[g.uuid := Under(if g.parent.Some? && g.parent.value in m then m[g.parent.value] else "",
                        Folded(x, g.name))]
  {
    assert (gs + [g])[..|gs|] == gs;
    var live := Live(gs, bin);
    assert (live + [g])[..|live|] == live;
  }
}
