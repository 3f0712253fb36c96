/**
 * Where the vault store's files go. Names are joined to a directory and the result is cleaned
 * lexically, as Go's filepath.Join does; a path is its components from the root.
 */
module VaultPaths {
  import opened Collections

  type Path = seq<string>

  /** The pieces of a name between its separators. */
  function Segments(s: string): (r: seq<string>)
    ensures |r| >= 1
  {
    if s == "" then [""]
    else
      var r := Segments(s[1..]);
      if s[0] == '/' then [""] + r else [[s[0]] + r[0]] + r[1..]
  }

  /** One piece of a cleaned path: an empty one or a dot stays, two dots go up, at the root they stay. */
  function Entered(at: Path, segment: string): Path {
    if segment == "" || segment == "." then at
    else if segment == ".." then (if at == [] then at else at[..|at| - 1])
    else at + [segment]
  }

  function Walked(at: Path, segments: seq<string>): Path
    decreases |segments|
  {
    if segments == [] then at else Walked(Entered(at, segments[0]), segments[1..])
  }

  function Joined(dir: Path, name: string): Path {
    Walked(dir, Segments(name))
  }

  /** The directory a joined name leads to, and the file's own name there. */
  function Folder(dir: Path, name: string): Path {
    Walked(dir, Segments(name)[..|Segments(name)| - 1])
  }

  function Leaf(name: string): string {
    Segments(name)[|Segments(name)| - 1]
  }

  lemma {:induction false} WalkOn(at: Path, a: seq<string>, b: seq<string>)
    ensures Walked(at, a + b) == Walked(Walked(at, a), b)
    decreases |a|
  {
    if a == [] {
      assert a + b == b;
    } else {
      assert (a + b)[1..] == a[1..] + b;
      WalkOn(Entered(at, a[0]), a[1..], b);
    }
  }

  predicate Ordinary(segment: string) {
    segment != "" && segment != "." && segment != ".."
  }

  lemma JoinedIsLeaf(dir: Path, name: string)
    requires Ordinary(Leaf(name))
    ensures Joined(dir, name) == Folder(dir, name) + [Leaf(name)]
  {
    var segments := Segments(name);
    var n := |segments| - 1;
    assert segments == segments[..n] + [segments[n]];
    WalkOn(dir, segments[..n], [segments[n]]);
    assert [segments[n]][1..] == [];
  }

  lemma {:induction false} PlainIsOneSegment(s: string)
    requires '/' !in s
    ensures Segments(s) == [s]
    decreases |s|
  {
    if s != "" {
      PlainIsOneSegment(s[1..]);
      assert s == [s[0]] + s[1..];
    }
  }

  /** The pieces with more behind the last of them. */
  function Lengthened(r: seq<string>, more: string): seq<string>
    requires r != []
  {
    r[..|r| - 1] + [r[|r| - 1] + more]
  }

  lemma LengthenedBehind(front: string, r: seq<string>, more: string)
    requires r != []
    ensures
      var longer := Lengthened(r, more);
      Lengthened([front + r[0]] + r[1..], more) == [front + longer[0]] + longer[1..]
  {
    if |r| == 1 {
      assert front + (r[0] + more) == (front + r[0]) + more;
    }
  }

  /** Behind a name's last separator, more without one only lengthens its last piece. */
  lemma {:induction false} SegmentsBefore(s: string, more: string)
    requires '/' !in more
    ensures Segments(s + more) == Lengthened(Segments(s), more)
    decreases |s|
  {
    if s == "" {
      assert s + more == more;
      PlainIsOneSegment(more);
    } else {
      assert (s + more)[1..] == s[1..] + more;
      SegmentsBefore(s[1..], more);
      if s[0] == '/' {
        assert Lengthened([""] + Segments(s[1..]), more) == [""] + Lengthened(Segments(s[1..]), more);
      } else {
        LengthenedBehind([s[0]], Segments(s[1..]), more);
      }
    }
  }

  lemma {:induction false} SegmentsAcross(a: string, b: string)
    ensures Segments(a + ("/" + b)) == Segments(a) + Segments(b)
    decreases |a|
  {
    if a == "" {
      assert a + ("/" + b) == "/" + b;
      assert ("/" + b)[1..] == b;
    } else {
      assert (a + ("/" + b))[1..] == a[1..] + ("/" + b);
      SegmentsAcross(a[1..], b);
    }
  }

  // ---------------------------------------------------------------- numbers in names

  function Digit(d: nat): char
    requires d < 10
  {
    ('0' as int + d) as char
  }

  function Digits(n: nat): (s: string)
    ensures s != "" && forall i :: 0 <= i < |s| ==> '0' <= s[i] <= '9'
  {
    if n < 10 then [Digit(n)] else Digits(n / 10) + [Digit(n % 10)]
  }

  function Decimal(n: int): (s: string)
    ensures '_' !in s && '/' !in s && '\\' !in s && '\0' !in s && s != ""
  {
    if n < 0 then "-" + Digits(-n) else Digits(n)
  }

  lemma {:induction false} DigitsDiffer(m: nat, n: nat)
    requires Digits(m) == Digits(n)
    ensures m == n
  {
    var s := Digits(m);
    assert |s| == 1 <==> m < 10 by {
      assert m >= 10 ==> |Digits(m / 10)| >= 1;
    }
    assert |s| == 1 <==> n < 10 by {
      assert n >= 10 ==> |Digits(n / 10)| >= 1;
    }
    if m >= 10 {
      var k := |s| - 1;
      assert Digits(m / 10) == s[..k] == Digits(n / 10);
      assert Digit(m % 10) == s[k] == Digit(n % 10);
      DigitsDiffer(m / 10, n / 10);
    }
  }

  lemma DecimalsDiffer(m: int, n: int)
    requires Decimal(m) == Decimal(n)
    ensures m == n
  {
    var a, b := Decimal(m), Decimal(n);
    assert m >= 0 ==> a[0] != '-';
    assert n >= 0 ==> b[0] != '-';
    if m < 0 {
      assert a[1..] == Digits(-m) && b[1..] == Digits(-n);
      DigitsDiffer(-m, -n);
    } else {
      DigitsDiffer(m, n);
    }
  }

  // ---------------------------------------------------------------- the store's own names

  const SUFFIX := ".kdbx"
  const CURRENT := "vault.kdbx"
  const METADATA := "metadata.json"

  /** An archive: the second and version it was current at, and whether a rollback replaced it. */
  function ArchiveFile(second: int, version: int, beforeRollback: bool): (s: string)
    ensures '/' !in s && '\0' !in s
  {
    Decimal(second) + ("_" + ArchiveRest(version, beforeRollback))
  }

  function ArchiveRest(version: int, beforeRollback: bool): (s: string)
    ensures '/' !in s && '\0' !in s
  {
    "v" + (Decimal(version) + ArchiveEnd(beforeRollback))
  }

  /** The last pieces between underscores: of an archive, of one a rollback replaced, of a conflict. */
  function VersionPart(version: int): (s: string)
    ensures '_' !in s && s != "" && s[0] == 'v'
  {
    "v" + (Decimal(version) + SUFFIX)
  }

  function RollbackPart(): (s: string)
    ensures '_' !in s && '/' !in s && '\0' !in s && s != "" && s[0] == 'r'
  {
    "rollback" + SUFFIX
  }

  function ExpectedPart(expected: int): (s: string)
    ensures '_' !in s && '/' !in s && s != "" && s[0] == 'e'
  {
    "exp" + (Decimal(expected) + SUFFIX)
  }

  function ArchiveEnd(beforeRollback: bool): (s: string)
    ensures '/' !in s && '\0' !in s
  {
    if beforeRollback then "_before" + ("_" + RollbackPart()) else SUFFIX
  }

  function ConflictTail(expected: int): (s: string)
    ensures '/' !in s
  {
    "_" + ExpectedPart(expected)
  }

  function ConflictFile(nano: int, device: string, expected: int): string {
    Decimal(nano) + "_" + device + ConflictTail(expected)
  }

  function ExpectedEnd(expected: int): string {
    "_exp" + Decimal(expected)
  }

  /** A conflict's file is its ID and the suffix; only the device's name can make it a path. */
  lemma ConflictId(nano: int, device: string, expected: int)
    ensures
      var id := Decimal(nano) + "_" + device + ExpectedEnd(expected);
      && id + SUFFIX == ConflictFile(nano, device, expected)
      && id != "" && id != "." && id != ".."
      && (forall c :: c == '/' || c == '\\' || c == '\0' ==>
            (c in id <==> c in device) && (c in id + SUFFIX <==> c in device))
  {
  }

  /** What the last piece of such a name looks like, whatever separators the device's name holds. */
  ghost predicate IsConflictLeaf(leaf: string) {
    exists front, expected :: Ends(leaf, front, expected)
  }

  predicate Ends(leaf: string, front: string, expected: int) {
    leaf == front + ConflictTail(expected)
  }

  lemma ConflictLeaf(nano: int, device: string, expected: int)
    ensures
      var front := Segments(Decimal(nano) + "_" + device);
      var file := ConflictFile(nano, device, expected);
      && Segments(file) == front[..|front| - 1] + [Leaf(file)]
      && Ends(Leaf(file), front[|front| - 1], expected)
      && Ordinary(Leaf(file))
  {
    SegmentsBefore(Decimal(nano) + "_" + device, ConflictTail(expected));
  }

  /** A device name without a separator keeps the file where it belongs, under its whole name. */
  lemma PlainConflict(dir: Path, nano: int, device: string, expected: int)
    requires '/' !in device
    ensures
      var file := ConflictFile(nano, device, expected);
      Folder(dir, file) == dir && Leaf(file) == file
  {
    var file := ConflictFile(nano, device, expected);
    PlainIsOneSegment(file);
    assert Segments(file)[..0] == [];
  }

  /** A device name that goes up and down again. */
  function Roundabout(front: string, back: string): string {
    front + ("/" + (".." + ("/" + (".." + ("/" + ("history" + ("/" + back)))))))
  }

  lemma RoundaboutSegments(a: string, b: string)
    requires '/' !in a && '/' !in b
    ensures Segments(Roundabout(a, b)) == [a, "..", "..", "history", b]
  {
    PlainIsOneSegment(a);
    PlainIsOneSegment(b);
    NamedSegments();
    var history := "history" + ("/" + b);
    SegmentsAcross("history", b);
    SegmentsAcross("..", history);
    SegmentsAcross("..", ".." + ("/" + history));
    SegmentsAcross(a, ".." + ("/" + (".." + ("/" + history))));
  }

  lemma RoundaboutFile(nano: int, front: string, back: string, expected: int)
    ensures ConflictFile(nano, Roundabout(front, back), expected) ==
            Roundabout(Decimal(nano) + "_" + front, back + ConflictTail(expected))
  {
  }

  /** It puts a rejected upload among the archives. */
  lemma ConflictAmongArchives(home: Path, nano: int, front: string, back: string, expected: int)
    requires '/' !in front && '/' !in back
    ensures
      var file := ConflictFile(nano, Roundabout(front, back), expected);
      Folder(home + ["conflicts"], file) == home + ["history"] && Leaf(file) == back + ConflictTail(expected)
  {
    var a, b := Decimal(nano) + "_" + front, back + ConflictTail(expected);
    RoundaboutFile(nano, front, back, expected);
    RoundaboutSegments(a, b);
    UpTwice(home, a);
    assert [a, "..", "..", "history", b][..4] == [a, "..", "..", "history"];
  }

  lemma NamedSegments()
    ensures Segments("..") == [".."] && Segments("history") == ["history"]
  {
    PlainIsOneSegment("..");
    PlainIsOneSegment("history");
  }

  lemma UpTwice(home: Path, a: string)
    requires Ordinary(a)
    ensures Walked(home + ["conflicts"], [a, "..", "..", "history"]) == home + ["history"]
  {
    var dir := home + ["conflicts"];
    assert [a, "..", "..", "history"][1..] == ["..", "..", "history"];
    assert ["..", "..", "history"][1..] == ["..", "history"];
    assert ["..", "history"][1..] == ["history"] && ["history"][1..] == [];
    assert (dir + [a])[..|dir|] == dir && dir[..|home|] == home;
  }

  // ---------------------------------------------------------------- no two kinds of name coincide

  lemma LastOfArchive(second: int, version: int, beforeRollback: bool)
    ensures AfterLast(ArchiveFile(second, version, beforeRollback), '_') ==
            if beforeRollback then RollbackPart() else VersionPart(version)
  {
    if beforeRollback {
      LastPastAll(Decimal(second), "v", Decimal(version), "_before", RollbackPart());
    } else {
      LastPast(Decimal(second), "_" + ArchiveRest(version, beforeRollback), '_');
      LastPart(VersionPart(version), '_');
    }
  }

  lemma LastPastAll(a: string, b: string, d: string, m: string, last: string)
    requires '_' !in last
    ensures AfterLast(a + ("_" + (b + (d + (m + ("_" + last))))), '_') == last
  {
    LastPart(last, '_');
    LastPast(m, "_" + last, '_');
    LastPast(d, m + ("_" + last), '_');
    LastPast(b, d + (m + ("_" + last)), '_');
    LastPast("_", b + (d + (m + ("_" + last))), '_');
    LastPast(a, "_" + (b + (d + (m + ("_" + last)))), '_');
  }

  /** A rejected upload never takes the name of an archive, wherever it lands. */
  lemma ConflictLeafIsNoArchive(leaf: string, second: int, version: int, beforeRollback: bool)
    requires IsConflictLeaf(leaf)
    ensures leaf != ArchiveFile(second, version, beforeRollback)
  {
    var front, expected :| Ends(leaf, front, expected);
    LastPast(front, ConflictTail(expected), '_');
    LastPart(ExpectedPart(expected), '_');
    LastOfArchive(second, version, beforeRollback);
  }

  /** Nor that of the current version or its metadata. */
  lemma ConflictLeafIsNotCurrent(leaf: string)
    requires IsConflictLeaf(leaf)
    ensures leaf != CURRENT && leaf != METADATA
  {
    var front, expected :| Ends(leaf, front, expected);
    assert leaf[|front|] == '_';
    assert '_' !in CURRENT && '_' !in METADATA;
  }

  /** Nor do two archives share one. */
  lemma ArchiveFilesDiffer(s: int, v: int, b: bool, s': int, v': int, b': bool)
    requires ArchiveFile(s, v, b) == ArchiveFile(s', v', b')
    ensures s == s' && v == v' && b == b'
  {
    SplitAtFirst(Decimal(s), ArchiveRest(v, b), Decimal(s'), ArchiveRest(v', b'), '_');
    DecimalsDiffer(s, s');
    LastOfArchive(s, v, b);
    LastOfArchive(s', v', b');
    assert b == b';
    SameFront(Decimal(v), Decimal(v'), "v", ArchiveEnd(b));
    DecimalsDiffer(v, v');
  }

  lemma SameFront(a: string, b: string, before: string, after: string)
    requires before + (a + after) == before + (b + after)
    ensures a == b
  {
    var s := before + (a + after);
    assert |a| == |b|;
    assert s[|before|..|before| + |a|] == a && s[|before|..|before| + |b|] == b;
  }
}
