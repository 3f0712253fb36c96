/**
 * The attachment budget of an opened vault, over live, recycled and historical versions.
 *
 * A binary is identified by its content, as its hash identifies it: a hashed one is stored once
 * however often it is referenced, an imported inline one is written out in base64 every time.
 */
module Attachments {
  import opened Wrappers
  import opened MapSums
  import CsvRecords

  type Bytes = seq<bv8>

  datatype Binary = Hashed(data: Bytes) | Inline(data: Bytes)

  /** The attachments of one version of an entry, by name. */
  type Binaries = map<string, Binary>

  /** An entry: whether it lies outside the recycle bin, its attachments, and its older versions. */
  datatype Entry = Entry(live: bool, binaries: Binaries, history: seq<Binaries>)

  const MAX_ATTACHMENT_BYTES := 10 * 1024 * 1024
  const MAX_VAULT_ATTACHMENT_BYTES := 40 * 1024 * 1024

  datatype Failure =
    InvalidName | TooLarge | Aborted | NotLive | NameTaken | OverBudget | NoVersion | HistoryOff

  // ---------------------------------------------------------------- what counts against the budget

  function Base64Size(n: nat): nat {
    (n + 2) / 3 * 4
  }

  function InlineSize(): Binary -> int {
    (b: Binary) => if b.Inline? then Base64Size(|b.data|) else 0
  }

  ghost function InlineOf(v: Binaries): int {
    Total(v, InlineSize())
  }

  function HashedIn(v: Binaries): set<Bytes> {
    set name | name in v && v[name].Hashed? :: v[name].data
  }

  function Versions(e: Entry): seq<Binaries> {
    [e.binaries] + e.history
  }

  function AllVersions(es: seq<Entry>): seq<Binaries> {
    if es == [] then [] else Versions(es[0]) + AllVersions(es[1..])
  }

  ghost function InlineTotal(vs: seq<Binaries>): int {
    if vs == [] then 0 else InlineOf(vs[0]) + InlineTotal(vs[1..])
  }

  function Hashes(vs: seq<Binaries>): set<Bytes> {
    if vs == [] then {} else HashedIn(vs[0]) + Hashes(vs[1..])
  }

  ghost function SizeOf(contents: set<Bytes>): nat {
    if contents == {} then 0
    else
      var b :| b in contents;
      |b| + SizeOf(contents - {b})
  }

  /** Each distinct hashed content once, each inline one as often as it occurs. */
  ghost function Usage(es: seq<Entry>): int {
    var vs := AllVersions(es);
    SizeOf(Hashes(vs)) + InlineTotal(vs)
  }

  lemma {:induction false} SizeWithout(contents: set<Bytes>, b: Bytes)
    requires b in contents
    ensures SizeOf(contents) == |b| + SizeOf(contents - {b})
    decreases |contents|
  {
    var a :| a in contents && SizeOf(contents) == |a| + SizeOf(contents - {a});
    if a != b {
      SizeWithout(contents - {a}, b);
      SizeWithout(contents - {b}, a);
      assert contents - {a} - {b} == contents - {b} - {a};
    }
  }

  lemma SizeWith(contents: set<Bytes>, b: Bytes)
    ensures SizeOf(contents + {b}) == SizeOf(contents) + if b in contents then 0 else |b|
  {
    if b in contents {
      assert contents + {b} == contents;
    } else {
      SizeWithout(contents + {b}, b);
      assert contents + {b} - {b} == contents;
    }
  }

  lemma {:induction false} SizeGrows(a: set<Bytes>, b: set<Bytes>)
    requires a <= b
    ensures SizeOf(a) <= SizeOf(b)
    decreases |b|
  {
    if a != b {
      var x :| x in b && x !in a;
      SizeWithout(b, x);
      SizeGrows(a, b - {x});
    }
  }

  lemma {:induction false} InlineAppend(a: seq<Binaries>, b: seq<Binaries>)
    ensures InlineTotal(a + b) == InlineTotal(a) + InlineTotal(b)
    ensures Hashes(a + b) == Hashes(a) + Hashes(b)
    decreases |a|
  {
    if a == [] {
      assert a + b == b;
    } else {
      assert (a + b)[1..] == a[1..] + b;
      InlineAppend(a[1..], b);
    }
  }

  lemma InlineIsNatural(v: Binaries)
    ensures InlineOf(v) >= 0
  {
    TotalAtLeast(v, InlineSize(), 0);
  }

  lemma {:induction false} InlineTotalIsNatural(vs: seq<Binaries>)
    ensures InlineTotal(vs) >= 0
    decreases |vs|
  {
    if vs != [] {
      InlineIsNatural(vs[0]);
      InlineTotalIsNatural(vs[1..]);
    }
  }

  // ---------------------------------------------------------------- one entry changes

  /** What the versions of all entries but one contribute. */
  function Others(es: seq<Entry>, i: nat): seq<Binaries>
    requires i < |es|
  {
    AllVersions(es[..i]) + AllVersions(es[i + 1..])
  }

  lemma {:induction false} AllVersionsAppend(a: seq<Entry>, b: seq<Entry>)
    ensures AllVersions(a + b) == AllVersions(a) + AllVersions(b)
    decreases |a|
  {
    if a == [] {
      assert a + b == b;
    } else {
      assert (a + b)[1..] == a[1..] + b;
      AllVersionsAppend(a[1..], b);
      assert Versions(a[0]) + (AllVersions(a[1..]) + AllVersions(b)) ==
             (Versions(a[0]) + AllVersions(a[1..])) + AllVersions(b);
    }
  }

  /** Usage splits into one entry's versions and everybody else's. */
  lemma UsageSplits(es: seq<Entry>, i: nat)
    requires i < |es|
    ensures
      var mine, rest := Versions(es[i]), Others(es, i);
      Usage(es) == SizeOf(Hashes(rest) + Hashes(mine)) + InlineTotal(rest) + InlineTotal(mine)
    ensures Hashes(AllVersions(es)) == Hashes(Others(es, i)) + Hashes(Versions(es[i]))
  {
    var before, after := es[..i], es[i + 1..];
    assert es == before + ([es[i]] + after);
    AllVersionsAppend(before, [es[i]] + after);
    assert ([es[i]] + after)[1..] == after;
    assert AllVersions([es[i]] + after) == Versions(es[i]) + AllVersions(after);
    InlineAppend(AllVersions(before), Versions(es[i]) + AllVersions(after));
    InlineAppend(Versions(es[i]), AllVersions(after));
    InlineAppend(AllVersions(before), AllVersions(after));
    assert Hashes(AllVersions(es)) == Hashes(Others(es, i)) + Hashes(Versions(es[i]));
  }

  // ---------------------------------------------------------------- what the operations do

  /** The vault's history settings; absent means not set. */
  datatype Settings = Settings(maxItems: Option<int>, maxSize: Option<int>)
  {
    predicate HistoryEnabled() {
      maxItems != Some(0) && maxSize != Some(0)
    }

    function Limit(): int {
      if maxItems.Some? then maxItems.value else 10
    }
  }

  function Checkpointed(e: Entry, s: Settings): Entry {
    if !s.HistoryEnabled() then e
    else
      var h := e.history + [e.binaries];
      e.(history := if 0 <= s.Limit() < |h| then h[|h| - s.Limit()..] else h)
  }

  function Added(e: Entry, name: string, data: Bytes, s: Settings): Entry {
    Checkpointed(e, s).(binaries := e.binaries[name := Hashed(data)])
  }

  function Removed(e: Entry, name: string, s: Settings, fromHistory: bool): Entry {
    var c := Checkpointed(e, s).(binaries := e.binaries - {name});
    if fromHistory then
      c.(history := seq(|c.history|, i requires 0 <= i < |c.history| => c.history[i] - {name}))
    else c
  }

  function Restored(e: Entry, version: Binaries, s: Settings): Entry {
    Checkpointed(e, s).(binaries := version)
  }

  /** An edit of a field or a move to another group; only its checkpoint matters here. */
  function Edited(e: Entry, live: bool, s: Settings): Entry {
    Checkpointed(e, s).(live := live)
  }

  function Cleared(e: Entry): Entry {
    e.(history := seq(|e.history|, i => map[]))
  }

  ghost function CheckpointCost(e: Entry, s: Settings): int {
    if s.HistoryEnabled() then InlineOf(e.binaries) else 0
  }

  // ---------------------------------------------------------------- what they mean for an entry

  /** The newest versions, the current one last, as many as the limit allows; nothing when history is off. */
  predicate KeepsVersions(e: Entry, history: seq<Binaries>, s: Settings) {
    var all := e.history + [e.binaries];
    if s.maxItems == Some(0) || s.maxSize == Some(0) then history == e.history
    else
      var limit := if s.maxItems.Some? then s.maxItems.value else 10;
      && |history| <= |all| && history == all[|all| - |history|..]
      && |history| == if 0 <= limit < |all| then limit else |all|
  }

  lemma CheckpointKeepsVersions(e: Entry, s: Settings)
    ensures KeepsVersions(e, Checkpointed(e, s).history, s)
    ensures Checkpointed(e, s).binaries == e.binaries && Checkpointed(e, s).live == e.live
  {
    var all, kept := e.history + [e.binaries], Checkpointed(e, s).history;
    if s.HistoryEnabled() {
      if 0 <= s.Limit() < |all| {
        assert kept == all[|all| - s.Limit()..] && |kept| == s.Limit();
      } else {
        assert kept == all == all[0..];
      }
    }
  }

  /** An addition adds one hashed file under its name, behind a checkpoint. */
  lemma AddedIsThere(e: Entry, name: string, data: Bytes, s: Settings)
    requires name !in e.binaries
    ensures
      var f := Added(e, name, data, s);
      && f.live == e.live && KeepsVersions(e, f.history, s)
      && f.binaries.Keys == e.binaries.Keys + {name} && f.binaries[name] == Hashed(data)
      && forall k :: k in e.binaries ==> f.binaries[k] == e.binaries[k]
  {
    CheckpointKeepsVersions(e, s);
  }

  /** A removal takes one name away, from the kept versions too if asked, and nothing else. */
  lemma RemovedIsGone(e: Entry, name: string, s: Settings, fromHistory: bool)
    ensures
      var f, kept := Removed(e, name, s, fromHistory), Checkpointed(e, s).history;
      && f.live == e.live && f.binaries.Keys == e.binaries.Keys - {name}
      && (forall k :: k in f.binaries ==> f.binaries[k] == e.binaries[k])
      && |f.history| == |kept|
      && (forall j :: 0 <= j < |kept| ==>
            && f.history[j].Keys == (if fromHistory then kept[j].Keys - {name} else kept[j].Keys)
            && forall k :: k in f.history[j] ==> f.history[j][k] == kept[j][k])
  {
  }

  /** A restore brings exactly the version's files back, behind a checkpoint; an edit changes no file. */
  lemma RestoredIsBack(e: Entry, version: Binaries, s: Settings, live: bool)
    ensures
      var f := Restored(e, version, s);
      f.binaries == version && f.live == e.live && KeepsVersions(e, f.history, s)
    ensures
      var f := Edited(e, live, s);
      f.binaries == e.binaries && f.live == live && KeepsVersions(e, f.history, s)
  {
    CheckpointKeepsVersions(e, s);
  }

  lemma ClearedIsEmpty(e: Entry)
    ensures
      var f := Cleared(e);
      f.binaries == e.binaries && f.live == e.live && |f.history| == |e.history|
      && forall j :: 0 <= j < |f.history| ==> f.history[j] == map[]
  {
  }

  // ---------------------------------------------------------------- what is refused

  predicate ValidName(name: string) {
    && !CsvRecords.Blank(name)
    && (forall i :: 0 <= i < |name| ==> name[i] > '\U{1F}' && name[i] != '\U{7F}')
  }

  /** Letters, digits, punctuation and inner blanks make a name; a control character anywhere does not. */
  lemma WhatIsAName(name: string, i: nat)
    requires i < |name|
    ensures (forall j :: 0 <= j < |name| ==> ' ' <= name[j] <= '~') && name[i] != ' ' ==> ValidName(name)
    ensures name[i] <= '\U{1F}' || name[i] == '\U{7F}' ==> !ValidName(name)
  {
  }

  /** The order in which an addition is refused; None if it goes ahead. */
  ghost function Refusal(es: seq<Entry>, i: nat, name: string, data: Bytes, aborted: bool, s: Settings): Option<Failure>
    requires i < |es|
  {
    if !ValidName(name) then Some(InvalidName)
    else if |data| > MAX_ATTACHMENT_BYTES then Some(TooLarge)
    else if aborted then Some(Aborted)
    else if !es[i].live then Some(NotLive)
    else if name in es[i].binaries then Some(NameTaken)
    else if Usage(es) + AdditionPrice(es, es[i], data, s) > MAX_VAULT_ATTACHMENT_BYTES then Some(OverBudget)
    else None
  }

  function RestoreRefusal(e: Entry, index: nat, s: Settings): Option<Failure> {
    if !e.live then Some(NotLive)
    else if index >= |e.history| then Some(NoVersion)
    else if !s.HistoryEnabled() then Some(HistoryOff)
    else None
  }

  // ---------------------------------------------------------------- what they cost, exactly

  lemma {:induction false} SizeSplits(a: set<Bytes>, b: set<Bytes>)
    ensures SizeOf(a) == SizeOf(a - b) + SizeOf(a * b)
    decreases |a|
  {
    if a == {} {
      assert a - b == {} && a * b == {};
    } else {
      var x :| x in a;
      SizeWithout(a, x);
      SizeSplits(a - {x}, b);
      if x in b {
        SizeWithout(a * b, x);
        assert a * b - {x} == (a - {x}) * b && a - b == a - {x} - b;
      } else {
        SizeWithout(a - b, x);
        assert a - b - {x} == a - {x} - b && a * b == (a - {x}) * b;
      }
    }
  }

  /** Hashed contents no version refers to any more. */
  function Freed(before: seq<Entry>, after: seq<Entry>): set<Bytes> {
    Hashes(AllVersions(before)) - Hashes(AllVersions(after))
  }

  /** One entry changes: what its versions write out inline, what is hashed anew, what is freed. */
  lemma ChangeCost(es: seq<Entry>, i: nat, f: Entry)
    requires i < |es|
    ensures
      var after := es[i := f];
      Usage(after) ==
      Usage(es) + InlineTotal(Versions(f)) - InlineTotal(Versions(es[i]))
      + SizeOf(Freed(after, es)) - SizeOf(Freed(es, after))
    ensures Freed(es[i := f], es) <= Hashes(Versions(f))
  {
    var after := es[i := f];
    UsageSplits(es, i);
    UsageSplits(after, i);
    assert after[..i] == es[..i] && after[i + 1..] == es[i + 1..];
    var a, b := Hashes(AllVersions(after)), Hashes(AllVersions(es));
    SizeSplits(a, b);
    SizeSplits(b, a);
    assert a * b == b * a;
  }

  /** The versions a checkpoint's pruning removes. */
  function Dropped(e: Entry, s: Settings): seq<Binaries> {
    var h := e.history + [e.binaries];
    if s.HistoryEnabled() && 0 <= s.Limit() < |h| then h[..|h| - s.Limit()] else []
  }

  lemma CheckpointContents(e: Entry, s: Settings)
    ensures
      var h := Checkpointed(e, s).history;
      && InlineTotal(h) == InlineTotal(e.history) + CheckpointCost(e, s) - InlineTotal(Dropped(e, s))
      && Hashes(h) <= Hashes(Versions(e))
  {
    VersionsSplit(e);
    if s.HistoryEnabled() {
      var h := e.history + [e.binaries];
      InlineAppend(e.history, [e.binaries]);
      assert InlineTotal([e.binaries]) == InlineOf(e.binaries) && Hashes([e.binaries]) == HashedIn(e.binaries);
      if 0 <= s.Limit() < |h| {
        var cut := |h| - s.Limit();
        assert h == h[..cut] + h[cut..];
        InlineAppend(h[..cut], h[cut..]);
      }
    }
  }

  lemma VersionsSplit(e: Entry)
    ensures Hashes(Versions(e)) == HashedIn(e.binaries) + Hashes(e.history)
    ensures InlineTotal(Versions(e)) == InlineOf(e.binaries) + InlineTotal(e.history)
  {
    assert Versions(e)[0] == e.binaries && Versions(e)[1..] == e.history;
  }

  lemma NewHashed(v: Binaries, name: string, data: Bytes)
    requires name !in v
    ensures InlineOf(v[name := Hashed(data)]) == InlineOf(v)
    ensures HashedIn(v[name := Hashed(data)]) == HashedIn(v) + {data}
  {
    TotalUpdate(v, InlineSize(), name, Hashed(data));
    var w := v[name := Hashed(data)];
    assert name in w && w[name].data == data;
    forall b | b in HashedIn(v)
      ensures b in HashedIn(w)
    {
      var k :| k in v && v[k].Hashed? && v[k].data == b;
      assert k in w && w[k] == v[k];
    }
  }

  /** What a guard can add up before an addition, a removal and a restore. */
  ghost function AdditionPrice(es: seq<Entry>, e: Entry, data: Bytes, s: Settings): int {
    CheckpointCost(e, s) + if data in Hashes(AllVersions(es)) then 0 else |data|
  }

  ghost function RemovalPrice(e: Entry, name: string, s: Settings, fromHistory: bool): int {
    CheckpointCost(e, s) - Stripped(e.binaries, name)
    - if fromHistory then StrippedTotal(Checkpointed(e, s).history, name) else 0
  }

  ghost function RestorePrice(e: Entry, version: Binaries, s: Settings): int {
    CheckpointCost(e, s) + InlineOf(version) - InlineOf(e.binaries)
  }

  ghost function ArrivalPrice(es: seq<Entry>, f: Entry): int {
    InlineTotal(Versions(f)) + SizeOf(Hashes(Versions(f)) - Hashes(AllVersions(es)))
  }

  /** What taking a name out of a version, and out of several, saves inline. */
  ghost function Stripped(v: Binaries, name: string): int {
    if name in v then InlineSize()(v[name]) else 0
  }

  ghost function StrippedTotal(vs: seq<Binaries>, name: string): int {
    if vs == [] then 0 else Stripped(vs[0], name) + StrippedTotal(vs[1..], name)
  }

  lemma Fewer(v: Binaries, name: string)
    ensures InlineOf(v - {name}) == InlineOf(v) - Stripped(v, name) && HashedIn(v - {name}) <= HashedIn(v)
  {
    if name in v {
      TotalWithout(v, InlineSize(), name);
    } else {
      assert v - {name} == v;
    }
  }

  lemma {:induction false} FewerEverywhere(vs: seq<Binaries>, ws: seq<Binaries>, name: string)
    requires |vs| == |ws| && forall i :: 0 <= i < |vs| ==> ws[i] == vs[i] - {name}
    ensures InlineTotal(ws) == InlineTotal(vs) - StrippedTotal(vs, name) && Hashes(ws) <= Hashes(vs)
    decreases |vs|
  {
    if vs != [] {
      Fewer(vs[0], name);
      FewerEverywhere(vs[1..], ws[1..], name);
    }
  }

  lemma {:induction false} VersionIsCounted(vs: seq<Binaries>, v: Binaries)
    requires v in vs
    ensures HashedIn(v) <= Hashes(vs)
    decreases |vs|
  {
    if vs[0] != v {
      VersionIsCounted(vs[1..], v);
    }
  }

  /** What an addition costs is its price, less what pruning drops and what nobody refers to any more. */
  lemma AdditionCost(es: seq<Entry>, i: nat, name: string, data: Bytes, s: Settings)
    requires i < |es| && name !in es[i].binaries
    ensures
      var after := es[i := Added(es[i], name, data, s)];
      Usage(after) ==
      Usage(es) + AdditionPrice(es, es[i], data, s) - InlineTotal(Dropped(es[i], s)) - SizeOf(Freed(es, after))
  {
    var e, f := es[i], Added(es[i], name, data, s);
    var after := es[i := f];
    CheckpointContents(e, s);
    VersionsSplit(e);
    VersionsSplit(f);
    NewHashed(e.binaries, name, data);
    ChangeCost(es, i, f);
    OneIsNew(es, i, f, data);
    SizeWith({}, data);
    assert {} + {data} == {data};
  }

  lemma OneIsNew(es: seq<Entry>, i: nat, f: Entry, data: Bytes)
    requires i < |es| && data in Hashes(Versions(f)) && Hashes(Versions(f)) <= Hashes(Versions(es[i])) + {data}
    ensures Freed(es[i := f], es) == if data in Hashes(AllVersions(es)) then {} else {data}
  {
    HashesSplit(es, i, f);
    OneNewContent(Hashes(Others(es, i)), Hashes(Versions(es[i])), Hashes(Versions(f)), data);
  }

  lemma OneNewContent(others: set<Bytes>, mine: set<Bytes>, changed: set<Bytes>, data: Bytes)
    requires data in changed && changed <= mine + {data}
    ensures (others + changed) - (others + mine) == if data in others + mine then {} else {data}
  {
  }

  lemma HashesSplit(es: seq<Entry>, i: nat, f: Entry)
    requires i < |es|
    ensures Hashes(AllVersions(es)) == Hashes(Others(es, i)) + Hashes(Versions(es[i]))
    ensures Hashes(AllVersions(es[i := f])) == Hashes(Others(es, i)) + Hashes(Versions(f))
  {
    UsageSplits(es, i);
    UsageSplits(es[i := f], i);
    assert es[i := f][..i] == es[..i] && es[i := f][i + 1..] == es[i + 1..];
  }

  /** So does a removal; its price can be positive. */
  lemma RemovalCost(es: seq<Entry>, i: nat, name: string, s: Settings, fromHistory: bool)
    requires i < |es|
    ensures
      var after := es[i := Removed(es[i], name, s, fromHistory)];
      Usage(after) ==
      Usage(es) + RemovalPrice(es[i], name, s, fromHistory) - InlineTotal(Dropped(es[i], s)) - SizeOf(Freed(es, after))
  {
    var e, f := es[i], Removed(es[i], name, s, fromHistory);
    CheckpointContents(e, s);
    VersionsSplit(e);
    VersionsSplit(f);
    Fewer(e.binaries, name);
    if fromHistory {
      FewerEverywhere(Checkpointed(e, s).history, f.history, name);
    }
    ChangeCost(es, i, f);
    NothingNew(es, i, f);
  }

  /** And a restore. */
  lemma RestoreCost(es: seq<Entry>, i: nat, version: Binaries, s: Settings)
    requires i < |es| && version in es[i].history
    ensures
      var after := es[i := Restored(es[i], version, s)];
      Usage(after) ==
      Usage(es) + RestorePrice(es[i], version, s) - InlineTotal(Dropped(es[i], s)) - SizeOf(Freed(es, after))
  {
    var e, f := es[i], Restored(es[i], version, s);
    CheckpointContents(e, s);
    VersionsSplit(e);
    VersionsSplit(f);
    VersionIsCounted(e.history, version);
    ChangeCost(es, i, f);
    NothingNew(es, i, f);
  }

  /** So does an edit: its price is the checkpoint's. */
  lemma EditCost(es: seq<Entry>, i: nat, live: bool, s: Settings)
    requires i < |es|
    ensures
      var after := es[i := Edited(es[i], live, s)];
      Usage(after) ==
      Usage(es) + CheckpointCost(es[i], s) - InlineTotal(Dropped(es[i], s)) - SizeOf(Freed(es, after))
  {
    var e, f := es[i], Edited(es[i], live, s);
    CheckpointContents(e, s);
    VersionsSplit(e);
    VersionsSplit(f);
    ChangeCost(es, i, f);
    NothingNew(es, i, f);
  }

  lemma {:induction false} NothingInside(vs: seq<Binaries>)
    requires forall i :: 0 <= i < |vs| ==> vs[i] == map[]
    ensures InlineTotal(vs) == 0 && Hashes(vs) == {}
    decreases |vs|
  {
    if vs != [] {
      NothingInside(vs[1..]);
    }
  }

  lemma ClearingCost(es: seq<Entry>, i: nat)
    requires i < |es|
    ensures
      var after := es[i := Cleared(es[i])];
      Usage(after) == Usage(es) - InlineTotal(es[i].history) - SizeOf(Freed(es, after))
  {
    var e, f := es[i], Cleared(es[i]);
    NothingInside(f.history);
    VersionsSplit(e);
    VersionsSplit(f);
    ChangeCost(es, i, f);
    NothingNew(es, i, f);
  }

  /** An entry moved in or out of the recycle bin costs nothing. */
  lemma MoveCost(es: seq<Entry>, i: nat, live: bool)
    requires i < |es|
    ensures
      var after := es[i := es[i].(live := live)];
      Usage(after) == Usage(es) && Freed(es, after) == {}
  {
    var f := es[i].(live := live);
    assert Versions(f) == Versions(es[i]);
    ChangeCost(es, i, f);
    HashesSplit(es, i, f);
  }

  /** A whole entry more costs everything inline in it, and the contents nobody referred to yet. */
  lemma ArrivalCost(es: seq<Entry>, f: Entry)
    ensures Usage(es + [f]) == Usage(es) + ArrivalPrice(es, f) && Freed(es, es + [f]) == {}
  {
    AllVersionsAppend(es, [f]);
    assert AllVersions([f]) == Versions(f) + [] == Versions(f);
    InlineAppend(AllVersions(es), Versions(f));
    var a, b := Hashes(AllVersions(es)), Hashes(Versions(f));
    SizeSplits(a + b, a);
    assert a + b - a == b - a && (a + b) * a == a;
  }

  /** And one less saves everything inline in it, and the contents nobody else refers to. */
  lemma DepartureCost(es: seq<Entry>, i: nat)
    requires i < |es|
    ensures
      var after := es[..i] + es[i + 1..];
      Usage(after) == Usage(es) - InlineTotal(Versions(es[i])) - SizeOf(Freed(es, after))
  {
    var after := es[..i] + es[i + 1..];
    UsageSplits(es, i);
    AllVersionsAppend(es[..i], es[i + 1..]);
    var all, others := Hashes(AllVersions(es)), Hashes(AllVersions(after));
    SizeSplits(all, others);
    assert all * others == others;
  }

  lemma NothingNew(es: seq<Entry>, i: nat, f: Entry)
    requires i < |es| && Hashes(Versions(f)) <= Hashes(Versions(es[i]))
    ensures Freed(es[i := f], es) == {}
  {
    HashesSplit(es, i, f);
  }
}
