/**
 * Bounding a vault's history: expired snapshots go, and past a hundred the least separated
 * interior snapshot goes, one at a time, so a burst of saves thins itself instead of pushing
 * the old recovery points out.
 */
module HistoryThinning {
  const MAX_SNAPSHOTS := 100

  /** An archive's file name. */
  type HistoryId = string

  /** An archive as the directory lists it, with its modification time. */
  datatype Snapshot = Snapshot(id: HistoryId, at: int)

  ghost predicate NewestFirst(s: seq<Snapshot>) {
    forall i, j :: 0 <= i < j < |s| ==> s[i].at >= s[j].at
  }

  ghost predicate Distinct(s: seq<Snapshot>) {
    forall i, j :: 0 <= i < j < |s| ==> s[i] != s[j]
  }

  /** How far apart a snapshot's two neighbours are. */
  function Separation(s: seq<Snapshot>, i: int): int
    requires 0 < i < |s| - 1
  {
    s[i - 1].at - s[i + 1].at
  }

  function Span(s: seq<Snapshot>): int {
    if s == [] then 0 else s[0].at - s[|s| - 1].at
  }

  ghost predicate Increasing(picks: seq<nat>, bound: nat) {
    && (forall i, j :: 0 <= i < j < |picks| ==> picks[i] < picks[j])
    && (forall i :: 0 <= i < |picks| ==> picks[i] < bound)
  }

  /** `kept` is `all` at the positions `picks`, both ends included. */
  ghost predicate Picked(all: seq<Snapshot>, kept: seq<Snapshot>, picks: seq<nat>) {
    && |kept| == |picks| && Increasing(picks, |all|)
    && (forall i :: 0 <= i < |picks| ==> kept[i] == all[picks[i]])
    && (all != [] ==> kept != [] && picks[0] == 0 && picks[|picks| - 1] == |all| - 1)
  }

  /** Neighbours of `kept` were neighbours already, or are at most 2/99 of the span apart. */
  ghost predicate CloseGap(span: int, kept: seq<Snapshot>, picks: seq<nat>, i: nat)
    requires 0 < i < |kept| == |picks|
  {
    picks[i] == picks[i - 1] + 1 || 99 * (kept[i - 1].at - kept[i].at) <= 2 * span
  }

  ghost predicate Covers(all: seq<Snapshot>, kept: seq<Snapshot>, picks: seq<nat>) {
    && Picked(all, kept, picks)
    && (forall i :: 0 < i < |kept| ==> CloseGap(Span(all), kept, picks, i))
  }

  /** The separations telescope: together they span the whole list at most twice. */
  lemma {:induction false} SeparationsTelescope(s: seq<Snapshot>, least: int, k: nat)
    requires 0 < k < |s| - 1
    requires forall i :: 0 < i <= k ==> least <= Separation(s, i)
    ensures k * least <= s[0].at + s[1].at - s[k].at - s[k + 1].at
  {
    if k > 1 {
      SeparationsTelescope(s, least, k - 1);
      assert least <= Separation(s, k);
    } else {
      assert least <= Separation(s, 1);
    }
  }

  /** So the least of a hundred or more is at most two ninety-ninths of the span. */
  lemma LeastIsSmall(s: seq<Snapshot>, least: int)
    requires |s| > MAX_SNAPSHOTS && NewestFirst(s) && 0 <= least
    requires forall i :: 0 < i < |s| - 1 ==> least <= Separation(s, i)
    ensures 99 * least <= 2 * Span(s)
  {
    var k := |s| - 2;
    SeparationsTelescope(s, least, k);
    NinetyNineTimes(k, least);
  }

  lemma NinetyNineTimes(k: nat, least: int)
    requires k >= 99 && 0 <= least
    ensures 99 * least <= k * least
  {
    assert (k - 99) * least >= 0;
  }

  function Without<T>(s: seq<T>, i: nat): (r: seq<T>)
    requires i < |s|
    ensures |r| == |s| - 1
    ensures forall j :: 0 <= j < |r| ==> r[j] == if j < i then s[j] else s[j + 1]
  {
    s[..i] + s[i + 1..]
  }

  lemma RemovalCovers(all: seq<Snapshot>, kept: seq<Snapshot>, picks: seq<nat>, gone: nat)
    requires NewestFirst(all) && Covers(all, kept, picks)
    requires |kept| > MAX_SNAPSHOTS && 0 < gone < |kept| - 1
    requires forall i :: 0 < i < |kept| - 1 ==> Separation(kept, gone) <= Separation(kept, i)
    ensures Covers(all, Without(kept, gone), Without(picks, gone))
  {
    KeptIsSorted(all, kept, picks);
    LeastIsSmall(kept, Separation(kept, gone));
    var next, nextPicks := Without(kept, gone), Without(picks, gone);
    RemovalPicks(all, kept, picks, gone);
    forall i | 0 < i < |next|
      ensures CloseGap(Span(all), next, nextPicks, i)
    {
      if i < gone {
        assert CloseGap(Span(all), kept, picks, i);
      } else if i > gone {
        assert CloseGap(Span(all), kept, picks, i + 1);
      }
    }
  }

  lemma RemovalPicks(all: seq<Snapshot>, kept: seq<Snapshot>, picks: seq<nat>, gone: nat)
    requires Picked(all, kept, picks) && 0 < gone < |kept| - 1
    ensures Picked(all, Without(kept, gone), Without(picks, gone))
    ensures Span(kept) == Span(all)
  {
  }

  lemma KeptIsSorted(all: seq<Snapshot>, kept: seq<Snapshot>, picks: seq<nat>)
    requires NewestFirst(all) && Covers(all, kept, picks)
    ensures NewestFirst(kept)
  {
    forall i, j | 0 <= i < j < |kept|
      ensures kept[i].at >= kept[j].at
    {
      assert picks[i] < picks[j];
    }
  }

  /** The first interior snapshot whose neighbours are closest together. */
  method LeastSeparated(s: seq<Snapshot>) returns (remove: nat)
    requires |s| > 2
    ensures 0 < remove < |s| - 1
    ensures forall i :: 0 < i < |s| - 1 ==> Separation(s, remove) <= Separation(s, i)
    ensures forall i :: 0 < i < remove ==> Separation(s, remove) < Separation(s, i)
  {
    remove := 1;
    var gap := s[0].at - s[2].at;
    for i := 2 to |s| - 1
      invariant 0 < remove < |s| - 1 && gap == Separation(s, remove)
      invariant forall j :: 0 < j < i ==> gap <= Separation(s, j)
      invariant forall j :: 0 < j < remove ==> gap < Separation(s, j)
    {
      var span := s[i - 1].at - s[i + 1].at;
      if span < gap {
        remove, gap := i, span;
      }
    }
  }

  method Thin(all: seq<Snapshot>) returns (kept: seq<Snapshot>, ghost picks: seq<nat>)
    requires NewestFirst(all)
    ensures |kept| == if |all| < MAX_SNAPSHOTS then |all| else MAX_SNAPSHOTS
    ensures Covers(all, kept, picks)
  {
    kept := all;
    picks := seq(|all|, i => i);
    while |kept| > MAX_SNAPSHOTS
      invariant |kept| >= if |all| < MAX_SNAPSHOTS then |all| else MAX_SNAPSHOTS
      invariant |kept| <= |all|
      invariant Covers(all, kept, picks)
    {
      var remove := LeastSeparated(kept);
      RemovalCovers(all, kept, picks, remove);
      kept := Without(kept, remove);
      picks := Without(picks, remove);
    }
  }

  // ---------------------------------------------------------------- ordering the directory

  function Placed(s: seq<Snapshot>, x: Snapshot): (r: seq<Snapshot>)
    ensures |r| == |s| + 1
  {
    if s == [] || x.at >= s[0].at then [x] + s else [s[0]] + Placed(s[1..], x)
  }

  lemma {:induction false} PlacedHolds(s: seq<Snapshot>, x: Snapshot)
    ensures forall y :: y in Placed(s, x) <==> y == x || y in s
    decreases |s|
  {
    if s != [] && x.at < s[0].at {
      PlacedHolds(s[1..], x);
      assert s == [s[0]] + s[1..];
    }
  }

  lemma {:induction false} PlacedIsOrdered(s: seq<Snapshot>, x: Snapshot)
    requires NewestFirst(s)
    ensures NewestFirst(Placed(s, x))
    decreases |s|
  {
    if s != [] && x.at < s[0].at {
      PlacedIsOrdered(s[1..], x);
      PlacedHolds(s[1..], x);
      assert forall y :: y in s[1..] ==> y.at <= s[0].at;
    }
  }

  lemma {:induction false} PlacedIsDistinct(s: seq<Snapshot>, x: Snapshot)
    requires Distinct(s) && x !in s
    ensures Distinct(Placed(s, x))
    decreases |s|
  {
    if s != [] && x.at < s[0].at {
      assert s[0] !in s[1..];
      PlacedIsDistinct(s[1..], x);
      PlacedHolds(s[1..], x);
    }
  }

  /** The snapshots of a directory, newest first, whatever order it lists them in. */
  method Ordered(times: map<HistoryId, int>) returns (s: seq<Snapshot>)
    ensures NewestFirst(s) && Distinct(s)
    ensures forall x :: x in s <==> x.id in times && times[x.id] == x.at
    ensures |s| == |times|
  {
    s := [];
    var left := times.Keys;
    while left != {}
      invariant left <= times.Keys
      invariant NewestFirst(s) && Distinct(s)
      invariant forall x :: x in s <==> x.id in times && x.id !in left && times[x.id] == x.at
      invariant |s| + |left| == |times|
      decreases |left|
    {
      var id :| id in left;
      var x := Snapshot(id, times[id]);
      PlacedHolds(s, x);
      PlacedIsOrdered(s, x);
      PlacedIsDistinct(s, x);
      left := left - {id};
      s := Placed(s, x);
    }
  }
}
