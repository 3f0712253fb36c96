/**
 * The attachment budget over runs of everything a vault's methods do: exactly when it holds, and
 * the changes nobody guards that take a vault past it.
 */
module AttachmentRuns {
  import opened Wrappers
  import opened MapSums
  import opened Attachments

  // ---------------------------------------------------------------- only additions are guarded

  const TWELVE_MIB := 12 * 1024 * 1024

  /** A binary of twelve mebibytes, sixteen once it is written out inline. */
  function Large(): (b: Bytes)
    ensures |b| == TWELVE_MIB
  {
    Filled(TWELVE_MIB, 0)
  }

  function Filled(n: nat, with: bv8): (b: Bytes)
    ensures |b| == n && forall i :: 0 <= i < n ==> b[i] == with
  {
    seq(n, i => with)
  }

  const NO_LIMITS := Settings(None, None)

  lemma InlineOfOne(k: string, b: Bytes)
    ensures InlineOf(map[k := Inline(b)]) == Base64Size(|b|)
  {
    var none: Binaries := map[];
    TotalUpdate(none, InlineSize(), k, Inline(b));
    assert none[k := Inline(b)] == map[k := Inline(b)];
  }

  lemma InlineOfTwo(k: string, l: string, b: Bytes)
    requires k != l
    ensures InlineOf(map[k := Inline(b), l := Inline(b)]) == 2 * Base64Size(|b|)
  {
    InlineOfOne(k, b);
    var one: Binaries := map[k := Inline(b)];
    TotalUpdate(one, InlineSize(), l, Inline(b));
    assert one[l := Inline(b)] == map[k := Inline(b), l := Inline(b)];
  }

  /** A vault whose versions are all inline uses what it writes out, and a change can free nothing. */
  lemma InlineUsage(e: Entry)
    requires Hashes(Versions(e)) == {}
    ensures Usage([e]) == InlineOf(e.binaries) + InlineTotal(e.history)
    ensures forall after :: Freed([e], after) == {}
  {
    assert AllVersions([e]) == Versions(e) + [] == Versions(e);
    VersionsSplit(e);
  }

  /** Two imported files of twelve mebibytes: removing one of them takes the vault past its budget. */
  lemma RemovalCanExceed(k: string, l: string)
    requires k != l
    ensures
      var e := Entry(true, map[k := Inline(Large()), l := Inline(Large())], []);
      && Usage([e]) <= MAX_VAULT_ATTACHMENT_BYTES
      && Usage([Removed(e, l, NO_LIMITS, false)]) > MAX_VAULT_ATTACHMENT_BYTES
  {
    var e := Entry(true, map[k := Inline(Large()), l := Inline(Large())], []);
    InlineOfTwo(k, l, Large());
    assert HashedIn(e.binaries) == {};
    VersionsSplit(e);
    InlineUsage(e);
    RemovalCost([e], 0, l, NO_LIMITS, false);
    assert [e][0 := Removed(e, l, NO_LIMITS, false)] == [Removed(e, l, NO_LIMITS, false)];
  }

  /** One such file, now and in the only older version: so does restoring that version. */
  lemma RestoreCanExceed(k: string)
    ensures
      var v: Binaries := map[k := Inline(Large())];
      var e := Entry(true, v, [v]);
      && Usage([e]) <= MAX_VAULT_ATTACHMENT_BYTES
      && Usage([Restored(e, v, NO_LIMITS)]) > MAX_VAULT_ATTACHMENT_BYTES
  {
    var v: Binaries := map[k := Inline(Large())];
    var e := Entry(true, v, [v]);
    InlineOfOne(k, Large());
    assert HashedIn(v) == {} && [v][1..] == [];
    assert InlineTotal([v]) == InlineOf(v);
    assert Hashes([v]) == HashedIn(v);
    VersionsSplit(e);
    InlineUsage(e);
    RestoreCost([e], 0, v, NO_LIMITS);
    assert [e][0 := Restored(e, v, NO_LIMITS)] == [Restored(e, v, NO_LIMITS)];
  }

  /** Two such files and one changed field: the edit's checkpoint alone doubles them. */
  lemma EditCanExceed(k: string, l: string)
    requires k != l
    ensures
      var e := Entry(true, map[k := Inline(Large()), l := Inline(Large())], []);
      && Usage([e]) <= MAX_VAULT_ATTACHMENT_BYTES
      && Usage([Edited(e, true, NO_LIMITS)]) > MAX_VAULT_ATTACHMENT_BYTES
  {
    var e := Entry(true, map[k := Inline(Large()), l := Inline(Large())], []);
    InlineOfTwo(k, l, Large());
    assert HashedIn(e.binaries) == {};
    VersionsSplit(e);
    InlineUsage(e);
    EditCost([e], 0, true, NO_LIMITS);
    assert [e][0 := Edited(e, true, NO_LIMITS)] == [Edited(e, true, NO_LIMITS)];
  }

  lemma HashedUsage(k: string, b: Bytes)
    ensures
      var e := Entry(true, map[k := Hashed(b)], []);
      Usage([e]) == |b| && Hashes(Versions(e)) == {b} && InlineTotal(Versions(e)) == 0
      && AllVersions([e]) == Versions(e)
  {
    var e := Entry(true, map[k := Hashed(b)], []);
    var none: Binaries := map[];
    NewHashed(none, k, b);
    assert none[k := Hashed(b)] == map[k := Hashed(b)] && HashedIn(none) == {};
    VersionsSplit(e);
    assert AllVersions([e]) == Versions(e) + [] == Versions(e);
    SizeWith({}, b);
    assert {} + {b} == {b};
  }

  /** Nothing inline at all: a copy recovered from another vault takes this one past its budget. */
  lemma RecoveryCanExceed(k: string)
    ensures
      var e := Entry(true, map[k := Hashed(Filled(2 * TWELVE_MIB, 0))], []);
      var copy := Entry(true, map[k := Hashed(Filled(2 * TWELVE_MIB, 1))], []);
      && Usage([e]) <= MAX_VAULT_ATTACHMENT_BYTES && Usage([copy]) <= MAX_VAULT_ATTACHMENT_BYTES
      && Usage([e] + [copy]) > MAX_VAULT_ATTACHMENT_BYTES
  {
    var a, b := Filled(2 * TWELVE_MIB, 0), Filled(2 * TWELVE_MIB, 1);
    assert a[0] != b[0];
    var e, copy := Entry(true, map[k := Hashed(a)], []), Entry(true, map[k := Hashed(b)], []);
    HashedUsage(k, a);
    HashedUsage(k, b);
    ArrivalCost([e], copy);
    SizeWith({}, b);
    assert {b} - {a} == {b} == {} + {b};
  }

  // ---------------------------------------------------------------- over runs

  /** Everything the vault's methods do to its attachments. */
  datatype Op =
    | Add(i: nat, name: string, data: Bytes, aborted: bool)
    | Remove(i: nat, name: string, fromHistory: bool)
    | Restore(i: nat, version: nat)
    | Edit(i: nat, live: bool)
    | ClearHistory(i: nat)
    | Create
    | Recover(copy: Entry)
    | Delete(i: nat, recycles: bool)
    | Undelete(i: nat)

  ghost predicate Applies(es: seq<Entry>, s: Settings, op: Op) {
    match op
    case Add(i, name, data, aborted) => i < |es| && Refusal(es, i, name, data, aborted, s).None?
    case Remove(i, name, _) => i < |es| && es[i].live && name in es[i].binaries
    case Restore(i, version) => i < |es| && RestoreRefusal(es[i], version, s).None?
    case Edit(i, _) => i < |es|
    case ClearHistory(i) => i < |es| && es[i].live
    case Create => true
    case Recover(copy) => copy.live
    case Delete(i, _) => i < |es| && es[i].live
    case Undelete(i) => i < |es| && !es[i].live
  }

  ghost function After(es: seq<Entry>, s: Settings, op: Op): seq<Entry>
    requires Applies(es, s, op)
  {
    match op
    case Add(i, name, data, _) => es[i := Added(es[i], name, data, s)]
    case Remove(i, name, fromHistory) => es[i := Removed(es[i], name, s, fromHistory)]
    case Restore(i, version) => es[i := Restored(es[i], es[i].history[version], s)]
    case Edit(i, live) => es[i := Edited(es[i], live, s)]
    case ClearHistory(i) => es[i := Cleared(es[i])]
    case Create => es + [Entry(true, map[], [])]
    case Recover(copy) => es + [copy]
    case Delete(i, recycles) => if recycles then es[i := es[i].(live := false)] else es[..i] + es[i + 1..]
    case Undelete(i) => es[i := es[i].(live := true)]
  }

  ghost function Step(es: seq<Entry>, s: Settings, op: Op): seq<Entry> {
    if Applies(es, s, op) then After(es, s, op) else es
  }

  ghost function Run(es: seq<Entry>, s: Settings, ops: seq<Op>): seq<Entry>
    decreases |ops|
  {
    if ops == [] then es else Run(Step(es, s, ops[0]), s, ops[1..])
  }

  /** What the guard of an addition adds up, for any change. */
  ghost function Price(es: seq<Entry>, s: Settings, op: Op): int
    requires Applies(es, s, op)
  {
    match op
    case Add(i, _, data, _) => AdditionPrice(es, es[i], data, s)
    case Remove(i, name, fromHistory) => RemovalPrice(es[i], name, s, fromHistory)
    case Restore(i, version) => RestorePrice(es[i], es[i].history[version], s)
    case Edit(i, _) => CheckpointCost(es[i], s)
    case ClearHistory(i) => -InlineTotal(es[i].history)
    case Create => 0
    case Recover(copy) => ArrivalPrice(es, copy)
    case Delete(i, recycles) => if recycles then 0 else -InlineTotal(Versions(es[i]))
    case Undelete(i) => 0
  }

  /** What a checkpoint's pruning drops inline, where there is one. */
  ghost function Pruned(es: seq<Entry>, s: Settings, op: Op): int
    requires Applies(es, s, op)
  {
    if op.Add? || op.Remove? || op.Restore? || op.Edit? then InlineTotal(Dropped(es[op.i], s)) else 0
  }

  /** The price, less what is pruned and the contents nobody refers to any more. */
  ghost function Cost(es: seq<Entry>, s: Settings, op: Op): int {
    if Applies(es, s, op) then Price(es, s, op) - Pruned(es, s, op) - SizeOf(Freed(es, After(es, s, op))) else 0
  }

  /** That is exactly what usage changes by. */
  lemma StepCost(es: seq<Entry>, s: Settings, op: Op)
    ensures Usage(Step(es, s, op)) == Usage(es) + Cost(es, s, op)
  {
    if Applies(es, s, op) {
      match op
      case Add(i, name, data, _) => AdditionCost(es, i, name, data, s);
      case Remove(i, name, fromHistory) => RemovalCost(es, i, name, s, fromHistory);
      case Restore(i, version) => RestoreCost(es, i, es[i].history[version], s);
      case Edit(i, live) => EditCost(es, i, live, s);
      case ClearHistory(i) => ClearingCost(es, i);
      case Create => NewEntryCost(es);
      case Recover(copy) => ArrivalCost(es, copy);
      case Delete(i, recycles) => if recycles { MoveCost(es, i, false); } else { DepartureCost(es, i); }
      case Undelete(i) => MoveCost(es, i, true);
    }
  }

  lemma NewEntryCost(es: seq<Entry>)
    ensures Usage(es + [Entry(true, map[], [])]) == Usage(es) && Freed(es, es + [Entry(true, map[], [])]) == {}
  {
    var e := Entry(true, map[], []);
    NothingInside(Versions(e));
    ArrivalCost(es, e);
    assert {} - Hashes(AllVersions(es)) == {};
  }

  ghost predicate WithinBudget(es: seq<Entry>) {
    Usage(es) <= MAX_VAULT_ATTACHMENT_BYTES
  }

  /** The vault is within its budget from here to the end of the run. */
  ghost predicate StaysWithin(es: seq<Entry>, s: Settings, ops: seq<Op>)
    decreases |ops|
  {
    WithinBudget(es) && (ops != [] ==> StaysWithin(Step(es, s, ops[0]), s, ops[1..]))
  }

  /** Every change of the run costs no more than is left. */
  ghost predicate AllAffordable(es: seq<Entry>, s: Settings, ops: seq<Op>)
    decreases |ops|
  {
    ops != [] ==>
      && Usage(es) + Cost(es, s, ops[0]) <= MAX_VAULT_ATTACHMENT_BYTES
      && AllAffordable(Step(es, s, ops[0]), s, ops[1..])
  }

  /** The budget holds throughout a run exactly when every change of it is affordable. */
  lemma {:induction false} BudgetIsExact(es: seq<Entry>, s: Settings, ops: seq<Op>)
    requires WithinBudget(es)
    ensures StaysWithin(es, s, ops) <==> AllAffordable(es, s, ops)
    decreases |ops|
  {
    if ops != [] {
      StepCost(es, s, ops[0]);
      if WithinBudget(Step(es, s, ops[0])) {
        BudgetIsExact(Step(es, s, ops[0]), s, ops[1..]);
      }
    }
  }

  /** The change would pass the guard an addition passes. */
  ghost predicate Fits(es: seq<Entry>, s: Settings, op: Op) {
    Applies(es, s, op) ==> Usage(es) + Price(es, s, op) <= MAX_VAULT_ATTACHMENT_BYTES
  }

  /** The guard lets through no change the vault cannot afford; it ignores what is pruned and freed. */
  lemma GuardIsSafe(es: seq<Entry>, s: Settings, op: Op)
    requires WithinBudget(es) && Fits(es, s, op)
    ensures WithinBudget(Step(es, s, op))
  {
    StepCost(es, s, op);
    if Applies(es, s, op) && (op.Add? || op.Remove? || op.Restore? || op.Edit?) {
      InlineTotalIsNatural(Dropped(es[op.i], s));
    }
  }

  ghost predicate AllFit(es: seq<Entry>, s: Settings, ops: seq<Op>)
    decreases |ops|
  {
    ops != [] ==> Fits(es, s, ops[0]) && AllFit(Step(es, s, ops[0]), s, ops[1..])
  }

  /** The budget holds throughout every run whose changes would all pass the guard. */
  lemma {:induction false} BudgetHoldsOverRuns(es: seq<Entry>, s: Settings, ops: seq<Op>)
    requires WithinBudget(es) && AllFit(es, s, ops)
    ensures StaysWithin(es, s, ops)
    decreases |ops|
  {
    if ops != [] {
      GuardIsSafe(es, s, ops[0]);
      BudgetHoldsOverRuns(Step(es, s, ops[0]), s, ops[1..]);
    }
  }

  // ---------------------------------------------------------------- vaults with nothing inline

  /** Nothing is written out inline. */
  ghost predicate InlineFree(es: seq<Entry>) {
    InlineTotal(AllVersions(es)) == 0
  }

  lemma InlineSplits(es: seq<Entry>, i: nat)
    requires i < |es|
    ensures InlineTotal(AllVersions(es)) == InlineTotal(Others(es, i)) + InlineTotal(Versions(es[i]))
    ensures InlineTotal(Others(es, i)) >= 0 && InlineTotal(es[i].history) >= 0 && InlineOf(es[i].binaries) >= 0
  {
    UsageSplits(es, i);
    InlineTotalIsNatural(Others(es, i));
    InlineTotalIsNatural(es[i].history);
    InlineIsNatural(es[i].binaries);
  }

  lemma StaysInlineFree(es: seq<Entry>, i: nat, f: Entry)
    requires i < |es| && InlineFree(es)
    requires InlineTotal(Versions(f)) <= 0
    ensures InlineFree(es[i := f])
  {
    var fs := es[i := f];
    InlineSplits(es, i);
    InlineSplits(fs, i);
    assert fs[..i] == es[..i] && fs[i + 1..] == es[i + 1..];
    InlineTotalIsNatural(Versions(f));
    VersionsSplit(es[i]);
  }

  lemma {:induction false} VersionIsInlineFree(vs: seq<Binaries>, j: nat)
    requires j < |vs| && InlineTotal(vs) == 0
    ensures InlineOf(vs[j]) == 0
    decreases |vs|
  {
    InlineIsNatural(vs[0]);
    InlineTotalIsNatural(vs[1..]);
    if j > 0 {
      VersionIsInlineFree(vs[1..], j - 1);
    }
  }

  lemma InlineFreeEntry(es: seq<Entry>, i: nat, s: Settings)
    requires i < |es| && InlineFree(es)
    ensures InlineOf(es[i].binaries) == 0 && InlineTotal(es[i].history) == 0 && CheckpointCost(es[i], s) == 0
    ensures InlineTotal(Checkpointed(es[i], s).history) <= 0
  {
    InlineSplits(es, i);
    VersionsSplit(es[i]);
    CheckpointContents(es[i], s);
    InlineTotalIsNatural(Dropped(es[i], s));
  }

  lemma {:induction false} StrippedIsNatural(vs: seq<Binaries>, name: string)
    ensures StrippedTotal(vs, name) >= 0
    ensures vs != [] ==> Stripped(vs[0], name) >= 0
    decreases |vs|
  {
    if vs != [] {
      StrippedIsNatural(vs[1..], name);
    }
  }

  lemma RemovalIsInlineFree(e: Entry, name: string, s: Settings, fromHistory: bool)
    requires InlineOf(e.binaries) == 0 && InlineTotal(Checkpointed(e, s).history) <= 0
    ensures InlineTotal(Versions(Removed(e, name, s, fromHistory))) <= 0
    ensures RemovalPrice(e, name, s, fromHistory) <= 0
  {
    var f := Removed(e, name, s, fromHistory);
    StrippedIsNatural([e.binaries], name);
    StrippedIsNatural(Checkpointed(e, s).history, name);
    Fewer(e.binaries, name);
    VersionsSplit(f);
    if fromHistory {
      FewerEverywhere(Checkpointed(e, s).history, f.history, name);
    }
  }

  /** A change to one entry of such a vault leaves nothing inline, and costs nothing if it is no addition. */
  lemma ChangeIsInlineFree(es: seq<Entry>, s: Settings, op: Op)
    requires InlineFree(es) && Applies(es, s, op) && (op.Add? || op.Remove? || op.Restore? || op.Edit?)
    ensures InlineFree(After(es, s, op))
    ensures !op.Add? ==> Price(es, s, op) <= 0
  {
    var i := op.i;
    var e := es[i];
    InlineFreeEntry(es, i, s);
    match op {
      case Add(_, name, data, _) =>
        NewHashed(e.binaries, name, data);
        VersionsSplit(Added(e, name, data, s));
      case Remove(_, name, fromHistory) => RemovalIsInlineFree(e, name, s, fromHistory);
      case Restore(_, version) =>
        VersionIsInlineFree(e.history, version);
        VersionsSplit(Restored(e, e.history[version], s));
      case Edit(_, live) => VersionsSplit(Edited(e, live, s));
    }
    StaysInlineFree(es, i, After(es, s, op)[i]);
  }

  lemma OtherChangeIsInlineFree(es: seq<Entry>, s: Settings, op: Op)
    requires InlineFree(es) && Applies(es, s, op) && (op.ClearHistory? || op.Delete? || op.Undelete?)
    ensures InlineFree(After(es, s, op)) && Price(es, s, op) <= 0
  {
    var i := op.i;
    InlineFreeEntry(es, i, s);
    InlineSplits(es, i);
    VersionsSplit(es[i]);
    if op == Delete(i, false) {
      AllVersionsAppend(es[..i], es[i + 1..]);
    } else {
      var f := After(es, s, op)[i];
      VersionsSplit(f);
      if op.ClearHistory? {
        NothingInside(f.history);
      }
      StaysInlineFree(es, i, f);
    }
  }

  lemma ArrivalIsInlineFree(es: seq<Entry>, f: Entry)
    requires InlineFree(es) && InlineTotal(Versions(f)) == 0
    ensures InlineFree(es + [f])
  {
    AllVersionsAppend(es, [f]);
    assert AllVersions([f]) == Versions(f) + [] == Versions(f);
    InlineAppend(AllVersions(es), Versions(f));
  }

  /** What is recovered from other vaults has nothing inline either. */
  ghost predicate CopiesAreInlineFree(ops: seq<Op>) {
    forall j :: 0 <= j < |ops| && ops[j].Recover? ==> InlineTotal(Versions(ops[j].copy)) == 0
  }

  lemma StepIsInlineFree(es: seq<Entry>, s: Settings, op: Op)
    requires InlineFree(es) && WithinBudget(es) && (op.Recover? ==> InlineTotal(Versions(op.copy)) == 0)
    ensures InlineFree(Step(es, s, op))
    ensures !op.Recover? ==> Fits(es, s, op)
  {
    if Applies(es, s, op) {
      match op
      case Create =>
        NothingInside(Versions(Entry(true, map[], [])));
        ArrivalIsInlineFree(es, Entry(true, map[], []));
      case Recover(copy) => ArrivalIsInlineFree(es, copy);
      case Add(_, _, _, _) => ChangeIsInlineFree(es, s, op);
      case Remove(_, _, _) => ChangeIsInlineFree(es, s, op);
      case Restore(_, _) => ChangeIsInlineFree(es, s, op);
      case Edit(_, _) => ChangeIsInlineFree(es, s, op);
      case _ => OtherChangeIsInlineFree(es, s, op);
    }
  }

  /** Every recovered copy of the run would pass the guard. */
  ghost predicate RecoveriesFit(es: seq<Entry>, s: Settings, ops: seq<Op>)
    decreases |ops|
  {
    ops != [] ==>
      && (ops[0].Recover? ==> Fits(es, s, ops[0]))
      && RecoveriesFit(Step(es, s, ops[0]), s, ops[1..])
  }

  /** In a vault with nothing inline the budget holds throughout a run exactly when its recovered copies fit. */
  lemma {:induction false} BudgetWithoutInline(es: seq<Entry>, s: Settings, ops: seq<Op>)
    requires InlineFree(es) && WithinBudget(es) && CopiesAreInlineFree(ops)
    ensures StaysWithin(es, s, ops) <==> RecoveriesFit(es, s, ops)
    decreases |ops|
  {
    if ops != [] {
      var op, next := ops[0], Step(es, s, ops[0]);
      StepIsInlineFree(es, s, op);
      StepCost(es, s, op);
      if Fits(es, s, op) {
        GuardIsSafe(es, s, op);
        BudgetWithoutInline(next, s, ops[1..]);
      } else {
        ArrivalCost(es, op.copy);
      }
    }
  }
}
