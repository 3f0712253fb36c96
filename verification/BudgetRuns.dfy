/**
 * Runs of the audit budget: nothing rejected goes uncounted, and the individual records of any
 * one window's length are bounded over all sources together.
 */
module BudgetRuns {
  import opened AuditBudget
  import opened MapSums

  datatype Op = Take(src: string, at: int) | Sweep(at: int) | Drain(at: int)

  /** The table, and what has been asked of it, recorded one by one and handed out folded so far. */
  datatype Meter = Meter(table: Table, asked: nat, recorded: nat, folded: int)

  const FRESH := Meter(map[], 0, 0, 0)

  ghost function Step(m: Meter, window: int, burst: nat, op: Op): Meter {
    match op
    case Take(src, at) =>
      Meter(Taken(m.table, src, window, burst, at),
            m.asked + 1,
            m.recorded + if Allows(m.table, src, window, burst, at) then 1 else 0,
            m.folded + Opened(m.table, src, window, at).1)
    case Sweep(at) =>
      m.(table := Kept(m.table, window, false, at), folded := m.folded + Sum(Handed(m.table, window, false, at)))
    case Drain(at) =>
      m.(table := Kept(m.table, window, true, at), folded := m.folded + Sum(Handed(m.table, window, true, at)))
  }

  ghost function Run(m: Meter, window: int, burst: nat, ops: seq<Op>): Meter
    decreases |ops|
  {
    if ops == [] then m else Run(Step(m, window, burst, ops[0]), window, burst, ops[1..])
  }

  // ---------------------------------------------------------------- folded, never dropped

  predicate Counted(asked: nat, recorded: nat, folded: int, held: int) {
    asked == recorded + folded + held
  }

  lemma CollectWithout(m: Table, window: int, all: bool, now: int, k: string)
    requires k in m
    ensures Kept(m - {k}, window, all, now) == Kept(m, window, all, now) - {k}
    ensures Handed(m - {k}, window, all, now) == Handed(m, window, all, now) - {k}
  {
  }

  /** What one source holds is kept with it or handed out for it. */
  lemma OneIsKeptOrHanded(m: Table, window: int, all: bool, now: int, k: string)
    requires k in m
    ensures
      var kept, handed := Kept(m, window, all, now), Handed(m, window, all, now);
      Held(kept) + Sum(handed) == Held(kept - {k}) + Sum(handed - {k}) + m[k].suppressed
  {
    var kept, handed := Kept(m, window, all, now), Handed(m, window, all, now);
    if k in kept {
      TotalWithout(kept, Suppressed(), k);
      assert handed - {k} == handed;
    } else {
      assert kept - {k} == kept;
      if k in handed {
        TotalWithout(handed, Itself(), k);
      } else {
        assert handed - {k} == handed;
      }
    }
  }

  /** What a collection hands out and what it keeps is what was held. */
  lemma {:induction false} CollectConserves(m: Table, window: int, all: bool, now: int)
    ensures Held(m) == Held(Kept(m, window, all, now)) + Sum(Handed(m, window, all, now))
    decreases |m|
  {
    if m == map[] {
      assert Kept(m, window, all, now) == map[] && Handed(m, window, all, now) == map[];
    } else {
      var k :| k in m;
      CollectConserves(m - {k}, window, all, now);
      TotalWithout(m, Suppressed(), k);
      CollectWithout(m, window, all, now, k);
      OneIsKeptOrHanded(m, window, all, now, k);
    }
  }

  lemma TakeConserves(m: Table, src: string, window: int, burst: nat, now: int)
    ensures
      Held(Taken(m, src, window, burst, now)) ==
      Held(m) + 1 - Opened(m, src, window, now).1 - if Allows(m, src, window, burst, now) then 1 else 0
  {
    TotalUpdate(m, Suppressed(), Payer(m, src), Charged(Opened(m, src, window, now).0, burst));
  }

  lemma StepCounts(m: Meter, window: int, burst: nat, op: Op)
    requires Counted(m.asked, m.recorded, m.folded, Held(m.table))
    ensures
      var n := Step(m, window, burst, op);
      Counted(n.asked, n.recorded, n.folded, Held(n.table))
  {
    match op
    case Take(src, at) => TakeConserves(m.table, src, window, burst, at);
    case Sweep(at) => CollectConserves(m.table, window, false, at);
    case Drain(at) => CollectConserves(m.table, window, true, at);
  }

  /**
   * After any run of takes, sweeps and drains, on any clock, every rejection was recorded on its
   * own, handed out in a folded count, or is still held.
   */
  lemma {:induction false} NothingIsDropped(m: Meter, window: int, burst: nat, ops: seq<Op>)
    requires Counted(m.asked, m.recorded, m.folded, Held(m.table))
    ensures
      var r := Run(m, window, burst, ops);
      Counted(r.asked, r.recorded, r.folded, Held(r.table))
    decreases |ops|
  {
    if ops != [] {
      StepCounts(m, window, burst, ops[0]);
      NothingIsDropped(Step(m, window, burst, ops[0]), window, burst, ops[1..]);
    }
  }

  /** A drain leaves nothing behind: then all that was asked was recorded or handed out. */
  lemma DrainSettles(window: int, burst: nat, ops: seq<Op>, at: int)
    ensures
      var r := Step(Run(FRESH, window, burst, ops), window, burst, Drain(at));
      r.table == map[] && r.asked == r.recorded + r.folded
  {
    NothingIsDropped(FRESH, window, burst, ops);
    var m := Run(FRESH, window, burst, ops);
    CollectConserves(m.table, window, true, at);
    assert Kept(m.table, window, true, at) == map[];
  }

  // ---------------------------------------------------------------- one source's own allowance

  /** A take by a source in the table, or while there is room, touches it alone; any other, the overflow bucket. */
  lemma TakeTouchesOne(m: Table, src: string, window: int, burst: nat, now: int)
    ensures
      var n := Taken(m, src, window, burst, now);
      var p := if src in m || |m| < MAX_SOURCES then src else OVERFLOW;
      n.Keys == m.Keys + {p} && forall k :: k in m && k != p ==> n[k] == m[k]
  {
  }

  /** How many takes of a run are the source's, and how many of those are recorded. */
  function Asks(ops: seq<Op>, src: string): nat {
    if ops == [] then 0 else (if ops[0].Take? && ops[0].src == src then 1 else 0) + Asks(ops[1..], src)
  }

  ghost function RecordedFor(m: Meter, window: int, burst: nat, ops: seq<Op>, src: string): nat
    decreases |ops|
  {
    if ops == [] then 0
    else
      (if ops[0].Take? && ops[0].src == src && Allows(m.table, src, window, burst, ops[0].at) then 1 else 0)
      + RecordedFor(Step(m, window, burst, ops[0]), window, burst, ops[1..], src)
  }

  /** No sweep or drain, and the source asks only while the window it opened at `start` lasts. */
  predicate InOneWindow(ops: seq<Op>, src: string, start: int, window: int) {
    forall i :: 0 <= i < |ops| ==> ops[i].Take? && (ops[i].src == src ==> ops[i].at - start < window)
  }

  /** Whatever other sources do, a source in the table has what is left of its burst recorded. */
  lemma {:induction false} KnownAllowance(m: Meter, window: int, burst: nat, ops: seq<Op>, src: string)
    requires src in m.table && src != OVERFLOW && m.table[src].recorded <= burst
    requires InOneWindow(ops, src, m.table[src].windowStart, window)
    ensures
      var left := burst - m.table[src].recorded;
      RecordedFor(m, window, burst, ops, src) == if Asks(ops, src) < left then Asks(ops, src) else left
    decreases |ops|
  {
    if ops != [] {
      TakeTouchesOne(m.table, ops[0].src, window, burst, ops[0].at);
      KnownAllowance(Step(m, window, burst, ops[0]), window, burst, ops[1..], src);
    }
  }

  /**
   * A source first seen while the table has room has exactly its first `burst` rejections of the
   * window recorded on their own, however many other sources appear and whatever they do.
   */
  lemma OwnAllowance(m: Meter, window: int, burst: nat, ops: seq<Op>, src: string, start: int)
    requires window > 0 && src !in m.table && |m.table| < MAX_SOURCES && src != OVERFLOW
    requires ops != [] && ops[0] == Take(src, start) && InOneWindow(ops, src, start, window)
    ensures RecordedFor(m, window, burst, ops, src) == if Asks(ops, src) < burst then Asks(ops, src) else burst
  {
    KnownAllowance(Step(m, window, burst, ops[0]), window, burst, ops[1..], src);
  }

  // ---------------------------------------------------------------- bounded

  /** The table stays within its cap and one bucket more, and no window records past its burst. */
  predicate Bounded(m: Table, burst: nat) {
    && |m| <= MAX_SOURCES + 1
    && (|m| == MAX_SOURCES + 1 ==> OVERFLOW in m)
    && (forall k :: k in m ==> m[k].recorded <= burst)
  }

  lemma StepKeepsBounded(m: Meter, window: int, burst: nat, op: Op)
    requires Bounded(m.table, burst)
    ensures Bounded(Step(m, window, burst, op).table, burst)
  {
    var t := Step(m, window, burst, op).table;
    if op.Take? {
      var p := Payer(m.table, op.src);
      assert t.Keys == m.table.Keys + {p};
    } else {
      assert t.Keys <= m.table.Keys;
      SubsetIsNoLarger(t.Keys, m.table.Keys);
    }
  }

  lemma SubsetIsNoLarger(a: set<string>, b: set<string>)
    requires a <= b
    ensures |a| <= |b|
    ensures |a| == |b| ==> a == b
  {
    assert b == a + (b - a);
  }

  lemma {:induction false} TableIsBounded(m: Meter, window: int, burst: nat, ops: seq<Op>)
    requires Bounded(m.table, burst)
    ensures Bounded(Run(m, window, burst, ops).table, burst)
    decreases |ops|
  {
    if ops != [] {
      StepKeepsBounded(m, window, burst, ops[0]);
      TableIsBounded(Step(m, window, burst, ops[0]), window, burst, ops[1..]);
    }
  }

  /**
   * What a source has spent, seen from `start`: a window opened since then counts the records it
   * made, an older one the allowance it still had to give, as a debt.
   */
  function Spent(start: int, burst: nat): Source -> int {
    (s: Source) => if s.windowStart < start then s.recorded - burst else s.recorded
  }

  predicate During(op: Op, start: int, window: int) {
    start <= op.at < start + window && !op.Drain?
  }

  lemma TakeSpends(m: Table, src: string, window: int, burst: nat, now: int, start: int)
    requires Bounded(m, burst) && start <= now < start + window
    ensures
      Total(Taken(m, src, window, burst, now), Spent(start, burst)) >=
      Total(m, Spent(start, burst)) + if Allows(m, src, window, burst, now) then 1 else 0
  {
    TotalUpdate(m, Spent(start, burst), Payer(m, src), Charged(Opened(m, src, window, now).0, burst));
  }

  /** Dropping sources that had nothing or less to their account does not lower the total. */
  lemma {:induction false} DroppingDebts(m: Table, kept: Table, f: Source -> int)
    requires kept.Keys <= m.Keys && forall k :: k in kept ==> kept[k] == m[k]
    requires forall k :: k in m && k !in kept ==> f(m[k]) <= 0
    ensures Total(kept, f) >= Total(m, f)
    decreases |m|
  {
    if m != map[] {
      var k :| k in m;
      TotalWithout(m, f, k);
      if k in kept {
        TotalWithout(kept, f, k);
        DroppingDebts(m - {k}, kept - {k}, f);
      } else {
        DroppingDebts(m - {k}, kept, f);
      }
    } else {
      assert kept == map[];
    }
  }

  lemma StepSpends(m: Meter, window: int, burst: nat, op: Op, start: int)
    requires Bounded(m.table, burst) && During(op, start, window)
    ensures
      var n := Step(m, window, burst, op);
      Total(n.table, Spent(start, burst)) - n.recorded >= Total(m.table, Spent(start, burst)) - m.recorded
  {
    match op
    case Take(src, at) => TakeSpends(m.table, src, window, burst, at, start);
    case Sweep(at) => DroppingDebts(m.table, Kept(m.table, window, false, at), Spent(start, burst));
  }

  lemma {:induction false} RunSpends(m: Meter, window: int, burst: nat, ops: seq<Op>, start: int)
    requires Bounded(m.table, burst) && forall i :: 0 <= i < |ops| ==> During(ops[i], start, window)
    ensures
      var n := Run(m, window, burst, ops);
      Total(n.table, Spent(start, burst)) - n.recorded >= Total(m.table, Spent(start, burst)) - m.recorded
    decreases |ops|
  {
    if ops != [] {
      StepSpends(m, window, burst, ops[0], start);
      StepKeepsBounded(m, window, burst, ops[0]);
      RunSpends(Step(m, window, burst, ops[0]), window, burst, ops[1..], start);
    }
  }

  lemma Within(burst: nat, n: nat)
    requires n <= 1025
    ensures burst * n <= 1025 * burst && (0 - burst) * n >= -(1025 * burst)
  {
    assert burst * (1025 - n) >= 0;
  }

  lemma SpentIsBounded(m: Table, burst: nat, start: int)
    requires Bounded(m, burst)
    ensures -(1025 * burst) <= Total(m, Spent(start, burst)) <= 1025 * burst
  {
    TotalAtMost(m, Spent(start, burst), burst);
    TotalAtLeast(m, Spent(start, burst), 0 - burst);
    Within(burst, |m|);
  }

  /**
   * The rate bound. Whatever came before, in any stretch one window long without a drain, at most
   * two bursts for each of the table's 1025 places are recorded one by one, however many sources appear
   * and whatever sweeps run; and the table never outgrows its cap and one bucket.
   */
  lemma RateIsBounded(window: int, burst: nat, before: seq<Op>, ops: seq<Op>, start: int)
    requires forall i :: 0 <= i < |ops| ==> During(ops[i], start, window)
    ensures
      var m := Run(FRESH, window, burst, before);
      var n := Run(m, window, burst, ops);
      && n.recorded - m.recorded <= 2050 * burst
      && |n.table| <= 1025
  {
    var m := Run(FRESH, window, burst, before);
    TableIsBounded(FRESH, window, burst, before);
    StretchIsBounded(m, window, burst, ops, start);
  }

  lemma StretchIsBounded(m: Meter, window: int, burst: nat, ops: seq<Op>, start: int)
    requires Bounded(m.table, burst) && forall i :: 0 <= i < |ops| ==> During(ops[i], start, window)
    ensures
      var n := Run(m, window, burst, ops);
      && n.recorded - m.recorded <= 2050 * burst
      && |n.table| <= 1025
  {
    var n := Run(m, window, burst, ops);
    TableIsBounded(m, window, burst, ops);
    RunSpends(m, window, burst, ops, start);
    SpentIsBounded(m.table, burst, start);
    SpentIsBounded(n.table, burst, start);
  }
}
