/**
 * The budget that bounds the audit records unauthenticated callers can cause.
 */
module AuditBudget {
  import opened MapSums

  const MAX_SOURCES := 1024
  const OVERFLOW := "overflow"

  datatype Source = Source(windowStart: int, recorded: nat, suppressed: nat)

  type Table = map<string, Source>

  // ---------------------------------------------------------------- what take and collect do

  /** The entry that pays: an unseen source past the cap shares the overflow bucket. */
  function Payer(m: Table, src: string): string {
    if src !in m && |m| >= MAX_SOURCES then OVERFLOW else src
  }

  /** The payer's entry with its window brought up to date, and what the old window had suppressed. */
  function Opened(m: Table, src: string, window: int, now: int): (Source, nat) {
    var p := Payer(m, src);
    var s := if p in m then m[p] else Source(now, 0, 0);
    if now - s.windowStart >= window then (Source(now, 0, 0), s.suppressed) else (s, 0)
  }

  function Charged(s: Source, burst: nat): Source {
    if s.recorded < burst then s.(recorded := s.recorded + 1) else s.(suppressed := s.suppressed + 1)
  }

  function Taken(m: Table, src: string, window: int, burst: nat, now: int): Table {
    m[Payer(m, src) := Charged(Opened(m, src, window, now).0, burst)]
  }

  predicate Allows(m: Table, src: string, window: int, burst: nat, now: int) {
    Opened(m, src, window, now).0.recorded < burst
  }

  predicate Passed(s: Source, window: int, now: int) {
    now - s.windowStart >= window
  }

  predicate Leaves(s: Source, window: int, all: bool, now: int) {
    all || Passed(s, window, now)
  }

  function Kept(m: Table, window: int, all: bool, now: int): Table {
    KeptSoFar(m, {}, window, all, now)
  }

  function Handed(m: Table, window: int, all: bool, now: int): map<string, nat> {
    HandedSoFar(m, {}, window, all, now)
  }

  /** The table and the counts handed out once only the sources in `todo` are still to be looked at. */
  function KeptSoFar(m: Table, todo: set<string>, window: int, all: bool, now: int): Table {
    map k | k in m && (k in todo || !Leaves(m[k], window, all, now)) :: m[k]
  }

  function HandedSoFar(m: Table, todo: set<string>, window: int, all: bool, now: int): map<string, nat> {
    map k | k in m && k !in todo && Leaves(m[k], window, all, now) && m[k].suppressed > 0 :: m[k].suppressed
  }

  lemma CollectStep(m: Table, todo: set<string>, window: int, all: bool, now: int, src: string)
    requires src in m && src in todo
    ensures KeptSoFar(m, todo - {src}, window, all, now) ==
            KeptSoFar(m, todo, window, all, now) - if Leaves(m[src], window, all, now) then {src} else {}
    ensures HandedSoFar(m, todo - {src}, window, all, now) ==
            if Leaves(m[src], window, all, now) && m[src].suppressed > 0
            then HandedSoFar(m, todo, window, all, now)[src := m[src].suppressed]
            else HandedSoFar(m, todo, window, all, now)
  {
  }

  function Suppressed(): Source -> int {
    (s: Source) => s.suppressed
  }

  function Itself(): nat -> int {
    (n: nat) => n
  }

  /** What a collection handed out. */
  ghost function Sum(counts: map<string, nat>): int {
    Total(counts, Itself())
  }

  ghost function Held(m: Table): int {
    Total(m, Suppressed())
  }

  // ---------------------------------------------------------------- the budget itself

  class Budget {
    const window: int
    const burst: nat
    var sources: Table

    constructor (window: int, burst: nat)
      ensures this.window == window && this.burst == burst && sources == map[]
    {
      this.window, this.burst := window, burst;
      sources := map[];
    }

    method Take(src: string, now: int) returns (record: bool, folded: nat)
      modifies this
      ensures record == Allows(old(sources), src, window, burst, now)
      ensures folded == Opened(old(sources), src, window, now).1
      ensures sources == Taken(old(sources), src, window, burst, now)
      ensures
        var m := old(sources);
        var p := if src in m || |m| < 1024 then src else OVERFLOW;
        var known := p in m && now - m[p].windowStart < window;
        && sources.Keys == m.Keys + {p}
        && (forall k :: k in m && k != p ==> sources[k] == m[k])
        && record == (if known then m[p].recorded < burst else 0 < burst)
        && folded == (if p in m && !known then m[p].suppressed else 0)
        && sources[p] == (var s := if known then m[p] else Source(now, 0, 0);
                          if record then s.(recorded := s.recorded + 1) else s.(suppressed := s.suppressed + 1))
    {
      var payer := src;
      if payer !in sources && |sources| >= MAX_SOURCES {
        payer := OVERFLOW;
      }
      if payer !in sources {
        sources := sources[payer := Source(now, 0, 0)];
      }
      var s := sources[payer];
      folded := 0;
      if now - s.windowStart >= window {
        folded, s := s.suppressed, s.(suppressed := 0);
        s := s.(windowStart := now, recorded := 0);
      }
      if s.recorded < burst {
        s := s.(recorded := s.recorded + 1);
        record := true;
      } else {
        s := s.(suppressed := s.suppressed + 1);
        record := false;
      }
      sources := sources[payer := s];
    }

    /** sweep, and with `all` drain. */
    method Collect(all: bool, now: int) returns (out: map<string, nat>)
      modifies this
      ensures sources == Kept(old(sources), window, all, now)
      ensures out == Handed(old(sources), window, all, now)
      ensures forall k :: k in sources <==> k in old(sources) && !all && now - old(sources)[k].windowStart < window
      ensures forall k :: k in sources ==> sources[k] == old(sources)[k]
      ensures forall k :: k in out <==> k in old(sources) && k !in sources && old(sources)[k].suppressed > 0
      ensures forall k :: k in out ==> out[k] == old(sources)[k].suppressed
    {
      out := map[];
      ghost var sources0 := sources;
      var todo := sources.Keys;
      assert KeptSoFar(sources0, todo, window, all, now) == sources0;
      while todo != {}
        invariant todo <= sources0.Keys
        invariant sources == KeptSoFar(sources0, todo, window, all, now)
        invariant out == HandedSoFar(sources0, todo, window, all, now)
        decreases |todo|
      {
        var src :| src in todo;
        CollectStep(sources0, todo, window, all, now, src);
        todo := todo - {src};
        var s := sources[src];
        if !all && now - s.windowStart < window {
          continue;
        }
        if s.suppressed > 0 {
          out := out[src := s.suppressed];
        }
        sources := sources - {src};
      }
    }
  }
}
