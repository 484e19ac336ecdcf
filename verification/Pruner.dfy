/** The bounded retention run of scripts/prune_market_ticks.py: allowlisted targets in a fixed order, a
    row budget shared by the whole run, batches, and a clock that may stop it before any batch. */
module Pruner {
  import opened Wrappers

  /** The allowlist, in pruning order. Each target has its own physical table. */
  datatype Target =
    | MarketTradeTicks | MarketQuoteTicks | MarketCaptureTrades | MarketCaptureQuotes | MarketCaptureBars
    | ReconciliationFindings | ReconciliationRuns | ScannerCycleHistory | ScannerConfirmedEvents
    | MomentumPaperEvents | StrategyBarHistory

  const PRUNE_ORDER := [
    MarketTradeTicks, MarketQuoteTicks, MarketCaptureTrades, MarketCaptureQuotes, MarketCaptureBars,
    ReconciliationFindings, ReconciliationRuns, ScannerCycleHistory, ScannerConfirmedEvents,
    MomentumPaperEvents, StrategyBarHistory]

  /** `age` is the target's age column, `kind` the event or snapshot type, `run` the run a finding
      belongs to. */
  datatype Row = Row(id: int, age: int, kind: string, run: int)

  type Tables = map<Target, set<Row>>

  ghost predicate Complete(t: Tables) {
    (forall name: Target :: name in t) && forall name :: name in t ==> DistinctIds(t[name])
  }

  ghost predicate DistinctIds(rows: set<Row>) {
    forall a, b :: a in rows && b in rows && a.id == b.id ==> a == b
  }

  datatype Policy = Policy(cutoffs: map<Target, int>, events: set<string>)

  ghost predicate Ruled(targets: seq<Target>, p: Policy) { forall name :: name in targets ==> name in p.cutoffs }

  // ---------------------------------------------------------------- eligibility

  predicate Eligible(name: Target, r: Row, findings: set<Row>, cutoff: int, events: set<string>) {
    && r.age < cutoff
    && (name == MomentumPaperEvents ==> r.kind in events)
    && (name == ScannerCycleHistory ==> r.kind == "scanner_cycle_history")
    && (name == ReconciliationRuns ==> forall f :: f in findings ==> f.run != r.id)
  }

  function EligibleRows(name: Target, rows: set<Row>, findings: set<Row>, p: Policy): set<Row>
    requires name in p.cutoffs
  {
    set r | r in rows && Eligible(name, r, findings, p.cutoffs[name], p.events)
  }

  /** ORDER BY age, id. */
  predicate Earlier(a: Row, b: Row) { a.age < b.age || (a.age == b.age && a.id < b.id) }

  /** `deleted` is a prefix of `rows` in age order. */
  ghost predicate Oldest(deleted: set<Row>, rows: set<Row>) {
    deleted <= rows && forall d, r :: d in deleted && r in rows - deleted ==> Earlier(d, r)
  }

  lemma {:induction false} OldestUnion(first: set<Row>, second: set<Row>, rows: set<Row>)
    requires Oldest(first, rows) && Oldest(second, rows - first)
    ensures Oldest(first + second, rows)
  {
  }

  lemma {:induction false} EligibleAfter(name: Target, rows: set<Row>, deleted: set<Row>, findings: set<Row>, p: Policy)
    requires name in p.cutoffs
    ensures EligibleRows(name, rows - deleted, findings, p) == EligibleRows(name, rows, findings, p) - deleted
  {
  }

  /** Only runs are judged against findings. */
  lemma {:induction false} FindingsMatterToRuns(
      name: Target, rows: set<Row>, findings: set<Row>, others: set<Row>, p: Policy)
    requires name in p.cutoffs && name != ReconciliationRuns
    ensures EligibleRows(name, rows, findings, p) == EligibleRows(name, rows, others, p)
  {
  }

  // ---------------------------------------------------------------- the database

  class Database {
    var tables: Tables

    constructor (t: Tables)
      ensures tables == t
    {
      tables := t;
    }

    /** SELECT count(*) with the target's predicate. */
    method Count(name: Target, p: Policy) returns (n: nat)
      requires Complete(tables) && name in p.cutoffs
      ensures n == |EligibleRows(name, tables[name], tables[ReconciliationFindings], p)|
    {
      n := |EligibleRows(name, tables[name], tables[ReconciliationFindings], p)|;
    }

    /** DELETE of at most `limit` eligible rows, the oldest first. */
    method Delete(name: Target, p: Policy, limit: nat) returns (rows: nat, ghost deleted: set<Row>)
      requires Complete(tables) && name in p.cutoffs
      modifies this
      ensures Complete(tables)
      ensures var eligible := EligibleRows(name, old(tables)[name], old(tables)[ReconciliationFindings], p);
        && Oldest(deleted, eligible) && rows == |deleted|
        && rows == (if limit <= |eligible| then limit else |eligible|)
        && tables == old(tables)[name := old(tables)[name] - deleted]
    {
      var chosen := TakeOldest(EligibleRows(name, tables[name], tables[ReconciliationFindings], p), limit);
      tables := tables[name := tables[name] - chosen];
      rows, deleted := |chosen|, chosen;
    }
  }

  /** ORDER BY age, id LIMIT n. */
  method TakeOldest(rows: set<Row>, n: nat) returns (taken: set<Row>)
    requires DistinctIds(rows)
    ensures Oldest(taken, rows) && |taken| == if n <= |rows| then n else |rows|
  {
    taken := {};
    var rest := rows;
    while |taken| < n && rest != {}
      invariant taken + rest == rows && taken !! rest && |taken| <= n
      invariant Oldest(taken, rows)
      decreases rest
    {
      var r := OldestOf(rest);
      assert |taken + {r}| == |taken| + 1;
      taken, rest := taken + {r}, rest - {r};
    }
    assert |rows| == |taken| + |rest|;
  }

  method OldestOf(rows: set<Row>) returns (r: Row)
    requires rows != {} && DistinctIds(rows)
    ensures r in rows && forall x :: x in rows && x != r ==> Earlier(r, x)
  {
    r :| r in rows;
    var rest := rows - {r};
    while rest != {}
      invariant rest <= rows && r in rows && r !in rest
      invariant forall x :: x in rows && x !in rest && x != r ==> Earlier(r, x)
      decreases rest
    {
      var x :| x in rest;
      if Earlier(x, r) { r := x; }
      rest := rest - {x};
    }
  }

  // ---------------------------------------------------------------- the order of targets

  /** Position in the allowlist. */
  function Rank(name: Target): (k: nat)
    ensures k < |PRUNE_ORDER| && PRUNE_ORDER[k] == name
  {
    match name
    case MarketTradeTicks => 0
    case MarketQuoteTicks => 1
    case MarketCaptureTrades => 2
    case MarketCaptureQuotes => 3
    case MarketCaptureBars => 4
    case ReconciliationFindings => 5
    case ReconciliationRuns => 6
    case ScannerCycleHistory => 7
    case ScannerConfirmedEvents => 8
    case MomentumPaperEvents => 9
    case StrategyBarHistory => 10
  }

  ghost predicate InPruneOrder(targets: seq<Target>) {
    forall i, j :: 0 <= i < j < |targets| ==> Rank(targets[i]) < Rank(targets[j])
  }

  /** The name of a target on the command line. */
  function NameOf(t: Target): string {
    match t
    case MarketTradeTicks => "market_trade_ticks"
    case MarketQuoteTicks => "market_quote_ticks"
    case MarketCaptureTrades => "market_capture_trades"
    case MarketCaptureQuotes => "market_capture_quotes"
    case MarketCaptureBars => "market_capture_bars"
    case ReconciliationFindings => "reconciliation_findings"
    case ReconciliationRuns => "reconciliation_runs"
    case ScannerCycleHistory => "scanner_cycle_history"
    case ScannerConfirmedEvents => "scanner_confirmed_events"
    case MomentumPaperEvents => "momentum_paper_events"
    case StrategyBarHistory => "strategy_bar_history"
  }

  predicate Known(name: string) { exists t :: t in PRUNE_ORDER && NameOf(t) == name }

  function Wanted(names: seq<string>, k: nat): (targets: seq<Target>)
    requires k <= |PRUNE_ORDER|
  {
    if k == 0 then []
    else if NameOf(PRUNE_ORDER[k - 1]) in names then Wanted(names, k - 1) + [PRUNE_ORDER[k - 1]]
    else Wanted(names, k - 1)
  }

  lemma {:induction false} RankOf(k: nat)
    requires k < |PRUNE_ORDER|
    ensures Rank(PRUNE_ORDER[k]) == k
  {
  }

  lemma {:induction false} WantedInOrder(names: seq<string>, k: nat)
    requires k <= |PRUNE_ORDER|
    ensures InPruneOrder(Wanted(names, k))
    ensures forall t :: t in Wanted(names, k) <==> NameOf(t) in names && Rank(t) < k
  {
    if k > 0 {
      hide Rank, NameOf;
      WantedInOrder(names, k - 1);
      RankOf(k - 1);
      AppendInOrder(Wanted(names, k - 1), PRUNE_ORDER[k - 1]);
      forall t | Rank(t) == k - 1 ensures t == PRUNE_ORDER[k - 1] { assert PRUNE_ORDER[Rank(t)] == t; }
    }
  }

  lemma {:induction false} AppendInOrder(targets: seq<Target>, last: Target)
    requires InPruneOrder(targets) && forall name :: name in targets ==> Rank(name) < Rank(last)
    ensures InPruneOrder(targets + [last])
  {
    hide Rank;
    forall i, j | 0 <= i < j < |targets + [last]| ensures Rank((targets + [last])[i]) < Rank((targets + [last])[j]) {
      assert targets[i] in targets;
    }
  }

  predicate NoRepeat(names: seq<string>) {
    forall i, j :: 0 <= i < j < |names| ==> names[i] != names[j]
  }

  datatype TablesError = NotUnique | Refused(name: string)

  function FirstUnknown(names: seq<string>): (r: Option<string>)
    ensures r.Some? ==> exists k :: 0 <= k < |names| && names[k] == r.value && !Known(r.value)
                                    && forall j :: 0 <= j < k ==> Known(names[j])
    ensures r.None? ==> forall name :: name in names ==> Known(name)
  {
    if names == [] then None
    else
      var front, last := names[..|names| - 1], names[|names| - 1];
      assert names == front + [last];
      var r := FirstUnknown(front);
      if r.Some? then r else if Known(last) then None else Some(last)
  }

  /** --tables: at least one target, none twice, all of them allowed, and always pruned in the allowlist's order. */
  function ParseTables(names: seq<string>): (r: Result<seq<Target>, TablesError>)
    ensures r == Err(NotUnique) <==> names == [] || exists i, j :: 0 <= i < j < |names| && names[i] == names[j]
    ensures r.Err? && r.error.Refused? ==>
      exists k :: 0 <= k < |names| && names[k] == r.error.name && !Known(names[k])
                  && forall j :: 0 <= j < k ==> Known(names[j])
    ensures r.Ok? <==> names != [] && NoRepeat(names) && forall name :: name in names ==> Known(name)
    ensures r.Ok? ==> InPruneOrder(r.value) && forall t :: t in r.value <==> NameOf(t) in names
  {
    if names == [] || !NoRepeat(names) then Err(NotUnique)
    else
      match FirstUnknown(names)
      case Some(name) => Err(Refused(name))
      case None => WantedInOrder(names, |PRUNE_ORDER|); Ok(Wanted(names, |PRUNE_ORDER|))
  }

  lemma {:induction false} WantedIgnoresOrder(names: seq<string>, others: seq<string>, k: nat)
    requires k <= |PRUNE_ORDER| && forall name :: name in names <==> name in others
    ensures Wanted(names, k) == Wanted(others, k)
  {
    if k > 0 { WantedIgnoresOrder(names, others, k - 1); }
  }

  /** The order in which tables are named does not matter. */
  lemma {:induction false} NamingOrderIsIrrelevant(names: seq<string>, others: seq<string>)
    requires ParseTables(names).Ok? && ParseTables(others).Ok?
    requires forall name :: name in names <==> name in others
    ensures ParseTables(names) == ParseTables(others)
  {
    WantedIgnoresOrder(names, others, |PRUNE_ORDER|);
  }

  // ---------------------------------------------------------------- what a run leaves

  /** What a target lost is a prefix, in age order, of what was eligible, runs being judged against the
      findings that are left. */
  ghost predicate Trimmed(name: Target, initial: Tables, now: Tables, p: Policy)
    requires Complete(initial) && Complete(now) && name in p.cutoffs
  {
    && now[name] <= initial[name]
    && Oldest(initial[name] - now[name], EligibleRows(name, initial[name], now[ReconciliationFindings], p))
  }

  ghost predicate AllTrimmed(targets: seq<Target>, initial: Tables, now: Tables, p: Policy)
    requires Complete(initial) && Complete(now) && Ruled(targets, p)
  {
    forall name :: name in targets ==> Trimmed(name, initial, now, p)
  }

  ghost predicate OthersKept(targets: seq<Target>, initial: Tables, now: Tables)
    requires Complete(initial) && Complete(now)
  {
    forall name :: name !in targets ==> now[name] == initial[name]
  }

  ghost function Removed(targets: seq<Target>, initial: Tables, now: Tables): nat
    requires Complete(initial) && Complete(now)
  {
    if targets == [] then 0
    else
      var name := targets[|targets| - 1];
      Removed(targets[..|targets| - 1], initial, now) + |initial[name] - now[name]|
  }

  ghost predicate Left(targets: seq<Target>, now: Tables, p: Policy)
    requires Complete(now) && Ruled(targets, p)
  {
    exists name :: name in targets && EligibleRows(name, now[name], now[ReconciliationFindings], p) != {}
  }

  /** The closed form of a finished run. */
  ghost function Finished(name: Target, targets: seq<Target>, initial: Tables, p: Policy): set<Row>
    requires Complete(initial) && Ruled(targets, p)
  {
    if name !in targets then initial[name]
    else
      var findings := if name == ReconciliationRuns && ReconciliationFindings in targets
        then initial[ReconciliationFindings]
             - EligibleRows(ReconciliationFindings, initial[ReconciliationFindings], {}, p)
        else initial[ReconciliationFindings];
      initial[name] - EligibleRows(name, initial[name], findings, p)
  }

  lemma {:induction false} ExhaustedTarget(name: Target, initial: Tables, now: Tables, p: Policy)
    requires Complete(initial) && Complete(now) && name in p.cutoffs
    requires Trimmed(name, initial, now, p)
    requires EligibleRows(name, now[name], now[ReconciliationFindings], p) == {}
    ensures now[name] == initial[name] - EligibleRows(name, initial[name], now[ReconciliationFindings], p)
  {
    var deleted := initial[name] - now[name];
    EligibleAfter(name, initial[name], deleted, now[ReconciliationFindings], p);
    assert initial[name] - deleted == now[name];
    var eligible := EligibleRows(name, initial[name], now[ReconciliationFindings], p);
    assert deleted <= eligible;
    assert eligible - deleted == {};
    assert eligible == deleted + (eligible - deleted);
  }

  /** With nothing eligible left, the tables are the closed form, whatever batches and clock led there. */
  lemma {:induction false} FinishedTables(targets: seq<Target>, initial: Tables, now: Tables, p: Policy)
    requires Complete(initial) && Complete(now) && Ruled(targets, p)
    requires AllTrimmed(targets, initial, now, p) && OthersKept(targets, initial, now)
    requires !Left(targets, now, p)
    ensures forall name :: now[name] == Finished(name, targets, initial, p)
  {
    if ReconciliationFindings in targets {
      ExhaustedTarget(ReconciliationFindings, initial, now, p);
      FindingsMatterToRuns(ReconciliationFindings, initial[ReconciliationFindings], now[ReconciliationFindings], {}, p);
    }
    forall name ensures now[name] == Finished(name, targets, initial, p) {
      if name in targets {
        ExhaustedTarget(name, initial, now, p);
        if name != ReconciliationRuns {
          FindingsMatterToRuns(name, initial[name], now[ReconciliationFindings], initial[ReconciliationFindings], p);
        }
      }
    }
  }

  /** No run is deleted while a finding of it remains. */
  lemma {:induction false} FindingsKeepTheirRun(targets: seq<Target>, initial: Tables, now: Tables, p: Policy, f: Row)
    requires Complete(initial) && Complete(now) && Ruled(targets, p)
    requires AllTrimmed(targets, initial, now, p) && OthersKept(targets, initial, now)
    requires f in now[ReconciliationFindings]
    ensures forall r :: r in initial[ReconciliationRuns] && r.id == f.run ==> r in now[ReconciliationRuns]
  {
    if ReconciliationRuns in targets {
      forall r | r in initial[ReconciliationRuns] - now[ReconciliationRuns] ensures r.id != f.run {
        assert r in EligibleRows(ReconciliationRuns, initial[ReconciliationRuns], now[ReconciliationFindings], p);
      }
    }
  }

  /** A dry run judges runs before findings are pruned, so its count is a lower bound. */
  lemma {:induction false} DryRunCountIsLowerBound(rows: set<Row>, findings: set<Row>, pruned: set<Row>, p: Policy)
    requires ReconciliationRuns in p.cutoffs && pruned <= findings
    ensures EligibleRows(ReconciliationRuns, rows, findings, p) <= EligibleRows(ReconciliationRuns, rows, pruned, p)
    ensures |EligibleRows(ReconciliationRuns, rows, findings, p)| <= |EligibleRows(ReconciliationRuns, rows, pruned, p)|
  {
    Fewer(EligibleRows(ReconciliationRuns, rows, findings, p), EligibleRows(ReconciliationRuns, rows, pruned, p));
  }

  lemma {:induction false} Fewer(a: set<Row>, b: set<Row>)
    requires a <= b
    ensures |a| <= |b|
  {
    assert b == a + (b - a);
  }

  lemma {:induction false} RemovedUnchanged(targets: seq<Target>, initial: Tables, before: Tables, now: Tables)
    requires Complete(initial) && Complete(before) && Complete(now)
    requires forall name :: name in targets ==> before[name] == now[name]
    ensures Removed(targets, initial, before) == Removed(targets, initial, now)
  {
    if targets != [] { RemovedUnchanged(targets[..|targets| - 1], initial, before, now); }
  }

  // ---------------------------------------------------------------- the rows themselves

  /** Every row lost is older than its target's cutoff, paper events are of the chosen types, snapshots are scanner
      cycles, and no finding of a lost run is left. */
  ghost predicate LostOnlyExpired(targets: seq<Target>, initial: Tables, now: Tables, p: Policy)
    requires Complete(initial) && Complete(now) && Ruled(targets, p)
  {
    forall name, r :: name in targets && r in initial[name] && r !in now[name] ==>
      && r.age < p.cutoffs[name]
      && (name == MomentumPaperEvents ==> r.kind in p.events)
      && (name == ScannerCycleHistory ==> r.kind == "scanner_cycle_history")
      && (name == ReconciliationRuns ==> forall f :: f in now[ReconciliationFindings] ==> f.run != r.id)
  }

  /** Every row that is left is kept for one of these reasons. */
  ghost predicate NothingExpiredLeft(targets: seq<Target>, now: Tables, p: Policy)
    requires Complete(now) && Ruled(targets, p)
  {
    forall name, r :: name in targets && r in now[name] ==>
      || r.age >= p.cutoffs[name]
      || (name == MomentumPaperEvents && r.kind !in p.events)
      || (name == ScannerCycleHistory && r.kind != "scanner_cycle_history")
      || (name == ReconciliationRuns && exists f :: f in now[ReconciliationFindings] && f.run == r.id)
  }

  /** A row lost is not younger than a row kept that none of the reasons above protects. */
  ghost predicate LostOldestFirst(targets: seq<Target>, initial: Tables, now: Tables, p: Policy)
    requires Complete(initial) && Complete(now) && Ruled(targets, p)
  {
    forall name, lost, kept ::
      && name in targets && lost in initial[name] && lost !in now[name] && kept in now[name]
      && kept.age < p.cutoffs[name]
      && (name == MomentumPaperEvents ==> kept.kind in p.events)
      && (name == ScannerCycleHistory ==> kept.kind == "scanner_cycle_history")
      && (name == ReconciliationRuns ==> forall f :: f in now[ReconciliationFindings] ==> f.run != kept.id) ==>
        lost.age < kept.age || (lost.age == kept.age && lost.id < kept.id)
  }

  lemma {:induction false} RunInFields(targets: seq<Target>, initial: Tables, now: Tables, p: Policy)
    requires Complete(initial) && Complete(now) && Ruled(targets, p) && AllTrimmed(targets, initial, now, p)
    ensures LostOnlyExpired(targets, initial, now, p) && LostOldestFirst(targets, initial, now, p)
    ensures Left(targets, now, p) <==> !NothingExpiredLeft(targets, now, p)
  {
    hide LostOnlyExpired, LostOldestFirst, Left, NothingExpiredLeft;
    LostInFields(targets, initial, now, p);
    KeptInFields(targets, initial, now, p);
    LeftInFields(targets, now, p);
  }

  lemma {:induction false} LostInFields(targets: seq<Target>, initial: Tables, now: Tables, p: Policy)
    requires Complete(initial) && Complete(now) && Ruled(targets, p) && AllTrimmed(targets, initial, now, p)
    ensures LostOnlyExpired(targets, initial, now, p)
  {
    hide DistinctIds;
    forall name, r | name in targets && r in initial[name] && r !in now[name]
      ensures r in EligibleRows(name, initial[name], now[ReconciliationFindings], p)
    {
      assert Trimmed(name, initial, now, p);
      assert r in initial[name] - now[name];
    }
  }

  lemma {:induction false} KeptInFields(targets: seq<Target>, initial: Tables, now: Tables, p: Policy)
    requires Complete(initial) && Complete(now) && Ruled(targets, p) && AllTrimmed(targets, initial, now, p)
    ensures LostOldestFirst(targets, initial, now, p)
  {
    hide DistinctIds;
    forall name, lost, kept | name in targets && lost in initial[name] && lost !in now[name] && kept in now[name]
      ensures kept in initial[name]
      ensures kept in EligibleRows(name, initial[name], now[ReconciliationFindings], p) ==> Earlier(lost, kept)
    {
      assert Trimmed(name, initial, now, p);
      assert lost in initial[name] - now[name];
    }
  }

  lemma {:induction false} LeftInFields(targets: seq<Target>, now: Tables, p: Policy)
    requires Complete(now) && Ruled(targets, p)
    ensures Left(targets, now, p) <==> !NothingExpiredLeft(targets, now, p)
  {
    hide DistinctIds;
    if name :| name in targets && EligibleRows(name, now[name], now[ReconciliationFindings], p) != {} {
      var r :| r in EligibleRows(name, now[name], now[ReconciliationFindings], p);
      assert r in now[name];
    }
    if !NothingExpiredLeft(targets, now, p) {
      var name, r :| name in targets && r in now[name]
                     && Eligible(name, r, now[ReconciliationFindings], p.cutoffs[name], p.events);
      assert r in EligibleRows(name, now[name], now[ReconciliationFindings], p);
    }
  }

  // ---------------------------------------------------------------- the run

  lemma {:induction false} TrimmedStart(name: Target, t: Tables, p: Policy)
    requires Complete(t) && name in p.cutoffs
    ensures Trimmed(name, t, t, p) && t == t[name := t[name]] && |t[name] - t[name]| == 0
  {
  }

  /** The batches of one target. The clock is looked at before every batch. */
  method PruneTarget(db: Database, name: Target, p: Policy, batch: nat, most: nat, timeLeft: nat -> bool, look: nat)
    returns (deleted: nat, looks: nat)
    requires Complete(db.tables) && name in p.cutoffs && 1 <= batch <= 50_000
    modifies db
    ensures Complete(db.tables) && db.tables == old(db.tables)[name := db.tables[name]]
    ensures Trimmed(name, old(db.tables), db.tables, p)
    ensures deleted == |old(db.tables)[name] - db.tables[name]| <= most
    ensures
      || EligibleRows(name, db.tables[name], db.tables[ReconciliationFindings], p) == {}
      || deleted == most || !timeLeft(looks)
  {
    hide Trimmed, EligibleRows, DistinctIds;
    deleted, looks := 0, look;
    TrimmedStart(name, db.tables, p);
    ghost var initial := db.tables;
    while deleted < most && timeLeft(looks)
      invariant Complete(db.tables) && db.tables == initial[name := db.tables[name]]
      invariant Trimmed(name, initial, db.tables, p)
      invariant deleted == |initial[name] - db.tables[name]| <= most
      decreases most - deleted
    {
      looks := looks + 1;
      var limit := if batch < most - deleted then batch else most - deleted;
      ghost var before := db.tables;
      var rows, gone := db.Delete(name, p, limit);
      BatchTrims(name, initial, before, db.tables, gone, p);
      deleted := deleted + rows;
      if rows < limit {
        BatchExhausts(name, before, db.tables, gone, p);
        break;
      }
    }
  }

  method Run(db: Database, targets: seq<Target>, p: Policy, go: bool, batch: nat, maxRows: nat, timeLeft: nat -> bool)
    returns (code: nat)
    requires Complete(db.tables) && Ruled(targets, p) && InPruneOrder(targets)
    requires 1 <= batch <= 50_000 && maxRows >= 1
    modifies db
    ensures Complete(db.tables)
    ensures !go ==> db.tables == old(db.tables) && code == 0
    ensures OthersKept(targets, old(db.tables), db.tables)
    ensures go ==> AllTrimmed(targets, old(db.tables), db.tables, p)
    ensures Removed(targets, old(db.tables), db.tables) <= maxRows
    ensures go ==> code == if Left(targets, db.tables, p) then 3 else 0
    ensures code == 3 ==> Removed(targets, old(db.tables), db.tables) == maxRows || exists k :: !timeLeft(k)
    ensures go && code == 0 ==> forall name :: db.tables[name] == Finished(name, targets, old(db.tables), p)
    ensures go ==> LostOnlyExpired(targets, old(db.tables), db.tables, p)
    ensures go ==> LostOldestFirst(targets, old(db.tables), db.tables, p)
    ensures go ==> (code == 0 <==> NothingExpiredLeft(targets, db.tables, p))
  {
    hide Trimmed, AllTrimmed, OthersKept, Left, Removed, EligibleRows, Finished, DistinctIds, LostOnlyExpired,
      LostOldestFirst, NothingExpiredLeft;
    code := 0;
    ghost var initial := db.tables;
    StartOfRun(targets, initial, p);
    if !go { return; }
    var budget: nat, look: nat, incomplete := maxRows, 0, false;
    var i := 0;
    while i < |targets|
      invariant 0 <= i <= |targets| && Complete(db.tables)
      invariant OthersKept(targets[..i], initial, db.tables)
      invariant AllTrimmed(targets[..i], initial, db.tables, p)
      invariant budget + Removed(targets[..i], initial, db.tables) == maxRows
      invariant incomplete <==> Left(targets[..i], db.tables, p)
      invariant incomplete ==> budget == 0 || exists k :: !timeLeft(k)
    {
      var name := targets[i];
      ghost var before := db.tables;
      var deleted;
      deleted, look := PruneTarget(db, name, p, batch, budget, timeLeft, look);
      budget := budget - deleted;
      var remaining := db.Count(name, p);
      incomplete := incomplete || remaining > 0;
      NextTarget(targets, i, initial, before, db.tables, p);
      i := i + 1;
    }
    assert targets[..i] == targets;
    RunInFields(targets, initial, db.tables, p);
    if incomplete { code := 3; } else { FinishedTables(targets, initial, db.tables, p); }
  }

  lemma {:induction false} BatchTrims(
      name: Target, initial: Tables, before: Tables, now: Tables, gone: set<Row>, p: Policy)
    requires Complete(initial) && Complete(before) && Complete(now) && name in p.cutoffs
    requires before == initial[name := before[name]] && now == before[name := before[name] - gone]
    requires Trimmed(name, initial, before, p)
    requires Oldest(gone, EligibleRows(name, before[name], before[ReconciliationFindings], p))
    ensures now == initial[name := now[name]] && Trimmed(name, initial, now, p)
    ensures |initial[name] - now[name]| == |initial[name] - before[name]| + |gone|
  {
    hide Oldest, DistinctIds;
    var findings := now[ReconciliationFindings];
    if name == ReconciliationFindings {
      FindingsMatterToRuns(name, initial[name], before[name], findings, p);
      FindingsMatterToRuns(name, before[name], before[name], findings, p);
    }
    var lost := initial[name] - before[name];
    assert initial[name] - lost == before[name];
    EligibleAfter(name, initial[name], lost, findings, p);
    assert gone <= before[name] by { Deleted(gone, name, before[name], findings, p); }
    OldestUnion(lost, gone, EligibleRows(name, initial[name], findings, p));
    assert initial[name] - now[name] == lost + gone;
  }

  lemma {:induction false} Deleted(gone: set<Row>, name: Target, rows: set<Row>, findings: set<Row>, p: Policy)
    requires name in p.cutoffs && Oldest(gone, EligibleRows(name, rows, findings, p))
    ensures gone <= rows
  {
  }

  lemma {:induction false} BatchExhausts(name: Target, before: Tables, now: Tables, gone: set<Row>, p: Policy)
    requires Complete(before) && Complete(now) && name in p.cutoffs
    requires now == before[name := before[name] - gone]
    requires gone <= EligibleRows(name, before[name], before[ReconciliationFindings], p)
    requires |gone| == |EligibleRows(name, before[name], before[ReconciliationFindings], p)|
    ensures EligibleRows(name, now[name], now[ReconciliationFindings], p) == {}
  {
    hide DistinctIds;
    var eligible := EligibleRows(name, before[name], before[ReconciliationFindings], p);
    assert eligible == gone by { assert eligible == gone + (eligible - gone); }
    EligibleAfter(name, before[name], gone, before[ReconciliationFindings], p);
    if name == ReconciliationFindings {
      FindingsMatterToRuns(name, now[name], before[ReconciliationFindings], now[ReconciliationFindings], p);
    }
  }

  lemma {:induction false} RemovedNothing(targets: seq<Target>, t: Tables)
    requires Complete(t)
    ensures Removed(targets, t, t) == 0
  {
    if targets != [] { RemovedNothing(targets[..|targets| - 1], t); }
  }

  lemma {:induction false} StartOfRun(targets: seq<Target>, t: Tables, p: Policy)
    requires Complete(t) && Ruled(targets, p)
    ensures OthersKept(targets[..0], t, t) && AllTrimmed(targets[..0], t, t, p) && !Left(targets[..0], t, p)
    ensures OthersKept(targets, t, t) && Removed(targets[..0], t, t) == Removed(targets, t, t) == 0
  {
    RemovedNothing(targets, t);
  }

  lemma {:induction false} EarlierTargets(targets: seq<Target>, i: nat)
    requires InPruneOrder(targets) && i < |targets|
    ensures targets[i] !in targets[..i]
    ensures ReconciliationRuns in targets[..i] ==> targets[i] != ReconciliationFindings
  {
    if ReconciliationRuns in targets[..i] {
      assert Rank(ReconciliationRuns) < Rank(targets[i]);
    }
  }

  lemma {:induction false} NextTarget(
      targets: seq<Target>, i: nat, initial: Tables, before: Tables, now: Tables, p: Policy)
    requires Complete(initial) && Complete(before) && Complete(now) && Ruled(targets, p) && InPruneOrder(targets)
    requires i < |targets| && now == before[targets[i] := now[targets[i]]]
    requires OthersKept(targets[..i], initial, before) && AllTrimmed(targets[..i], initial, before, p)
    requires Trimmed(targets[i], before, now, p)
    ensures OthersKept(targets[..i + 1], initial, now) && AllTrimmed(targets[..i + 1], initial, now, p)
    ensures Removed(targets[..i + 1], initial, now)
         == Removed(targets[..i], initial, before) + |before[targets[i]] - now[targets[i]]|
    ensures Left(targets[..i + 1], now, p) <==>
      Left(targets[..i], before, p) || EligibleRows(targets[i], now[targets[i]], now[ReconciliationFindings], p) != {}
  {
    hide Oldest, DistinctIds, InPruneOrder, Rank, EligibleRows;
    var name := targets[i];
    var done := targets[..i];
    assert targets[..i + 1] == done + [name];
    EarlierTargets(targets, i);
    assert before[name] == initial[name];
    RemovedUnchanged(done, initial, before, now);
    assert targets[..i + 1][..i] == done;
    forall other | other in done
      ensures Trimmed(other, initial, now, p)
      ensures EligibleRows(other, now[other], now[ReconciliationFindings], p)
           == EligibleRows(other, before[other], before[ReconciliationFindings], p)
    {
      assert Trimmed(other, initial, before, p);
      if other != ReconciliationRuns {
        FindingsMatterToRuns(other, now[other], now[ReconciliationFindings], before[ReconciliationFindings], p);
        FindingsMatterToRuns(other, initial[other], now[ReconciliationFindings], before[ReconciliationFindings], p);
      }
    }
    assert Trimmed(name, initial, now, p);
  }
}
