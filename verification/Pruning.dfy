/**
 What the pruner may and must delete, under every interleaving of its three
 critical sections with registrations, removals, pauses, resumptions and the clock.
 */
module Pruning {
  import opened Entries
  import opened Names
  import opened Tables
  import opened TableMachine

  predicate Touches(e: Event, k: Pair) {
    e.Add? && k.0 in Normalised(e.hostnames) && e.ip == k.1
  }

  predicate Drops(e: Event, k: Pair) {
    e.Remove? && k.0 in Normalised(e.hostnames) && e.ip == k.1
  }

  ghost predicate NeverTouches(es: seq<Event>, k: Pair) {
    forall i :: 0 <= i < |es| ==> !Touches(es[i], k)
  }

  ghost predicate NeverDrops(es: seq<Event>, k: Pair) {
    forall i :: 0 <= i < |es| ==> !Drops(es[i], k)
  }

  function Elapsed(es: seq<Event>): nat {
    if es == [] then 0 else
      var e := es[|es| - 1];
      Elapsed(es[..|es| - 1]) + if e.Advance? then e.elapsed else 0
  }

  // ---------------------------------------------------------------- two-phase pruning

  predicate Prunes(cfg: Config, s: State<Registry>, e: Event, k: Pair) {
    && e.WriteTable? && s.pruner.Scanned? && k.0 in s.pruner.candidates
    && k in s.table && Stale(s.table[k], s.now, cfg.staleness)
  }

  /** The effect of one step on one pair. */
  lemma StepAt(cfg: Config, s: State<Registry>, e: Event, k: Pair)
    ensures var t := Step(cfg, s, e).table;
            && (k in t <==> Touches(e, k) || (k in s.table && !Drops(e, k) && !Prunes(cfg, s, e, k)))
            && (k in t ==> t[k] == if Touches(e, k) then s.now else s.table[k])
  {
    match e
    case Add(hostnames, ip) =>
      assert k in Pairs(Normalised(hostnames), ip) <==> Touches(e, k);
    case Remove(hostnames, ip) =>
      assert k in Pairs(Normalised(hostnames), ip) <==> Drops(e, k);
    case _ =>
  }

  /** The step after `es[..n]` is a removal of the pair, or a prune that finds it older than the threshold. */
  ghost predicate LostAt(cfg: Config, s: State<Registry>, es: seq<Event>, n: int, k: Pair)
    requires 0 <= n < |es|
  {
    var p := Run(cfg, s, es[..n]);
    k in p.table && (Drops(es[n], k) || Prunes(cfg, p, es[n], k))
  }

  /** A pair disappears only by its removal or by a write that finds it stale at that moment. */
  lemma {:induction false} LossHasACause(cfg: Config, s: State<Registry>, es: seq<Event>, k: Pair)
    requires k in s.table && k !in Run(cfg, s, es).table
    ensures exists n :: 0 <= n < |es| && LostAt(cfg, s, es, n, k)
  {
    var m := |es| - 1;
    var init := es[..m];
    if k in Run(cfg, s, init).table {
      StepAt(cfg, Run(cfg, s, init), es[m], k);
      assert LostAt(cfg, s, es, m, k);
    } else {
      LossHasACause(cfg, s, init, k);
      var n :| 0 <= n < |init| && LostAt(cfg, s, init, n, k);
      assert init[..n] == es[..n];
      assert LostAt(cfg, s, es, n, k);
    }
  }

  lemma {:induction false} RecentStays(cfg: Config, s: State<Registry>, es: seq<Event>, k: Pair)
    requires k in s.table && s.table[k] <= s.now && NeverDrops(es, k)
    requires s.now - s.table[k] + Elapsed(es) <= cfg.staleness
    ensures var r := Run(cfg, s, es);
            k in r.table && r.table[k] >= s.table[k] && r.now == s.now + Elapsed(es)
  {
    if es != [] {
      var init, e := es[..|es| - 1], es[|es| - 1];
      RecentStays(cfg, s, init, k);
      StepAt(cfg, Run(cfg, s, init), e, k);
    }
  }

  /** A pair registered no longer ago than the threshold and not removed since is listed, whatever the pruner does. */
  lemma RegisteredSurvives(cfg: Config, s: State<Registry>, registration: Event, after: seq<Event>, k: Pair)
    requires Touches(registration, k) && NeverDrops(after, k)
    requires Elapsed(after) <= cfg.staleness
    ensures k in Run(cfg, s, [registration] + after).table
  {
    RunAppend(cfg, s, [registration], after);
    RunStep(cfg, s, [], registration);
    assert [] + [registration] == [registration];
    RecentStays(cfg, Step(cfg, s, registration), after, k);
  }

  ghost predicate Doomed(cfg: Config, s: State<Registry>, k: Pair) {
    k in s.table ==>
      s.pruner.Scanned? && k.0 in s.pruner.candidates && Stale(s.table[k], s.now, cfg.staleness)
  }

  lemma {:induction false} DoomedStays(cfg: Config, s: State<Registry>, es: seq<Event>, k: Pair)
    requires Doomed(cfg, s, k) && NeverTouches(es, k)
    ensures Doomed(cfg, Run(cfg, s, es), k)
  {
    if es != [] {
      var init, e := es[..|es| - 1], es[|es| - 1];
      DoomedStays(cfg, s, init, k);
      StepAt(cfg, Run(cfg, s, init), e, k);
    }
  }

  /** A pair stale at the scan and not registered again before the write is gone after it. */
  lemma StaleAtScanIsGone(cfg: Config, s: State<Registry>, between: seq<Event>, k: Pair)
    requires s.pruner.PastGate?
    requires k in s.table ==> Stale(s.table[k], s.now, cfg.staleness)
    requires NeverTouches(between, k)
    ensures k !in Run(cfg, s, [ScanTable] + between + [WriteTable]).table
  {
    RunStep(cfg, s, [ScanTable] + between, WriteTable);
    RunAppend(cfg, s, [ScanTable], between);
    RunStep(cfg, s, [], ScanTable);
    assert [] + [ScanTable] == [ScanTable];
    DoomedStays(cfg, Step(cfg, s, ScanTable), between, k);
  }

  function FullFilter(r: Registry, now: int, threshold: int): Registry {
    map k | k in r && !Stale(r[k], now, threshold) :: r[k]
  }

  ghost predicate Within(a: Registry, b: Registry) {
    forall k :: k in a ==> k in b && b[k] == a[k]
  }

  lemma PassResult(cfg: Config, s: State<Registry>, delay: nat)
    requires s.pruner.PastGate?
    ensures Run(cfg, s, [ScanTable, Advance(delay), WriteTable]).table
         == Prune(s.table, ScanStale(s.table, s.now, cfg.staleness), s.now + delay, cfg.staleness)
  {
    RunStep(cfg, s, [], ScanTable);
    RunStep(cfg, s, [ScanTable], Advance(delay));
    RunStep(cfg, s, [ScanTable, Advance(delay)], WriteTable);
    assert [] + [ScanTable] == [ScanTable];
    assert [ScanTable] + [Advance(delay)] == [ScanTable, Advance(delay)];
    assert [ScanTable, Advance(delay)] + [WriteTable] == [ScanTable, Advance(delay), WriteTable];
  }

  /** A pass with nothing but time inside deletes what was stale at the scan and nothing fresh at the write. */
  lemma UndisturbedPass(cfg: Config, s: State<Registry>, delay: nat)
    requires s.pruner.PastGate?
    ensures var r := Run(cfg, s, [ScanTable, Advance(delay), WriteTable]).table;
            && Within(FullFilter(s.table, s.now + delay, cfg.staleness), r)
            && Within(r, FullFilter(s.table, s.now, cfg.staleness))
            && (delay == 0 ==> r == FullFilter(s.table, s.now, cfg.staleness))
  {
    PassResult(cfg, s, delay);
    var c := ScanStale(s.table, s.now, cfg.staleness);
    var r := Prune(s.table, c, s.now + delay, cfg.staleness);
    forall k | k in r ensures !Stale(s.table[k], s.now, cfg.staleness) {
      assert Stale(s.table[k], s.now, cfg.staleness) ==> k.0 in c;
    }
    if delay == 0 {
      SameRegistry(r, FullFilter(s.table, s.now, cfg.staleness));
    }
  }

  // ---------------------------------------------------------------- pausing

  /** How many writes of the run deleted something. */
  function DeletingWrites(cfg: Config, s: State<Registry>, es: seq<Event>): nat {
    if es == [] then 0 else
      var init, e := es[..|es| - 1], es[|es| - 1];
      var p := Run(cfg, s, init);
      DeletingWrites(cfg, s, init) + if e.WriteTable? && Step(cfg, p, e).table != p.table then 1 else 0
  }

  ghost predicate GateShut(cfg: Config, s: State<Registry>, es: seq<Event>) {
    forall n :: 0 <= n < |es| && es[n].GateCheck? ==> !GateOpen(cfg, Run(cfg, s, es[..n]))
  }

  /** While the gate is shut only a pass already beyond it can delete, and only once. */
  lemma {:induction false} ShutGateStopsPruning(cfg: Config, s: State<Registry>, es: seq<Event>)
    requires GateShut(cfg, s, es)
    ensures DeletingWrites(cfg, s, es) + (if Run(cfg, s, es).pruner.Idle? then 0 else 1)
         <= if s.pruner.Idle? then 0 else 1
  {
    if es != [] {
      var init := es[..|es| - 1];
      forall n | 0 <= n < |init| && init[n].GateCheck? ensures !GateOpen(cfg, Run(cfg, s, init[..n])) {
        assert init[..n] == es[..n];
      }
      ShutGateStopsPruning(cfg, s, init);
    }
  }

  ghost predicate NoResume(es: seq<Event>) {
    forall i :: 0 <= i < |es| ==> !es[i].Resume?
  }

  lemma {:induction false} PausedStays(cfg: Config, s: State<Registry>, es: seq<Event>)
    requires s.paused && NoResume(es)
    ensures Run(cfg, s, es).paused
  {
    if es != [] {
      PausedStays(cfg, s, es[..|es| - 1]);
    }
  }

  lemma {:induction false} DelayStays(cfg: Config, s: State<Registry>, es: seq<Event>, d: int)
    requires s.lastResume.Some? && s.now - s.lastResume.value + d < cfg.resumeDelay
    requires Elapsed(es) <= d < cfg.resumeDelay
    ensures var r := Run(cfg, s, es);
            r.lastResume.Some? && r.now - r.lastResume.value + (d - Elapsed(es)) < cfg.resumeDelay
  {
    if es != [] {
      DelayStays(cfg, s, es[..|es| - 1], d);
    }
  }

  lemma {:induction false} ElapsedPrefix(es: seq<Event>, n: int)
    requires 0 <= n <= |es|
    ensures Elapsed(es[..n]) <= Elapsed(es)
  {
    if n < |es| {
      ElapsedPrefix(es[..|es| - 1], n);
      assert es[..|es| - 1][..n] == es[..n];
    } else {
      assert es[..n] == es;
    }
  }

  lemma ShutWhilePaused(cfg: Config, s: State<Registry>, es: seq<Event>)
    requires s.paused && NoResume(es)
    ensures GateShut(cfg, s, es)
  {
    forall n | 0 <= n < |es| ensures !GateOpen(cfg, Run(cfg, s, es[..n])) {
      PausedStays(cfg, s, es[..n]);
    }
  }

  lemma ShutDuringDelay(cfg: Config, s: State<Registry>, es: seq<Event>)
    requires s.lastResume == Some(s.now) && Elapsed(es) < cfg.resumeDelay
    ensures GateShut(cfg, s, es)
  {
    forall n | 0 <= n < |es| ensures !GateOpen(cfg, Run(cfg, s, es[..n])) {
      ElapsedPrefix(es, n);
      DelayStays(cfg, s, es[..n], Elapsed(es));
    }
  }

  lemma ShutAppend(cfg: Config, s: State<Registry>, a: seq<Event>, b: seq<Event>)
    requires GateShut(cfg, s, a) && GateShut(cfg, Run(cfg, s, a), b)
    ensures GateShut(cfg, s, a + b)
  {
    var es := a + b;
    forall n | 0 <= n < |es| && es[n].GateCheck? ensures !GateOpen(cfg, Run(cfg, s, es[..n])) {
      if n < |a| {
        assert es[..n] == a[..n];
      } else {
        assert es[..n] == a + b[..n - |a|];
        RunAppend(cfg, s, a, b[..n - |a|]);
      }
    }
  }

  /**
   After a pause no pass starts until pruning is resumed and the whole delay has
   gone by: at most the pass already beyond its gate deletes, and none if there was none.
   */
  lemma PauseGuarantee(cfg: Config, s: State<Registry>, outage: seq<Event>, recovery: seq<Event>)
    requires NoResume(outage) && Elapsed(recovery) < cfg.resumeDelay
    ensures DeletingWrites(cfg, s, [Pause] + outage + [Resume] + recovery) <= if s.pruner.Idle? then 0 else 1
  {
    hide Run, GateOpen, GateShut, DeletingWrites;
    var p, r := [Pause], [Resume];
    assert [] + p == p && [] + r == r;
    RunStep(cfg, s, [], Pause);
    ShutWhilePaused(cfg, Run(cfg, s, p), outage);
    ShutAppend(cfg, s, p, outage);
    var mid := Run(cfg, s, p + outage);
    ShutAppend(cfg, s, p + outage, r);
    RunStep(cfg, s, p + outage, Resume);
    ShutDuringDelay(cfg, Run(cfg, s, p + outage + r), recovery);
    ShutAppend(cfg, s, p + outage + r, recovery);
    ShutGateStopsPruning(cfg, s, p + outage + r + recovery);
  }

  /** A gate check that let the pass in flight at `n` begin, `g` being its position. */
  ghost predicate Began(cfg: Config, s: State<Registry>, es: seq<Event>, g: int, n: int)
    requires 0 <= g < n <= |es|
  {
    var p := Run(cfg, s, es[..g]);
    && es[g].GateCheck? && p.pruner.Idle? && GateOpen(cfg, p)
    && forall m :: g < m <= n ==> !Run(cfg, s, es[..m]).pruner.Idle?
  }

  /** Whatever the pruner deletes belongs to a pass whose gate was open when it was checked. */
  lemma {:induction false} PassHasOpenGate(cfg: Config, s: State<Registry>, es: seq<Event>)
    requires s.pruner.Idle? && !Run(cfg, s, es).pruner.Idle?
    ensures exists g :: 0 <= g < |es| && Began(cfg, s, es, g, |es|)
  {
    var last := |es| - 1;
    var init := es[..last];
    assert es[..|es|] == es;
    if Run(cfg, s, init).pruner.Idle? {
      assert Began(cfg, s, es, last, |es|);
    } else {
      PassHasOpenGate(cfg, s, init);
      var g :| 0 <= g < |init| && Began(cfg, s, init, g, |init|);
      assert es[..g] == init[..g];
      forall m | g < m <= |es| ensures !Run(cfg, s, es[..m]).pruner.Idle? {
        if m < |es| { assert es[..m] == init[..m]; }
      }
      assert Began(cfg, s, es, g, |es|);
    }
  }

  // ---------------------------------------------------------------- staleness bound

  /** When the last completed pass, and the pass in flight, scanned the table. */
  datatype Passes = Passes(completed: int, current: int)

  function NextScan(s: State<Registry>, e: Event, w: Passes): Passes {
    if e.ScanTable? && s.pruner.PastGate? then w.(current := s.now)
    else if e.WriteTable? && s.pruner.Scanned? then w.(completed := w.current)
    else w
  }

  function ScanTimes(cfg: Config, s: State<Registry>, es: seq<Event>): Passes {
    if es == [] then Passes(s.now, s.now) else
      var init := es[..|es| - 1];
      NextScan(Run(cfg, s, init), es[|es| - 1], ScanTimes(cfg, s, init))
  }

  /** Every entry is at least as recent as the last completed scan allows, and those a scan passed over as it does. */
  ghost predicate SinceScan(cfg: Config, s: State<Registry>, w: Passes) {
    && w.completed <= w.current <= s.now
    && (forall k :: k in s.table ==> s.table[k] >= w.completed - cfg.staleness)
    && (s.pruner.Scanned? ==>
          forall k :: k in s.table && k.0 !in s.pruner.candidates ==> s.table[k] >= w.current - cfg.staleness)
  }

  lemma SinceScanStep(cfg: Config, s: State<Registry>, e: Event, w: Passes)
    requires cfg.staleness >= 0 && SinceScan(cfg, s, w)
    ensures SinceScan(cfg, Step(cfg, s, e), NextScan(s, e, w))
  {
    var t, v := Step(cfg, s, e), NextScan(s, e, w);
    forall k | k in t.table
      ensures t.table[k] >= v.completed - cfg.staleness
      ensures t.pruner.Scanned? && k.0 !in t.pruner.candidates ==> t.table[k] >= v.current - cfg.staleness
    {
      StepAt(cfg, s, e, k);
    }
  }

  lemma {:induction false} EntriesSinceScan(cfg: Config, now: int, es: seq<Event>)
    requires cfg.staleness >= 0
    ensures SinceScan(cfg, Run(cfg, Start(map[], now), es), ScanTimes(cfg, Start(map[], now), es))
  {
    if es != [] {
      hide Step, SinceScan, NextScan;
      var s: State<Registry> := Start(map[], now);
      var init := es[..|es| - 1];
      EntriesSinceScan(cfg, now, init);
      SinceScanStep(cfg, Run(cfg, s, init), es[|es| - 1], ScanTimes(cfg, s, init));
    }
  }

  /**
   If the last completed pass scanned no longer than `interval` ago, no entry is older
   than the staleness threshold plus `interval`, however the passes were interleaved.
   */
  lemma StalenessBound(cfg: Config, now: int, es: seq<Event>, interval: int, k: Pair)
    requires cfg.staleness >= 0
    requires k in Run(cfg, Start(map[], now), es).table
    requires Run(cfg, Start(map[], now), es).now - ScanTimes(cfg, Start(map[], now), es).completed <= interval
    ensures var r := Run(cfg, Start(map[], now), es);
            r.now - r.table[k] <= cfg.staleness + interval
  {
    EntriesSinceScan(cfg, now, es);
  }
}
