/**
 The address table as a concurrent state machine. Each region the program runs
 under its mutex is one atomic step, and the pruner's pass is three of them, so
 that any other step may fall between the gate, the scan and the write. A step of
 the pruner that does not fit where its pass stands leaves the state unchanged.
 */
module TableMachine {
  import opened Names
  import opened Entries
  import opened Tables

  datatype Config = Config(staleness: int, resumeDelay: int)

  datatype Pruner = Idle | PastGate | Scanned(candidates: set<string>)

  /** `lastResume` is `None` until pruning is resumed for the first time. */
  datatype State<T> = State(table: T, now: int, paused: bool, lastResume: Option<int>, pruner: Pruner)

  datatype Event =
    | Add(hostnames: seq<string>, ip: string)
    | Remove(hostnames: seq<string>, ip: string)
    | Pause
    | Resume
    | Advance(elapsed: nat)
    | GateCheck
    | ScanTable
    | WriteTable

  predicate GateOpen<T>(cfg: Config, s: State<T>) {
    !s.paused && (s.lastResume.None? || s.now - s.lastResume.value >= cfg.resumeDelay)
  }

  /** The steps that leave the entries alone. */
  function Control<T>(cfg: Config, s: State<T>, e: Event): State<T> {
    match e
    case Pause => s.(paused := true)
    case Resume => s.(paused := false, lastResume := Some(s.now))
    case Advance(elapsed) => s.(now := s.now + elapsed)
    case GateCheck => if s.pruner.Idle? && GateOpen(cfg, s) then s.(pruner := PastGate) else s
    case _ => s
  }

  function Step(cfg: Config, s: State<Registry>, e: Event): State<Registry> {
    match e
    case Add(hostnames, ip) => s.(table := Register(s.table, Normalised(hostnames), ip, s.now))
    case Remove(hostnames, ip) => s.(table := Unregister(s.table, Normalised(hostnames), ip))
    case ScanTable =>
      if s.pruner.PastGate? then s.(pruner := Scanned(ScanStale(s.table, s.now, cfg.staleness))) else s
    case WriteTable =>
      if s.pruner.Scanned?
      then s.(table := Prune(s.table, s.pruner.candidates, s.now, cfg.staleness), pruner := Idle)
      else s
    case _ => Control(cfg, s, e)
  }

  ghost function TableStep(cfg: Config, s: State<Table>, e: Event): State<Table> {
    match e
    case Add(hostnames, ip) => s.(table := AddAll(s.table, hostnames, ip, s.now))
    case Remove(hostnames, ip) => s.(table := RemoveAll(s.table, hostnames, ip))
    case ScanTable =>
      if s.pruner.PastGate? then s.(pruner := Scanned(StaleHosts(s.table, s.now, cfg.staleness))) else s
    case WriteTable =>
      if s.pruner.Scanned?
      then s.(table := PruneAll(s.table, s.pruner.candidates, s.now, cfg.staleness), pruner := Idle)
      else s
    case _ => Control(cfg, s, e)
  }

  function Run(cfg: Config, s: State<Registry>, es: seq<Event>): State<Registry> {
    if es == [] then s else Step(cfg, Run(cfg, s, es[..|es| - 1]), es[|es| - 1])
  }

  ghost function TableRun(cfg: Config, s: State<Table>, es: seq<Event>): State<Table> {
    if es == [] then s else TableStep(cfg, TableRun(cfg, s, es[..|es| - 1]), es[|es| - 1])
  }

  /** A new table: empty, unpaused, never resumed, the pruner waiting for its ticker. */
  function Start<T>(empty: T, now: int): State<T> {
    State(empty, now, false, None, Idle)
  }

  lemma RunStep(cfg: Config, s: State<Registry>, es: seq<Event>, e: Event)
    ensures Run(cfg, s, es + [e]) == Step(cfg, Run(cfg, s, es), e)
  {
    assert (es + [e])[..|es|] == es;
  }

  lemma {:induction false} RunAppend(cfg: Config, s: State<Registry>, a: seq<Event>, b: seq<Event>)
    ensures Run(cfg, s, a + b) == Run(cfg, Run(cfg, s, a), b)
  {
    hide Step;
    if b == [] {
      assert a + b == a;
    } else {
      var init, e := b[..|b| - 1], b[|b| - 1];
      RunAppend(cfg, s, a, init);
      RunStep(cfg, s, a + init, e);
      assert a + b == (a + init) + [e];
    }
  }

  lemma RunCons(cfg: Config, s: State<Registry>, e: Event, es: seq<Event>)
    ensures Run(cfg, s, [e] + es) == Run(cfg, Step(cfg, s, e), es)
  {
    RunAppend(cfg, s, [e], es);
    RunStep(cfg, s, [], e);
    assert [] + [e] == [e];
  }

  // ---------------------------------------------------------------- refinement

  function AbsState(s: State<Table>): State<Registry> {
    State(Abs(s.table), s.now, s.paused, s.lastResume, s.pruner)
  }

  lemma StepRefines(cfg: Config, s: State<Table>, e: Event)
    requires WellFormed(s.table)
    ensures WellFormed(TableStep(cfg, s, e).table)
    ensures AbsState(TableStep(cfg, s, e)) == Step(cfg, AbsState(s), e)
  {
    match e
    case Add(hostnames, ip) =>
      AddAllRefines(s.table, hostnames, ip, s.now);
      AddAllWellFormed(s.table, hostnames, ip, s.now);
    case Remove(hostnames, ip) =>
      RemoveAllRefines(s.table, hostnames, ip);
      RemoveAllWellFormed(s.table, hostnames, ip);
    case ScanTable =>
      ScanRefines(s.table, s.now, cfg.staleness);
    case WriteTable =>
      if s.pruner.Scanned? {
        PruneAllRefines(s.table, s.pruner.candidates, s.now, cfg.staleness);
      }
    case _ =>
  }

  /** In every run the ordered table is well formed and abstracts to the registry of the same run. */
  lemma {:induction false} RunRefines(cfg: Config, s: State<Table>, es: seq<Event>)
    requires WellFormed(s.table)
    ensures WellFormed(TableRun(cfg, s, es).table)
    ensures AbsState(TableRun(cfg, s, es)) == Run(cfg, AbsState(s), es)
  {
    if es != [] {
      var init, e := es[..|es| - 1], es[|es| - 1];
      RunRefines(cfg, s, init);
      StepRefines(cfg, TableRun(cfg, s, init), e);
    }
  }

  // ---------------------------------------------------------------- batches

  /** A batch Add as single ones, with the time that goes by before each. */
  function Spread(hostnames: seq<string>, ip: string, gaps: seq<nat>): seq<Event>
    requires |gaps| == |hostnames|
  {
    if hostnames == [] then [] else
      var n := |hostnames| - 1;
      Spread(hostnames[..n], ip, gaps[..n]) + [Advance(gaps[n])] + [Add([hostnames[n]], ip)]
  }

  /** The clock readings of such a batch. */
  function Readings(now: int, gaps: seq<nat>): (r: seq<int>)
    ensures |r| == |gaps|
  {
    if gaps == [] then [] else
      var r := Readings(now, gaps[..|gaps| - 1]);
      r + [(if r == [] then now else r[|r| - 1]) + gaps[|gaps| - 1]]
  }

  lemma TableRunStep(cfg: Config, s: State<Table>, es: seq<Event>, e: Event)
    ensures TableRun(cfg, s, es + [e]) == TableStep(cfg, TableRun(cfg, s, es), e)
  {
    hide TableStep;
    assert (es + [e])[..|es|] == es;
  }

  lemma {:induction false} TableRunAppend(
      cfg: Config, s: State<Table>, a: seq<Event>, b: seq<Event>)
    ensures TableRun(cfg, s, a + b) == TableRun(cfg, TableRun(cfg, s, a), b)
  {
    hide TableStep;
    if b == [] {
      assert a + b == a;
    } else {
      var init := b[..|b| - 1];
      TableRunAppend(cfg, s, a, init);
      assert (a + b)[..|a + b| - 1] == a + init;
    }
  }

  lemma AddAllOfOne(t: Table, hostname: string, ip: string, now: int)
    ensures AddAll(t, [hostname], ip, now) == AddOne(t, hostname, ip, now)
  {
    hide AddOne;
    assert [hostname][..0] == [];
    assert AddAll(t, [], ip, now) == t;
  }

  lemma SpreadStep(cfg: Config, s: State<Table>, es: seq<Event>, gap: nat, hostname: string, ip: string)
    ensures var t := TableRun(cfg, s, es);
            TableRun(cfg, s, es + [Advance(gap)] + [Add([hostname], ip)])
            == t.(now := t.now + gap, table := AddOne(t.table, hostname, ip, t.now + gap))
  {
    hide TableRun, AddOne;
    TableRunStep(cfg, s, es, Advance(gap));
    TableRunStep(cfg, s, es + [Advance(gap)], Add([hostname], ip));
    var t := TableRun(cfg, s, es);
    AddAllOfOne(t.table, hostname, ip, t.now + gap);
  }

  /** A batch that reads the clock for each hostname is a schedule, so what holds of all runs covers it. */
  lemma {:induction false} BatchIsSchedule(
      cfg: Config, s: State<Table>, hostnames: seq<string>, ip: string, gaps: seq<nat>)
    requires |gaps| == |hostnames|
    ensures var r := Readings(s.now, gaps);
            TableRun(cfg, s, Spread(hostnames, ip, gaps))
            == s.(now := if r == [] then s.now else r[|r| - 1], table := AddEach(s.table, hostnames, ip, r))
  {
    hide AddOne, TableStep;
    if hostnames != [] {
      var n := |hostnames| - 1;
      BatchIsSchedule(cfg, s, hostnames[..n], ip, gaps[..n]);
      SpreadStep(cfg, s, Spread(hostnames[..n], ip, gaps[..n]), gaps[n], hostnames[n], ip);
      assert Readings(s.now, gaps)[..n] == Readings(s.now, gaps[..n]);
    }
  }

  // ---------------------------------------------------------------- names

  /** The same operation on the same hosts, however they are written, ordered or repeated. */
  ghost predicate SameEvent(a: Event, b: Event) {
    || a == b
    || (a.Add? && b.Add? && a.ip == b.ip && Normalised(a.hostnames) == Normalised(b.hostnames))
    || (a.Remove? && b.Remove? && a.ip == b.ip && Normalised(a.hostnames) == Normalised(b.hostnames))
  }

  /** Runs do not depend on how hostnames are written. */
  lemma {:induction false} RunIgnoresSpelling(cfg: Config, s: State<Table>, a: seq<Event>, b: seq<Event>)
    requires WellFormed(s.table)
    requires |a| == |b| && forall i :: 0 <= i < |a| ==> SameEvent(a[i], b[i])
    ensures TableRun(cfg, s, a) == TableRun(cfg, s, b)
  {
    if a != [] {
      var n := |a| - 1;
      RunIgnoresSpelling(cfg, s, a[..n], b[..n]);
      RunRefines(cfg, s, a[..n]);
      var m := TableRun(cfg, s, a[..n]);
      assert SameEvent(a[n], b[n]);
      if a[n] != b[n] {
        BatchDependsOnNames(m.table, a[n].hostnames, b[n].hostnames, a[n].ip, m.now);
      }
    }
  }

  /** Adding a missing final dot to any hostnames gives the same event. */
  lemma RespelledEvent(a: seq<string>, b: seq<string>, ip: string)
    requires |a| == |b| && forall i :: 0 <= i < |a| ==> SameHost(a[i], b[i])
    ensures SameEvent(Add(a, ip), Add(b, ip)) && SameEvent(Remove(a, ip), Remove(b, ip))
  {
    forall i | 0 <= i < |a| ensures Fqdn(a[i]) == Fqdn(b[i]) {
      FqdnIdentifies(a[i], b[i]);
    }
    forall h | h in Normalised(a) ensures h in Normalised(b) {
      var i :| 0 <= i < |a| && Fqdn(a[i]) == h;
      assert b[i] in b;
    }
    forall h | h in Normalised(b) ensures h in Normalised(a) {
      var i :| 0 <= i < |b| && Fqdn(b[i]) == h;
      assert a[i] in a;
    }
  }
}
