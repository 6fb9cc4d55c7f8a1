/** Runs of the whole controller, from its boot, that lose an endpoint or leave a warm table incomplete. */
module Losses {
  import opened Availability
  import opened Completeness
  import opened Controller
  import opened Entries
  import opened Names
  import opened Outages
  import opened Steady
  import opened Tables
  import opened WorstCases
  import Machine = TableMachine

  /** `RunOnce` is called and the first `n` calls of the startup succeed. */
  function Started(n: nat): seq<Event> {
    if n == 0 then [RunOnce] else Started(n - 1) + [Returns(true)]
  }

  /** The startup has come through its first `n` calls, all at the time `now`. */
  ghost predicate ThroughCalls(c: Control, now: int, n: nat)
    requires n <= |STAGES|
  {
    && c.now == now && !c.closed && !c.down && c.timer.None? && !c.warm
    && c.startup == (if n < |STAGES| then Attempting(n) else Succeeded)
    && (forall i :: 0 <= i < n ==> STAGES[i] in c.live && c.live[STAGES[i]] == now)
  }

  lemma ThroughNoCall(w: int, now: int)
    ensures ThroughCalls(Next(w, Boot(now), RunOnce), now, 0) && Emit(Boot(now), RunOnce) == []
  {
  }

  lemma ThroughNextCall(w: int, c: Control, now: int, n: nat)
    requires n < |STAGES| && ThroughCalls(c, now, n)
    ensures ThroughCalls(Next(w, c, Returns(true)), now, n + 1) && Emit(c, Returns(true)) == []
  {
  }

  lemma {:induction false} StartedIs(w: int, now: int, n: nat)
    requires n <= |STAGES|
    ensures ThroughCalls(After(w, Boot(now), Started(n)), now, n)
    ensures Emitted(w, Boot(now), Started(n)) == []
  {
    hide Next, Emit, Boot, ThroughCalls;
    if n == 0 {
      ThroughNoCall(w, now);
      AfterOne(w, Boot(now), [], RunOnce);
      assert [] + [RunOnce] == Started(0);
    } else {
      StartedIs(w, now, n - 1);
      AfterOne(w, Boot(now), Started(n - 1), Returns(true));
      ThroughNextCall(w, After(w, Boot(now), Started(n - 1)), now, n - 1);
    }
  }

  /** The controller once its startup has succeeded: every message is delivered, and the table is empty. */
  lemma Ready(cfg: Machine.Config, w: int, now: int)
    ensures var c := After(w, Boot(now), Started(6));
            && c.now == now && !c.down && c.startup.Succeeded? && c.timer.None? && !c.warm
            && Delivers(c, SubscribeRegister) && c.live[SubscribeRegister] == now
            && Registered(cfg, w, now, Started(6)) == Machine.Start(map[], now)
  {
    StartedIs(w, now, 6);
    assert STAGES[4] == SubscribeRegister;
  }

  lemma EmittedOne(w: int, c: Control, e: Event)
    ensures After(w, c, [e]) == Next(w, c, e) && Emitted(w, c, [e]) == Emit(c, e)
  {
    hide Next, Emit;
    AfterOne(w, c, [], e);
    assert [] + [e] == [e];
  }

  lemma EmittedCons(w: int, c: Control, e: Event, es: seq<Event>)
    ensures After(w, c, [e] + es) == After(w, Next(w, c, e), es)
    ensures Emitted(w, c, [e] + es) == Emit(c, e) + Emitted(w, Next(w, c, e), es)
  {
    hide Next, Emit;
    EmittedOne(w, c, e);
    AfterAppend(w, c, [e], es);
  }

  /** Events of the connection, the clock and the pruner, each one step of the table whatever the controller. */
  predicate Plain(e: Event) {
    e.Disconnected? || e.Reconnected? || e.Elapse? || e.Gate? || e.Scan? || e.Write?
  }

  function AsStep(e: Event): Machine.Event
    requires Plain(e)
  {
    match e
    case Disconnected => Machine.Pause
    case Reconnected => Machine.Resume
    case Elapse(d) => Machine.Advance(d)
    case Gate => Machine.GateCheck
    case Scan => Machine.ScanTable
    case Write => Machine.WriteTable
  }

  lemma {:induction false} PlainEmits(w: int, c: Control, es: seq<Event>)
    requires forall i :: 0 <= i < |es| ==> Plain(es[i])
    ensures Emitted(w, c, es) == seq(|es|, i requires 0 <= i < |es| => AsStep(es[i]))
  {
    hide Next;
    if es != [] {
      var n := |es| - 1;
      PlainEmits(w, c, es[..n]);
      assert Emit(After(w, c, es[..n]), es[n]) == [AsStep(es[n])];
    }
  }

  // ---------------------------------------------------------------- an interrupted pass

  function Listing(name: string, ip: string): seq<Event> {
    [Register(Decoded(ip, [name])), Gate]
  }

  function Interruption(cfg: Machine.Config): seq<Event>
    requires cfg.staleness >= 0
  {
    [Disconnected, Elapse(cfg.staleness + 1), Scan, Write]
  }

  lemma ListingEmits(w: int, c: Control, name: string, ip: string)
    requires ip != "" && Delivers(c, SubscribeRegister)
    ensures After(w, c, Listing(name, ip)) == c
    ensures Emitted(w, c, Listing(name, ip)) == [Machine.Add([name], ip), Machine.GateCheck]
  {
    var r := Register(Decoded(ip, [name]));
    EmittedCons(w, c, r, [Gate]);
    EmittedOne(w, c, Gate);
    assert [r] + [Gate] == Listing(name, ip);
  }

  lemma InterruptionEmits(w: int, c: Control, cfg: Machine.Config)
    requires cfg.staleness >= 0
    ensures Emitted(w, c, Interruption(cfg)) == [Machine.Pause] + LongOutage(cfg)
  {
    PlainEmits(w, c, Interruption(cfg));
    hide Emitted;
  }

  lemma ListedAndInFlight(cfg: Machine.Config, now: int, name: string, ip: string)
    requires cfg.staleness >= 0
    ensures var s := Machine.Run(cfg, Machine.Start(map[], now), [Machine.Add([name], ip), Machine.GateCheck]);
            Live(cfg, s, (Fqdn(name), ip)) && InFlight(s.pruner, Fqdn(name))
  {
    var s0: Machine.State<Registry> := Machine.Start(map[], now);
    var a := Machine.Add([name], ip);
    Machine.RunCons(cfg, s0, a, [Machine.GateCheck]);
    Machine.RunCons(cfg, Machine.Step(cfg, s0, a), Machine.GateCheck, []);
    assert [a] + [Machine.GateCheck] == [a, Machine.GateCheck];
    assert [Machine.GateCheck] + [] == [Machine.GateCheck];
    assert (Fqdn(name), ip) in Pairs(Normalised([name]), ip);
  }

  /**
   From boot: a registration, a pass past its gate, a disconnection. The endpoint is live and meets its
   duty all through, yet it is gone once the outage has outlasted the threshold and the pass has ended.
   */
  lemma InterruptedPassIsReached(cfg: Machine.Config, w: int, now: int, name: string, ip: string)
    requires cfg.staleness >= 0 && ip != ""
    ensures var k, listed := (Fqdn(name), ip), Started(6) + Listing(name, ip);
            var s := Registered(cfg, w, now, listed);
            && Live(cfg, s, k) && InFlight(s.pruner, k.0)
            && Dutiful(cfg, s, Emitted(w, After(w, Boot(now), listed), Interruption(cfg)), k)
            && k !in Registered(cfg, w, now, listed + Interruption(cfg)).table
  {
    var k, listed := (Fqdn(name), ip), Started(6) + Listing(name, ip);
    var c0 := After(w, Boot(now), Started(6));
    Ready(cfg, w, now);
    RunInTwo(cfg, w, now, Started(6), Listing(name, ip));
    RunInTwo(cfg, w, now, listed, Interruption(cfg));
    ListingEmits(w, c0, name, ip);
    InterruptionEmits(w, After(w, Boot(now), listed), cfg);
    ListedAndInFlight(cfg, now, name, ip);
    hide Live, Dutiful, After, Emitted, Machine.Run;
    var s := Registered(cfg, w, now, listed);
    assert k in s.table by {
      assert Live(cfg, s, k);
      LiveIsListed(cfg, s, k);
    }
    LongOutageIsDutiful(cfg, s, k);
    InterruptedPassDeletes(cfg, s, k);
  }

  lemma LiveIsListed(cfg: Machine.Config, s: Machine.State<Registry>, k: Pair)
    requires Live(cfg, s, k)
    ensures k in s.table
  {
  }

  // ---------------------------------------------------------------- a late registration

  function Absence(outage: nat, wait: nat): seq<Event> {
    [Disconnected, Elapse(outage), Reconnected, Elapse(wait), Gate, Scan, Write]
  }

  lemma AbsenceEmits(w: int, c: Control, outage: nat, wait: nat)
    ensures Emitted(w, c, Absence(outage, wait))
         == [Machine.Pause, Machine.Advance(outage), Machine.Resume, Machine.Advance(wait)]
            + [Machine.GateCheck, Machine.ScanTable, Machine.WriteTable]
  {
    PlainEmits(w, c, Absence(outage, wait));
    hide Emitted;
  }

  lemma RegisterEmits(w: int, c: Control, name: string, ip: string)
    requires ip != "" && Delivers(c, SubscribeRegister)
    ensures After(w, c, [Register(Decoded(ip, [name]))]) == c
    ensures Emitted(w, c, [Register(Decoded(ip, [name]))]) == [Machine.Add([name], ip)]
  {
    EmittedOne(w, c, Register(Decoded(ip, [name])));
  }

  lemma AddOnEmpty(cfg: Machine.Config, now: int, name: string, ip: string)
    ensures var s := Machine.Run(cfg, Machine.Start(map[], now), [Machine.Add([name], ip)]);
            (Fqdn(name), ip) in s.table && s.table[(Fqdn(name), ip)] == now && s.now == now && s.pruner.Idle?
  {
    var s0: Machine.State<Registry> := Machine.Start(map[], now);
    Machine.RunCons(cfg, s0, Machine.Add([name], ip), []);
    assert [Machine.Add([name], ip)] + [] == [Machine.Add([name], ip)];
    assert (Fqdn(name), ip) in Pairs(Normalised([name]), ip);
  }

  /**
   From boot: a registration, an outage, a wait after the reconnection, and a pass. The endpoint is lost if
   and only if the wait is the whole resume delay or more and outage and wait together exceed the threshold.
   */
  lemma AbsenceIsReached(cfg: Machine.Config, w: int, now: int, name: string, ip: string, outage: nat, wait: nat)
    requires ip != ""
    ensures var listed := Started(6) + [Register(Decoded(ip, [name]))];
            && (Fqdn(name), ip) in Registered(cfg, w, now, listed).table
            && ((Fqdn(name), ip) !in Registered(cfg, w, now, listed + Absence(outage, wait)).table
                <==> wait >= cfg.resumeDelay && outage + wait > cfg.staleness)
  {
    var listed := Started(6) + [Register(Decoded(ip, [name]))];
    Ready(cfg, w, now);
    RunInTwo(cfg, w, now, Started(6), [Register(Decoded(ip, [name]))]);
    RunInTwo(cfg, w, now, listed, Absence(outage, wait));
    RegisterEmits(w, After(w, Boot(now), Started(6)), name, ip);
    AbsenceEmits(w, After(w, Boot(now), listed), outage, wait);
    AddOnEmpty(cfg, now, name, ip);
    hide After, Emitted, Machine.Run;
    OutageLosesIff(cfg, Registered(cfg, w, now, listed), outage, wait, (Fqdn(name), ip));
  }

  // ---------------------------------------------------------------- an outage while warming up

  function DarkWarmUp(w: nat): seq<Event> {
    [TimerStarts, Disconnected] + [Elapse(w), TimerFires]
  }

  lemma DarkWarmUpEmits(w: nat, c: Control)
    requires c.startup.Succeeded? && c.timer.None?
    ensures After(w, c, DarkWarmUp(w)).warm
    ensures Emitted(w, c, DarkWarmUp(w)) == [Machine.Pause, Machine.Advance(w)]
  {
    hide After, Emitted;
    var c1 := Next(w, c, TimerStarts);
    var c2 := Next(w, c1, Disconnected);
    var c3 := Next(w, c2, Elapse(w));
    EmittedCons(w, c, TimerStarts, [Disconnected] + [Elapse(w), TimerFires]);
    EmittedCons(w, c1, Disconnected, [Elapse(w), TimerFires]);
    EmittedCons(w, c2, Elapse(w), [TimerFires]);
    EmittedOne(w, c3, TimerFires);
    assert [Elapse(w)] + [TimerFires] == [Elapse(w), TimerFires];
    assert [TimerStarts] + ([Disconnected] + [Elapse(w), TimerFires]) == DarkWarmUp(w);
  }

  /** From boot: an outage that lasts through the warm-up leaves a table that is warm and empty. */
  lemma WarmButEmpty(cfg: Machine.Config, w: nat, now: int)
    ensures After(w, Boot(now), Started(6) + DarkWarmUp(w)).warm
    ensures Registered(cfg, w, now, Started(6) + DarkWarmUp(w)).table == map[]
  {
    var c := After(w, Boot(now), Started(6));
    var s: Machine.State<Registry> := Machine.Start(map[], now);
    Ready(cfg, w, now);
    hide After, Emitted;
    AfterAppend(w, Boot(now), Started(6), DarkWarmUp(w));
    DarkWarmUpEmits(w, c);
    RunInTwo(cfg, w, now, Started(6), DarkWarmUp(w));
    Machine.RunStep(cfg, s, [], Machine.Pause);
    Machine.RunStep(cfg, s, [Machine.Pause], Machine.Advance(w));
    assert [] + [Machine.Pause] == [Machine.Pause];
    assert [Machine.Pause] + [Machine.Advance(w)] == [Machine.Pause, Machine.Advance(w)];
  }

  // ---------------------------------------------------------------- one outage

  function Ticks(n: nat): seq<Event> {
    if n == 0 then [] else Ticks(n - 1) + [Elapse(1)]
  }

  /** The connection is up for a time `u`, down for a time `o`, up for a time `v`, and a pass is ready to write. */
  function OneOutage(u: nat, o: nat, v: nat): seq<Event> {
    Ticks(u) + [Disconnected] + Ticks(o) + [Reconnected] + Ticks(v) + [Gate, Scan]
  }

  /** The events of such a schedule: clock ticks, and no message or write. */
  predicate Quiet(e: Event) {
    !IsMessage(e) && !e.Write? && (e.Elapse? ==> e.d <= 1)
  }

  ghost predicate AllQuiet(es: seq<Event>) {
    forall i :: 0 <= i < |es| ==> Quiet(es[i])
  }

  function Later(c: Control, i: int): Control {
    c.(now := c.now + i)
  }

  /** The moments while `n` units of time go by. */
  function Span(c: Control, n: nat): set<Control> {
    if n == 0 then {c} else Span(c, n - 1) + {Later(c, n)}
  }

  lemma {:induction false} SpanHas(c: Control, n: nat)
    ensures forall d :: d in Span(c, n) ==> d == c.(now := d.now) && c.now <= d.now <= c.now + n
    ensures forall x :: c.now <= x <= c.now + n ==> c.(now := x) in Span(c, n)
  {
    if n > 0 {
      SpanHas(c, n - 1);
    } else {
      assert c.(now := c.now) == c;
    }
  }

  lemma {:induction false} TicksAre(cfg: Machine.Config, w: int, c: Control, v: Watch, n: nat)
    ensures After(w, c, Ticks(n)) == Later(c, n)
    ensures Moments(w, c, Ticks(n)) == Span(c, n)
    ensures Watched(cfg, w, c, v, Ticks(n)) == v
  {
    hide After, Moments, Watched;
    if n == 0 {
      NoMoments(cfg, w, c, v);
      assert Later(c, 0) == c;
    } else {
      var init := Ticks(n - 1);
      TicksAre(cfg, w, c, v, n - 1);
      OneMore(cfg, w, c, v, init, Elapse(1));
    }
  }

  /** A run and another after it. */
  lemma {:induction false} TwoRuns(cfg: Machine.Config, w: int, c: Control, v: Watch, a: seq<Event>, b: seq<Event>)
    ensures var d, u := After(w, c, a), Watched(cfg, w, c, v, a);
            && After(w, c, a + b) == After(w, d, b)
            && Moments(w, c, a + b) == Moments(w, c, a) + Moments(w, d, b)
            && Watched(cfg, w, c, v, a + b) == Watched(cfg, w, d, u, b)
  {
    hide After, Moments, Watched;
    var d, u := After(w, c, a), Watched(cfg, w, c, v, a);
    if b == [] {
      assert a + b == a;
      NoMoments(cfg, w, d, u);
      MomentsOne(w, c, a);
    } else {
      var init, e := b[..|b| - 1], b[|b| - 1];
      TwoRuns(cfg, w, c, v, a, init);
      OneMore(cfg, w, c, v, a + init, e);
      OneMore(cfg, w, d, u, init, e);
      assert a + init + [e] == a + b && init + [e] == b;
    }
  }

  /** A run, one event, and ticks. */
  lemma ThenTicks(cfg: Machine.Config, w: int, c: Control, v: Watch, es: seq<Event>, e: Event, n: nat)
    ensures var d, u := Next(w, After(w, c, es), e), NextWatch(cfg, After(w, c, es), Watched(cfg, w, c, v, es), e);
            && After(w, c, es + [e] + Ticks(n)) == Later(d, n)
            && Moments(w, c, es + [e] + Ticks(n)) == Moments(w, c, es) + Span(d, n)
            && Watched(cfg, w, c, v, es + [e] + Ticks(n)) == u
  {
    hide After, Moments, Watched, Next, NextWatch;
    var d, u := Next(w, After(w, c, es), e), NextWatch(cfg, After(w, c, es), Watched(cfg, w, c, v, es), e);
    OneMore(cfg, w, c, v, es, e);
    TwoRuns(cfg, w, c, v, es + [e], Ticks(n));
    TicksAre(cfg, w, d, u, n);
    SpanHas(d, n);
    assert d in Span(d, n) by { assert d.(now := d.now) == d; }
  }

  lemma UpToGate(cfg: Machine.Config, w: int, c: Control, y: Watch, u: nat, o: nat, v: nat)
    requires !c.down
    ensures var es, down := Ticks(u) + [Disconnected] + Ticks(o) + [Reconnected] + Ticks(v), Later(c, u).(down := true);
            && After(w, c, es) == Later(c, u + o + v)
            && Moments(w, c, es) == Span(c, u) + Span(down, o) + Span(Later(c, u + o), v)
            && Watched(cfg, w, c, y, es) == y.(lastResume := Some(c.now + u + o))
  {
    hide After, Moments, Watched;
    TicksAre(cfg, w, c, y, u);
    ThenTicks(cfg, w, c, y, Ticks(u), Disconnected, o);
    ThenTicks(cfg, w, c, y, Ticks(u) + [Disconnected] + Ticks(o), Reconnected, v);
    assert Later(c, u).(down := true, now := c.now + u + o).(down := false) == Later(c, u + o);
  }

  lemma UpToWrite(cfg: Machine.Config, w: int, c: Control, y: Watch, u: nat, o: nat, v: nat)
    requires !c.down && y.phase.Waiting?
    ensures var es, down := OneOutage(u, o, v), Later(c, u).(down := true);
            && After(w, c, es) == Later(c, u + o + v)
            && Moments(w, c, es) == Span(c, u) + Span(down, o) + Span(Later(c, u + o), v)
            && Watched(cfg, w, c, y, es) == y.(
                 lastResume := Some(c.now + u + o),
                 phase := if v >= cfg.resumeDelay then Holding else Waiting,
                 current := if v >= cfg.resumeDelay then c.now + u + o + v else y.current)
  {
    hide After, Moments, Watched;
    var es := Ticks(u) + [Disconnected] + Ticks(o) + [Reconnected] + Ticks(v);
    UpToGate(cfg, w, c, y, u, o, v);
    OneMore(cfg, w, c, y, es, Gate);
    OneMore(cfg, w, c, y, es + [Gate], Scan);
    assert es + [Gate] + [Scan] == OneOutage(u, o, v);
    SpanHas(Later(c, u + o), v);
    assert Later(c, u + o + v) == Later(c, u + o).(now := c.now + u + o + v);
  }

  lemma QuietAppend(a: seq<Event>, b: seq<Event>)
    requires AllQuiet(a) && AllQuiet(b)
    ensures AllQuiet(a + b)
  {
    hide Quiet;
  }

  lemma {:induction false} TicksAreQuiet(n: nat)
    ensures AllQuiet(Ticks(n))
  {
    if n > 0 {
      TicksAreQuiet(n - 1);
    }
  }

  lemma OutageIsQuiet(u: nat, o: nat, v: nat)
    ensures AllQuiet(OneOutage(u, o, v))
  {
    TicksAreQuiet(u);
    TicksAreQuiet(o);
    TicksAreQuiet(v);
    assert AllQuiet([Disconnected]) && AllQuiet([Reconnected]) && AllQuiet([Gate, Scan]);
    hide Ticks, AllQuiet;
    QuietAppend(Ticks(u), [Disconnected]);
    QuietAppend(Ticks(u) + [Disconnected], Ticks(o));
    QuietAppend(Ticks(u) + [Disconnected] + Ticks(o), [Reconnected]);
    QuietAppend(Ticks(u) + [Disconnected] + Ticks(o) + [Reconnected], Ticks(v));
    QuietAppend(Ticks(u) + [Disconnected] + Ticks(o) + [Reconnected] + Ticks(v), [Gate, Scan]);
  }

  lemma {:induction false} QuietHasNoThreat(cfg: Machine.Config, w: int, c: Control, y: Watch, es: seq<Event>)
    requires AllQuiet(es)
    ensures Threats(cfg, w, c, y, es) == {} && Prompt(cfg, w, c, y, es)
  {
    hide After, Watched, Overlooked;
    if es != [] {
      assert AllQuiet(es[..|es| - 1]);
      QuietHasNoThreat(cfg, w, c, y, es[..|es| - 1]);
    }
  }

  function Max(a: int, b: int): int {
    if a > b then a else b
  }

  /** The moments of one outage. */
  ghost predicate OutageMoments(ms: set<Control>, c: Control, u: nat, o: nat, v: nat) {
    ms == Span(c, u) + Span(Later(c, u).(down := true), o) + Span(Later(c, u + o), v)
  }

  lemma OutageWindows(ms: set<Control>, c: Control, u: nat, o: nat, v: nat, start: int, p: int)
    requires !c.down && OutageMoments(ms, c, u, o, v) && p > 0
    ensures UpWindow(ms, start, c.now + u + o + v, p)
       <==> start + p <= c.now + u || Max(start, c.now + u + o + 1) + p <= c.now + u + o + v
  {
    var low, high, end := c.now + u, c.now + u + o, c.now + u + o + v;
    var down := Later(c, u).(down := true);
    SpanHas(c, u);
    SpanHas(down, o);
    SpanHas(Later(c, u + o), v);
    hide Span;
    assert forall d :: d in ms && d.down ==> low <= d.now <= high;
    if start + p <= low {
      assert Up(ms, start, p);
    }
    var a := Max(start, high + 1);
    if a + p <= end {
      assert Up(ms, a, p);
    }
    forall b | start <= b && b + p <= end && b + p > low && b <= high ensures !Up(ms, b, p) {
      var d := down.(now := Max(b, low));
      assert d in ms && d.down && b <= d.now < b + p;
    }
  }

  lemma PromptOne(cfg: Machine.Config, w: int, c: Control, y: Watch, es: seq<Event>, e: Event)
    ensures var z, at := Watched(cfg, w, c, y, es), After(w, c, es).now;
            Prompt(cfg, w, c, y, es + [e])
            <==> Prompt(cfg, w, c, y, es) && (Writes(z, e) ==> at - z.current <= cfg.staleness)
  {
    hide After, Watched, Writes;
    assert (es + [e])[..|es|] == es;
  }

  lemma OutageOverlooks(cfg: Machine.Config, ms: set<Control>, c: Control, z: Watch, u: nat, o: nat, v: nat)
    requires !c.down && OutageMoments(ms, c, u, o, v) && cfg.staleness >= 0
    requires z.completed == c.now && z.current == c.now + u + o + v
    ensures Overlooked(cfg, ms, z) <==> u + o + v > cfg.staleness
  {
    SpanHas(c, u);
    SpanHas(Later(c, u).(down := true), o);
    SpanHas(Later(c, u + o), v);
    hide Span;
    assert c.(now := c.now) == c;
    if u + o + v > cfg.staleness {
      assert c in ms && z.completed - cfg.staleness <= c.now < z.current - cfg.staleness;
    }
  }

  lemma OutageThreats(cfg: Machine.Config, w: int, c: Control, y: Watch, u: nat, o: nat, v: nat)
    requires !c.down && y.phase.Waiting? && y.completed == c.now && cfg.staleness >= 0
    ensures Threats(cfg, w, c, y, OneOutage(u, o, v) + [Write])
         == if v >= cfg.resumeDelay && u + o + v > cfg.staleness then {c.now + u + o + v} else {}
    ensures Prompt(cfg, w, c, y, OneOutage(u, o, v) + [Write])
  {
    hide After, Moments, Watched, OneOutage, Span, Overlooked, Threats, Prompt;
    var pre := OneOutage(u, o, v);
    UpToWrite(cfg, w, c, y, u, o, v);
    OutageIsQuiet(u, o, v);
    QuietHasNoThreat(cfg, w, c, y, pre);
    ThreatsOne(cfg, w, c, y, pre, Write);
    PromptOne(cfg, w, c, y, pre, Write);
    if v >= cfg.resumeDelay {
      OutageOverlooks(cfg, Moments(w, c, pre), c, Watched(cfg, w, c, y, pre), u, o, v);
    }
  }

  /** Whether one outage is safe, for all lengths. */
  predicate OutageSafe(cfg: Machine.Config, u: nat, o: nat, v: nat, p: nat) {
    && (p <= u || p < v)
    && (|| v < cfg.resumeDelay
        || u + o + v <= cfg.staleness
        || o + v + p <= cfg.staleness
        || (p < v && p <= cfg.staleness))
  }

  lemma OutageSafeIff(cfg: Machine.Config, w: int, c: Control, y: Watch, u: nat, o: nat, v: nat, p: nat)
    requires !c.down && y.phase.Waiting? && y.completed == c.now && cfg.staleness >= 0 && p > 0
    ensures Safe(cfg, w, c, y, OneOutage(u, o, v) + [Write], p) <==> OutageSafe(cfg, u, o, v, p)
    ensures After(w, c, OneOutage(u, o, v) + [Write]) == Later(c, u + o + v)
  {
    var pre, at := OneOutage(u, o, v), c.now + u + o + v;
    UpToWrite(cfg, w, c, y, u, o, v);
    OneMore(cfg, w, c, y, pre, Write);
    OutageThreats(cfg, w, c, y, u, o, v);
    MomentsOne(w, c, pre);
    hide After, Moments, Watched, OneOutage, Span, UpWindow, Threats;
    var ms := Moments(w, c, pre + [Write]);
    assert ms == Moments(w, c, pre);
    OutageWindows(ms, c, u, o, v, c.now, p);
    OutageWindows(ms, c, u, o, v, at - cfg.staleness, p);
  }

  /** From boot until the register subscription is made. */
  lemma SubscribedAtBoot(cfg: Machine.Config, w: int, now: int)
    ensures JustSubscribed(w, now, Started(5))
    ensures After(w, Boot(now), Started(5)).now == now
    ensures FirstWatch(Registered(cfg, w, now, Started(5))) == Watch(None, Waiting, now, now)
  {
    StartedIs(w, now, 4);
    StartedIs(w, now, 5);
    AfterOne(w, Boot(now), Started(4), Returns(true));
    NotYetSubscribed(w, now);
    hide After, Emitted;
    assert STAGES[4] == SubscribeRegister;
    assert Started(5)[..|Started(5)| - 1] == Started(4);
  }

  lemma NotYetSubscribed(w: int, now: int)
    ensures SubscribeRegister !in After(w, Boot(now), Started(4)).live
  {
    var c := After(w, Boot(now), Started(4));
    StartedIs(w, now, 4);
    var outcomes := StartupIsOneShot(w, now, Started(4));
    hide After;
    assert |outcomes| == 4;
    assert STAGES[4] == SubscribeRegister;
  }

  /**
   From boot, for every window, resume delay, threshold and length of the three times: the answers after one
   outage and a pass list every steady sender if and only if the connection was up through a window, and the
   delay was not over, or nothing was stale yet, or a window of the time before the outage or after it was
   within the threshold of the pass.
   */
  lemma {:induction false} OneOutageIff(
      cfg: Machine.Config, w: int, now: int, u: nat, o: nat, v: nat, p: nat, name: string, ip: string)
    requires cfg.staleness >= 0 && p > 0 && ip != ""
    ensures (forall sent :: AnsweredAfter(cfg, w, now, Started(5), OneOutage(u, o, v) + [Write], sent, name, ip, p))
       <==> OutageSafe(cfg, u, o, v, p)
  {
    var c, y := After(w, Boot(now), Started(5)), FirstWatch(Registered(cfg, w, now, Started(5)));
    var es := OneOutage(u, o, v) + [Write];
    SubscribedAtBoot(cfg, w, now);
    OutageIsQuiet(u, o, v);
    hide OneOutage, Safe, Prompt, After, AnsweredAfter, Emitted, Machine.Run, Threats, FirstWatch;
    OutageSafeIff(cfg, w, c, y, u, o, v, p);
    OutageThreats(cfg, w, c, y, u, o, v);
    assert Silent(es) && UnitSteps(es);
    AnswersCompleteIff(cfg, w, now, Started(5), es, name, ip, p);
  }

  /**
   With the default settings, all times in seconds: after at least one interval up, an outage of `o` seconds and
   a pass when the resume delay is over, every endpoint that sends once an interval is listed if and only if
   the outage was no longer than one interval.
   */
  lemma {:induction false} DefaultsAllowOneInterval(w: int, now: int, u: nat, o: nat, name: string, ip: string)
    requires u >= 60 && ip != ""
    ensures var cfg, es := Machine.Config(180, 60), OneOutage(u, o, 60) + [Write];
            (forall sent :: AnsweredAfter(cfg, w, now, Started(5), es, sent, name, ip, 60)) <==> o <= 60
  {
    OneOutageIff(Machine.Config(180, 60), w, now, u, o, 60, 60, name, ip);
    hide AnsweredAfter, OneOutage, Started;
  }
}
