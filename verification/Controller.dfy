/**
 The subscriber as a state machine over every interleaving: its one-shot startup with a
 fallible call at each stage, the bus messages and connection callbacks it turns into
 operations on the address table, and the timer that declares the table warm.
 */
module Controller {
  import opened Entries
  import opened Names
  import opened Tables
  import Machine = TableMachine

  /** The fallible calls of a startup, in order. */
  datatype Stage = Connect | PublishStart | SubscribeGreet | FlushGreet | SubscribeRegister | SubscribeUnregister

  const STAGES: seq<Stage> :=
    [Connect, PublishStart, SubscribeGreet, FlushGreet, SubscribeRegister, SubscribeUnregister]

  datatype Effect = Call(stage: Stage, ok: bool) | CloseConnection

  /** Where `RunOnce` stands; in `Attempting(n)` the call `STAGES[n]` is pending. */
  datatype Startup = NotRun | Attempting(n: nat) | Succeeded | Failed

  /** `live` gives, for each call that succeeded, its moment; `down` says the connection is lost for now. */
  datatype Control = Control(
    now: int,
    startup: Startup,
    log: seq<Effect>,
    live: map<Stage, int>,
    closed: bool,
    down: bool,
    timer: Option<int>,
    warm: bool)

  /** A message as the handlers decode it. */
  datatype Payload = Undecodable | Decoded(ip: string, infraNames: seq<string>)

  datatype Event =
    | RunOnce
    | Returns(ok: bool)
    | TimerStarts
    | TimerFires
    | Register(payload: Payload)
    | Unregister(payload: Payload)
    | Disconnected
    | Reconnected
    | Close
    | Elapse(d: nat)
    | Gate
    | Scan
    | Write

  function Boot(now: int): Control {
    Control(now, NotRun, [], map[], false, false, None, false)
  }

  /** The pending call returns: the next stage follows a success; a failure after connecting closes the connection. */
  function AfterCall(c: Control, ok: bool): Control
    requires c.startup.Attempting? && c.startup.n < |STAGES|
  {
    var n := c.startup.n;
    var stage := STAGES[n];
    var log := c.log + [Call(stage, ok)];
    if !ok then
      c.(startup := Failed,
         log := if n == 0 then log else log + [CloseConnection],
         closed := c.closed || n > 0)
    else
      c.(startup := if n + 1 < |STAGES| then Attempting(n + 1) else Succeeded,
         log := log,
         live := c.live[stage := c.now])
  }

  function Next(warmingDuration: int, c: Control, e: Event): Control {
    match e
    case RunOnce => if c.startup.NotRun? then c.(startup := Attempting(0)) else c
    case Returns(ok) => if c.startup.Attempting? && c.startup.n < |STAGES| then AfterCall(c, ok) else c
    case TimerStarts => if c.startup.Succeeded? && c.timer.None? then c.(timer := Some(c.now)) else c
    case TimerFires => if c.timer.Some? && c.now - c.timer.value >= warmingDuration then c.(warm := true) else c
    case Disconnected => c.(down := true)
    case Reconnected => c.(down := false)
    case Close => c.(closed := c.closed || Connect in c.live)
    case Elapse(d) => c.(now := c.now + d)
    case _ => c
  }

  /** The bus delivers on a subscription while the connection is up. */
  predicate Delivers(c: Control, stage: Stage) {
    stage in c.live && !c.closed && !c.down
  }

  /** What an event makes the address table do. */
  function Emit(c: Control, e: Event): seq<Machine.Event> {
    match e
    case Register(Decoded(ip, names)) =>
      if Delivers(c, SubscribeRegister) && ip != "" && |names| > 0 then [Machine.Add(names, ip)] else []
    case Unregister(Decoded(ip, names)) =>
      if Delivers(c, SubscribeUnregister) && |names| > 0 then [Machine.Remove(names, ip)] else []
    case Disconnected => [Machine.Pause]
    case Reconnected => [Machine.Resume]
    case Elapse(d) => [Machine.Advance(d)]
    case Gate => [Machine.GateCheck]
    case Scan => [Machine.ScanTable]
    case Write => [Machine.WriteTable]
    case _ => []
  }

  function After(warmingDuration: int, c: Control, es: seq<Event>): Control {
    if es == [] then c else Next(warmingDuration, After(warmingDuration, c, es[..|es| - 1]), es[|es| - 1])
  }

  function Emitted(warmingDuration: int, c: Control, es: seq<Event>): seq<Machine.Event> {
    if es == [] then [] else
      var init := es[..|es| - 1];
      Emitted(warmingDuration, c, init) + Emit(After(warmingDuration, c, init), es[|es| - 1])
  }

  lemma {:induction false} AfterAppend(warmingDuration: int, c: Control, a: seq<Event>, b: seq<Event>)
    ensures After(warmingDuration, c, a + b) == After(warmingDuration, After(warmingDuration, c, a), b)
    ensures Emitted(warmingDuration, c, a + b)
         == Emitted(warmingDuration, c, a) + Emitted(warmingDuration, After(warmingDuration, c, a), b)
  {
    hide Next, Emit;
    if b == [] {
      assert a + b == a;
    } else {
      var init, e := b[..|b| - 1], b[|b| - 1];
      AfterAppend(warmingDuration, c, a, init);
      assert (a + b)[..|a + b| - 1] == a + init;
    }
  }

  /** The registry, and the ordered table it abstracts, after a run of the whole controller. */
  function Registered(cfg: Machine.Config, warmingDuration: int, now: int, es: seq<Event>): Machine.State<Registry> {
    Machine.Run(cfg, Machine.Start(map[], now), Emitted(warmingDuration, Boot(now), es))
  }

  ghost function Addresses(cfg: Machine.Config, warmingDuration: int, now: int, es: seq<Event>): Machine.State<Table> {
    Machine.TableRun(cfg, Machine.Start(map[], now), Emitted(warmingDuration, Boot(now), es))
  }

  lemma AddressesRefine(cfg: Machine.Config, warmingDuration: int, now: int, es: seq<Event>)
    ensures WellFormed(Addresses(cfg, warmingDuration, now, es).table)
    ensures Machine.AbsState(Addresses(cfg, warmingDuration, now, es)) == Registered(cfg, warmingDuration, now, es)
  {
    var s: Machine.State<Table> := Machine.Start(map[], now);
    assert Abs(s.table) == map[];
    Machine.RunRefines(cfg, s, Emitted(warmingDuration, Boot(now), es));
  }

  lemma AfterOne(warmingDuration: int, c: Control, es: seq<Event>, e: Event)
    ensures After(warmingDuration, c, es + [e]) == Next(warmingDuration, After(warmingDuration, c, es), e)
    ensures Emitted(warmingDuration, c, es + [e])
         == Emitted(warmingDuration, c, es) + Emit(After(warmingDuration, c, es), e)
  {
    hide Next, Emit;
    assert (es + [e])[..|es|] == es;
  }

  /** One event of the controller is at most one step of the table. */
  lemma EmitStep(
      cfg: Machine.Config, warmingDuration: int, c: Control, s: Machine.State<Registry>, es: seq<Event>, e: Event)
    ensures var m := Emit(After(warmingDuration, c, es), e);
            var t := Machine.Run(cfg, s, Emitted(warmingDuration, c, es));
            && |m| <= 1
            && Machine.Run(cfg, s, Emitted(warmingDuration, c, es + [e]))
               == if m == [] then t else Machine.Step(cfg, t, m[0])
  {
    hide Next, Machine.Step;
    AfterOne(warmingDuration, c, es, e);
    var sent, m := Emitted(warmingDuration, c, es), Emit(After(warmingDuration, c, es), e);
    if m == [] {
      assert sent + m == sent;
    } else {
      assert m == [m[0]];
      Machine.RunStep(cfg, s, sent, m[0]);
    }
  }

  lemma ClockStep(cfg: Machine.Config, warmingDuration: int, c: Control, t: Machine.State<Registry>, e: Event)
    requires c.now == t.now && c.down == t.paused
    ensures var d, m := Next(warmingDuration, c, e), Emit(c, e);
            var u := if m == [] then t else Machine.Step(cfg, t, m[0]);
            d.now == u.now && d.down == u.paused
  {
  }

  /** The table's clock and pause follow the controller's. */
  lemma {:induction false} ClocksAgree(
      cfg: Machine.Config, warmingDuration: int, c: Control, s: Machine.State<Registry>, es: seq<Event>)
    requires c.now == s.now && c.down == s.paused
    ensures var d, t := After(warmingDuration, c, es), Machine.Run(cfg, s, Emitted(warmingDuration, c, es));
            d.now == t.now && d.down == t.paused
  {
    hide Next, Emit, Machine.Step;
    if es != [] {
      var init, e := es[..|es| - 1], es[|es| - 1];
      ClocksAgree(cfg, warmingDuration, c, s, init);
      AfterOne(warmingDuration, c, init, e);
      EmitStep(cfg, warmingDuration, c, s, init, e);
      ClockStep(cfg, warmingDuration, After(warmingDuration, c, init),
                Machine.Run(cfg, s, Emitted(warmingDuration, c, init)), e);
      assert es == init + [e];
    }
  }

  // ---------------------------------------------------------------- one-shot startup

  function Calls(outcomes: seq<bool>): (r: seq<Effect>)
    requires |outcomes| <= |STAGES|
  {
    seq(|outcomes|, i requires 0 <= i < |outcomes| => Call(STAGES[i], outcomes[i]))
  }

  /** The calls a startup makes when they turn out as `outcomes`, and the closing of the connection. */
  function StartupLog(outcomes: seq<bool>): seq<Effect>
    requires |outcomes| <= |STAGES|
  {
    Calls(outcomes) + if |outcomes| > 1 && !outcomes[|outcomes| - 1] then [CloseConnection] else []
  }

  /** The log of a startup, written out: its calls in order, and the closing of the connection after a failure. */
  lemma StartupLogIs(outcomes: seq<bool>)
    requires |outcomes| <= 6
    ensures var all := [Connect, PublishStart, SubscribeGreet, FlushGreet, SubscribeRegister, SubscribeUnregister];
            var log, n := StartupLog(outcomes), |outcomes|;
            && n <= |log| && (forall i :: 0 <= i < n ==> log[i] == Call(all[i], outcomes[i]))
            && log[n..] == if n > 1 && !outcomes[n - 1] then [CloseConnection] else []
  {
  }

  ghost predicate OnlyLastFails(outcomes: seq<bool>) {
    forall i :: 0 <= i < |outcomes| - 1 ==> outcomes[i]
  }

  ghost predicate AllSucceed(outcomes: seq<bool>) {
    |outcomes| == |STAGES| && forall i :: 0 <= i < |outcomes| ==> outcomes[i]
  }

  /** The startup has made the calls of `outcomes`, in order and once each, and stands where they leave it. */
  ghost predicate StartedWith(c: Control, outcomes: seq<bool>) {
    && |outcomes| <= |STAGES| && OnlyLastFails(outcomes)
    && c.log == StartupLog(outcomes)
    && (c.startup.NotRun? ==> outcomes == [])
    && (c.startup.Attempting? ==>
          c.startup.n == |outcomes| < |STAGES| && forall i :: 0 <= i < |outcomes| ==> outcomes[i])
    && (c.startup.Succeeded? <==> AllSucceed(outcomes))
    && (c.startup.Failed? ==> outcomes != [] && !outcomes[|outcomes| - 1])
    && (forall i :: 0 <= i < |STAGES| ==> (STAGES[i] in c.live <==> i < |outcomes| && outcomes[i]))
    && (CloseConnection in c.log ==> c.closed)
  }

  ghost predicate WarmOnlyAfter(warmingDuration: int, c: Control) {
    && (c.timer.Some? ==> c.startup.Succeeded?)
    && (forall s :: s in c.live ==> c.live[s] <= c.now && (c.timer.Some? ==> c.live[s] <= c.timer.value))
    && (c.timer.Some? ==> c.timer.value <= c.now)
    && (c.warm ==> c.timer.Some? && c.now - c.timer.value >= warmingDuration)
  }

  lemma StartupStep(c: Control, ok: bool, outcomes: seq<bool>)
    requires StartedWith(c, outcomes) && c.startup.Attempting? && c.startup.n < |STAGES|
    ensures StartedWith(AfterCall(c, ok), outcomes + [ok])
  {
    var c', o := AfterCall(c, ok), outcomes + [ok];
    var n := |outcomes|;
    assert StartupLog(outcomes) == Calls(outcomes);
    assert Calls(o) == Calls(outcomes) + [Call(STAGES[n], ok)];
    forall i | 0 <= i < |STAGES| ensures STAGES[i] in c'.live <==> i < |o| && o[i] {
      assert i != n ==> STAGES[i] != STAGES[n];
    }
  }

  /** Only the return of a pending call moves the startup on. */
  lemma StartupNext(warmingDuration: int, c: Control, e: Event, outcomes: seq<bool>)
    requires StartedWith(c, outcomes)
    ensures StartedWith(Next(warmingDuration, c, e),
                        if e.Returns? && c.startup.Attempting? then outcomes + [e.ok] else outcomes)
  {
    if e.Returns? && c.startup.Attempting? {
      StartupStep(c, e.ok, outcomes);
    }
    hide Calls;
  }

  lemma StartupFirst(now: int)
    ensures StartedWith(Boot(now), [])
  {
  }

  /** In every run the startup has happened at most once, call by call as its outcomes dictate. */
  lemma {:induction false} StartupIsOneShot(warmingDuration: int, now: int, es: seq<Event>)
    returns (outcomes: seq<bool>)
    ensures StartedWith(After(warmingDuration, Boot(now), es), outcomes)
  {
    hide StartedWith, Next;
    if es == [] {
      outcomes := [];
      StartupFirst(now);
    } else {
      var init, e := es[..|es| - 1], es[|es| - 1];
      outcomes := StartupIsOneShot(warmingDuration, now, init);
      var c := After(warmingDuration, Boot(now), init);
      StartupNext(warmingDuration, c, e, outcomes);
      outcomes := if e.Returns? && c.startup.Attempting? then outcomes + [e.ok] else outcomes;
    }
  }

  /** In every run, however often `RunOnce` is called, each call of the startup is made at most once. */
  lemma EachCallMadeOnce(warmingDuration: int, now: int, es: seq<Event>, a: nat, b: nat)
    requires var log := After(warmingDuration, Boot(now), es).log;
             a < |log| && b < |log| && log[a].Call? && log[b].Call? && log[a].stage == log[b].stage
    ensures a == b
  {
    var outcomes := StartupIsOneShot(warmingDuration, now, es);
    var calls := Calls(outcomes);
    assert forall i :: 0 <= i < |calls| ==> calls[i].stage == STAGES[i];
    assert forall i, j :: 0 <= i < j < |STAGES| ==> STAGES[i] != STAGES[j];
  }

  /** No call is made twice, so a subscription keeps the moment it was made. */
  lemma LiveStep(warmingDuration: int, c: Control, e: Event, outcomes: seq<bool>, stage: Stage)
    requires StartedWith(c, outcomes) && stage in c.live
    ensures var d := Next(warmingDuration, c, e);
            stage in d.live && d.live[stage] == c.live[stage]
  {
    if e.Returns? && c.startup.Attempting? {
      assert STAGES[c.startup.n] !in c.live;
    }
  }

  lemma WarmStep(warmingDuration: int, c: Control, e: Event)
    requires WarmOnlyAfter(warmingDuration, c)
    ensures WarmOnlyAfter(warmingDuration, Next(warmingDuration, c, e))
  {
  }

  lemma {:induction false} WarmNeedsSubscriptions(warmingDuration: int, now: int, es: seq<Event>)
    ensures WarmOnlyAfter(warmingDuration, After(warmingDuration, Boot(now), es))
  {
    hide Next;
    if es != [] {
      var init := es[..|es| - 1];
      WarmNeedsSubscriptions(warmingDuration, now, init);
      WarmStep(warmingDuration, After(warmingDuration, Boot(now), init), es[|es| - 1]);
    }
  }

  /**
   A warm table has had its three subscriptions for at least the warming duration; a failed
   startup closes the connection it made and never becomes warm.
   */
  lemma WarmMeansSubscribed(warmingDuration: int, now: int, es: seq<Event>, s: Stage)
    ensures var c := After(warmingDuration, Boot(now), es);
            && (c.warm ==> s in c.live && c.now - c.live[s] >= warmingDuration)
            && (c.startup.Failed? ==> !c.warm && c.timer.None? && (Connect in c.live ==> c.closed))
  {
    var c := After(warmingDuration, Boot(now), es);
    WarmNeedsSubscriptions(warmingDuration, now, es);
    var outcomes := StartupIsOneShot(warmingDuration, now, es);
    var i := match s
      case Connect => 0 case PublishStart => 1 case SubscribeGreet => 2
      case FlushGreet => 3 case SubscribeRegister => 4 case SubscribeUnregister => 5;
    assert STAGES[i] == s && STAGES[0] == Connect;
    if c.startup.Failed? && Connect in c.live {
      assert |outcomes| > 1;
      var log := StartupLog(outcomes);
      assert log[|log| - 1] == CloseConnection;
    }
  }

  /** What a finished startup leaves is kept. */
  ghost predicate Persists(c: Control, d: Control) {
    && c.log <= d.log
    && (c.warm ==> d.warm)
    && (c.closed ==> d.closed)
    && (c.timer.Some? ==> d.timer == c.timer)
    && (c.startup.Failed? || c.startup.Succeeded? ==>
          d.startup == c.startup && d.log == c.log && d.live == c.live)
  }

  lemma PersistsStep(warmingDuration: int, c: Control, e: Event)
    ensures Persists(c, Next(warmingDuration, c, e))
  {
  }

  /** The timer that a finished startup sets off makes the table warm when the warming duration is over, not before. */
  lemma WarmsWhenDue(warmingDuration: int, c: Control, d: nat)
    requires c.startup.Succeeded? && c.timer.None? && !c.warm
    ensures After(warmingDuration, c, [TimerStarts] + [Elapse(d)] + [TimerFires]).warm <==> d >= warmingDuration
  {
    hide After, Emitted, Emit;
    assert After(warmingDuration, c, []) == c by { AfterNothing(warmingDuration, c); }
    AfterOne(warmingDuration, c, [], TimerStarts);
    assert [] + [TimerStarts] == [TimerStarts];
    AfterOne(warmingDuration, c, [TimerStarts], Elapse(d));
    AfterOne(warmingDuration, c, [TimerStarts] + [Elapse(d)], TimerFires);
  }

  lemma AfterNothing(warmingDuration: int, c: Control)
    ensures After(warmingDuration, c, []) == c
  {
  }

  /** Nothing later undoes the startup: the calls stay made, the timer stays set, and warm stays warm. */
  lemma {:induction false} StartupPersists(warmingDuration: int, c: Control, es: seq<Event>)
    ensures Persists(c, After(warmingDuration, c, es))
  {
    hide Next;
    if es != [] {
      var init := es[..|es| - 1];
      StartupPersists(warmingDuration, c, init);
      PersistsStep(warmingDuration, After(warmingDuration, c, init), es[|es| - 1]);
    }
  }

  // ---------------------------------------------------------------- messages

  lemma RegisterStep(cfg: Machine.Config, c: Control, t: Machine.State<Registry>, payload: Payload, k: Pair)
    requires c.now == t.now
    ensures var m := Emit(c, Register(payload));
            var u := if m == [] then t else Machine.Step(cfg, t, m[0]);
            var hit := && payload.Decoded? && Delivers(c, SubscribeRegister) && payload.ip != ""
                       && k.1 == payload.ip && k.0 in Normalised(payload.infraNames);
            && u == t.(table := u.table)
            && (k in u.table <==> hit || k in t.table)
            && (k in u.table ==> u.table[k] == if hit then c.now else t.table[k])
  {
    if payload.Decoded? {
      assert k in Pairs(Normalised(payload.infraNames), payload.ip)
        <==> k.1 == payload.ip && k.0 in Normalised(payload.infraNames);
    }
  }

  /**
   In every run a register message sets the time of exactly the pairs it names, if it is decoded, has a host and
   is delivered, and changes nothing else.
   */
  lemma RegisterSets(
      cfg: Machine.Config, warmingDuration: int, now: int, es: seq<Event>, payload: Payload, k: Pair)
    ensures var c, before, after := After(warmingDuration, Boot(now), es), Registered(cfg, warmingDuration, now, es),
              Registered(cfg, warmingDuration, now, es + [Register(payload)]);
            var hit := && payload.Decoded? && Delivers(c, SubscribeRegister) && payload.ip != ""
                       && k.1 == payload.ip && k.0 in Normalised(payload.infraNames);
            && after == before.(table := after.table)
            && (k in after.table <==> hit || k in before.table)
            && (k in after.table ==> after.table[k] == if hit then c.now else before.table[k])
  {
    hide After, Emitted, Emit, Machine.Run, Machine.Step, Delivers, Normalised;
    ClocksAgree(cfg, warmingDuration, Boot(now), Machine.Start(map[], now), es);
    EmitStep(cfg, warmingDuration, Boot(now), Machine.Start(map[], now), es, Register(payload));
    RegisterStep(cfg, After(warmingDuration, Boot(now), es), Registered(cfg, warmingDuration, now, es), payload, k);
  }

  lemma UnregisterStep(cfg: Machine.Config, c: Control, t: Machine.State<Registry>, payload: Payload, k: Pair)
    ensures var m := Emit(c, Unregister(payload));
            var u := if m == [] then t else Machine.Step(cfg, t, m[0]);
            var hit := && payload.Decoded? && Delivers(c, SubscribeUnregister)
                       && k.1 == payload.ip && k.0 in Normalised(payload.infraNames);
            && u == t.(table := u.table)
            && (k in u.table <==> k in t.table && !hit)
            && (k in u.table ==> u.table[k] == t.table[k])
  {
    if payload.Decoded? {
      assert k in Pairs(Normalised(payload.infraNames), payload.ip)
        <==> k.1 == payload.ip && k.0 in Normalised(payload.infraNames);
    }
  }

  /** In every run an unregister message that is decoded and delivered removes exactly the pairs it names. */
  lemma UnregisterRemoves(
      cfg: Machine.Config, warmingDuration: int, now: int, es: seq<Event>, payload: Payload, k: Pair)
    ensures var c, before, after := After(warmingDuration, Boot(now), es), Registered(cfg, warmingDuration, now, es),
              Registered(cfg, warmingDuration, now, es + [Unregister(payload)]);
            var hit := && payload.Decoded? && Delivers(c, SubscribeUnregister)
                       && k.1 == payload.ip && k.0 in Normalised(payload.infraNames);
            && after == before.(table := after.table)
            && (k in after.table <==> k in before.table && !hit)
            && (k in after.table ==> after.table[k] == before.table[k])
  {
    hide After, Emitted, Emit, Machine.Run, Machine.Step, Delivers, Normalised;
    EmitStep(cfg, warmingDuration, Boot(now), Machine.Start(map[], now), es, Unregister(payload));
    UnregisterStep(cfg, After(warmingDuration, Boot(now), es), Registered(cfg, warmingDuration, now, es), payload, k);
  }

  lemma {:induction false} EmittedNames(warmingDuration: int, c: Control, es: seq<Event>)
    ensures forall i :: 0 <= i < |Emitted(warmingDuration, c, es)| && Emitted(warmingDuration, c, es)[i].Add?
              ==> Emitted(warmingDuration, c, es)[i].ip != ""
  {
    if es != [] {
      EmittedNames(warmingDuration, c, es[..|es| - 1]);
    }
  }

  lemma {:induction false} NoEmptyIPs(cfg: Machine.Config, s: Machine.State<Registry>, es: seq<Machine.Event>)
    requires forall k :: k in s.table ==> k.1 != ""
    requires forall i :: 0 <= i < |es| && es[i].Add? ==> es[i].ip != ""
    ensures forall k :: k in Machine.Run(cfg, s, es).table ==> k.1 != ""
  {
    if es != [] {
      NoEmptyIPs(cfg, s, es[..|es| - 1]);
    }
  }

  /** No run driven by messages stores an empty IP. */
  lemma NoEmptyIPStored(cfg: Machine.Config, warmingDuration: int, now: int, es: seq<Event>)
    ensures forall k :: k in Registered(cfg, warmingDuration, now, es).table ==> k.1 != ""
  {
    EmittedNames(warmingDuration, Boot(now), es);
    NoEmptyIPs(cfg, Machine.Start(map[], now), Emitted(warmingDuration, Boot(now), es));
  }

  lemma {:induction false} ClosedEmitsNoAdd(warmingDuration: int, c: Control, es: seq<Event>)
    requires c.closed
    ensures After(warmingDuration, c, es).closed
    ensures forall i :: 0 <= i < |Emitted(warmingDuration, c, es)| ==> !Emitted(warmingDuration, c, es)[i].Add?
  {
    if es != [] {
      ClosedEmitsNoAdd(warmingDuration, c, es[..|es| - 1]);
    }
  }

  lemma {:induction false} NoAddOnlyShrinks(cfg: Machine.Config, s: Machine.State<Registry>, es: seq<Machine.Event>)
    requires forall i :: 0 <= i < |es| ==> !es[i].Add?
    ensures Machine.Run(cfg, s, es).table.Keys <= s.table.Keys
  {
    if es != [] {
      NoAddOnlyShrinks(cfg, s, es[..|es| - 1]);
    }
  }

  /** Once the connection is closed, by a failed startup or otherwise, no run lists a pair that was not listed then. */
  lemma {:induction false} ClosedConnectionAddsNothing(
      cfg: Machine.Config, warmingDuration: int, now: int, before: seq<Event>, es: seq<Event>)
    requires After(warmingDuration, Boot(now), before).closed
    ensures Registered(cfg, warmingDuration, now, before + es).table.Keys
         <= Registered(cfg, warmingDuration, now, before).table.Keys
  {
    var c := After(warmingDuration, Boot(now), before);
    var sent := Emitted(warmingDuration, Boot(now), before);
    AfterAppend(warmingDuration, Boot(now), before, es);
    ClosedEmitsNoAdd(warmingDuration, c, es);
    hide After, Emitted, Machine.Run;
    Machine.RunAppend(cfg, Machine.Start(map[], now), sent, Emitted(warmingDuration, c, es));
    NoAddOnlyShrinks(cfg, Machine.Run(cfg, Machine.Start(map[], now), sent), Emitted(warmingDuration, c, es));
  }

  lemma RemoveAbsent(t: Table, hostnames: seq<string>, ip: string)
    requires WellFormed(t) && forall h :: (h, ip) !in Abs(t)
    ensures RemoveAll(t, hostnames, ip) == t
  {
    var r := RemoveAll(t, hostnames, ip);
    forall h ensures (h in r <==> h in t) && EntriesFor(r, h) == EntriesFor(t, h) {
      RemoveAllHosts(t, hostnames, ip, h);
      AbsAt(t, (h, ip));
    }
    SameTable(r, t);
  }

  /** Closing ends a connection that was made, and nothing else does but a startup that fails after connecting. */
  lemma CloseEnds(warmingDuration: int, now: int, es: seq<Event>, e: Event)
    ensures var c, d := After(warmingDuration, Boot(now), es), After(warmingDuration, Boot(now), es + [e]);
            d.closed <==>
              || c.closed
              || (e.Close? && Connect in c.live)
              || (d.startup.Failed? && !c.startup.Failed? && Connect in c.live)
  {
    var c := After(warmingDuration, Boot(now), es);
    var outcomes := StartupIsOneShot(warmingDuration, now, es);
    AfterOne(warmingDuration, Boot(now), es, e);
    hide After;
    assert STAGES[0] == Connect;
  }

  /** So an unregister message without a host changes nothing, not even the order of the entries. */
  lemma UnregisterWithoutHost(cfg: Machine.Config, warmingDuration: int, now: int, es: seq<Event>, names: seq<string>)
    ensures Addresses(cfg, warmingDuration, now, es + [Unregister(Decoded("", names))])
         == Addresses(cfg, warmingDuration, now, es)
  {
    var e := Unregister(Decoded("", names));
    var s := Addresses(cfg, warmingDuration, now, es);
    NoEmptyIPStored(cfg, warmingDuration, now, es);
    AddressesRefine(cfg, warmingDuration, now, es);
    RemoveAbsent(s.table, names, "");
    hide RemoveAll, Abs, WellFormed, Next, After;
    var a := Emitted(warmingDuration, Boot(now), es);
    var m := Emit(After(warmingDuration, Boot(now), es), e);
    assert (es + [e])[..|es|] == es;
    assert Emitted(warmingDuration, Boot(now), es + [e]) == a + m;
    hide Emitted;
    if m != [] {
      assert (a + m)[..|a|] == a;
    } else {
      assert a + m == a;
    }
  }
}
