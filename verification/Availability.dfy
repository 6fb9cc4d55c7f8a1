/**
 What the controller is for. An endpoint that keeps registering is never lost across
 outages, exactly when no disconnect falls inside a prune pass that concerns its host;
 and once the table is warm its answers are complete.
 */
module Availability {
  import opened Entries
  import opened Names
  import opened Pruning
  import opened TableMachine
  import opened Tables
  import C = Controller

  // ---------------------------------------------------------------- no endpoint lost

  /** A pass is under way that may still delete entries of host `h`. */
  predicate InFlight(p: Pruner, h: string) {
    p.PastGate? || (p.Scanned? && h in p.candidates)
  }

  /** What an endpoint has been through: the connection, its last restoration, and the last registration handled. */
  datatype Duty = Duty(connected: bool, since: Option<int>, registered: int)

  function FirstDuty(s: State<Registry>, k: Pair): Duty
    requires k in s.table
  {
    Duty(!s.paused, if InFlight(s.pruner, k.0) then None else s.lastResume, s.table[k])
  }

  /** A resumption that no disconnection precedes restores nothing. */
  function NextDuty(d: Duty, e: Event, k: Pair, now: int): Duty {
    if Touches(e, k) then d.(registered := now)
    else if e.Pause? then d.(connected := false)
    else if e.Resume? && !d.connected then d.(connected := true, since := Some(now))
    else d
  }

  function DutyAfter(cfg: Config, s: State<Registry>, es: seq<Event>, k: Pair): Duty
    requires k in s.table
  {
    if es == [] then FirstDuty(s, k) else
      var init := es[..|es| - 1];
      NextDuty(DutyAfter(cfg, s, init, k), es[|es| - 1], k, Run(cfg, s, init).now)
  }

  /** The resume delay since the connection was restored has not gone by. */
  predicate InGrace(cfg: Config, d: Duty, now: int) {
    d.since.Some? && now - d.since.value < cfg.resumeDelay
  }

  /** The duty: while connected and out of the resume delay, the last registration is no older than the threshold. */
  predicate Meets(cfg: Config, d: Duty, now: int) {
    d.connected && !InGrace(cfg, d, now) ==> !Stale(d.registered, now, cfg.staleness)
  }

  /** The endpoint meets its duty whenever a step is taken, and is never unregistered. */
  ghost predicate Dutiful(cfg: Config, s: State<Registry>, es: seq<Event>, k: Pair)
    requires k in s.table
  {
    && NeverDrops(es, k)
    && forall n :: 0 <= n < |es| ==> Meets(cfg, DutyAfter(cfg, s, es[..n], k), Run(cfg, s, es[..n]).now)
  }

  /** No disconnection falls inside a pass that concerns the host. */
  ghost predicate Undisturbed(cfg: Config, s: State<Registry>, es: seq<Event>, h: string) {
    forall n :: 0 <= n < |es| && es[n].Pause? ==> !InFlight(Run(cfg, s, es[..n]).pruner, h)
  }

  /** The endpoint is listed, and no pass that concerns its host is under way if the connection is lost. */
  predicate Tracked(s: State<Registry>, k: Pair) {
    && k in s.table
    && (s.lastResume.Some? ==> s.lastResume.value <= s.now)
    && (s.paused ==> !InFlight(s.pruner, k.0))
  }

  ghost predicate Kept(cfg: Config, s: State<Registry>, d: Duty, k: Pair) {
    && k in s.table && s.table[k] == d.registered
    && s.paused == !d.connected
    && (s.lastResume.Some? ==> s.lastResume.value <= s.now)
    && (d.since.Some? ==> s.lastResume.Some? && d.since.value <= s.lastResume.value)
    && (InFlight(s.pruner, k.0) ==> d.connected && !InGrace(cfg, d, s.now))
  }

  lemma KeptStep(cfg: Config, s: State<Registry>, e: Event, d: Duty, k: Pair)
    requires Kept(cfg, s, d, k) && Meets(cfg, d, s.now) && !Drops(e, k)
    requires e.Pause? ==> !InFlight(s.pruner, k.0)
    ensures Kept(cfg, Step(cfg, s, e), NextDuty(d, e, k, s.now), k)
  {
    StepAt(cfg, s, e, k);
  }

  lemma DutifulPrefix(cfg: Config, s: State<Registry>, es: seq<Event>, k: Pair)
    requires es != [] && k in s.table && Dutiful(cfg, s, es, k) && Undisturbed(cfg, s, es, k.0)
    ensures var init := es[..|es| - 1];
            && Dutiful(cfg, s, init, k) && Undisturbed(cfg, s, init, k.0)
            && Meets(cfg, DutyAfter(cfg, s, init, k), Run(cfg, s, init).now)
  {
    hide Run, DutyAfter, Meets, InFlight;
    var init := es[..|es| - 1];
    assert forall n :: 0 <= n <= |init| ==> init[..n] == es[..n];
    assert es[..|init|] == init;
  }

  lemma {:induction false} KeptRun(cfg: Config, s: State<Registry>, es: seq<Event>, k: Pair)
    requires Tracked(s, k)
    requires Dutiful(cfg, s, es, k) && Undisturbed(cfg, s, es, k.0)
    ensures Kept(cfg, Run(cfg, s, es), DutyAfter(cfg, s, es, k), k)
  {
    if es != [] {
      var n := |es| - 1;
      var init, e := es[..n], es[n];
      DutifulPrefix(cfg, s, es, k);
      KeptRun(cfg, s, init, k);
      KeptStep(cfg, Run(cfg, s, init), e, DutyAfter(cfg, s, init, k), k);
    }
  }

  /** A dutiful endpoint is listed at the end of every undisturbed run, whatever outages it holds. */
  lemma {:induction false} NoEndpointLost(cfg: Config, s: State<Registry>, es: seq<Event>, k: Pair)
    requires Tracked(s, k)
    requires Dutiful(cfg, s, es, k) && Undisturbed(cfg, s, es, k.0)
    ensures k in Run(cfg, s, es).table
  {
    KeptRun(cfg, s, es, k);
  }

  // ---------------------------------------------------------------- when an endpoint is lost

  lemma PassNow(cfg: Config, s: State<Registry>, k: Pair)
    requires s.pruner.Idle?
    ensures k in Run(cfg, s, [GateCheck, ScanTable, WriteTable]).table
       <==> k in s.table && !(GateOpen(cfg, s) && Stale(s.table[k], s.now, cfg.staleness))
  {
    var s1 := Step(cfg, s, GateCheck);
    var s2 := Step(cfg, s1, ScanTable);
    RunCons(cfg, s, GateCheck, [ScanTable, WriteTable]);
    RunCons(cfg, s1, ScanTable, [WriteTable]);
    RunCons(cfg, s2, WriteTable, []);
    assert [GateCheck] + [ScanTable, WriteTable] == [GateCheck, ScanTable, WriteTable];
    assert [ScanTable] + [WriteTable] == [ScanTable, WriteTable];
    assert [WriteTable] + [] == [WriteTable];
    StepAt(cfg, s2, WriteTable, k);
    if GateOpen(cfg, s) && k in s.table && Stale(s.table[k], s.now, cfg.staleness) {
      assert k.0 in s2.pruner.candidates;
    }
  }

  /**
   The duty is exact. At the end of a run through which the endpoint was dutiful, with the pruner
   idle and its gate open, the next pass keeps the endpoint if and only if it meets its duty then.
   */
  lemma {:induction false} NextPassKeepsIff(cfg: Config, s: State<Registry>, es: seq<Event>, k: Pair)
    requires Tracked(s, k)
    requires Dutiful(cfg, s, es, k) && Undisturbed(cfg, s, es, k.0)
    requires Run(cfg, s, es).pruner.Idle? && GateOpen(cfg, Run(cfg, s, es))
    ensures k in Run(cfg, s, es + [GateCheck, ScanTable, WriteTable]).table
       <==> Meets(cfg, DutyAfter(cfg, s, es, k), Run(cfg, s, es).now)
  {
    KeptRun(cfg, s, es, k);
    hide Run, DutyAfter, Dutiful, Undisturbed;
    RunAppend(cfg, s, es, [GateCheck, ScanTable, WriteTable]);
    PassNow(cfg, Run(cfg, s, es), k);
  }

  /**
   After an outage and a wait without registration, a pass deletes the endpoint if and only if the
   whole resume delay has gone by and its last registration is older than the threshold.
   */
  lemma OutageLosesIff(cfg: Config, s: State<Registry>, outage: nat, wait: nat, k: Pair)
    requires k in s.table && s.pruner.Idle?
    ensures var es := [Pause, Advance(outage), Resume, Advance(wait)] + [GateCheck, ScanTable, WriteTable];
            k !in Run(cfg, s, es).table
            <==> wait >= cfg.resumeDelay && Stale(s.table[k], s.now + outage + wait, cfg.staleness)
  {
    var a, b := Advance(outage), Advance(wait);
    var s1 := Step(cfg, s, Pause);
    var s2 := Step(cfg, s1, a);
    var s3 := Step(cfg, s2, Resume);
    RunCons(cfg, s, Pause, [a, Resume, b]);
    RunCons(cfg, s1, a, [Resume, b]);
    RunCons(cfg, s2, Resume, [b]);
    RunCons(cfg, s3, b, []);
    assert [Pause] + [a, Resume, b] == [Pause, a, Resume, b];
    assert [a] + [Resume, b] == [a, Resume, b];
    assert [Resume] + [b] == [Resume, b];
    assert [b] + [] == [b];
    var s4 := Run(cfg, s, [Pause, a, Resume, b]);
    assert s4 == s.(now := s.now + outage + wait, paused := false, lastResume := Some(s.now + outage));
    RunAppend(cfg, s, [Pause, a, Resume, b], [GateCheck, ScanTable, WriteTable]);
    PassNow(cfg, s4, k);
  }

  /** The endpoint is listed, the bus connected, and the endpoint's duty met. */
  predicate Live(cfg: Config, s: State<Registry>, k: Pair) {
    Tracked(s, k) && !s.paused && s.table[k] <= s.now && Meets(cfg, FirstDuty(s, k), s.now)
  }

  /** Over a run that starts with a disconnection and is undisturbed from then on, the endpoint is not lost. */
  ghost predicate SurvivesOutage(cfg: Config, s: State<Registry>, es: seq<Event>, k: Pair)
    requires k in s.table
  {
    Dutiful(cfg, s, [Pause] + es, k) && Undisturbed(cfg, Step(cfg, s, Pause), es, k.0)
    ==> k in Run(cfg, s, [Pause] + es).table
  }

  lemma UndisturbedCons(cfg: Config, s: State<Registry>, e: Event, es: seq<Event>, h: string)
    requires e.Pause? ==> !InFlight(s.pruner, h)
    requires Undisturbed(cfg, Step(cfg, s, e), es, h)
    ensures Undisturbed(cfg, s, [e] + es, h)
  {
    hide Step;
    var all := [e] + es;
    forall n | 0 <= n < |all| && all[n].Pause? ensures !InFlight(Run(cfg, s, all[..n]).pruner, h) {
      if n > 0 {
        assert all[..n] == [e] + es[..n - 1];
        RunCons(cfg, s, e, es[..n - 1]);
      }
    }
  }

  lemma {:induction false} SilentWhileDisconnected(cfg: Config, s: State<Registry>, es: seq<Event>, k: Pair)
    requires k in s.table && NoResume(es)
    ensures !DutyAfter(cfg, s, [Pause] + es, k).connected
  {
    var all := [Pause] + es;
    var init := all[..|all| - 1];
    if es != [] {
      SilentWhileDisconnected(cfg, s, es[..|es| - 1], k);
      assert init == [Pause] + es[..|es| - 1];
    }
  }

  /** The outage that goes on longer than the threshold while an interrupted pass finishes. */
  function LongOutage(cfg: Config): seq<Event>
    requires cfg.staleness >= 0
  {
    [Advance(cfg.staleness + 1), ScanTable, WriteTable]
  }

  lemma InterruptedPassDeletes(cfg: Config, s: State<Registry>, k: Pair)
    requires cfg.staleness >= 0 && Live(cfg, s, k) && InFlight(s.pruner, k.0)
    ensures k !in Run(cfg, s, [Pause] + LongOutage(cfg)).table
  {
    var wait := Advance(cfg.staleness + 1);
    var s1 := Step(cfg, s, Pause);
    var s2 := Step(cfg, s1, wait);
    var s3 := Step(cfg, s2, ScanTable);
    RunCons(cfg, s, Pause, LongOutage(cfg));
    RunCons(cfg, s1, wait, [ScanTable, WriteTable]);
    RunCons(cfg, s2, ScanTable, [WriteTable]);
    RunCons(cfg, s3, WriteTable, []);
    assert LongOutage(cfg) == [wait] + [ScanTable, WriteTable];
    assert [ScanTable, WriteTable] == [ScanTable] + [WriteTable];
    assert [WriteTable] == [WriteTable] + [];
    assert s2.table == s.table && Stale(s2.table[k], s2.now, cfg.staleness);
    assert s3.pruner.Scanned? && k.0 in s3.pruner.candidates;
  }

  lemma LongOutageIsDutiful(cfg: Config, s: State<Registry>, k: Pair)
    requires cfg.staleness >= 0 && Live(cfg, s, k)
    ensures Dutiful(cfg, s, [Pause] + LongOutage(cfg), k)
    ensures Undisturbed(cfg, Step(cfg, s, Pause), LongOutage(cfg), k.0)
  {
    var es := LongOutage(cfg);
    var all := [Pause] + es;
    forall n | 0 <= n < |all| ensures Meets(cfg, DutyAfter(cfg, s, all[..n], k), Run(cfg, s, all[..n]).now) {
      if n > 0 {
        assert all[..n] == [Pause] + es[..n - 1];
        SilentWhileDisconnected(cfg, s, es[..n - 1], k);
      }
    }
  }

  /**
   The exact condition at a disconnection: every dutiful continuation keeps the endpoint if and
   only if no pass that concerns its host is under way when the connection goes.
   */
  lemma DisconnectIsSafeIff(cfg: Config, s: State<Registry>, k: Pair)
    requires cfg.staleness >= 0 && Live(cfg, s, k)
    ensures (forall es :: SurvivesOutage(cfg, s, es, k)) <==> !InFlight(s.pruner, k.0)
  {
    if InFlight(s.pruner, k.0) {
      LongOutageIsDutiful(cfg, s, k);
      InterruptedPassDeletes(cfg, s, k);
      assert !SurvivesOutage(cfg, s, LongOutage(cfg), k);
    } else {
      forall es ensures SurvivesOutage(cfg, s, es, k) {
        if Dutiful(cfg, s, [Pause] + es, k) && Undisturbed(cfg, Step(cfg, s, Pause), es, k.0) {
          UndisturbedCons(cfg, s, Pause, es, k.0);
          NoEndpointLost(cfg, s, [Pause] + es, k);
        }
      }
    }
  }

  // ---------------------------------------------------------------- complete once warm

  /** The moments at which the endpoint's registrations were handled. */
  function RegistrationTimes(cfg: Config, s: State<Registry>, es: seq<Event>, k: Pair): set<int> {
    if es == [] then {} else
      var init, e := es[..|es| - 1], es[|es| - 1];
      RegistrationTimes(cfg, s, init, k) + if Touches(e, k) then {Run(cfg, s, init).now} else {}
  }

  ghost predicate Covered(times: set<int>, a: int, w: int) {
    exists r :: r in times && a <= r < a + w
  }

  /** At every moment of the run, every window of length `w` that has gone by holds a registration. */
  ghost predicate Windowed(cfg: Config, s: State<Registry>, es: seq<Event>, k: Pair, w: int) {
    forall n, a :: 0 <= n <= |es| && s.now <= a && a + w <= Run(cfg, s, es[..n]).now
      ==> Covered(RegistrationTimes(cfg, s, es[..n], k), a, w)
  }

  lemma WindowedPrefix(cfg: Config, s: State<Registry>, es: seq<Event>, k: Pair, w: int)
    requires es != [] && Windowed(cfg, s, es, k, w)
    ensures Windowed(cfg, s, es[..|es| - 1], k, w)
  {
    hide Run, RegistrationTimes, Covered;
    var init := es[..|es| - 1];
    forall n, a | 0 <= n <= |init| && s.now <= a && a + w <= Run(cfg, s, init[..n]).now
      ensures Covered(RegistrationTimes(cfg, s, init[..n], k), a, w)
    {
      assert init[..n] == es[..n];
    }
  }

  /** Every registration so far is reflected in the table. */
  ghost predicate Reflected(s: State<Registry>, start: int, times: set<int>, k: Pair) {
    && start <= s.now
    && (forall r :: r in times ==> k in s.table && start <= r <= s.table[k] <= s.now)
  }

  lemma SteadyIsFresh(s: State<Registry>, start: int, times: set<int>, k: Pair, w: int, some: int)
    requires Reflected(s, start, times, k) && some in times
    requires start + w <= s.now ==> Covered(times, s.now - w, w)
    ensures s.now - s.table[k] <= w
  {
    if start + w <= s.now {
      var r :| r in times && s.now - w <= r < s.now;
      assert r <= s.table[k];
    }
  }

  lemma {:induction false} SteadyRun(cfg: Config, s: State<Registry>, es: seq<Event>, k: Pair, w: int)
    requires w <= cfg.staleness && NeverDrops(es, k) && Windowed(cfg, s, es, k, w)
    ensures Reflected(Run(cfg, s, es), s.now, RegistrationTimes(cfg, s, es, k), k)
  {
    if es != [] {
      var init, e := es[..|es| - 1], es[|es| - 1];
      WindowedPrefix(cfg, s, es, k, w);
      SteadyRun(cfg, s, init, k, w);
      var p, times := Run(cfg, s, init), RegistrationTimes(cfg, s, init, k);
      if some: int :| some in times {
        assert init[..|init|] == init;
        assert s.now + w <= p.now ==> Covered(times, p.now - w, w);
        SteadyIsFresh(p, s.now, times, k, w, some);
      }
      StepAt(cfg, p, e, k);
    }
  }

  /** An endpoint that registers in every window is listed from the end of the first window on. */
  lemma {:induction false} SteadyEndpointListed(cfg: Config, s: State<Registry>, es: seq<Event>, k: Pair, w: int)
    requires w <= cfg.staleness && NeverDrops(es, k) && Windowed(cfg, s, es, k, w)
    requires Run(cfg, s, es).now - s.now >= w
    ensures k in Run(cfg, s, es).table
  {
    SteadyRun(cfg, s, es, k, w);
    var r := Run(cfg, s, es);
    assert es[..|es|] == es;
    assert Covered(RegistrationTimes(cfg, s, es, k), r.now - w, w);
  }

  // ---------------------------------------------------------------- the whole controller

  /** A subscription keeps the moment it was made. */
  lemma {:induction false} LiveSince(w: int, now: int, before: seq<C.Event>, es: seq<C.Event>, stage: C.Stage)
    requires stage in C.After(w, C.Boot(now), before).live
    ensures var c, d := C.After(w, C.Boot(now), before), C.After(w, C.Boot(now), before + es);
            stage in d.live && d.live[stage] == c.live[stage]
  {
    if es == [] {
      assert before + es == before;
    } else {
      var init, e := es[..|es| - 1], es[|es| - 1];
      LiveSince(w, now, before, init, stage);
      assert (before + es)[..|before + es| - 1] == before + init;
      var outcomes := C.StartupIsOneShot(w, now, before + init);
      hide C.Next, C.StartedWith;
      C.LiveStep(w, C.After(w, C.Boot(now), before + init), e, outcomes, stage);
    }
  }

  lemma {:induction false} RunInTwo(cfg: Config, w: int, now: int, before: seq<C.Event>, es: seq<C.Event>)
    ensures C.Registered(cfg, w, now, before + es)
         == Run(cfg, C.Registered(cfg, w, now, before), C.Emitted(w, C.After(w, C.Boot(now), before), es))
  {
    hide Run, C.After, C.Emitted;
    C.AfterAppend(w, C.Boot(now), before, es);
    RunAppend(cfg, Start(map[], now), C.Emitted(w, C.Boot(now), before),
              C.Emitted(w, C.After(w, C.Boot(now), before), es));
  }

  /**
   From the moment the register subscription is made, let the endpoint register in every window of
   the warming duration and never be unregistered. Then every answer given while the table is warm lists it.
   */
  lemma {:induction false} CompleteOnceWarm(
      cfg: Config, w: int, now: int, before: seq<C.Event>, es: seq<C.Event>, name: string, ip: string)
    requires var c := C.After(w, C.Boot(now), before);
             C.SubscribeRegister in c.live && c.live[C.SubscribeRegister] == c.now
    requires var sent := C.Emitted(w, C.After(w, C.Boot(now), before), es);
             && NeverDrops(sent, (Fqdn(name), ip))
             && Windowed(cfg, C.Registered(cfg, w, now, before), sent, (Fqdn(name), ip), w)
    requires w <= cfg.staleness
    requires C.After(w, C.Boot(now), before + es).warm
    ensures ip in Lookup(C.Addresses(cfg, w, now, before + es).table, name)
  {
    hide Run, Windowed, NeverDrops, C.Emitted, C.Next;
    var c, s := C.After(w, C.Boot(now), before), C.Registered(cfg, w, now, before);
    var k := (Fqdn(name), ip);
    RunInTwo(cfg, w, now, before, es);
    C.ClocksAgree(cfg, w, C.Boot(now), Start(map[], now), before);
    C.ClocksAgree(cfg, w, C.Boot(now), Start(map[], now), before + es);
    LiveSince(w, now, before, es, C.SubscribeRegister);
    C.WarmMeansSubscribed(w, now, before + es, C.SubscribeRegister);
    SteadyEndpointListed(cfg, s, C.Emitted(w, c, es), k, w);
    C.AddressesRefine(cfg, w, now, before + es);
    LookupAgrees(C.Addresses(cfg, w, now, before + es).table, name, ip);
  }

  lemma {:induction false} ResumedInThePast(cfg: Config, now: int, es: seq<Event>)
    ensures var s := Run(cfg, Start(map[], now), es);
            s.lastResume.Some? ==> s.lastResume.value <= s.now
  {
    if es != [] {
      ResumedInThePast(cfg, now, es[..|es| - 1]);
    }
  }

  /** The same for outages: what the whole controller answers never lacks a dutiful endpoint. */
  lemma {:induction false} AnswersKeepDutifulEndpoints(
      cfg: Config, w: int, now: int, before: seq<C.Event>, es: seq<C.Event>, name: string, ip: string)
    requires var s := C.Registered(cfg, w, now, before);
             (Fqdn(name), ip) in s.table && (s.paused ==> !InFlight(s.pruner, Fqdn(name)))
    requires var s, sent := C.Registered(cfg, w, now, before), C.Emitted(w, C.After(w, C.Boot(now), before), es);
             Dutiful(cfg, s, sent, (Fqdn(name), ip)) && Undisturbed(cfg, s, sent, Fqdn(name))
    ensures ip in Lookup(C.Addresses(cfg, w, now, before + es).table, name)
  {
    hide Run, Dutiful, Undisturbed, C.After, C.Emitted;
    var c, s := C.After(w, C.Boot(now), before), C.Registered(cfg, w, now, before);
    RunInTwo(cfg, w, now, before, es);
    ResumedInThePast(cfg, now, C.Emitted(w, C.Boot(now), before));
    NoEndpointLost(cfg, s, C.Emitted(w, c, es), (Fqdn(name), ip));
    C.AddressesRefine(cfg, w, now, before + es);
    LookupAgrees(C.Addresses(cfg, w, now, before + es).table, name, ip);
  }
}
