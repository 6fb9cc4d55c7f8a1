/**
 Endpoints that send a registration in every window of a fixed length, whether or not the bus is
 there to deliver it. Once a message of theirs has been handled they are lost only by a write that
 follows a time, as long as the threshold, in which no window was up.
 */
module Steady {
  import opened Availability
  import opened Controller
  import opened Entries
  import opened Names
  import opened Pruning
  import opened Tables
  import Machine = TableMachine

  predicate Sends(e: Event, k: Pair) {
    e.Register? && e.payload.Decoded? && e.payload.ip == k.1 && k.0 in Normalised(e.payload.infraNames)
  }

  predicate Retracts(e: Event, k: Pair) {
    e.Unregister? && e.payload.Decoded? && e.payload.ip == k.1 && k.0 in Normalised(e.payload.infraNames)
  }

  /** The endpoint is never unregistered. */
  ghost predicate NeverRetracted(es: seq<Event>, k: Pair) {
    forall i :: 0 <= i < |es| ==> !Retracts(es[i], k)
  }

  function SentTimes(w: int, c: Control, es: seq<Event>, k: Pair): set<int> {
    if es == [] then {} else
      var init := es[..|es| - 1];
      SentTimes(w, c, init, k) + if Sends(es[|es| - 1], k) then {After(w, c, init).now} else {}
  }

  function HandledTimes(w: int, c: Control, es: seq<Event>, k: Pair): set<int> {
    if es == [] then {} else
      var init := es[..|es| - 1];
      var d := After(w, c, init);
      HandledTimes(w, c, init, k) + if Sends(es[|es| - 1], k) && Delivers(d, SubscribeRegister) then {d.now} else {}
  }

  /** At every moment of the run, every window of length `p` that has gone by holds a message sent. */
  ghost predicate SteadySender(w: int, c: Control, es: seq<Event>, k: Pair, p: int) {
    && (forall a :: c.now <= a && a + p <= After(w, c, es).now ==> Covered(SentTimes(w, c, es, k), a, p))
    && (es != [] ==> SteadySender(w, c, es[..|es| - 1], k, p))
  }

  /** The moments of a run: the controller as it is before and after every event. */
  function Moments(w: int, c: Control, es: seq<Event>): set<Control> {
    (if es == [] then {} else Moments(w, c, es[..|es| - 1])) + {After(w, c, es)}
  }

  /** The connection is up at every moment of the window of length `p` that starts at `a`. */
  ghost predicate Up(ms: set<Control>, a: int, p: int) {
    forall d :: d in ms && a <= d.now < a + p ==> !d.down
  }

  /** Between `start` and `end` there is a window of length `p` through which the connection is up. */
  ghost predicate UpWindow(ms: set<Control>, start: int, end: int, p: int) {
    exists a :: start <= a && a + p <= end && Up(ms, a, p)
  }

  /** The register subscription is live, the connection up and not closed, the table's clock and pause in step. */
  ghost predicate Listening(c: Control, s: Machine.State<Registry>) {
    && SubscribeRegister in c.live && !c.closed && !c.down
    && s.now == c.now && !s.paused && (s.lastResume.Some? ==> s.lastResume.value <= s.now)
  }

  // ---------------------------------------------------------------- what is handled

  lemma NextKeeps(w: int, c: Control, e: Event)
    ensures var d := Next(w, c, e);
            && c.now <= d.now && c.live.Keys <= d.live.Keys && (c.closed ==> d.closed)
            && d.down == (e.Disconnected? || (c.down && !e.Reconnected?))
            && d.now == c.now + if e.Elapse? then e.d else 0
  {
  }

  lemma Inhabited(times: set<int>) returns (r: int)
    requires times != {}
    ensures r in times
  {
    assert exists t :: t in times by {
      assert (forall t :: t !in times) ==> times == {};
    }
    r :| r in times;
  }

  lemma {:induction false} StaysLive(w: int, c: Control, es: seq<Event>)
    requires SubscribeRegister in c.live && !After(w, c, es).closed
    ensures SubscribeRegister in After(w, c, es).live
    ensures es != [] ==> !After(w, c, es[..|es| - 1]).closed
    ensures c.now <= After(w, c, es).now
  {
    if es != [] {
      var init := es[..|es| - 1];
      NextKeeps(w, After(w, c, init), es[|es| - 1]);
      hide Next;
      StaysLive(w, c, init);
    }
  }

  lemma {:induction false} ClockRuns(w: int, c: Control, es: seq<Event>, k: Pair)
    ensures c.now <= After(w, c, es).now
    ensures forall d :: d in Moments(w, c, es) ==> c.now <= d.now <= After(w, c, es).now
    ensures forall r :: r in SentTimes(w, c, es, k) ==> c.now <= r <= After(w, c, es).now
  {
    hide Next, Sends;
    if es != [] {
      var init := es[..|es| - 1];
      NextKeeps(w, After(w, c, init), es[|es| - 1]);
      ClockRuns(w, c, init, k);
    }
  }

  /** What is sent while the connection is up is handled. */
  lemma {:induction false} SentWhileUp(w: int, c: Control, es: seq<Event>, k: Pair, a: int, p: int, r: int)
    requires SubscribeRegister in c.live && !After(w, c, es).closed
    requires Up(Moments(w, c, es), a, p) && a <= r < a + p && r in SentTimes(w, c, es, k)
    ensures r in HandledTimes(w, c, es, k)
  {
    if es != [] {
      var init := es[..|es| - 1];
      StaysLive(w, c, es);
      StaysLive(w, c, init);
      assert Up(Moments(w, c, init), a, p);
      assert After(w, c, init) in Moments(w, c, init);
      if r in SentTimes(w, c, init, k) {
        SentWhileUp(w, c, init, k, a, p, r);
      }
    }
  }

  /** A steady sender has been heard in every span of time that holds a window through which the connection is up. */
  lemma {:induction false} HandledInUpWindow(w: int, c: Control, es: seq<Event>, k: Pair, p: int, start: int)
      returns (r: int)
    requires SubscribeRegister in c.live && !After(w, c, es).closed
    requires SteadySender(w, c, es, k, p) && c.now <= start
    requires UpWindow(Moments(w, c, es), start, After(w, c, es).now, p)
    ensures r in HandledTimes(w, c, es, k) && start <= r
  {
    hide After, Moments, SentTimes, HandledTimes;
    var a :| start <= a && a + p <= After(w, c, es).now && Up(Moments(w, c, es), a, p);
    assert Covered(SentTimes(w, c, es, k), a, p);
    r :| r in SentTimes(w, c, es, k) && a <= r < a + p;
    SentWhileUp(w, c, es, k, a, p, r);
  }

  // ---------------------------------------------------------------- how an endpoint is lost

  /** The times of the writes that had host `h` among their candidates. */
  function PrunedTimes(
      cfg: Machine.Config, w: int, c: Control, s: Machine.State<Registry>, es: seq<Event>, h: string): set<int>
  {
    if es == [] then {} else
      var init := es[..|es| - 1];
      var p := Machine.Run(cfg, s, Emitted(w, c, init)).pruner;
      PrunedTimes(cfg, w, c, s, init, h)
      + if es[|es| - 1].Write? && p.Scanned? && h in p.candidates then {After(w, c, init).now} else {}
  }

  ghost predicate AllBefore(times: set<int>, x: int) {
    forall r :: r in times ==> r < x
  }

  /** The endpoint is as recent as its last message handled, or was deleted by a write that found it stale. */
  ghost predicate Accounted(
      cfg: Machine.Config, t: Machine.State<Registry>, handled: set<int>, pruned: set<int>, k: Pair)
  {
    && (forall r :: r in handled ==> r <= t.now)
    && (k in t.table ==> forall r :: r in handled ==> r <= t.table[k])
    && (k !in t.table ==> handled == {} || exists at :: at in pruned && AllBefore(handled, at - cfg.staleness))
  }

  lemma AccountedStep(
      cfg: Machine.Config, w: int, d: Control, t: Machine.State<Registry>,
      handled: set<int>, pruned: set<int>, e: Event, k: Pair)
    requires Accounted(cfg, t, handled, pruned, k) && t.now == d.now && !Retracts(e, k) && k.1 != ""
    ensures var m := Emit(d, e);
            Accounted(cfg, if m == [] then t else Machine.Step(cfg, t, m[0]),
                      handled + (if Sends(e, k) && Delivers(d, SubscribeRegister) then {d.now} else {}),
                      pruned + (if e.Write? && t.pruner.Scanned? && k.0 in t.pruner.candidates then {d.now} else {}), k)
  {
    var m := Emit(d, e);
    var handled' := handled + if Sends(e, k) && Delivers(d, SubscribeRegister) then {d.now} else {};
    var pruned' := pruned + if e.Write? && t.pruner.Scanned? && k.0 in t.pruner.candidates then {d.now} else {};
    if m != [] {
      StepAt(cfg, t, m[0], k);
      var u := Machine.Step(cfg, t, m[0]);
      if k in t.table && k !in u.table {
        assert d.now in pruned' && AllBefore(handled', d.now - cfg.staleness);
      }
    }
  }

  lemma {:induction false} AccountedRun(
      cfg: Machine.Config, w: int, c: Control, s: Machine.State<Registry>, es: seq<Event>, k: Pair)
    requires c.now == s.now && c.down == s.paused && NeverRetracted(es, k) && k.1 != ""
    ensures Accounted(cfg, Machine.Run(cfg, s, Emitted(w, c, es)),
                      HandledTimes(w, c, es, k), PrunedTimes(cfg, w, c, s, es, k.0), k)
  {
    hide Next, Emit, Machine.Step, Accounted, Retracts, Sends, Delivers;
    if es == [] {
      AccountedFirst(cfg, s, k);
    } else {
      var init, e := es[..|es| - 1], es[|es| - 1];
      assert NeverRetracted(init, k);
      AccountedRun(cfg, w, c, s, init, k);
      ClocksAgree(cfg, w, c, s, init);
      AccountedStep(cfg, w, After(w, c, init), Machine.Run(cfg, s, Emitted(w, c, init)),
                    HandledTimes(w, c, init, k), PrunedTimes(cfg, w, c, s, init, k.0), e, k);
      EmitStep(cfg, w, c, s, init, e);
      assert es == init + [e];
    }
  }

  lemma AccountedFirst(cfg: Machine.Config, s: Machine.State<Registry>, k: Pair)
    ensures Accounted(cfg, s, {}, {}, k)
  {
  }

  /**
   Whatever the outages, the window and the resume delay, a steady sender that has been heard is listed
   if, for every write that had its host among the candidates, the connection has been up through a
   window since the threshold before that write.
   */
  lemma {:induction false} SteadyStaysListed(
      cfg: Machine.Config, w: int, c: Control, s: Machine.State<Registry>, es: seq<Event>, k: Pair, p: int)
    requires Listening(c, s) && !After(w, c, es).closed && k.1 != ""
    requires SteadySender(w, c, es, k, p) && NeverRetracted(es, k) && HandledTimes(w, c, es, k) != {}
    requires forall at :: at in PrunedTimes(cfg, w, c, s, es, k.0) ==>
               || at - cfg.staleness <= c.now
               || UpWindow(Moments(w, c, es), at - cfg.staleness, After(w, c, es).now, p)
    ensures k in Machine.Run(cfg, s, Emitted(w, c, es)).table
  {
    var t, handled := Machine.Run(cfg, s, Emitted(w, c, es)), HandledTimes(w, c, es, k);
    var pruned := PrunedTimes(cfg, w, c, s, es, k.0);
    AccountedRun(cfg, w, c, s, es, k);
    HandledSinceStart(w, c, es, k);
    hide After, Emitted, Machine.Run, HandledTimes, PrunedTimes, SteadySender, Moments;
    if k !in t.table {
      var at :| at in pruned && AllBefore(handled, at - cfg.staleness);
      var r;
      if at - cfg.staleness <= c.now {
        r := Inhabited(handled);
      } else {
        r := HandledInUpWindow(w, c, es, k, p, at - cfg.staleness);
      }
      assert false;
    }
  }

  lemma {:induction false} HandledSinceStart(w: int, c: Control, es: seq<Event>, k: Pair)
    ensures forall r :: r in HandledTimes(w, c, es, k) ==> c.now <= r
  {
    if es != [] {
      HandledSinceStart(w, c, es[..|es| - 1], k);
      ClockRuns(w, c, es[..|es| - 1], k);
    }
  }
}
