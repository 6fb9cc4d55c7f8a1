/** When the answers of the whole controller, from its boot, list every steady sender. */
module Completeness {
  import opened Availability
  import opened Controller
  import opened Entries
  import opened Names
  import opened Outages
  import opened Steady
  import opened Tables
  import opened WorstCases
  import Machine = TableMachine

  // ---------------------------------------------------------------- windows shorter than the resume delay

  predicate NoDisconnection(es: seq<Event>) {
    forall i :: 0 <= i < |es| ==> !es[i].Disconnected?
  }

  /** No disconnection falls inside a pass. */
  ghost predicate Uninterrupted(cfg: Machine.Config, w: int, c: Control, v: Watch, es: seq<Event>) {
    es != [] ==>
      var init := es[..|es| - 1];
      && Uninterrupted(cfg, w, c, v, init)
      && (es[|es| - 1].Disconnected? ==> Watched(cfg, w, c, v, init).phase.Waiting?)
  }

  /** The moment the connection was last restored, if it was ever lost. */
  function Restored(w: int, c: Control, es: seq<Event>): Option<int> {
    if es == [] then None else
      var init := es[..|es| - 1];
      var d := After(w, c, init);
      if es[|es| - 1].Reconnected? && d.down then Some(d.now) else Restored(w, c, init)
  }

  /** While the connection is up it has been up since it was restored, or all along. */
  ghost predicate UpSince(ms: set<Control>, restored: Option<int>) {
    forall d :: d in ms && (restored.None? || d.now > restored.value) ==> !d.down
  }

  lemma {:induction false} UpSinceRestored(w: int, c: Control, es: seq<Event>)
    requires !c.down
    ensures var d := After(w, c, es);
            && (Restored(w, c, es).Some? ==> c.now <= Restored(w, c, es).value <= d.now)
            && (!d.down ==> UpSince(Moments(w, c, es), Restored(w, c, es)))
            && (d.down || Restored(w, c, es).Some? ==> !NoDisconnection(es))
  {
    hide Next;
    if es != [] {
      var init, e := es[..|es| - 1], es[|es| - 1];
      NextKeeps(w, After(w, c, init), e);
      UpSinceRestored(w, c, init);
      ClockRuns(w, c, init, ("", ""));
      assert !NoDisconnection(init) ==> !NoDisconnection(es) by {
        if i :| 0 <= i < |init| && init[i].Disconnected? { assert es[i].Disconnected?; }
      }
      if e.Disconnected? { assert es[|es| - 1].Disconnected?; }
    }
  }

  /** A pass under way began out of the resume delay. */
  ghost predicate Rested(cfg: Machine.Config, d: Control, v: Watch, restored: Option<int>) {
    && (restored.Some? ==> v.lastResume.Some? && restored.value <= v.lastResume.value)
    && (!v.phase.Waiting? ==> !d.down && (restored.None? || d.now - restored.value >= cfg.resumeDelay))
  }

  lemma RestedStep(cfg: Machine.Config, w: int, d: Control, v: Watch, restored: Option<int>, e: Event)
    requires Rested(cfg, d, v, restored) && (e.Disconnected? ==> v.phase.Waiting?)
    requires restored.Some? ==> restored.value <= d.now
    ensures Rested(cfg, Next(w, d, e), NextWatch(cfg, d, v, e),
                   if e.Reconnected? && d.down then Some(d.now) else restored)
  {
    NextKeeps(w, d, e);
    hide Next;
  }

  lemma {:induction false} RestedRun(cfg: Machine.Config, w: int, c: Control, v: Watch, es: seq<Event>)
    requires !c.down && Uninterrupted(cfg, w, c, v, es)
    ensures Rested(cfg, After(w, c, es), Watched(cfg, w, c, v, es), Restored(w, c, es))
  {
    hide Next, NextWatch;
    if es != [] {
      var init := es[..|es| - 1];
      RestedRun(cfg, w, c, v, init);
      UpSinceRestored(w, c, init);
      RestedStep(cfg, w, After(w, c, init), Watched(cfg, w, c, v, init), Restored(w, c, init), es[|es| - 1]);
    }
  }

  lemma {:induction false} UpWindowLater(w: int, c: Control, a: seq<Event>, b: seq<Event>, start: int, p: int)
    requires UpWindow(Moments(w, c, a), start, After(w, c, a).now, p)
    ensures UpWindow(Moments(w, c, a + b), start, After(w, c, a + b).now, p)
  {
    hide After, Moments, UpWindow;
    if b == [] {
      assert a + b == a;
    } else {
      UpWindowLater(w, c, a, b[..|b| - 1], start, p);
      assert (a + b)[..|a + b| - 1] == a + b[..|b| - 1];
      UpWindowStays(w, c, a + b, start, p);
    }
  }

  lemma {:induction false} UninterruptedPrefix(
      cfg: Machine.Config, w: int, c: Control, v: Watch, es: seq<Event>, n: nat)
    requires Uninterrupted(cfg, w, c, v, es) && n <= |es|
    ensures Uninterrupted(cfg, w, c, v, es[..n])
  {
    if n < |es| {
      UninterruptedPrefix(cfg, w, c, v, es[..|es| - 1], n);
      assert es[..|es| - 1][..n] == es[..n];
    } else {
      assert es[..n] == es;
    }
  }

  lemma UpBeforeWrite(cfg: Machine.Config, w: int, c: Control, v: Watch, pre: seq<Event>, p: int)
    requires !c.down && Uninterrupted(cfg, w, c, v, pre) && !Watched(cfg, w, c, v, pre).phase.Waiting?
    requires p <= cfg.staleness && (p < cfg.resumeDelay || NoDisconnection(pre))
    ensures var at := After(w, c, pre).now; UpWindow(Moments(w, c, pre), at - cfg.staleness, at, p)
  {
    RestedRun(cfg, w, c, v, pre);
    UpSinceRestored(w, c, pre);
    hide After, Moments, Watched, Restored;
    var at := After(w, c, pre).now;
    assert Up(Moments(w, c, pre), at - p, p);
  }

  /**
   Windows no longer than the threshold and shorter than the resume delay, or without outages of any length,
   meet the condition on threats whenever no disconnection falls inside a pass.
   */
  lemma {:induction false} ShortWindowsAreSafe(
      cfg: Machine.Config, w: int, c: Control, v: Watch, es: seq<Event>, p: int)
    requires !c.down && Uninterrupted(cfg, w, c, v, es)
    requires p <= cfg.staleness && (p < cfg.resumeDelay || NoDisconnection(es))
    ensures Safe(cfg, w, c, v, es, p) <==> UpWindow(Moments(w, c, es), c.now, After(w, c, es).now, p)
  {
    hide After, Moments, Watched, UpWindow, Uninterrupted, Threats;
    forall at | at in Threats(cfg, w, c, v, es)
      ensures UpWindow(Moments(w, c, es), at - cfg.staleness, After(w, c, es).now, p)
    {
      var n := ThreatAt(cfg, w, c, v, es, at);
      UninterruptedPrefix(cfg, w, c, v, es, n);
      assert p < cfg.resumeDelay || NoDisconnection(es[..n]);
      UpBeforeWrite(cfg, w, c, v, es[..n], p);
      UpWindowLater(w, c, es[..n], es[n..], at - cfg.staleness, p);
      assert es[..n] + es[n..] == es;
    }
  }

  // ---------------------------------------------------------------- from boot

  lemma EmptyStep(cfg: Machine.Config, d: Control, t: Machine.State<Registry>, e: Event)
    requires Unpopulated(t) && SubscribeRegister !in d.live
    ensures Unpopulated(Handle(cfg, d, t, e))
  {
    var m := Emit(d, e);
    if m != [] && m[0].Remove? {
      SameRegistry(Handle(cfg, d, t, e).table, map[]);
    }
  }

  lemma {:induction false} EmptyUntilSubscribed(cfg: Machine.Config, w: int, now: int, es: seq<Event>)
    requires SubscribeRegister !in After(w, Boot(now), es).live
    ensures Unpopulated(Registered(cfg, w, now, es))
  {
    hide Next, Emit, Machine.Step, Handle;
    if es != [] {
      var init, e := es[..|es| - 1], es[|es| - 1];
      NextKeeps(w, After(w, Boot(now), init), e);
      EmptyUntilSubscribed(cfg, w, now, init);
      EmptyStep(cfg, After(w, Boot(now), init), Registered(cfg, w, now, init), e);
      HandleIs(cfg, w, Boot(now), Machine.Start(map[], now), init, e);
      assert es == init + [e];
    }
  }

  /** The run ends with the register subscription being made, the connection up. */
  ghost predicate JustSubscribed(w: int, now: int, before: seq<Event>) {
    && before != []
    && SubscribeRegister !in After(w, Boot(now), before[..|before| - 1]).live
    && SubscribeRegister in After(w, Boot(now), before).live
    && !After(w, Boot(now), before).down && !After(w, Boot(now), before).closed
  }

  lemma SubscribingStep(cfg: Machine.Config, w: int, d: Control, t: Machine.State<Registry>, e: Event)
    requires SubscribeRegister !in d.live && SubscribeRegister in Next(w, d, e).live
    ensures Handle(cfg, d, t, e) == t && Next(w, d, e).live[SubscribeRegister] == Next(w, d, e).now
  {
  }

  lemma SubscribedState(cfg: Machine.Config, w: int, now: int, before: seq<Event>)
    requires JustSubscribed(w, now, before)
    ensures var c, s := After(w, Boot(now), before), Registered(cfg, w, now, before);
            Listening(c, s) && Unpopulated(s) && c.live[SubscribeRegister] == c.now
  {
    hide After, Emitted, Machine.Run, Next, Handle, Unpopulated, Emit;
    var init, e := before[..|before| - 1], before[|before| - 1];
    assert before == init + [e];
    AfterOne(w, Boot(now), init, e);
    var d, t := After(w, Boot(now), init), Registered(cfg, w, now, init);
    EmptyUntilSubscribed(cfg, w, now, init);
    SubscribingStep(cfg, w, d, t, e);
    HandleIs(cfg, w, Boot(now), Machine.Start(map[], now), init, e);
    ClocksAgree(cfg, w, Boot(now), Machine.Start(map[], now), before);
    ResumedInThePast(cfg, now, Emitted(w, Boot(now), before));
  }

  /** The condition `Safe` for the schedule `es` that follows the run `before`. */
  ghost predicate SafeAfter(cfg: Machine.Config, w: int, now: int, before: seq<Event>, es: seq<Event>, p: int) {
    Safe(cfg, w, After(w, Boot(now), before), FirstWatch(Registered(cfg, w, now, before)), es, p)
  }

  /** If `sent` is the schedule `es` with messages put in, among them those of a steady sender, the answer lists it. */
  ghost predicate AnsweredAfter(
      cfg: Machine.Config, w: int, now: int, before: seq<Event>, es: seq<Event>, sent: seq<Event>,
      name: string, ip: string, p: int)
  {
    var c, k := After(w, Boot(now), before), (Fqdn(name), ip);
    Silenced(sent) == es && SteadySender(w, c, sent, k, p) && NeverRetracted(sent, k)
    ==> ip in Lookup(Addresses(cfg, w, now, before + sent).table, name)
  }

  lemma AnsweredIffListed(
      cfg: Machine.Config, w: int, now: int, before: seq<Event>, es: seq<Event>, sent: seq<Event>,
      name: string, ip: string, p: int)
    ensures AnsweredAfter(cfg, w, now, before, es, sent, name, ip, p)
       <==> ListedAfter(cfg, w, After(w, Boot(now), before), Registered(cfg, w, now, before), es, sent,
                        (Fqdn(name), ip), p)
  {
    hide After, Emitted, Machine.Run, Silenced, SteadySender, NeverRetracted;
    RunInTwo(cfg, w, now, before, sent);
    AddressesRefine(cfg, w, now, before + sent);
    LookupAgrees(Addresses(cfg, w, now, before + sent).table, name, ip);
  }

  /**
   From boot, with the register subscription just made: whatever the window, the resume delay and the outages,
   the answers at the end of a schedule list every steady sender if and only if the schedule is safe.
   */
  lemma {:induction false} AnswersCompleteIff(
      cfg: Machine.Config, w: int, now: int, before: seq<Event>, es: seq<Event>, name: string, ip: string, p: int)
    requires JustSubscribed(w, now, before) && cfg.staleness >= 0 && ip != ""
    requires Silent(es) && UnitSteps(es)
    requires var c, s := After(w, Boot(now), before), Registered(cfg, w, now, before);
             !After(w, c, es).closed && Prompt(cfg, w, c, FirstWatch(s), es)
    ensures (forall sent :: AnsweredAfter(cfg, w, now, before, es, sent, name, ip, p))
       <==> SafeAfter(cfg, w, now, before, es, p)
  {
    hide Silent, UnitSteps, Prompt, AnsweredAfter, ListedAfter, Safe, After, Emitted, Machine.Run, JustSubscribed;
    var c, s, k := After(w, Boot(now), before), Registered(cfg, w, now, before), (Fqdn(name), ip);
    SubscribedState(cfg, w, now, before);
    FqdnIdentifies(name, name);
    EverySenderListedIff(cfg, w, c, s, es, k, p);
    forall sent
      ensures AnsweredAfter(cfg, w, now, before, es, sent, name, ip, p) <==> ListedAfter(cfg, w, c, s, es, sent, k, p)
    {
      AnsweredIffListed(cfg, w, now, before, es, sent, name, ip, p);
    }
  }

  /** One half of it needs no unit steps and no prompt writes. */
  lemma {:induction false} SafeAnswersComplete(
      cfg: Machine.Config, w: int, now: int, before: seq<Event>, sent: seq<Event>, name: string, ip: string, p: int)
    requires JustSubscribed(w, now, before) && cfg.staleness >= 0 && ip != ""
    requires var c, k := After(w, Boot(now), before), (Fqdn(name), ip);
             !After(w, c, sent).closed && SteadySender(w, c, sent, k, p) && NeverRetracted(sent, k)
    requires SafeAfter(cfg, w, now, before, Silenced(sent), p)
    ensures ip in Lookup(Addresses(cfg, w, now, before + sent).table, name)
  {
    hide Safe, After, Emitted, Machine.Run, JustSubscribed, SteadySender, NeverRetracted, ListedAfter, Silenced;
    var c, s, k := After(w, Boot(now), before), Registered(cfg, w, now, before), (Fqdn(name), ip);
    SubscribedState(cfg, w, now, before);
    SilencedSame(cfg, w, c, FirstWatch(s), sent);
    SafeIsEnough(cfg, w, c, s, Silenced(sent), sent, k, p);
    AnsweredIffListed(cfg, w, now, before, Silenced(sent), sent, name, ip, p);
  }

  /** Once the table is warm, a connection that was up through the first window has been up through a window. */
  lemma WarmHasUpWindow(w: int, now: int, before: seq<Event>, es: seq<Event>, p: int)
    requires var c := After(w, Boot(now), before);
             && SubscribeRegister in c.live && c.live[SubscribeRegister] == c.now
             && Up(Moments(w, c, es), c.now, p)
    requires p <= w && After(w, Boot(now), before + es).warm
    ensures var c := After(w, Boot(now), before); UpWindow(Moments(w, c, es), c.now, After(w, c, es).now, p)
  {
    hide After, Moments;
    AfterAppend(w, Boot(now), before, es);
    LiveSince(w, now, before, es, SubscribeRegister);
    WarmMeansSubscribed(w, now, before + es, SubscribeRegister);
  }

  /** The connection was up through a window since the threshold before each threat of the schedule. */
  ghost predicate ThreatsMet(cfg: Machine.Config, w: int, now: int, before: seq<Event>, es: seq<Event>, p: int) {
    var c, v := After(w, Boot(now), before), FirstWatch(Registered(cfg, w, now, before));
    forall at :: at in Threats(cfg, w, c, v, es) ==>
      UpWindow(Moments(w, c, es), at - cfg.staleness, After(w, c, es).now, p)
  }

  /** So a warm table is complete when the connection was up through the first window and every threat is met. */
  lemma {:induction false} CompleteWhenUpFirst(
      cfg: Machine.Config, w: int, now: int, before: seq<Event>, sent: seq<Event>, name: string, ip: string, p: int)
    requires JustSubscribed(w, now, before) && cfg.staleness >= 0 && ip != "" && p <= w
    requires var c, k := After(w, Boot(now), before), (Fqdn(name), ip);
             && !After(w, c, sent).closed && SteadySender(w, c, sent, k, p) && NeverRetracted(sent, k)
             && Up(Moments(w, c, sent), c.now, p)
    requires After(w, Boot(now), before + sent).warm
    requires ThreatsMet(cfg, w, now, before, Silenced(sent), p)
    ensures ip in Lookup(Addresses(cfg, w, now, before + sent).table, name)
  {
    hide After, Emitted, Machine.Run, JustSubscribed, SteadySender, NeverRetracted, Silenced, Moments, UpWindow, Up;
    var c, s := After(w, Boot(now), before), Registered(cfg, w, now, before);
    SubscribedState(cfg, w, now, before);
    WarmHasUpWindow(w, now, before, sent, p);
    SilencedSame(cfg, w, c, FirstWatch(s), sent);
    SafeAnswersComplete(cfg, w, now, before, sent, name, ip, p);
  }
}
