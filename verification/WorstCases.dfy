/**
 The messages that lose a steady sender wherever the schedule allows it. The endpoint speaks whenever
 the connection is down, and before a time `b`; another one, of the same host, registers at a time
 `x` and never again, so that a later scan makes the host a candidate.
 */
module WorstCases {
  import opened Availability
  import opened Controller
  import opened Entries
  import opened Names
  import opened Outages
  import opened Pruning
  import opened Steady
  import opened Tables
  import Machine = TableMachine

  function Send(k: Pair): Event {
    Register(Decoded(k.1, [k.0]))
  }

  /** The endpoint, the other one of its host, and when they speak. */
  datatype Cast = Cast(k: Pair, q: Pair, b: int, x: int)

  predicate Proper(r: Cast) {
    r.k.0 == Fqdn(r.k.0) && r.q.0 == r.k.0 && r.k.1 != "" && r.q.1 != "" && r.q.1 != r.k.1
  }

  predicate Speaks(r: Cast, d: Control) {
    d.down || d.now < r.b
  }

  function Put(es: seq<Event>, now: bool, e: Event): seq<Event> {
    if now then es + [e] else es
  }

  /** The messages at the moment `d`, put after the run `es`. */
  function Spoken(r: Cast, d: Control, es: seq<Event>): seq<Event> {
    Put(Put(es, Speaks(r, d), Send(r.k)), d.now == r.x, Send(r.q))
  }

  /** The schedule with the messages of every moment put in. */
  function Played(w: int, c: Control, es: seq<Event>, r: Cast): seq<Event> {
    Spoken(r, After(w, c, es), if es == [] then [] else Played(w, c, es[..|es| - 1], r) + [es[|es| - 1]])
  }

  ghost predicate Silent(es: seq<Event>) {
    forall i :: 0 <= i < |es| ==> !IsMessage(es[i])
  }

  function SpokenTimes(w: int, c: Control, es: seq<Event>, r: Cast): set<int> {
    set d | d in Moments(w, c, es) && Speaks(r, d) :: d.now
  }

  // ---------------------------------------------------------------- the run that is played

  /** `a` is the schedule `b` with messages put in that do not retract the endpoint. */
  ghost predicate Plays(w: int, c: Control, a: seq<Event>, b: seq<Event>, k: Pair) {
    After(w, c, a) == After(w, c, b) && Silenced(a) == b && NeverRetracted(a, k)
  }

  lemma SendsItself(k: Pair, q: Pair)
    requires k.0 == Fqdn(k.0) && q.0 == k.0
    ensures Sends(Send(k), k) && !Retracts(Send(q), k) && (q.1 != k.1 ==> !Sends(Send(q), k))
  {
    assert Fqdn(k.0) in Normalised([k.0]);
  }

  lemma PutMessage(w: int, c: Control, a: seq<Event>, b: seq<Event>, now: bool, q: Pair, k: Pair)
    requires Plays(w, c, a, b, k) && k.0 == Fqdn(k.0) && q.0 == k.0
    ensures Plays(w, c, Put(a, now, Send(q)), b, k)
    ensures SentTimes(w, c, Put(a, now, Send(q)), k)
         == SentTimes(w, c, a, k) + if now && q.1 == k.1 then {After(w, c, b).now} else {}
  {
    var more := a + [Send(q)];
    assert more[..|a|] == a;
    SendsItself(k, q);
  }

  lemma PutEvent(w: int, c: Control, a: seq<Event>, b: seq<Event>, e: Event, k: Pair)
    requires Plays(w, c, a, b, k) && !IsMessage(e)
    ensures Plays(w, c, a + [e], b + [e], k)
    ensures SentTimes(w, c, a + [e], k) == SentTimes(w, c, a, k)
  {
    hide Next;
    assert (a + [e])[..|a|] == a && (b + [e])[..|b|] == b;
  }

  lemma SpokenTimesOne(w: int, c: Control, es: seq<Event>, r: Cast)
    ensures SpokenTimes(w, c, es, r)
         == (if es == [] then {} else SpokenTimes(w, c, es[..|es| - 1], r))
            + (if Speaks(r, After(w, c, es)) then {After(w, c, es).now} else {})
  {
    hide After;
  }

  lemma PutSpoken(w: int, c: Control, a: seq<Event>, b: seq<Event>, r: Cast)
    requires Plays(w, c, a, b, r.k) && Proper(r)
    ensures var d := After(w, c, b);
            && Plays(w, c, Spoken(r, d, a), b, r.k)
            && SentTimes(w, c, Spoken(r, d, a), r.k) == SentTimes(w, c, a, r.k) + if Speaks(r, d) then {d.now} else {}
  {
    hide Plays, SentTimes, After;
    var d := After(w, c, b);
    PutMessage(w, c, a, b, Speaks(r, d), r.k, r.k);
    PutMessage(w, c, Put(a, Speaks(r, d), Send(r.k)), b, d.now == r.x, r.q, r.k);
  }

  lemma PlaysNothing(w: int, c: Control, k: Pair)
    ensures Plays(w, c, [], [], k) && SentTimes(w, c, [], k) == {}
  {
  }

  lemma {:induction false} PlayedIs(w: int, c: Control, es: seq<Event>, r: Cast)
    requires Proper(r) && Silent(es)
    ensures Plays(w, c, Played(w, c, es, r), es, r.k)
    ensures SentTimes(w, c, Played(w, c, es, r), r.k) == SpokenTimes(w, c, es, r)
  {
    hide After, Spoken, Plays, SpokenTimes, SentTimes, Proper, Speaks;
    SpokenTimesOne(w, c, es, r);
    if es == [] {
      PlaysNothing(w, c, r.k);
      PutSpoken(w, c, [], [], r);
    } else {
      var init, e := es[..|es| - 1], es[|es| - 1];
      assert Silent(init);
      PlayedIs(w, c, init, r);
      PutEvent(w, c, Played(w, c, init, r), init, e, r.k);
      assert es == init + [e];
      PutSpoken(w, c, Played(w, c, init, r) + [e], es, r);
    }
  }

  // ---------------------------------------------------------------- it is steady

  /** Time passes in steps of one. */
  ghost predicate UnitSteps(es: seq<Event>) {
    forall i :: 0 <= i < |es| && es[i].Elapse? ==> es[i].d <= 1
  }

  /** So there is a moment at every time. */
  lemma {:induction false} MomentAt(w: int, c: Control, es: seq<Event>, x: int) returns (d: Control)
    requires UnitSteps(es) && c.now <= x <= After(w, c, es).now
    ensures d in Moments(w, c, es) && d.now == x
  {
    hide Next;
    d := After(w, c, es);
    if es != [] && x < d.now {
      var init := es[..|es| - 1];
      assert UnitSteps(init);
      NextKeeps(w, After(w, c, init), es[|es| - 1]);
      d := MomentAt(w, c, init, x);
    }
  }

  /** A window gone by is still up later on. */
  lemma UpWindowStays(w: int, c: Control, es: seq<Event>, start: int, p: int)
    requires es != []
    requires var init := es[..|es| - 1]; UpWindow(Moments(w, c, init), start, After(w, c, init).now, p)
    ensures UpWindow(Moments(w, c, es), start, After(w, c, es).now, p)
  {
    hide Next;
    var init := es[..|es| - 1];
    NextKeeps(w, After(w, c, init), es[|es| - 1]);
    var a :| start <= a && a + p <= After(w, c, init).now && Up(Moments(w, c, init), a, p);
    assert Up(Moments(w, c, es), a, p);
  }

  /** If no window from `b` on was up, the endpoint has spoken in every window gone by. */
  lemma SpokenInWindow(w: int, c: Control, es: seq<Event>, r: Cast, a: int, p: int)
    requires es != [] && UnitSteps(es) && p > 0
    requires !UpWindow(Moments(w, c, es), r.b, After(w, c, es).now, p)
    requires c.now <= a && a + p <= After(w, c, es).now
    ensures Covered(SpokenTimes(w, c, es[..|es| - 1], r), a, p)
  {
    var d: Control;
    if a < r.b {
      d := MomentAt(w, c, es, a);
    } else {
      assert !Up(Moments(w, c, es), a, p);
      d :| d in Moments(w, c, es) && a <= d.now < a + p && d.down;
    }
    hide After;
    assert d in Moments(w, c, es[..|es| - 1]);
    assert d.now in SpokenTimes(w, c, es[..|es| - 1], r);
  }

  lemma CoveredMore(small: set<int>, large: set<int>, a: int, p: int)
    requires small <= large && Covered(small, a, p)
    ensures Covered(large, a, p)
  {
  }

  /** One more message leaves a sender steady. */
  lemma StillSteady(w: int, c: Control, es: seq<Event>, e: Event, k: Pair, p: int)
    requires SteadySender(w, c, es, k, p) && IsMessage(e)
    ensures SteadySender(w, c, es + [e], k, p)
  {
    hide Covered, Sends;
    var more := es + [e];
    assert more[..|es|] == es;
    assert After(w, c, more) == After(w, c, es);
    forall a | c.now <= a && a + p <= After(w, c, more).now ensures Covered(SentTimes(w, c, more, k), a, p) {
      CoveredMore(SentTimes(w, c, es, k), SentTimes(w, c, more, k), a, p);
    }
  }

  lemma SpokenSteady(w: int, c: Control, es: seq<Event>, r: Cast, d: Control, p: int)
    requires SteadySender(w, c, es, r.k, p)
    ensures SteadySender(w, c, Spoken(r, d, es), r.k, p)
  {
    hide SteadySender;
    var first := Put(es, Speaks(r, d), Send(r.k));
    if Speaks(r, d) {
      StillSteady(w, c, es, Send(r.k), r.k, p);
    }
    if d.now == r.x {
      StillSteady(w, c, first, Send(r.q), r.k, p);
    }
  }

  lemma SteadyAtFirst(w: int, c: Control, k: Pair, p: int)
    requires p > 0
    ensures SteadySender(w, c, [], k, p)
  {
  }

  lemma {:induction false} PlayedIsSteady(w: int, c: Control, es: seq<Event>, r: Cast, p: int)
    requires Proper(r) && Silent(es) && UnitSteps(es) && p > 0
    requires !UpWindow(Moments(w, c, es), r.b, After(w, c, es).now, p)
    ensures SteadySender(w, c, Played(w, c, es, r), r.k, p)
  {
    hide Next, Spoken, Plays, UpWindow, Covered, After, Moments, SpokenTimes;
    if es == [] {
      SteadyAtFirst(w, c, r.k, p);
      hide SteadySender;
      SpokenSteady(w, c, [], r, After(w, c, es), p);
    } else {
      var init, e := es[..|es| - 1], es[|es| - 1];
      if UpWindow(Moments(w, c, init), r.b, After(w, c, init).now, p) {
        UpWindowStays(w, c, es, r.b, p);
      }
      assert Silent(init) && UnitSteps(init);
      PlayedIsSteady(w, c, init, r, p);
      PlayedIs(w, c, init, r);
      var sent := Played(w, c, init, r);
      PutEvent(w, c, sent, init, e, r.k);
      assert es == init + [e];
      PlaysAfter(w, c, sent + [e], es, r.k);
      forall a | c.now <= a && a + p <= After(w, c, es).now ensures Covered(SentTimes(w, c, sent + [e], r.k), a, p) {
        SpokenInWindow(w, c, es, r, a, p);
      }
      assert (sent + [e])[..|sent|] == sent;
      assert SteadySender(w, c, sent + [e], r.k, p);
      SpokenSteady(w, c, sent + [e], r, After(w, c, es), p);
    }
  }

  lemma PlaysAfter(w: int, c: Control, a: seq<Event>, b: seq<Event>, k: Pair)
    requires Plays(w, c, a, b, k)
    ensures After(w, c, a) == After(w, c, b)
  {
  }

  // ---------------------------------------------------------------- what it leaves in the table

  /** The endpoint is heard only before `b`. */
  predicate Hushed(r: Cast, t: Machine.State<Registry>) {
    r.k in t.table ==> t.table[r.k] < r.b
  }

  /**
   The host has no other endpoints. Once the other one has been heard, at a moment the endpoint was heard as
   well, it is listed until a completed pass scans too late for it, and it makes the host a candidate.
   */
  ghost predicate Staged(cfg: Machine.Config, r: Cast, t: Machine.State<Registry>, v: Watch, seen: bool) {
    && Hushed(r, t)
    && (forall ip :: (r.k.0, ip) in t.table ==> ip == r.k.1 || ip == r.q.1)
    && (r.q in t.table ==> t.table[r.q] == r.x <= t.now)
    && (r.q in t.table && r.k in t.table ==> t.table[r.k] >= r.x)
    && (seen && v.completed - cfg.staleness <= r.x ==> r.q in t.table)
    && (t.pruner.Scanned? && r.k.0 in t.pruner.candidates ==>
          v.current > r.x + cfg.staleness || v.current <= r.x)
    && (t.pruner.Scanned? && v.current > r.x + cfg.staleness && v.completed - cfg.staleness <= r.x ==>
          r.k.0 in t.pruner.candidates)
  }

  lemma ScanFinds(cfg: Machine.Config, t: Machine.State<Registry>, h: string) returns (ip: string)
    requires h in ScanStale(t.table, t.now, cfg.staleness)
    ensures (h, ip) in t.table && Stale(t.table[(h, ip)], t.now, cfg.staleness)
  {
    var q :| q in t.table && Stale(t.table[q], t.now, cfg.staleness) && q.0 == h;
    ip := q.1;
    assert q == (h, ip);
  }

  lemma StagedScan(cfg: Machine.Config, r: Cast, t: Machine.State<Registry>, d: Control, v: Watch, seen: bool)
    requires Proper(r) && cfg.staleness >= 0
    requires Staged(cfg, r, t, v, seen) && Follows(cfg, t, d, v) && (d.now > r.x ==> seen)
    ensures Staged(cfg, r, Handle(cfg, d, t, Scan), NextWatch(cfg, d, v, Scan), seen)
  {
    var u, h := Handle(cfg, d, t, Scan), r.k.0;
    if t.pruner.PastGate? {
      if h in u.pruner.candidates {
        var ip := ScanFinds(cfg, t, h);
      }
      if t.now > r.x + cfg.staleness && v.completed - cfg.staleness <= r.x {
        assert r.q in t.table && Stale(t.table[r.q], t.now, cfg.staleness);
        assert r.q.0 in ScanStale(t.table, t.now, cfg.staleness);
      }
    }
  }

  lemma StagedWrite(cfg: Machine.Config, r: Cast, t: Machine.State<Registry>, d: Control, v: Watch, seen: bool)
    requires Proper(r) && cfg.staleness >= 0
    requires Staged(cfg, r, t, v, seen) && Follows(cfg, t, d, v)
    requires v.phase.Holding? ==> d.now - v.current <= cfg.staleness
    ensures Staged(cfg, r, Handle(cfg, d, t, Write), NextWatch(cfg, d, v, Write), seen)
  {
    var u := Handle(cfg, d, t, Write);
    forall ip | (r.k.0, ip) in u.table ensures (r.k.0, ip) in t.table {
      StepAt(cfg, t, Machine.WriteTable, (r.k.0, ip));
    }
    StepAt(cfg, t, Machine.WriteTable, r.k);
    StepAt(cfg, t, Machine.WriteTable, r.q);
  }

  lemma StagedEvent(
      cfg: Machine.Config, r: Cast, t: Machine.State<Registry>, d: Control, v: Watch, seen: bool, e: Event)
    requires Proper(r) && cfg.staleness >= 0 && !IsMessage(e)
    requires Staged(cfg, r, t, v, seen) && Follows(cfg, t, d, v) && (d.now > r.x ==> seen)
    requires Writes(v, e) ==> d.now - v.current <= cfg.staleness
    ensures Staged(cfg, r, Handle(cfg, d, t, e), NextWatch(cfg, d, v, e), seen)
  {
    if e.Scan? {
      StagedScan(cfg, r, t, d, v, seen);
    } else if e.Write? {
      StagedWrite(cfg, r, t, d, v, seen);
    }
  }

  lemma Heard(cfg: Machine.Config, d: Control, t: Machine.State<Registry>, k: Pair)
    requires k.0 == Fqdn(k.0) && k.1 != ""
    ensures Handle(cfg, d, t, Send(k))
         == if Delivers(d, SubscribeRegister) then t.(table := t.table[k := t.now]) else t
  {
    if Delivers(d, SubscribeRegister) {
      var u := Handle(cfg, d, t, Send(k));
      SendsItself(k, k);
      assert Normalised([k.0]) == {k.0};
      SameRegistry(u.table, t.table[k := t.now]);
    }
  }

  /** What the messages of a moment do. */
  function Listen(cfg: Machine.Config, r: Cast, d: Control, t: Machine.State<Registry>): Machine.State<Registry> {
    var u := if Speaks(r, d) then Handle(cfg, d, t, Send(r.k)) else t;
    if d.now == r.x then Handle(cfg, d, u, Send(r.q)) else u
  }

  lemma ListenIs(cfg: Machine.Config, r: Cast, d: Control, t: Machine.State<Registry>)
    requires Proper(r) && SubscribeRegister in d.live && !d.closed
    ensures var u := if !d.down && d.now < r.b then t.table[r.k := t.now] else t.table;
            Listen(cfg, r, d, t) == t.(table := if !d.down && d.now == r.x then u[r.q := t.now] else u)
  {
    hide Handle;
    Heard(cfg, d, t, r.k);
    var u := if Speaks(r, d) then Handle(cfg, d, t, Send(r.k)) else t;
    Heard(cfg, d, u, r.q);
  }

  lemma StagedListen(
      cfg: Machine.Config, r: Cast, t: Machine.State<Registry>, d: Control, v: Watch, seen: bool)
    requires Proper(r) && r.x < r.b && SubscribeRegister in d.live && !d.closed && t.now == d.now
    requires Staged(cfg, r, t, v, seen)
    ensures Staged(cfg, r, Listen(cfg, r, d, t), v, seen || (!d.down && d.now == r.x))
  {
    hide Listen;
    ListenIs(cfg, r, d, t);
  }

  // ---------------------------------------------------------------- the endpoint is lost

  /** The table after the schedule is played. */
  function Stage(
      cfg: Machine.Config, w: int, c: Control, s: Machine.State<Registry>, es: seq<Event>, r: Cast)
    : Machine.State<Registry>
  {
    Machine.Run(cfg, s, Emitted(w, c, Played(w, c, es, r)))
  }

  lemma PutHandled(
      cfg: Machine.Config, w: int, c: Control, s: Machine.State<Registry>, es: seq<Event>, now: bool, k: Pair)
    ensures After(w, c, Put(es, now, Send(k))) == After(w, c, es)
    ensures var t := Machine.Run(cfg, s, Emitted(w, c, es));
            Machine.Run(cfg, s, Emitted(w, c, Put(es, now, Send(k))))
            == if now then Handle(cfg, After(w, c, es), t, Send(k)) else t
  {
    hide Emitted, Machine.Run, Handle;
    HandleIs(cfg, w, c, s, es, Send(k));
    AfterOne(w, c, es, Send(k));
    hide After;
  }

  lemma SpokenHandled(
      cfg: Machine.Config, w: int, c: Control, s: Machine.State<Registry>, es: seq<Event>, r: Cast)
    ensures var d := After(w, c, es);
            Machine.Run(cfg, s, Emitted(w, c, Spoken(r, d, es)))
            == Listen(cfg, r, d, Machine.Run(cfg, s, Emitted(w, c, es)))
  {
    hide After, Emitted, Machine.Run, Handle, Put;
    var d := After(w, c, es);
    PutHandled(cfg, w, c, s, es, Speaks(r, d), r.k);
    PutHandled(cfg, w, c, s, Put(es, Speaks(r, d), Send(r.k)), d.now == r.x, r.q);
  }

  /** One event of the schedule, and then the messages of the moment it leads to. */
  lemma StageStep(
      cfg: Machine.Config, w: int, c: Control, s: Machine.State<Registry>, es: seq<Event>, r: Cast)
    requires Proper(r) && Silent(es)
    ensures Stage(cfg, w, c, s, es, r) == Listen(cfg, r, After(w, c, es),
      if es == [] then s
      else Handle(cfg, After(w, c, es[..|es| - 1]), Stage(cfg, w, c, s, es[..|es| - 1], r), es[|es| - 1]))
  {
    hide Machine.Step, Listen, Handle, Spoken, Next, Emit;
    if es == [] {
      SpokenHandled(cfg, w, c, s, [], r);
    } else {
      var init, e := es[..|es| - 1], es[|es| - 1];
      var sent := Played(w, c, init, r);
      assert Silent(init);
      PlayedIs(w, c, init, r);
      PutEvent(w, c, sent, init, e, r.k);
      assert es == init + [e];
      hide Played, After, Emitted, Machine.Run;
      HandleIs(cfg, w, c, s, sent, e);
      SpokenHandled(cfg, w, c, s, sent + [e], r);
      assert Played(w, c, es, r) == Spoken(r, After(w, c, es), sent + [e]) by {
        PlayedLast(w, c, es, r);
      }
    }
  }

  lemma PlayedLast(w: int, c: Control, es: seq<Event>, r: Cast)
    requires es != []
    ensures Played(w, c, es, r)
         == Spoken(r, After(w, c, es), Played(w, c, es[..|es| - 1], r) + [es[|es| - 1]])
  {
    hide After, Spoken;
  }

  lemma StageFollows(
      cfg: Machine.Config, w: int, c: Control, s: Machine.State<Registry>, es: seq<Event>, r: Cast)
    requires Listening(c, s) && Unpopulated(s) && cfg.staleness >= 0 && Proper(r) && Silent(es)
    ensures Follows(cfg, Stage(cfg, w, c, s, es, r), After(w, c, es), Watched(cfg, w, c, FirstWatch(s), es))
    ensures Dated(Stage(cfg, w, c, s, es, r), Moments(w, c, es))
  {
    var sent := Played(w, c, es, r);
    PlayedIs(w, c, es, r);
    ExplainedRun(cfg, w, c, s, sent);
    SilencedSame(cfg, w, c, FirstWatch(s), sent);
    hide Played, After, Emitted, Machine.Run, Follows, Dated, Moments, Watched, Silenced;
  }

  /** Every write comes no longer after its scan than the threshold. */
  ghost predicate Prompt(cfg: Machine.Config, w: int, c: Control, v: Watch, es: seq<Event>) {
    es != [] ==>
      var init := es[..|es| - 1];
      var u := Watched(cfg, w, c, v, init);
      && Prompt(cfg, w, c, v, init)
      && (Writes(u, es[|es| - 1]) ==> After(w, c, init).now - u.current <= cfg.staleness)
  }

  lemma UpAtOne(w: int, c: Control, es: seq<Event>, x: int)
    requires es != []
    ensures var d, init := After(w, c, es), es[..|es| - 1];
            && (UpAt(Moments(w, c, es), x) <==> UpAt(Moments(w, c, init), x) || (!d.down && d.now == x))
            && (UpAt(Moments(w, c, es), x) && After(w, c, init).now > x ==> UpAt(Moments(w, c, init), x))
  {
    NextKeeps(w, After(w, c, es[..|es| - 1]), es[|es| - 1]);
    MomentsOne(w, c, es);
    hide Next, Moments;
    var d, before, after := After(w, c, es), Moments(w, c, es[..|es| - 1]), Moments(w, c, es);
    if UpAt(before, x) {
      var m :| m in before && !m.down && m.now == x;
      assert m in after;
    }
    if !d.down && d.now == x { assert d in after; }
  }

  lemma {:induction false} StagedRun(
      cfg: Machine.Config, w: int, c: Control, s: Machine.State<Registry>, es: seq<Event>, r: Cast)
    requires Listening(c, s) && Unpopulated(s) && cfg.staleness >= 0 && Proper(r) && c.now <= r.x < r.b
    requires Silent(es) && Prompt(cfg, w, c, FirstWatch(s), es) && !After(w, c, es).closed
    requires After(w, c, es).now > r.x ==> UpAt(Moments(w, c, es), r.x)
    ensures Staged(cfg, r, Stage(cfg, w, c, s, es, r), Watched(cfg, w, c, FirstWatch(s), es),
                   UpAt(Moments(w, c, es), r.x))
  {
    hide Stage, Staged, Listen, Handle, NextWatch, Next, UpAt, Moments, Follows, Dated, Proper, Writes;
    StageStep(cfg, w, c, s, es, r);
    StaysLive(w, c, es);
    if es == [] {
      StagedFirst(cfg, w, c, s, r);
    } else {
      var init, e := es[..|es| - 1], es[|es| - 1];
      assert Silent(init);
      var d, v, t := After(w, c, init), Watched(cfg, w, c, FirstWatch(s), init), Stage(cfg, w, c, s, init, r);
      UpAtOne(w, c, es, r.x);
      NextKeeps(w, d, e);
      StagedRun(cfg, w, c, s, init, r);
      StageFollows(cfg, w, c, s, init, r);
      StagedEvent(cfg, r, t, d, v, UpAt(Moments(w, c, init), r.x), e);
      FollowsStep(cfg, w, t, d, v, e);
      FollowsNow(cfg, Handle(cfg, d, t, e), After(w, c, es), NextWatch(cfg, d, v, e));
      StagedListen(cfg, r, Handle(cfg, d, t, e), After(w, c, es), NextWatch(cfg, d, v, e),
                   UpAt(Moments(w, c, init), r.x));
    }
  }

  lemma FollowsNow(cfg: Machine.Config, t: Machine.State<Registry>, d: Control, v: Watch)
    requires Follows(cfg, t, d, v)
    ensures t.now == d.now && v.completed <= v.current <= d.now
  {
  }

  lemma StagedFirst(cfg: Machine.Config, w: int, c: Control, s: Machine.State<Registry>, r: Cast)
    requires Listening(c, s) && Unpopulated(s) && cfg.staleness >= 0 && Proper(r) && c.now <= r.x < r.b
    ensures Staged(cfg, r, Listen(cfg, r, After(w, c, []), s), FirstWatch(s), UpAt(Moments(w, c, []), r.x))
  {
    hide Listen;
    assert UpAt(Moments(w, c, []), r.x) == (!c.down && c.now == r.x);
    assert Staged(cfg, r, s, FirstWatch(s), false);
    StagedListen(cfg, r, s, c, FirstWatch(s), false);
  }

  lemma {:induction false} HushedRun(
      cfg: Machine.Config, w: int, c: Control, s: Machine.State<Registry>, es: seq<Event>, r: Cast)
    requires Listening(c, s) && Unpopulated(s) && cfg.staleness >= 0 && Proper(r)
    requires Silent(es) && !After(w, c, es).closed
    ensures Hushed(r, Stage(cfg, w, c, s, es, r))
  {
    hide Stage, Listen, Handle, NextWatch, Next, Moments, Follows, Dated;
    StageStep(cfg, w, c, s, es, r);
    StaysLive(w, c, es);
    if es == [] {
      ListenIs(cfg, r, c, s);
    } else {
      var init, e := es[..|es| - 1], es[|es| - 1];
      assert Silent(init);
      var d, v, t := After(w, c, init), Watched(cfg, w, c, FirstWatch(s), init), Stage(cfg, w, c, s, init, r);
      HushedRun(cfg, w, c, s, init, r);
      StageFollows(cfg, w, c, s, init, r);
      EventAddsNone(cfg, d, t, e, r.k);
      FollowsStep(cfg, w, t, d, v, e);
      FollowsNow(cfg, Handle(cfg, d, t, e), After(w, c, es), NextWatch(cfg, d, v, e));
      ListenIs(cfg, r, After(w, c, es), Handle(cfg, d, t, e));
    }
  }

  lemma EventAddsNone(cfg: Machine.Config, d: Control, t: Machine.State<Registry>, e: Event, k: Pair)
    requires !IsMessage(e)
    ensures var u := Handle(cfg, d, t, e); k in u.table ==> k in t.table && u.table[k] == t.table[k]
  {
    var m := Emit(d, e);
    if m != [] {
      StepAt(cfg, t, m[0], k);
    }
  }

  /** From `b` on, what is gone stays gone. */
  lemma {:induction false} StaysGone(
      cfg: Machine.Config, w: int, c: Control, s: Machine.State<Registry>, pre: seq<Event>, post: seq<Event>, r: Cast)
    requires SubscribeRegister in c.live && Proper(r) && Silent(pre + post) && !After(w, c, pre + post).closed
    requires r.k !in Stage(cfg, w, c, s, pre, r).table && After(w, c, pre).now >= r.b
    ensures r.k !in Stage(cfg, w, c, s, pre + post, r).table && After(w, c, pre + post).now >= r.b
  {
    hide Stage, Listen, Handle, Next, Proper;
    var es := pre + post;
    if post == [] {
      assert es == pre;
    } else {
      var init, e := post[..|post| - 1], es[|es| - 1];
      assert es[..|es| - 1] == pre + init;
      assert Silent(pre + init);
      StaysLive(w, c, es);
      StaysGone(cfg, w, c, s, pre, init, r);
      NextKeeps(w, After(w, c, pre + init), e);
      StageStep(cfg, w, c, s, es, r);
      var t := Stage(cfg, w, c, s, pre + init, r);
      EventAddsNone(cfg, After(w, c, pre + init), t, e, r.k);
      NotHeard(cfg, r, After(w, c, es), Handle(cfg, After(w, c, pre + init), t, e));
    }
  }

  lemma NotHeard(cfg: Machine.Config, r: Cast, d: Control, t: Machine.State<Registry>)
    requires Proper(r) && SubscribeRegister in d.live && !d.closed && d.now >= r.b && r.k !in t.table
    ensures r.k !in Listen(cfg, r, d, t).table
  {
    ListenIs(cfg, r, d, t);
  }

  /** The write of a threat takes the endpoint with it. */
  lemma GoneAtWrite(
      cfg: Machine.Config, w: int, c: Control, s: Machine.State<Registry>, pre: seq<Event>, r: Cast)
    requires Listening(c, s) && Unpopulated(s) && cfg.staleness >= 0 && Proper(r) && c.now <= r.x < r.b
    requires Silent(pre) && Prompt(cfg, w, c, FirstWatch(s), pre) && !After(w, c, pre + [Write]).closed
    requires UpAt(Moments(w, c, pre), r.x) && r.b == After(w, c, pre).now - cfg.staleness
    requires var v := Watched(cfg, w, c, FirstWatch(s), pre);
             v.phase.Holding? && v.completed - cfg.staleness <= r.x < v.current - cfg.staleness
    ensures r.k !in Stage(cfg, w, c, s, pre + [Write], r).table && After(w, c, pre + [Write]).now >= r.b
  {
    var es := pre + [Write];
    assert es[..|pre|] == pre && es[|es| - 1] == Write;
    StaysLive(w, c, es);
    StaysLive(w, c, pre);
    hide Stage, Listen, Next, Moments, UpAt, Watched, After;
    AfterOne(w, c, pre, Write);
    NextKeeps(w, After(w, c, pre), Write);
    StagedRun(cfg, w, c, s, pre, r);
    StageFollows(cfg, w, c, s, pre, r);
    var t := Stage(cfg, w, c, s, pre, r);
    StepAt(cfg, t, Machine.WriteTable, r.k);
    assert r.k !in Handle(cfg, After(w, c, pre), t, Write).table;
    assert Silent(es);
    StageStep(cfg, w, c, s, es, r);
    NotHeard(cfg, r, After(w, c, es), Handle(cfg, After(w, c, pre), t, Write));
  }

  lemma {:induction false} ThreatAt(cfg: Machine.Config, w: int, c: Control, v: Watch, es: seq<Event>, at: int)
      returns (n: nat)
    requires at in Threats(cfg, w, c, v, es)
    ensures n < |es| && After(w, c, es[..n]).now == at && Writes(Watched(cfg, w, c, v, es[..n]), es[n])
    ensures Overlooked(cfg, Moments(w, c, es[..n]), Watched(cfg, w, c, v, es[..n]))
  {
    hide After, Overlooked, Moments, Watched;
    n := |es| - 1;
    var init := es[..n];
    if at in Threats(cfg, w, c, v, init) {
      n := ThreatAt(cfg, w, c, v, init, at);
      assert init[..n] == es[..n];
    }
  }

  lemma {:induction false} PromptPrefix(cfg: Machine.Config, w: int, c: Control, v: Watch, es: seq<Event>, n: nat)
    requires Prompt(cfg, w, c, v, es) && n <= |es|
    ensures Prompt(cfg, w, c, v, es[..n])
  {
    if n < |es| {
      PromptPrefix(cfg, w, c, v, es[..|es| - 1], n);
      assert es[..|es| - 1][..n] == es[..n];
    } else {
      assert es[..n] == es;
    }
  }

  // ---------------------------------------------------------------- the exact condition

  /** Another endpoint of the same host. */
  function Other(k: Pair): Pair {
    (k.0, k.1 + "'")
  }

  lemma NoEmptyWindow(ms: set<Control>, start: int, end: int, p: int)
    requires start <= end && !UpWindow(ms, start, end, p)
    ensures p > 0
  {
    assert p <= 0 ==> Up(ms, start, p);
  }

  lemma {:induction false} NeverHeard(
      cfg: Machine.Config, w: int, c: Control, s: Machine.State<Registry>, es: seq<Event>, k: Pair, p: int)
    requires Listening(c, s) && Unpopulated(s) && cfg.staleness >= 0 && !After(w, c, es).closed
    requires Silent(es) && UnitSteps(es) && k.0 == Fqdn(k.0) && k.1 != ""
    requires !UpWindow(Moments(w, c, es), c.now, After(w, c, es).now, p)
    ensures !ListedAfter(cfg, w, c, s, es, Played(w, c, es, Cast(k, Other(k), c.now, c.now)), k, p)
  {
    var r := Cast(k, Other(k), c.now, c.now);
    StaysLive(w, c, es);
    hide After, Moments, UpWindow, SteadySender, Played, Silenced;
    NoEmptyWindow(Moments(w, c, es), c.now, After(w, c, es).now, p);
    PlayedIs(w, c, es, r);
    PlayedIsSteady(w, c, es, r, p);
    HushedRun(cfg, w, c, s, es, r);
    StageFollows(cfg, w, c, s, es, r);
    ClockRuns(w, c, es, k);
  }

  /** The cast for a threat at the end of `pre`. */
  ghost predicate CastFor(cfg: Machine.Config, w: int, c: Control, v: Watch, pre: seq<Event>, r: Cast) {
    && Proper(r) && c.now <= r.x < r.b && r.b == After(w, c, pre).now - cfg.staleness
    && UpAt(Moments(w, c, pre), r.x)
    && v.phase.Holding? && v.completed - cfg.staleness <= r.x < v.current - cfg.staleness
  }

  lemma ChooseCast(cfg: Machine.Config, w: int, c: Control, s: Machine.State<Registry>, pre: seq<Event>, k: Pair)
      returns (r: Cast)
    requires Listening(c, s) && Unpopulated(s) && cfg.staleness >= 0 && Silent(pre)
    requires k.0 == Fqdn(k.0) && k.1 != ""
    requires var v := Watched(cfg, w, c, FirstWatch(s), pre);
             v.phase.Holding? && Overlooked(cfg, Moments(w, c, pre), v)
    ensures CastFor(cfg, w, c, Watched(cfg, w, c, FirstWatch(s), pre), pre, r) && r.k == k
  {
    hide Watched, Moments, After, Stage;
    var v := Watched(cfg, w, c, FirstWatch(s), pre);
    var d :| d in Moments(w, c, pre) && !d.down && v.completed - cfg.staleness <= d.now < v.current - cfg.staleness;
    r := Cast(k, Other(k), After(w, c, pre).now - cfg.staleness, d.now);
    ClockRuns(w, c, pre, k);
    StageFollows(cfg, w, c, s, pre, r);
    FollowsNow(cfg, Stage(cfg, w, c, s, pre, r), After(w, c, pre), v);
  }

  lemma {:induction false} GoneAtEnd(
      cfg: Machine.Config, w: int, c: Control, s: Machine.State<Registry>, es: seq<Event>, n: nat, r: Cast)
    requires Listening(c, s) && Unpopulated(s) && cfg.staleness >= 0 && !After(w, c, es).closed
    requires Silent(es) && Prompt(cfg, w, c, FirstWatch(s), es)
    requires n < |es| && es[n].Write?
    requires CastFor(cfg, w, c, Watched(cfg, w, c, FirstWatch(s), es[..n]), es[..n], r)
    ensures r.k !in Stage(cfg, w, c, s, es, r).table
  {
    hide Moments, Prompt, Watched, Stage, After, UpAt, Proper;
    var pre, post := es[..n], es[n + 1..];
    assert Silent(pre);
    assert pre + [Write] + post == es;
    PromptPrefix(cfg, w, c, FirstWatch(s), es, n);
    ClosedBefore(w, c, pre + [Write], post);
    GoneAtWrite(cfg, w, c, s, pre, r);
    StaysGone(cfg, w, c, s, pre + [Write], post, r);
  }

  lemma {:induction false} LostAtThreat(
      cfg: Machine.Config, w: int, c: Control, s: Machine.State<Registry>, es: seq<Event>, k: Pair, p: int, at: int)
      returns (r: Cast)
    requires Listening(c, s) && Unpopulated(s) && cfg.staleness >= 0 && !After(w, c, es).closed
    requires Silent(es) && UnitSteps(es) && k.0 == Fqdn(k.0) && k.1 != ""
    requires Prompt(cfg, w, c, FirstWatch(s), es)
    requires at in Threats(cfg, w, c, FirstWatch(s), es)
    requires !UpWindow(Moments(w, c, es), at - cfg.staleness, After(w, c, es).now, p)
    ensures !ListedAfter(cfg, w, c, s, es, Played(w, c, es, r), k, p)
  {
    hide Moments, UpWindow, SteadySender, Played, Silenced, Prompt, Threats, Watched, Stage, After;
    hide Listening, Unpopulated, UnitSteps, Overlooked, UpAt;
    var n := ThreatAt(cfg, w, c, FirstWatch(s), es, at);
    assert Silent(es[..n]);
    r := ChooseCast(cfg, w, c, s, es[..n], k);
    GoneAtEnd(cfg, w, c, s, es, n, r);
    assert es[..n] + es[n..] == es;
    AfterRuns(w, c, es[..n], es[n..]);
    NoEmptyWindow(Moments(w, c, es), at - cfg.staleness, After(w, c, es).now, p);
    PlayedIs(w, c, es, r);
    PlayedIsSteady(w, c, es, r, p);
    StageIs(cfg, w, c, s, es, r);
  }

  lemma StageIs(cfg: Machine.Config, w: int, c: Control, s: Machine.State<Registry>, es: seq<Event>, r: Cast)
    ensures Stage(cfg, w, c, s, es, r) == Machine.Run(cfg, s, Emitted(w, c, Played(w, c, es, r)))
  {
  }

  lemma AfterRuns(w: int, c: Control, a: seq<Event>, b: seq<Event>)
    ensures After(w, c, a).now <= After(w, c, a + b).now
  {
    hide After;
    AfterAppend(w, c, a, b);
    ClockRuns(w, After(w, c, a), b, ("", ""));
  }

  lemma {:induction false} ClosedBefore(w: int, c: Control, a: seq<Event>, b: seq<Event>)
    requires !After(w, c, a + b).closed
    ensures !After(w, c, a).closed
  {
    hide After;
    AfterAppend(w, c, a, b);
    if After(w, c, a).closed {
      StartupPersists(w, After(w, c, a), b);
    }
  }

  /**
   The exact condition on a schedule. Every steady sender, whoever else registers, is listed at its end if
   and only if the connection was up through a window, and through one since the threshold before each
   write whose candidates can hold a host.
   */
  lemma {:induction false} EverySenderListedIff(
      cfg: Machine.Config, w: int, c: Control, s: Machine.State<Registry>, es: seq<Event>, k: Pair, p: int)
    requires Listening(c, s) && Unpopulated(s) && cfg.staleness >= 0 && !After(w, c, es).closed
    requires Silent(es) && UnitSteps(es) && Prompt(cfg, w, c, FirstWatch(s), es)
    requires k.0 == Fqdn(k.0) && k.1 != ""
    ensures (forall sent :: ListedAfter(cfg, w, c, s, es, sent, k, p)) <==> Safe(cfg, w, c, FirstWatch(s), es, p)
  {
    hide After, Moments, UpWindow, ListedAfter, Listening, Unpopulated, Silent, UnitSteps, Prompt, Threats;
    var v := FirstWatch(s);
    if Safe(cfg, w, c, v, es, p) {
      forall sent ensures ListedAfter(cfg, w, c, s, es, sent, k, p) {
        SafeIsEnough(cfg, w, c, s, es, sent, k, p);
      }
    } else if UpWindow(Moments(w, c, es), c.now, After(w, c, es).now, p) {
      var at :| at in Threats(cfg, w, c, v, es)
                && !UpWindow(Moments(w, c, es), at - cfg.staleness, After(w, c, es).now, p);
      var r := LostAtThreat(cfg, w, c, s, es, k, p, at);
    } else {
      NeverHeard(cfg, w, c, s, es, k, p);
    }
  }
}
