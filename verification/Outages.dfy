/**
 Which schedules of outages and prune passes keep every steady sender listed, whoever else registers.
 A schedule is a run without messages; the senders are free to put theirs in.
 */
module Outages {
  import opened Controller
  import opened Entries
  import opened Pruning
  import opened Steady
  import opened Tables
  import Machine = TableMachine

  // ---------------------------------------------------------------- passes, without the table

  datatype Phase = Waiting | Admitted | Holding

  /** Where the pruner's pass stands, when pruning was last resumed, and when the last two passes scanned. */
  datatype Watch = Watch(lastResume: Option<int>, phase: Phase, completed: int, current: int)

  function PhaseOf(p: Machine.Pruner): Phase {
    match p
    case Idle => Waiting
    case PastGate => Admitted
    case Scanned(_) => Holding
  }

  function FirstWatch(s: Machine.State<Registry>): Watch {
    Watch(s.lastResume, PhaseOf(s.pruner), s.now, s.now)
  }

  predicate Admits(cfg: Machine.Config, d: Control, v: Watch) {
    !d.down && (v.lastResume.None? || d.now - v.lastResume.value >= cfg.resumeDelay)
  }

  function NextWatch(cfg: Machine.Config, d: Control, v: Watch, e: Event): Watch {
    match e
    case Reconnected => v.(lastResume := Some(d.now))
    case Gate => if v.phase.Waiting? && Admits(cfg, d, v) then v.(phase := Admitted) else v
    case Scan => if v.phase.Admitted? then v.(phase := Holding, current := d.now) else v
    case Write => if v.phase.Holding? then v.(phase := Waiting, completed := v.current) else v
    case _ => v
  }

  function Watched(cfg: Machine.Config, w: int, c: Control, v: Watch, es: seq<Event>): Watch {
    if es == [] then v else
      var init := es[..|es| - 1];
      NextWatch(cfg, After(w, c, init), Watched(cfg, w, c, v, init), es[|es| - 1])
  }

  /**
   An entry can be stale at the current scan: there was a moment to register that is too recent
   for the scan of the last completed pass and too old for the current one.
   */
  ghost predicate Overlooked(cfg: Machine.Config, ms: set<Control>, v: Watch) {
    exists d :: d in ms && !d.down && v.completed - cfg.staleness <= d.now < v.current - cfg.staleness
  }

  predicate Writes(v: Watch, e: Event) {
    e.Write? && v.phase.Holding?
  }

  /** The times of the writes whose candidates can hold any host. */
  ghost function Threats(cfg: Machine.Config, w: int, c: Control, v: Watch, es: seq<Event>): set<int> {
    if es == [] then {} else
      var init := es[..|es| - 1];
      var u := Watched(cfg, w, c, v, init);
      Threats(cfg, w, c, v, init)
      + if Writes(u, es[|es| - 1]) && Overlooked(cfg, Moments(w, c, init), u) then {After(w, c, init).now} else {}
  }

  /** Nothing is registered yet, and no pass under way has candidates. */
  ghost predicate Unpopulated(s: Machine.State<Registry>) {
    s.table == map[] && (s.pruner.Scanned? ==> s.pruner.candidates == {})
  }

  ghost predicate UpAt(ms: set<Control>, x: int) {
    exists d :: d in ms && !d.down && d.now == x
  }

  /** The table is where the watch says, and its entries as recent as the scans allow. */
  ghost predicate Follows(cfg: Machine.Config, t: Machine.State<Registry>, d: Control, v: Watch) {
    && t.now == d.now && t.paused == d.down
    && t.lastResume == v.lastResume && PhaseOf(t.pruner) == v.phase
    && SinceScan(cfg, t, Passes(v.completed, v.current))
  }

  /** Every entry was registered at a moment at which the connection was up. */
  ghost predicate Dated(t: Machine.State<Registry>, ms: set<Control>) {
    forall q :: q in t.table ==> UpAt(ms, t.table[q])
  }

  /** If the current pass has candidates, an entry was overlooked by the one before. */
  ghost predicate Explained(cfg: Machine.Config, t: Machine.State<Registry>, ms: set<Control>, v: Watch) {
    t.pruner.Scanned? && t.pruner.candidates != {} ==> Overlooked(cfg, ms, v)
  }

  function Handle(cfg: Machine.Config, d: Control, t: Machine.State<Registry>, e: Event): Machine.State<Registry> {
    var m := Emit(d, e);
    if m == [] then t else Machine.Step(cfg, t, m[0])
  }

  lemma FollowsStep(cfg: Machine.Config, w: int, t: Machine.State<Registry>, d: Control, v: Watch, e: Event)
    requires Follows(cfg, t, d, v) && cfg.staleness >= 0
    ensures Follows(cfg, Handle(cfg, d, t, e), Next(w, d, e), NextWatch(cfg, d, v, e))
  {
    ClockStep(cfg, w, d, t, e);
    var m := Emit(d, e);
    if m != [] {
      SinceScanStep(cfg, t, m[0], Passes(v.completed, v.current));
    }
    hide SinceScan;
  }

  lemma DatedStep(cfg: Machine.Config, t: Machine.State<Registry>, d: Control, ms: set<Control>, e: Event)
    requires Dated(t, ms) && d in ms && d.now == t.now
    ensures Dated(Handle(cfg, d, t, e), ms)
  {
    var m := Emit(d, e);
    if m != [] {
      forall q | q in Handle(cfg, d, t, e).table ensures UpAt(ms, Handle(cfg, d, t, e).table[q]) {
        StepAt(cfg, t, m[0], q);
      }
    }
  }

  lemma ExplainedStep(cfg: Machine.Config, t: Machine.State<Registry>, d: Control, v: Watch, ms: set<Control>, e: Event)
    requires Explained(cfg, t, ms, v) && Dated(t, ms) && Follows(cfg, t, d, v)
    ensures Explained(cfg, Handle(cfg, d, t, e), ms, NextWatch(cfg, d, v, e))
  {
    var u := Handle(cfg, d, t, e);
    if e.Scan? && t.pruner.PastGate? && u.pruner.candidates != {} {
      var h :| h in u.pruner.candidates;
      var q :| q in t.table && Stale(t.table[q], t.now, cfg.staleness) && q.0 == h;
      assert UpAt(ms, t.table[q]);
    }
  }

  lemma MoreMoments(cfg: Machine.Config, t: Machine.State<Registry>, ms: set<Control>, more: set<Control>, v: Watch)
    requires Explained(cfg, t, ms, v) && Dated(t, ms) && ms <= more
    ensures Explained(cfg, t, more, v) && Dated(t, more)
  {
    forall q | q in t.table ensures UpAt(more, t.table[q]) {
      assert UpAt(ms, t.table[q]);
    }
  }

  lemma HandleIs(cfg: Machine.Config, w: int, c: Control, s: Machine.State<Registry>, es: seq<Event>, e: Event)
    ensures Machine.Run(cfg, s, Emitted(w, c, es + [e]))
         == Handle(cfg, After(w, c, es), Machine.Run(cfg, s, Emitted(w, c, es)), e)
  {
    hide After, Emitted, Emit, Machine.Run, Machine.Step;
    EmitStep(cfg, w, c, s, es, e);
  }

  lemma MomentsOne(w: int, c: Control, es: seq<Event>)
    ensures After(w, c, es) in Moments(w, c, es)
    ensures es != [] ==> Moments(w, c, es) == Moments(w, c, es[..|es| - 1]) + {After(w, c, es)}
  {
  }

  lemma {:induction false} ExplainedRun(
      cfg: Machine.Config, w: int, c: Control, s: Machine.State<Registry>, es: seq<Event>)
    requires Listening(c, s) && Unpopulated(s) && cfg.staleness >= 0
    ensures var t, v := Machine.Run(cfg, s, Emitted(w, c, es)), Watched(cfg, w, c, FirstWatch(s), es);
            && Follows(cfg, t, After(w, c, es), v)
            && Dated(t, Moments(w, c, es)) && Explained(cfg, t, Moments(w, c, es), v)
  {
    hide Next, NextWatch, Handle, Machine.Step, Emit;
    if es != [] {
      var init, e := es[..|es| - 1], es[|es| - 1];
      ExplainedRun(cfg, w, c, s, init);
      hide Follows, Dated, Explained, Moments;
      var t, v, ms, d := Machine.Run(cfg, s, Emitted(w, c, init)), Watched(cfg, w, c, FirstWatch(s), init),
        Moments(w, c, init), After(w, c, init);
      MomentsOne(w, c, init);
      MomentsOne(w, c, es);
      ClocksAgree(cfg, w, c, s, init);
      FollowsStep(cfg, w, t, d, v, e);
      DatedStep(cfg, t, d, ms, e);
      ExplainedStep(cfg, t, d, v, ms, e);
      MoreMoments(cfg, Handle(cfg, d, t, e), ms, Moments(w, c, es), NextWatch(cfg, d, v, e));
      HandleIs(cfg, w, c, s, init, e);
      assert es == init + [e];
    }
  }

  /** Only a threat can have a host among its candidates, whatever the messages. */
  lemma {:induction false} PrunedAreThreats(
      cfg: Machine.Config, w: int, c: Control, s: Machine.State<Registry>, es: seq<Event>, h: string)
    requires Listening(c, s) && Unpopulated(s) && cfg.staleness >= 0
    ensures PrunedTimes(cfg, w, c, s, es, h) <= Threats(cfg, w, c, FirstWatch(s), es)
  {
    if es != [] {
      var init := es[..|es| - 1];
      PrunedAreThreats(cfg, w, c, s, init, h);
      ExplainedRun(cfg, w, c, s, init);
      hide After, Moments, Overlooked, Watched, Emitted, Machine.Run, SinceScan;
    }
  }

  // ---------------------------------------------------------------- schedules

  predicate IsMessage(e: Event) {
    e.Register? || e.Unregister?
  }

  /** The schedule of a run: what is left without the messages. */
  function Silenced(es: seq<Event>): seq<Event> {
    if es == [] then [] else
      var init, e := es[..|es| - 1], es[|es| - 1];
      if IsMessage(e) then Silenced(init) else Silenced(init) + [e]
  }

  lemma MessageKeeps(cfg: Machine.Config, w: int, c: Control, v: Watch, e: Event)
    requires IsMessage(e)
    ensures Next(w, c, e) == c && NextWatch(cfg, c, v, e) == v && !Writes(v, e)
  {
  }

  lemma NoMoments(cfg: Machine.Config, w: int, c: Control, v: Watch)
    ensures After(w, c, []) == c && Moments(w, c, []) == {c} && Watched(cfg, w, c, v, []) == v
  {
  }

  /** A run and one event more. */
  lemma OneMore(cfg: Machine.Config, w: int, c: Control, v: Watch, es: seq<Event>, e: Event)
    ensures After(w, c, es + [e]) == Next(w, After(w, c, es), e)
    ensures Moments(w, c, es + [e]) == Moments(w, c, es) + {Next(w, After(w, c, es), e)}
    ensures Watched(cfg, w, c, v, es + [e]) == NextWatch(cfg, After(w, c, es), Watched(cfg, w, c, v, es), e)
  {
    hide Next, NextWatch;
    assert (es + [e])[..|es|] == es;
  }

  lemma ThreatsOne(cfg: Machine.Config, w: int, c: Control, y: Watch, es: seq<Event>, e: Event)
    ensures var z, at := Watched(cfg, w, c, y, es), After(w, c, es).now;
            Threats(cfg, w, c, y, es + [e]) == Threats(cfg, w, c, y, es)
              + (if Writes(z, e) && Overlooked(cfg, Moments(w, c, es), z) then {at} else {})
  {
    hide After, Moments, Watched, Overlooked, Writes;
    assert (es + [e])[..|es|] == es;
  }

  /** Messages change nothing about the connection and the passes. */
  lemma {:induction false} SilencedSame(cfg: Machine.Config, w: int, c: Control, v: Watch, es: seq<Event>)
    ensures After(w, c, Silenced(es)) == After(w, c, es)
    ensures Moments(w, c, Silenced(es)) == Moments(w, c, es)
    ensures Watched(cfg, w, c, v, Silenced(es)) == Watched(cfg, w, c, v, es)
    ensures Threats(cfg, w, c, v, Silenced(es)) == Threats(cfg, w, c, v, es)
  {
    hide After, Next, Watched, NextWatch, Writes, Overlooked, Moments, Threats;
    if es != [] {
      var init, e := es[..|es| - 1], es[|es| - 1];
      var rest := Silenced(init);
      SilencedSame(cfg, w, c, v, init);
      assert es == init + [e];
      OneMore(cfg, w, c, v, init, e);
      ThreatsOne(cfg, w, c, v, init, e);
      if IsMessage(e) {
        MessageKeeps(cfg, w, After(w, c, init), Watched(cfg, w, c, v, init), e);
        MomentsOne(w, c, init);
      } else {
        OneMore(cfg, w, c, v, rest, e);
        ThreatsOne(cfg, w, c, v, rest, e);
      }
    }
  }

  /** The connection was up through a window, and through one since the threshold before each threat. */
  ghost predicate Safe(cfg: Machine.Config, w: int, c: Control, v: Watch, es: seq<Event>, p: int) {
    && UpWindow(Moments(w, c, es), c.now, After(w, c, es).now, p)
    && forall at :: at in Threats(cfg, w, c, v, es) ==>
         UpWindow(Moments(w, c, es), at - cfg.staleness, After(w, c, es).now, p)
  }

  /** If `sent` is the schedule `es` with messages put in, some of them those of a steady sender, it ends listed. */
  ghost predicate ListedAfter(
      cfg: Machine.Config, w: int, c: Control, s: Machine.State<Registry>,
      es: seq<Event>, sent: seq<Event>, k: Pair, p: int)
  {
    Silenced(sent) == es && SteadySender(w, c, sent, k, p) && NeverRetracted(sent, k)
    ==> k in Machine.Run(cfg, s, Emitted(w, c, sent)).table
  }

  lemma {:induction false} SafeIsEnough(
      cfg: Machine.Config, w: int, c: Control, s: Machine.State<Registry>,
      es: seq<Event>, sent: seq<Event>, k: Pair, p: int)
    requires Listening(c, s) && Unpopulated(s) && cfg.staleness >= 0 && !After(w, c, es).closed && k.1 != ""
    requires Safe(cfg, w, c, FirstWatch(s), es, p)
    ensures ListedAfter(cfg, w, c, s, es, sent, k, p)
  {
    hide After, Moments, Machine.Run, Emitted, HandledTimes, UpWindow, SteadySender;
    hide Threats, PrunedTimes, NeverRetracted;
    if Silenced(sent) == es && SteadySender(w, c, sent, k, p) && NeverRetracted(sent, k) {
      SilencedSame(cfg, w, c, FirstWatch(s), sent);
      PrunedAreThreats(cfg, w, c, s, sent, k.0);
      var r := HandledInUpWindow(w, c, sent, k, p, c.now);
      SteadyStaysListed(cfg, w, c, s, sent, k, p);
    }
  }
}
