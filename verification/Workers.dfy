/**
 The goroutines of a runner and its callers, over every interleaving. `Stop` is taken
 as the program writes it, a check, an assignment and a close that other steps may
 separate. Actors below `g` are workers; the others only call `Stop`.
 */
module Workers {
  import opened Sequences

  datatype Actor =
    | Unspawned
    | Initializing
    | Publishing
    | Selecting
    | Posting
    | Checking
    | Setting
    | Closing
    | Done

  /** `errs` is the error channel, of capacity `g`: the workers whose errors it holds, in order. */
  datatype State = State(
    actors: seq<Actor>,
    failed: set<nat>,
    errs: seq<nat>,
    stopped: bool,
    closes: nat)

  datatype Event = Spawn(i: nat) | Acts(i: nat, ok: bool)

  function Start(g: nat, others: nat): State {
    State(seq(g + others, _ => Unspawned), {}, [], false, 0)
  }

  function Go(s: State, i: nat, a: Actor): State
    requires i < |s.actors|
  {
    s.(actors := s.actors[i := a])
  }

  /** The next move of an actor; a blocked or finished one does not move. In `Selecting`, `ok` is a heartbeat. */
  function Move(g: nat, s: State, i: nat, ok: bool): State
    requires i < |s.actors|
  {
    match s.actors[i]
    case Initializing => if ok then Go(s, i, Publishing) else Go(s.(failed := s.failed + {i}), i, Posting)
    case Publishing => if ok then Go(s, i, Selecting) else Go(s.(failed := s.failed + {i}), i, Posting)
    case Selecting => if ok then Go(s, i, Publishing) else if s.closes > 0 then Go(s, i, Done) else s
    case Posting => if |s.errs| < g then Go(s.(errs := s.errs + [i]), i, Checking) else s
    case Checking => if s.stopped then Go(s, i, Done) else Go(s, i, Setting)
    case Setting => Go(s.(stopped := true), i, Closing)
    case Closing => Go(s.(closes := s.closes + 1), i, Done)
    case _ => s
  }

  function Step(g: nat, s: State, e: Event): State {
    if e.i >= |s.actors| then s else
    match e
    case Spawn(i) => if s.actors[i] != Unspawned then s else Go(s, i, if i < g then Initializing else Checking)
    case Acts(i, ok) => Move(g, s, i, ok)
  }

  function Run(g: nat, s: State, es: seq<Event>): State {
    if es == [] then s else Step(g, Run(g, s, es[..|es| - 1]), es[|es| - 1])
  }

  // ---------------------------------------------------------------- errors

  predicate InStop(a: Actor) {
    a.Checking? || a.Setting? || a.Closing?
  }

  /** An actor fails at most once: it then is about to post its error, or has posted it and is in `Stop` or done. */
  predicate Fits(g: nat, s: State, i: nat)
    requires i < |s.actors|
  {
    var a := s.actors[i];
    && (i in s.failed <==> a.Posting? || i in s.errs)
    && (i in s.errs ==> InStop(a) || a.Done?)
    && (i < g && InStop(a) ==> i in s.errs)
    && (i >= g ==> i !in s.errs && (a.Unspawned? || InStop(a) || a.Done?))
  }

  ghost predicate Consistent(g: nat, s: State) {
    && |s.actors| >= g
    && NoRepeats(s.errs)
    && (forall i :: i in s.errs || i in s.failed ==> i < g)
    && (forall i :: 0 <= i < |s.actors| ==> Fits(g, s, i))
  }

  lemma StepConsistent(g: nat, s: State, e: Event)
    requires Consistent(g, s)
    ensures Consistent(g, Step(g, s, e))
  {
    var t := Step(g, s, e);
    if e.i < |s.actors| {
      assert Fits(g, s, e.i);
      assert t.errs == s.errs || (t.errs == s.errs + [e.i] && s.actors[e.i].Posting?);
      assert t.failed == s.failed || t.failed == s.failed + {e.i};
      forall j: nat | j < |t.actors| ensures Fits(g, t, j) {
        assert Fits(g, s, j);
        if j != e.i {
          assert t.actors[j] == s.actors[j];
          assert j in t.errs <==> j in s.errs;
        }
      }
    }
  }

  lemma {:induction false} RunConsistent(g: nat, others: nat, es: seq<Event>)
    ensures Consistent(g, Run(g, Start(g, others), es))
  {
    if es != [] {
      var init := es[..|es| - 1];
      RunConsistent(g, others, init);
      StepConsistent(g, Run(g, Start(g, others), init), es[|es| - 1]);
    }
  }

  function Below(g: nat): (r: set<nat>)
    ensures |r| == g && forall x: nat :: x in r <==> x < g
  {
    if g == 0 then {} else Below(g - 1) + {g - 1}
  }

  function Members(s: seq<nat>): set<nat> {
    set x | x in s
  }

  lemma {:induction false} CountDistinct(s: seq<nat>)
    requires NoRepeats(s)
    ensures |Members(s)| == |s|
  {
    if s == [] {
      assert Members(s) == {};
    } else {
      var n := |s| - 1;
      CountDistinct(s[..n]);
      assert Members(s) == Members(s[..n]) + {s[n]};
      assert s[n] !in Members(s[..n]);
    }
  }

  lemma {:induction false} SubsetCount(a: set<nat>, b: set<nat>)
    requires a <= b
    ensures |a| <= |b|
    decreases a
  {
    if x :| x in a {
      SubsetCount(a - {x}, b - {x});
    }
  }

  lemma FewerThan(s: seq<nat>, g: nat, missing: nat)
    requires NoRepeats(s) && (forall x :: x in s ==> x < g) && missing < g && missing !in s
    ensures |s| < g
  {
    CountDistinct(s);
    assert Members(s) + {missing} <= Below(g);
    SubsetCount(Members(s) + {missing}, Below(g));
    assert missing !in Members(s);
  }

  /** A worker that has an error to post is never blocked: the channel has room for it in every reachable state. */
  lemma PostNeverBlocks(g: nat, others: nat, es: seq<Event>, i: nat)
    requires i < g <= |Run(g, Start(g, others), es).actors| && Run(g, Start(g, others), es).actors[i].Posting?
    ensures |Run(g, Start(g, others), es).errs| < g
  {
    RunConsistent(g, others, es);
    assert Fits(g, Run(g, Start(g, others), es), i);
    FewerThan(Run(g, Start(g, others), es).errs, g, i);
  }

  predicate WorkersDone(g: nat, s: State) {
    |s.actors| >= g && forall i :: 0 <= i < g ==> s.actors[i].Done?
  }

  datatype Outcome = NoError | FirstError(worker: nat)

  /** What the first `Wait` returns once the workers are done: the oldest error, if there is one. */
  function WaitResult(s: State): Outcome {
    if |s.errs| > 0 then FirstError(s.errs[0]) else NoError
  }

  /** `Wait` returns an error exactly when some worker failed, and each failed worker has posted exactly one. */
  lemma WaitReportsFailure(g: nat, others: nat, es: seq<Event>)
    requires WorkersDone(g, Run(g, Start(g, others), es))
    ensures var s := Run(g, Start(g, others), es);
            && (WaitResult(s).FirstError? <==> s.failed != {})
            && (WaitResult(s).FirstError? ==> WaitResult(s).worker in s.failed)
            && Members(s.errs) == s.failed && |s.errs| == |s.failed|
  {
    RunConsistent(g, others, es);
    var s := Run(g, Start(g, others), es);
    CountDistinct(s.errs);
    forall i: nat ensures i in s.errs <==> i in s.failed {
      if i < g { assert Fits(g, s, i); }
    }
    assert Members(s.errs) == s.failed;
    if s.errs != [] { assert s.errs[0] in s.failed; }
  }

  lemma ErrorsDistinct(g: nat, others: nat, es: seq<Event>)
    ensures NoRepeats(Run(g, Start(g, others), es).errs)
  {
    RunConsistent(g, others, es);
  }

  // ---------------------------------------------------------------- failures and rounds

  /** The call that actor `i` makes, to initialise its publisher or to publish a round, fails. */
  predicate CallFails(s: State, e: Event) {
    e.Acts? && !e.ok && e.i < |s.actors| && (s.actors[e.i].Initializing? || s.actors[e.i].Publishing?)
  }

  function FailedCalls(g: nat, s: State, es: seq<Event>): set<nat> {
    if es == [] then {} else
      var init, e := es[..|es| - 1], es[|es| - 1];
      FailedCalls(g, s, init) + if CallFails(Run(g, s, init), e) then {e.i} else {}
  }

  /** The failed workers are those with a call that failed, each of which then posts its error. */
  lemma {:induction false} FailedIsFailedCalls(g: nat, others: nat, es: seq<Event>)
    ensures Run(g, Start(g, others), es).failed == FailedCalls(g, Start(g, others), es)
  {
    if es != [] {
      FailedIsFailedCalls(g, others, es[..|es| - 1]);
    }
  }

  predicate Posts(g: nat, s: State, e: Event) {
    e.Acts? && e.i < |s.actors| && s.actors[e.i].Posting? && |s.errs| < g
  }

  /** The workers that have posted, in the order in which they did. */
  function Posted(g: nat, s: State, es: seq<Event>): seq<nat> {
    if es == [] then [] else
      var init, e := es[..|es| - 1], es[|es| - 1];
      if Posts(g, Run(g, s, init), e) then Posted(g, s, init) + [e.i] else Posted(g, s, init)
  }

  /** The channel keeps the errors in order, and `Wait` returns the one posted first. */
  lemma {:induction false} ErrorsInOrder(g: nat, others: nat, es: seq<Event>)
    ensures var s, posted := Run(g, Start(g, others), es), Posted(g, Start(g, others), es);
            s.errs == posted && WaitResult(s) == if posted == [] then NoError else FirstError(posted[0])
  {
    if es != [] {
      ErrorsInOrder(g, others, es[..|es| - 1]);
    }
  }

  predicate Completes(s: State, e: Event, i: nat) {
    e == Acts(i, true) && i < |s.actors| && s.actors[i].Publishing?
  }

  predicate Beats(s: State, e: Event, i: nat) {
    e == Acts(i, true) && i < |s.actors| && s.actors[i].Selecting?
  }

  /** How many rounds worker `i` has published. */
  function Rounds(g: nat, s: State, es: seq<Event>, i: nat): nat {
    if es == [] then 0 else
      var init := es[..|es| - 1];
      Rounds(g, s, init, i) + if Completes(Run(g, s, init), es[|es| - 1], i) then 1 else 0
  }

  /** How many heartbeats it has had. */
  function Heartbeats(g: nat, s: State, es: seq<Event>, i: nat): nat {
    if es == [] then 0 else
      var init := es[..|es| - 1];
      Heartbeats(g, s, init, i) + if Beats(Run(g, s, init), es[|es| - 1], i) then 1 else 0
  }

  predicate InStep(a: Actor, failed: bool, rounds: nat, beats: nat) {
    match a
    case Unspawned => !failed && rounds == 0 && beats == 0
    case Initializing => !failed && rounds == 0 && beats == 0
    case Publishing => !failed && rounds == beats
    case Selecting => !failed && rounds == beats + 1
    case _ => rounds == if failed then beats else beats + 1
  }

  lemma RoundsStep(g: nat, s: State, e: Event, i: nat, rounds: nat, beats: nat)
    requires Consistent(g, s) && i < g && InStep(s.actors[i], i in s.failed, rounds, beats)
    ensures var t := Step(g, s, e);
            && i < |t.actors|
            && InStep(t.actors[i], i in t.failed, rounds + (if Completes(s, e, i) then 1 else 0),
                      beats + if Beats(s, e, i) then 1 else 0)
  {
    assert Fits(g, s, i);
  }

  /**
   A worker publishes one round when it has initialised and one for each heartbeat: while it waits it has
   published one more than its heartbeats, and so it has if it ended without failing.
   */
  lemma {:induction false} RoundsFollowHeartbeats(g: nat, others: nat, es: seq<Event>, i: nat)
    requires i < g
    ensures var s := Run(g, Start(g, others), es);
            && i < |s.actors|
            && InStep(s.actors[i], i in s.failed, Rounds(g, Start(g, others), es, i),
                      Heartbeats(g, Start(g, others), es, i))
  {
    hide Step, Completes, Beats, InStep, Consistent;
    if es == [] {
      StartsInStep(g, others, i);
    } else {
      var init := es[..|es| - 1];
      RoundsFollowHeartbeats(g, others, init, i);
      RunConsistent(g, others, init);
      RoundsStep(g, Run(g, Start(g, others), init), es[|es| - 1], i,
                 Rounds(g, Start(g, others), init, i), Heartbeats(g, Start(g, others), init, i));
    }
  }

  lemma StartsInStep(g: nat, others: nat, i: nat)
    requires i < g
    ensures var s := Start(g, others); InStep(s.actors[i], i in s.failed, 0, 0)
  {
  }

  // ---------------------------------------------------------------- why workers end

  /** A worker ends by its failure, and then the runner is stopped, or because the quit channel is closed. */
  predicate EndsFor(g: nat, s: State, i: nat)
    requires i < |s.actors|
  {
    var a := s.actors[i];
    && (a.Closing? ==> s.stopped)
    && (i < g && a.Done? ==> if i in s.failed then s.stopped else s.closes > 0)
  }

  ghost predicate Explained(g: nat, s: State) {
    && (s.closes > 0 ==> s.stopped)
    && (forall i :: 0 <= i < |s.actors| ==> EndsFor(g, s, i))
  }

  lemma StepExplained(g: nat, s: State, e: Event)
    requires Consistent(g, s) && Explained(g, s)
    ensures Explained(g, Step(g, s, e))
  {
    var t := Step(g, s, e);
    if e.i < |s.actors| {
      assert Fits(g, s, e.i) && EndsFor(g, s, e.i);
      assert t.failed == s.failed || (t.failed == s.failed + {e.i} && t.actors[e.i].Posting?);
      forall j: nat | j < |t.actors| ensures EndsFor(g, t, j) {
        assert EndsFor(g, s, j);
        if j != e.i {
          assert t.actors[j] == s.actors[j];
        }
      }
    }
  }

  lemma {:induction false} RunExplained(g: nat, others: nat, es: seq<Event>)
    ensures Explained(g, Run(g, Start(g, others), es))
  {
    if es != [] {
      var init := es[..|es| - 1];
      RunConsistent(g, others, init);
      RunExplained(g, others, init);
      StepExplained(g, Run(g, Start(g, others), init), es[|es| - 1]);
    }
  }

  lemma MovesOne(g: nat, s: State, e: Event, i: nat)
    requires i < |s.actors| && (s.actors[i].Done? || e.i != i)
    ensures |Step(g, s, e).actors| == |s.actors| && Step(g, s, e).actors[i] == s.actors[i]
  {
  }

  /** A goroutine that has ended takes no further step, and no step moves two of them. */
  lemma {:induction false} EndedStays(g: nat, s: State, es: seq<Event>, i: nat)
    requires i < |s.actors| && (s.actors[i].Done? || forall n :: 0 <= n < |es| ==> es[n].i != i)
    ensures |Run(g, s, es).actors| == |s.actors| && Run(g, s, es).actors[i] == s.actors[i]
  {
    hide Step;
    if es != [] {
      var init := es[..|es| - 1];
      EndedStays(g, s, init, i);
      MovesOne(g, Run(g, s, init), es[|es| - 1], i);
    }
  }

  /** When the workers are done the runner has been stopped; if `Wait` reports nothing, the quit channel was closed. */
  lemma DoneMeansStopped(g: nat, others: nat, es: seq<Event>)
    requires g > 0 && WorkersDone(g, Run(g, Start(g, others), es))
    ensures var s := Run(g, Start(g, others), es);
            s.stopped && (WaitResult(s).NoError? ==> s.closes > 0)
  {
    var s := Run(g, Start(g, others), es);
    RunExplained(g, others, es);
    WaitReportsFailure(g, others, es);
    assert EndsFor(g, s, 0);
  }

  // ---------------------------------------------------------------- closing the quit channel

  predicate ToClose(a: Actor) {
    a.Setting? || a.Closing?
  }

  /** Actors that found the runner not stopped and have yet to close the channel. */
  ghost function Closers(actors: seq<Actor>): set<int> {
    set i | 0 <= i < |actors| && ToClose(actors[i])
  }

  lemma SetMinus(x: set<int>, i: int)
    ensures |x - {i}| == |x| - if i in x then 1 else 0
  {
    if i in x {
      assert x == (x - {i}) + {i};
    } else {
      assert x == x - {i};
    }
  }

  lemma ClosersUpdate(actors: seq<Actor>, i: nat, a: Actor)
    requires i < |actors|
    ensures |Closers(actors[i := a])|
         == |Closers(actors)| - (if ToClose(actors[i]) then 1 else 0) + (if ToClose(a) then 1 else 0)
  {
    var x, y := Closers(actors), Closers(actors[i := a]);
    assert x - {i as int} == y - {i as int};
    SetMinus(x, i);
    SetMinus(y, i);
  }

  predicate FindsRunning(s: State, e: Event) {
    e.Acts? && e.i < |s.actors| && s.actors[e.i].Checking? && !s.stopped
  }

  /** How many checks found the runner not stopped. */
  function RunningChecks(g: nat, s: State, es: seq<Event>): nat {
    if es == [] then 0 else
      var init := es[..|es| - 1];
      RunningChecks(g, s, init) + if FindsRunning(Run(g, s, init), es[|es| - 1]) then 1 else 0
  }

  lemma ClosersStep(g: nat, s: State, e: Event)
    ensures var t := Step(g, s, e);
            t.closes + |Closers(t.actors)| == s.closes + |Closers(s.actors)| + if FindsRunning(s, e) then 1 else 0
  {
    var t := Step(g, s, e);
    if e.i < |s.actors| {
      assert t.actors == s.actors[e.i := t.actors[e.i]];
      ClosersUpdate(s.actors, e.i, t.actors[e.i]);
      hide Closers;
    }
  }

  /** The channel is closed once for each check that found the runner not stopped. */
  lemma {:induction false} ClosesAreRunningChecks(g: nat, others: nat, es: seq<Event>)
    ensures var s := Run(g, Start(g, others), es);
            s.closes + |Closers(s.actors)| == RunningChecks(g, Start(g, others), es)
  {
    if es == [] {
      assert Closers(Start(g, others).actors) == {};
    } else {
      var init := es[..|es| - 1];
      ClosesAreRunningChecks(g, others, init);
      ClosersStep(g, Run(g, Start(g, others), init), es[|es| - 1]);
    }
  }

  ghost predicate SomeSetting(s: State) {
    exists i :: 0 <= i < |s.actors| && s.actors[i].Setting?
  }

  /** A check finds the runner not stopped while another call of `Stop` is between its check and its assignment. */
  ghost predicate Overlaps(g: nat, s: State, es: seq<Event>) {
    exists n :: 0 <= n < |es| && FindsRunning(Run(g, s, es[..n]), es[n]) && SomeSetting(Run(g, s, es[..n]))
  }

  /** Once a check has found the runner not stopped, it is stopped or about to be. */
  lemma StaysArmed(g: nat, s: State, e: Event)
    ensures var t := Step(g, s, e);
            s.stopped || SomeSetting(s) || FindsRunning(s, e) ==> t.stopped || SomeSetting(t)
  {
    var t := Step(g, s, e);
    if FindsRunning(s, e) {
      assert t.actors[e.i].Setting?;
    } else if i :| 0 <= i < |s.actors| && s.actors[i].Setting? {
      assert e.i != i ==> t.actors[i].Setting?;
    }
  }

  lemma OverlapsPrefix(g: nat, s: State, es: seq<Event>)
    requires es != []
    ensures var init := es[..|es| - 1];
            Overlaps(g, s, es) <==>
              Overlaps(g, s, init) || (FindsRunning(Run(g, s, init), es[|es| - 1]) && SomeSetting(Run(g, s, init)))
  {
    hide Run, FindsRunning, SomeSetting;
    var init := es[..|es| - 1];
    assert forall n :: 0 <= n < |init| ==> init[..n] == es[..n];
  }

  lemma {:induction false} ChecksWithoutOverlap(g: nat, others: nat, es: seq<Event>)
    requires !Overlaps(g, Start(g, others), es)
    ensures var n, s := RunningChecks(g, Start(g, others), es), Run(g, Start(g, others), es);
            n == 0 || (n == 1 && (s.stopped || SomeSetting(s)))
  {
    if es != [] {
      var init := es[..|es| - 1];
      OverlapsPrefix(g, Start(g, others), es);
      ChecksWithoutOverlap(g, others, init);
      StaysArmed(g, Run(g, Start(g, others), init), es[|es| - 1]);
    }
  }

  lemma {:induction false} ChecksWithOverlap(g: nat, others: nat, es: seq<Event>)
    requires Overlaps(g, Start(g, others), es)
    ensures RunningChecks(g, Start(g, others), es) >= 2
  {
    var init := es[..|es| - 1];
    OverlapsPrefix(g, Start(g, others), es);
    if Overlaps(g, Start(g, others), init) {
      ChecksWithOverlap(g, others, init);
    } else {
      var s := Run(g, Start(g, others), init);
      var i :| 0 <= i < |s.actors| && s.actors[i].Setting?;
      ClosesAreRunningChecks(g, others, init);
      assert i in Closers(s.actors);
    }
  }

  /** The channel is closed twice, or about to be, exactly when some check overlaps another call of `Stop`. */
  lemma ClosesTwiceIffOverlap(g: nat, others: nat, es: seq<Event>)
    ensures var s := Run(g, Start(g, others), es);
            s.closes + |Closers(s.actors)| >= 2 <==> Overlaps(g, Start(g, others), es)
  {
    ClosesAreRunningChecks(g, others, es);
    if Overlaps(g, Start(g, others), es) {
      ChecksWithOverlap(g, others, es);
    } else {
      ChecksWithoutOverlap(g, others, es);
    }
  }

  /** No step separates a check that found the runner not stopped from its assignment. */
  ghost predicate Serial(g: nat, s: State, es: seq<Event>) {
    forall n, i :: 0 <= n < |es| && 0 <= i < |Run(g, s, es[..n]).actors| && Run(g, s, es[..n]).actors[i].Setting?
      ==> es[n].Acts? && es[n].i == i
  }

  /** When no step separates check and assignment, the channel is closed at most once. */
  lemma SerialStopClosesOnce(g: nat, others: nat, es: seq<Event>)
    requires Serial(g, Start(g, others), es)
    ensures Run(g, Start(g, others), es).closes <= 1
  {
    ClosesTwiceIffOverlap(g, others, es);
  }

  lemma {:induction false} RunAppend(g: nat, s: State, a: seq<Event>, b: seq<Event>)
    ensures Run(g, s, a + b) == Run(g, Run(g, s, a), b)
  {
    hide Step;
    if b == [] {
      assert a + b == a;
    } else {
      var init := b[..|b| - 1];
      RunAppend(g, s, a, init);
      assert (a + b)[..|a + b| - 1] == a + init;
    }
  }

  lemma RunTwo(g: nat, s: State, d: Event, e: Event)
    ensures Run(g, s, [d, e]) == Step(g, Step(g, s, d), e)
  {
    hide Step;
    assert [d, e][..1] == [d] && [d][..0] == [];
    assert Run(g, s, [d]) == Step(g, s, d);
  }

  /** Two calls of `Stop` that both check before either assigns. */
  function Overlap(i: nat, j: nat): seq<Event> {
    [Acts(i, true), Acts(j, true)] + [Acts(i, true), Acts(j, true)] + [Acts(i, true), Acts(j, true)]
  }

  lemma OverlapClosesTwice(g: nat, s: State, i: nat, j: nat)
    requires i < |s.actors| && j < |s.actors| && i != j
    requires s.actors[i].Checking? && s.actors[j].Checking? && !s.stopped
    ensures Run(g, s, Overlap(i, j)).closes == s.closes + 2
  {
    var x := [Acts(i, true), Acts(j, true)];
    RunTwo(g, s, Acts(i, true), Acts(j, true));
    var s1 := Run(g, s, x);
    RunTwo(g, s1, Acts(i, true), Acts(j, true));
    var s2 := Run(g, s1, x);
    RunTwo(g, s2, Acts(i, true), Acts(j, true));
    RunAppend(g, s, x, x);
    RunAppend(g, s, x + x, x);
  }

  /** Actor `i` starts and gets as far as its call of `Stop`: a worker by failing, any other at once. */
  function CallsStop(g: nat, i: nat): seq<Event> {
    if i < g then [Spawn(i), Acts(i, false)] + [Acts(i, true)] else [Spawn(i)]
  }

  lemma RunOne(g: nat, s: State, e: Event)
    ensures Run(g, s, [e]) == Step(g, s, e)
  {
    assert [e][..0] == [];
  }

  lemma CallsStopReaches(g: nat, s: State, i: nat)
    requires i < |s.actors| && s.actors[i].Unspawned? && (i < g ==> |s.errs| < g)
    ensures var t := Run(g, s, CallsStop(g, i));
            && t.actors == s.actors[i := Checking]
            && t.stopped == s.stopped && t.closes == s.closes && |t.errs| == |s.errs| + if i < g then 1 else 0
  {
    if i < g {
      RunAppend(g, s, [Spawn(i), Acts(i, false)], [Acts(i, true)]);
      RunTwo(g, s, Spawn(i), Acts(i, false));
      RunOne(g, Run(g, s, [Spawn(i), Acts(i, false)]), Acts(i, true));
    } else {
      RunOne(g, s, Spawn(i));
    }
  }

  /** As written, `Stop` can close the channel twice: any two callers, workers or not, can do it. */
  lemma TwoCallersCloseTwice(g: nat, others: nat, i: nat, j: nat)
    requires i < j < g + others
    ensures Run(g, Start(g, others), CallsStop(g, i) + CallsStop(g, j) + Overlap(i, j)).closes == 2
  {
    var s := Start(g, others);
    CallsStopReaches(g, s, i);
    var s1 := Run(g, s, CallsStop(g, i));
    CallsStopReaches(g, s1, j);
    var s2 := Run(g, s1, CallsStop(g, j));
    RunAppend(g, s, CallsStop(g, i), CallsStop(g, j));
    RunAppend(g, s, CallsStop(g, i) + CallsStop(g, j), Overlap(i, j));
    OverlapClosesTwice(g, s2, i, j);
  }

  /** At most one actor, which is done once it has closed the channel. */
  predicate Alone(s: State) {
    |s.actors| <= 1 && (s.closes == 0 || (s.closes == 1 && |s.actors| == 1 && s.actors[0].Done?))
  }

  lemma AloneStep(g: nat, s: State, e: Event)
    requires Alone(s)
    ensures Alone(Step(g, s, e))
  {
  }

  lemma {:induction false} LoneCallerClosesOnce(g: nat, others: nat, es: seq<Event>)
    requires g + others <= 1
    ensures Alone(Run(g, Start(g, others), es))
  {
    hide Step;
    if es != [] {
      var init := es[..|es| - 1];
      LoneCallerClosesOnce(g, others, init);
      AloneStep(g, Run(g, Start(g, others), init), es[|es| - 1]);
    }
  }

  ghost predicate ClosedAtMostOnce(g: nat, others: nat, es: seq<Event>) {
    Run(g, Start(g, others), es).closes <= 1
  }

  /** No schedule closes the quit channel twice if and only if at most one goroutine can call `Stop`. */
  lemma {:induction false} NeverClosedTwiceIff(g: nat, others: nat)
    ensures (forall es :: ClosedAtMostOnce(g, others, es)) <==> g + others <= 1
  {
    if g + others <= 1 {
      forall es ensures ClosedAtMostOnce(g, others, es) {
        LoneCallerClosesOnce(g, others, es);
      }
    } else {
      TwoCallersCloseTwice(g, others, 0, 1);
      assert !ClosedAtMostOnce(g, others, CallsStop(g, 0) + CallsStop(g, 1) + Overlap(0, 1));
    }
  }

  // ---------------------------------------------------------------- the way out

  /** A worker that has not failed and not ended. */
  predicate AtWork(a: Actor) {
    a.Initializing? || a.Publishing? || a.Selecting?
  }

  /** Its own steps to the end, its calls succeeding. */
  function Leave(i: nat, a: Actor): seq<Event>
    requires AtWork(a)
  {
    match a
    case Initializing => [Acts(i, true), Acts(i, true)] + [Acts(i, false)]
    case Publishing => [Acts(i, true), Acts(i, false)]
    case Selecting => [Acts(i, false)]
  }

  /** Once the quit channel is closed, every worker at work can end by its own steps, without failing. */
  lemma WorkerCanLeave(g: nat, s: State, i: nat)
    requires i < |s.actors| && AtWork(s.actors[i]) && s.closes > 0
    ensures Run(g, s, Leave(i, s.actors[i])) == s.(actors := s.actors[i := Done])
  {
    var a := s.actors[i];
    match a
    case Initializing =>
      RunAppend(g, s, [Acts(i, true), Acts(i, true)], [Acts(i, false)]);
      RunTwo(g, s, Acts(i, true), Acts(i, true));
      RunOne(g, Run(g, s, [Acts(i, true), Acts(i, true)]), Acts(i, false));
    case Publishing =>
      RunTwo(g, s, Acts(i, true), Acts(i, false));
    case Selecting =>
      RunOne(g, s, Acts(i, false));
  }

  /** Until then it cannot: it waits for the next heartbeat, publishes another round, and waits again. */
  lemma WaitsForHeartbeats(g: nat, s: State, i: nat)
    requires i < |s.actors| && s.actors[i].Selecting?
    ensures s.closes == 0 ==> Run(g, s, [Acts(i, false)]) == s
    ensures Run(g, s, [Acts(i, true), Acts(i, true)]) == s
    ensures Rounds(g, s, [Acts(i, true), Acts(i, true)], i) == 1
  {
    RunOne(g, s, Acts(i, false));
    RunOne(g, s, Acts(i, true));
    RunTwo(g, s, Acts(i, true), Acts(i, true));
    assert s.actors[i := Publishing][i := Selecting] == s.actors;
    var es := [Acts(i, true), Acts(i, true)];
    assert es[..1] == [Acts(i, true)] && es[..1][..0] == [];
    assert Run(g, s, es[..1]).actors[i].Publishing?;
    assert Rounds(g, s, [], i) == 0 && Rounds(g, s, es[..1], i) == 0;
  }

  /** Actor `g`, not a worker, calls `Stop`. */
  function OutsideStop(g: nat): seq<Event> {
    [Spawn(g), Acts(g, true)] + [Acts(g, true), Acts(g, true)]
  }

  /** The first `n` workers start, publish once and end. */
  function Pass(n: nat): seq<Event> {
    if n == 0 then [] else Pass(n - 1) + ([Spawn(n - 1)] + Leave(n - 1, Initializing))
  }

  lemma OutsideStopCloses(g: nat, others: nat)
    requires others > 0
    ensures var s := Start(g, others);
            Run(g, s, OutsideStop(g)) == s.(actors := s.actors[g := Done], stopped := true, closes := 1)
  {
    var s := Start(g, others);
    RunTwo(g, s, Spawn(g), Acts(g, true));
    RunAppend(g, s, [Spawn(g), Acts(g, true)], [Acts(g, true), Acts(g, true)]);
    RunTwo(g, Run(g, s, [Spawn(g), Acts(g, true)]), Acts(g, true), Acts(g, true));
  }

  lemma {:induction false} PassEnds(g: nat, s: State, n: nat)
    requires n <= g <= |s.actors| && s.closes > 0
    requires forall i :: 0 <= i < n ==> s.actors[i].Unspawned?
    ensures var t := Run(g, s, Pass(n));
            && t == s.(actors := t.actors) && |t.actors| == |s.actors|
            && (forall i :: 0 <= i < n ==> t.actors[i].Done?)
            && (forall i :: n <= i < |s.actors| ==> t.actors[i] == s.actors[i])
  {
    hide Step, Leave;
    if n > 0 {
      var i := n - 1;
      PassEnds(g, s, i);
      var t := Run(g, s, Pass(i));
      RunAppend(g, s, Pass(i), [Spawn(i)] + Leave(i, Initializing));
      OnePasses(g, t, i);
      hide Run;
    }
  }

  lemma OnePasses(g: nat, s: State, i: nat)
    requires i < g && i < |s.actors| && s.actors[i].Unspawned? && s.closes > 0
    ensures Run(g, s, [Spawn(i)] + Leave(i, Initializing)) == s.(actors := s.actors[i := Done])
  {
    hide Step, Leave;
    RunAppend(g, s, [Spawn(i)], Leave(i, Initializing));
    RunOne(g, s, Spawn(i));
    Spawned(g, s, i);
    WorkerCanLeave(g, Step(g, s, Spawn(i)), i);
    hide Run;
    assert s.actors[i := Initializing][i := Done] == s.actors[i := Done];
  }

  lemma Spawned(g: nat, s: State, i: nat)
    requires i < g && i < |s.actors| && s.actors[i].Unspawned?
    ensures Step(g, s, Spawn(i)) == s.(actors := s.actors[i := Initializing])
  {
  }

  /** So for every number of workers there is a run that one outside `Stop` ends without any error. */
  lemma CleanRun(g: nat, others: nat)
    requires others > 0
    ensures var s := Run(g, Start(g, others), OutsideStop(g) + Pass(g));
            WorkersDone(g, s) && s.failed == {} && WaitResult(s) == NoError && s.stopped && s.closes == 1
  {
    OutsideStopCloses(g, others);
    RunAppend(g, Start(g, others), OutsideStop(g), Pass(g));
    PassEnds(g, Run(g, Start(g, others), OutsideStop(g)), g);
  }
}
