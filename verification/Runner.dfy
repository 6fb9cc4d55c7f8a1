/**
 The runner: it hands each goroutine its share of the job, and its goroutines and callers share its
 stopped flag, its error channel and its quit channel. Driven by any schedule of their steps it
 follows the protocol of `Workers`.
 */
module Runner {
  import opened Partition
  import Workers

  datatype Range = Range(lo: int, hi: int)

  function Assignment(start: int, end: int, g: int): (r: seq<Range>)
    requires 1 <= g <= end - start
  {
    EdgesInBounds(start, end, g);
    var e := Edges(start, end, g);
    seq(g, id requires 0 <= id < g => Range(e[id], e[id + 1]))
  }

  /** The shares start at the start, follow each other, and have the sizes of `Partition.ShareSizes`. */
  lemma AssignmentSizes(start: int, end: int, g: int, id: int)
    requires 1 <= g <= end - start && 0 <= id < g
    ensures var a, n := Assignment(start, end, g), end - start;
            && |a| == g && a[0].lo == start && (id > 0 ==> a[id].lo == a[id - 1].hi)
            && a[id].hi - a[id].lo == n / g + if id == g - 1 && n % g < n / g then n % g else 0
  {
    ShareSizes(start, end, g, id);
    hide Edges;
  }

  class Runner {
    const startRange: int
    const endRange: int
    const numGoRoutines: int
    var stopped: bool
    var quitCloses: nat
    var errs: seq<nat>
    var workers: seq<Range>

    constructor (startRange: int, endRange: int, numGoRoutines: int)
      ensures this.startRange == startRange && this.endRange == endRange && this.numGoRoutines == numGoRoutines
      ensures !stopped && quitCloses == 0 && errs == [] && workers == []
    {
      this.startRange, this.endRange, this.numGoRoutines := startRange, endRange, numGoRoutines;
      stopped, quitCloses, errs, workers := false, 0, [], [];
    }

    /** A stopped runner cannot be started; otherwise every goroutine gets its share. */
    method Start() returns (ok: bool)
      requires 1 <= numGoRoutines <= endRange - startRange
      modifies this`workers
      ensures ok <==> !stopped
      ensures workers == old(workers) + if ok then Assignment(startRange, endRange, numGoRoutines) else []
    {
      if stopped {
        return false;
      }
      var numRoutes := endRange - startRange;
      Steps(numRoutes, numGoRoutines, 1);
      var rangeSize := numRoutes / numGoRoutines;
      var ranges := PartitionRange(startRange, endRange, rangeSize);
      EdgesInBounds(startRange, endRange, numGoRoutines);
      ghost var all := Assignment(startRange, endRange, numGoRoutines);
      for i := 0 to numGoRoutines
        invariant workers == old(workers) + all[..i]
      {
        workers := workers + [Range(ranges[i], ranges[i + 1])];
      }
      assert all[..numGoRoutines] == all;
      return true;
    }

    /** The state of the protocol: what the goroutines share, and where each of them stands. */
    ghost function Protocol(actors: seq<Workers.Actor>, failed: set<nat>): Workers.State
      reads this
    {
      Workers.State(actors, failed, errs, stopped, quitCloses)
    }

    /**
     One step of goroutine `i`; `ok` is the outcome of its call or choice. What the goroutines share is here
     the runner's own fields: the step reads and writes the stopped flag, the error channel and the quit
     channel in place, and nothing else of the protocol's state is the runner's.
     */
    method Perform(actors: seq<Workers.Actor>, failed: set<nat>, i: nat, ok: bool)
      returns (next: Workers.Actor, failed': set<nat>)
      requires numGoRoutines >= 0 && i < |actors|
      modifies this`stopped, this`quitCloses, this`errs
      ensures Protocol(actors[i := next], failed')
           == Workers.Move(numGoRoutines, old(Protocol(actors, failed)), i, ok)
    {
      next, failed' := actors[i], failed;
      match actors[i]
      case Initializing | Publishing =>
        if !ok {
          next, failed' := Workers.Posting, failed + {i};
        } else if actors[i].Initializing? {
          next := Workers.Publishing;
        } else {
          next := Workers.Selecting;
        }
      case Selecting =>
        if ok {
          next := Workers.Publishing;
        } else if quitCloses > 0 {
          next := Workers.Done;
        }
      case Posting =>
        if |errs| < numGoRoutines {
          errs := errs + [i];
          next := Workers.Checking;
        }
      case Checking =>
        next := if stopped then Workers.Done else Workers.Setting;
      case Setting =>
        stopped := true;
        next := Workers.Closing;
      case Closing =>
        quitCloses := quitCloses + 1;
        next := Workers.Done;
      case Unspawned | Done =>
    }

    /** The runner under any schedule of its goroutines and `others` callers of `Stop` follows the protocol. */
    method Drive(others: nat, es: seq<Workers.Event>) returns (actors: seq<Workers.Actor>, failed: set<nat>)
      requires numGoRoutines >= 0 && !stopped && quitCloses == 0 && errs == []
      modifies this`stopped, this`quitCloses, this`errs
      ensures Protocol(actors, failed) == Workers.Run(numGoRoutines, Workers.Start(numGoRoutines, others), es)
    {
      hide Workers.Move;
      actors, failed := seq(numGoRoutines + others, _ => Workers.Unspawned), {};
      ghost var s0 := Workers.Start(numGoRoutines, others);
      for n := 0 to |es|
        invariant Protocol(actors, failed) == Workers.Run(numGoRoutines, s0, es[..n])
      {
        var i := es[n].i;
        assert es[..n + 1][..n] == es[..n];
        if i < |actors| {
          match es[n]
          case Spawn(_) =>
            if actors[i].Unspawned? {
              actors := actors[i := if i < numGoRoutines then Workers.Initializing else Workers.Checking];
            }
          case Acts(_, ok) =>
            var next;
            next, failed := Perform(actors, failed, i, ok);
            actors := actors[i := next];
        }
      }
      assert es[..|es|] == es;
    }

    /** Takes the oldest error from the channel, if there is one. */
    method Wait() returns (err: Workers.Outcome)
      modifies this`errs
      ensures err == if old(errs) == [] then Workers.NoError else Workers.FirstError(old(errs)[0])
      ensures errs == if old(errs) == [] then [] else old(errs)[1..]
    {
      err := Workers.NoError;
      if |errs| > 0 {
        err := Workers.FirstError(errs[0]);
        errs := errs[1..];
      }
    }

    /**
     A runner that is started, driven by any schedule to the end of its goroutines, and waited for: `Wait`
     reports an error exactly when some goroutine failed, the error of one that did, and leaves those of the others.
     */
    method StartAndWait(others: nat, es: seq<Workers.Event>) returns (err: Workers.Outcome, failed: set<nat>)
      requires 1 <= numGoRoutines <= endRange - startRange && !stopped && quitCloses == 0 && errs == [] && workers == []
      requires Workers.WorkersDone(
                 numGoRoutines, Workers.Run(numGoRoutines, Workers.Start(numGoRoutines, others), es))
      modifies this
      ensures workers == Assignment(startRange, endRange, numGoRoutines)
      ensures failed == Workers.Run(numGoRoutines, Workers.Start(numGoRoutines, others), es).failed
      ensures err.FirstError? <==> failed != {}
      ensures Workers.Members(errs) == if err.FirstError? then failed - {err.worker} else {}
      ensures err.FirstError? ==> err.worker in failed
      ensures stopped && (err.NoError? ==> quitCloses > 0)
    {
      hide Workers.Run, Workers.WorkersDone;
      var started := Start();
      var actors;
      actors, failed := Drive(others, es);
      Workers.WaitReportsFailure(numGoRoutines, others, es);
      Workers.DoneMeansStopped(numGoRoutines, others, es);
      Workers.ErrorsDistinct(numGoRoutines, others, es);
      err := Wait();
    }
  }
}
