/** The load generator from end to end: what one round of all workers leaves in an empty address table. */
module Populator {
  import opened Entries
  import opened Names
  import opened Partition
  import opened Publisher
  import opened Runner
  import opened Tables
  import C = Controller
  import Machine = TableMachine

  /** The job of one worker: the whole job with its own range. */
  function WorkerJob(j: Job, r: Range): Job {
    j.(startRange := r.lo, endRange := r.hi)
  }

  /** What a number of publishers have put on a subject, one after the other. */
  function Collected(subject: Subject, logs: seq<seq<Publication>>): seq<RouteData> {
    if logs == [] then [] else
      var n := |logs| - 1;
      Collected(subject, logs[..n]) + On(subject, logs[n])
  }

  ghost predicate Chained(shares: seq<Range>, start: int) {
    && (forall i :: 0 <= i < |shares| ==> shares[i].lo < shares[i].hi)
    && (shares != [] ==> shares[0].lo == start)
    && (forall i :: 0 < i < |shares| ==> shares[i].lo == shares[i - 1].hi)
  }

  lemma AssignmentIsChained(start: int, end: int, g: int)
    requires 1 <= g <= end - start
    ensures var a := Assignment(start, end, g);
            |a| == g && Chained(a, start) && a[g - 1].hi == Reached(start, end, g)
  {
    EdgesInBounds(start, end, g);
    forall id | 0 <= id < g ensures Edges(start, end, g)[id] < Edges(start, end, g)[id + 1] {
      SharesAreConsecutive(start, end, g, id);
    }
    SharesAreConsecutive(start, end, g, 0);
  }

  lemma RoundOfWorker(subject: Subject, j: Job, r: Range)
    ensures On(subject, Round(Routes(WorkerJob(j, r), r.lo, r.hi))) == Routes(j, r.lo, r.hi)
  {
    RoundOnEachSubject(subject, Routes(WorkerJob(j, r), r.lo, r.hi));
    assert forall i :: r.lo <= i < r.hi ==> Route(WorkerJob(j, r), i) == Route(j, i);
  }

  lemma {:induction false} ChainedEnd(shares: seq<Range>, start: int)
    requires Chained(shares, start) && shares != []
    ensures start < shares[|shares| - 1].hi
  {
    if |shares| > 1 {
      ChainedEnd(shares[..|shares| - 1], start);
    }
  }

  lemma RoutesAppend(j: Job, lo: int, mid: int, hi: int)
    requires lo <= mid <= hi
    ensures Routes(j, lo, mid) + Routes(j, mid, hi) == Routes(j, lo, hi)
  {
    hide Route;
  }

  lemma {:induction false} CollectedOfChain(
      subject: Subject, j: Job, shares: seq<Range>, logs: seq<seq<Publication>>, start: int)
    requires Chained(shares, start) && shares != [] && |logs| == |shares|
    requires forall i :: 0 <= i < |shares| ==>
               logs[i] == Round(Routes(WorkerJob(j, shares[i]), shares[i].lo, shares[i].hi))
    ensures Collected(subject, logs) == Routes(j, start, shares[|shares| - 1].hi)
  {
    hide On, Round, Routes;
    var n := |shares| - 1;
    RoundOfWorker(subject, j, shares[n]);
    if n > 0 {
      ChainedEnd(shares[..n], start);
      CollectedOfChain(subject, j, shares[..n], logs[..n], start);
      RoutesAppend(j, start, shares[n].lo, shares[n].hi);
    } else {
      assert Collected(subject, logs[..0]) == [];
    }
  }

  /** One worker: its publisher is initialised and publishes a round. */
  method Work(j: Job, share: Range) returns (log: seq<Publication>)
    requires Validates(j) && share.lo < share.hi
    ensures log == Round(Routes(WorkerJob(j, share), share.lo, share.hi))
  {
    var p := new Publisher(WorkerJob(j, share));
    var initialised := p.Initialize(true);
    var published := p.PublishRouteRegistrations(2 * |p.data|);
    log := p.log;
    assert [] + log == log;
  }

  lemma ReachedIsPast(start: int, end: int, g: int)
    requires 1 <= g <= end - start
    ensures start < Reached(start, end, g)
  {
    AssignmentIsChained(start, end, g);
    ChainedEnd(Assignment(start, end, g), start);
  }

  lemma SameRoutes(j: Job, lo: int, a: int, b: int)
    requires lo <= a && lo <= b
    ensures Routes(j, lo, a) == Routes(j, lo, b) <==> a == b
  {
    assert |Routes(j, lo, a)| == a - lo && |Routes(j, lo, b)| == b - lo;
  }

  /** Every worker's log is the round of its own share. */
  ghost predicate RoundsOf(j: Job, shares: seq<Range>, logs: seq<seq<Publication>>) {
    && |logs| == |shares|
    && forall i :: 0 <= i < |shares| ==>
         logs[i] == Round(Routes(WorkerJob(j, shares[i]), shares[i].lo, shares[i].hi))
  }

  lemma RoundsCoverExactly(subject: Subject, j: Job, g: int, logs: seq<seq<Publication>>)
    requires 1 <= g <= j.endRange - j.startRange
    requires RoundsOf(j, Assignment(j.startRange, j.endRange, g), logs)
    ensures var published, n := Collected(subject, logs), j.endRange - j.startRange;
            && published == Routes(j, j.startRange, Reached(j.startRange, j.endRange, g))
            && (published == Routes(j, j.startRange, j.endRange) <==> n % g < n / g)
  {
    hide Routes, Round, Edges, Chained, Collected;
    AssignmentIsChained(j.startRange, j.endRange, g);
    ExactCoverage(j.startRange, j.endRange, g);
    ReachedIsPast(j.startRange, j.endRange, g);
    CollectedOfChain(subject, j, Assignment(j.startRange, j.endRange, g), logs, j.startRange);
    SameRoutes(j, j.startRange, Reached(j.startRange, j.endRange, g), j.endRange);
  }

  method WorkAll(j: Job, shares: seq<Range>) returns (logs: seq<seq<Publication>>)
    requires Validates(j) && forall i :: 0 <= i < |shares| ==> shares[i].lo < shares[i].hi
    ensures RoundsOf(j, shares, logs)
  {
    hide Routes, Round;
    logs := [];
    for id := 0 to |shares|
      invariant RoundsOf(j, shares[..id], logs)
    {
      var log := Work(j, shares[id]);
      logs := logs + [log];
    }
    assert shares[..|shares|] == shares;
  }

  /**
   One full round of a runner's workers. On either subject they publish, once and in order, the
   routes their shares reach, which are all the routes exactly under the coverage condition.
   */
  method PublishRound(j: Job, g: int) returns (logs: seq<seq<Publication>>)
    requires Validates(j) && 1 <= g <= j.endRange - j.startRange
    ensures forall subject ::
              Collected(subject, logs) == Routes(j, j.startRange, Reached(j.startRange, j.endRange, g))
    ensures var n := j.endRange - j.startRange;
            forall subject :: Collected(subject, logs) == Routes(j, j.startRange, j.endRange) <==> n % g < n / g
  {
    AssignmentIsChained(j.startRange, j.endRange, g);
    var r := new Runner(j.startRange, j.endRange, g);
    var started := r.Start();
    hide Routes, Reached, Edges, RoundsOf, Collected, Validates, Assignment;
    assert r.workers == Assignment(j.startRange, j.endRange, g);
    logs := WorkAll(j, r.workers);
    forall subject
      ensures Collected(subject, logs) == Routes(j, j.startRange, Reached(j.startRange, j.endRange, g))
      ensures var n := j.endRange - j.startRange;
              Collected(subject, logs) == Routes(j, j.startRange, j.endRange) <==> n % g < n / g
    {
      RoundsCoverExactly(subject, j, g, logs);
    }
  }

  // ---------------------------------------------------------------- the table

  /** The table after the messages have been handled, each at its own time. */
  function Feed(t: Table, msgs: seq<RouteData>, times: seq<int>): Table
    requires |times| == |msgs|
  {
    if msgs == [] then t else
      var n := |msgs| - 1;
      AddAll(Feed(t, msgs[..n], times[..n]), msgs[n].uris, msgs[n].host, times[n])
  }

  function HostOf(r: RouteData): string {
    if |r.uris| == 1 then Fqdn(r.uris[0]) else ""
  }

  ghost predicate Named(msgs: seq<RouteData>, h: string) {
    exists i :: 0 <= i < |msgs| && HostOf(msgs[i]) == h
  }

  /** Messages of one backend, each for a single name. */
  ghost predicate Simple(msgs: seq<RouteData>, ip: string) {
    forall i :: 0 <= i < |msgs| ==> |msgs[i].uris| == 1 && msgs[i].host == ip
  }

  lemma TouchAlone(es: seq<Entry>, ip: string, now: int)
    requires IPs(es) == [] || IPs(es) == [ip]
    ensures IPs(Touch(es, ip, now)) == [ip]
  {
    if IPs(es) == [ip] {
      assert es[0].ip == ip;
      assert IndexOf(es, ip) == 0;
    } else {
      assert es == [];
    }
  }

  lemma NamedPrefix(msgs: seq<RouteData>, h: string)
    requires msgs != [] && HostOf(msgs[|msgs| - 1]) != h
    ensures Named(msgs, h) <==> Named(msgs[..|msgs| - 1], h)
  {
    var init := msgs[..|msgs| - 1];
    if Named(msgs, h) {
      var i :| 0 <= i < |msgs| && HostOf(msgs[i]) == h;
      assert HostOf(init[i]) == h;
    }
    if Named(init, h) {
      var i :| 0 <= i < |init| && HostOf(init[i]) == h;
      assert HostOf(msgs[i]) == h;
    }
  }

  lemma NormalisedOne(name: string)
    ensures Normalised([name]) == {Fqdn(name)}
  {
  }

  /** Whatever the messages' order and times, each host they name lists just the backend, and no other host is there. */
  lemma {:induction false} FeedHosts(msgs: seq<RouteData>, times: seq<int>, ip: string, h: string)
    requires |times| == |msgs| && Simple(msgs, ip)
    ensures var t := Feed(map[], msgs, times);
            && (h in t <==> Named(msgs, h))
            && IPs(EntriesFor(t, h)) == if h in t then [ip] else []
  {
    if msgs != [] {
      var n := |msgs| - 1;
      var before, m := Feed(map[], msgs[..n], times[..n]), msgs[n];
      FeedHosts(msgs[..n], times[..n], ip, h);
      AddAllHosts(before, m.uris, ip, times[n], h);
      assert m.uris == [m.uris[0]];
      NormalisedOne(m.uris[0]);
      hide AddAll, Touch, EntriesFor, Normalised;
      if h == HostOf(m) {
        TouchAlone(EntriesFor(before, h), ip, times[n]);
        assert HostOf(msgs[n]) == h;
      } else {
        NamedPrefix(msgs, h);
      }
    }
  }

  /** The absolute name of route `i`. */
  function RouteHost(j: Job, i: int): string {
    Fqdn(Hostname(j, i))
  }

  lemma LastOfHostname(j: Job, i: int)
    requires j.appDomain != ""
    ensures IsFqdn(Hostname(j, i)) == IsFqdn(j.appDomain)
  {
    hide Decimal;
    var x := Hostname(j, i);
    assert x[|x| - 1] == j.appDomain[|j.appDomain| - 1];
  }

  lemma HostsDistinct(j: Job, a: int, b: int)
    requires j.appDomain != "" && RouteHost(j, a) == RouteHost(j, b)
    ensures a == b
  {
    LastOfHostname(j, a);
    LastOfHostname(j, b);
    FqdnIdentifies(Hostname(j, a), Hostname(j, b));
    assert Hostname(j, a) == Hostname(j, b) by {
      hide Hostname;
      if !IsFqdn(j.appDomain) {
        assert !IsFqdn(Hostname(j, a)) && !IsFqdn(Hostname(j, b));
      }
    }
    HostnamesDistinct(j, a, b);
  }

  function HostSet(j: Job, lo: int, hi: int): (r: set<string>)
    requires lo <= hi
    decreases hi - lo
  {
    if lo == hi then {} else HostSet(j, lo, hi - 1) + {RouteHost(j, hi - 1)}
  }

  ghost predicate Reaches(j: Job, lo: int, hi: int, h: string) {
    exists i :: lo <= i < hi && RouteHost(j, i) == h
  }

  lemma {:induction false} HostSetHas(j: Job, lo: int, hi: int, h: string)
    requires lo <= hi
    ensures h in HostSet(j, lo, hi) <==> Reaches(j, lo, hi, h)
    decreases hi - lo
  {
    hide RouteHost;
    if lo < hi {
      HostSetHas(j, lo, hi - 1, h);
    }
  }

  lemma {:induction false} HostSetSize(j: Job, lo: int, hi: int)
    requires lo <= hi && j.appDomain != ""
    ensures |HostSet(j, lo, hi)| == hi - lo
    decreases hi - lo
  {
    hide RouteHost;
    if lo < hi {
      HostSetSize(j, lo, hi - 1);
      var h := RouteHost(j, hi - 1);
      HostSetHas(j, lo, hi - 1, h);
      if h in HostSet(j, lo, hi - 1) {
        var i :| lo <= i < hi - 1 && RouteHost(j, i) == h;
        HostsDistinct(j, i, hi - 1);
      }
    }
  }

  lemma RoutesAt(j: Job, lo: int, hi: int, i: int)
    requires lo <= i < hi
    ensures var r := Routes(j, lo, hi)[i - lo];
            |r.uris| == 1 && r.host == j.backendHost && HostOf(r) == RouteHost(j, i)
  {
  }

  lemma Occurs(a: seq<RouteData>, b: seq<RouteData>, i: int) returns (k: int)
    requires multiset(a) == multiset(b) && 0 <= i < |a|
    ensures 0 <= k < |b| && b[k] == a[i]
  {
    assert a[i] in multiset(b);
    k :| 0 <= k < |b| && b[k] == a[i];
  }

  lemma RearrangedIsSimple(j: Job, lo: int, hi: int, msgs: seq<RouteData>)
    requires lo <= hi && multiset(msgs) == multiset(Routes(j, lo, hi))
    ensures Simple(msgs, j.backendHost)
  {
    hide Route, HostOf, RouteHost;
    forall i | 0 <= i < |msgs| ensures |msgs[i].uris| == 1 && msgs[i].host == j.backendHost {
      var k := Occurs(msgs, Routes(j, lo, hi), i);
      RoutesAt(j, lo, hi, lo + k);
    }
  }

  lemma RearrangedNames(j: Job, lo: int, hi: int, msgs: seq<RouteData>, h: string)
    requires lo <= hi && multiset(msgs) == multiset(Routes(j, lo, hi))
    ensures Named(msgs, h) <==> Reaches(j, lo, hi, h)
  {
    hide Route, HostOf, RouteHost;
    if Named(msgs, h) {
      var i :| 0 <= i < |msgs| && HostOf(msgs[i]) == h;
      var k := Occurs(msgs, Routes(j, lo, hi), i);
      RoutesAt(j, lo, hi, lo + k);
      assert RouteHost(j, lo + k) == h;
    }
    if Reaches(j, lo, hi, h) {
      var i :| lo <= i < hi && RouteHost(j, i) == h;
      RoutesAt(j, lo, hi, i);
      var k := Occurs(Routes(j, lo, hi), msgs, i - lo);
      assert HostOf(msgs[k]) == h;
    }
  }

  // ---------------------------------------------------------------- through the controller

  /** The messages reach the controller one by one, each after a time of its own. */
  function Delivery(msgs: seq<RouteData>, gaps: seq<nat>): seq<C.Event>
    requires |gaps| == |msgs|
  {
    if msgs == [] then [] else
      var n := |msgs| - 1;
      Delivery(msgs[..n], gaps[..n]) + [C.Elapse(gaps[n])] + [C.Register(C.Decoded(msgs[n].host, msgs[n].uris))]
  }

  /** The controller takes every message that names a host and a route. */
  lemma MessageAccepted(c: C.Control, r: RouteData)
    requires C.Delivers(c, C.SubscribeRegister) && r.host != "" && r.uris != []
    ensures C.Emit(c, C.Register(C.Decoded(r.host, r.uris))) == [Machine.Add(r.uris, r.host)]
  {
  }

  lemma EmitOnTable(cfg: Machine.Config, w: int, c: C.Control, s: Machine.State<Table>, es: seq<C.Event>, e: C.Event)
    requires |C.Emit(C.After(w, c, es), e)| == 1
    ensures Machine.TableRun(cfg, s, C.Emitted(w, c, es + [e]))
         == Machine.TableStep(cfg, Machine.TableRun(cfg, s, C.Emitted(w, c, es)), C.Emit(C.After(w, c, es), e)[0])
  {
    hide C.Next, C.Emit, Machine.TableStep;
    C.AfterOne(w, c, es, e);
    var sent, m := C.Emitted(w, c, es), C.Emit(C.After(w, c, es), e);
    assert (sent + m)[..|sent|] == sent;
  }

  lemma AfterMessage(
      cfg: Machine.Config, w: int, c: C.Control, s: Machine.State<Table>, es: seq<C.Event>, gap: nat, r: RouteData)
    requires C.Delivers(C.After(w, c, es), C.SubscribeRegister) && r.host != "" && r.uris != []
    ensures var all := es + [C.Elapse(gap)] + [C.Register(C.Decoded(r.host, r.uris))];
            var t, u := Machine.TableRun(cfg, s, C.Emitted(w, c, es)), Machine.TableRun(cfg, s, C.Emitted(w, c, all));
            && C.Delivers(C.After(w, c, all), C.SubscribeRegister)
            && u.now == t.now + gap && u.table == AddAll(t.table, r.uris, r.host, u.now)
  {
    hide AddAll, Machine.TableRun, C.After, C.Emitted;
    var e, m := C.Elapse(gap), C.Register(C.Decoded(r.host, r.uris));
    EmitOnTable(cfg, w, c, s, es, e);
    C.AfterOne(w, c, es, e);
    C.AfterOne(w, c, es + [e], m);
    MessageAccepted(C.After(w, c, es + [e]), r);
    EmitOnTable(cfg, w, c, s, es + [e], m);
  }

  /** What the controller makes of the messages is what they leave in its table, at the times they arrive. */
  lemma {:induction false} DeliveryFeeds(
      cfg: Machine.Config, w: int, c: C.Control, s: Machine.State<Table>,
      msgs: seq<RouteData>, gaps: seq<nat>, ip: string)
    returns (times: seq<int>)
    requires |gaps| == |msgs| && Simple(msgs, ip) && ip != "" && C.Delivers(c, C.SubscribeRegister)
    ensures |times| == |msgs|
    ensures C.Delivers(C.After(w, c, Delivery(msgs, gaps)), C.SubscribeRegister)
    ensures Machine.TableRun(cfg, s, C.Emitted(w, c, Delivery(msgs, gaps))).table == Feed(s.table, msgs, times)
  {
    times := [];
    if msgs != [] {
      hide AddAll, Machine.TableRun, C.After, C.Emitted, C.Delivers;
      var n := |msgs| - 1;
      var init := Delivery(msgs[..n], gaps[..n]);
      times := DeliveryFeeds(cfg, w, c, s, msgs[..n], gaps[..n], ip);
      AfterMessage(cfg, w, c, s, init, gaps[n], msgs[n]);
      var u := Machine.TableRun(cfg, s, C.Emitted(w, c, Delivery(msgs, gaps)));
      assert (times + [u.now])[..n] == times;
      times := times + [u.now];
    }
  }

  // ---------------------------------------------------------------- one round, end to end

  /** The hosts are those of the routes reached, each with just the backend's IP; all routes, exactly if covered. */
  ghost predicate Populated(j: Job, g: int, t: Table)
    requires 1 <= g <= j.endRange - j.startRange
  {
    var n, reached := j.endRange - j.startRange, Reached(j.startRange, j.endRange, g);
    && j.startRange <= reached
    && t.Keys == HostSet(j, j.startRange, reached)
    && (forall h :: h in t ==> IPs(t[h]) == [j.backendHost])
    && (|t| == n <==> n % g < n / g)
  }

  lemma {:induction false} FeedListsHosts(j: Job, lo: int, hi: int, msgs: seq<RouteData>, times: seq<int>)
    requires lo <= hi && |times| == |msgs| && multiset(msgs) == multiset(Routes(j, lo, hi))
    ensures var t := Feed(map[], msgs, times);
            t.Keys == HostSet(j, lo, hi) && forall h :: h in t ==> IPs(t[h]) == [j.backendHost]
  {
    hide Route, Routes, Feed, HostSet, RouteHost, Simple, Named, Reaches, IPs;
    RearrangedIsSimple(j, lo, hi, msgs);
    var t := Feed(map[], msgs, times);
    forall h ensures h in t <==> h in HostSet(j, lo, hi) {
      FeedHosts(msgs, times, j.backendHost, h);
      HostSetHas(j, lo, hi, h);
      RearrangedNames(j, lo, hi, msgs, h);
    }
    forall h | h in t ensures IPs(t[h]) == [j.backendHost] {
      FeedHosts(msgs, times, j.backendHost, h);
    }
  }

  lemma {:induction false} FeedPopulates(j: Job, g: int, msgs: seq<RouteData>, times: seq<int>)
    requires 1 <= g <= j.endRange - j.startRange && j.appDomain != "" && |times| == |msgs|
    requires j.startRange <= Reached(j.startRange, j.endRange, g)
    requires multiset(msgs) == multiset(Routes(j, j.startRange, Reached(j.startRange, j.endRange, g)))
    ensures Populated(j, g, Feed(map[], msgs, times))
  {
    hide Reached, Edges, Route, Routes, Feed, HostSet, RouteHost;
    var lo, hi := j.startRange, Reached(j.startRange, j.endRange, g);
    ExactCoverage(j.startRange, j.endRange, g);
    FeedListsHosts(j, lo, hi, msgs, times);
    HostSetSize(j, lo, hi);
    var t := Feed(map[], msgs, times);
    assert |t| == |t.Keys|;
  }

  /** However the round's messages are ordered and timed, a controller that is listening is populated by them. */
  ghost predicate PopulatedBy(
      cfg: Machine.Config, w: int, now: int, before: seq<C.Event>, j: Job, g: int, msgs: seq<RouteData>, gaps: seq<nat>)
    requires 1 <= g <= j.endRange - j.startRange && |gaps| == |msgs|
  {
    Populated(j, g, C.Addresses(cfg, w, now, before + Delivery(msgs, gaps)).table)
  }

  lemma {:induction false} DeliveryPopulates(
      cfg: Machine.Config, w: int, now: int, before: seq<C.Event>, j: Job, g: int, msgs: seq<RouteData>, gaps: seq<nat>)
    requires Validates(j) && 1 <= g <= j.endRange - j.startRange && |gaps| == |msgs|
    requires C.Delivers(C.After(w, C.Boot(now), before), C.SubscribeRegister)
    requires C.Addresses(cfg, w, now, before).table == map[]
    requires j.startRange <= Reached(j.startRange, j.endRange, g)
    requires multiset(msgs) == multiset(Routes(j, j.startRange, Reached(j.startRange, j.endRange, g)))
    ensures PopulatedBy(cfg, w, now, before, j, g, msgs, gaps)
  {
    hide Populated, Feed, Reached, Routes, Delivery, Machine.TableRun, C.After, C.Emitted, C.Delivers;
    var c, s := C.After(w, C.Boot(now), before), C.Addresses(cfg, w, now, before);
    RearrangedIsSimple(j, j.startRange, Reached(j.startRange, j.endRange, g), msgs);
    C.AfterAppend(w, C.Boot(now), before, Delivery(msgs, gaps));
    Machine.TableRunAppend(cfg, Machine.Start(map[], now), C.Emitted(w, C.Boot(now), before),
                   C.Emitted(w, c, Delivery(msgs, gaps)));
    var times := DeliveryFeeds(cfg, w, c, s, msgs, gaps, j.backendHost);
    FeedPopulates(j, g, msgs, times);
  }

  /**
   The load generator from end to end: the runner's workers publish one round, and the messages on service
   discovery's subject reach a listening controller with an empty table, in any order and at any times.
   */
  method Populate(
      j: Job, g: int, ghost cfg: Machine.Config, ghost w: int, ghost now: int, ghost before: seq<C.Event>)
    returns (logs: seq<seq<Publication>>)
    requires Validates(j) && 1 <= g <= j.endRange - j.startRange
    requires C.Delivers(C.After(w, C.Boot(now), before), C.SubscribeRegister)
    requires C.Addresses(cfg, w, now, before).table == map[]
    ensures forall msgs: seq<RouteData>, gaps: seq<nat> ::
              |gaps| == |msgs| && multiset(msgs) == multiset(Collected(DiscoveryRegister, logs)) ==>
                PopulatedBy(cfg, w, now, before, j, g, msgs, gaps)
  {
    hide PopulatedBy, Reached, Routes, Collected, Machine.TableRun, C.After, C.Emitted, C.Delivers, Validates;
    logs := PublishRound(j, g);
    forall msgs: seq<RouteData>, gaps: seq<nat>
      | |gaps| == |msgs| && multiset(msgs) == multiset(Collected(DiscoveryRegister, logs))
      ensures PopulatedBy(cfg, w, now, before, j, g, msgs, gaps)
    {
      ReachedIsPast(j.startRange, j.endRange, g);
      DeliveryPopulates(cfg, w, now, before, j, g, msgs, gaps);
    }
  }
}
