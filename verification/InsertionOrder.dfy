/**
 Lookup answers in order of insertion: over every run, the IPs of a host are
 listed by the moment each was last absent and then added.
 */
module InsertionOrder {
  import opened Entries
  import opened Names
  import opened Sequences
  import opened Tables
  import opened TableMachine

  /** The position of the event that last brought the pair in. */
  function Born(cfg: Config, now: int, es: seq<Event>, k: Pair): (n: nat)
    requires k in Run(cfg, Start(map[], now), es).table
    ensures n < |es|
  {
    var init := es[..|es| - 1];
    if k in Run(cfg, Start(map[], now), init).table then Born(cfg, now, init, k) else |es| - 1
  }

  /** One step never reorders what was listed before it, and lists a newcomer last. */
  lemma StepOrder(cfg: Config, s: State<Table>, e: Event, h: string, a: string, b: string)
    requires WellFormed(s.table)
    requires Before(EntriesFor(TableStep(cfg, s, e).table, h), a, b)
    ensures var es := EntriesFor(s.table, h);
            Lists(es, a) && (Before(es, a, b) || !Lists(es, b))
  {
    hide IndexOf, Touch, Drop, Fresh;
    var es := EntriesFor(s.table, h);
    match e
    case Add(hostnames, ip) =>
      AddAllHosts(s.table, hostnames, ip, s.now, h);
      if h in Normalised(hostnames) { TouchOrder(es, ip, s.now, a, b); }
    case Remove(hostnames, ip) =>
      RemoveAllHosts(s.table, hostnames, ip, h);
      if h in Normalised(hostnames) { DropOrder(es, ip, a, b); }
    case WriteTable =>
      if s.pruner.Scanned? && h in s.table && h in s.pruner.candidates {
        FreshOrder(es, s.now, cfg.staleness, a, b);
      }
    case _ =>
  }

  lemma ListsIff(t: Table, h: string, ip: string)
    ensures Lists(EntriesFor(t, h), ip) <==> (h, ip) in Abs(t)
  {
    AbsAt(t, (h, ip));
  }

  lemma BeforeIsListed(es: seq<Entry>, a: string, b: string)
    requires Before(es, a, b)
    ensures Lists(es, a) && Lists(es, b)
  {
  }

  lemma {:induction false} EntriesInInsertionOrder(
      cfg: Config, now: int, es: seq<Event>, h: string, a: string, b: string)
    requires Before(EntriesFor(TableRun(cfg, Start(map[], now), es).table, h), a, b)
    ensures var r := Run(cfg, Start(map[], now), es).table;
            (h, a) in r && (h, b) in r && Born(cfg, now, es, (h, a)) < Born(cfg, now, es, (h, b))
  {
    var s0: State<Table> := Start(map[], now);
    assert AbsState(s0) == Start(map[], now);
    RunRefines(cfg, s0, es);
    var s := TableRun(cfg, s0, es);
    BeforeIsListed(EntriesFor(s.table, h), a, b);
    ListsIff(s.table, h, a);
    ListsIff(s.table, h, b);
    if es != [] {
      var init, e := es[..|es| - 1], es[|es| - 1];
      RunRefines(cfg, s0, init);
      var p := TableRun(cfg, s0, init);
      StepOrder(cfg, p, e, h, a, b);
      ListsIff(p.table, h, a);
      ListsIff(p.table, h, b);
      if Before(EntriesFor(p.table, h), a, b) {
        EntriesInInsertionOrder(cfg, now, init, h, a, b);
      }
    }
  }

  /**
   In every run from an empty table the answer for a name is exactly the IPs registered for it, each once,
   in the order in which they were inserted since they were last absent.
   */
  lemma {:induction false} ListedInInsertionOrder(cfg: Config, now: int, es: seq<Event>, name: string)
    ensures var answer := Lookup(TableRun(cfg, Start(map[], now), es).table, name);
            var r := Run(cfg, Start(map[], now), es).table;
            && NoRepeats(answer)
            && (forall ip :: ip in answer <==> (Fqdn(name), ip) in r)
            && (forall i, j :: 0 <= i < j < |answer| ==>
                  Born(cfg, now, es, (Fqdn(name), answer[i])) < Born(cfg, now, es, (Fqdn(name), answer[j])))
  {
    var s0: State<Table> := Start(map[], now);
    assert AbsState(s0) == Start(map[], now);
    RunRefines(cfg, s0, es);
    var t := TableRun(cfg, s0, es).table;
    var answer := Lookup(t, name);
    LookupDistinct(t, name);
    forall ip ensures ip in answer <==> (Fqdn(name), ip) in Abs(t) {
      LookupAgrees(t, name, ip);
    }
    forall i, j | 0 <= i < j < |answer|
      ensures Born(cfg, now, es, (Fqdn(name), answer[i])) < Born(cfg, now, es, (Fqdn(name), answer[j]))
    {
      var entries := EntriesFor(t, Fqdn(name));
      assert entries[i].ip == answer[i] && entries[j].ip == answer[j];
      EntriesInInsertionOrder(cfg, now, es, Fqdn(name), answer[i], answer[j]);
    }
  }
}
