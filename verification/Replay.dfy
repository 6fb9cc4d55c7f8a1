/** The heap table under any schedule of its critical sections behaves as the state machine does. */
module Replay {
  import opened AddressTables
  import opened Names
  import opened Slices
  import opened TableMachine
  import Tables

  ghost function StateOf(t: AddressTable, now: int, pruner: Pruner): State<Tables.Table>
    requires t.Separate()
    reads t, t.Arrays()
  {
    State(t.View(), now, t.pausedPruning, t.lastResume, pruner)
  }

  ghost function ConfigOf(t: AddressTable): Config {
    Config(t.stalenessThreshold, t.resumePruningDelay)
  }

  /** One lock-held region, with the clock at `now` and the pruner's pass at `pruner`. */
  method Perform(t: AddressTable, now: int, pruner: Pruner, e: Event) returns (now': int, pruner': Pruner)
    requires t.Valid()
    modifies t, t.Arrays()
    ensures t.Valid() && fresh(t.Arrays() - old(t.Arrays()))
    ensures StateOf(t, now', pruner') == TableStep(ConfigOf(t), old(StateOf(t, now, pruner)), e)
    ensures t.warm == old(t.warm)
  {
    hide AddressTable.View, AddressTable.Separate, Elements;
    hide Tables.WellFormed, Tables.AddAll, Tables.AddEach, Tables.RemoveAll;
    hide Tables.PruneAll, Tables.PruneEach, Tables.StaleHosts, Tables.StaleHostsAt, Tables.Abs;
    now', pruner' := now, pruner;
    match e
    case Add(hostnames, ip) =>
      Tables.AddEachAtOnce(t.View(), hostnames, ip, now);
      t.Add(hostnames, ip, Tables.Still(hostnames, now));
    case Remove(hostnames, ip) => t.Remove(hostnames, ip);
    case Pause => t.PausePruning();
    case Resume => t.ResumePruning(now);
    case Advance(elapsed) => now' := now + elapsed;
    case GateCheck =>
      if pruner.Idle? {
        var pass := t.PassesGate(now);
        if pass { pruner' := PastGate; }
      }
    case ScanTable =>
      if pruner.PastGate? {
        var clock := (h: string, i: nat) => now;
        Tables.StaleHostsAtOnce(t.View(), clock, now, t.stalenessThreshold);
        var candidates := t.AddressesWithStaleEntries(clock);
        pruner' := Scanned(Elements(candidates));
      }
    case WriteTable =>
      if pruner.Scanned? {
        var candidates := Sequence(pruner.candidates);
        var clock := (n: nat, i: nat) => now;
        Tables.PruneEachAtOnce(t.View(), candidates, clock, now, t.stalenessThreshold);
        var oldTotal, newTotal := t.PruneStaleEntries(candidates, clock);
        pruner' := Idle;
      }
  }

  method Sequence(s: set<string>) returns (r: seq<string>)
    ensures Elements(r) == s
  {
    r := [];
    var rest := s;
    while rest != {}
      invariant rest <= s && Elements(r) == s - rest
      decreases rest
    {
      var h :| h in rest;
      assert Elements(r + [h]) == Elements(r) + {h};
      r, rest := r + [h], rest - {h};
    }
  }

  // ---------------------------------------------------------------- schedules with requests

  datatype Op = Region(e: Event) | Ask(name: string) | AskAll | Warm

  /** What an operation hands out: slices over arrays of its own. */
  datatype Reply = Nothing | One(ips: IPSlice) | All(hosts: map<string, IPSlice>)

  /** The regions of a schedule, without the requests. */
  function Regions(ops: seq<Op>): seq<Event> {
    if ops == [] then [] else
      var init, op := Regions(ops[..|ops| - 1]), ops[|ops| - 1];
      if op.Region? then init + [op.e] else init
  }

  lemma RegionsSnoc(cfg: Config, s: State<Tables.Table>, ops: seq<Op>, op: Op)
    ensures var before := TableRun(cfg, s, Regions(ops));
            TableRun(cfg, s, Regions(ops + [op])) == if op.Region? then TableStep(cfg, before, op.e) else before
  {
    hide TableStep;
    var regions := Regions(ops);
    assert (ops + [op])[..|ops|] == ops;
    if op.Region? {
      assert (regions + [op.e])[..|regions|] == regions;
    }
  }

  ghost function HandedOut(reply: Reply): set<array<string>> {
    match reply
    case Nothing => {}
    case One(ips) => {ips.arr}
    case All(hosts) => set h | h in hosts :: hosts[h].arr
  }

  ghost predicate Holds(ips: IPSlice, expected: seq<string>)
    reads ips.arr
  {
    ips.arr.Length == ips.len && ips.arr[..] == expected
  }

  /** The reply still says what `table` lists. */
  ghost predicate Matches(op: Op, reply: Reply, table: Tables.Table)
    reads HandedOut(reply)
  {
    match op
    case Ask(name) => reply.One? && Holds(reply.ips, Tables.Lookup(table, name))
    case AskAll =>
      && reply.All? && reply.hosts.Keys == table.Keys
      && forall h :: h in reply.hosts ==> Holds(reply.hosts[h], Tables.Lookup(table, h))
    case _ => reply.Nothing?
  }

  method Serve(t: AddressTable, now: int, pruner: Pruner, op: Op) returns (now': int, pruner': Pruner, reply: Reply)
    requires t.Valid()
    modifies t, t.Arrays()
    ensures t.Valid() && fresh(t.Arrays() - old(t.Arrays()))
    ensures StateOf(t, now', pruner')
         == if op.Region? then TableStep(ConfigOf(t), old(StateOf(t, now, pruner)), op.e)
            else old(StateOf(t, now, pruner))
    ensures t.warm == (old(t.warm) || op.Warm?)
    ensures Matches(op, reply, old(StateOf(t, now, pruner)).table) && fresh(HandedOut(reply))
  {
    hide TableStep, Tables.WellFormed, AddressTable.View, AddressTable.Separate, Tables.Lookup;
    now', pruner', reply := now, pruner, Nothing;
    match op
    case Region(e) =>
      now', pruner' := Perform(t, now, pruner, e);
    case Ask(name) =>
      var ips := t.Lookup(name);
      reply := One(ips);
    case AskAll =>
      var all := t.GetAllAddresses();
      reply := All(all);
    case Warm =>
      t.SetWarm();
  }

  ghost function AllHandedOut(replies: seq<Reply>): set<array<string>> {
    set i, a | 0 <= i < |replies| && a in HandedOut(replies[i]) :: a
  }

  /** Every reply still says what the table of its moment listed. */
  ghost predicate AllMatch(ops: seq<Op>, replies: seq<Reply>, tables: seq<Tables.Table>)
    reads AllHandedOut(replies)
  {
    && |ops| == |replies| == |tables|
    && forall i :: 0 <= i < |ops| ==> Matches(ops[i], replies[i], tables[i])
  }

  lemma AllMatchSnoc(
      ops: seq<Op>, replies: seq<Reply>, tables: seq<Tables.Table>, op: Op, reply: Reply, table: Tables.Table)
    requires AllMatch(ops, replies, tables) && Matches(op, reply, table)
    ensures AllMatch(ops + [op], replies + [reply], tables + [table])
  {
    hide Matches;
  }

  /** The tables at which the operations of a schedule are served. */
  ghost function Served(cfg: Config, s: State<Tables.Table>, ops: seq<Op>): (tables: seq<Tables.Table>)
    ensures |tables| == |ops|
  {
    seq(|ops|, i requires 0 <= i < |ops| => TableRun(cfg, s, Regions(ops[..i])).table)
  }

  lemma ServedSnoc(cfg: Config, s: State<Tables.Table>, ops: seq<Op>, op: Op)
    ensures Served(cfg, s, ops + [op]) == Served(cfg, s, ops) + [TableRun(cfg, s, Regions(ops)).table]
  {
    hide TableRun, Regions;
    assert forall i :: 0 <= i < |ops| ==> (ops + [op])[..i] == ops[..i];
    assert (ops + [op])[..|ops|] == ops;
  }

  lemma NoneServed(cfg: Config, s: State<Tables.Table>)
    ensures TableRun(cfg, s, Regions([])) == s && AllMatch([], [], Served(cfg, s, []))
  {
  }

  /** The table and the replies are those of the schedule `ops` from the state `s`. */
  ghost predicate Followed(
      t: AddressTable, now: int, pruner: Pruner, replies: seq<Reply>,
      cfg: Config, s: State<Tables.Table>, warm: bool, ops: seq<Op>)
    requires t.Separate()
    reads t, t.Arrays(), AllHandedOut(replies)
  {
    && StateOf(t, now, pruner) == TableRun(cfg, s, Regions(ops))
    && t.warm == (warm || Warm in ops)
    && AllMatch(ops, replies, Served(cfg, s, ops))
  }

  method Extend(
      t: AddressTable, now: int, pruner: Pruner, replies: seq<Reply>,
      ghost cfg: Config, ghost s: State<Tables.Table>, ghost warm: bool, ghost ops: seq<Op>, op: Op)
    returns (now': int, pruner': Pruner, replies': seq<Reply>)
    requires t.Valid() && cfg == ConfigOf(t) && Followed(t, now, pruner, replies, cfg, s, warm, ops)
    modifies t, t.Arrays()
    ensures t.Valid() && fresh(t.Arrays() - old(t.Arrays()))
    ensures Followed(t, now', pruner', replies', cfg, s, warm, ops + [op])
  {
    hide TableStep, TableRun, StateOf, Tables.WellFormed, Matches, AllMatch, Served, Regions;
    ServedSnoc(cfg, s, ops, op);
    RegionsSnoc(cfg, s, ops, op);
    label before:
    var reply;
    now', pruner', reply := Serve(t, now, pruner, op);
    assert unchanged@before(AllHandedOut(replies));
    AllMatchSnoc(ops, replies, Served(cfg, s, ops), op, reply, TableRun(cfg, s, Regions(ops)).table);
    replies' := replies + [reply];
  }

  /**
   Every schedule: the table follows the machine, and at the end every reply handed out on the way
   still says what the table listed when it was asked.
   */
  method Run(t: AddressTable, start: int, first: Pruner, ops: seq<Op>)
    returns (now: int, pruner: Pruner, replies: seq<Reply>)
    requires t.Valid()
    modifies t, t.Arrays()
    ensures t.Valid() && fresh(t.Arrays() - old(t.Arrays()))
    ensures StateOf(t, now, pruner) == TableRun(ConfigOf(t), old(StateOf(t, start, first)), Regions(ops))
    ensures t.warm == (old(t.warm) || Warm in ops)
    ensures AllMatch(ops, replies, Served(ConfigOf(t), old(StateOf(t, start, first)), ops))
  {
    hide TableStep, TableRun, StateOf, Tables.WellFormed, Matches, AllMatch, Served, Regions;
    ghost var s0, cfg := StateOf(t, start, first), ConfigOf(t);
    now, pruner, replies := start, first, [];
    NoneServed(cfg, s0);
    for n := 0 to |ops|
      invariant t.Valid() && fresh(t.Arrays() - old(t.Arrays()))
      invariant Followed(t, now, pruner, replies, cfg, s0, old(t.warm), ops[..n])
    {
      now, pruner, replies := Extend(t, now, pruner, replies, cfg, s0, old(t.warm), ops[..n], ops[n]);
      assert ops[..n + 1] == ops[..n] + [ops[n]];
    }
    assert ops[..|ops|] == ops;
  }
}
