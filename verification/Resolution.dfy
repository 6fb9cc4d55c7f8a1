/** A name resolved: the adapter's client asks the controller's server, which reads the address table. */
module Resolution {
  import opened AddressTables
  import opened Client
  import opened Replay
  import opened TableMachine
  import Server
  import Tables

  const INTERNAL_SERVER_ERROR := 500

  /** The IP addresses of an answer, as they are decoded. */
  function Decode(hosts: seq<Server.Host>): seq<string> {
    seq(|hosts|, i requires 0 <= i < |hosts| => hosts[i].ipAddress)
  }

  function Received(response: Server.Response): Fetch {
    match response
    case ServerError => Responds(INTERNAL_SERVER_ERROR, Malformed)
    case Answer(hosts) => Responds(OK, Hosts(Decode(hosts)))
  }

  lemma DecodeHosts(ips: seq<string>)
    ensures Decode(Server.Hosts(ips)) == ips
  {
  }

  function Expected(warm: bool, ips: seq<string>): Fetch {
    if warm then Responds(OK, Hosts(ips)) else Responds(INTERNAL_SERVER_ERROR, Malformed)
  }

  /** One request, answered by the server. */
  method Get(table: AddressTable, dir: string, name: string) returns (fetch: Fetch)
    requires table.Valid() && name != "" && '/' !in name
    ensures table.Valid() && table.View() == old(table.View())
    ensures fetch == Expected(table.warm, Tables.Lookup(table.View(), name))
  {
    hide Tables.Lookup, Tables.WellFormed, Decode;
    label before:
    Server.BaseIs(dir, name);
    DecodeHosts(Tables.Lookup(table.View(), name));
    var response := Server.HandleRegistrationRequest(table, dir + "/" + name);
    table.Untouched@before();
    fetch := Received(response);
  }

  // ---------------------------------------------------------------- attempts

  /** The schedules that come before the attempts, one after the other. */
  function Flat(between: seq<seq<Op>>): seq<Op> {
    if between == [] then [] else Flat(between[..|between| - 1]) + between[|between| - 1]
  }

  lemma FlatNext(between: seq<seq<Op>>, j: nat)
    requires j < |between|
    ensures Flat(between[..j + 1]) == Flat(between[..j]) + between[j]
  {
    assert between[..j + 1][..j] == between[..j];
  }

  lemma {:induction false} RegionsAppend(a: seq<Op>, b: seq<Op>)
    ensures Regions(a + b) == Regions(a) + Regions(b)
  {
    if b == [] {
      assert a + b == a;
    } else {
      RegionsAppend(a, b[..|b| - 1]);
      assert (a + b)[..|a + b| - 1] == a + b[..|b| - 1];
    }
  }

  /** The table, and whether it is warm, after a schedule. */
  ghost predicate Reached(
      table: AddressTable, now: int, pruner: Pruner, s: State<Tables.Table>, warm: bool, ops: seq<Op>)
    requires table.Separate()
    reads table, table.Arrays()
  {
    && StateOf(table, now, pruner) == TableRun(ConfigOf(table), s, Regions(ops))
    && table.warm == (warm || Warm in ops)
  }

  lemma ReachedFirst(table: AddressTable, now: int, between: seq<seq<Op>>)
    requires table.Separate()
    ensures Reached(table, now, Idle, StateOf(table, now, Idle), table.warm, Flat(between[..0]))
  {
  }

  /** Whatever happens to the table before the attempt, and then one request. */
  method Attempt(
      table: AddressTable, now: int, pruner: Pruner, ops: seq<Op>, dir: string, name: string,
      ghost s: State<Tables.Table>, ghost warm: bool, ghost before: seq<Op>)
    returns (now': int, pruner': Pruner, fetch: Fetch)
    requires table.Valid() && name != "" && '/' !in name && Reached(table, now, pruner, s, warm, before)
    modifies table, table.Arrays()
    ensures table.Valid() && fresh(table.Arrays() - old(table.Arrays()))
    ensures Reached(table, now', pruner', s, warm, before + ops)
    ensures fetch == Expected(warm || Warm in before + ops,
                              Tables.Lookup(TableRun(ConfigOf(table), s, Regions(before + ops)).table, name))
  {
    hide TableRun, Regions, Tables.Lookup, Tables.WellFormed, AddressTable.View;
    RegionsAppend(before, ops);
    TableRunAppend(ConfigOf(table), s, Regions(before), Regions(ops));
    var replies;
    now', pruner', replies := Replay.Run(table, now, pruner, ops);
    assert Reached(table, now', pruner', s, warm, before + ops);
    fetch := Get(table, dir, name);
  }

  ghost predicate WarmAt(warm: bool, between: seq<seq<Op>>, j: nat)
    requires j < |between|
  {
    warm || Warm in Flat(between[..j + 1])
  }

  /** What the table lists for the name at the j-th request. */
  ghost function ListedAt(cfg: Config, s: State<Tables.Table>, between: seq<seq<Op>>, j: nat, name: string): seq<string>
    requires j < |between|
  {
    Tables.Lookup(TableRun(cfg, s, Regions(Flat(between[..j + 1]))).table, name)
  }

  /** The answer to each request is that of the table at its moment, and none but the last was from a warm one. */
  ghost predicate Answered(
      fetches: seq<Fetch>, cfg: Config, s: State<Tables.Table>, warm: bool, between: seq<seq<Op>>, name: string)
  {
    && |fetches| <= |between|
    && (forall j :: 0 <= j < |fetches| ==>
          fetches[j] == Expected(WarmAt(warm, between, j), ListedAt(cfg, s, between, j, name)))
    && (forall j :: 0 <= j < |fetches| - 1 ==> !WarmAt(warm, between, j))
  }

  /** What the client makes of the answers: those of the requests made, and nothing for requests never made. */
  method Conclude(
      fetches: seq<Fetch>, pick: nat -> seq<nat>, ghost cfg: Config, ghost s: State<Tables.Table>,
      ghost warm: bool, ghost between: seq<seq<Op>>, ghost name: string)
    returns (result: Result, requests: nat)
    requires (forall n :: ValidDraws(n, pick(n))) && |between| == ATTEMPTS && fetches != []
    requires Answered(fetches, cfg, s, warm, between, name)
    requires |fetches| == ATTEMPTS || WarmAt(warm, between, |fetches| - 1)
    ensures requests == |fetches|
    ensures result.IPs? <==> WarmAt(warm, between, requests - 1)
    ensures result.IPs? ==> Rearranges(result.ips, ListedAt(cfg, s, between, requests - 1, name))
  {
    hide WarmAt, ListedAt, Shuffled, ValidDraws;
    var n := |fetches| - 1;
    var last := fetches[n];
    ghost var ips := ListedAt(cfg, s, between, n, name);
    var draws := pick(if last.body.Hosts? then |last.body.ips| else 0);
    var all := fetches + seq(ATTEMPTS - |fetches|, _ => TransportError);
    assert all[n] == last && forall j :: 0 <= j < n ==> Refused(all[j]);
    assert forall j: nat :: Succeeds(all, j) ==> j == n;
    result, requests := LookupIPs(all, draws);
    if WarmAt(warm, between, n) {
      assert Succeeds(all, n);
      ShuffledPermutes(ips, draws);
    }
  }

  /**
   Client, server and heap table together, with any schedule of the table's operations before each request. The
   lookup succeeds if and only if the table is warm at one of the four requests, and then ends with exactly
   the IPs listed for the name at the first such moment, none lost, repeated or padded.
   */
  method Resolve(
      table: AddressTable, start: int, between: seq<seq<Op>>, dir: string, name: string, pick: nat -> seq<nat>)
    returns (result: Result, requests: nat)
    requires table.Valid() && |between| == ATTEMPTS && name != "" && '/' !in name
    requires forall n :: ValidDraws(n, pick(n))
    modifies table, table.Arrays()
    ensures table.Valid()
    ensures 1 <= requests <= ATTEMPTS && forall j :: 0 <= j < requests - 1 ==> !WarmAt(old(table.warm), between, j)
    ensures result.IPs? <==> exists j :: 0 <= j < ATTEMPTS && WarmAt(old(table.warm), between, j)
    ensures if result.Failed? then requests == ATTEMPTS else
              && WarmAt(old(table.warm), between, requests - 1)
              && Rearranges(result.ips, ListedAt(ConfigOf(table), old(StateOf(table, start, Idle)), between,
                                                 requests - 1, name))
  {
    hide TableRun, Regions, Tables.Lookup, Tables.WellFormed, Reached, StateOf, ValidDraws, Flat;
    ghost var s, warm, cfg := StateOf(table, start, Idle), table.warm, ConfigOf(table);
    var now, pruner, fetches := start, Idle, [];
    var found := false;
    ReachedFirst(table, start, between);
    while |fetches| < ATTEMPTS && !found
      invariant table.Valid() && fresh(table.Arrays() - old(table.Arrays()))
      invariant |fetches| <= ATTEMPTS
      invariant Reached(table, now, pruner, s, warm, Flat(between[..|fetches|]))
      invariant Answered(fetches, cfg, s, warm, between, name)
      invariant found <==> fetches != [] && WarmAt(warm, between, |fetches| - 1)
      decreases ATTEMPTS - |fetches|
    {
      var n := |fetches|;
      var fetch;
      FlatNext(between, n);
      now, pruner, fetch := Attempt(table, now, pruner, between[n], dir, name, s, warm, Flat(between[..n]));
      fetches := fetches + [fetch];
      found := fetch.status == OK;
    }
    result, requests := Conclude(fetches, pick, cfg, s, warm, between, name);
  }
}
