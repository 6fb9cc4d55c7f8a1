/** The HTTP side of the controller: what it answers for a name, and its listing of all routes. */
module Server {
  import opened AddressTables
  import opened Slices
  import Tables

  /** A host of an answer; a zero host, as in an unfilled slot, has no tags. */
  datatype Host = Host(ipAddress: string, tagged: bool)

  datatype Response = ServerError | Answer(hosts: seq<Host>)

  datatype Address = Address(hostname: string, ips: seq<string>)

  // ---------------------------------------------------------------- the requested name

  function TrimSlashes(p: string): string {
    if p != "" && p[|p| - 1] == '/' then TrimSlashes(p[..|p| - 1]) else p
  }

  function AfterLastSlash(p: string): string {
    if p == "" || p[|p| - 1] == '/' then "" else AfterLastSlash(p[..|p| - 1]) + [p[|p| - 1]]
  }

  /** The last element of a path. */
  function Base(p: string): string {
    if p == "" then "." else
      var last := AfterLastSlash(TrimSlashes(p));
      if last == "" then "/" else last
  }

  lemma {:induction false} AfterLastSlashIs(dir: string, name: string)
    requires '/' !in name
    ensures AfterLastSlash(dir + "/" + name) == name
  {
    var p := dir + "/" + name;
    if name != "" {
      var n := |name| - 1;
      AfterLastSlashIs(dir, name[..n]);
      assert p[..|p| - 1] == dir + "/" + name[..n];
      assert p[|p| - 1] == name[n];
    }
  }

  /** A name without slashes is what the server looks up; without a name it looks up the directory's. */
  lemma BaseIs(dir: string, name: string)
    requires '/' !in name && (name == "" ==> dir != "")
    ensures Base(dir + "/" + name) == if name == "" then Base(dir) else name
  {
    var p := dir + "/" + name;
    if name == "" {
      assert p[..|p| - 1] == dir;
    } else {
      assert p[|p| - 1] == name[|name| - 1];
      AfterLastSlashIs(dir, name);
    }
  }

  lemma {:induction false} NoSlash(p: string)
    requires '/' !in p
    ensures AfterLastSlash(p) == p && TrimSlashes(p) == p
  {
    if p != "" {
      var init := p[..|p| - 1];
      NoSlash(init);
      assert p == init + [p[|p| - 1]];
    }
  }

  lemma {:induction false} OnlySlashes(p: string)
    requires forall i :: 0 <= i < |p| ==> p[i] == '/'
    ensures TrimSlashes(p) == ""
  {
    if p != "" {
      OnlySlashes(p[..|p| - 1]);
    }
  }

  /**
   The remaining cases: no path at all, slashes only, a path without slashes, and slashes at the end, which do
   not matter. With `BaseIs` they give the last element of every path.
   */
  lemma BaseCases(p: string)
    ensures Base("") == "."
    ensures p != "" && (forall i :: 0 <= i < |p| ==> p[i] == '/') ==> Base(p) == "/"
    ensures p != "" && '/' !in p ==> Base(p) == p
    ensures p != "" ==> Base(p + "/") == Base(p)
  {
    if forall i :: 0 <= i < |p| ==> p[i] == '/' {
      OnlySlashes(p);
    }
    if '/' !in p {
      NoSlash(p);
    }
    assert (p + "/")[..|p|] == p;
  }

  // ---------------------------------------------------------------- answers

  function Hosts(ips: seq<string>): seq<Host> {
    seq(|ips|, i requires 0 <= i < |ips| => Host(ips[i], true))
  }

  /** One slot for each element of capacity, the first ones filled; the rest would be padding. */
  method FillHosts(ips: IPSlice) returns (hosts: array<Host>)
    requires ips.len <= ips.arr.Length
    ensures hosts.Length == ips.arr.Length
    ensures forall i :: 0 <= i < ips.len ==> hosts[i] == Host(ips.arr[i], true)
    ensures hosts[..ips.len] == Hosts(ips.arr[..ips.len])
    ensures forall i :: ips.len <= i < hosts.Length ==> hosts[i] == Host("", false)
  {
    hosts := new Host[ips.arr.Length](_ => Host("", false));
    for i := 0 to ips.len
      invariant forall j :: 0 <= j < i ==> hosts[j] == Host(ips.arr[j], true)
      invariant forall j :: i <= j < hosts.Length ==> hosts[j] == Host("", false)
    {
      hosts[i] := Host(ips.arr[i], true);
    }
  }

  /** Only a warm table answers, and it answers with exactly the IPs it lists for the name, in order. */
  method HandleRegistrationRequest(table: AddressTable, path: string) returns (response: Response)
    requires table.Valid()
    ensures response == if table.warm then Answer(Hosts(Tables.Lookup(table.View(), Base(path)))) else ServerError
    ensures response.Answer? ==>
              var ips := Tables.Lookup(table.View(), Base(path));
              |response.hosts| == |ips| && forall i :: 0 <= i < |ips| ==> response.hosts[i] == Host(ips[i], true)
  {
    var key := Base(path);
    var warm := table.IsWarm();
    if !warm {
      return ServerError;
    }
    var ips := table.Lookup(key);
    var hosts := FillHosts(ips);
    assert hosts[..] == hosts[..ips.len];
    assert ips.arr[..] == ips.arr[..ips.len];
    return Answer(hosts[..]);
  }

  function Hostnames(addresses: seq<Address>): set<string> {
    set a | a in addresses :: a.hostname
  }

  lemma HostnamesSnoc(addresses: seq<Address>, a: Address)
    ensures Hostnames(addresses + [a]) == Hostnames(addresses) + {a.hostname}
    ensures forall i :: 0 <= i < |addresses| ==> addresses[i].hostname in Hostnames(addresses)
  {
  }

  /** The listing has one address for each host of the table, with the IPs that Lookup gives. */
  method HandleRoutesRequest(table: AddressTable) returns (addresses: seq<Address>)
    requires table.Valid()
    ensures forall i, j :: 0 <= i < j < |addresses| ==> addresses[i].hostname != addresses[j].hostname
    ensures Hostnames(addresses) == table.View().Keys
    ensures forall a :: a in addresses ==> a.ips == Tables.Lookup(table.View(), a.hostname)
  {
    hide AddressTable.View, AddressTable.Separate, Tables.WellFormed, Tables.Lookup;
    var all := table.GetAllAddresses();
    ghost var view := table.View();
    addresses := [];
    var rest := all.Keys;
    while rest != {}
      invariant table.View() == view && rest <= all.Keys && Hostnames(addresses) == all.Keys - rest
      invariant forall h :: h in all ==> all[h].arr.Length == all[h].len && all[h].arr[..] == Tables.Lookup(view, h)
      invariant forall i, j :: 0 <= i < j < |addresses| ==> addresses[i].hostname != addresses[j].hostname
      invariant forall a :: a in addresses ==> a.ips == Tables.Lookup(view, a.hostname)
      decreases rest
    {
      var h :| h in rest;
      var a := Address(h, all[h].arr[..all[h].len]);
      assert a.ips == Tables.Lookup(view, h) by {
        assert all[h].arr[..] == all[h].arr[..all[h].len];
      }
      HostnamesSnoc(addresses, a);
      addresses := addresses + [a];
      rest := rest - {h};
    }
  }
}
