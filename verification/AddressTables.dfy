/**
 The address table as the program keeps it: a map from hostnames to slices whose
 backing arrays are changed in place. No two hostnames share a backing array, and
 the arrays handed out by Lookup and GetAllAddresses are never part of the table.
 */
module AddressTables {
  import opened Entries
  import opened Names
  import opened Slices
  import Tables

  class AddressTable {
    var addresses: map<string, Slice>
    var pausedPruning: bool
    var lastResume: Option<int>
    var warm: bool
    const stalenessThreshold: int
    const resumePruningDelay: int

    ghost function Arrays(): set<array<Entry>>
      reads this`addresses
    {
      set h | h in addresses :: addresses[h].arr
    }

    /** The slices are in bounds and separate. */
    ghost predicate Separate()
      reads this`addresses
    {
      && (forall h :: h in addresses ==> InBounds(addresses[h]))
      && (forall g, h :: g in addresses && h in addresses && g != h ==> addresses[g].arr != addresses[h].arr)
    }

    ghost function View(): Tables.Table
      requires Separate()
      reads this`addresses, Arrays()
    {
      map h | h in addresses :: Contents(addresses[h])
    }

    ghost predicate Valid()
      reads this`addresses, Arrays()
    {
      Separate() && Tables.WellFormed(View())
    }

    constructor (stalenessThreshold: int, resumePruningDelay: int)
      ensures Valid() && fresh(Arrays())
      ensures View() == map[]
      ensures !pausedPruning && lastResume == None && !warm
      ensures this.stalenessThreshold == stalenessThreshold
      ensures this.resumePruningDelay == resumePruningDelay
    {
      addresses := map[];
      pausedPruning, lastResume, warm := false, None, false;
      this.stalenessThreshold := stalenessThreshold;
      this.resumePruningDelay := resumePruningDelay;
    }

    method EntriesForHostname(h: string) returns (s: Slice)
      requires Separate()
      ensures InBounds(s) && Contents(s) == Tables.EntriesFor(View(), h)
      ensures if h in addresses then s == addresses[h] else fresh(s.arr)
    {
      if h in addresses {
        s := addresses[h];
      } else {
        var empty := new Entry[0];
        s := Slice(empty, 0);
      }
    }

    /** Storing a slice that no other host uses replaces that host's entries and no others. */
    twostate lemma Stored(h: string, new s: Slice)
      requires old(Separate())
      requires InBounds(s) && addresses == old(addresses)[h := s]
      requires forall g :: g in old(addresses) && g != h ==> old(addresses[g]).arr != s.arr
      requires forall g :: g in old(addresses) && g != h ==> unchanged(old(addresses[g]).arr)
      ensures Separate() && View() == old(View())[h := Contents(s)]
    {
      assert Separate();
      var v, w := View(), old(View())[h := Contents(s)];
      forall g | g in v ensures v[g] == w[g] {
        if g != h {
          assert addresses[g] == old(addresses[g]);
          assert Contents(addresses[g]) == old(Contents(addresses[g]));
        }
      }
      Tables.SameHosts(v, w);
    }

    twostate lemma Erased(h: string)
      requires old(Separate())
      requires addresses == old(addresses) - {h}
      requires forall g :: g in addresses ==> unchanged(addresses[g].arr)
      ensures Separate() && View() == old(View()) - {h}
    {
      var v, w := View(), old(View()) - {h};
      forall g | g in v ensures v[g] == w[g] {
        assert Contents(addresses[g]) == old(Contents(addresses[g]));
      }
      Tables.SameHosts(v, w);
    }

    twostate lemma Untouched()
      requires old(Valid()) && unchanged(this) && unchanged(old(Arrays()))
      ensures Valid() && View() == old(View())
    {
      assert View() == old(View());
    }

    method Touch(h: string, ip: string, now: int)
      requires Separate()
      modifies this`addresses, Arrays()
      ensures Separate() && fresh(Arrays() - old(Arrays()))
      ensures View() == old(View())[h := Entries.Touch(Tables.EntriesFor(old(View()), h), ip, now)]
    {
      var entries := EntriesForHostname(h);
      var index := Find(entries, ip);
      if index == -1 {
        var longer := Append(entries, Entry(ip, now));
        addresses := addresses[h := longer];
        Stored(h, longer);
      } else {
        entries.arr[index] := Entry(ip, now);
        assert addresses == addresses[h := entries];
        Stored(h, entries);
      }
    }

    /** The clock is read for each hostname. */
    method Add(hostnames: seq<string>, ip: string, readings: seq<int>)
      requires Valid() && |readings| == |hostnames|
      modifies this`addresses, Arrays()
      ensures Valid() && fresh(Arrays() - old(Arrays()))
      ensures View() == Tables.AddEach(old(View()), hostnames, ip, readings)
    {
      ghost var was := View();
      assert Tables.AddEach(was, hostnames[..0], ip, readings[..0]) == was;
      hide View, Separate, Tables.WellFormed, Tables.AddEach, Entries.Touch, Tables.EntriesFor;
      for i := 0 to |hostnames|
        invariant Valid() && fresh(Arrays() - old(Arrays()))
        invariant View() == Tables.AddEach(was, hostnames[..i], ip, readings[..i])
      {
        Tables.AddOneWellFormed(View(), hostnames[i], ip, readings[i]);
        Tables.AddEachNext(was, hostnames, ip, readings, i);
        Touch(Fqdn(hostnames[i]), ip, readings[i]);
      }
      assert hostnames[..|hostnames|] == hostnames && readings[..|readings|] == readings;
    }

    method Drop(h: string, ip: string)
      requires Separate()
      modifies this`addresses, Arrays()
      ensures Separate() && Arrays() <= old(Arrays())
      ensures View() == Tables.DropAt(old(View()), h, ip)
    {
      var entries := EntriesForHostname(h);
      var index := Find(entries, ip);
      if index > -1 {
        if entries.len == 1 {
          addresses := addresses - {h};
          Erased(h);
        } else {
          var shorter := Delete(entries, index);
          addresses := addresses[h := shorter];
          Stored(h, shorter);
        }
      }
    }

    method Remove(hostnames: seq<string>, ip: string)
      requires Valid()
      modifies this`addresses, Arrays()
      ensures Valid() && Arrays() <= old(Arrays())
      ensures View() == Tables.RemoveAll(old(View()), hostnames, ip)
    {
      for i := 0 to |hostnames|
        invariant Valid() && Arrays() <= old(Arrays())
        invariant View() == Tables.RemoveAll(old(View()), hostnames[..i], ip)
      {
        Tables.RemoveOneWellFormed(View(), hostnames[i], ip);
        Drop(Fqdn(hostnames[i]), ip);
        assert hostnames[..i + 1][..i] == hostnames[..i];
      }
      assert hostnames[..|hostnames|] == hostnames;
    }

    method Lookup(hostname: string) returns (ips: IPSlice)
      requires Valid()
      ensures fresh(ips.arr) && ips.arr.Length == ips.len
      ensures ips.arr[..] == Tables.Lookup(View(), hostname)
    {
      var found := EntriesForHostname(Fqdn(hostname));
      ips := ToIPs(found);
    }

    /** The range over the map takes the hosts in any order. */
    method GetAllAddresses() returns (all: map<string, IPSlice>)
      requires Valid()
      ensures all.Keys == View().Keys
      ensures forall h :: h in all ==>
                fresh(all[h].arr) && all[h].arr.Length == all[h].len && all[h].arr[..] == Tables.Lookup(View(), h)
    {
      all := map[];
      var rest := addresses.Keys;
      while rest != {}
        invariant rest <= addresses.Keys && all.Keys == addresses.Keys - rest
        invariant forall h :: h in all ==>
                    fresh(all[h].arr) && all[h].arr.Length == all[h].len && all[h].arr[..] == Tables.Lookup(View(), h)
        decreases rest
      {
        var h :| h in rest;
        var ips := ToIPs(addresses[h]);
        all := all[h := ips];
        rest := rest - {h};
      }
    }

    method SetWarm()
      modifies this`warm
      ensures warm
    {
      warm := true;
    }

    method IsWarm() returns (w: bool)
      ensures w == warm
    {
      w := warm;
    }

    method PausePruning()
      modifies this`pausedPruning
      ensures pausedPruning
    {
      pausedPruning := true;
    }

    method ResumePruning(now: int)
      modifies this`pausedPruning, this`lastResume
      ensures !pausedPruning && lastResume == Some(now)
    {
      lastResume := Some(now);
      pausedPruning := false;
    }

    // The pruner's pass, one method for each region it runs under the mutex.

    method PassesGate(now: int) returns (pass: bool)
      ensures pass <==> !pausedPruning && (lastResume == None || now - lastResume.value >= resumePruningDelay)
    {
      pass := !(pausedPruning || (lastResume.Some? && now - lastResume.value < resumePruningDelay));
    }

    /** The clock is read for each entry. */
    method AddressesWithStaleEntries(clock: (string, nat) -> int) returns (candidates: seq<string>)
      requires Valid()
      ensures forall i, j :: 0 <= i < j < |candidates| ==> candidates[i] != candidates[j]
      ensures Elements(candidates) == Tables.StaleHostsAt(View(), clock, stalenessThreshold)
    {
      candidates := [];
      var rest := addresses.Keys;
      while rest != {}
        invariant rest <= addresses.Keys
        invariant forall i, j :: 0 <= i < j < |candidates| ==> candidates[i] != candidates[j]
        invariant forall h :: h in candidates <==> h in Tables.StaleHostsAt(View(), clock, stalenessThreshold) - rest
        decreases rest
      {
        var h :| h in rest;
        var stale := AnyStale(addresses[h], clock, h, stalenessThreshold);
        if stale {
          assert h !in candidates;
          candidates := candidates + [h];
        }
        rest := rest - {h};
      }
    }

    method PruneOne(h: string, clock: (nat, nat) -> int, n: nat) returns (oldCount: nat, newCount: nat)
      requires Separate()
      modifies this`addresses
      ensures Separate() && fresh(Arrays() - old(Arrays()))
      ensures View() == Tables.PruneOneAt(old(View()), h, clock, n, stalenessThreshold)
      ensures oldCount == |Tables.EntriesFor(old(View()), h)|
      ensures newCount == |Tables.EntriesFor(View(), h)|
    {
      oldCount, newCount := 0, 0;
      if h in addresses {
        var entries := addresses[h];
        var kept := Refreshed(entries, clock, n, stalenessThreshold);
        addresses := addresses[h := kept];
        Stored(h, kept);
        oldCount, newCount := entries.len, kept.len;
      }
    }

    /** The clock is read for each entry. The totals differ by the number of pairs deleted. */
    method PruneStaleEntries(candidates: seq<string>, clock: (nat, nat) -> int)
      returns (oldTotal: nat, newTotal: nat)
      requires Valid()
      modifies this`addresses
      ensures Valid() && fresh(Arrays() - old(Arrays()))
      ensures View() == Tables.PruneEach(old(View()), candidates, clock, stalenessThreshold)
      ensures oldTotal - newTotal == |Tables.Abs(old(View()))| - |Tables.Abs(View())|
    {
      oldTotal, newTotal := 0, 0;
      ghost var was := View();
      assert Tables.PruneEach(was, candidates[..0], clock, stalenessThreshold) == was;
      hide View, Separate, Tables.PruneOneAt, Tables.PruneEach, Tables.Abs, Tables.WellFormed, Tables.EntriesFor;
      for i := 0 to |candidates|
        invariant Separate() && Tables.WellFormed(View()) && fresh(Arrays() - old(Arrays()))
        invariant View() == Tables.PruneEach(was, candidates[..i], clock, stalenessThreshold)
        invariant oldTotal - newTotal == |Tables.Abs(was)| - |Tables.Abs(View())|
      {
        Tables.PruneOneAtWellFormed(View(), candidates[i], clock, i, stalenessThreshold);
        Tables.PruneEachNext(was, candidates, clock, stalenessThreshold, i);
        var oldCount, newCount := PruneOne(candidates[i], clock, i);
        oldTotal, newTotal := oldTotal + oldCount, newTotal + newCount;
      }
      assert candidates[..|candidates|] == candidates;
    }
  }
}
