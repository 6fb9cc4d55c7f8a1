/**
 The address table as a value, at two levels: a map from absolute hostnames to
 ordered entries, and the registry of (hostname, IP) pairs with their last
 registration time. Every operation on the first refines one on the second.
 */
module Tables {
  import opened Names
  import opened Entries
  import opened Sequences

  type Table = map<string, seq<Entry>>
  type Pair = (string, string)
  type Registry = map<Pair, int>

  ghost predicate WellFormed(t: Table) {
    forall h :: h in t ==> IsFqdn(h) && Distinct(t[h])
  }

  // ---------------------------------------------------------------- ordered table

  function EntriesFor(t: Table, h: string): seq<Entry> {
    if h in t then t[h] else []
  }

  function AddOne(t: Table, hostname: string, ip: string, now: int): Table {
    t[Fqdn(hostname) := Touch(EntriesFor(t, Fqdn(hostname)), ip, now)]
  }

  function DropAt(t: Table, h: string, ip: string): Table {
    var es := EntriesFor(t, h);
    if IndexOf(es, ip) < 0 then t
    else if |es| == 1 then t - {h}
    else t[h := Drop(es, ip)]
  }

  function RemoveOne(t: Table, hostname: string, ip: string): Table {
    DropAt(t, Fqdn(hostname), ip)
  }

  function AddAll(t: Table, hostnames: seq<string>, ip: string, now: int): Table {
    if hostnames == [] then t else
      var n := |hostnames| - 1;
      AddOne(AddAll(t, hostnames[..n], ip, now), hostnames[n], ip, now)
  }

  /** A batch Add with a clock reading of its own for each hostname. */
  function AddEach(t: Table, hostnames: seq<string>, ip: string, readings: seq<int>): Table
    requires |readings| == |hostnames|
  {
    if hostnames == [] then t else
      var n := |hostnames| - 1;
      AddOne(AddEach(t, hostnames[..n], ip, readings[..n]), hostnames[n], ip, readings[n])
  }

  function RemoveAll(t: Table, hostnames: seq<string>, ip: string): Table {
    if hostnames == [] then t else
      var n := |hostnames| - 1;
      RemoveOne(RemoveAll(t, hostnames[..n], ip), hostnames[n], ip)
  }

  /** The write section of a prune pass: a host that loses all its entries keeps an empty list. */
  function PruneAll(t: Table, candidates: set<string>, now: int, threshold: int): Table {
    map h | h in t :: if h in candidates then Fresh(t[h], now, threshold) else t[h]
  }

  ghost predicate HasStale(es: seq<Entry>, now: int, threshold: int) {
    exists e :: e in es && Stale(e.updateTime, now, threshold)
  }

  /** The read section of a prune pass. */
  ghost function StaleHosts(t: Table, now: int, threshold: int): set<string> {
    set h | h in t && HasStale(t[h], now, threshold)
  }

  /** The read section with a clock reading for each entry. */
  ghost function StaleHostsAt(t: Table, clock: (string, nat) -> int, threshold: int): set<string> {
    set h | h in t && HasStaleAt(t[h], clock, h, threshold)
  }

  function PruneOneAt(t: Table, h: string, clock: (nat, nat) -> int, n: nat, threshold: int): Table {
    if h in t then t[h := FreshAt(t[h], clock, n, threshold)] else t
  }

  /** The write section with a clock reading for each entry of each candidate, `clock(n, i)` for the n-th candidate. */
  function PruneEach(t: Table, candidates: seq<string>, clock: (nat, nat) -> int, threshold: int): Table {
    if candidates == [] then t else
      var n := |candidates| - 1;
      PruneOneAt(PruneEach(t, candidates[..n], clock, threshold), candidates[n], clock, n, threshold)
  }

  function Lookup(t: Table, hostname: string): seq<string> {
    IPs(EntriesFor(t, Fqdn(hostname)))
  }

  // ---------------------------------------------------------------- registry

  function Pairs(names: set<string>, ip: string): set<Pair> {
    set n | n in names :: (n, ip)
  }

  function Register(r: Registry, names: set<string>, ip: string, now: int): Registry {
    r + map k | k in Pairs(names, ip) :: now
  }

  function Unregister(r: Registry, names: set<string>, ip: string): Registry {
    r - Pairs(names, ip)
  }

  function Prune(r: Registry, candidates: set<string>, now: int, threshold: int): Registry {
    map k | k in r && !(k.0 in candidates && Stale(r[k], now, threshold)) :: r[k]
  }

  function ScanStale(r: Registry, now: int, threshold: int): set<string> {
    set k | k in r && Stale(r[k], now, threshold) :: k.0
  }

  // ---------------------------------------------------------------- abstraction

  function TimeIn(t: Table, k: Pair): Option<int> {
    TimeOf(EntriesFor(t, k.0), k.1)
  }

  function Listed(t: Table): set<Pair> {
    set h, i | h in t && 0 <= i < |t[h]| :: (h, t[h][i].ip)
  }

  lemma ListedIff(t: Table, k: Pair)
    ensures k in Listed(t) <==> TimeIn(t, k).Some?
  {
    if k in Listed(t) {
      var h, i :| h in t && 0 <= i < |t[h]| && (h, t[h][i].ip) == k;
      assert t[h][i] in t[h];
    }
    if TimeIn(t, k).Some? {
      var i := IndexOf(t[k.0], k.1);
      assert (k.0, t[k.0][i].ip) == k;
    }
  }

  function Abs(t: Table): (r: Registry)
    ensures r.Keys == Listed(t)
    ensures forall k :: k in r ==> TimeIn(t, k) == Some(r[k])
  {
    map k | k in Listed(t) && (ListedIff(t, k); true) :: (ListedIff(t, k); TimeIn(t, k).value)
  }

  lemma AbsAt(t: Table, k: Pair)
    ensures k in Abs(t) <==> TimeIn(t, k).Some?
    ensures k in Abs(t) ==> TimeIn(t, k) == Some(Abs(t)[k])
  {
    ListedIff(t, k);
  }

  /** What the ordered table lists for a name is what the registry holds for it. */
  lemma LookupAgrees(t: Table, hostname: string, ip: string)
    ensures ip in Lookup(t, hostname) <==> (Fqdn(hostname), ip) in Abs(t)
  {
    var es := EntriesFor(t, Fqdn(hostname));
    AbsAt(t, (Fqdn(hostname), ip));
    if ip in Lookup(t, hostname) {
      var i :| 0 <= i < |es| && es[i].ip == ip;
      assert es[i] in es;
    }
    if i :| 0 <= i < |es| && es[i].ip == ip {
      assert Lookup(t, hostname)[i] == ip;
    }
  }

  /** No IP is listed twice. */
  lemma LookupDistinct(t: Table, hostname: string)
    requires WellFormed(t)
    ensures NoRepeats(Lookup(t, hostname))
  {
    var es, ips := EntriesFor(t, Fqdn(hostname)), Lookup(t, hostname);
    assert Distinct(es);
    forall i, j | 0 <= i < j < |ips| ensures ips[i] != ips[j] {
      assert ips[i] == es[i].ip && ips[j] == es[j].ip;
    }
  }

  /** Two names get the same answers from every table exactly when they are the same host. */
  lemma LookupIdentifiesHosts(a: string, b: string)
    ensures (forall t: Table :: Lookup(t, a) == Lookup(t, b)) <==> SameHost(a, b)
  {
    FqdnIdentifies(a, b);
    var t: Table := map[Fqdn(a) := [Entry("", 0)]];
    assert |Lookup(t, a)| == 1;
    assert Fqdn(a) != Fqdn(b) ==> |Lookup(t, b)| == 0;
  }

  // ---------------------------------------------------------------- refinement

  lemma SameRegistry(a: Registry, b: Registry)
    requires forall k: Pair :: (k in a <==> k in b) && (k in a ==> a[k] == b[k])
    ensures a == b
  {
  }

  lemma TouchHost(t: Table, h: string, ip: string, now: int, k: Pair)
    requires Distinct(EntriesFor(t, h))
    ensures TimeIn(t[h := Touch(EntriesFor(t, h), ip, now)], k) == if k == (h, ip) then Some(now) else TimeIn(t, k)
  {
    TouchTimes(EntriesFor(t, h), ip, now, k.1);
  }

  lemma AddOneAt(t: Table, hostname: string, ip: string, now: int, k: Pair)
    requires WellFormed(t)
    ensures var a := Abs(AddOne(t, hostname, ip, now));
            (k in a <==> k in Abs(t) || k == (Fqdn(hostname), ip)) &&
            (k in a ==> a[k] == if k == (Fqdn(hostname), ip) then now else Abs(t)[k])
  {
    var h := Fqdn(hostname);
    assert Distinct(EntriesFor(t, h));
    TouchHost(t, h, ip, now, k);
    AbsAt(t, k);
    AbsAt(AddOne(t, hostname, ip, now), k);
  }

  lemma AddOneWellFormed(t: Table, hostname: string, ip: string, now: int)
    requires WellFormed(t)
    ensures WellFormed(AddOne(t, hostname, ip, now))
  {
    TouchTimes(EntriesFor(t, Fqdn(hostname)), ip, now, ip);
  }

  lemma AddOneRefines(t: Table, hostname: string, ip: string, now: int)
    requires WellFormed(t)
    ensures Abs(AddOne(t, hostname, ip, now)) == Abs(t)[(Fqdn(hostname), ip) := now]
  {
    var a, r := Abs(AddOne(t, hostname, ip, now)), Abs(t)[(Fqdn(hostname), ip) := now];
    forall k: Pair ensures (k in a <==> k in r) && (k in a ==> a[k] == r[k]) {
      AddOneAt(t, hostname, ip, now, k);
    }
    SameRegistry(a, r);
  }

  lemma RemoveOneEntries(t: Table, hostname: string, ip: string, h: string)
    ensures EntriesFor(RemoveOne(t, hostname, ip), h)
         == if h == Fqdn(hostname) then Drop(EntriesFor(t, h), ip) else EntriesFor(t, h)
  {
  }

  lemma RemoveOneAt(t: Table, hostname: string, ip: string, k: Pair)
    requires WellFormed(t)
    ensures var a := Abs(RemoveOne(t, hostname, ip));
            (k in a <==> k in Abs(t) && k != (Fqdn(hostname), ip)) &&
            (k in a ==> a[k] == Abs(t)[k])
  {
    var h := Fqdn(hostname);
    assert Distinct(EntriesFor(t, h));
    DropTimes(EntriesFor(t, h), ip, k.1);
    RemoveOneEntries(t, hostname, ip, k.0);
    AbsAt(t, k);
    AbsAt(RemoveOne(t, hostname, ip), k);
  }

  lemma RemoveOneWellFormed(t: Table, hostname: string, ip: string)
    requires WellFormed(t)
    ensures WellFormed(RemoveOne(t, hostname, ip))
  {
    DropTimes(EntriesFor(t, Fqdn(hostname)), ip, ip);
  }

  lemma RemoveOneRefines(t: Table, hostname: string, ip: string)
    requires WellFormed(t)
    ensures Abs(RemoveOne(t, hostname, ip)) == Abs(t) - {(Fqdn(hostname), ip)}
  {
    var a, r := Abs(RemoveOne(t, hostname, ip)), Abs(t) - {(Fqdn(hostname), ip)};
    forall k: Pair ensures (k in a <==> k in r) && (k in a ==> a[k] == r[k]) {
      RemoveOneAt(t, hostname, ip, k);
    }
    SameRegistry(a, r);
  }

  lemma NormalisedNone()
    ensures Normalised([]) == {}
  {
  }

  lemma NormalisedSnoc(init: seq<string>, last: string)
    ensures Normalised(init + [last]) == Normalised(init) + {Fqdn(last)}
  {
  }

  lemma RegisterNone(r: Registry, ip: string, now: int)
    ensures Register(r, {}, ip, now) == r
  {
    SameRegistry(Register(r, {}, ip, now), r);
  }

  lemma RegisterName(r: Registry, names: set<string>, h: string, ip: string, now: int)
    ensures Register(r, names + {h}, ip, now) == Register(r, names, ip, now)[(h, ip) := now]
  {
    assert Pairs(names + {h}, ip) == Pairs(names, ip) + {(h, ip)};
  }

  lemma UnregisterName(r: Registry, names: set<string>, h: string, ip: string)
    ensures Unregister(r, names + {h}, ip) == Unregister(r, names, ip) - {(h, ip)}
  {
    assert Pairs(names + {h}, ip) == Pairs(names, ip) + {(h, ip)};
  }

  /** The clock stands still during the batch. */
  function Still(hostnames: seq<string>, now: int): (readings: seq<int>)
    ensures |readings| == |hostnames|
  {
    seq(|hostnames|, _ => now)
  }

  lemma AddEachNext(t: Table, hostnames: seq<string>, ip: string, readings: seq<int>, i: nat)
    requires i < |hostnames| == |readings|
    ensures AddEach(t, hostnames[..i + 1], ip, readings[..i + 1])
         == AddOne(AddEach(t, hostnames[..i], ip, readings[..i]), hostnames[i], ip, readings[i])
  {
    hide AddOne;
    assert hostnames[..i + 1][..i] == hostnames[..i] && readings[..i + 1][..i] == readings[..i];
  }

  lemma {:induction false} AddEachAtOnce(t: Table, hostnames: seq<string>, ip: string, now: int)
    ensures AddEach(t, hostnames, ip, Still(hostnames, now)) == AddAll(t, hostnames, ip, now)
  {
    hide AddOne;
    if hostnames != [] {
      var n := |hostnames| - 1;
      AddEachAtOnce(t, hostnames[..n], ip, now);
      assert Still(hostnames, now)[..n] == Still(hostnames[..n], now);
    }
  }

  lemma {:induction false} AddAllWellFormed(t: Table, hostnames: seq<string>, ip: string, now: int)
    requires WellFormed(t)
    ensures WellFormed(AddAll(t, hostnames, ip, now))
  {
    if hostnames != [] {
      var n := |hostnames| - 1;
      AddAllWellFormed(t, hostnames[..n], ip, now);
      AddOneWellFormed(AddAll(t, hostnames[..n], ip, now), hostnames[n], ip, now);
    }
  }

  /** A batch registration sets exactly the pairs of its normalised names, whatever their order or repetition. */
  lemma {:induction false} AddAllRefines(t: Table, hostnames: seq<string>, ip: string, now: int)
    requires WellFormed(t)
    ensures Abs(AddAll(t, hostnames, ip, now)) == Register(Abs(t), Normalised(hostnames), ip, now)
  {
    hide WellFormed, Abs, AddOne, Register, Normalised, Fqdn;
    NormalisedNone();
    RegisterNone(Abs(t), ip, now);
    if hostnames != [] {
      var n := |hostnames| - 1;
      var init, last := hostnames[..n], hostnames[n];
      AddAllRefines(t, init, ip, now);
      AddAllWellFormed(t, init, ip, now);
      AddOneRefines(AddAll(t, init, ip, now), last, ip, now);
      NormalisedSnoc(init, last);
      assert hostnames == init + [last];
      RegisterName(Abs(t), Normalised(init), Fqdn(last), ip, now);
    }
  }

  lemma {:induction false} RemoveAllWellFormed(t: Table, hostnames: seq<string>, ip: string)
    requires WellFormed(t)
    ensures WellFormed(RemoveAll(t, hostnames, ip))
  {
    if hostnames != [] {
      var n := |hostnames| - 1;
      RemoveAllWellFormed(t, hostnames[..n], ip);
      RemoveOneWellFormed(RemoveAll(t, hostnames[..n], ip), hostnames[n], ip);
    }
  }

  lemma {:induction false} RemoveAllRefines(t: Table, hostnames: seq<string>, ip: string)
    requires WellFormed(t)
    ensures Abs(RemoveAll(t, hostnames, ip)) == Unregister(Abs(t), Normalised(hostnames), ip)
  {
    NormalisedNone();
    SameRegistry(Abs(t), Unregister(Abs(t), {}, ip));
    hide WellFormed, Abs, RemoveOne, Unregister, Normalised, Fqdn;
    if hostnames == [] {
    } else {
      var n := |hostnames| - 1;
      var init, last := hostnames[..n], hostnames[n];
      RemoveAllRefines(t, init, ip);
      RemoveAllWellFormed(t, init, ip);
      RemoveOneRefines(RemoveAll(t, init, ip), last, ip);
      NormalisedSnoc(init, last);
      assert hostnames == init + [last];
      UnregisterName(Abs(t), Normalised(init), Fqdn(last), ip);
    }
  }

  lemma PruneAllAt(t: Table, candidates: set<string>, now: int, threshold: int, k: Pair)
    requires WellFormed(t)
    ensures var a := Abs(PruneAll(t, candidates, now, threshold));
            (k in a <==> k in Abs(t) && !(k.0 in candidates && Stale(Abs(t)[k], now, threshold))) &&
            (k in a ==> a[k] == Abs(t)[k])
  {
    if k.0 in t { FreshTimes(t[k.0], now, threshold, k.1); }
    AbsAt(t, k);
    AbsAt(PruneAll(t, candidates, now, threshold), k);
  }

  lemma PruneAllRefines(t: Table, candidates: set<string>, now: int, threshold: int)
    requires WellFormed(t)
    ensures WellFormed(PruneAll(t, candidates, now, threshold))
    ensures Abs(PruneAll(t, candidates, now, threshold)) == Prune(Abs(t), candidates, now, threshold)
  {
    var t' := PruneAll(t, candidates, now, threshold);
    forall h | h in t' ensures Distinct(t'[h]) {
      FreshDistinct(t[h], now, threshold);
    }
    var a, r := Abs(t'), Prune(Abs(t), candidates, now, threshold);
    forall k: Pair ensures (k in a <==> k in r) && (k in a ==> a[k] == r[k]) {
      PruneAllAt(t, candidates, now, threshold, k);
    }
    SameRegistry(a, r);
  }

  lemma ScanRefines(t: Table, now: int, threshold: int)
    requires WellFormed(t)
    ensures StaleHosts(t, now, threshold) == ScanStale(Abs(t), now, threshold)
  {
    forall h | h in StaleHosts(t, now, threshold) ensures h in ScanStale(Abs(t), now, threshold) {
      var e :| e in t[h] && Stale(e.updateTime, now, threshold);
      TimeOfMember(t[h], e.ip, e.updateTime);
      AbsAt(t, (h, e.ip));
      assert (h, e.ip) in Abs(t);
    }
    forall h | h in ScanStale(Abs(t), now, threshold) ensures h in StaleHosts(t, now, threshold) {
      var k :| k in Abs(t) && Stale(Abs(t)[k], now, threshold) && k.0 == h;
      AbsAt(t, k);
      TimeOfMember(t[h], k.1, Abs(t)[k]);
      assert Entry(k.1, Abs(t)[k]) in t[h];
    }
  }

  // ---------------------------------------------------------------- batch laws

  lemma AddOneHosts(t: Table, hostname: string, ip: string, now: int, h: string)
    ensures h in AddOne(t, hostname, ip, now) <==> h in t || h == Fqdn(hostname)
    ensures EntriesFor(AddOne(t, hostname, ip, now), h)
         == if h == Fqdn(hostname) then Touch(EntriesFor(t, h), ip, now) else EntriesFor(t, h)
  {
  }

  /** A batch registration touches each of its normalised names once and nothing else. */
  lemma {:induction false} AddAllHosts(t: Table, hostnames: seq<string>, ip: string, now: int, h: string)
    ensures h in AddAll(t, hostnames, ip, now) <==> h in t || h in Normalised(hostnames)
    ensures EntriesFor(AddAll(t, hostnames, ip, now), h)
         == if h in Normalised(hostnames) then Touch(EntriesFor(t, h), ip, now) else EntriesFor(t, h)
  {
    hide Touch, EntriesFor, AddOne, Normalised, Fqdn;
    NormalisedNone();
    if hostnames != [] {
      var n := |hostnames| - 1;
      var init, last := hostnames[..n], hostnames[n];
      AddAllHosts(t, init, ip, now, h);
      AddOneHosts(AddAll(t, init, ip, now), last, ip, now, h);
      NormalisedSnoc(init, last);
      assert hostnames == init + [last];
      TouchTwice(EntriesFor(t, h), ip, now);
    }
  }

  lemma RemoveOneHosts(t: Table, hostname: string, ip: string, h: string)
    ensures h in RemoveOne(t, hostname, ip)
       <==> h in t && !(h == Fqdn(hostname) && Lists(EntriesFor(t, h), ip) && |EntriesFor(t, h)| == 1)
  {
  }

  lemma {:induction false} RemoveAllEntries(t: Table, hostnames: seq<string>, ip: string, h: string)
    requires !Lists(Drop(EntriesFor(t, h), ip), ip)
    ensures EntriesFor(RemoveAll(t, hostnames, ip), h)
         == if h in Normalised(hostnames) then Drop(EntriesFor(t, h), ip) else EntriesFor(t, h)
  {
    hide Drop, Lists, EntriesFor, RemoveOne, Normalised, Fqdn;
    NormalisedNone();
    if hostnames != [] {
      var n := |hostnames| - 1;
      var init, last := hostnames[..n], hostnames[n];
      RemoveAllEntries(t, init, ip, h);
      RemoveOneEntries(RemoveAll(t, init, ip), last, ip, h);
      DropUnlisted(Drop(EntriesFor(t, h), ip), ip);
      NormalisedSnoc(init, last);
      assert hostnames == init + [last];
    }
  }

  ghost predicate LosesHost(t: Table, names: set<string>, ip: string, h: string) {
    h in names && Lists(EntriesFor(t, h), ip) && |EntriesFor(t, h)| == 1
  }

  lemma LosesNoHost(t: Table, ip: string, h: string)
    ensures !LosesHost(t, {}, ip, h)
  {
  }

  lemma RemoveNextKey(t: Table, m: Table, names: set<string>, last: string, ip: string, h: string)
    requires h in m <==> h in t && !LosesHost(t, names, ip, h)
    requires h in names ==> !Lists(EntriesFor(m, h), ip)
    requires h !in names ==> EntriesFor(m, h) == EntriesFor(t, h)
    ensures h in RemoveOne(m, last, ip) <==> h in t && !LosesHost(t, names + {Fqdn(last)}, ip, h)
  {
    RemoveOneHosts(m, last, ip, h);
  }

  lemma {:induction false} RemoveAllKeys(t: Table, hostnames: seq<string>, ip: string, h: string)
    requires !Lists(Drop(EntriesFor(t, h), ip), ip)
    ensures h in RemoveAll(t, hostnames, ip) <==> h in t && !LosesHost(t, Normalised(hostnames), ip, h)
  {
    hide Drop, Lists, EntriesFor, RemoveOne, Normalised, Fqdn, LosesHost;
    NormalisedNone();
    LosesNoHost(t, ip, h);
    if hostnames != [] {
      var n := |hostnames| - 1;
      var init, last := hostnames[..n], hostnames[n];
      RemoveAllKeys(t, init, ip, h);
      RemoveAllEntries(t, init, ip, h);
      RemoveNextKey(t, RemoveAll(t, init, ip), Normalised(init), last, ip, h);
      NormalisedSnoc(init, last);
      assert hostnames == init + [last];
    }
  }

  /** A batch removal drops the IP from each of its normalised names; a host goes when it loses its last entry. */
  lemma RemoveAllHosts(t: Table, hostnames: seq<string>, ip: string, h: string)
    requires WellFormed(t)
    ensures h in RemoveAll(t, hostnames, ip)
       <==> h in t && !LosesHost(t, Normalised(hostnames), ip, h)
    ensures EntriesFor(RemoveAll(t, hostnames, ip), h)
         == if h in Normalised(hostnames) then Drop(EntriesFor(t, h), ip) else EntriesFor(t, h)
  {
    assert Distinct(EntriesFor(t, h));
    DropTwice(EntriesFor(t, h), ip);
    RemoveAllEntries(t, hostnames, ip, h);
    RemoveAllKeys(t, hostnames, ip, h);
  }

  lemma SameTable(a: Table, b: Table)
    requires forall h :: (h in a <==> h in b) && EntriesFor(a, h) == EntriesFor(b, h)
    ensures a == b
  {
    forall h | h in a ensures a[h] == b[h] {
      assert EntriesFor(a, h) == EntriesFor(b, h);
    }
  }

  lemma SameHosts(a: Table, b: Table)
    requires a.Keys == b.Keys && forall h :: h in a ==> a[h] == b[h]
    ensures a == b
  {
  }

  /** At one instant a batch depends only on its set of normalised names, and this to the order of the entries. */
  lemma BatchDependsOnNames(t: Table, a: seq<string>, b: seq<string>, ip: string, now: int)
    requires WellFormed(t)
    requires Normalised(a) == Normalised(b)
    ensures AddAll(t, a, ip, now) == AddAll(t, b, ip, now)
    ensures RemoveAll(t, a, ip) == RemoveAll(t, b, ip)
  {
    var p, q := AddAll(t, a, ip, now), AddAll(t, b, ip, now);
    forall h ensures (h in p <==> h in q) && EntriesFor(p, h) == EntriesFor(q, h) {
      AddAllHosts(t, a, ip, now, h);
      AddAllHosts(t, b, ip, now, h);
    }
    SameTable(p, q);
    var x, y := RemoveAll(t, a, ip), RemoveAll(t, b, ip);
    forall h ensures (h in x <==> h in y) && EntriesFor(x, h) == EntriesFor(y, h) {
      RemoveAllHosts(t, a, ip, h);
      RemoveAllHosts(t, b, ip, h);
    }
    SameTable(x, y);
  }

  // ---------------------------------------------------------------- accounting

  function HostPairs(h: string, es: seq<Entry>): set<Pair> {
    set i | 0 <= i < |es| :: (h, es[i].ip)
  }

  lemma {:induction false} HostPairsCount(h: string, es: seq<Entry>)
    requires Distinct(es)
    ensures |HostPairs(h, es)| == |es|
  {
    if es == [] {
      assert HostPairs(h, es) == {};
    } else {
      var n := |es| - 1;
      HostPairsCount(h, es[..n]);
      assert HostPairs(h, es) == HostPairs(h, es[..n]) + {(h, es[n].ip)};
      assert (h, es[n].ip) !in HostPairs(h, es[..n]);
    }
  }

  lemma ListedSplit(t: Table, h: string)
    requires h in t
    ensures Listed(t) == Listed(t - {h}) + HostPairs(h, t[h])
    ensures Listed(t - {h}) !! HostPairs(h, t[h])
  {
    var rest := t - {h};
    forall k | k in Listed(t) && k.0 != h ensures k in Listed(rest) {
      var g, i :| g in t && 0 <= i < |t[g]| && (g, t[g][i].ip) == k;
      assert rest[g] == t[g];
    }
    forall k | k in Listed(rest) ensures k in Listed(t) && k.0 != h {
      var g, i :| g in rest && 0 <= i < |rest[g]| && (g, rest[g][i].ip) == k;
      assert rest[g] == t[g];
    }
  }

  lemma ListedCount(t: Table, h: string)
    requires h in t && Distinct(t[h])
    ensures |Abs(t)| == |Listed(t - {h})| + |t[h]|
  {
    ListedSplit(t, h);
    HostPairsCount(h, t[h]);
    hide Listed, HostPairs;
    assert |Abs(t).Keys| == |Abs(t)|;
  }

  lemma ReplacedRest(t: Table, h: string, es: seq<Entry>)
    ensures t[h := es] - {h} == t - {h}
  {
  }

  /** Replacing the entries of one host changes the number of pairs by the difference of the lengths. */
  lemma ReplaceCount(t: Table, h: string, es: seq<Entry>)
    requires WellFormed(t) && h in t && Distinct(es)
    ensures |Abs(t[h := es])| - |Abs(t)| == |es| - |t[h]|
  {
    assert Distinct(t[h]);
    hide Abs, Listed, Distinct, WellFormed;
    ListedCount(t, h);
    ListedCount(t[h := es], h);
    ReplacedRest(t, h, es);
  }

  // ---------------------------------------------------------------- one write section, host by host

  lemma PruneNone(t: Table, now: int, threshold: int)
    ensures PruneAll(t, {}, now, threshold) == t
  {
  }

  lemma PruneOneIs(t: Table, h: string, now: int, threshold: int)
    ensures PruneAll(t, {h}, now, threshold) == if h in t then t[h := Fresh(t[h], now, threshold)] else t
  {
  }

  lemma PruneTwice(t: Table, a: set<string>, b: set<string>, now: int, threshold: int)
    ensures PruneAll(PruneAll(t, a, now, threshold), b, now, threshold) == PruneAll(t, a + b, now, threshold)
  {
    forall h | h in t ensures Fresh(Fresh(t[h], now, threshold), now, threshold) == Fresh(t[h], now, threshold) {
      FreshTwice(t[h], now, threshold);
    }
  }

  lemma PruneCount(t: Table, h: string, now: int, threshold: int)
    requires WellFormed(t)
    ensures var t' := PruneAll(t, {h}, now, threshold);
            |Abs(t)| - |Abs(t')| == |EntriesFor(t, h)| - |EntriesFor(t', h)|
  {
    PruneOneIs(t, h, now, threshold);
    if h in t {
      FreshDistinct(t[h], now, threshold);
      ReplaceCount(t, h, Fresh(t[h], now, threshold));
    }
  }

  lemma PruneNext(t: Table, hosts: seq<string>, i: nat, now: int, threshold: int)
    requires WellFormed(t) && i < |hosts|
    ensures var a := PruneAll(t, Elements(hosts[..i]), now, threshold);
            var b := PruneAll(t, Elements(hosts[..i + 1]), now, threshold);
            && b == PruneAll(a, {hosts[i]}, now, threshold)
            && |Abs(a)| - |Abs(b)| == |EntriesFor(a, hosts[i])| - |EntriesFor(b, hosts[i])|
  {
    assert Elements(hosts[..i + 1]) == Elements(hosts[..i]) + {hosts[i]};
    PruneTwice(t, Elements(hosts[..i]), {hosts[i]}, now, threshold);
    PruneAllRefines(t, Elements(hosts[..i]), now, threshold);
    PruneCount(PruneAll(t, Elements(hosts[..i]), now, threshold), hosts[i], now, threshold);
  }

  // ---------------------------------------------------------------- readings of their own

  lemma PruneOneAtWellFormed(t: Table, h: string, clock: (nat, nat) -> int, n: nat, threshold: int)
    requires WellFormed(t)
    ensures var t' := PruneOneAt(t, h, clock, n, threshold);
            WellFormed(t') && |Abs(t)| - |Abs(t')| == |EntriesFor(t, h)| - |EntriesFor(t', h)|
  {
    if h in t {
      FreshAtDistinct(t[h], clock, n, threshold);
      ReplaceCount(t, h, FreshAt(t[h], clock, n, threshold));
    }
  }

  lemma StaleHostsAtOnce(t: Table, clock: (string, nat) -> int, now: int, threshold: int)
    requires forall h, i :: clock(h, i) == now
    ensures StaleHostsAt(t, clock, threshold) == StaleHosts(t, now, threshold)
  {
    forall h | h in t ensures HasStaleAt(t[h], clock, h, threshold) <==> HasStale(t[h], now, threshold) {
      if i :| 0 <= i < |t[h]| && Stale(t[h][i].updateTime, clock(h, i), threshold) {
        assert t[h][i] in t[h];
      }
    }
  }

  lemma PruneOneAtOnce(t: Table, h: string, clock: (nat, nat) -> int, n: nat, now: int, threshold: int)
    requires forall i :: clock(n, i) == now
    ensures PruneOneAt(t, h, clock, n, threshold) == PruneAll(t, {h}, now, threshold)
  {
    PruneOneIs(t, h, now, threshold);
    if h in t {
      FreshAtOnce(t[h], clock, n, now, threshold);
    }
    hide PruneAll;
  }

  /** With one reading for the whole section it is the prune of one instant. */
  lemma {:induction false} PruneEachAtOnce(
      t: Table, candidates: seq<string>, clock: (nat, nat) -> int, now: int, threshold: int)
    requires WellFormed(t) && forall n, i :: clock(n, i) == now
    ensures PruneEach(t, candidates, clock, threshold) == PruneAll(t, Elements(candidates), now, threshold)
  {
    hide PruneAll, PruneOneAt, WellFormed;
    if candidates == [] {
      assert Elements(candidates) == {};
      PruneNone(t, now, threshold);
    } else {
      hide Elements;
      var n := |candidates| - 1;
      PruneEachAtOnce(t, candidates[..n], clock, now, threshold);
      PruneNext(t, candidates, n, now, threshold);
      assert candidates[..n + 1] == candidates;
      PruneOneAtOnce(PruneEach(t, candidates[..n], clock, threshold), candidates[n], clock, n, now, threshold);
    }
  }

  lemma {:induction false} PruneEachWellFormed(
      t: Table, candidates: seq<string>, clock: (nat, nat) -> int, threshold: int)
    requires WellFormed(t)
    ensures WellFormed(PruneEach(t, candidates, clock, threshold))
  {
    hide WellFormed, PruneOneAt;
    if candidates != [] {
      var n := |candidates| - 1;
      PruneEachWellFormed(t, candidates[..n], clock, threshold);
      PruneOneAtWellFormed(PruneEach(t, candidates[..n], clock, threshold), candidates[n], clock, n, threshold);
    }
  }

  lemma PruneEachNext(t: Table, candidates: seq<string>, clock: (nat, nat) -> int, threshold: int, i: nat)
    requires i < |candidates|
    ensures PruneEach(t, candidates[..i + 1], clock, threshold)
         == PruneOneAt(PruneEach(t, candidates[..i], clock, threshold), candidates[i], clock, i, threshold)
  {
    hide PruneOneAt;
    assert candidates[..i + 1][..i] == candidates[..i];
  }

  /** What one candidate does to one pair: deleted exactly if stale at the reading for its own entry. */
  lemma PruneOneAtAt(t: Table, h: string, clock: (nat, nat) -> int, n: nat, threshold: int, k: Pair)
    requires WellFormed(t)
    ensures TimeIn(PruneOneAt(t, h, clock, n, threshold), k)
         == if k.0 == h && TimeIn(t, k).Some?
               && Stale(TimeIn(t, k).value, clock(n, IndexOf(EntriesFor(t, h), k.1)), threshold)
            then None else TimeIn(t, k)
  {
    if k.0 == h && h in t {
      FreshAtTimes(t[h], clock, n, threshold, k.1);
    }
  }

  /**
   However the clock runs during the section, a pair is deleted only if it is stale at its own reading, so
   at the last one at the latest, and every pair of a candidate that was stale at the first one is deleted.
   */
  lemma {:induction false} PruneEachBetween(
      t: Table, candidates: seq<string>, clock: (nat, nat) -> int, lo: int, hi: int, threshold: int, k: Pair)
    requires WellFormed(t) && forall n, i :: lo <= clock(n, i) <= hi
    ensures var was, now := TimeIn(t, k), TimeIn(PruneEach(t, candidates, clock, threshold), k);
            && (now == was || (now == None && k.0 in candidates && Stale(was.value, hi, threshold)))
            && (was.Some? && k.0 in candidates && Stale(was.value, lo, threshold) ==> now == None)
  {
    hide WellFormed, PruneOneAt;
    if candidates != [] {
      var n := |candidates| - 1;
      var a := PruneEach(t, candidates[..n], clock, threshold);
      PruneEachWellFormed(t, candidates[..n], clock, threshold);
      PruneEachBetween(t, candidates[..n], clock, lo, hi, threshold, k);
      PruneOneAtAt(a, candidates[n], clock, n, threshold, k);
      assert k.0 in candidates <==> k.0 in candidates[..n] || k.0 == candidates[n];
    }
  }

  /** Likewise a host is a candidate only if an entry is stale at its own reading. */
  lemma StaleHostsBetween(t: Table, clock: (string, nat) -> int, lo: int, hi: int, threshold: int)
    requires forall h, i :: lo <= clock(h, i) <= hi
    ensures StaleHosts(t, lo, threshold) <= StaleHostsAt(t, clock, threshold) <= StaleHosts(t, hi, threshold)
  {
    forall h | h in t
      ensures HasStale(t[h], lo, threshold) ==> HasStaleAt(t[h], clock, h, threshold)
      ensures HasStaleAt(t[h], clock, h, threshold) ==> HasStale(t[h], hi, threshold)
    {
      if HasStale(t[h], lo, threshold) {
        var e :| e in t[h] && Stale(e.updateTime, lo, threshold);
        var i :| 0 <= i < |t[h]| && t[h][i] == e;
        assert Stale(t[h][i].updateTime, clock(h, i), threshold);
      }
      if HasStaleAt(t[h], clock, h, threshold) {
        var i :| 0 <= i < |t[h]| && Stale(t[h][i].updateTime, clock(h, i), threshold);
        assert t[h][i] in t[h];
      }
    }
  }
}
