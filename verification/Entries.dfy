/**
 The slice of entries kept for one hostname, as a value: each entry is an IP with
 the time of its last registration.
 */
module Entries {

  datatype Option<+T> = None | Some(value: T)

  datatype Entry = Entry(ip: string, updateTime: int)

  predicate Stale(updateTime: int, now: int, threshold: int) {
    now - updateTime > threshold
  }

  ghost predicate Distinct(es: seq<Entry>) {
    forall i, j :: 0 <= i < j < |es| ==> es[i].ip != es[j].ip
  }

  /** The first position that holds `ip`, or -1. */
  function IndexOf(es: seq<Entry>, ip: string): (i: int)
    ensures -1 <= i < |es|
    ensures i >= 0 ==> es[i].ip == ip
    ensures forall j :: 0 <= j < (if i < 0 then |es| else i) ==> es[j].ip != ip
  {
    if es == [] then -1 else
      var r := IndexOf(es[..|es| - 1], ip);
      if r >= 0 then r
      else if es[|es| - 1].ip == ip then |es| - 1
      else -1
  }

  /** Registration: refresh in place, or append at the end. */
  function Touch(es: seq<Entry>, ip: string, now: int): seq<Entry> {
    var i := IndexOf(es, ip);
    if i < 0 then es + [Entry(ip, now)] else es[i := Entry(ip, now)]
  }

  function Drop(es: seq<Entry>, ip: string): seq<Entry> {
    var i := IndexOf(es, ip);
    if i < 0 then es else es[..i] + es[i + 1..]
  }

  /** The entries that are not stale, in their order. */
  function Fresh(es: seq<Entry>, now: int, threshold: int): (r: seq<Entry>)
    ensures |r| <= |es|
  {
    if es == [] then [] else
      var e := es[|es| - 1];
      Fresh(es[..|es| - 1], now, threshold) + if Stale(e.updateTime, now, threshold) then [] else [e]
  }

  /** The same with a clock reading of its own for each entry: `clock(key, i)` is that of the i-th entry under `key`. */
  function FreshAt<K>(es: seq<Entry>, clock: (K, nat) -> int, key: K, threshold: int): (r: seq<Entry>)
    ensures |r| <= |es|
  {
    if es == [] then [] else
      var n := |es| - 1;
      var f := FreshAt(es[..n], clock, key, threshold);
      if Stale(es[n].updateTime, clock(key, n), threshold) then f else f + [es[n]]
  }

  ghost predicate HasStaleAt<K>(es: seq<Entry>, clock: (K, nat) -> int, key: K, threshold: int) {
    exists i :: 0 <= i < |es| && Stale(es[i].updateTime, clock(key, i), threshold)
  }

  function IPs(es: seq<Entry>): (r: seq<string>)
    ensures |r| == |es| && forall i :: 0 <= i < |es| ==> r[i] == es[i].ip
  {
    seq(|es|, i requires 0 <= i < |es| => es[i].ip)
  }

  /** The registration time of `ip`, if it is listed. */
  function TimeOf(es: seq<Entry>, ip: string): Option<int> {
    var i := IndexOf(es, ip);
    if i < 0 then None else Some(es[i].updateTime)
  }

  /** Without repeated IPs the times are exactly the listed pairs. */
  lemma TimeOfMember(es: seq<Entry>, ip: string, t: int)
    requires Distinct(es)
    ensures TimeOf(es, ip) == Some(t) <==> Entry(ip, t) in es
  {
    if Entry(ip, t) in es {
      var j :| 0 <= j < |es| && es[j] == Entry(ip, t);
      assert IndexOf(es, ip) == j;
    }
  }

  lemma TouchTimes(es: seq<Entry>, ip: string, now: int, other: string)
    requires Distinct(es)
    ensures Distinct(Touch(es, ip, now))
    ensures TimeOf(Touch(es, ip, now), other) == if other == ip then Some(now) else TimeOf(es, other)
  {
    var r := Touch(es, ip, now);
    if other == ip {
      var i := IndexOf(es, ip);
      assert r[if i < 0 then |es| else i] == Entry(ip, now);
      TimeOfMember(r, ip, now);
    } else {
      var a, b := IndexOf(es, other), IndexOf(r, other);
      if a >= 0 { assert r[a] == es[a]; }
      if b >= 0 { assert r[b] == es[b]; }
      assert a == b;
    }
  }

  lemma DropTimes(es: seq<Entry>, ip: string, other: string)
    requires Distinct(es)
    ensures Distinct(Drop(es, ip))
    ensures TimeOf(Drop(es, ip), other) == if other == ip then None else TimeOf(es, other)
  {
    var r, i := Drop(es, ip), IndexOf(es, ip);
    if i >= 0 {
      assert forall j :: 0 <= j < |r| ==> r[j] == es[if j < i then j else j + 1];
      if other != ip {
        match TimeOf(es, other)
        case Some(t) =>
          var a := IndexOf(es, other);
          assert r[if a < i then a else a - 1] == Entry(other, t);
          TimeOfMember(r, other, t);
        case None =>
      }
    }
  }

  lemma {:induction false} FreshMember(es: seq<Entry>, now: int, threshold: int, e: Entry)
    ensures e in Fresh(es, now, threshold) <==> e in es && !Stale(e.updateTime, now, threshold)
  {
    if es != [] {
      var init, last := es[..|es| - 1], es[|es| - 1];
      FreshMember(init, now, threshold, e);
      assert es == init + [last];
    }
  }

  lemma {:induction false} FreshDistinct(es: seq<Entry>, now: int, threshold: int)
    requires Distinct(es)
    ensures Distinct(Fresh(es, now, threshold))
  {
    if es != [] {
      var init := es[..|es| - 1];
      FreshDistinct(init, now, threshold);
      var f := Fresh(init, now, threshold);
      forall i | 0 <= i < |f| ensures f[i].ip != es[|es| - 1].ip {
        FreshMember(init, now, threshold, f[i]);
      }
    }
  }

  lemma FreshTimes(es: seq<Entry>, now: int, threshold: int, ip: string)
    requires Distinct(es)
    ensures Distinct(Fresh(es, now, threshold))
    ensures TimeOf(Fresh(es, now, threshold), ip)
         == if TimeOf(es, ip).Some? && !Stale(TimeOf(es, ip).value, now, threshold) then TimeOf(es, ip) else None
  {
    FreshDistinct(es, now, threshold);
    var f := Fresh(es, now, threshold);
    if TimeOf(f, ip).Some? {
      var t := TimeOf(f, ip).value;
      TimeOfMember(f, ip, t);
      FreshMember(es, now, threshold, Entry(ip, t));
      TimeOfMember(es, ip, t);
    } else if TimeOf(es, ip).Some? {
      var t := TimeOf(es, ip).value;
      TimeOfMember(es, ip, t);
      FreshMember(es, now, threshold, Entry(ip, t));
      TimeOfMember(f, ip, t);
    }
  }

  lemma {:induction false} FreshAtMember<K>(
      es: seq<Entry>, clock: (K, nat) -> int, key: K, threshold: int, e: Entry)
    ensures e in FreshAt(es, clock, key, threshold)
       <==> exists i :: 0 <= i < |es| && es[i] == e && !Stale(e.updateTime, clock(key, i), threshold)
  {
    if es != [] {
      var n := |es| - 1;
      var init, f := es[..n], FreshAt(es[..n], clock, key, threshold);
      FreshAtMember(init, clock, key, threshold, e);
      hide Stale;
      if e in f {
        var i :| 0 <= i < n && init[i] == e && !Stale(e.updateTime, clock(key, i), threshold);
        assert es[i] == e;
      }
      if i :| 0 <= i < n && es[i] == e && !Stale(e.updateTime, clock(key, i), threshold) {
        assert init[i] == e;
      }
    }
  }

  lemma {:induction false} FreshAtDistinct<K>(es: seq<Entry>, clock: (K, nat) -> int, key: K, threshold: int)
    requires Distinct(es)
    ensures Distinct(FreshAt(es, clock, key, threshold))
  {
    if es != [] {
      var n := |es| - 1;
      FreshAtDistinct(es[..n], clock, key, threshold);
      var f := FreshAt(es[..n], clock, key, threshold);
      forall i | 0 <= i < |f| ensures f[i].ip != es[n].ip {
        FreshAtMember(es[..n], clock, key, threshold, f[i]);
      }
    }
  }

  /** Each IP is kept, with its time, exactly if it was not older than the threshold at its own reading. */
  lemma FreshAtTimes<K>(es: seq<Entry>, clock: (K, nat) -> int, key: K, threshold: int, ip: string)
    requires Distinct(es)
    ensures TimeOf(FreshAt(es, clock, key, threshold), ip)
         == if Lists(es, ip) && !Stale(TimeOf(es, ip).value, clock(key, IndexOf(es, ip)), threshold)
            then TimeOf(es, ip) else None
  {
    FreshAtDistinct(es, clock, key, threshold);
    var f := FreshAt(es, clock, key, threshold);
    if TimeOf(f, ip).Some? {
      var t := TimeOf(f, ip).value;
      TimeOfMember(f, ip, t);
      FreshAtMember(es, clock, key, threshold, Entry(ip, t));
      TimeOfMember(es, ip, t);
    } else if TimeOf(es, ip).Some? {
      var t := TimeOf(es, ip).value;
      TimeOfMember(es, ip, t);
      FreshAtMember(es, clock, key, threshold, Entry(ip, t));
      TimeOfMember(f, ip, t);
    }
  }

  /** With one reading for all entries it is the filter of one instant. */
  lemma {:induction false} FreshAtOnce<K>(
      es: seq<Entry>, clock: (K, nat) -> int, key: K, now: int, threshold: int)
    requires forall i :: 0 <= i < |es| ==> clock(key, i) == now
    ensures FreshAt(es, clock, key, threshold) == Fresh(es, now, threshold)
  {
    if es != [] {
      FreshAtOnce(es[..|es| - 1], clock, key, now, threshold);
    }
  }

  // ---------------------------------------------------------------- order

  predicate Lists(es: seq<Entry>, ip: string) {
    IndexOf(es, ip) >= 0
  }

  /** `a` is listed before `b`. */
  ghost predicate Before(es: seq<Entry>, a: string, b: string) {
    exists i, j :: 0 <= i < j < |es| && es[i].ip == a && es[j].ip == b
  }

  /** Registration keeps the order of what was listed and puts a new IP last. */
  lemma TouchOrder(es: seq<Entry>, ip: string, now: int, a: string, b: string)
    requires Before(Touch(es, ip, now), a, b)
    ensures Lists(es, a) && (Before(es, a, b) || (!Lists(es, b) && b == ip))
  {
    var r := Touch(es, ip, now);
    var i, j :| 0 <= i < j < |r| && r[i].ip == a && r[j].ip == b;
    assert es[i].ip == a;
    assert j < |es| ==> es[j].ip == b;
  }

  lemma DropOrder(es: seq<Entry>, ip: string, a: string, b: string)
    requires Before(Drop(es, ip), a, b)
    ensures Before(es, a, b)
  {
    var r, m := Drop(es, ip), IndexOf(es, ip);
    var i, j :| 0 <= i < j < |r| && r[i].ip == a && r[j].ip == b;
    if m >= 0 {
      assert r[i] == es[if i < m then i else i + 1] && r[j] == es[if j < m then j else j + 1];
    }
  }

  lemma {:induction false} FreshOrder(es: seq<Entry>, now: int, threshold: int, a: string, b: string)
    requires Before(Fresh(es, now, threshold), a, b)
    ensures Before(es, a, b)
  {
    if es != [] {
      var init, r := es[..|es| - 1], Fresh(es, now, threshold);
      var f := Fresh(init, now, threshold);
      var i, j :| 0 <= i < j < |r| && r[i].ip == a && r[j].ip == b;
      assert r[i] == f[i];
      if j < |f| {
        assert r[j] == f[j];
        FreshOrder(init, now, threshold, a, b);
        var p, q :| 0 <= p < q < |init| && init[p].ip == a && init[q].ip == b;
        assert es[p].ip == a && es[q].ip == b;
      } else {
        FreshMember(init, now, threshold, f[i]);
        var p :| 0 <= p < |init| && init[p] == f[i];
        assert es[p].ip == a && es[|es| - 1].ip == b;
      }
    }
  }

  /** The filter of a prune keeps the order, whatever the readings. */
  lemma {:induction false} FreshAtOrder<K>(
      es: seq<Entry>, clock: (K, nat) -> int, key: K, threshold: int, a: string, b: string)
    requires Before(FreshAt(es, clock, key, threshold), a, b)
    ensures Before(es, a, b)
  {
    if es != [] {
      var n := |es| - 1;
      var init, r := es[..n], FreshAt(es, clock, key, threshold);
      var f := FreshAt(init, clock, key, threshold);
      var i, j :| 0 <= i < j < |r| && r[i].ip == a && r[j].ip == b;
      assert r[i] == f[i];
      if j < |f| {
        assert r[j] == f[j];
        FreshAtOrder(init, clock, key, threshold, a, b);
        var p, q :| 0 <= p < q < |init| && init[p].ip == a && init[q].ip == b;
        assert es[p].ip == a && es[q].ip == b;
      } else {
        FreshAtMember(init, clock, key, threshold, f[i]);
        var p :| 0 <= p < |init| && init[p] == f[i];
        assert es[p].ip == a && es[n].ip == b;
      }
    }
  }

  lemma TouchTwice(es: seq<Entry>, ip: string, now: int)
    ensures Touch(Touch(es, ip, now), ip, now) == Touch(es, ip, now)
  {
    var r, i := Touch(es, ip, now), IndexOf(es, ip);
    var m := if i < 0 then |es| else i;
    assert r[m] == Entry(ip, now);
    assert IndexOf(r, ip) == m;
  }

  lemma DropUnlisted(es: seq<Entry>, ip: string)
    requires !Lists(es, ip)
    ensures Drop(es, ip) == es
  {
  }

  lemma DropTwice(es: seq<Entry>, ip: string)
    requires Distinct(es)
    ensures !Lists(Drop(es, ip), ip)
    ensures Drop(Drop(es, ip), ip) == Drop(es, ip)
  {
    DropTimes(es, ip, ip);
  }

  lemma {:induction false} FreshTwice(es: seq<Entry>, now: int, threshold: int)
    ensures Fresh(Fresh(es, now, threshold), now, threshold) == Fresh(es, now, threshold)
  {
    if es != [] {
      var f, e := Fresh(es[..|es| - 1], now, threshold), es[|es| - 1];
      FreshTwice(es[..|es| - 1], now, threshold);
      if Stale(e.updateTime, now, threshold) {
        assert f + [] == f;
      } else {
        assert (f + [e])[..|f|] == f;
      }
    }
  }
}
