/** Slices of entries over a backing array, and the two in-place forms of `append`. */
module Slices {
  import opened Entries

  /** A slice that starts at the head of its array; the array's length is its capacity. */
  datatype Slice = Slice(arr: array<Entry>, len: nat)

  /** A slice of IPs, as handed to callers. */
  datatype IPSlice = IPSlice(arr: array<string>, len: nat)

  ghost predicate InBounds(s: Slice) {
    s.len <= s.arr.Length
  }

  ghost function Contents(s: Slice): seq<Entry>
    requires InBounds(s)
    reads s.arr
  {
    s.arr[..s.len]
  }

  /** Append: in place while there is capacity, else into a new and larger array of any size. */
  method Append(s: Slice, e: Entry) returns (r: Slice)
    requires InBounds(s)
    modifies s.arr
    ensures InBounds(r) && Contents(r) == old(Contents(s)) + [e]
    ensures if s.len < s.arr.Length then r.arr == s.arr else fresh(r.arr)
  {
    if s.len < s.arr.Length {
      s.arr[s.len] := e;
      r := Slice(s.arr, s.len + 1);
    } else {
      assert s.len < s.len + 1;
      var capacity: nat :| s.len < capacity;
      var grown := new Entry[capacity];
      forall i | 0 <= i < s.len {
        grown[i] := s.arr[i];
      }
      grown[s.len] := e;
      r := Slice(grown, s.len + 1);
    }
  }

  /** Append of what follows `index` to what precedes it: shifts down in the same array. */
  method Delete(s: Slice, index: nat) returns (r: Slice)
    requires InBounds(s) && index < s.len
    modifies s.arr
    ensures r == Slice(s.arr, s.len - 1)
    ensures Contents(r) == old(Contents(s))[..index] + old(Contents(s))[index + 1..]
  {
    forall i | index <= i < s.len - 1 {
      s.arr[i] := s.arr[i + 1];
    }
    r := Slice(s.arr, s.len - 1);
  }

  method Find(s: Slice, ip: string) returns (index: int)
    requires InBounds(s)
    ensures index == IndexOf(Contents(s), ip)
  {
    for i := 0 to s.len
      invariant forall j :: 0 <= j < i ==> s.arr[j].ip != ip
    {
      if s.arr[i].ip == ip {
        return i;
      }
    }
    return -1;
  }

  /** The IPs in a new array with no spare capacity. */
  method ToIPs(s: Slice) returns (ips: IPSlice)
    requires InBounds(s)
    ensures fresh(ips.arr) && ips.arr.Length == ips.len
    ensures ips.arr[..] == IPs(Contents(s))
  {
    var arr := new string[s.len];
    for i := 0 to s.len
      invariant forall j :: 0 <= j < i ==> arr[j] == s.arr[j].ip
    {
      arr[i] := s.arr[i].ip;
    }
    ips := IPSlice(arr, s.len);
  }

  /** The entries not yet stale, each at its own reading of the clock, gathered in a new slice. */
  method Refreshed<K>(s: Slice, clock: (K, nat) -> int, key: K, threshold: int) returns (r: Slice)
    requires InBounds(s)
    ensures fresh(r.arr)
    ensures InBounds(r) && Contents(r) == FreshAt(Contents(s), clock, key, threshold)
  {
    var empty := new Entry[0];
    r := Slice(empty, 0);
    ghost var all := Contents(s);
    for i := 0 to s.len
      invariant fresh(r.arr) && InBounds(r)
      invariant Contents(s) == all
      invariant Contents(r) == FreshAt(all[..i], clock, key, threshold)
    {
      assert all[..i + 1][..i] == all[..i];
      if clock(key, i) - s.arr[i].updateTime <= threshold {
        r := Append(r, s.arr[i]);
      }
    }
    assert all[..s.len] == all;
  }

  /** Some entry is stale at its own reading of the clock. */
  method AnyStale<K>(s: Slice, clock: (K, nat) -> int, key: K, threshold: int) returns (stale: bool)
    requires InBounds(s)
    ensures stale <==> HasStaleAt(Contents(s), clock, key, threshold)
  {
    for i := 0 to s.len
      invariant forall j :: 0 <= j < i ==> !Stale(s.arr[j].updateTime, clock(key, j), threshold)
    {
      if clock(key, i) - s.arr[i].updateTime > threshold {
        assert Stale(Contents(s)[i].updateTime, clock(key, i), threshold);
        return true;
      }
    }
    return false;
  }
}
