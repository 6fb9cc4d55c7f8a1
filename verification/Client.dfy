/** The DNS adapter's client: it asks up to four times, and shuffles what it is told. */
module Client {
  import opened Sequences

  // ---------------------------------------------------------------- shuffle

  /** Draws for a shuffle of `n` values: the k-th is below `n - k`. */
  ghost predicate ValidDraws(n: nat, draws: seq<nat>) {
    |draws| == n && forall k :: 0 <= k < n ==> draws[k] < n - k
  }

  /** What is left when the value at `r` has gone last and the last one has taken its place. */
  function Rest<T>(s: seq<T>, r: nat): (t: seq<T>)
    requires r < |s|
    ensures |t| == |s| - 1
  {
    s[r := s[|s| - 1]][..|s| - 1]
  }

  ghost function Shuffled<T>(s: seq<T>, draws: seq<nat>): (p: seq<T>)
    requires ValidDraws(|s|, draws)
    ensures |p| == |s|
    decreases |s|
  {
    if s == [] then [] else Shuffled(Rest(s, draws[0]), draws[1..]) + [s[draws[0]]]
  }

  function Swapped<T>(s: seq<T>, i: nat, j: nat): (t: seq<T>)
    requires i < |s| && j < |s|
    ensures |t| == |s|
  {
    s[i := s[j]][j := s[i]]
  }

  /** Swapping the drawn value into place `n - 1` leaves the shuffle of the first `n` values to one of `n - 1`. */
  lemma SwapStep<T>(s: seq<T>, n: nat, draws: seq<nat>)
    requires 0 < n <= |s| && ValidDraws(n, draws)
    ensures ValidDraws(n - 1, draws[1..])
    ensures var t := Swapped(s, n - 1, draws[0]);
            Shuffled(t[..n - 1], draws[1..]) + t[n - 1..] == Shuffled(s[..n], draws) + s[n..]
  {
    var t, r := Swapped(s, n - 1, draws[0]), draws[0];
    assert t[..n - 1] == Rest(s[..n], r);
    assert t[n - 1..] == [s[r]] + s[n..];
  }

  method Swap(vals: array<string>, i: nat, j: nat)
    requires i < vals.Length && j < vals.Length
    modifies vals
    ensures vals[..] == Swapped(old(vals[..]), i, j)
  {
    vals[i], vals[j] := vals[j], vals[i];
  }

  method Shuffle(vals: array<string>, draws: seq<nat>)
    requires ValidDraws(vals.Length, draws)
    modifies vals
    ensures vals[..] == Shuffled(old(vals[..]), draws)
  {
    var n := vals.Length;
    ghost var left := draws;
    assert vals[..][..n] == vals[..] && vals[..][n..] == [];
    assert Shuffled(vals[..], draws) + [] == Shuffled(vals[..], draws);
    while n > 0
      invariant n <= vals.Length && ValidDraws(n, left) && left == draws[vals.Length - n..]
      invariant Shuffled(vals[..][..n], left) + vals[..][n..] == Shuffled(old(vals[..]), draws)
    {
      hide Shuffled, Swapped;
      var randIndex := draws[vals.Length - n];
      SwapStep(vals[..], n, left);
      Swap(vals, n - 1, randIndex);
      n := n - 1;
      left := left[1..];
    }
    assert vals[..][0..] == vals[..] && Shuffled(vals[..][..0], left) == [];
  }

  lemma RestSplit<T>(s: seq<T>, r: nat)
    requires r < |s|
    ensures multiset(Rest(s, r)) + multiset{s[r]} == multiset(s)
  {
    var n := |s| - 1;
    var t := s[r := s[n]][n := s[r]];
    assert t == Rest(s, r) + [s[r]];
    assert multiset(t) == multiset(s);
  }

  /** The draws that leave every value in its place. */
  function Identity(n: nat): (draws: seq<nat>)
    ensures |draws| == n && forall k :: 0 <= k < n ==> draws[k] == n - k - 1
  {
    seq(n, k requires 0 <= k < n => n - k - 1)
  }

  lemma {:induction false} IdentityKeeps<T>(s: seq<T>)
    ensures Shuffled(s, Identity(|s|)) == s
    decreases |s|
  {
    if s != [] {
      var n := |s| - 1;
      assert Rest(s, n) == s[..n];
      assert Identity(|s|)[1..] == Identity(n);
      IdentityKeeps(s[..n]);
    }
  }

  /** A draw exchanges the last value with the one drawn: if all later draws leave the values, only these two move. */
  lemma DrawSwaps<T>(s: seq<T>, r: nat)
    requires r < |s|
    ensures Shuffled(s, [r] + Identity(|s| - 1)) == Swapped(s, |s| - 1, r)
    ensures var t := Shuffled(s, [r] + Identity(|s| - 1));
            && t[|s| - 1] == s[r] && t[r] == s[|s| - 1]
            && forall i :: 0 <= i < |s| - 1 && i != r ==> t[i] == s[i]
  {
    var draws := [r] + Identity(|s| - 1);
    assert draws[1..] == Identity(|s| - 1);
    IdentityKeeps(Rest(s, r));
    assert Shuffled(s, draws) == Rest(s, r) + [s[r]];
  }

  /** A shuffle rearranges its input, repeats included. */
  lemma {:induction false} ShuffledPermutes<T>(s: seq<T>, draws: seq<nat>)
    requires ValidDraws(|s|, draws)
    ensures multiset(Shuffled(s, draws)) == multiset(s)
    decreases |s|
  {
    if s != [] {
      RestSplit(s, draws[0]);
      ShuffledPermutes(Rest(s, draws[0]), draws[1..]);
    }
  }

  ghost predicate Rearranges<T>(s: seq<T>, p: seq<T>) {
    multiset(s) == multiset(p)
  }

  lemma SameLength<T>(s: seq<T>, p: seq<T>)
    requires Rearranges(s, p)
    ensures |s| == |p|
  {
    assert |multiset(s)| == |s| && |multiset(p)| == |p|;
  }

  /** The position in `s` of the value that `p` has last. */
  ghost function LastOf<T>(s: seq<T>, p: seq<T>): (r: nat)
    requires Rearranges(s, p) && p != []
    ensures r < |s| && s[r] == p[|p| - 1]
  {
    assert p[|p| - 1] in multiset(s);
    var r :| 0 <= r < |s| && s[r] == p[|p| - 1];
    r
  }

  lemma TakenOut<T>(s: seq<T>, p: seq<T>)
    requires NoRepeats(s) && Rearranges(s, p) && p != []
    ensures NoRepeats(Rest(s, LastOf(s, p))) && Rearranges(Rest(s, LastOf(s, p)), p[..|p| - 1])
  {
    var r, n := LastOf(s, p), |p| - 1;
    RestSplit(s, r);
    assert p == p[..n] + [p[n]];
    assert multiset(p) == multiset(p[..n]) + multiset{p[n]};
    assert multiset(Rest(s, r)) == multiset(s) - multiset{s[r]};
    assert multiset(p[..n]) == multiset(p) - multiset{p[n]};
  }

  /** The draws that turn `s` into `p`. */
  ghost function DrawsFor<T>(s: seq<T>, p: seq<T>): (draws: seq<nat>)
    requires NoRepeats(s) && Rearranges(s, p)
    ensures ValidDraws(|s|, draws)
    decreases |p|
  {
    SameLength(s, p);
    if p == [] then []
    else
      TakenOut(s, p);
      [LastOf(s, p)] + DrawsFor(Rest(s, LastOf(s, p)), p[..|p| - 1])
  }

  lemma {:induction false} DrawsForWork<T>(s: seq<T>, p: seq<T>)
    requires NoRepeats(s) && Rearranges(s, p)
    ensures Shuffled(s, DrawsFor(s, p)) == p
    decreases |p|
  {
    SameLength(s, p);
    if p != [] {
      TakenOut(s, p);
      var r, n := LastOf(s, p), |p| - 1;
      DrawsForWork(Rest(s, r), p[..n]);
      hide NoRepeats, Rearranges, Rest, ValidDraws;
      var draws := DrawsFor(s, p);
      assert draws[0] == r && draws[1..] == DrawsFor(Rest(s, r), p[..n]);
      assert p == p[..n] + [p[n]];
    }
  }

  lemma {:induction false} ShuffledInjective<T>(s: seq<T>, a: seq<nat>, b: seq<nat>)
    requires NoRepeats(s) && ValidDraws(|s|, a) && ValidDraws(|s|, b)
    requires Shuffled(s, a) == Shuffled(s, b)
    ensures a == b
    decreases |s|
  {
    if s != [] {
      var n := |s| - 1;
      var p := Shuffled(s, a);
      assert p[n] == s[a[0]] && p[n] == s[b[0]];
      assert a[0] == b[0];
      var rest := Rest(s, a[0]);
      assert Shuffled(rest, a[1..]) == p[..n] && Shuffled(rest, b[1..]) == p[..n];
      ShuffledInjective(rest, a[1..], b[1..]);
      assert a == [a[0]] + a[1..] && b == [b[0]] + b[1..];
    }
  }

  /** Shuffling distinct values is a bijection: each arrangement comes from exactly one sequence of draws. */
  lemma ShuffleIsBijection<T>(s: seq<T>, p: seq<T>)
    requires NoRepeats(s) && Rearranges(s, p)
    ensures ValidDraws(|s|, DrawsFor(s, p)) && Shuffled(s, DrawsFor(s, p)) == p
    ensures forall draws :: ValidDraws(|s|, draws) && Shuffled(s, draws) == p ==> draws == DrawsFor(s, p)
  {
    DrawsForWork(s, p);
    forall draws | ValidDraws(|s|, draws) && Shuffled(s, draws) == p ensures draws == DrawsFor(s, p) {
      ShuffledInjective(s, draws, DrawsFor(s, p));
    }
  }

  // ---------------------------------------------------------------- requests

  datatype Body = Unreadable | Malformed | Hosts(ips: seq<string>)

  /** What one request brings: no response at all, or a status and a body. */
  datatype Fetch = TransportError | Responds(status: int, body: Body)

  datatype Result = Failed | IPs(ips: seq<string>)

  const ATTEMPTS := 4
  const OK := 200

  predicate Refused(fetch: Fetch) {
    fetch.Responds? && fetch.status != OK
  }

  /** The j-th request is the first not to be answered by a failure status, and it is answered with success. */
  predicate Succeeds(fetches: seq<Fetch>, j: nat) {
    && j < ATTEMPTS && j < |fetches|
    && fetches[j].Responds? && fetches[j].status == OK
    && forall i :: 0 <= i < j ==> Refused(fetches[i])
  }

  /**
   The lookup succeeds if and only if one of the first four requests does, none before it being without
   response, and its body can be decoded; it then returns the hosts of that body, rearranged by the draws.
   */
  method LookupIPs(fetches: seq<Fetch>, draws: seq<nat>) returns (result: Result, requests: nat)
    requires |fetches| >= ATTEMPTS
    requires forall j: nat :: Succeeds(fetches, j) && fetches[j].body.Hosts? ==>
               ValidDraws(|fetches[j].body.ips|, draws)
    ensures requests <= ATTEMPTS
    ensures Refused(fetches[0]) && Refused(fetches[1]) && Refused(fetches[2]) ==>
              && requests == 4
              && (Refused(fetches[3]) || fetches[3].TransportError? ==> result == Failed)
              && (fetches[3].Responds? && fetches[3].status == 200 && fetches[3].body.Hosts? ==> result.IPs?)
    ensures fetches[0].Responds? && fetches[0].status != 200 ==> requests > 1
    ensures forall i :: 0 <= i < requests - 1 ==> Refused(fetches[i])
    ensures requests < ATTEMPTS ==> requests > 0 && !Refused(fetches[requests - 1])
    ensures result.IPs? <==> exists j: nat :: Succeeds(fetches, j) && fetches[j].body.Hosts?
    ensures forall j: nat :: Succeeds(fetches, j) && fetches[j].body.Hosts? ==>
              result == IPs(Shuffled(fetches[j].body.ips, draws))
  {
    requests := 0;
    var response := TransportError;
    for i := 0 to ATTEMPTS
      invariant requests == i
      invariant forall k :: 0 <= k < i ==> Refused(fetches[k])
      invariant i > 0 ==> response == fetches[i - 1]
    {
      response := fetches[i];
      requests := requests + 1;
      if response.TransportError? {
        return Failed, requests;
      }
      if response.status == OK {
        break;
      }
    }
    if response.status != OK {
      return Failed, requests;
    }
    assert Succeeds(fetches, requests - 1);
    if !response.body.Hosts? {
      return Failed, requests;
    }
    var hosts := response.body.ips;
    var ips := new string[|hosts|];
    for i := 0 to |hosts|
      invariant ips[..i] == hosts[..i]
    {
      ips[i] := hosts[i];
    }
    assert ips[..] == hosts;
    Shuffle(ips, draws);
    return IPs(ips[..]), requests;
  }
}
