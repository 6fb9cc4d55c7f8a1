/** Hostname normalisation: absolute names end in a dot (section 3.1 of RFC 1034). */
module Names {

  predicate IsFqdn(s: string) {
    |s| > 0 && s[|s| - 1] == '.'
  }

  function Fqdn(s: string): (r: string)
    ensures IsFqdn(r)
  {
    if IsFqdn(s) then s else s + "."
  }

  /** Two names are the same host when they differ by at most one dot that makes a relative name absolute. */
  predicate SameHost(a: string, b: string) {
    a == b || (!IsFqdn(a) && b == a + ".") || (!IsFqdn(b) && a == b + ".")
  }

  /** Normalisation identifies exactly the names that are the same host, and is idempotent. */
  lemma FqdnIdentifies(a: string, b: string)
    ensures Fqdn(a) == Fqdn(b) <==> SameHost(a, b)
    ensures Fqdn(Fqdn(a)) == Fqdn(a)
  {
    assert (a + ".")[..|a|] == a && (b + ".")[..|b|] == b;
  }

  function Normalised(hostnames: seq<string>): (names: set<string>)
    ensures forall n :: n in names ==> IsFqdn(n)
  {
    set h | h in hostnames :: Fqdn(h)
  }

  function Elements(hosts: seq<string>): set<string> {
    set h | h in hosts
  }
}
