/** The load generator's publisher: the messages of a job, and one round of publishing them on both subjects. */
module Publisher {
  datatype Job = Job(
    endpoint: string,
    backendHost: string,
    backendPort: int,
    appDomain: string,
    appName: string,
    startRange: int,
    endRange: int)

  datatype RouteData = RouteData(host: string, port: int, uris: seq<string>)

  datatype Subject = RouterRegister | DiscoveryRegister

  datatype Publication = Publication(subject: Subject, route: RouteData)

  predicate Validates(j: Job) {
    && j.endpoint != "" && j.backendHost != "" && j.backendPort != 0
    && j.appDomain != "" && j.appName != "" && j.startRange < j.endRange
  }

  // ---------------------------------------------------------------- hostnames

  function Digit(d: nat): char
    requires d < 10
  {
    '0' + d as char
  }

  function Digits(n: nat): (s: string)
    ensures |s| > 0 && forall i :: 0 <= i < |s| ==> '0' <= s[i] <= '9'
  {
    if n < 10 then [Digit(n)] else Digits(n / 10) + [Digit(n % 10)]
  }

  function Decimal(n: int): string {
    if n < 0 then "-" + Digits(-n) else Digits(n)
  }

  /** The number that a string of digits stands for. */
  function Value(s: string): int {
    if s == "" then 0 else 10 * Value(s[..|s| - 1]) + (s[|s| - 1] as int - '0' as int)
  }

  function Parse(s: string): int {
    if s != "" && s[0] == '-' then -Value(s[1..]) else Value(s)
  }

  lemma {:induction false} DigitsRoundTrip(n: nat)
    ensures Value(Digits(n)) == n
  {
    if n < 10 {
      assert Digits(n)[..0] == "";
    } else {
      DigitsRoundTrip(n / 10);
      var s := Digits(n);
      assert s[..|s| - 1] == Digits(n / 10);
    }
  }

  /** Printing a number in decimal can be undone, so no two numbers print alike. */
  lemma DecimalRoundTrip(n: int)
    ensures Parse(Decimal(n)) == n
  {
    if n < 0 {
      DigitsRoundTrip(-n);
      assert ("-" + Digits(-n))[1..] == Digits(-n);
    } else {
      DigitsRoundTrip(n);
    }
  }

  function Hostname(j: Job, i: int): string {
    j.appName + "-" + Decimal(i) + "." + j.appDomain
  }

  /** No number is printed with a leading zero. */
  lemma {:induction false} NoLeadingZero(n: nat)
    ensures |Digits(n)| > 1 ==> Digits(n)[0] != '0'
  {
    if n >= 10 {
      NoLeadingZero(n / 10);
      assert Digits(n)[0] == Digits(n / 10)[0];
      if |Digits(n / 10)| == 1 {
        assert n / 10 < 10;
      }
    }
  }

  /** The string is the number in decimal digits, with a minus sign if it is negative and without leading zeros. */
  predicate IsDecimal(s: string, n: int) {
    var digits := if n < 0 && s != "" then s[1..] else s;
    && Parse(s) == n && (n < 0 ==> s != "" && s[0] == '-')
    && digits != "" && (forall i :: 0 <= i < |digits| ==> '0' <= digits[i] <= '9')
    && (|digits| > 1 ==> digits[0] != '0')
  }

  /** The digits are the usual ones, the most significant first. */
  lemma DecimalExample()
    ensures Decimal(1234567890) == "1234567890" && Decimal(-10) == "-10" && Decimal(0) == "0"
  {
    assert Digits(1) == "1";
    assert Digits(12) == "12" && Digits(123) == "123" && Digits(1234) == "1234" && Digits(12345) == "12345";
    assert Digits(123456) == "123456" && Digits(1234567) == "1234567" && Digits(12345678) == "12345678";
    assert Digits(123456789) == "123456789";
  }

  lemma DecimalIs(n: int)
    ensures IsDecimal(Decimal(n), n)
  {
    DecimalRoundTrip(n);
    if n < 0 {
      NoLeadingZero(-n);
      assert Decimal(n)[1..] == Digits(-n);
    } else {
      NoLeadingZero(n);
    }
  }

  /** A hostname is the app's name, a dash, the number of the route, a dot, and the domain. */
  lemma HostnameShape(j: Job, i: int)
    ensures var h, name, domain := Hostname(j, i), |j.appName|, |j.appDomain|;
            && |h| >= name + 1 + 1 + domain
            && h[..name] == j.appName && h[name] == '-'
            && h[|h| - domain..] == j.appDomain && h[|h| - domain - 1] == '.'
            && IsDecimal(h[name + 1..|h| - domain - 1], i)
  {
    hide Decimal, IsDecimal;
    DecimalIs(i);
    var h, name, domain := Hostname(j, i), |j.appName|, |j.appDomain|;
    assert h[name + 1..|h| - domain - 1] == Decimal(i);
  }

  lemma HostnamesDistinct(j: Job, a: int, b: int)
    requires Hostname(j, a) == Hostname(j, b)
    ensures a == b
  {
    var x, y, pre, post := Hostname(j, a), Hostname(j, b), |j.appName| + 1, 1 + |j.appDomain|;
    assert x[pre..|x| - post] == Decimal(a);
    assert y[pre..|y| - post] == Decimal(b);
    DecimalRoundTrip(a);
    DecimalRoundTrip(b);
  }

  function Route(j: Job, i: int): RouteData {
    RouteData(j.backendHost, j.backendPort, [Hostname(j, i)])
  }

  /** The messages for the routes from `lo` up to `hi`. */
  function Routes(j: Job, lo: int, hi: int): (r: seq<RouteData>)
    ensures |r| == if lo <= hi then hi - lo else 0
    ensures forall i :: 0 <= i < |r| ==> r[i] == Route(j, lo + i)
  {
    seq(if lo <= hi then hi - lo else 0, i requires 0 <= i < hi - lo => Route(j, lo + i))
  }

  lemma RoutesNext(j: Job, lo: int, hi: int)
    requires lo <= hi
    ensures Routes(j, lo, hi + 1) == Routes(j, lo, hi) + [Route(j, hi)]
  {
    hide Route;
  }

  // ---------------------------------------------------------------- publishing

  /** One round: each message on the router's subject, then on service discovery's. */
  function Round(data: seq<RouteData>): (r: seq<Publication>)
    ensures |r| == 2 * |data|
  {
    if data == [] then [] else
      var n := |data| - 1;
      Round(data[..n]) + [Publication(RouterRegister, data[n]), Publication(DiscoveryRegister, data[n])]
  }

  function On(subject: Subject, log: seq<Publication>): seq<RouteData> {
    if log == [] then [] else
      var p := log[|log| - 1];
      On(subject, log[..|log| - 1]) + if p.subject == subject then [p.route] else []
  }

  lemma OnSnoc(subject: Subject, log: seq<Publication>, p: Publication)
    ensures On(subject, log + [p]) == On(subject, log) + if p.subject == subject then [p.route] else []
  {
    assert (log + [p])[..|log|] == log;
  }

  lemma OnPair(subject: Subject, log: seq<Publication>, d: RouteData)
    ensures On(subject, log + [Publication(RouterRegister, d), Publication(DiscoveryRegister, d)])
         == On(subject, log) + [d]
  {
    var router, discovery := Publication(RouterRegister, d), Publication(DiscoveryRegister, d);
    OnSnoc(subject, log, router);
    OnSnoc(subject, log + [router], discovery);
    hide On;
    assert (log + [router]) + [discovery] == log + [router, discovery];
  }

  /** A full round puts every message exactly once, in order, on each subject. */
  lemma {:induction false} RoundOnEachSubject(subject: Subject, data: seq<RouteData>)
    ensures On(subject, Round(data)) == data
  {
    if data != [] {
      var n := |data| - 1;
      RoundOnEachSubject(subject, data[..n]);
      OnPair(subject, Round(data[..n]), data[n]);
      hide On;
    }
  }

  lemma RoundPrefix(data: seq<RouteData>, i: nat)
    requires i < |data|
    ensures Round(data[..i + 1])
         == Round(data[..i]) + [Publication(RouterRegister, data[i]), Publication(DiscoveryRegister, data[i])]
  {
    assert data[..i + 1][..i] == data[..i];
  }

  lemma {:induction false} RoundExtends(data: seq<RouteData>, i: nat)
    requires i <= |data|
    ensures Round(data[..i]) <= Round(data)
    decreases |data| - i
  {
    if i < |data| {
      RoundExtends(data, i + 1);
      RoundPrefix(data, i);
    } else {
      assert data[..i] == data;
    }
  }

  class Publisher {
    const job: Job
    var connected: bool
    var data: seq<RouteData>
    var log: seq<Publication>

    constructor (job: Job)
      ensures this.job == job && !connected && data == [] && log == []
    {
      this.job := job;
      connected, data, log := false, [], [];
    }

    /** Prepares the messages of a valid job, in order, once it has a connection. */
    method Initialize(connects: bool) returns (ok: bool)
      requires data == []
      modifies this`connected, this`data
      ensures ok <==> && connects && job.endpoint != "" && job.backendHost != "" && job.backendPort != 0
                      && job.appDomain != "" && job.appName != "" && job.startRange < job.endRange
      ensures connected == if Validates(job) then connects else old(connected)
      ensures data == if ok then Routes(job, job.startRange, job.endRange) else []
      ensures ok ==>
                && |data| == job.endRange - job.startRange
                && forall i :: 0 <= i < |data| ==>
                     data[i] == RouteData(job.backendHost, job.backendPort, [Hostname(job, job.startRange + i)])
    {
      if job.endpoint == "" || job.backendHost == "" || job.backendPort == 0
         || job.appDomain == "" || job.appName == "" || job.endRange <= job.startRange {
        return false;
      }
      connected := connects;
      if !connects {
        return false;
      }
      hide Hostname, Routes;
      for i := job.startRange to job.endRange
        invariant connected && data == Routes(job, job.startRange, i) && |data| == i - job.startRange
      {
        RoutesNext(job, job.startRange, i);
        data := data + [Route(job, i)];
      }
      return true;
    }

    /** Publishes until a call fails: `allowed` is how many calls succeed before one does. */
    method PublishRouteRegistrations(allowed: nat) returns (ok: bool)
      requires job.startRange < job.endRange && |data| == job.endRange - job.startRange
      modifies this`log
      ensures ok <==> allowed >= 2 * |data|
      ensures log == old(log) + if ok then Round(data) else Round(data)[..allowed]
    {
      var published := 0;
      for i := 0 to job.endRange - job.startRange
        invariant published == 2 * i <= allowed
        invariant log == old(log) + Round(data[..i])
      {
        RoundPrefix(data, i);
        RoundExtends(data, i + 1);
        RoundExtends(data, i);
        if published == allowed {
          return false;
        }
        log := log + [Publication(RouterRegister, data[i])];
        published := published + 1;
        if published == allowed {
          return false;
        }
        log := log + [Publication(DiscoveryRegister, data[i])];
        published := published + 1;
      }
      assert data[..|data|] == data;
      return true;
    }
  }
}
