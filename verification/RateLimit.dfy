/**
 * The token-bucket limiter (internal/middleware/ratelimit.go). Tokens and seconds are real
 * numbers here, where the program has float64.
 */
module RateLimit {
  import opened Arith

  const MAX_BUCKETS: nat := 50_000
  const IDLE: real := 300.0

  datatype Bucket = Bucket(tokens: real, lastCheck: real)

  datatype Config = Config(rate: real, burst: int)

  datatype Verdict = Admitted | Denied | Bypassed | Swept

  type Buckets = map<string, Bucket>

  function Cap(c: Config, tokens: real): real {
    if tokens > c.burst as real then c.burst as real else tokens
  }

  /** The lazy refill. */
  function Refill(c: Config, b: Bucket, now: real): real {
    Cap(c, b.tokens + (now - b.lastCheck) * c.rate)
  }

  /** One request: the next table and the verdict. */
  function OnRequest(c: Config, m: Buckets, ip: string, now: real): (Buckets, Verdict) {
    if ip !in m && |m| >= MAX_BUCKETS then (m, Bypassed)
    else
      var t := if ip in m then Refill(c, m[ip], now) else c.burst as real;
      if t < 1.0 then (m[ip := Bucket(t, now)], Denied) else (m[ip := Bucket(t - 1.0, now)], Admitted)
  }

  /** The collector looks at one entry. */
  function OnSweep(m: Buckets, ip: string, now: real): Buckets {
    if ip in m && now - m[ip].lastCheck > IDLE then m - {ip} else m
  }

  // ----- the code -----

  class Limiter {
    var buckets: Buckets
    const config: Config

    constructor (rate: real, burst: int)
      ensures buckets == map[] && config == Config(rate, burst)
    {
      config := Config(rate, burst);
      buckets := map[];
    }

    /** The handler. A new bucket is stamped with a first clock reading, everything else uses the second. */
    method Handle(ip: string, created: real, now: real) returns (v: Verdict)
      requires created <= now && config.rate >= 0.0
      modifies this
      ensures (buckets, v) == OnRequest(config, old(buckets), ip, now)
    {
      if ip !in buckets {
        if |buckets| >= MAX_BUCKETS {
          return Bypassed;
        }
        buckets := buckets[ip := Bucket(config.burst as real, created)];
        FreshIsFull(config, created, now);
      }
      var elapsed := now - buckets[ip].lastCheck;
      var tokens := buckets[ip].tokens + elapsed * config.rate;
      if tokens > config.burst as real {
        tokens := config.burst as real;
      }
      assert tokens == Refill(config, buckets[ip], now);
      hide Refill;
      if tokens < 1.0 {
        buckets := buckets[ip := Bucket(tokens, now)];
        v := Denied;
      } else {
        buckets := buckets[ip := Bucket(tokens - 1.0, now)];
        v := Admitted;
      }
      assert buckets == old(buckets)[ip := buckets[ip]];
    }

    /** One pass of the collector over the entries, each compared with its own clock reading. */
    method Collect(ips: seq<string>, clock: seq<real>)
      requires |ips| == |clock| && (set ip <- ips) == buckets.Keys
      requires forall i, j :: 0 <= i < j < |ips| ==> ips[i] != ips[j]
      modifies this
      ensures buckets == RunMap(config, old(buckets), Sweeps(ips, clock))
      ensures forall i :: 0 <= i < |ips| ==>
                (ips[i] in buckets <==> clock[i] - old(buckets)[ips[i]].lastCheck <= IDLE)
    {
      hide RunMap, Sweeps;
      SweepsNone(config, buckets);
      assert ips[..0] == [] && clock[..0] == [];
      for i := 0 to |ips|
        invariant buckets == RunMap(config, old(buckets), Sweeps(ips[..i], clock[..i]))
      {
        SweepNext(config, old(buckets), ips, clock, i);
        if clock[i] - buckets[ips[i]].lastCheck > IDLE {
          buckets := buckets - {ips[i]};
        }
      }
      assert ips[..|ips|] == ips && clock[..|ips|] == clock;
      SweepsOutcome(config, old(buckets), ips, clock);
      assert forall ip <- ips :: ip in (set ip <- ips);
    }
  }

  /** The moment between the two clock readings adds nothing to a full bucket. */
  lemma FreshIsFull(c: Config, created: real, now: real)
    requires created <= now && c.rate >= 0.0
    ensures Refill(c, Bucket(c.burst as real, created), now) == c.burst as real
  {
    RealNonNegative(now - created, c.rate);
  }

  lemma SweepsNone(c: Config, m: Buckets)
    ensures RunMap(c, m, Sweeps([], [])) == m
  {
  }

  /** Step i of a pass finds the entry of address i as it was when the pass began. */
  lemma SweepNext(c: Config, m: Buckets, ips: seq<string>, clock: seq<real>, i: nat)
    requires i < |ips| == |clock| && (set ip <- ips) == m.Keys
    requires forall i, j :: 0 <= i < j < |ips| ==> ips[i] != ips[j]
    ensures var before := RunMap(c, m, Sweeps(ips[..i], clock[..i]));
            && ips[i] in before && before[ips[i]] == m[ips[i]]
            && RunMap(c, m, Sweeps(ips[..i + 1], clock[..i + 1])) == OnSweep(before, ips[i], clock[i])
  {
    hide RunMap, Sweeps;
    assert ips[i] in (set ip <- ips) && ips[i] !in ips[..i];
    SweepsOutcome(c, m, ips[..i], clock[..i]);
    assert ips[..i + 1][..i] == ips[..i] && clock[..i + 1][..i] == clock[..i];
    SweepLast(c, m, ips[..i + 1], clock[..i + 1]);
  }

  lemma SweepLast(c: Config, m: Buckets, ips: seq<string>, clock: seq<real>)
    requires |ips| == |clock| > 0
    ensures var n := |ips| - 1;
            RunMap(c, m, Sweeps(ips, clock)) == OnSweep(RunMap(c, m, Sweeps(ips[..n], clock[..n])), ips[n], clock[n])
  {
    var n := |ips| - 1;
    RunMapLast(c, m, Sweeps(ips[..n], clock[..n]), Sweep(ips[n], clock[n]));
    assert Sweeps(ips, clock) == Sweeps(ips[..n], clock[..n]) + [Sweep(ips[n], clock[n])];
  }

  /** A pass touches only the entries it visits, and drops exactly the idle ones. */
  lemma {:induction false} SweepsOutcome(c: Config, m: Buckets, ips: seq<string>, clock: seq<real>)
    requires |ips| == |clock|
    requires forall i, j :: 0 <= i < j < |ips| ==> ips[i] != ips[j]
    ensures var after := RunMap(c, m, Sweeps(ips, clock));
            && (forall ip :: ip !in ips ==> (ip in after <==> ip in m))
            && (forall ip <- after :: ip in m && after[ip] == m[ip])
            && (forall i :: 0 <= i < |ips| && ips[i] in m ==>
                  (ips[i] in after <==> clock[i] - m[ips[i]].lastCheck <= IDLE))
    decreases |ips|
  {
    if ips == [] {
    } else {
      var n := |ips| - 1;
      SweepsOutcome(c, m, ips[..n], clock[..n]);
      SweepLast(c, m, ips, clock);
      assert ips == ips[..n] + [ips[n]] && ips[n] !in ips[..n];
      var before := RunMap(c, m, Sweeps(ips[..n], clock[..n]));
      var after := OnSweep(before, ips[n], clock[n]);
      assert forall ip :: ip != ips[n] ==> (ip in after <==> ip in before);
    }
  }

  // ----- runs -----

  datatype Event = Request(ip: string, at: real) | Sweep(ip: string, at: real)

  function Sweeps(ips: seq<string>, clock: seq<real>): seq<Event>
    requires |ips| == |clock|
  {
    seq(|ips|, i requires 0 <= i < |ips| => Sweep(ips[i], clock[i]))
  }

  function Next(c: Config, m: Buckets, e: Event): (Buckets, Verdict) {
    match e
    case Request(ip, at) => OnRequest(c, m, ip, at)
    case Sweep(ip, at) => (OnSweep(m, ip, at), Swept)
  }

  function RunMap(c: Config, m: Buckets, es: seq<Event>): Buckets
    decreases |es|
  {
    if es == [] then m else RunMap(c, Next(c, m, es[0]).0, es[1..])
  }

  function Verdicts(c: Config, m: Buckets, es: seq<Event>): (vs: seq<Verdict>)
    ensures |vs| == |es|
    decreases |es|
  {
    if es == [] then []
    else var (m', v) := Next(c, m, es[0]); [v] + Verdicts(c, m', es[1..])
  }

  /** How many requests of one address a run admits. */
  function AdmittedOf(c: Config, m: Buckets, es: seq<Event>, ip: string): nat
    decreases |es|
  {
    if es == [] then 0
    else
      var (m', v) := Next(c, m, es[0]);
      (if es[0].ip == ip && v == Admitted then 1 else 0) + AdmittedOf(c, m', es[1..], ip)
  }

  /** Clock readings start no earlier than t and never go back. */
  predicate Clocked(es: seq<Event>, t: real)
    decreases |es|
  {
    es == [] || (t <= es[0].at && Clocked(es[1..], es[0].at))
  }

  /** No request of the address meets a full table. */
  predicate NeverBypassed(c: Config, m: Buckets, es: seq<Event>, ip: string)
    decreases |es|
  {
    es == [] ||
    var (m', v) := Next(c, m, es[0]);
    (es[0].ip == ip ==> v != Bypassed) && NeverBypassed(c, m', es[1..], ip)
  }

  lemma {:induction false} RunMapLast(c: Config, m: Buckets, es: seq<Event>, e: Event)
    ensures RunMap(c, m, es + [e]) == Next(c, RunMap(c, m, es), e).0
    decreases |es|
  {
    if es == [] {
      assert [] + [e] == [e];
    } else {
      RunMapLast(c, Next(c, m, es[0]).0, es[1..], e);
      assert (es + [e])[1..] == es[1..] + [e];
    }
  }

  // ----- invariants -----

  /** Tokens in [0, burst], no stamp in the future, no more entries than the limit. */
  ghost predicate Sound(c: Config, m: Buckets, now: real) {
    |m| <= MAX_BUCKETS &&
    forall ip <- m :: 0.0 <= m[ip].tokens <= c.burst as real && m[ip].lastCheck <= now
  }

  lemma RefillIn(c: Config, b: Bucket, now: real)
    requires c.rate >= 0.0 && 0.0 <= b.tokens <= c.burst as real && b.lastCheck <= now
    ensures b.tokens <= Refill(c, b, now) <= c.burst as real
  {
    RealNonNegative(now - b.lastCheck, c.rate);
  }

  lemma NextSound(c: Config, m: Buckets, e: Event, t: real)
    requires c.rate >= 0.0 && c.burst >= 0 && Sound(c, m, t) && t <= e.at
    ensures Sound(c, Next(c, m, e).0, e.at)
  {
    if e.Sweep? {
      KeysShrink(OnSweep(m, e.ip, e.at), m);
    } else {
      RequestSound(c, m, e.ip, e.at);
    }
  }

  lemma PutSound(c: Config, m: Buckets, ip: string, b: Bucket, now: real)
    requires Sound(c, m, now) && 0.0 <= b.tokens <= c.burst as real && b.lastCheck <= now
    requires ip in m || |m| < MAX_BUCKETS
    ensures Sound(c, m[ip := b], now)
  {
    if ip in m {
      assert m[ip := b].Keys == m.Keys;
    } else {
      assert m[ip := b].Keys == m.Keys + {ip};
    }
  }

  lemma RequestSound(c: Config, m: Buckets, ip: string, now: real)
    requires c.rate >= 0.0 && c.burst >= 0 && Sound(c, m, now)
    ensures Sound(c, OnRequest(c, m, ip, now).0, now)
  {
    hide Refill;
    if ip in m || |m| < MAX_BUCKETS {
      var t := if ip in m then Refill(c, m[ip], now) else c.burst as real;
      if ip in m { RefillIn(c, m[ip], now); }
      PutSound(c, m, ip, Bucket(if t < 1.0 then t else t - 1.0, now), now);
    }
  }

  lemma KeysShrink(a: Buckets, b: Buckets)
    requires a.Keys <= b.Keys
    ensures |a| <= |b|
    ensures forall ip :: ip in b && ip !in a ==> |a| < |b|
  {
    assert |b.Keys| == |a.Keys| + |b.Keys - a.Keys| by {
      assert b.Keys == a.Keys + (b.Keys - a.Keys);
    }
  }

  /** Tokens stay in [0, burst] and the table within its limit, over every run. */
  lemma {:induction false} RunSound(c: Config, m: Buckets, es: seq<Event>, t: real)
    requires c.rate >= 0.0 && c.burst >= 0 && Sound(c, m, t) && Clocked(es, t)
    ensures Sound(c, RunMap(c, m, es), if es == [] then t else es[|es| - 1].at)
    decreases |es|
  {
    if es == [] {
    } else {
      NextSound(c, m, es[0], t);
      RunSound(c, Next(c, m, es[0]).0, es[1..], es[0].at);
    }
  }

  // ----- the credit of an address -----

  /** What an address could spend at once at time t; an absent bucket is a full one. */
  function Credit(c: Config, m: Buckets, ip: string, t: real): real {
    if ip in m then Refill(c, m[ip], t) else c.burst as real
  }

  lemma CapTwice(c: Config, a: real, y: real)
    requires y >= 0.0
    ensures Cap(c, Cap(c, a) + y) == Cap(c, a + y)
  {
  }

  /** Refilling in two steps is refilling once, under the cap. */
  lemma CreditLater(c: Config, m: Buckets, ip: string, t: real, u: real)
    requires c.rate >= 0.0 && t <= u
    ensures Credit(c, m, ip, u) == Cap(c, Credit(c, m, ip, t) + (u - t) * c.rate)
  {
    var y := (u - t) * c.rate;
    RealNonNegative(u - t, c.rate);
    if ip in m {
      var b := m[ip];
      var x := (t - b.lastCheck) * c.rate;
      RealDistributes(t - b.lastCheck, u - t, c.rate);
      assert (t - b.lastCheck) + (u - t) == u - b.lastCheck;
      assert (u - b.lastCheck) * c.rate == x + y;
      assert Credit(c, m, ip, u) == Cap(c, (b.tokens + x) + y);
      CapTwice(c, b.tokens + x, y);
    } else {
      CapTwice(c, c.burst as real, y);
    }
  }

  /** Forgetting a bucket idle for five minutes loses no debt when the burst refills in that time. */
  lemma SweepKeepsCredit(c: Config, m: Buckets, e: Event, ip: string, t: real)
    requires e.Sweep? && c.rate >= 0.0 && c.burst as real <= IDLE * c.rate
    requires Sound(c, m, t) && t <= e.at
    ensures Credit(c, Next(c, m, e).0, ip, e.at) == Credit(c, m, ip, e.at)
  {
    if e.ip == ip && ip in m {
      var idle := e.at - m[ip].lastCheck;
      if idle > IDLE {
        assert (idle - IDLE) * c.rate >= 0.0;
      }
    }
  }

  /** A bucket that was just looked at has nothing to gain. */
  lemma RefillNow(c: Config, b: Bucket)
    ensures Refill(c, b, b.lastCheck) == Cap(c, b.tokens)
  {
    RealZero(c.rate);
    assert b.lastCheck - b.lastCheck == 0.0;
  }

  lemma RequestCredit(c: Config, m: Buckets, e: Event, ip: string)
    requires e.Request? && Next(c, m, e).1 != Bypassed
    ensures Credit(c, Next(c, m, e).0, ip, e.at) ==
            Credit(c, m, ip, e.at) - if e.ip == ip && Next(c, m, e).1 == Admitted then 1.0 else 0.0
    ensures Next(c, m, e).1 == Admitted <==> Credit(c, m, e.ip, e.at) >= 1.0
  {
    if e.ip == ip {
      RefillNow(c, Next(c, m, e).0[ip]);
    }
  }

  lemma NextCredit(c: Config, m: Buckets, e: Event, ip: string, t: real)
    requires c.rate >= 0.0 && c.burst as real <= IDLE * c.rate && Sound(c, m, t) && t <= e.at
    requires e.ip == ip ==> Next(c, m, e).1 != Bypassed
    ensures Credit(c, Next(c, m, e).0, ip, e.at) ==
            Credit(c, m, ip, e.at) - if e.ip == ip && Next(c, m, e).1 == Admitted then 1.0 else 0.0
  {
    if e.Sweep? {
      SweepKeepsCredit(c, m, e, ip, t);
    } else if Next(c, m, e).1 != Bypassed {
      RequestCredit(c, m, e, ip);
    }
  }

  // ----- how much a window admits -----

  lemma {:induction false} WindowCredit(c: Config, m: Buckets, es: seq<Event>, ip: string, t0: real, t1: real)
    requires c.rate >= 0.0 && 0 <= c.burst && c.burst as real <= IDLE * c.rate
    requires Sound(c, m, t0) && Clocked(es, t0) && NeverBypassed(c, m, es, ip)
    requires t0 <= t1 && forall e <- es :: e.at <= t1
    ensures AdmittedOf(c, m, es, ip) as real <= Credit(c, m, ip, t0) + c.rate * (t1 - t0)
    decreases |es|
  {
    if es == [] {
      assert c.rate * (t1 - t0) >= 0.0;
      if ip in m { RefillIn(c, m[ip], t0); }
    } else {
      var m', t := Next(c, m, es[0]).0, es[0].at;
      assert es[0] in es;
      NextSound(c, m, es[0], t0);
      NextCredit(c, m, es[0], ip, t0);
      CreditLater(c, m, ip, t0, t);
      WindowCredit(c, m', es[1..], ip, t, t1);
      assert c.rate * (t1 - t0) == c.rate * (t1 - t) + (t - t0) * c.rate;
    }
  }

  /** In any window of any run the address gets at most its burst plus the tokens of the window. */
  ghost predicate WindowBound(c: Config) {
    forall before: seq<Event>, window: seq<Event>, ip: string, start: real, t0: real, t1: real ::
      RunsThrough(c, before, window, ip, start, t0, t1) ==>
      AdmittedOf(c, RunMap(c, map[], before), window, ip) as real <= c.burst as real + c.rate * (t1 - t0)
  }

  ghost predicate RunsThrough(c: Config, before: seq<Event>, window: seq<Event>, ip: string, start: real, t0: real, t1: real) {
    && Clocked(before, start) && (before != [] ==> before[|before| - 1].at <= t0)
    && Clocked(window, t0) && t0 <= t1 && (forall e <- window :: e.at <= t1)
    && NeverBypassed(c, RunMap(c, map[], before), window, ip)
  }

  lemma WindowBounded(c: Config)
    requires c.rate >= 0.0 && 0 <= c.burst && c.burst as real <= IDLE * c.rate
    ensures WindowBound(c)
  {
    forall before: seq<Event>, window: seq<Event>, ip: string, start: real, t0: real, t1: real
      | RunsThrough(c, before, window, ip, start, t0, t1)
      ensures AdmittedOf(c, RunMap(c, map[], before), window, ip) as real <= c.burst as real + c.rate * (t1 - t0)
    {
      var m := RunMap(c, map[], before);
      RunSound(c, map[], before, start);
      assert Sound(c, m, t0);
      WindowCredit(c, m, window, ip, t0, t1);
      if ip in m { RefillIn(c, m[ip], t0); }
    }
  }

  function Repeat(e: Event, n: nat): seq<Event> {
    seq(n, _ => e)
  }

  /** A bucket with n tokens admits n requests at one instant. */
  lemma {:induction false} Drain(c: Config, m: Buckets, ip: string, t: real, n: nat, rest: seq<Event>) returns (m': Buckets)
    requires n as real <= Credit(c, m, ip, t) && (ip in m || |m| < MAX_BUCKETS)
    ensures m'.Keys <= m.Keys + {ip} && (n > 0 ==> ip in m' && m'[ip].lastCheck == t)
    ensures var es := Repeat(Request(ip, t), n) + rest;
            && AdmittedOf(c, m, es, ip) == n + AdmittedOf(c, m', rest, ip)
            && (NeverBypassed(c, m', rest, ip) ==> NeverBypassed(c, m, es, ip))
    decreases n
  {
    var e := Request(ip, t);
    var es := Repeat(e, n) + rest;
    if n == 0 {
      m' := m;
      assert es == rest;
    } else {
      var m1 := Next(c, m, e).0;
      RequestCredit(c, m, e, ip);
      assert m1.Keys == m.Keys + {ip};
      m' := Drain(c, m1, ip, t, n - 1, rest);
      assert es[0] == e && es[1..] == Repeat(e, n - 1) + rest;
      if n == 1 {
        m' := m1;
        assert es[1..] == rest;
      }
    }
  }

  lemma {:induction false} ClockedRepeat(e: Event, n: nat, rest: seq<Event>, t: real)
    requires t <= e.at && Clocked(rest, e.at)
    ensures Clocked(Repeat(e, n) + rest, if n == 0 then e.at else t)
    decreases n
  {
    var es := Repeat(e, n) + rest;
    if n == 0 {
      assert es == rest;
    } else {
      ClockedRepeat(e, n - 1, rest, e.at);
      assert es[0] == e && es[1..] == Repeat(e, n - 1) + rest;
    }
  }

  /** An instant just over five minutes away by which a large burst is still not refilled. */
  lemma TooSoon(c: Config) returns (t: real)
    requires c.rate >= 0.0 && c.burst as real > IDLE * c.rate
    ensures t > IDLE && c.rate * t < c.burst as real && c.burst > 0
  {
    RealNonNegative(IDLE, c.rate);
    if c.rate == 0.0 {
      t := IDLE + 1.0;
    } else {
      var slack := c.burst as real - IDLE * c.rate;
      var step := slack / (2.0 * c.rate);
      t := IDLE + step;
      assert step * (2.0 * c.rate) == slack;
      RealDistributes(IDLE, step, c.rate);
    }
  }

  /** Spend the burst, be forgotten just after five minutes, spend it again. */
  function Revisit(ip: string, t: real, n: nat): seq<Event> {
    Repeat(Request(ip, 0.0), n) + ([Sweep(ip, t)] + (Repeat(Request(ip, t), n) + []))
  }

  lemma RevisitAdmitted(c: Config, ip: string, t: real)
    requires c.burst > 0 && t > IDLE
    ensures AdmittedOf(c, map[], Revisit(ip, t, c.burst), ip) == 2 * c.burst
    ensures NeverBypassed(c, map[], Revisit(ip, t, c.burst), ip)
  {
    var n: nat := c.burst;
    var again := Repeat(Request(ip, t), n) + [];
    var mid := [Sweep(ip, t)] + again;
    var m1 := Drain(c, map[], ip, 0.0, n, mid);
    assert m1 - {ip} == map[];
    assert Next(c, m1, mid[0]) == (map[], Swept) && mid[1..] == again;
    var m2 := Drain(c, map[], ip, t, n, []);
  }

  lemma RevisitClocked(ip: string, t: real, n: nat)
    requires t >= 0.0
    ensures Clocked(Revisit(ip, t, n), 0.0) && forall e <- Revisit(ip, t, n) :: e.at <= t
  {
    var again := Repeat(Request(ip, t), n) + [];
    var mid := [Sweep(ip, t)] + again;
    ClockedRepeat(Request(ip, t), n, [], t);
    assert mid[1..] == again;
    ClockedRepeat(Request(ip, 0.0), n, mid, 0.0);
  }

  lemma ForgottenDebt(c: Config, ip: string)
    requires c.rate >= 0.0 && c.burst as real > IDLE * c.rate
    ensures !WindowBound(c)
  {
    var t := TooSoon(c);
    var window := Revisit(ip, t, c.burst);
    RevisitAdmitted(c, ip, t);
    RevisitClocked(ip, t, c.burst);
    assert RunMap(c, map[], []) == map[] && Clocked([], 0.0);
    hide Revisit, AdmittedOf, NeverBypassed, Clocked, RunMap;
    assert RunsThrough(c, [], window, ip, 0.0, 0.0, t);
    assert t - 0.0 == t && (2 * c.burst) as real == c.burst as real + c.burst as real;
  }

  /** The window bound holds exactly when a full burst refills within the five idle minutes. */
  lemma WindowBoundIff(c: Config)
    requires c.rate >= 0.0 && 0 <= c.burst
    ensures WindowBound(c) <==> c.burst as real <= IDLE * c.rate
  {
    if c.burst as real <= IDLE * c.rate {
      WindowBounded(c);
    } else {
      ForgottenDebt(c, "10.0.0.1");
    }
  }

  // ----- the collector and denied requests change nothing -----

  /** The ideal limiter: no collector and no limit on the number of buckets. */
  function IdealNext(c: Config, m: Buckets, ip: string, now: real): (Buckets, Verdict) {
    var t := Credit(c, m, ip, now);
    if t < 1.0 then (m[ip := Bucket(t, now)], Denied) else (m[ip := Bucket(t - 1.0, now)], Admitted)
  }

  function IdealVerdicts(c: Config, m: Buckets, es: seq<Event>): seq<Verdict>
    decreases |es|
  {
    if es == [] then []
    else match es[0]
      case Sweep(_, _) => [Swept] + IdealVerdicts(c, m, es[1..])
      case Request(ip, at) => var (m', v) := IdealNext(c, m, ip, at); [v] + IdealVerdicts(c, m', es[1..])
  }

  /** Both tables give every address the same credit. */
  ghost predicate SameCredit(c: Config, m: Buckets, w: Buckets, t: real) {
    forall ip :: Credit(c, m, ip, t) == Credit(c, w, ip, t)
  }

  lemma SameCreditLater(c: Config, m: Buckets, w: Buckets, t: real, u: real)
    requires c.rate >= 0.0 && t <= u && SameCredit(c, m, w, t)
    ensures SameCredit(c, m, w, u)
  {
    forall ip ensures Credit(c, m, ip, u) == Credit(c, w, ip, u) {
      CreditLater(c, m, ip, t, u);
      CreditLater(c, w, ip, t, u);
    }
  }

  lemma IdealCredit(c: Config, w: Buckets, e: Event, ip: string)
    requires e.Request?
    ensures var (w', v) := IdealNext(c, w, e.ip, e.at);
            Credit(c, w', ip, e.at) == Credit(c, w, ip, e.at) - (if e.ip == ip && v == Admitted then 1.0 else 0.0)
            && (v == Admitted <==> Credit(c, w, e.ip, e.at) >= 1.0)
  {
    var w' := IdealNext(c, w, e.ip, e.at).0;
    if e.ip == ip {
      RefillNow(c, w'[ip]);
    }
  }

  /** As long as nobody meets a full table, the limiter decides as the ideal one does. */
  lemma {:induction false} RefinesIdeal(c: Config, m: Buckets, w: Buckets, es: seq<Event>, t: real)
    requires c.rate >= 0.0 && 0 <= c.burst && c.burst as real <= IDLE * c.rate
    requires Sound(c, m, t) && Clocked(es, t) && SameCredit(c, m, w, t)
    requires Bypassed !in Verdicts(c, m, es)
    ensures Verdicts(c, m, es) == IdealVerdicts(c, w, es)
    decreases |es|
  {
    if es == [] {
    } else {
      var e := es[0];
      var (m', v) := Next(c, m, e);
      assert Verdicts(c, m, es)[0] == v && Verdicts(c, m, es)[1..] == Verdicts(c, m', es[1..]);
      NextSound(c, m, e, t);
      SameCreditLater(c, m, w, t, e.at);
      var w' := if e.Request? then IdealNext(c, w, e.ip, e.at).0 else w;
      forall ip ensures Credit(c, m', ip, e.at) == Credit(c, w', ip, e.at) {
        NextCredit(c, m, e, ip, t);
        assert Credit(c, m, ip, e.at) == Credit(c, w, ip, e.at);
        if e.Request? {
          IdealCredit(c, w, e, ip);
          RequestCredit(c, m, e, e.ip);
          assert Credit(c, m, e.ip, e.at) == Credit(c, w, e.ip, e.at);
        }
      }
      if e.Request? {
        IdealCredit(c, w, e, e.ip);
        RequestCredit(c, m, e, e.ip);
        assert Credit(c, m, e.ip, e.at) == Credit(c, w, e.ip, e.at);
      }
      RefinesIdeal(c, m', w', es[1..], e.at);
    }
  }

  function Keep<T>(s: seq<T>, mask: seq<bool>): seq<T>
    requires |s| == |mask|
    decreases |s|
  {
    if s == [] then [] else (if mask[0] then [s[0]] else []) + Keep(s[1..], mask[1..])
  }

  /** The second table knows no address the first does not, and saw none more recently. */
  ghost predicate Lags(w: Buckets, m: Buckets) {
    forall ip <- w :: ip in m && w[ip].lastCheck <= m[ip].lastCheck
  }

  /**
   * Denied requests are free: drop any of them from a run without bypasses and every other
   * event gets the verdict it had.
   */
  lemma {:induction false} DeniedAreFree(c: Config, m: Buckets, w: Buckets, es: seq<Event>, mask: seq<bool>, t: real)
    requires c.rate >= 0.0 && 0 <= c.burst && c.burst as real <= IDLE * c.rate
    requires Sound(c, m, t) && Sound(c, w, t) && Clocked(es, t) && SameCredit(c, m, w, t) && Lags(w, m)
    requires |mask| == |es| && Bypassed !in Verdicts(c, m, es)
    requires forall i :: 0 <= i < |es| && !mask[i] ==> Verdicts(c, m, es)[i] == Denied
    ensures Verdicts(c, w, Keep(es, mask)) == Keep(Verdicts(c, m, es), mask)
    decreases |es|
  {
    if es == [] {
    } else {
      var e := es[0];
      var (m', v) := Next(c, m, e);
      var vs := Verdicts(c, m, es);
      assert vs[0] == v && vs[1..] == Verdicts(c, m', es[1..]);
      NextSound(c, m, e, t);
      SameCreditLater(c, m, w, t, e.at);
      var w' := if mask[0] then Next(c, w, e).0 else w;
      KeptStep(c, m, w, e, mask[0], t);
      DeniedAreFree(c, m', w', es[1..], mask[1..], e.at);
      if mask[0] {
        assert Keep(es, mask) == [e] + Keep(es[1..], mask[1..]);
        assert Keep(es, mask)[1..] == Keep(es[1..], mask[1..]);
      } else {
        assert Keep(es, mask) == Keep(es[1..], mask[1..]);
      }
    }
  }

  lemma KeptStep(c: Config, m: Buckets, w: Buckets, e: Event, kept: bool, t: real)
    requires c.rate >= 0.0 && 0 <= c.burst && c.burst as real <= IDLE * c.rate
    requires Sound(c, m, t) && Sound(c, w, t) && t <= e.at && SameCredit(c, m, w, e.at) && Lags(w, m)
    requires Next(c, m, e).1 != Bypassed && (!kept ==> Next(c, m, e).1 == Denied)
    ensures var m', w' := Next(c, m, e).0, if kept then Next(c, w, e).0 else w;
            Sound(c, w', e.at) && SameCredit(c, m', w', e.at) && Lags(w', m')
    ensures kept ==> Next(c, w, e).1 == Next(c, m, e).1
  {
    NextSound(c, w, e, t);
    KeysShrink(w, m);
    if e.Request? {
      RequestCredit(c, m, e, e.ip);
      assert Credit(c, m, e.ip, e.at) == Credit(c, w, e.ip, e.at);
      if kept {
        assert Next(c, w, e).1 != Bypassed;
        RequestCredit(c, w, e, e.ip);
      }
    }
    var m', w' := Next(c, m, e).0, if kept then Next(c, w, e).0 else w;
    forall ip ensures Credit(c, m', ip, e.at) == Credit(c, w', ip, e.at) {
      assert Credit(c, m, ip, e.at) == Credit(c, w, ip, e.at);
      NextCredit(c, m, e, ip, t);
      if kept { NextCredit(c, w, e, ip, t); }
    }
  }
}
