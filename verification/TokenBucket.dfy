/** The per-client token bucket (ratelimit/ip.go). Tokens are reals; times are integer nanoseconds. */
module TokenBucket {
  import opened Options

  datatype Bucket = Bucket(tokens: real, last: int)

  /** A limiter's configuration and table, as a value. */
  datatype Limiter = Limiter(m: map<string, Bucket>, rps: real, burst: int, maxIPs: nat)

  const NANOS := 1_000_000_000.0

  function Seconds(from: int, to: int): real {
    (to - from) as real / NANOS
  }

  /** The host of an address that net.SplitHostPort can split, otherwise the address itself. */
  function HostOf(splitHost: string -> Option<string>, addr: string): string {
    match splitHost(addr)
    case None => addr
    case Some(h) => h
  }

  function Client(ip: string): string {
    if ip == "" then "unknown" else ip
  }

  function Capped(tokens: real, burst: int): real {
    if tokens > burst as real then burst as real else tokens
  }

  /** `ip` is the host of the address if it can be split, else the address; a blank one counts as "unknown". */
  predicate IsClient(ip: string, addr: string, splitHost: string -> Option<string>) {
    var host := splitHost(addr);
    && (host == Some("") || (host == None && addr == "") ==> ip == "unknown")
    && (host.Some? && host.value != "" ==> ip == host.value)
    && (host == None && addr != "" ==> ip == addr)
  }

  /** A new client's request is let through uncounted when the table is full. */
  predicate FailsOpen(l: Limiter, ip: string) {
    |l.m| >= l.maxIPs && ip !in l.m
  }

  /** The bucket a request is charged to: the client's, or a full one made for it. */
  function Charged(l: Limiter, ip: string, now: int): Bucket {
    if ip in l.m then l.m[ip] else Bucket(l.burst as real, now)
  }

  /** Tokens available to the request, after the refill. */
  function Available(l: Limiter, ip: string, now: int): real {
    var e := Charged(l, ip, now);
    Capped(e.tokens + Seconds(e.last, now) * l.rps, l.burst)
  }

  predicate Admits(l: Limiter, ip: string, now: int) {
    l.rps <= 0.0 || FailsOpen(l, Client(ip)) || Available(l, Client(ip), now) >= 1.0
  }

  /** The client's bucket after a request that found `t` tokens. */
  function Settle(l: Limiter, ip: string, now: int, t: real): Limiter {
    l.(m := l.m[ip := Bucket(if t >= 1.0 then t - 1.0 else t, now)])
  }

  function Step(l: Limiter, ip: string, now: int): Limiter {
    if l.rps <= 0.0 || FailsOpen(l, Client(ip)) then l
    else Settle(l, Client(ip), now, Available(l, Client(ip), now))
  }

  /** A call touches at most the entry of its own client. */
  lemma OnlyOwnEntry(l: Limiter, addr: string, now: int, splitHost: string -> Option<string>)
    ensures var m := Step(l, HostOf(splitHost, addr), now).m;
            && l.m.Keys <= m.Keys
            && forall ip <- m :: (ip in l.m && m[ip] == l.m[ip]) || IsClient(ip, addr, splitHost)
  {
    assert IsClient(Client(HostOf(splitHost, addr)), addr, splitHost);
  }

  class PerIP {
    var m: map<string, Bucket>
    const rps: real
    const burst: int
    const maxIPs: nat

    constructor (rps: real, burst: int)
      ensures View() == Limiter(map[], rps, if burst < 1 then 1 else burst, 10000)
    {
      this.rps, this.burst, this.maxIPs, m := rps, if burst < 1 then 1 else burst, 10000, map[];
    }

    function View(): Limiter
      reads this
    {
      Limiter(m, rps, burst, maxIPs)
    }

    /** `splitHost` is net.SplitHostPort, which is not part of this model. */
    method Allow(clientIP: string, now: int, splitHost: string -> Option<string>) returns (ok: bool)
      modifies this
      ensures View() == Step(old(View()), HostOf(splitHost, clientIP), now)
      ensures ok == Admits(old(View()), HostOf(splitHost, clientIP), now)
      ensures rps <= 0.0 ==> ok && m == old(m)
      ensures forall ip <- m :: (ip in old(m) && m[ip] == old(m)[ip]) || IsClient(ip, clientIP, splitHost)
      ensures old(m.Keys) <= m.Keys
    {
      OnlyOwnEntry(View(), clientIP, now, splitHost);
      if rps <= 0.0 {
        return true;
      }
      var ip := clientIP;
      match splitHost(ip) {
        case None =>
        case Some(h) => ip := h;
      }
      if ip == "" {
        ip := "unknown";
      }
      if |m| >= maxIPs && ip !in m {
        return true;
      }
      ok := Spend(ip, now);
    }

    /** The counted part of Allow, on the client's bucket. */
    method Spend(ip: string, now: int) returns (ok: bool)
      modifies this
      ensures View() == Settle(old(View()), ip, now, Available(old(View()), ip, now))
      ensures ok <==> Available(old(View()), ip, now) >= 1.0
    {
      var e := if ip in m then m[ip] else Bucket(burst as real, now);
      var tokens := e.tokens + Seconds(e.last, now) * rps;
      if tokens > burst as real {
        tokens := burst as real;
      }
      assert tokens == Available(View(), ip, now);
      if tokens < 1.0 {
        m := m[ip := Bucket(tokens, now)];
        return false;
      }
      m := m[ip := Bucket(tokens - 1.0, now)];
      return true;
    }
  }

  // ---- What every call keeps ----

  /** Tokens stay between zero and the burst, and no bucket is dated in the future. */
  ghost predicate Sound(l: Limiter, now: int) {
    l.rps > 0.0 && l.burst >= 1 && forall ip <- l.m :: 0.0 <= l.m[ip].tokens <= l.burst as real && l.m[ip].last <= now
  }

  lemma Earned(rps: real, a: int, b: int)
    requires rps > 0.0 && a <= b
    ensures Seconds(a, b) * rps >= 0.0
  {
  }

  lemma StepSound(l: Limiter, ip: string, before: int, now: int)
    requires Sound(l, before) && before <= now
    ensures Sound(Step(l, ip, now), now)
    ensures |l.m| <= l.maxIPs ==> |Step(l, ip, now).m| <= l.maxIPs
  {
    var c := Client(ip);
    if c in l.m {
      Earned(l.rps, l.m[c].last, now);
    }
  }

  /** A client that waits for one token's worth of time is always admitted. */
  lemma PatientClientAdmitted(l: Limiter, ip: string, before: int, now: int)
    requires Sound(l, before) && before <= now
    requires Client(ip) in l.m ==> (now - l.m[Client(ip)].last) as real / 1_000_000_000.0 * l.rps >= 1.0
    ensures Admits(l, ip, now)
  {
  }

  // ---- Runs of calls ----

  datatype Call = Call(ip: string, now: int)

  ghost predicate Monotone(calls: seq<Call>) {
    forall i, j :: 0 <= i < j < |calls| ==> calls[i].now <= calls[j].now
  }

  function Run(l: Limiter, calls: seq<Call>): Limiter {
    if calls == [] then l
    else var c := calls[|calls| - 1]; Step(Run(l, calls[..|calls| - 1]), c.ip, c.now)
  }

  /** Requests of client `ip` admitted during the run. */
  function Admitted(l: Limiter, calls: seq<Call>, ip: string): nat {
    if calls == [] then 0
    else
      var head, c := calls[..|calls| - 1], calls[|calls| - 1];
      Admitted(l, head, ip) + if Client(c.ip) == ip && Admits(Run(l, head), c.ip, c.now) then 1 else 0
  }

  /** Allowance of a bucket from `start` on: the burst, plus what the clock has earned by its last use. */
  function Allowance(burst: int, rps: real, start: int, last: int): real {
    burst as real + if last >= start then Seconds(start, last) * rps else 0.0
  }

  /** The limit over a stretch of time: the burst, and `rps` for every second of it. */
  function Limit(burst: int, rps: real, from: int, to: int): real {
    burst as real + (to - from) as real / 1_000_000_000.0 * rps
  }

  lemma AllowanceIsLimit(burst: int, rps: real, from: int, to: int)
    requires from <= to
    ensures Allowance(burst, rps, from, to) == Limit(burst, rps, from, to)
  {
  }

  lemma AllowanceGrows(burst: int, rps: real, start: int, a: int, b: int)
    requires rps > 0.0 && start <= b && a <= b
    ensures Allowance(burst, rps, start, b) >= burst as real
    ensures start <= a ==> Allowance(burst, rps, start, b) == Allowance(burst, rps, start, a) + Seconds(a, b) * rps
    ensures Allowance(burst, rps, start, a) <= Allowance(burst, rps, start, b)
  {
    Earned(rps, start, b);
    Earned(rps, a, b);
    if start <= a {
      assert Seconds(start, b) == Seconds(start, a) + Seconds(a, b);
    }
  }

  /** What the client has been admitted so far plus what its bucket holds stays within the allowance. */
  ghost predicate Accounted(l: Limiter, start: int, ip: string, count: nat) {
    if ip in l.m then Within(count, l.m[ip].tokens, Allowance(l.burst, l.rps, start, l.m[ip].last))
      && (l.m[ip].last < start ==> count == 0)
    else |l.m| < l.maxIPs ==> count == 0
  }

  predicate Within(count: nat, tokens: real, allowance: real) {
    count as real + tokens <= allowance
  }

  /** A request that finds `t` tokens keeps the client within its allowance. */
  predicate Spent(count: nat, t: real, allowance: real) {
    if t >= 1.0 then Within(count + 1, t - 1.0, allowance) else Within(count, t, allowance)
  }

  /** The arithmetic of one request: refill, cap, and spend one token if there is one. */
  lemma SpendWithin(burst: int, rps: real, start: int, now: int, e: Bucket, count: nat, t: real, allowance: real)
    requires rps > 0.0 && burst >= 1 && start <= now && e.last <= now && e.tokens <= burst as real
    requires e.last < start ==> count == 0
    requires e.last >= start ==> Within(count, e.tokens, Allowance(burst, rps, start, e.last))
    requires t == Capped(e.tokens + Seconds(e.last, now) * rps, burst) && allowance == Allowance(burst, rps, start, now)
    ensures Spent(count, t, allowance)
  {
    AllowanceGrows(burst, rps, start, e.last, now);
  }

  lemma ChargedWithin(l: Limiter, ip: string, start: int, now: int, count: nat)
    requires Sound(l, now) && start <= now && !FailsOpen(l, ip) && Accounted(l, start, ip, count)
    ensures var e := Charged(l, ip, now);
            && e.last <= now && e.tokens <= l.burst as real && (e.last < start ==> count == 0)
            && (e.last >= start ==> Within(count, e.tokens, Allowance(l.burst, l.rps, start, e.last)))
  {
    if ip !in l.m {
      AllowanceGrows(l.burst, l.rps, start, now, now);
    }
  }

  lemma OwnCall(l: Limiter, c: Call, start: int, count: nat)
    requires Sound(l, c.now) && start <= c.now && !FailsOpen(l, Client(c.ip))
             && Accounted(l, start, Client(c.ip), count)
    ensures Accounted(Step(l, c.ip, c.now), start, Client(c.ip), count + if Admits(l, c.ip, c.now) then 1 else 0)
  {
    FoundWithin(l, Client(c.ip), start, c.now, count);
    SettleAccounted(l, Client(c.ip), c.now, Available(l, Client(c.ip), c.now), start, count);
  }

  lemma FoundWithin(l: Limiter, ip: string, start: int, now: int, count: nat)
    requires Sound(l, now) && start <= now && !FailsOpen(l, ip) && Accounted(l, start, ip, count)
    ensures Spent(count, Available(l, ip, now), Allowance(l.burst, l.rps, start, now))
  {
    ChargedWithin(l, ip, start, now, count);
    SpendWithin(l.burst, l.rps, start, now, Charged(l, ip, now), count, Available(l, ip, now),
                Allowance(l.burst, l.rps, start, now));
  }

  lemma SettleAccounted(l: Limiter, ip: string, now: int, t: real, start: int, count: nat)
    requires start <= now
    requires Spent(count, t, Allowance(l.burst, l.rps, start, now))
    ensures Accounted(Settle(l, ip, now, t), start, ip, count + if t >= 1.0 then 1 else 0)
  {
  }

  lemma AccountedStep(l: Limiter, c: Call, start: int, ip: string, count: nat)
    requires Sound(l, c.now) && start <= c.now && Accounted(l, start, ip, count)
    ensures Accounted(Step(l, c.ip, c.now), start, ip, count + if Client(c.ip) == ip && Admits(l, c.ip, c.now) then 1
                      else 0)
  {
    if Client(c.ip) == ip {
      if !FailsOpen(l, ip) {
        OwnCall(l, c, start, count);
      }
    } else {
      SetGrows(l.m.Keys, Client(c.ip));
    }
  }

  lemma SetGrows(s: set<string>, x: string)
    ensures |s| <= |s + {x}| <= |s| + 1
  {
    if x in s {
      assert s + {x} == s;
    }
  }

  lemma {:induction false} RunAccounted(l: Limiter, calls: seq<Call>, ip: string, start: int, now: int)
    requires Sound(l, start) && Monotone(calls) && start <= now
    requires forall c <- calls :: start <= c.now <= now
    ensures var r := Run(l, calls); Sound(r, now) && r.rps == l.rps && r.burst == l.burst && r.maxIPs == l.maxIPs
    ensures |l.m| <= l.maxIPs ==> |Run(l, calls).m| <= l.maxIPs
    ensures Accounted(l, start, ip, 0) ==> Accounted(Run(l, calls), start, ip, Admitted(l, calls, ip))
  {
    if calls != [] {
      var head, c := calls[..|calls| - 1], calls[|calls| - 1];
      assert c in calls;
      RunAccounted(l, head, ip, start, c.now);
      var mid := Run(l, head);
      StepSound(mid, c.ip, c.now, c.now);
      if Accounted(l, start, ip, 0) {
        AccountedStep(mid, c, start, ip, Admitted(l, head, ip));
      }
    }
  }

  lemma TimesBetween(calls: seq<Call>)
    requires calls != [] && Monotone(calls)
    ensures forall c <- calls :: calls[0].now <= c.now <= calls[|calls| - 1].now
  {
  }

  lemma StartAccounted(l: Limiter, ip: string, start: int)
    requires Sound(l, start)
    ensures Accounted(l, start, ip, 0)
  {
    if ip in l.m && l.m[ip].last == start {
      AllowanceGrows(l.burst, l.rps, start, start, start);
    }
  }

  /** Between any two calls at times t1 <= t2, a client that has a table entry by then was admitted at most
      burst + rps * (t2 - t1) times; tokens stay within [0, burst] and the table within maxIPs. */
  lemma {:induction false} RateBound(l: Limiter, calls: seq<Call>, ip: string)
    requires calls != [] && Monotone(calls) && Sound(l, calls[0].now)
    requires ip in Run(l, calls).m
    ensures var t1, t2 := calls[0].now, calls[|calls| - 1].now;
            t1 <= t2 && Admitted(l, calls, ip) as real <= Limit(l.burst, l.rps, t1, t2)
    ensures Sound(Run(l, calls), calls[|calls| - 1].now)
    ensures |l.m| <= l.maxIPs ==> |Run(l, calls).m| <= l.maxIPs
  {
    var t1, t2 := calls[0].now, calls[|calls| - 1].now;
    StartAccounted(l, ip, t1);
    TimesBetween(calls);
    RunAccounted(l, calls, ip, t1, t2);
    var r := Run(l, calls);
    var used, left := Allowance(l.burst, l.rps, t1, r.m[ip].last), r.m[ip].tokens;
    assert Within(Admitted(l, calls, ip), left, used) && left >= 0.0;
    assert used <= Allowance(l.burst, l.rps, t1, t2) by { AllowanceGrows(l.burst, l.rps, t1, r.m[ip].last, t2); }
    AllowanceIsLimit(l.burst, l.rps, t1, t2);
  }

  /** A client without an entry when the table is full never gets one, and all its requests pass. */
  lemma {:induction false} FullTableNeverLimits(l: Limiter, calls: seq<Call>, ip: string)
    requires FailsOpen(l, ip)
    ensures FailsOpen(Run(l, calls), ip)
    ensures calls != [] && Client(calls[|calls| - 1].ip) == ip ==>
      Admits(Run(l, calls[..|calls| - 1]), calls[|calls| - 1].ip, calls[|calls| - 1].now)
  {
    if calls != [] {
      var c := calls[|calls| - 1];
      FullTableNeverLimits(l, calls[..|calls| - 1], ip);
      SetGrows(Run(l, calls[..|calls| - 1]).m.Keys, Client(c.ip));
    }
  }

  // ---- The limit is used in full ----

  /** Requests of client `ip` admitted from call `k` on. */
  function AdmittedFrom(l: Limiter, calls: seq<Call>, k: nat, ip: string): int
    requires k <= |calls|
  {
    Admitted(l, calls, ip) - Admitted(l, calls[..k], ip)
  }

  /** Since `start`, when the bucket was full, exactly `used` tokens have been taken from the allowance. */
  predicate Exact(burst: int, rps: real, start: int, e: Bucket, used: int) {
    start <= e.last && e.tokens == Allowance(burst, rps, start, e.last) - used as real
  }

  /** The client's bucket after one more request at `now` that found `t` tokens. */
  function After(t: real, now: int): Bucket {
    Bucket(if t >= 1.0 then t - 1.0 else t, now)
  }

  lemma ExactGoesOn(burst: int, rps: real, start: int, e: Bucket, used: int, now: int, t: real)
    requires rps > 0.0 && e.last <= now && Exact(burst, rps, start, e, used)
    requires t == e.tokens + Seconds(e.last, now) * rps
    ensures Exact(burst, rps, start, After(t, now), used + if t >= 1.0 then 1 else 0)
  {
    AllowanceGrows(burst, rps, start, e.last, now);
  }

  lemma ExactAnew(burst: int, rps: real, now: int)
    requires burst >= 1
    ensures Exact(burst, rps, now, After(burst as real, now), 1)
  {
    assert Seconds(now, now) * rps == 0.0;
  }

  /** The limiters a run goes through have one configuration, and the run's clients and times are sound. */
  ghost predicate Follows(l: Limiter, r: Limiter, now: int) {
    r.rps == l.rps && r.burst == l.burst && r.maxIPs == l.maxIPs && Sound(r, now)
  }

  lemma Charge(r: Limiter, c: Call, who: string, t: real)
    requires r.rps > 0.0 && who == Client(c.ip) && !FailsOpen(r, who) && t == Available(r, who, c.now)
    ensures who in Step(r, c.ip, c.now).m && Step(r, c.ip, c.now).m[who] == After(t, c.now)
    ensures Admits(r, c.ip, c.now) <==> t >= 1.0
  {
  }

  lemma FoundNew(r: Limiter, ip: string, now: int)
    requires ip !in r.m
    ensures Available(r, ip, now) == r.burst as real
  {
    assert Seconds(now, now) * r.rps == 0.0;
  }

  lemma FoundOld(r: Limiter, ip: string, now: int)
    requires ip in r.m
    ensures Available(r, ip, now) == r.burst as real
            || Available(r, ip, now) == r.m[ip].tokens + Seconds(r.m[ip].last, now) * r.rps
  {
  }

  /** One request that the table counts either goes on with the client's account or starts a new one. */
  lemma AccountGoesOn(r: Limiter, c: Call, who: string, start: int, used: int)
    requires Sound(r, c.now) && who == Client(c.ip) && !FailsOpen(r, who)
    requires who in r.m ==> Exact(r.burst, r.rps, start, r.m[who], used)
    ensures who in Step(r, c.ip, c.now).m
    ensures var e := Step(r, c.ip, c.now).m[who];
            || (who in r.m && Exact(r.burst, r.rps, start, e, used + if Admits(r, c.ip, c.now) then 1 else 0))
            || (Admits(r, c.ip, c.now) && Exact(r.burst, r.rps, c.now, e, 1))
  {
    var t := Available(r, who, c.now);
    Charge(r, c, who, t);
    ExactAnew(r.burst, r.rps, c.now);
    if who in r.m {
      FoundOld(r, who, c.now);
      if t != r.burst as real {
        ExactGoesOn(r.burst, r.rps, start, r.m[who], used, c.now, t);
      }
    } else {
      FoundNew(r, who, c.now);
    }
  }

  lemma OthersStay(r: Limiter, c: Call, ip: string)
    requires Client(c.ip) != ip
    ensures ip in Step(r, c.ip, c.now).m <==> ip in r.m
    ensures ip in r.m ==> Step(r, c.ip, c.now).m[ip] == r.m[ip]
  {
  }

  /** Call `k` found client `ip`'s bucket full, and since then its tokens account for exactly its admissions. */
  ghost predicate FullAt(l: Limiter, calls: seq<Call>, k: nat, ip: string, e: Bucket) {
    k < |calls| && Exact(l.burst, l.rps, calls[k].now, e, AdmittedFrom(l, calls, k, ip))
  }

  ghost predicate SomeFull(l: Limiter, calls: seq<Call>, ip: string, e: Bucket) {
    exists k: nat :: FullAt(l, calls, k, ip, e)
  }

  lemma OneMoreCall(l: Limiter, calls: seq<Call>, c: Call, r: Limiter)
    requires r == Run(l, calls)
    ensures Run(l, calls + [c]) == Step(r, c.ip, c.now)
  {
    assert (calls + [c])[..|calls|] == calls;
  }

  lemma OneMoreAdmitted(l: Limiter, calls: seq<Call>, c: Call, k: nat, ip: string, r: Limiter)
    requires k <= |calls| && r == Run(l, calls)
    ensures AdmittedFrom(l, calls + [c], k, ip) ==
            AdmittedFrom(l, calls, k, ip) + if Client(c.ip) == ip && Admits(r, c.ip, c.now) then 1 else 0
  {
    assert (calls + [c])[..|calls|] == calls && (calls + [c])[..k] == calls[..k];
  }

  lemma NoneYet(l: Limiter, calls: seq<Call>, ip: string)
    ensures AdmittedFrom(l, calls, |calls|, ip) == 0
  {
    assert calls[..|calls|] == calls;
  }

  lemma FullOther(l: Limiter, calls: seq<Call>, c: Call, ip: string, r: Limiter, e: Bucket)
    requires r == Run(l, calls) && Client(c.ip) != ip && SomeFull(l, calls, ip, e)
    ensures SomeFull(l, calls + [c], ip, e)
  {
    var k: nat :| FullAt(l, calls, k, ip, e);
    OneMoreAdmitted(l, calls, c, k, ip, r);
    assert FullAt(l, calls + [c], k, ip, e);
  }

  lemma FullAnew(l: Limiter, calls: seq<Call>, c: Call, ip: string, r: Limiter, next: Bucket)
    requires r == Run(l, calls) && Client(c.ip) == ip && Admits(r, c.ip, c.now)
    requires Exact(l.burst, l.rps, c.now, next, 1)
    ensures SomeFull(l, calls + [c], ip, next)
  {
    OneMoreAdmitted(l, calls, c, |calls|, ip, r);
    NoneYet(l, calls, ip);
    assert FullAt(l, calls + [c], |calls|, ip, next);
  }

  lemma FullGoesOn(l: Limiter, calls: seq<Call>, c: Call, k: nat, ip: string, r: Limiter, next: Bucket)
    requires r == Run(l, calls) && Client(c.ip) == ip && k < |calls|
    requires Exact(l.burst, l.rps, calls[k].now, next,
                   AdmittedFrom(l, calls, k, ip) + if Admits(r, c.ip, c.now) then 1 else 0)
    ensures SomeFull(l, calls + [c], ip, next)
  {
    OneMoreAdmitted(l, calls, c, k, ip, r);
    assert FullAt(l, calls + [c], k, ip, next);
  }

  lemma FullOwn(l: Limiter, calls: seq<Call>, c: Call, ip: string, r: Limiter, next: Limiter)
    requires r == Run(l, calls) && next == Step(r, c.ip, c.now) && Follows(l, r, c.now)
    requires Client(c.ip) == ip && !FailsOpen(r, ip) && (ip in r.m ==> SomeFull(l, calls, ip, r.m[ip]))
    ensures ip in next.m && SomeFull(l, calls + [c], ip, next.m[ip])
  {
    if ip in r.m {
      var k: nat :| FullAt(l, calls, k, ip, r.m[ip]);
      var start, used := calls[k].now, AdmittedFrom(l, calls, k, ip);
      AccountGoesOn(r, c, ip, start, used);
      if Exact(l.burst, l.rps, start, next.m[ip], used + if Admits(r, c.ip, c.now) then 1 else 0) {
        FullGoesOn(l, calls, c, k, ip, r, next.m[ip]);
      } else {
        FullAnew(l, calls, c, ip, r, next.m[ip]);
      }
    } else {
      AccountGoesOn(r, c, ip, c.now, 0);
      FullAnew(l, calls, c, ip, r, next.m[ip]);
    }
  }

  lemma FullStep(l: Limiter, calls: seq<Call>, c: Call, ip: string, r: Limiter, next: Limiter)
    requires r == Run(l, calls) && next == Step(r, c.ip, c.now) && Follows(l, r, c.now) && ip in next.m
    requires ip in r.m ==> SomeFull(l, calls, ip, r.m[ip])
    ensures SomeFull(l, calls + [c], ip, next.m[ip])
  {
    if Client(c.ip) == ip {
      FullOwn(l, calls, c, ip, r, next);
    } else {
      OthersStay(r, c, ip);
      FullOther(l, calls, c, ip, r, r.m[ip]);
    }
  }

  lemma {:induction false} AlwaysFull(l: Limiter, calls: seq<Call>, ip: string, r: Limiter)
    requires calls != [] && Monotone(calls) && Sound(l, calls[0].now) && ip !in l.m && r == Run(l, calls) && ip in r.m
    ensures SomeFull(l, calls, ip, r.m[ip])
  {
    var n := |calls| - 1;
    var head, c := calls[..n], calls[n];
    assert calls == head + [c];
    var before := Run(l, head);
    if n > 0 {
      TimesBetween(head);
      RunAccounted(l, head, ip, calls[0].now, c.now);
      if ip in before.m {
        AlwaysFull(l, head, ip, before);
      }
    }
    OneMoreCall(l, head, c, before);
    FullStep(l, head, c, ip, before, r);
  }

  /** Since call `k` the client has been admitted more than burst + rps * elapsed - 1 times. */
  predicate UsedUpSince(l: Limiter, calls: seq<Call>, k: nat, ip: string, now: int) {
    k < |calls| && calls[k].now <= now
    && AdmittedFrom(l, calls, k, ip) as real > Limit(l.burst, l.rps, calls[k].now, now) - 1.0
  }

  lemma UsedUp(burst: int, rps: real, start: int, e: Bucket, used: int, now: int)
    requires rps > 0.0 && e.last <= now && Exact(burst, rps, start, e, used)
    requires e.tokens + Seconds(e.last, now) * rps < 1.0
    ensures used as real > Limit(burst, rps, start, now) - 1.0
  {
    AllowanceIsLimit(burst, rps, start, now);
    AllowanceGrows(burst, rps, start, e.last, now);
  }

  lemma FoundUsedUp(r: Limiter, ip: string, now: int, start: int, used: int)
    requires Sound(r, now) && ip in r.m && Available(r, ip, now) < 1.0 && Exact(r.burst, r.rps, start, r.m[ip], used)
    ensures start <= now && used as real > Limit(r.burst, r.rps, start, now) - 1.0
  {
    FoundOld(r, ip, now);
    UsedUp(r.burst, r.rps, start, r.m[ip], used, now);
  }

  /** A refusal means that the allowance is used up, counted from some call that found the bucket full. */
  lemma {:induction false} RefusedOnlyAtLimit(l: Limiter, calls: seq<Call>, ip: string, now: int)
    requires calls != [] && Monotone(calls) && Sound(l, calls[0].now) && calls[|calls| - 1].now <= now
    requires Client(ip) !in l.m && !Admits(Run(l, calls), ip, now)
    ensures exists k: nat :: UsedUpSince(l, calls, k, Client(ip), now)
  {
    var r, who := Run(l, calls), Client(ip);
    TimesBetween(calls);
    RunAccounted(l, calls, who, calls[0].now, now);
    RefusedHasEntry(r, ip, now);
    AlwaysFull(l, calls, who, r);
    var k: nat :| FullAt(l, calls, k, who, r.m[who]);
    FoundUsedUp(r, who, now, calls[k].now, AdmittedFrom(l, calls, k, who));
    assert UsedUpSince(l, calls, k, who, now);
  }

  lemma RefusedHasEntry(r: Limiter, ip: string, now: int)
    requires Sound(r, now) && !Admits(r, ip, now)
    ensures Client(ip) in r.m && !FailsOpen(r, Client(ip)) && Available(r, Client(ip), now) < 1.0
  {
    if Client(ip) !in r.m {
      FoundNew(r, Client(ip), now);
    }
  }

  function Times(c: Call, k: nat): seq<Call> {
    seq(k, _ => c)
  }

  /** The table once a new client has asked `k` times at one instant. */
  function Drained(l: Limiter, c: Call, k: nat): Limiter {
    l.(m := l.m[Client(c.ip) := Bucket(if k <= l.burst then (l.burst - k) as real else 0.0, c.now)])
  }

  lemma DrainOne(l: Limiter, c: Call, k: nat)
    requires l.rps > 0.0 && l.burst >= 1 && k > 0
    ensures Step(Drained(l, c, k), c.ip, c.now) == Drained(l, c, k + 1)
    ensures Admits(Drained(l, c, k), c.ip, c.now) <==> k < l.burst
  {
    assert Seconds(c.now, c.now) * l.rps == 0.0;
  }

  /** A new client that asks at one instant is admitted exactly `burst` times. */
  lemma {:induction false} BurstAdmitted(l: Limiter, c: Call, k: nat)
    requires l.rps > 0.0 && l.burst >= 1 && Client(c.ip) !in l.m && |l.m| < l.maxIPs && k > 0
    ensures Admitted(l, Times(c, k), Client(c.ip)) == if k <= l.burst then k else l.burst
    ensures Run(l, Times(c, k)) == Drained(l, c, k)
  {
    var head := Times(c, k - 1);
    assert Times(c, k) == head + [c];
    OneMoreCall(l, head, c, Run(l, head));
    OneMoreAdmitted(l, head, c, 0, Client(c.ip), Run(l, head));
    if k == 1 {
      assert head == [];
      FoundNew(l, Client(c.ip), c.now);
    } else {
      BurstAdmitted(l, c, k - 1);
      DrainOne(l, c, k - 1);
    }
  }
}
