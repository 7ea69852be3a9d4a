/** The decision loop of resolveFastPath (resolver/resolver.go:298-385): one local, one cache and n upstream results
    arrive in any order, and the loop must decide local > cache > first successful upstream. */
module Race {
  import opened Options
  import opened RRSetCodec

  const RCODE_SUCCESS := 0

  /** A reply from an upstream; `failed` covers errors and missing messages. */
  datatype Reply = Reply(endpoint: string, failed: bool, rcode: int, answer: seq<RR>)

  datatype Arrival = Local(rrs: seq<RR>) | CacheResult(hit: Option<RR>) | Upstream(reply: Reply)

  datatype Outcome = ByLocal(rrs: seq<RR>) | ByCache(rr: RR) | ByUpstream(reply: Reply) | NoAnswer | StillWaiting

  predicate Successful(a: Arrival) {
    a.Upstream? && !a.reply.failed && a.reply.rcode == RCODE_SUCCESS && a.reply.answer != []
  }

  // ---- What the results amount to, whatever the order ----

  datatype Summary = Summary(locals: nat, local: seq<RR>, caches: nat, hit: Option<RR>, ups: nat, first: Option<Reply>)

  const NOTHING := Summary(0, [], 0, None, 0, None)

  function Plus(s: Summary, a: Arrival): Summary {
    match a
    case Local(rrs) => s.(locals := s.locals + 1, local := if s.locals == 0 then rrs else s.local)
    case CacheResult(hit) => s.(caches := s.caches + 1, hit := if s.caches == 0 then hit else s.hit)
    case Upstream(r) => s.(ups := s.ups + 1, first := if s.first.None? && Successful(a) then Some(r) else s.first)
  }

  /** Counts, the local and cache results, and the first successful reply among the arrivals. */
  function Sum(arrivals: seq<Arrival>): Summary {
    if arrivals == [] then NOTHING
    else Plus(Sum(arrivals[..|arrivals| - 1]), arrivals[|arrivals| - 1])
  }

  /** The documented priority. */
  function Priority(s: Summary): Outcome {
    if s.local != [] then ByLocal(s.local)
    else if s.hit.Some? then ByCache(s.hit.value)
    else if s.first.Some? then ByUpstream(s.first.value)
    else NoAnswer
  }

  /** At most one result of each kind so far, and no more upstream results than were asked for. */
  predicate Possible(s: Summary, n: nat) {
    s.locals <= 1 && s.caches <= 1 && s.ups <= n
  }

  predicate Complete(s: Summary, n: nat) {
    s.locals == 1 && s.caches == 1 && s.ups == n
  }

  /** Enough has arrived to decide. */
  predicate Settled(s: Summary, n: nat) {
    s.local != [] || (s.locals >= 1 && s.caches >= 1 && (s.hit.Some? || s.first.Some? || s.ups == n))
  }

  // ---- The loop ----

  /** Runs the loop over the results in arrival order. An upstream whose result is dropped never arrives, so `arrivals`
      may hold fewer than n upstream results; the receive then waits for ever. */
  method Decide(arrivals: seq<Arrival>, n: nat) returns (o: Outcome, received: nat)
    requires |Locals(arrivals)| == 1 && |CacheResults(arrivals)| == 1 && |Upstreams(arrivals)| <= n
    ensures o == StillWaiting <==> Priority(Sum(arrivals)) == NoAnswer && Sum(arrivals).ups < n
    ensures o != StillWaiting ==> o == Priority(Sum(arrivals))
    ensures o.ByLocal? ==> o.rrs != [] && Local(o.rrs) in arrivals
    ensures o.ByCache? ==> CacheResult(Some(o.rr)) in arrivals && NoLocal(arrivals)
    ensures o.ByUpstream? ==> FirstAnswer(arrivals, o.reply) && NoLocal(arrivals) && NoHit(arrivals)
    ensures o == NoAnswer ==>
      NoLocal(arrivals) && NoHit(arrivals) && NoUpstream(arrivals) && |Upstreams(arrivals)| == n
    ensures o == StillWaiting ==>
      NoLocal(arrivals) && NoHit(arrivals) && NoUpstream(arrivals) && |Upstreams(arrivals)| < n
    ensures received <= |arrivals| <= n + 2
    ensures o != StillWaiting ==>
      received > 0 && Settled(Sum(arrivals[..received]), n) && !Settled(Sum(arrivals[..received - 1]), n)
  {
    SumCounts(arrivals);
    ghost var sums := Prefixes(arrivals, n);
    SumLength(arrivals);
    o, received := Collect(arrivals, n, sums);
    if o != StillWaiting {
      SettledDecides(arrivals, received, n);
    }
    SumMeaning(arrivals);
  }

  // ---- The outcome in terms of the arrivals alone ----

  /** The local records had no answer. */
  predicate NoLocal(arrivals: seq<Arrival>) {
    forall i :: 0 <= i < |arrivals| && arrivals[i].Local? ==> arrivals[i].rrs == []
  }

  /** The cache had none. */
  predicate NoHit(arrivals: seq<Arrival>) {
    forall i :: 0 <= i < |arrivals| && arrivals[i].CacheResult? ==> arrivals[i].hit == None
  }

  /** A reply that came without an error, with response code 0 and with at least one record. */
  predicate Answers(a: Arrival) {
    a.Upstream? && !a.reply.failed && a.reply.rcode == 0 && |a.reply.answer| > 0
  }

  predicate NoUpstream(arrivals: seq<Arrival>) {
    forall i :: 0 <= i < |arrivals| ==> !Answers(arrivals[i])
  }

  /** `r` is the first such reply. */
  predicate FirstAnswer(arrivals: seq<Arrival>, r: Reply) {
    exists i :: 0 <= i < |arrivals| && arrivals[i] == Upstream(r) && Answers(arrivals[i]) && NoUpstream(arrivals[..i])
  }

  /** The positions of the arrivals that `kind` accepts. */
  function Where(arrivals: seq<Arrival>, kind: Arrival -> bool): set<nat> {
    set i: nat | i < |arrivals| && kind(arrivals[i])
  }

  function Locals(arrivals: seq<Arrival>): set<nat> {
    Where(arrivals, (a: Arrival) => a.Local?)
  }

  function CacheResults(arrivals: seq<Arrival>): set<nat> {
    Where(arrivals, (a: Arrival) => a.CacheResult?)
  }

  function Upstreams(arrivals: seq<Arrival>): set<nat> {
    Where(arrivals, (a: Arrival) => a.Upstream?)
  }

  lemma WhereGrows(arrivals: seq<Arrival>, kind: Arrival -> bool)
    requires arrivals != []
    ensures var n := |arrivals| - 1;
            |Where(arrivals, kind)| == |Where(arrivals[..n], kind)| + if kind(arrivals[n]) then 1 else 0
  {
    var n := |arrivals| - 1;
    var before, after := Where(arrivals[..n], kind), Where(arrivals, kind);
    assert after == if kind(arrivals[n]) then before + {n} else before;
  }

  /** The summary counts the arrivals of each kind. */
  lemma {:induction false} SumCounts(arrivals: seq<Arrival>)
    ensures Sum(arrivals).locals == |Locals(arrivals)| && Sum(arrivals).caches == |CacheResults(arrivals)|
    ensures Sum(arrivals).ups == |Upstreams(arrivals)|
  {
    if arrivals != [] {
      SumCounts(arrivals[..|arrivals| - 1]);
      WhereGrows(arrivals, (a: Arrival) => a.Local?);
      WhereGrows(arrivals, (a: Arrival) => a.CacheResult?);
      WhereGrows(arrivals, (a: Arrival) => a.Upstream?);
    }
  }

  /** What the summary keeps of one local result, one cache result and any upstream results. */
  lemma {:induction false} SumMeaning(arrivals: seq<Arrival>)
    ensures Sum(arrivals).locals == 1 ==>
              Local(Sum(arrivals).local) in arrivals && (Sum(arrivals).local == [] ==> NoLocal(arrivals))
    ensures Sum(arrivals).caches == 1 ==>
              CacheResult(Sum(arrivals).hit) in arrivals && (Sum(arrivals).hit == None ==> NoHit(arrivals))
    ensures match Sum(arrivals).first case None => NoUpstream(arrivals) case Some(r) => FirstAnswer(arrivals, r)
  {
    SumWitness(arrivals);
    FirstMeaning(arrivals);
    forall a | a in arrivals ensures a.Local? && Sum(arrivals).locals == 1 ==> a.rrs == Sum(arrivals).local {
      SumMembers(arrivals, a);
    }
    forall a | a in arrivals ensures a.CacheResult? && Sum(arrivals).caches == 1 ==> a.hit == Sum(arrivals).hit {
      SumMembers(arrivals, a);
    }
    assert forall i :: 0 <= i < |arrivals| ==> arrivals[i] in arrivals;
  }

  lemma {:induction false} FirstMeaning(arrivals: seq<Arrival>)
    ensures match Sum(arrivals).first case None => NoUpstream(arrivals) case Some(r) => FirstAnswer(arrivals, r)
  {
    if arrivals != [] {
      var n := |arrivals| - 1;
      var head := arrivals[..n];
      FirstMeaning(head);
      match Sum(head).first
      case Some(r) =>
        var i :| 0 <= i < |head| && head[i] == Upstream(r) && Answers(head[i]) && NoUpstream(head[..i]);
        assert arrivals[i] == head[i] && arrivals[..i] == head[..i];
      case None =>
        assert forall i :: 0 <= i < n ==> arrivals[i] == head[i];
        if Successful(arrivals[n]) {
          assert Answers(arrivals[n]) && NoUpstream(arrivals[..n]);
        }
    }
  }

  /** For instance: nothing local, nothing cached, and the only upstream's result dropped. */
  lemma DroppedResultWaits()
    ensures var arrivals, n := [Local([]), CacheResult(None)], 1;
            && Sum(arrivals).locals == 1 && Sum(arrivals).caches == 1 && Sum(arrivals).ups < n
            && Priority(Sum(arrivals)) == NoAnswer
  {
    SumOne([], Local([]));
    SumOne([] + [Local([])], CacheResult(None));
    assert [Local([]), CacheResult(None)] == [] + [Local([])] + [CacheResult(None)];
  }

  /** `sums` lists what each prefix of the arrivals amounts to. */
  ghost predicate Running(sums: seq<Summary>, arrivals: seq<Arrival>, n: nat) {
    && |sums| == |arrivals| + 1 && sums[0] == NOTHING
    && (forall k :: 0 <= k < |arrivals| ==> sums[k + 1] == Plus(sums[k], arrivals[k]))
    && (forall k :: 0 <= k < |sums| ==> Possible(sums[k], n))
  }

  /** The loop itself: it stops at the first settled prefix, with that prefix's priority. */
  method Collect(arrivals: seq<Arrival>, n: nat, ghost sums: seq<Summary>) returns (o: Outcome, received: nat)
    requires Running(sums, arrivals, n) && |arrivals| <= n + 2
    ensures received <= |arrivals|
    ensures o == StillWaiting ==> received == |arrivals| && !Settled(sums[received], n)
    ensures o != StillWaiting ==> received > 0 && Settled(sums[received], n) && !Settled(sums[received - 1], n)
    ensures o != StillWaiting ==> o == Priority(sums[received])
  {
    var localDone, cacheDone := false, false;
    var cacheHit: Option<RR> := None;
    var firstUp: Option<Reply> := None;
    var upstreamSeen := 0;
    o, received := StillWaiting, 0;
    while received < 2 + n
      invariant received <= |arrivals| && o == StillWaiting && !Settled(sums[received], n)
      invariant var s := sums[received];
                && s.locals + s.caches + s.ups == received && (s.caches == 0 ==> s.hit == None)
                && localDone == (s.locals == 1) && cacheDone == (s.caches == 1)
                && cacheHit == s.hit && firstUp == s.first && upstreamSeen == s.ups
    {
      if received == |arrivals| {
        return;
      }
      var pr := arrivals[received];
      received := received + 1;
      match pr {
        case Local(rrs) =>
          localDone := true;
          if |rrs| > 0 {
            return ByLocal(rrs), received;
          }
        case CacheResult(hit) =>
          cacheDone := true;
          if hit.Some? {
            cacheHit := hit;
          }
        case Upstream(r) =>
          upstreamSeen := upstreamSeen + 1;
          if Successful(pr) {
            if firstUp == None {
              firstUp := Some(r);
            }
          }
      }
      if localDone && cacheDone && cacheHit != None {
        return ByCache(cacheHit.value), received;
      }
      if localDone && cacheDone && cacheHit == None && firstUp != None {
        return ByUpstream(firstUp.value), received;
      }
      if localDone && cacheDone && cacheHit == None && upstreamSeen == n && firstUp == None {
        return NoAnswer, received;
      }
    }
    // The loop never runs out of receives without deciding.
    assert false;
  }

  lemma {:induction false} Prefixes(arrivals: seq<Arrival>, n: nat) returns (sums: seq<Summary>)
    requires Possible(Sum(arrivals), n)
    ensures Running(sums, arrivals, n)
    ensures forall k :: 0 <= k <= |arrivals| ==> sums[k] == Sum(arrivals[..k])
  {
    sums := seq(|arrivals| + 1, k requires 0 <= k <= |arrivals| => Sum(arrivals[..k]));
    forall k | 0 <= k < |arrivals| ensures sums[k + 1] == Plus(sums[k], arrivals[k]) {
      assert arrivals[..k + 1][..k] == arrivals[..k];
    }
    forall k | 0 <= k < |sums| ensures Possible(sums[k], n) {
      PrefixSum(arrivals, k);
    }
  }

  /** What is settled stays as it is, whatever arrives later. */
  lemma SettledDecides(arrivals: seq<Arrival>, k: nat, n: nat)
    requires k <= |arrivals| && Possible(Sum(arrivals), n) && Settled(Sum(arrivals[..k]), n)
    ensures Priority(Sum(arrivals)) == Priority(Sum(arrivals[..k]))
    ensures Priority(Sum(arrivals)) == NoAnswer ==> Sum(arrivals).ups == n
  {
    PrefixSum(arrivals, k);
    SumLength(arrivals);
    SumLength(arrivals[..k]);
    if k == |arrivals| {
      assert arrivals[..k] == arrivals;
    }
  }

  /** So the loop stops at the first settled prefix. */
  lemma SettledStays(arrivals: seq<Arrival>, k: nat, n: nat)
    requires k <= |arrivals| && Sum(arrivals).ups <= n && Settled(Sum(arrivals[..k]), n)
    ensures Settled(Sum(arrivals), n)
  {
    PrefixSum(arrivals, k);
  }

  // ---- Prefixes ----

  lemma {:induction false} SumLength(arrivals: seq<Arrival>)
    ensures Sum(arrivals).locals + Sum(arrivals).caches + Sum(arrivals).ups == |arrivals|
    ensures Sum(arrivals).locals == 0 ==> Sum(arrivals).local == []
    ensures Sum(arrivals).caches == 0 ==> Sum(arrivals).hit == None
  {
    if arrivals != [] {
      SumLength(arrivals[..|arrivals| - 1]);
    }
  }

  /** More arrivals only add: counts grow, and a first result, once there, stays. */
  predicate Grows(s: Summary, t: Summary) {
    && s.locals <= t.locals && s.caches <= t.caches && s.ups <= t.ups
    && (s.locals > 0 ==> t.local == s.local)
    && (s.caches > 0 ==> t.hit == s.hit)
    && (s.first.Some? ==> t.first == s.first)
  }

  lemma {:induction false} PrefixSum(arrivals: seq<Arrival>, k: nat)
    requires k <= |arrivals|
    ensures Grows(Sum(arrivals[..k]), Sum(arrivals))
    ensures Sum(arrivals[..k]).locals == 0 ==> Sum(arrivals[..k]).local == []
    ensures Sum(arrivals[..k]).caches == 0 ==> Sum(arrivals[..k]).hit == None
  {
    SumLength(arrivals[..k]);
    if k == |arrivals| {
      assert arrivals[..k] == arrivals;
    } else {
      PrefixSum(arrivals[..|arrivals| - 1], k);
      assert arrivals[..|arrivals| - 1][..k] == arrivals[..k];
    }
  }

  // ---- The loop waits for nothing it does not need ----

  /** `more` completes the results of `sofar`. */
  ghost predicate Completes(sofar: seq<Arrival>, more: seq<Arrival>, n: nat) {
    Complete(Sum(sofar + more), n)
  }

  function Failures(count: nat): seq<Arrival> {
    seq(count, _ => Upstream(Reply("", true, 0, [])))
  }

  lemma {:induction false} SumFailures(sofar: seq<Arrival>, count: nat)
    ensures Sum(sofar + Failures(count)) == Sum(sofar).(ups := Sum(sofar).ups + count)
  {
    if count == 0 {
      assert sofar + Failures(0) == sofar;
    } else {
      var before := sofar + Failures(count - 1);
      SumFailures(sofar, count - 1);
      SumOne(before, Failures(count)[count - 1]);
      assert sofar + Failures(count) == before + [Failures(count)[count - 1]];
    }
  }

  lemma SumOne(sofar: seq<Arrival>, a: Arrival)
    ensures Sum(sofar + [a]) == Plus(Sum(sofar), a)
  {
    assert (sofar + [a])[..|sofar|] == sofar;
  }

  /** Completes `sofar` after `a` with a miss and failures for whatever else is missing. */
  lemma CompleteWith(sofar: seq<Arrival>, a: Arrival, n: nat) returns (more: seq<Arrival>)
    requires Possible(Sum(sofar + [a]), n) && Sum(sofar + [a]).locals == 1
    ensures Completes(sofar, more, n)
    ensures var s, t := Sum(sofar + [a]), Sum(sofar + more);
            t.local == s.local && (s.caches == 1 ==> t.hit == s.hit) && t.first == s.first
  {
    var s := Sum(sofar + [a]);
    var mid := if s.caches == 0 then [a, CacheResult(None)] else [a];
    SumOne(sofar + [a], CacheResult(None));
    assert sofar + [a] + [CacheResult(None)] == sofar + [a, CacheResult(None)];
    SumFailures(sofar + mid, n - s.ups);
    more := mid + Failures(n - s.ups);
    assert sofar + mid + Failures(n - s.ups) == sofar + more;
  }

  /** The first two different continuations of an unsettled prefix. */
  lemma TwoFutures(sofar: seq<Arrival>, n: nat) returns (x: seq<Arrival>, y: seq<Arrival>)
    requires Possible(Sum(sofar), n) && !Settled(Sum(sofar), n)
    ensures Completes(sofar, x, n) && Completes(sofar, y, n)
    ensures Priority(Sum(sofar + x)) != Priority(Sum(sofar + y))
  {
    var s := Sum(sofar);
    var p, q := RR("p", "A", 1, ""), RR("q", "A", 1, "");
    SumLength(sofar);
    if s.locals == 0 {
      SumOne(sofar, Local([p]));
      SumOne(sofar, Local([q]));
      x := CompleteWith(sofar, Local([p]), n);
      y := CompleteWith(sofar, Local([q]), n);
    } else if s.caches == 0 {
      SumOne(sofar, CacheResult(Some(p)));
      SumOne(sofar, CacheResult(Some(q)));
      x := CompleteWith(sofar, CacheResult(Some(p)), n);
      y := CompleteWith(sofar, CacheResult(Some(q)), n);
    } else {
      var good, bad := Upstream(Reply("u", false, RCODE_SUCCESS, [p])), Upstream(Reply("u", true, 0, []));
      SumOne(sofar, good);
      SumOne(sofar, bad);
      x := CompleteWith(sofar, good, n);
      y := CompleteWith(sofar, bad, n);
    }
  }

  /** A prefix is settled exactly when every way of completing it leads to the same outcome: the loop, which stops
      at the first settled prefix, decides as early as any correct loop could. */
  lemma SettledIff(sofar: seq<Arrival>, n: nat)
    requires Possible(Sum(sofar), n)
    ensures Settled(Sum(sofar), n) <==>
            forall x, y :: Completes(sofar, x, n) && Completes(sofar, y, n) ==>
              Priority(Sum(sofar + x)) == Priority(Sum(sofar + y))
  {
    if Settled(Sum(sofar), n) {
      forall x | Completes(sofar, x, n) ensures Priority(Sum(sofar + x)) == Priority(Sum(sofar)) {
        assert (sofar + x)[..|sofar|] == sofar;
        SettledDecides(sofar + x, |sofar|, n);
      }
    } else {
      var x, y := TwoFutures(sofar, n);
    }
  }

  // ---- Arrival order ----

  lemma {:induction false} SumMembers(arrivals: seq<Arrival>, a: Arrival)
    requires a in arrivals
    ensures a.Local? && Sum(arrivals).locals == 1 ==> Sum(arrivals).local == a.rrs
    ensures a.CacheResult? && Sum(arrivals).caches == 1 ==> Sum(arrivals).hit == a.hit
    ensures Successful(a) ==> Sum(arrivals).first.Some?
    ensures a.Local? ==> Sum(arrivals).locals >= 1
    ensures a.CacheResult? ==> Sum(arrivals).caches >= 1
  {
    var n := |arrivals| - 1;
    if a in arrivals[..n] {
      SumMembers(arrivals[..n], a);
    }
  }

  lemma {:induction false} SumWitness(arrivals: seq<Arrival>)
    ensures Sum(arrivals).locals >= 1 ==> Local(Sum(arrivals).local) in arrivals
    ensures Sum(arrivals).caches >= 1 ==> CacheResult(Sum(arrivals).hit) in arrivals
    ensures Sum(arrivals).first.Some? ==>
            Upstream(Sum(arrivals).first.value) in arrivals && Successful(Upstream(Sum(arrivals).first.value))
  {
    if arrivals != [] {
      var n := |arrivals| - 1;
      SumWitness(arrivals[..n]);
      assert forall a :: a in arrivals[..n] ==> a in arrivals;
    }
  }

  /** Reordering the results can only change which successful upstream is used, and only when neither the local
      records nor the cache had an answer. */
  lemma OrderOnlyPicksUpstream(a: seq<Arrival>, b: seq<Arrival>, n: nat)
    requires Complete(Sum(a), n) && Complete(Sum(b), n) && forall x :: x in a <==> x in b
    ensures var p, q := Priority(Sum(a)), Priority(Sum(b));
            p == q || (p.ByUpstream? && q.ByUpstream? && Upstream(p.reply) in b && Upstream(q.reply) in a)
  {
    SumWitness(a);
    SumWitness(b);
    SumMembers(b, Local(Sum(a).local));
    SumMembers(b, CacheResult(Sum(a).hit));
    if Sum(a).first.Some? { SumMembers(b, Upstream(Sum(a).first.value)); }
    if Sum(b).first.Some? { SumMembers(a, Upstream(Sum(b).first.value)); }
  }
}
