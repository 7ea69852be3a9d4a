/** Upstream health tracking (data/upstream_health.go). */
module Health {
  import opened Options
  import opened Text
  import opened Search
  import opened Upstreams

  datatype Entry = Entry(unhealthy: bool, failures: nat)

  type Table = map<string, Entry>

  function EntryOf(table: Table, key: string): Entry {
    if key in table then table[key] else Entry(false, 0)
  }

  /** A threshold that is not positive means 3. */
  function Effective(threshold: int): nat {
    if threshold <= 0 then 3 else threshold
  }

  function Recovered(table: Table, key: string): Table {
    if key == "" then table else table[key := Entry(false, 0)]
  }

  function Failed(table: Table, key: string, threshold: int): Table {
    if key == "" then table
    else
      var e := EntryOf(table, key);
      table[key := Entry(e.unhealthy || e.failures + 1 >= Effective(threshold), e.failures + 1)]
  }

  /** The failure that takes the server down. */
  predicate GoesDown(table: Table, key: string, threshold: int) {
    EntryOf(Failed(table, key, threshold), key).unhealthy && !EntryOf(table, key).unhealthy
  }

  function Healthy(table: Table): Endpoint -> bool {
    (e: Endpoint) => !EntryOf(table, e.HealthKey()).unhealthy
  }

  function Sub(eps: seq<Endpoint>, p: Endpoint -> bool): (out: seq<Endpoint>)
    ensures forall e :: e in out <==> e in eps && p(e)
    ensures |out| <= |eps|
  {
    if eps == [] then []
    else Sub(eps[..|eps| - 1], p) + if p(eps[|eps| - 1]) then [eps[|eps| - 1]] else []
  }

  /** The endpoints `p` accepts, in order, or all of them when it accepts none. */
  function Prefer(eps: seq<Endpoint>, p: Endpoint -> bool): seq<Endpoint> {
    if Sub(eps, p) == [] then eps else Sub(eps, p)
  }

  function Usable(eps: seq<Endpoint>, table: Table, enabled: bool): seq<Endpoint> {
    if enabled then Prefer(eps, Healthy(table)) else eps
  }

  class UpstreamHealthTracker {
    var table: Table

    constructor ()
      ensures table == map[]
    {
      table := map[];
    }

    method RecordForwardSuccess(key: string)
      modifies this
      ensures table == Recovered(old(table), key)
    {
      if key == "" {
        return;
      }
      table := table[key := Entry(false, 0)];
    }

    method ProbeFail(key: string, threshold: int) returns (nowUnhealthy: bool)
      modifies this
      ensures table == Failed(old(table), key, threshold)
      ensures nowUnhealthy == GoesDown(old(table), key, threshold)
    {
      if key == "" {
        return false;
      }
      var th := threshold;
      if th <= 0 {
        th := 3;
      }
      var e := if key in table then table[key] else Entry(false, 0);
      var was := e.unhealthy;
      e := e.(failures := e.failures + 1);
      if e.failures >= th {
        e := e.(unhealthy := true);
      }
      table := table[key := e];
      return e.unhealthy && !was;
    }

    /** Filter over the keys, and the selection of the endpoints whose key is kept. */
    method FilterHealthyUpstreamEndpoints(eps: seq<Endpoint>, enabled: bool) returns (out: seq<Endpoint>)
      ensures out == Usable(eps, table, enabled)
    {
      if !enabled || |eps| == 0 {
        return eps;
      }
      var keep: set<string> := {};
      for i := 0 to |eps|
        invariant forall k <- keep :: !EntryOf(table, k).unhealthy
        invariant forall j :: 0 <= j < i && Healthy(table)(eps[j]) ==> eps[j].HealthKey() in keep
      {
        var a := eps[i].HealthKey();
        if a !in table || !table[a].unhealthy {
          keep := keep + {a};
        }
      }
      out := [];
      for i := 0 to |eps|
        invariant out == Sub(eps[..i], Healthy(table))
      {
        assert eps[..i + 1][..i] == eps[..i];
        if eps[i].HealthKey() in keep {
          out := out + [eps[i]];
        }
      }
      assert eps[..|eps|] == eps;
      if |out| == 0 {
        return eps;
      }
    }
  }

  // ---- Runs of events with a fixed threshold ----

  datatype Event = Success(key: string) | Failure(key: string)

  function Run(table: Table, events: seq<Event>, threshold: int): Table {
    if events == [] then table
    else
      var t, e := Run(table, events[..|events| - 1], threshold), events[|events| - 1];
      match e
      case Success(k) => Recovered(t, k)
      case Failure(k) => Failed(t, k, threshold)
  }

  /** Failures of `key` since its last success. */
  function Streak(events: seq<Event>, key: string): nat {
    if events == [] then 0
    else
      var n, e := Streak(events[..|events| - 1], key), events[|events| - 1];
      if e == Success(key) then 0 else if e == Failure(key) then n + 1 else n
  }

  /** After any events a key is unhealthy exactly when its failures since its last success reach the threshold. */
  lemma {:induction false} UnhealthyIffStreak(events: seq<Event>, threshold: int, key: string)
    requires key != ""
    ensures EntryOf(Run(map[], events, threshold), key) ==
            Entry(Streak(events, key) >= Effective(threshold), Streak(events, key))
    ensures (key in Run(map[], events, threshold) && Run(map[], events, threshold)[key].unhealthy) <==>
            Streak(events, key) >= if threshold <= 0 then 3 else threshold
  {
    if events != [] {
      UnhealthyIffStreak(events[..|events| - 1], threshold, key);
    }
  }

  /** A blank key is never entered. */
  lemma {:induction false} BlankKeyIgnored(events: seq<Event>, threshold: int)
    ensures "" !in Run(map[], events, threshold)
  {
    if events != [] {
      BlankKeyIgnored(events[..|events| - 1], threshold);
    }
  }

  /** The transition is reported at exactly one failure of a streak: the one that reaches the threshold. */
  lemma ReportedOncePerStreak(events: seq<Event>, threshold: int, key: string)
    requires key != ""
    ensures GoesDown(Run(map[], events, threshold), key, threshold) <==>
            Streak(events + [Failure(key)], key) == if threshold <= 0 then 3 else threshold
  {
    UnhealthyIffStreak(events, threshold, key);
    assert (events + [Failure(key)])[..|events|] == events;
  }

  // ---- What the filter lets through ----

  /** The table has the endpoint's trimmed address marked as unhealthy. */
  predicate Down(table: Table, e: Endpoint) {
    TrimSpace(e.addr) in table && table[TrimSpace(e.addr)].unhealthy
  }

  function Up(table: Table): (Endpoint, Endpoint) -> bool {
    (e: Endpoint, x: Endpoint) => x == e && !Down(table, e)
  }

  function Out(table: Table): Endpoint -> bool {
    (e: Endpoint) => Down(table, e)
  }

  lemma SubGrows(eps: seq<Endpoint>, head: seq<Endpoint>, e: Endpoint, table: Table)
    requires eps == head + [e]
    ensures Sub(eps, Healthy(table)) ==
            if Down(table, e) then Sub(head, Healthy(table)) else Sub(head, Healthy(table)) + [e]
  {
    assert eps[..|eps| - 1] == head;
  }

  lemma {:induction false} SubInOrder(eps: seq<Endpoint>, table: Table) returns (from: seq<nat>)
    ensures Gathers(eps, Up(table), Out(table), Sub(eps, Healthy(table)), from)
  {
    if eps == [] {
      from := [];
    } else {
      var head, e := eps[..|eps| - 1], eps[|eps| - 1];
      var before := SubInOrder(head, table);
      assert eps == head + [e];
      SubGrows(eps, head, e, table);
      from := OneMoreEndpoint(eps, head, e, Sub(head, Healthy(table)), Sub(eps, Healthy(table)), before, table);
    }
  }

  lemma OneMoreEndpoint(eps: seq<Endpoint>, head: seq<Endpoint>, e: Endpoint, kept: seq<Endpoint>, kept': seq<Endpoint>,
                        before: seq<nat>, table: Table)
    returns (from: seq<nat>)
    requires eps == head + [e] && Gathers(head, Up(table), Out(table), kept, before)
    requires kept' == if Down(table, e) then kept else kept + [e]
    ensures Gathers(eps, Up(table), Out(table), kept', from)
  {
    if Down(table, e) {
      GathersSkip(head, Up(table), Out(table), kept, before, e);
      from := before;
    } else {
      GathersTake(head, Up(table), Out(table), kept, before, e, e);
      from := before + [|head|];
    }
  }

  predicate AllDown(eps: seq<Endpoint>, table: Table) {
    forall i :: 0 <= i < |eps| ==> Down(table, eps[i])
  }

  lemma NoneUp(eps: seq<Endpoint>, table: Table, kept: seq<Endpoint>, from: seq<nat>)
    requires Gathers(eps, Up(table), Out(table), kept, from)
    ensures kept == [] <==> AllDown(eps, table)
  {
    if kept != [] {
      assert Up(table)(eps[from[0]], kept[0]);
    } else {
      assert forall i :: 0 <= i < |eps| ==> Out(table)(eps[i]);
    }
  }

  /** With checks off, or with everything down, all endpoints pass; otherwise exactly those that are not down, in
      order. */
  lemma UsableMeaning(eps: seq<Endpoint>, table: Table, enabled: bool)
    ensures !enabled || AllDown(eps, table) ==> Usable(eps, table, enabled) == eps
    ensures enabled && !AllDown(eps, table) ==>
              exists from :: Gathers(eps, Up(table), Out(table), Usable(eps, table, enabled), from)
  {
    var from := SubInOrder(eps, table);
    NoneUp(eps, table, Sub(eps, Healthy(table)), from);
    if enabled && !AllDown(eps, table) {
      assert Usable(eps, table, enabled) == Sub(eps, Healthy(table));
      assert Gathers(eps, Up(table), Out(table), Usable(eps, table, enabled), from);
    }
  }

  // ---- Health filtering and the background set ----

  predicate Within(a: seq<Endpoint>, b: seq<Endpoint>) {
    forall e <- a :: e in b
  }

  predicate SomeOf(eps: seq<Endpoint>, p: Endpoint -> bool) {
    exists e <- eps :: p(e)
  }

  lemma PreferWithinIff(small: seq<Endpoint>, large: seq<Endpoint>, p: Endpoint -> bool)
    requires Within(small, large)
    ensures Within(Prefer(small, p), Prefer(large, p)) <==> small == [] || SomeOf(small, p) || !SomeOf(large, p)
  {
    var s, l := Sub(small, p), Sub(large, p);
    assert SomeOf(small, p) <==> s != [] by { assert s != [] ==> s[0] in s; }
    assert SomeOf(large, p) <==> l != [] by { assert l != [] ==> l[0] in l; }
    if s == [] && small != [] {
      assert small[0] in small && small[0] !in s;
    }
  }

  /** After health filtering, the background set stays within the foreground set exactly when it is empty, has a healthy
      endpoint, or the foreground has none: with every primary down, refresh keeps asking the primaries while the
      foreground has moved to a healthy fallback. */
  lemma FilteredContainmentIff(servers: seq<DNSServer>, q: string, f: FallbackSettings, table: Table)
    ensures var b, g := Background(servers, q, f), Foreground(servers, q, f);
            Within(Usable(b, table, true), Usable(g, table, true)) <==>
              b == [] || SomeOf(b, Healthy(table)) || !SomeOf(g, Healthy(table))
  {
    var b, g := Background(servers, q, f), Foreground(servers, q, f);
    assert Within(b, g) by { BackgroundWithinForeground(servers, q, f); }
    PreferWithinIff(b, g, Healthy(table));
  }

  /** One primary, down, and a healthy global fallback: the foreground asks the fallback, the refresh the primary. */
  lemma RefreshKeepsAskingPrimary(s: DNSServer, q: string, f: FallbackSettings, table: Table)
    requires s.active && s.whitelist == [] && ServerFallbackEndpoint(s) == None && Configured(f)
    requires ServerToEndpoint(s).HealthKey() != FallbackEndpoint(f).HealthKey()
    requires !Healthy(table)(ServerToEndpoint(s)) && Healthy(table)(FallbackEndpoint(f))
    ensures Usable(Background([s], q, f), table, true) == [ServerToEndpoint(s)]
    ensures Usable(Foreground([s], q, f), table, true) == [FallbackEndpoint(f)]
  {
    var p, g := ServerToEndpoint(s), FallbackEndpoint(f);
    OneServer(s, q, f);
    assert [p][..0] == [] && [p, g][..1] == [p];
    assert Sub([p], Healthy(table)) == [] && Sub([p, g], Healthy(table)) == [g];
  }
}
