/** What upstream selection means, said of the rows' fields alone (dnsservers/endpoint.go,
    dnsservers/dnsservers.go:78-149, resolver/resolver.go:222-252 and 578-588). */
module Selection {
  import opened Options
  import opened Text
  import opened Search
  import opened Upstreams

  // ---- Which address a row stands for ----

  /** The transport is `name`, but for case and surrounding space. */
  predicate Spelt(transport: string, name: string) {
    SameText(TrimSpace(transport), name)
  }

  /** The address of that host and port; a host with a colon in it is put in brackets. */
  predicate IsAddress(addr: string, host: string, port: string) {
    addr == (if ':' in host then "[" + host + "]" else host) + ":" + port
  }

  /** The name of the transport actually used: a blank or unknown one counts as udp. */
  predicate Uses(transport: string, name: string) {
    && (name == "udp" || name == "tcp" || name == "dot" || name == "doh")
    && (name == "tcp" <==> Spelt(transport, "tcp"))
    && (name == "dot" <==> Spelt(transport, "dot"))
    && (name == "doh" <==> Spelt(transport, "doh"))
  }

  /** A doh row stands for its URL, or its address if the URL is blank. Any other row stands for its host and its
      port, where a blank port means 853 for dot and 53 otherwise. */
  predicate StandsFor(transport: string, address: string, port: string, url: string, e: Endpoint) {
    && Uses(transport, e.transport)
    && if e.transport == "doh" then e.addr == (if TrimSpace(url) != "" then TrimSpace(url) else TrimSpace(address))
       else if TrimSpace(port) != "" then IsAddress(e.addr, TrimSpace(address), TrimSpace(port))
       else IsAddress(e.addr, TrimSpace(address), if e.transport == "dot" then "853" else "53")
  }

  lemma SpeltIff(t: string, name: string)
    requires Lower(name) == name
    ensures Lower(TrimSpace(t)) == name <==> Spelt(t, name)
  {
    LowerIff(TrimSpace(t), name);
  }

  lemma TransportNames()
    ensures Lower("udp") == "udp" && Lower("tcp") == "tcp" && Lower("dot") == "dot" && Lower("doh") == "doh"
  {
  }

  lemma MadeStandsFor(transport: string, address: string, port: string, url: string)
    ensures StandsFor(transport, address, port, url,
                      MakeEndpoint(Default(Lower(TrimSpace(transport)), "udp"), TrimSpace(address), TrimSpace(port),
                                   TrimSpace(url)))
  {
    TransportNames();
    SpeltIff(transport, "tcp");
    SpeltIff(transport, "dot");
    SpeltIff(transport, "doh");
  }

  lemma RowStandsFor(s: DNSServer)
    ensures StandsFor(s.transport, s.address, s.port, s.dohURL, ServerToEndpoint(s))
  {
    MadeStandsFor(s.transport, s.address, s.port, s.dohURL);
  }

  lemma LowerBlank(t: string)
    ensures Lower(t) == "" <==> t == ""
  {
  }

  /** A row's own fallback is there exactly if it has a fallback address or URL. It uses the row's transport if none is
      given for it, and port 53 if none is given. */
  predicate IsRowFallback(s: DNSServer, fb: Option<Endpoint>) {
    && (fb == None <==> TrimSpace(s.fallbackAddress) == "" && TrimSpace(s.fallbackDoHURL) == "")
    && (fb.Some? ==> StandsFor(if TrimSpace(s.fallbackTransport) != "" then s.fallbackTransport else s.transport,
                               s.fallbackAddress, if TrimSpace(s.fallbackPort) != "" then s.fallbackPort else "53",
                               s.fallbackDoHURL, fb.value))
  }

  lemma RowFallbackStandsFor(s: DNSServer)
    ensures IsRowFallback(s, ServerFallbackEndpoint(s))
  {
    var t := if TrimSpace(s.fallbackTransport) != "" then s.fallbackTransport else s.transport;
    var port := if TrimSpace(s.fallbackPort) != "" then s.fallbackPort else "53";
    LowerBlank(TrimSpace(s.fallbackTransport));
    TrimSpaceFixed("53");
    MadeStandsFor(t, s.fallbackAddress, port, s.fallbackDoHURL);
  }

  /** The global fallback is reached by its own transport, except that doh counts as udp; port 53 means 853 for dot. */
  predicate IsGlobalFallback(f: FallbackSettings, e: Endpoint) {
    && (e.transport == "udp" || e.transport == "tcp" || e.transport == "dot")
    && (e.transport == "tcp" <==> Spelt(f.transport, "tcp")) && (e.transport == "dot" <==> Spelt(f.transport, "dot"))
    && IsAddress(e.addr, TrimSpace(f.ip),
                 if e.transport == "dot" && (TrimSpace(f.port) == "" || TrimSpace(f.port) == "53") then "853"
                 else if TrimSpace(f.port) == "" then "53" else TrimSpace(f.port))
  }

  lemma GlobalStandsFor(f: FallbackSettings)
    ensures IsGlobalFallback(f, FallbackEndpoint(f))
  {
    TransportNames();
    SpeltIff(f.transport, "tcp");
    SpeltIff(f.transport, "dot");
  }

  /** Rows with one address and different ports are different endpoints. */
  lemma PortsTellApart(a: DNSServer, b: DNSServer)
    requires !Spelt(a.transport, "doh") && !Spelt(b.transport, "doh") && TrimSpace(a.address) == TrimSpace(b.address)
    requires TrimSpace(a.port) != "" && TrimSpace(b.port) != "" && TrimSpace(a.port) != TrimSpace(b.port)
    ensures ServerToEndpoint(a).addr != ServerToEndpoint(b).addr
  {
    RowStandsFor(a);
    RowStandsFor(b);
    var host := TrimSpace(a.address);
    var h := (if ':' in host then "[" + host + "]" else host) + ":";
    assert (h + TrimSpace(a.port))[|h|..] == TrimSpace(a.port) && (h + TrimSpace(b.port))[|h|..] == TrimSpace(b.port);
  }

  // ---- Which names a row's whitelist covers ----

  function Bare(name: string): string {
    TrimDots(TrimSpace(name))
  }

  /** But for case, space around and dots behind, the name is the entry or ends in a dot and the entry. */
  predicate Covers(entry: string, name: string) {
    var e, q := Bare(entry), Bare(name);
    && e != "" && |e| <= |q| && SameText(q[|q| - |e|..], e)
    && (|e| < |q| ==> q[|q| - |e| - 1] == '.')
  }

  predicate Whitelisted(s: DNSServer, name: string) {
    exists i :: 0 <= i < |s.whitelist| && Covers(s.whitelist[i], name)
  }

  lemma {:induction false} LowerTrimDots(s: string)
    ensures TrimDots(Lower(s)) == Lower(TrimDots(s))
  {
    if s != "" {
      var n := |s| - 1;
      assert Lower(s)[..n] == Lower(s[..n]) && (Lower(s)[n] == '.' <==> s[n] == '.');
      LowerTrimDots(s[..n]);
    }
  }

  lemma DottedSuffix(s: string, t: string)
    ensures HasSuffix(s, "." + t) <==> |t| < |s| && s[|s| - |t| - 1] == '.' && s[|s| - |t|..] == t
  {
    if |t| < |s| {
      var c := |s| - |t| - 1;
      assert s[c..] == [s[c]] + s[c + 1..];
      assert ("." + t)[0] == '.' && ("." + t)[1..] == t && ([s[c]] + s[c + 1..])[1..] == s[c + 1..];
    }
  }

  lemma LowerTail(q: string, k: nat)
    requires k <= |q|
    ensures Lower(q)[k..] == Lower(q[k..]) && (k > 0 ==> (Lower(q)[k - 1] == '.' <==> q[k - 1] == '.'))
  {
  }

  lemma CoversIff(entry: string, name: string)
    ensures CoversName(EntryKey(entry), QueryKey(name)) <==> Covers(entry, name)
  {
    LowerTrimDots(TrimSpace(entry));
    FoldedCovers(Bare(entry), Bare(name));
  }

  lemma FoldedCovers(e: string, q: string)
    ensures CoversName(Lower(e), Lower(q)) <==>
            e != "" && |e| <= |q| && SameText(q[|q| - |e|..], e) && (|e| < |q| ==> q[|q| - |e| - 1] == '.')
  {
    DottedSuffix(Lower(q), Lower(e));
    if |e| <= |q| {
      LowerTail(q, |q| - |e|);
      LowerIff(q[|q| - |e|..], e);
      if |e| == |q| {
        assert q[0..] == q;
      }
    }
  }

  lemma MatchesIff(s: DNSServer, name: string)
    ensures Matches(s, name) <==> Whitelisted(s, name)
  {
    forall e | e in s.whitelist ensures CoversName(EntryKey(e), QueryKey(name)) <==> Covers(e, name) {
      CoversIff(e, name);
    }
    if Whitelisted(s, name) {
      var i :| 0 <= i < |s.whitelist| && Covers(s.whitelist[i], name);
      assert s.whitelist[i] in s.whitelist;
    }
  }

  // ---- Which rows are asked ----

  predicate Claimed(servers: seq<DNSServer>, name: string) {
    exists i :: 0 <= i < |servers| && Whitelisted(servers[i], name)
  }

  /** If any row's whitelist covers the name, the active rows that cover it; otherwise the active rows without one. */
  function Chosen(servers: seq<DNSServer>, name: string): DNSServer -> bool {
    var claimed := Claimed(servers, name);
    (s: DNSServer) => s.active && if claimed then Whitelisted(s, name) else s.whitelist == []
  }

  function Gives(p: DNSServer -> bool): (DNSServer, Endpoint) -> bool {
    (s: DNSServer, e: Endpoint) => p(s) && StandsFor(s.transport, s.address, s.port, s.dohURL, e)
  }

  function Not(p: DNSServer -> bool): DNSServer -> bool {
    (s: DNSServer) => !p(s)
  }

  lemma {:induction false} EndpointsInOrder(servers: seq<DNSServer>, p: DNSServer -> bool, chosen: DNSServer -> bool)
    returns (from: seq<nat>)
    requires forall s <- servers :: p(s) == chosen(s)
    ensures Gathers(servers, Gives(chosen), Not(chosen), EndpointsOf(servers, p), from)
  {
    from := [];
    if servers != [] {
      var head, s := servers[..|servers| - 1], servers[|servers| - 1];
      from := EndpointsInOrder(head, p, chosen);
      assert servers == head + [s] && s in servers;
      from := OneMoreRow(servers, head, s, EndpointsOf(head, p), EndpointsOf(servers, p), from, chosen);
    }
  }

  lemma OneMoreRow(rows: seq<DNSServer>, head: seq<DNSServer>, s: DNSServer, eps: seq<Endpoint>, eps': seq<Endpoint>,
                   before: seq<nat>, chosen: DNSServer -> bool)
    returns (from: seq<nat>)
    requires rows == head + [s] && Gathers(head, Gives(chosen), Not(chosen), eps, before)
    requires eps' == if chosen(s) then eps + [ServerToEndpoint(s)] else eps
    ensures Gathers(rows, Gives(chosen), Not(chosen), eps', from)
  {
    RowStandsFor(s);
    if chosen(s) {
      GathersTake(head, Gives(chosen), Not(chosen), eps, before, s, ServerToEndpoint(s));
      from := before + [|head|];
    } else {
      GathersSkip(head, Gives(chosen), Not(chosen), eps, before, s);
      from := before;
    }
  }

  /** The primaries are the addresses of the chosen rows, in the order of the rows. */
  lemma PrimariesInOrder(servers: seq<DNSServer>, name: string) returns (from: seq<nat>)
    ensures Gathers(servers, Gives(Chosen(servers, name)), Not(Chosen(servers, name)), Primaries(servers, name), from)
  {
    forall s ensures Matches(s, name) <==> Whitelisted(s, name) {
      MatchesIff(s, name);
    }
    MatchingActive(servers, name);
    var claimed := Claimed(servers, name);
    assert claimed <==> exists s <- servers :: Matches(s, name) by {
      assert forall i :: 0 <= i < |servers| ==> servers[i] in servers;
    }
    if claimed {
      from := EndpointsInOrder(servers, ActiveMatching(name), Chosen(servers, name));
    } else {
      from := EndpointsInOrder(servers, ActiveGlobal, Chosen(servers, name));
    }
  }

  // ---- Which fallbacks join them ----

  /** Some primary has the same address, and the same transport but for case and space. */
  predicate Shares(e: Endpoint, primaries: seq<Endpoint>) {
    exists i :: 0 <= i < |primaries| && primaries[i].addr == e.addr
                && Spelt(primaries[i].transport, TrimSpace(e.transport))
  }

  predicate KeyAmong(eps: seq<Endpoint>, key: string) {
    exists i :: 0 <= i < |eps| && TrimSpace(eps[i].addr) == key
  }

  lemma SharesIff(e: Endpoint, primaries: seq<Endpoint>)
    ensures InPrimaries(e, primaries) <==> Shares(e, primaries)
  {
    forall p | p in primaries
      ensures SameEndpoint(p, e) <==> p.addr == e.addr && Spelt(p.transport, TrimSpace(e.transport))
    {
      LowerIff(TrimSpace(p.transport), TrimSpace(e.transport));
    }
    assert forall i :: 0 <= i < |primaries| ==> primaries[i] in primaries;
  }

  lemma KeyAmongIff(eps: seq<Endpoint>, key: string)
    ensures HasKey(eps, key) <==> KeyAmong(eps, key)
  {
    assert forall i :: 0 <= i < |eps| ==> eps[i] in eps;
  }

  /** Offer `i` is of a row that shares a primary's endpoint, and has that key. */
  predicate Offered(primaries: seq<Endpoint>, offers: seq<Offer>, i: nat, key: string) {
    && i < |offers| && Shares(offers[i].own, primaries)
    && offers[i].fallback.Some? && TrimSpace(offers[i].fallback.value.addr) == key
  }

  /** Offer `i` is the first for its key, and no primary has the key. */
  ghost predicate Joins(primaries: seq<Endpoint>, offers: seq<Offer>, i: nat) {
    exists key :: Offered(primaries, offers, i, key) && !KeyAmong(primaries, key)
      && forall j: nat :: j < i ==> !Offered(primaries, offers, j, key)
  }

  ghost function JoinsIn(primaries: seq<Endpoint>, offers: seq<Offer>): nat -> bool {
    (i: nat) => Joins(primaries, offers, i)
  }

  function FallbackIn(offers: seq<Offer>): (nat, Endpoint) -> bool {
    (i: nat, e: Endpoint) => i < |offers| && offers[i].fallback == Some(e)
  }

  /** What follows the primaries: the fallbacks of exactly the joining offers, in the order of the rows. */
  ghost predicate FollowedBy(primaries: seq<Endpoint>, offers: seq<Offer>, out: seq<Endpoint>, from: seq<nat>) {
    && primaries <= out
    && Picks(|offers|, JoinsIn(primaries, offers), FallbackIn(offers), out[|primaries|..], from)
  }

  lemma JoinsPrefix(primaries: seq<Endpoint>, offers: seq<Offer>, o: Offer, i: nat)
    requires i < |offers|
    ensures Joins(primaries, offers + [o], i) <==> Joins(primaries, offers, i)
  {
    assert forall j: nat, key :: j <= i ==>
             (Offered(primaries, offers + [o], j, key) <==> Offered(primaries, offers, j, key));
  }

  lemma JoinsLast(primaries: seq<Endpoint>, offers: seq<Offer>, o: Offer)
    ensures Joins(primaries, offers + [o], |offers|) <==>
            && InPrimaries(o.own, primaries) && o.fallback.Some?
            && !HasKey(WithFallbacks(primaries, offers), o.fallback.value.HealthKey())
  {
    SharesIff(o.own, primaries);
    if o.fallback.Some? {
      var key := TrimSpace(o.fallback.value.addr);
      SharersAreKept(primaries, offers, key);
      KeyAmongIff(primaries, key);
      forall j: nat | j < |offers|
        ensures Offered(primaries, offers + [o], j, key) <==>
                && InPrimaries(offers[j].own, primaries) && offers[j].fallback.Some?
                && offers[j].fallback.value.HealthKey() == key
      {
        SharesIff(offers[j].own, primaries);
      }
      assert forall j :: 0 <= j < |offers| ==> offers[j] in offers;
    }
  }

  lemma {:induction false} FallbacksInOrder(primaries: seq<Endpoint>, offers: seq<Offer>) returns (from: seq<nat>)
    ensures FollowedBy(primaries, offers, WithFallbacks(primaries, offers), from)
  {
    if offers == [] {
      from := [];
    } else {
      var n := |offers| - 1;
      var head, o := offers[..n], offers[n];
      var before := FallbacksInOrder(primaries, head);
      assert offers == head + [o];
      JoinsLast(primaries, head, o);
      from := OneMoreOffer(primaries, head, o, WithFallbacks(primaries, head), before);
    }
  }

  lemma OneMoreOffer(primaries: seq<Endpoint>, offers: seq<Offer>, o: Offer, out: seq<Endpoint>, before: seq<nat>)
    returns (from: seq<nat>)
    requires FollowedBy(primaries, offers, out, before)
    requires Joins(primaries, offers + [o], |offers|) ==> o.fallback.Some?
    ensures FollowedBy(primaries, offers + [o],
                       if Joins(primaries, offers + [o], |offers|) then out + [o.fallback.value] else out, from)
  {
    var n, all := |offers|, offers + [o];
    var joins, joins' := JoinsIn(primaries, offers), JoinsIn(primaries, all);
    forall i: nat | i < n ensures joins(i) == joins'(i) {
      JoinsPrefix(primaries, offers, o, i);
    }
    if joins'(n) {
      PicksTake(n, joins, FallbackIn(offers), out[|primaries|..], before, joins', FallbackIn(all), o.fallback.value);
      assert (out + [o.fallback.value])[|primaries|..] == out[|primaries|..] + [o.fallback.value];
      from := before + [n];
    } else {
      PicksSkip(n, joins, FallbackIn(offers), out[|primaries|..], before, joins', FallbackIn(all));
      from := before;
    }
  }

  // ---- What is asked in the end ----

  /** The row fallbacks behind the primaries; without primaries there are none. */
  function WithRowFallbacks(servers: seq<DNSServer>, name: string): seq<Endpoint> {
    var primaries := Primaries(servers, name);
    if primaries == [] then [] else WithFallbacks(primaries, Offers(servers))
  }

  predicate ActivelyClaimed(servers: seq<DNSServer>, name: string) {
    exists i :: 0 <= i < |servers| && servers[i].active && Whitelisted(servers[i], name)
  }

  /** The foreground asks the primaries and row fallbacks, and last the global fallback: exactly if it is
      configured, no active row's whitelist claims the name, and its key is not among the others. */
  lemma ForegroundMeaning(servers: seq<DNSServer>, name: string, f: FallbackSettings)
    ensures var eps, g := WithRowFallbacks(servers, name), FallbackEndpoint(f);
            && IsGlobalFallback(f, g)
            && Foreground(servers, name, f) ==
               if f.ip != "" && f.port != "" && !ActivelyClaimed(servers, name) && !KeyAmong(eps, TrimSpace(g.addr))
               then eps + [g] else eps
  {
    GlobalStandsFor(f);
    KeyAmongIff(WithRowFallbacks(servers, name), TrimSpace(FallbackEndpoint(f).addr));
    forall s ensures Matches(s, name) <==> Whitelisted(s, name) {
      MatchesIff(s, name);
    }
    assert forall i :: 0 <= i < |servers| ==> servers[i] in servers;
  }

  /** The background asks the primaries, or the global fallback alone if there are none and it is configured. */
  lemma BackgroundMeaning(servers: seq<DNSServer>, name: string, f: FallbackSettings)
    ensures var primaries, g := Primaries(servers, name), FallbackEndpoint(f);
            && IsGlobalFallback(f, g)
            && Background(servers, name, f) ==
               if |primaries| > 0 then primaries else if f.ip != "" && f.port != "" then [g] else []
  {
    GlobalStandsFor(f);
  }

  /** An offer is a row's own endpoint with its fallback. */
  lemma OffersMeaning(servers: seq<DNSServer>, i: nat)
    requires i < |servers|
    ensures |Offers(servers)| == |servers|
    ensures var s := servers[i]; StandsFor(s.transport, s.address, s.port, s.dohURL, Offers(servers)[i].own)
    ensures IsRowFallback(servers[i], Offers(servers)[i].fallback)
  {
    RowStandsFor(servers[i]);
    RowFallbackStandsFor(servers[i]);
  }
}
