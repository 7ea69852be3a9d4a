/** Which upstream resolvers a query may go to: split DNS by whitelist suffix, per-row fallbacks and the global fallback
    (dnsservers/dnsservers.go, dnsservers/endpoint.go, and the selection code of resolver/resolver.go). */
module Upstreams {
  import opened Options
  import opened Text

  datatype DNSServer = DNSServer(
    address: string, port: string, transport: string, dohURL: string, active: bool, whitelist: seq<string>,
    fallbackAddress: string, fallbackPort: string, fallbackTransport: string, fallbackDoHURL: string)

  datatype Endpoint = Endpoint(addr: string, transport: string) {
    function HealthKey(): string {
      TrimSpace(addr)
    }
  }

  datatype FallbackSettings = FallbackSettings(ip: string, port: string, transport: string)

  // ---- Endpoints (pure in the source) ----

  function Default(s: string, d: string): string {
    if s == "" then d else s
  }

  /** net.JoinHostPort. */
  function JoinHostPort(host: string, port: string): string {
    if ':' in host then "[" + host + "]:" + port else host + ":" + port
  }

  function MakeEndpoint(t: string, address: string, port: string, dohURL: string): Endpoint {
    if t == "doh" then Endpoint(Default(dohURL, address), "doh")
    else if t == "dot" then Endpoint(JoinHostPort(address, Default(port, "853")), "dot")
    else Endpoint(JoinHostPort(address, Default(port, "53")), if t == "tcp" then t else "udp")
  }

  function ServerToEndpoint(s: DNSServer): Endpoint {
    MakeEndpoint(Default(Lower(TrimSpace(s.transport)), "udp"), TrimSpace(s.address), TrimSpace(s.port),
                 TrimSpace(s.dohURL))
  }

  function ServerFallbackEndpoint(s: DNSServer): Option<Endpoint> {
    var addr, dohURL := TrimSpace(s.fallbackAddress), TrimSpace(s.fallbackDoHURL);
    if addr == "" && dohURL == "" then None
    else
      var t := Default(Lower(TrimSpace(s.fallbackTransport)), Default(Lower(TrimSpace(s.transport)), "udp"));
      Some(MakeEndpoint(t, addr, Default(TrimSpace(s.fallbackPort), "53"), dohURL))
  }

  function FallbackEndpoint(f: FallbackSettings): Endpoint {
    var t, ip, port := Lower(TrimSpace(f.transport)), TrimSpace(f.ip), Default(TrimSpace(f.port), "53");
    if t == "dot" then Endpoint(JoinHostPort(ip, if port == "53" then "853" else port), "dot")
    else Endpoint(JoinHostPort(ip, port), if t == "tcp" then t else "udp")
  }

  predicate SameEndpoint(a: Endpoint, b: Endpoint) {
    a.addr == b.addr && Lower(TrimSpace(a.transport)) == Lower(TrimSpace(b.transport))
  }

  // ---- Whitelists ----

  function QueryKey(q: string): string {
    Lower(TrimDots(TrimSpace(q)))
  }

  function EntryKey(e: string): string {
    TrimDots(Lower(TrimSpace(e)))
  }

  predicate CoversName(entry: string, q: string) {
    entry != "" && (q == entry || HasSuffix(q, "." + entry))
  }

  predicate Matches(s: DNSServer, queryName: string) {
    QueryKey(queryName) != "" && exists e <- s.whitelist :: CoversName(EntryKey(e), QueryKey(queryName))
  }

  /** The loop that strips trailing dots one at a time. */
  method StripDots(s: string) returns (r: string)
    ensures r == TrimDots(s)
  {
    r := s;
    while HasSuffix(r, ".")
      invariant TrimDots(r) == TrimDots(s)
      decreases |r|
    {
      r := r[..|r| - 1];
    }
  }

  method ServerMatchesQuery(s: DNSServer, queryName: string) returns (ok: bool)
    ensures ok == Matches(s, queryName)
  {
    if |s.whitelist| == 0 {
      return false;
    }
    var q := StripDots(TrimSpace(queryName));
    q := Lower(q);
    if q == "" {
      return false;
    }
    for i := 0 to |s.whitelist|
      invariant forall j :: 0 <= j < i ==> !CoversName(EntryKey(s.whitelist[j]), q)
    {
      var e := StripDots(Lower(TrimSpace(s.whitelist[i])));
      if e == "" {
        continue;
      }
      if q == e || HasSuffix(q, "." + e) {
        assert s.whitelist[i] in s.whitelist;
        return true;
      }
    }
    return false;
  }

  // ---- Matching is by whole labels ----

  function Labels(s: string): seq<string> {
    Split(s, '.')
  }

  function Joined(ls: seq<string>): string
    requires |ls| > 0
  {
    if |ls| == 1 then ls[0] else ls[0] + "." + Joined(ls[1..])
  }

  lemma {:induction false} LabelsJoin(s: string)
    ensures Joined(Labels(s)) == s
  {
    if s != "" {
      var ls := Labels(s[1..]);
      LabelsJoin(s[1..]);
      if s[0] == '.' {
        assert ([""] + ls)[1..] == ls;
      } else {
        var glued := [[s[0]] + ls[0]] + ls[1..];
        assert |ls| > 1 ==> glued[1..] == ls[1..];
        assert Joined(glued) == [s[0]] + Joined(ls);
      }
    }
  }

  lemma GlueConcat(x: char, a: seq<string>, b: seq<string>)
    requires |a| > 0
    ensures [[x] + (a + b)[0]] + (a + b)[1..] == ([[x] + a[0]] + a[1..]) + b
  {
  }

  lemma {:induction false} LabelsConcat(a: string, b: string)
    ensures Labels(a + "." + b) == Labels(a) + Labels(b)
  {
    var t := a + "." + b;
    LabelsHead(t);
    if a == "" {
      assert t[1..] == b && t[0] == '.';
    } else {
      LabelsConcat(a[1..], b);
      assert t[1..] == a[1..] + "." + b && t[0] == a[0];
      LabelsHead(a);
      if a[0] == '.' {
        assert [""] + (Labels(a[1..]) + Labels(b)) == [""] + Labels(a[1..]) + Labels(b);
      } else {
        GlueConcat(a[0], Labels(a[1..]), Labels(b));
      }
    }
  }

  lemma LabelsHead(s: string)
    requires s != ""
    ensures var ls := Labels(s[1..]); Labels(s) == if s[0] == '.' then [""] + ls else [[s[0]] + ls[0]] + ls[1..]
  {
  }

  lemma {:induction false} JoinedConcat(a: seq<string>, b: seq<string>)
    requires |a| > 0 && |b| > 0
    ensures Joined(a + b) == Joined(a) + "." + Joined(b)
  {
    if |a| == 1 {
      assert (a + b)[1..] == b;
    } else {
      JoinedConcat(a[1..], b);
      assert (a + b)[1..] == a[1..] + b;
    }
  }

  predicate EndsWith(ls: seq<string>, tail: seq<string>) {
    |tail| <= |ls| && ls[|ls| - |tail|..] == tail
  }

  lemma CoveredEnds(entry: string, q: string)
    requires HasSuffix(q, "." + entry)
    ensures EndsWith(Labels(q), Labels(entry))
  {
    var a := q[..|q| - |entry| - 1];
    assert q == a + "." + entry;
    LabelsConcat(a, entry);
  }

  lemma SuffixOfConcat(s: string, head: string, tail: string)
    requires s == head + "." + tail
    ensures HasSuffix(s, "." + tail)
  {
    assert s == head + ("." + tail);
  }

  lemma JoinedTail(a: seq<string>, tail: seq<string>, end: string)
    requires |a| > 0 && |tail| > 0 && end == Joined(tail)
    ensures HasSuffix(Joined(a + tail), "." + end)
  {
    JoinedConcat(a, tail);
    SuffixOfConcat(Joined(a + tail), Joined(a), end);
  }

  lemma JoinedEnds(ls: seq<string>, tail: seq<string>, end: string)
    requires |tail| > 0 && EndsWith(ls, tail) && end == Joined(tail)
    ensures Joined(ls) == end || HasSuffix(Joined(ls), "." + end)
  {
    var a := ls[..|ls| - |tail|];
    assert ls == a + tail;
    if a != [] {
      JoinedTail(a, tail, end);
    }
  }

  lemma {:induction false} EndsCovered(entry: string, q: string)
    requires EndsWith(Labels(q), Labels(entry))
    ensures q == entry || HasSuffix(q, "." + entry)
  {
    LabelsJoin(entry);
    LabelsJoin(q);
    JoinedEnds(Labels(q), Labels(entry), entry);
  }

  /** A whitelist entry covers a name exactly when its labels are the name's last labels. */
  lemma CoversByLabels(entry: string, q: string)
    requires entry != ""
    ensures CoversName(entry, q) <==> EndsWith(Labels(q), Labels(entry))
  {
    if HasSuffix(q, "." + entry) {
      CoveredEnds(entry, q);
    }
    if EndsWith(Labels(q), Labels(entry)) {
      EndsCovered(entry, q);
    }
  }

  // ---- Selection ----

  function ActiveMatching(q: string): DNSServer -> bool {
    (s: DNSServer) => s.active && Matches(s, q)
  }

  predicate ActiveGlobal(s: DNSServer) {
    s.active && s.whitelist == []
  }

  /** Endpoints of the rows `p` accepts, in order. */
  function EndpointsOf(servers: seq<DNSServer>, p: DNSServer -> bool): (eps: seq<Endpoint>)
    ensures forall s <- servers :: p(s) ==> ServerToEndpoint(s) in eps
    ensures forall e <- eps :: exists s <- servers :: p(s) && ServerToEndpoint(s) == e
  {
    if servers == [] then []
    else
      var head, last := servers[..|servers| - 1], servers[|servers| - 1];
      var eps := EndpointsOf(head, p);
      assert forall s :: s in servers <==> s in head || s == last;
      if p(last) then eps + [ServerToEndpoint(last)] else eps
  }

  lemma EndpointsGrow(servers: seq<DNSServer>, i: nat, p: DNSServer -> bool)
    requires i < |servers|
    ensures EndpointsOf(servers[..i + 1], p) ==
            if p(servers[i]) then EndpointsOf(servers[..i], p) + [ServerToEndpoint(servers[i])]
              else EndpointsOf(servers[..i], p)
  {
    assert servers[..i + 1][..i] == servers[..i];
  }

  /** GetUpstreamEndpointsForQuery with activeOnly set, as the resolver calls it. */
  function Primaries(servers: seq<DNSServer>, q: string): seq<Endpoint> {
    var whitelisted := EndpointsOf(servers, ActiveMatching(q));
    if whitelisted != [] then whitelisted
    else if exists s <- servers :: Matches(s, q) then []
    else EndpointsOf(servers, ActiveGlobal)
  }

  predicate InPrimaries(ep: Endpoint, primaries: seq<Endpoint>) {
    exists p <- primaries :: SameEndpoint(p, ep)
  }

  predicate HasKey(eps: seq<Endpoint>, key: string) {
    exists e <- eps :: e.HealthKey() == key
  }

  /** A row's fallback joins the list when the row's own endpoint is a primary and the fallback's key is new. */
  function WithFallback(out: seq<Endpoint>, primaries: seq<Endpoint>, own: Endpoint,
                        fallback: Option<Endpoint>): seq<Endpoint> {
    if InPrimaries(own, primaries) && fallback.Some? && !HasKey(out, fallback.value.HealthKey())
    then out + [fallback.value]
    else out
  }

  /** A row's own endpoint and its fallback, if it has one. */
  datatype Offer = Offer(own: Endpoint, fallback: Option<Endpoint>)

  function OfferOf(s: DNSServer): Offer {
    Offer(ServerToEndpoint(s), ServerFallbackEndpoint(s))
  }

  function Offers(servers: seq<DNSServer>): seq<Offer> {
    seq(|servers|, i requires 0 <= i < |servers| => OfferOf(servers[i]))
  }

  function WithFallbacks(primaries: seq<Endpoint>, offers: seq<Offer>): seq<Endpoint> {
    if offers == [] then primaries
    else
      var o := offers[|offers| - 1];
      WithFallback(WithFallbacks(primaries, offers[..|offers| - 1]), primaries, o.own, o.fallback)
  }

  predicate Configured(f: FallbackSettings) {
    f.ip != "" && f.port != ""
  }

  /** What resolveFastPath queries, before the health filter. */
  function Foreground(servers: seq<DNSServer>, q: string, f: FallbackSettings): seq<Endpoint> {
    var primaries := Primaries(servers, q);
    var eps := if primaries == [] then [] else WithFallbacks(primaries, Offers(servers));
    var useWhitelist := exists s <- servers :: s.active && Matches(s, q);
    if !useWhitelist && Configured(f) && !HasKey(eps, FallbackEndpoint(f).HealthKey())
    then eps + [FallbackEndpoint(f)]
    else eps
  }

  /** What backgroundRefresh queries, before the health filter. */
  function Background(servers: seq<DNSServer>, q: string, f: FallbackSettings): seq<Endpoint> {
    var primaries := Primaries(servers, q);
    if primaries == [] && Configured(f) then [FallbackEndpoint(f)] else primaries
  }

  // ---- The source's loops ----

  method GetUpstreamEndpointsForQuery(servers: seq<DNSServer>, q: string) returns (eps: seq<Endpoint>)
    ensures eps == Primaries(servers, q)
  {
    eps := WhitelistedEndpoints(servers, q);
    if |eps| > 0 {
      return;
    }
    var claimed := AnyMatches(servers, q);
    if claimed {
      return [];
    }
    eps := GlobalEndpoints(servers);
  }

  method WhitelistedEndpoints(servers: seq<DNSServer>, q: string) returns (eps: seq<Endpoint>)
    ensures eps == EndpointsOf(servers, ActiveMatching(q))
  {
    eps := [];
    for i := 0 to |servers|
      invariant eps == EndpointsOf(servers[..i], ActiveMatching(q))
    {
      EndpointsGrow(servers, i, ActiveMatching(q));
      if servers[i].active {
        var m := ServerMatchesQuery(servers[i], q);
        if m {
          eps := eps + [ServerToEndpoint(servers[i])];
        }
      }
    }
    assert servers[..|servers|] == servers;
  }

  method AnyMatches(servers: seq<DNSServer>, q: string) returns (yes: bool)
    ensures yes <==> exists s <- servers :: Matches(s, q)
  {
    for i := 0 to |servers|
      invariant forall j :: 0 <= j < i ==> !Matches(servers[j], q)
    {
      yes := ServerMatchesQuery(servers[i], q);
      if yes {
        assert servers[i] in servers;
        return;
      }
    }
    return false;
  }

  method GlobalEndpoints(servers: seq<DNSServer>) returns (eps: seq<Endpoint>)
    ensures eps == EndpointsOf(servers, ActiveGlobal)
  {
    eps := [];
    for i := 0 to |servers|
      invariant eps == EndpointsOf(servers[..i], ActiveGlobal)
    {
      EndpointsGrow(servers, i, ActiveGlobal);
      if servers[i].active && |servers[i].whitelist| == 0 {
        eps := eps + [ServerToEndpoint(servers[i])];
      }
    }
    assert servers[..|servers|] == servers;
  }

  method EndpointInPrimaries(ep: Endpoint, primaries: seq<Endpoint>) returns (found: bool)
    ensures found == InPrimaries(ep, primaries)
  {
    for i := 0 to |primaries|
      invariant forall j :: 0 <= j < i ==> !SameEndpoint(primaries[j], ep)
    {
      if SameEndpoint(primaries[i], ep) {
        assert primaries[i] in primaries;
        return true;
      }
    }
    return false;
  }

  method AppendFallbacks(primaries: seq<Endpoint>, offers: seq<Offer>) returns (out: seq<Endpoint>)
    ensures out == WithFallbacks(primaries, offers)
  {
    out := primaries;
    var seen := KeysOf(out);
    for i := 0 to |offers|
      invariant out == WithFallbacks(primaries, offers[..i])
      invariant forall k :: k in seen <==> HasKey(out, k)
    {
      assert offers[..i + 1][..i] == offers[..i];
      var o := offers[i];
      var primary := EndpointInPrimaries(o.own, primaries);
      if !primary || o.fallback == None {
        continue;
      }
      var k := o.fallback.value.HealthKey();
      if k in seen {
        continue;
      }
      KeyAppend(out, o.fallback.value);
      seen := seen + {k};
      out := out + [o.fallback.value];
    }
    assert offers[..|offers|] == offers;
  }

  method AppendPerServerFallbacks(primaries: seq<Endpoint>, servers: seq<DNSServer>) returns (out: seq<Endpoint>)
    ensures out == if primaries == [] then [] else WithFallbacks(primaries, Offers(servers))
  {
    if |primaries| == 0 {
      return [];
    }
    out := AppendFallbacks(primaries, Offers(servers));
  }

  method KeysOf(eps: seq<Endpoint>) returns (seen: set<string>)
    ensures forall k :: k in seen <==> HasKey(eps, k)
  {
    seen := {};
    for i := 0 to |eps|
      invariant forall k :: k in seen <==> HasKey(eps[..i], k)
    {
      assert eps[..i + 1] == eps[..i] + [eps[i]];
      KeyAppend(eps[..i], eps[i]);
      seen := seen + {eps[i].HealthKey()};
    }
    assert eps[..|eps|] == eps;
  }

  lemma KeyAppend(out: seq<Endpoint>, e: Endpoint)
    ensures forall k :: HasKey(out + [e], k) <==> HasKey(out, k) || k == e.HealthKey()
  {
    assert forall x :: x in out + [e] <==> x in out || x == e;
  }

  /** The loop that decides whether a whitelist claims the query. */
  method UsesWhitelist(servers: seq<DNSServer>, q: string) returns (yes: bool)
    ensures yes <==> exists s <- servers :: s.active && Matches(s, q)
  {
    for i := 0 to |servers|
      invariant forall j :: 0 <= j < i ==> !(servers[j].active && Matches(servers[j], q))
    {
      var m := ServerMatchesQuery(servers[i], q);
      if servers[i].active && m {
        assert servers[i] in servers;
        return true;
      }
    }
    return false;
  }

  method KeyPresent(eps: seq<Endpoint>, key: string) returns (already: bool)
    ensures already == HasKey(eps, key)
  {
    for i := 0 to |eps|
      invariant forall j :: 0 <= j < i ==> eps[j].HealthKey() != key
    {
      if eps[i].HealthKey() == key {
        assert eps[i] in eps;
        return true;
      }
    }
    return false;
  }

  method SelectForeground(servers: seq<DNSServer>, q: string, f: FallbackSettings) returns (eps: seq<Endpoint>)
    ensures eps == Foreground(servers, q, f)
  {
    var primaries := GetUpstreamEndpointsForQuery(servers, q);
    eps := AppendPerServerFallbacks(primaries, servers);
    var useWhitelist := UsesWhitelist(servers, q);
    if !useWhitelist && f.ip != "" && f.port != "" {
      var fallback := FallbackEndpoint(f);
      var already := KeyPresent(eps, fallback.HealthKey());
      if !already {
        eps := eps + [fallback];
      }
    }
  }

  method SelectBackground(servers: seq<DNSServer>, q: string, f: FallbackSettings) returns (eps: seq<Endpoint>)
    ensures eps == Background(servers, q, f)
  {
    eps := GetUpstreamEndpointsForQuery(servers, q);
    if |eps| == 0 {
      if f.ip != "" && f.port != "" {
        eps := [FallbackEndpoint(f)];
      }
    }
  }

  // ---- Split DNS ----

  /** Some row, perhaps inactive or unrelated to the query, shares a primary's endpoint and has `e` as its fallback. */
  ghost predicate FallbackOfSharer(offers: seq<Offer>, primaries: seq<Endpoint>, e: Endpoint) {
    exists o <- offers :: InPrimaries(o.own, primaries) && o.fallback == Some(e)
  }

  /** All primaries come first, and everything else is the fallback of a row sharing a primary's endpoint. */
  lemma {:induction false} FallbacksFromSharers(primaries: seq<Endpoint>, offers: seq<Offer>)
    ensures primaries <= WithFallbacks(primaries, offers)
    ensures forall e <- WithFallbacks(primaries, offers) :: e in primaries || FallbackOfSharer(offers, primaries, e)
  {
    if offers != [] {
      var head, o := offers[..|offers| - 1], offers[|offers| - 1];
      FallbacksFromSharers(primaries, head);
      assert forall x :: x in offers <==> x in head || x == o;
    }
  }

  /** Every sharing row's fallback is represented by its key. */
  lemma {:induction false} SharersAreKept(primaries: seq<Endpoint>, offers: seq<Offer>, key: string)
    ensures HasKey(WithFallbacks(primaries, offers), key) <==>
            || HasKey(primaries, key)
            || exists o <- offers :: InPrimaries(o.own, primaries) && o.fallback.Some?
                && o.fallback.value.HealthKey() == key
  {
    if offers != [] {
      var head, o := offers[..|offers| - 1], offers[|offers| - 1];
      SharersAreKept(primaries, head, key);
      assert forall x :: x in offers <==> x in head || x == o;
      if o.fallback.Some? {
        KeyAppend(WithFallbacks(primaries, head), o.fallback.value);
      }
    }
  }

  /** No added fallback repeats a key. */
  lemma {:induction false} FallbackKeysNew(primaries: seq<Endpoint>, offers: seq<Offer>, i: nat, j: nat)
    requires i < j < |WithFallbacks(primaries, offers)| && j >= |primaries|
    ensures WithFallbacks(primaries, offers)[i].HealthKey() != WithFallbacks(primaries, offers)[j].HealthKey()
  {
    if offers != [] {
      var before := WithFallbacks(primaries, offers[..|offers| - 1]);
      if j < |before| {
        FallbackKeysNew(primaries, offers[..|offers| - 1], i, j);
      } else {
        assert before[i] in before;
      }
    }
  }

  lemma MatchingActive(servers: seq<DNSServer>, q: string)
    ensures (exists s <- servers :: s.active && Matches(s, q)) <==> EndpointsOf(servers, ActiveMatching(q)) != []
  {
    var eps := EndpointsOf(servers, ActiveMatching(q));
    if eps != [] {
      assert eps[0] in eps;
    }
  }

  /** When an active row's whitelist covers the name, exactly the active matching rows are primaries. */
  lemma WhitelistClaims(servers: seq<DNSServer>, q: string)
    requires exists s <- servers :: s.active && Matches(s, q)
    ensures Primaries(servers, q) == EndpointsOf(servers, ActiveMatching(q))
    ensures forall e :: e in Primaries(servers, q) <==>
            exists s <- servers :: ActiveMatching(q)(s) && ServerToEndpoint(s) == e
  {
    MatchingActive(servers, q);
  }

  /** Then everything queried is one of their endpoints or the fallback of a row sharing such an endpoint, all their
      endpoints are queried, and the global fallback has no influence. */
  lemma WhitelistIsExclusive(servers: seq<DNSServer>, q: string, f: FallbackSettings, g: FallbackSettings)
    requires exists s <- servers :: s.active && Matches(s, q)
    ensures Primaries(servers, q) <= Foreground(servers, q, f)
    ensures forall e <- Foreground(servers, q, f) ::
              e in Primaries(servers, q) || FallbackOfSharer(Offers(servers), Primaries(servers, q), e)
    ensures Foreground(servers, q, g) == Foreground(servers, q, f)
  {
    FallbacksFromSharers(Primaries(servers, q), Offers(servers));
  }

  /** When only inactive rows match, no row is queried: the global fallback, if configured, is the only endpoint. */
  lemma InactiveMatchLeavesFallback(servers: seq<DNSServer>, q: string, f: FallbackSettings)
    requires (exists s <- servers :: Matches(s, q)) && !exists s <- servers :: s.active && Matches(s, q)
    ensures Foreground(servers, q, f) == Background(servers, q, f) == if Configured(f) then [FallbackEndpoint(f)]
            else []
  {
    MatchingActive(servers, q);
  }

  /** Background refresh never queries an endpoint the foreground would not. */
  lemma BackgroundWithinForeground(servers: seq<DNSServer>, q: string, f: FallbackSettings)
    ensures forall e <- Background(servers, q, f) :: e in Foreground(servers, q, f)
  {
    MatchingActive(servers, q);
    FallbacksFromSharers(Primaries(servers, q), Offers(servers));
  }

  /** A single row without whitelist or fallback of its own, and a global fallback elsewhere. */
  lemma OneServer(s: DNSServer, q: string, f: FallbackSettings)
    requires s.active && s.whitelist == [] && ServerFallbackEndpoint(s) == None && Configured(f)
    requires ServerToEndpoint(s).HealthKey() != FallbackEndpoint(f).HealthKey()
    ensures Background([s], q, f) == [ServerToEndpoint(s)]
    ensures Foreground([s], q, f) == [ServerToEndpoint(s), FallbackEndpoint(f)]
  {
    OnePrimary(s, q);
    OneOffer(s, [ServerToEndpoint(s)]);
    assert forall x <- [s] :: x == s;
    FallbackAdded([s], q, f, ServerToEndpoint(s), FallbackEndpoint(f));
  }

  lemma FallbackAdded(servers: seq<DNSServer>, q: string, f: FallbackSettings, p: Endpoint, g: Endpoint)
    requires Primaries(servers, q) == [p] == WithFallbacks([p], Offers(servers)) && Configured(f)
    requires !(exists s <- servers :: s.active && Matches(s, q))
    requires g == FallbackEndpoint(f) && p.HealthKey() != g.HealthKey()
    ensures Background(servers, q, f) == [p] && Foreground(servers, q, f) == [p, g]
  {
    assert !HasKey([p], g.HealthKey());
    assert [p] + [g] == [p, g];
  }

  lemma OnePrimary(s: DNSServer, q: string)
    requires s.active && s.whitelist == []
    ensures Primaries([s], q) == [ServerToEndpoint(s)] && !Matches(s, q)
  {
    NoWhitelist(s, q);
    EndpointsOfOne(s, ActiveMatching(q));
    EndpointsOfOne(s, ActiveGlobal);
    assert forall x <- [s] :: x == s;
  }

  lemma NoWhitelist(s: DNSServer, q: string)
    requires s.whitelist == []
    ensures !Matches(s, q)
  {
  }

  lemma OneOffer(s: DNSServer, primaries: seq<Endpoint>)
    requires ServerFallbackEndpoint(s) == None
    ensures WithFallbacks(primaries, Offers([s])) == primaries
  {
    NoFallbackOffered(primaries, Offers([s]));
  }

  lemma EndpointsOfOne(s: DNSServer, p: DNSServer -> bool)
    ensures EndpointsOf([s], p) == if p(s) then [ServerToEndpoint(s)] else []
  {
    assert [s][..0] == [];
  }

  lemma NoFallbackOffered(primaries: seq<Endpoint>, offers: seq<Offer>)
    requires forall o <- offers :: o.fallback == None
    ensures WithFallbacks(primaries, offers) == primaries
  {
  }
}
