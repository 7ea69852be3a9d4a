/** What cache and local lookups answer, as functions of the rows (data/lookup_index.go), and compaction
    (data/cache_compact.go). */
module Cache {
  import opened Options
  import opened Text
  import opened Search
  import opened Records
  import opened RRSetCodec
  import opened LookupIndex

  const UINT32: nat := 0x1_0000_0000

  // ---- Which rows count ----

  predicate IsSet(r: CacheRow) {
    IsRRSet(r.rec.value)
  }

  predicate IsSingle(r: CacheRow) {
    !IsRRSet(r.rec.value)
  }

  function LiveAt(now: nat): CacheRow -> bool {
    (r: CacheRow) => now < r.expiry
  }

  function DecodableSet(lib: Library): CacheRow -> bool {
    (r: CacheRow) => Decode(lib, r.rec.value).Some?
  }

  /** Rows of one kind under one index key. */
  function Under(k: string, kind: CacheRow -> bool): CacheRow -> bool {
    (r: CacheRow) => RowIdxKey(r) == k && kind(r)
  }

  /** The second loop's test: name and type compared one by one. */
  function ByParts(qname: string, rtype: string, kind: CacheRow -> bool): CacheRow -> bool {
    (r: CacheRow) => NameKey(r.rec.name) == NameKey(qname) && NormType(r.rec.rtype) == NormType(rtype) && kind(r)
  }

  /** The query types whose whole answers are cached and served as one row. */
  predicate SetType(rtype: string) {
    rtype == "A" || rtype == "AAAA" || rtype == "HTTPS" || rtype == "SVCB"
  }

  // ---- Answers ----

  /** uint32(expiry.Sub(now).Seconds()) for a row that has not expired. */
  function RemainingSec(r: CacheRow, now: nat): nat {
    if now < r.expiry then (r.expiry - now) / SECOND % UINT32 else 0
  }

  function Format(rec: DNSRecord, ttl: nat): string {
    rec.name + " " + Decimal(ttl) + " IN " + rec.rtype + " " + rec.value
  }

  datatype Single = Single(rr: Option<RR>, stale: bool)

  function SingleAnswer(lib: Library, rows: seq<CacheRow>, k: string, now: nat, allowStale: bool): Single {
    match FirstHit(rows, Under(k, IsSingle), LiveAt(now), allowStale)
    case Miss => Single(None, false)
    case Fresh(r) => Single(lib.newRR(Format(r.rec, RemainingSec(r, now))), false)
    case Stale(r) => Single(lib.newRR(Format(r.rec, 1)), true)
  }

  datatype Whole = Whole(rrs: seq<RR>, stale: bool)

  function SetRecords(lib: Library, r: CacheRow): seq<RR> {
    match Decode(lib, r.rec.value)
    case None => []
    case Some(rrs) => rrs
  }

  function AtLeastOne(n: nat): nat {
    if n == 0 then 1 else n
  }

  function SetAnswer(lib: Library, rows: seq<CacheRow>, k: string, now: nat, allowStale: bool): Whole {
    match FirstHit(rows, Under(k, DecodableSet(lib)), LiveAt(now), allowStale)
    case Miss => Whole([], false)
    case Fresh(r) => Whole(Clip(SetRecords(lib, r), AtLeastOne(RemainingSec(r, now)), false), false)
    case Stale(r) => Whole(Clip(SetRecords(lib, r), 1, true), true)
  }

  function Parsed(lib: Library, rec: DNSRecord): seq<RR> {
    match lib.newRR(Format(rec, rec.ttl))
    case None => []
    case Some(rr) => [rr]
  }

  function ParsedAll(lib: Library, recs: seq<DNSRecord>): seq<RR> {
    if recs == [] then [] else ParsedAll(lib, recs[..|recs| - 1]) + Parsed(lib, recs[|recs| - 1])
  }

  /** FindAllRecords for types other than PTR: parse every row whose name and type match. */
  function AllMatching(lib: Library, rows: seq<DNSRecord>, qname: string, rtype: string): seq<RR> {
    if rows == [] then []
    else
      var n := |rows| - 1;
      var r := rows[n];
      AllMatching(lib, rows[..n], qname, rtype) +
      if NameKey(r.name) == NameKey(qname) && NormType(r.rtype) == NormType(rtype) then Parsed(lib, r) else []
  }

  /** The local lookup: parse the rows listed under the index key. */
  function LocalAnswer(lib: Library, rows: seq<DNSRecord>, k: string): seq<RR> {
    ParsedAll(lib, Picked(rows, PositionsBy(rows, RecordIdxKey, k)))
  }

  /** The settings the fast path reads. */
  datatype Settings = Settings(localEnabled: bool, cacheEnabled: bool, staleWhileRevalidate: bool,
                               minCacheTTLSeconds: int)

  datatype Fast =
    | NotHandled
    | LocalHit(local: seq<RR>)
    | WholeHit(rrs: seq<RR>, stale: bool)
    | SingleHit(rr: RR, stale: bool)

  function FromCache(lib: Library, rows: seq<CacheRow>, k: string, asSet: bool, now: nat, allowStale: bool): Fast {
    var w := if asSet then SetAnswer(lib, rows, k, now, allowStale) else Whole([], false);
    if w.rrs != [] then WholeHit(w.rrs, w.stale)
    else
      var s := SingleAnswer(lib, rows, k, now, allowStale);
      match s.rr
      case None => NotHandled
      case Some(rr) => SingleHit(rr, s.stale)
  }

  /** TryFastLocalOrCache: local records first, then a whole cached answer, then a single cached record. */
  function TryFast(lib: Library, settings: Settings, records: seq<DNSRecord>, rows: seq<CacheRow>,
                   qname: string, rtype: string, isPTR: bool, now: nat): Fast
  {
    var k := IdxKey(qname, rtype);
    if isPTR then NotHandled
    else if settings.localEnabled && LocalAnswer(lib, records, k) != [] then LocalHit(LocalAnswer(lib, records, k))
    else if !settings.cacheEnabled then NotHandled
    else FromCache(lib, rows, k, SetType(NormType(rtype)), now, settings.staleWhileRevalidate)
  }

  // ---- Index keys compare like names and types ----

  predicate NulFree(s: string) {
    NUL !in s
  }

  /** The first NUL of c + NUL + d that follows `a` lies inside `c`. */
  ghost predicate Straddles(a: string, b: string, c: string, d: string) {
    exists x :: c == a + [NUL] + x && b == x + [NUL] + d
  }

  /** Joining with NUL identifies two different pairs exactly when one straddles the other. */
  lemma JoinsCollideIff(a: string, b: string, c: string, d: string)
    ensures a + [NUL] + b == c + [NUL] + d && !(a == c && b == d) <==> Straddles(a, b, c, d) || Straddles(c, d, a, b)
  {
    if a + [NUL] + b == c + [NUL] + d {
      if |a| < |c| {
        ShorterStraddles(a, b, c, d);
      } else if |c| < |a| {
        ShorterStraddles(c, d, a, b);
      } else {
        assert (a + [NUL] + b)[..|a|] == a && (c + [NUL] + d)[..|a|] == c;
        assert (a + [NUL] + b)[|a| + 1..] == b && (c + [NUL] + d)[|a| + 1..] == d;
      }
    }
    if Straddles(a, b, c, d) {
      StraddlersJoin(a, b, c, d);
    }
    if Straddles(c, d, a, b) {
      StraddlersJoin(c, d, a, b);
    }
  }

  lemma ShorterStraddles(a: string, b: string, c: string, d: string)
    requires a + [NUL] + b == c + [NUL] + d && |a| < |c|
    ensures Straddles(a, b, c, d)
  {
    var s, x := a + [NUL] + b, c[|a| + 1..];
    assert s[..|a|] == a && s[|a|] == NUL && s[|a| + 1..] == b;
    assert s == c + [NUL] + d && forall i :: 0 <= i < |c| ==> s[i] == c[i];
    assert c == a + [NUL] + x;
    assert b == x + [NUL] + d;
  }

  lemma StraddlersJoin(a: string, b: string, c: string, d: string)
    requires Straddles(a, b, c, d)
    ensures a + [NUL] + b == c + [NUL] + d && a != c
  {
    var x :| c == a + [NUL] + x && b == x + [NUL] + d;
    assert a + [NUL] + (x + [NUL] + d) == a + [NUL] + x + [NUL] + d;
    assert |c| > |a|;
  }

  lemma NameKeyNulFree(name: string)
    requires NulFree(name)
    ensures NulFree(NameKey(name))
  {
    var lo, hi := TrimSpaceShape(name);
    TrimDotsShape(TrimSpace(name));
    var c := CanonName(name);
    forall i | 0 <= i < |c| ensures NameKey(name)[i] != NUL {
      assert c[i] == name[lo + i];
    }
  }

  lemma NormTypeNulFree(rtype: string)
    requires NulFree(rtype)
    ensures NulFree(NormType(rtype))
  {
    var lo, hi := TrimSpaceShape(rtype);
    forall i | 0 <= i < |NormType(rtype)| ensures NormType(rtype)[i] != NUL {
      assert TrimSpace(rtype)[i] == rtype[lo + i];
    }
  }

  predicate SameParts(name: string, rtype: string, name': string, rtype': string) {
    NameKey(name) == NameKey(name') && NormType(rtype) == NormType(rtype')
  }

  /** Exactly when an index key stands for two different pairs of name and type. */
  lemma KeysCollideIff(name: string, rtype: string, name': string, rtype': string)
    ensures IdxKey(name, rtype) == IdxKey(name', rtype') && !SameParts(name, rtype, name', rtype') <==>
            || Straddles(NameKey(name), NormType(rtype), NameKey(name'), NormType(rtype'))
            || Straddles(NameKey(name'), NormType(rtype'), NameKey(name), NormType(rtype))
  {
    JoinsCollideIff(NameKey(name), NormType(rtype), NameKey(name'), NormType(rtype'));
  }

  /** A query without NUL collides with no row, whatever the rows hold. */
  lemma KeysCompareParts(qname: string, qtype: string, name: string, rtype: string)
    requires NulFree(qname) && NulFree(qtype)
    ensures IdxKey(name, rtype) == IdxKey(qname, qtype) <==> SameParts(name, rtype, qname, qtype)
  {
    NameKeyNulFree(qname);
    NormTypeNulFree(qtype);
    KeysCollideIff(qname, qtype, name, rtype);
    NoStraddle(NameKey(qname), NormType(qtype), NameKey(name), NormType(rtype));
  }

  lemma NoStraddle(a: string, b: string, c: string, d: string)
    requires NulFree(b) && (NulFree(a) || NulFree(d))
    ensures !Straddles(a, b, c, d) && !Straddles(c, d, a, b)
  {
    forall x ensures NUL in x + [NUL] + d && NUL in x + [NUL] + b && NUL in c + [NUL] + x {
      assert (x + [NUL] + d)[|x|] == (x + [NUL] + b)[|x|] == (c + [NUL] + x)[|c|] == NUL;
    }
  }

  /** With NUL characters they need not. */
  lemma NulCollision()
    ensures IdxKey("a\01", "2") == IdxKey("a", "1\02") && !SameParts("a\01", "2", "a", "1\02")
  {
    TrimSpaceFixed("a\01");
    TrimSpaceFixed("2");
    TrimSpaceFixed("a");
    TrimSpaceFixed("1\02");
    assert Lower("a\01") == "a\01" && Upper("2") == "2" && Lower("a") == "a" && Upper("1\02") == "1\02";
    assert |NameKey("a\01")| == 3 && |NameKey("a")| == 1;
  }

  /** So, for queries without NUL, the indexed local lookup is the linear scan. */
  lemma {:induction false} LocalLookupIsScan(lib: Library, rows: seq<DNSRecord>, qname: string, rtype: string)
    requires NulFree(qname) && NulFree(rtype)
    ensures LocalAnswer(lib, rows, IdxKey(qname, rtype)) == AllMatching(lib, rows, qname, rtype)
  {
    if rows != [] {
      var n, k := |rows| - 1, IdxKey(qname, rtype);
      LocalLookupIsScan(lib, rows[..n], qname, rtype);
      KeysCompareParts(qname, rtype, rows[n].name, rows[n].rtype);
      PickedGrows(rows, RecordIdxKey, k);
      var before := Picked(rows[..n], PositionsBy(rows[..n], RecordIdxKey, k));
      assert (before + [rows[n]])[..|before|] == before && before + [] == before;
    }
  }

  lemma {:induction false} FreshSame<T>(rows: seq<T>, w: T -> bool, w': T -> bool, live: T -> bool, live': T -> bool)
    requires forall r <- rows :: w(r) == w'(r) && (w(r) ==> live(r) == live'(r))
    ensures FreshRow(rows, w, live) == FreshRow(rows, w', live')
  {
    if rows != [] {
      FreshSame(rows[..|rows| - 1], w, w', live, live');
    }
  }

  /** And the indexed cache lookups are scans by name and type. */
  lemma CacheLookupIsScan(rows: seq<CacheRow>, qname: string, rtype: string, kind: CacheRow -> bool, now: nat,
                          allowStale: bool)
    requires NulFree(qname) && NulFree(rtype)
    ensures FirstHit(rows, Under(IdxKey(qname, rtype), kind), LiveAt(now), allowStale)
            == FirstHit(rows, ByParts(qname, rtype, kind), LiveAt(now), allowStale)
  {
    var w, w' := Under(IdxKey(qname, rtype), kind), ByParts(qname, rtype, kind);
    forall r | r in rows ensures w(r) == w'(r) {
      KeysCompareParts(qname, rtype, r.rec.name, r.rec.rtype);
    }
    FreshSame(rows, w, w', LiveAt(now), LiveAt(now));
    FreshSame(rows, w, w', w, w');
  }

  // ---- Compaction ----

  /** The rows that have not expired at `now`, in order. */
  function Unexpired(rows: seq<CacheRow>, now: nat): (kept: seq<CacheRow>)
    ensures |kept| <= |rows|
    ensures forall r :: r in kept <==> r in rows && now < r.expiry
  {
    if rows == [] then []
    else
      var n := |rows| - 1;
      Unexpired(rows[..n], now) + if now < rows[n].expiry then [rows[n]] else []
  }

  function Stays(now: nat): (CacheRow, CacheRow) -> bool {
    (r: CacheRow, x: CacheRow) => x == r && now < r.expiry
  }

  function Goes(now: nat): CacheRow -> bool {
    (r: CacheRow) => r.expiry <= now
  }

  lemma KeepOne(rows: seq<CacheRow>, kept: seq<CacheRow>, before: seq<nat>, x: CacheRow, now: nat)
    returns (from: seq<nat>)
    requires Gathers(rows, Stays(now), Goes(now), kept, before)
    ensures Gathers(rows + [x], Stays(now), Goes(now), if now < x.expiry then kept + [x] else kept, from)
  {
    if now < x.expiry {
      GathersTake(rows, Stays(now), Goes(now), kept, before, x, x);
      from := before + [|rows|];
    } else {
      GathersSkip(rows, Stays(now), Goes(now), kept, before, x);
      from := before;
    }
  }

  /** They are all there, once each and in their order. */
  lemma {:induction false} UnexpiredInOrder(rows: seq<CacheRow>, now: nat) returns (from: seq<nat>)
    ensures Gathers(rows, Stays(now), Goes(now), Unexpired(rows, now), from)
  {
    if rows == [] {
      from := [];
    } else {
      var head, x := rows[..|rows| - 1], rows[|rows| - 1];
      var before := UnexpiredInOrder(head, now);
      assert rows == head + [x];
      from := KeepLast(rows, head, x, Unexpired(head, now), Unexpired(rows, now), before, now);
    }
  }

  lemma KeepLast(rows: seq<CacheRow>, head: seq<CacheRow>, x: CacheRow, kept: seq<CacheRow>, kept': seq<CacheRow>,
                 before: seq<nat>, now: nat)
    returns (from: seq<nat>)
    requires rows == head + [x] && Gathers(head, Stays(now), Goes(now), kept, before)
    requires kept' == if now < x.expiry then kept + [x] else kept
    ensures Gathers(rows, Stays(now), Goes(now), kept', from)
  {
    from := KeepOne(head, kept, before, x, now);
  }

  /** Dropping expired rows changes no lookup for a live row, now or later. */
  lemma {:induction false} CompactionKeepsFresh(rows: seq<CacheRow>, wanted: CacheRow -> bool, at: nat, later: nat)
    requires at <= later
    ensures FreshRow(Unexpired(rows, at), wanted, LiveAt(later)) == FreshRow(rows, wanted, LiveAt(later))
  {
    if rows != [] {
      var n := |rows| - 1;
      var head, x := rows[..n], rows[n];
      CompactionKeepsFresh(head, wanted, at, later);
      assert rows == head + [x];
      var live := LiveAt(later);
      assert x.expiry <= at ==> !live(x);
      FreshGrows(head, x, wanted, live);
      UnexpiredGrows(rows, at);
      FreshGrows(Unexpired(head, at), x, wanted, live);
    }
  }

  lemma UnexpiredGrows(rows: seq<CacheRow>, at: nat)
    requires rows != []
    ensures var head, x := rows[..|rows| - 1], rows[|rows| - 1];
            Unexpired(rows, at) == if at < x.expiry then Unexpired(head, at) + [x] else Unexpired(head, at)
  {
  }

  /** Compaction is invisible to every non-stale lookup at the same time or later. */
  lemma CompactionInvisible(lib: Library, rows: seq<CacheRow>, k: string, at: nat, later: nat)
    requires at <= later
    ensures SingleAnswer(lib, Unexpired(rows, at), k, later, false) == SingleAnswer(lib, rows, k, later, false)
    ensures SetAnswer(lib, Unexpired(rows, at), k, later, false) == SetAnswer(lib, rows, k, later, false)
  {
    CompactionKeepsFresh(rows, Under(k, IsSingle), at, later);
    CompactionKeepsFresh(rows, Under(k, DecodableSet(lib)), at, later);
  }

  // ---- Stale answers ----

  lemma DecodedNotEmpty(lib: Library, v: string)
    ensures Decode(lib, v).Some? ==> Decode(lib, v).value != []
  {
  }

  /** The first row of a kind under a key, live or not. */
  function FirstUnder(rows: seq<CacheRow>, k: string, kind: CacheRow -> bool): Option<CacheRow> {
    FreshRow(rows, Under(k, kind), Under(k, kind))
  }

  function LiveUnder(rows: seq<CacheRow>, k: string, kind: CacheRow -> bool, now: nat): Option<CacheRow> {
    FreshRow(rows, Under(k, kind), LiveAt(now))
  }

  lemma SetAnswerKind(lib: Library, rows: seq<CacheRow>, k: string, now: nat, allowStale: bool)
    ensures var w, first := SetAnswer(lib, rows, k, now, allowStale), FirstUnder(rows, k, DecodableSet(lib));
            var live := LiveUnder(rows, k, DecodableSet(lib), now);
            && (w.rrs != [] <==> live.Some? || (allowStale && first.Some?))
            && (w.stale <==> live.None? && allowStale && first.Some?)
  {
    var live, first := LiveUnder(rows, k, DecodableSet(lib), now), FirstUnder(rows, k, DecodableSet(lib));
    if live.Some? { DecodedNotEmpty(lib, live.value.rec.value); }
    if first.Some? { DecodedNotEmpty(lib, first.value.rec.value); }
  }

  lemma SingleAnswerKind(lib: Library, rows: seq<CacheRow>, k: string, now: nat, allowStale: bool)
    ensures var s, first := SingleAnswer(lib, rows, k, now, allowStale), FirstUnder(rows, k, IsSingle);
            s.stale && s.rr.Some? <==>
            && LiveUnder(rows, k, IsSingle, now).None? && allowStale && first.Some?
            && lib.newRR(Format(first.value.rec, 1)).Some?
  {
  }

  /** When a stale answer is served. An expired whole answer is served exactly when stale serving is on, the type is
      served whole, and every decodable whole answer has expired; live single records do not matter. An expired single
      record is served exactly when stale serving is on, no whole answer is in the way, every single record has expired,
      and the first of them parses. */
  lemma StaleOnlyPerKind(lib: Library, rows: seq<CacheRow>, k: string, asSet: bool, now: nat, allowStale: bool)
    ensures var f, whole := FromCache(lib, rows, k, asSet, now, allowStale), DecodableSet(lib);
            && (f.WholeHit? && f.stale <==>
                asSet && allowStale && FirstUnder(rows, k, whole).Some? && LiveUnder(rows, k, whole, now).None?)
            && (f.SingleHit? && f.stale <==>
                var first := FirstUnder(rows, k, IsSingle);
                && allowStale && (asSet ==> FirstUnder(rows, k, whole).None?)
                && LiveUnder(rows, k, IsSingle, now).None?
                && first.Some? && lib.newRR(Format(first.value.rec, 1)).Some?)
  {
    SetAnswerKind(lib, rows, k, now, allowStale);
    SingleAnswerKind(lib, rows, k, now, allowStale);
  }

  /** So "stale only if nothing live" fails: an expired whole answer is served although a live single record is
      there. */
  lemma ExpiredWholeBeatsLiveSingle(lib: Library, answer: seq<RR>, whole: CacheRow, single: CacheRow, k: string,
                                    now: nat)
    requires answer != [] && (forall rr <- answer :: Printable(lib, rr)) && whole.rec.value == Encode(lib, answer)
    requires RowIdxKey(whole) == RowIdxKey(single) == k && IsSingle(single) && whole.expiry <= now < single.expiry
    ensures FromCache(lib, [whole, single], k, true, now, true) == WholeHit(Clip(answer, 1, true), true)
    ensures LiveUnder([whole, single], k, IsSingle, now) == Some(single)
  {
    RoundTrip(lib, answer);
    var w, rows := Under(k, DecodableSet(lib)), [whole, single];
    assert w(whole) && !w(single);
    FreshPair(whole, single, w, LiveAt(now));
    FreshPair(whole, single, w, w);
    FreshPair(whole, single, Under(k, IsSingle), LiveAt(now));
  }

  lemma FreshPair<T>(x: T, y: T, wanted: T -> bool, live: T -> bool)
    ensures FreshRow([x, y], wanted, live) ==
            if wanted(x) && live(x) then Some(x) else if wanted(y) && live(y) then Some(y) else None
  {
    assert [x, y] == [] + [x] + [y];
    FreshGrows([], x, wanted, live);
    FreshGrows([] + [x], y, wanted, live);
  }
}
