/** What the lookups serve, said of rows, spellings and times alone (data/lookup_index.go:110-298). */
module Served {
  import opened Options
  import opened Text
  import opened Search
  import opened Records
  import opened RRSetCodec
  import opened LookupIndex
  import opened Cache

  /** `x` is what the library makes of the record's text with that TTL. */
  ghost predicate Parses(lib: Library, rec: DNSRecord, ttl: nat, x: Option<RR>) {
    exists d :: Writes(d, ttl) && x == lib.newRR(rec.name + " " + d + " IN " + rec.rtype + " " + rec.value)
  }

  lemma FormatParses(lib: Library, rec: DNSRecord, ttl: nat)
    ensures Parses(lib, rec, ttl, lib.newRR(Format(rec, ttl)))
  {
    DecimalWrites(ttl);
  }

  // ---- Cached rows ----

  /** The row is for the name and type asked for. */
  predicate Asked(r: CacheRow, qname: string, rtype: string) {
    SameName(r.rec.name, qname) && SameType(r.rec.rtype, rtype)
  }

  /** A row holding a single record, rather than a whole answer behind a marker. */
  function SingleAsked(qname: string, rtype: string): CacheRow -> bool {
    (r: CacheRow) => Asked(r, qname, rtype) && !HasPrefix(r.rec.value, "__RRSET_v1__\n")
  }

  function SetAsked(lib: Library, qname: string, rtype: string): CacheRow -> bool {
    (r: CacheRow) => Asked(r, qname, rtype) && Decode(lib, r.rec.value).Some?
  }

  function LiveToo(p: CacheRow -> bool, now: nat): CacheRow -> bool {
    (r: CacheRow) => p(r) && now < r.expiry
  }

  /** `left` is the number of whole seconds until the row expires, for lifetimes that fit 32 bits. */
  predicate SecondsLeft(r: CacheRow, now: nat, left: nat) {
    now < r.expiry && (r.expiry - now < 0x1_0000_0000 * 1_000_000_000 ==>
                         left * 1_000_000_000 <= r.expiry - now < (left + 1) * 1_000_000_000)
  }

  /** The first live single record with the seconds it has left, else (if allowed) the first expired one with TTL 1. */
  ghost predicate ServesSingle(lib: Library, rows: seq<CacheRow>, qname: string, rtype: string, now: nat,
                               allowStale: bool, s: Single)
  {
    var p := SingleAsked(qname, rtype);
    if !NoneAt(rows, LiveToo(p, now)) then
      !s.stale && exists i, left: nat ::
        FirstAt(rows, LiveToo(p, now), i) && SecondsLeft(rows[i], now, left) && Parses(lib, rows[i].rec, left, s.rr)
    else if allowStale && !NoneAt(rows, p) then
      s.stale && exists i :: FirstAt(rows, p, i) && Parses(lib, rows[i].rec, 1, s.rr)
    else s == Single(None, false)
  }

  lemma SecondsLeftOf(r: CacheRow, now: nat)
    requires now < r.expiry
    ensures SecondsLeft(r, now, RemainingSec(r, now))
  {
    var d := r.expiry - now;
    assert d / SECOND * SECOND <= d < (d / SECOND + 1) * SECOND;
    if d < 0x1_0000_0000 * 1_000_000_000 {
      assert d / SECOND < UINT32;
    }
  }

  lemma {:induction false} FreshIsFirst<T>(rows: seq<T>, wanted: T -> bool, live: T -> bool, p: T -> bool)
    requires forall r <- rows :: p(r) <==> wanted(r) && live(r)
    ensures if NoneAt(rows, p) then FreshRow(rows, wanted, live) == None
            else exists i :: FirstAt(rows, p, i) && FreshRow(rows, wanted, live) == Some(rows[i])
  {
    assert forall i :: 0 <= i < |rows| ==> rows[i] in rows;
    var i := FirstFresh(rows, wanted, live);
    if i >= 0 {
      assert FirstAt(rows, p, i);
    }
  }

  lemma UnderAsked(qname: string, rtype: string, r: CacheRow)
    requires NulFree(qname) && NulFree(rtype)
    ensures RowIdxKey(r) == IdxKey(qname, rtype) <==> Asked(r, qname, rtype)
  {
    KeysCompareParts(qname, rtype, r.rec.name, r.rec.rtype);
    NameKeyIff(r.rec.name, qname);
    NormTypeIff(r.rec.rtype, rtype);
  }

  /** The single-record lookup serves exactly that, for queries without NUL. */
  lemma SingleServed(lib: Library, rows: seq<CacheRow>, qname: string, rtype: string, now: nat, allowStale: bool)
    requires NulFree(qname) && NulFree(rtype)
    ensures ServesSingle(lib, rows, qname, rtype, now, allowStale,
                         SingleAnswer(lib, rows, IdxKey(qname, rtype), now, allowStale))
  {
    var k, p := IdxKey(qname, rtype), SingleAsked(qname, rtype);
    var w := Under(k, IsSingle);
    forall r | r in rows ensures w(r) <==> p(r) {
      UnderAsked(qname, rtype, r);
    }
    FreshIsFirst(rows, w, LiveAt(now), LiveToo(p, now));
    FreshIsFirst(rows, w, w, p);
    if !NoneAt(rows, LiveToo(p, now)) {
      var i :| FirstAt(rows, LiveToo(p, now), i) && FreshRow(rows, w, LiveAt(now)) == Some(rows[i]);
      SecondsLeftOf(rows[i], now);
      FormatParses(lib, rows[i].rec, RemainingSec(rows[i], now));
    } else if allowStale && !NoneAt(rows, p) {
      var i :| FirstAt(rows, p, i) && FreshRow(rows, w, w) == Some(rows[i]);
      FormatParses(lib, rows[i].rec, 1);
    }
  }

  /** The records of `answer` in order with only their TTLs shortened: each to the smaller of its own and `left`, but at
      least 1. */
  predicate Shortens(answer: seq<RR>, out: seq<RR>, left: nat) {
    |out| == |answer| &&
    forall i :: 0 <= i < |answer| ==>
      out[i] == answer[i].(ttl := out[i].ttl) && Shorter(answer[i].ttl, left, out[i].ttl)
  }

  predicate Shorter(own: nat, left: nat, ttl: nat) {
    ttl >= 1 && (ttl == own || ttl == left || (ttl == 1 && (own == 0 || left == 0))) && (ttl <= own || own == 0)
    && (ttl <= left || left == 0)
  }

  /** The records of `answer` in order, each with TTL 1. */
  predicate Expires(answer: seq<RR>, out: seq<RR>) {
    |out| == |answer| && forall i :: 0 <= i < |answer| ==> out[i] == answer[i].(ttl := 1)
  }

  lemma ClipShortens(answer: seq<RR>, left: nat)
    ensures Shortens(answer, Clip(answer, AtLeastOne(left), false), left) && Expires(answer, Clip(answer, 1, true))
  {
  }

  /** The first live decodable whole answer with its TTLs shortened to the time left, else (if allowed) the first
      decodable one with all TTLs 1. */
  ghost predicate ServesWhole(lib: Library, rows: seq<CacheRow>, qname: string, rtype: string, now: nat,
                              allowStale: bool, w: Whole)
  {
    var p := SetAsked(lib, qname, rtype);
    if !NoneAt(rows, LiveToo(p, now)) then
      !w.stale && exists i, left: nat ::
        && FirstAt(rows, LiveToo(p, now), i) && SecondsLeft(rows[i], now, left)
        && Shortens(Decode(lib, rows[i].rec.value).value, w.rrs, left)
    else if allowStale && !NoneAt(rows, p) then
      w.stale && exists i :: FirstAt(rows, p, i) && Expires(Decode(lib, rows[i].rec.value).value, w.rrs)
    else w == Whole([], false)
  }

  lemma WholeServed(lib: Library, rows: seq<CacheRow>, qname: string, rtype: string, now: nat, allowStale: bool)
    requires NulFree(qname) && NulFree(rtype)
    ensures ServesWhole(lib, rows, qname, rtype, now, allowStale,
                        SetAnswer(lib, rows, IdxKey(qname, rtype), now, allowStale))
  {
    var k, p := IdxKey(qname, rtype), SetAsked(lib, qname, rtype);
    var w := Under(k, DecodableSet(lib));
    forall r | r in rows ensures w(r) <==> p(r) {
      UnderAsked(qname, rtype, r);
    }
    FreshIsFirst(rows, w, LiveAt(now), LiveToo(p, now));
    FreshIsFirst(rows, w, w, p);
    if !NoneAt(rows, LiveToo(p, now)) {
      var i :| FirstAt(rows, LiveToo(p, now), i) && FreshRow(rows, w, LiveAt(now)) == Some(rows[i]);
      SecondsLeftOf(rows[i], now);
      ClipShortens(SetRecords(lib, rows[i]), RemainingSec(rows[i], now));
    } else if allowStale && !NoneAt(rows, p) {
      var i :| FirstAt(rows, p, i) && FreshRow(rows, w, w) == Some(rows[i]);
      ClipShortens(SetRecords(lib, rows[i]), 1);
    }
  }

  // ---- Local records ----

  predicate RecordAsked(r: DNSRecord, qname: string, rtype: string) {
    SameName(r.name, qname) && SameType(r.rtype, rtype)
  }

  /** The row matches, and the library makes `x` of it. */
  ghost function Yields(lib: Library, qname: string, rtype: string): (DNSRecord, RR) -> bool {
    (r: DNSRecord, x: RR) => RecordAsked(r, qname, rtype) && Parses(lib, r, r.ttl, Some(x))
  }

  /** The row does not match, or the library rejects it. */
  ghost function Silent(lib: Library, qname: string, rtype: string): DNSRecord -> bool {
    (r: DNSRecord) => RecordAsked(r, qname, rtype) ==> Parses(lib, r, r.ttl, None)
  }

  /** `out` holds, in the order of the table, what the library makes of each matching row, leaving out what it rejects;
      `from` says which rows these are. */
  ghost predicate Lists(lib: Library, rows: seq<DNSRecord>, qname: string, rtype: string, out: seq<RR>, from: seq<nat>)
  {
    Gathers(rows, Yields(lib, qname, rtype), Silent(lib, qname, rtype), out, from)
  }

  ghost predicate ServesLocal(lib: Library, rows: seq<DNSRecord>, qname: string, rtype: string, out: seq<RR>) {
    exists from :: Lists(lib, rows, qname, rtype, out, from)
  }

  lemma {:induction false} AllMatchingServes(lib: Library, rows: seq<DNSRecord>, qname: string, rtype: string)
    returns (from: seq<nat>)
    ensures Lists(lib, rows, qname, rtype, AllMatching(lib, rows, qname, rtype), from)
  {
    from := [];
    if rows != [] {
      var n := |rows| - 1;
      var r := rows[n];
      from := AllMatchingServes(lib, rows[..n], qname, rtype);
      NameKeyIff(r.name, qname);
      NormTypeIff(r.rtype, rtype);
      from := Continued(lib, rows[..n], qname, rtype, AllMatching(lib, rows[..n], qname, rtype), from, r);
      assert rows[..n] + [r] == rows;
    }
  }

  /** One more row. */
  lemma Continued(lib: Library, rows: seq<DNSRecord>, qname: string, rtype: string, out: seq<RR>, before: seq<nat>,
                  r: DNSRecord)
    returns (from: seq<nat>)
    requires Lists(lib, rows, qname, rtype, out, before)
    ensures Lists(lib, rows + [r], qname, rtype,
                  out + (if RecordAsked(r, qname, rtype) then Parsed(lib, r) else []), from)
  {
    var gives, silent := Yields(lib, qname, rtype), Silent(lib, qname, rtype);
    FormatParses(lib, r, r.ttl);
    from := before;
    if RecordAsked(r, qname, rtype) && lib.newRR(Format(r, r.ttl)).Some? {
      var x := lib.newRR(Format(r, r.ttl)).value;
      GathersTake(rows, gives, silent, out, before, r, x);
      from := before + [|rows|];
    } else {
      GathersSkip(rows, gives, silent, out, before, r);
      assert out + [] == out;
    }
  }

  /** The linear search serves that; so does the indexed lookup, for queries without NUL. */
  lemma LocalServed(lib: Library, rows: seq<DNSRecord>, qname: string, rtype: string)
    ensures ServesLocal(lib, rows, qname, rtype, AllMatching(lib, rows, qname, rtype))
    ensures NulFree(qname) && NulFree(rtype) ==>
              ServesLocal(lib, rows, qname, rtype, LocalAnswer(lib, rows, IdxKey(qname, rtype)))
  {
    var from := AllMatchingServes(lib, rows, qname, rtype);
    if NulFree(qname) && NulFree(rtype) {
      LocalLookupIsScan(lib, rows, qname, rtype);
    }
  }

  // ---- The fast path ----

  /** The types whose whole answers are cached. */
  predicate WholeType(rtype: string) {
    SameType(rtype, "A") || SameType(rtype, "AAAA") || SameType(rtype, "HTTPS") || SameType(rtype, "SVCB")
  }

  lemma SetTypeIff(rtype: string)
    ensures SetType(NormType(rtype)) <==> WholeType(rtype)
  {
    KnownTypesNormal();
    TrimSpaceFixed("HTTPS");
    TrimSpaceFixed("SVCB");
    assert Upper("HTTPS") == "HTTPS" && Upper("SVCB") == "SVCB";
    TypeIsIff(rtype, "A");
    TypeIsIff(rtype, "AAAA");
    TypeIsIff(rtype, "HTTPS");
    TypeIsIff(rtype, "SVCB");
  }

  ghost predicate NoLocal(lib: Library, settings: Settings, records: seq<DNSRecord>, qname: string, rtype: string) {
    settings.localEnabled ==> ServesLocal(lib, records, qname, rtype, [])
  }

  ghost predicate NoWhole(lib: Library, rows: seq<CacheRow>, qname: string, rtype: string, now: nat, allowStale: bool) {
    WholeType(rtype) ==> exists stale :: ServesWhole(lib, rows, qname, rtype, now, allowStale, Whole([], stale))
  }

  ghost predicate NoSingle(lib: Library, rows: seq<CacheRow>, qname: string, rtype: string, now: nat, allowStale: bool)
  {
    exists stale :: ServesSingle(lib, rows, qname, rtype, now, allowStale, Single(None, stale))
  }

  /** A whole cached answer for the types that have one, then a single cached record. */
  ghost predicate ServesCached(lib: Library, rows: seq<CacheRow>, qname: string, rtype: string, now: nat,
                               allowStale: bool, f: Fast)
  {
    match f
    case LocalHit(_) => false
    case WholeHit(rrs, stale) =>
      WholeType(rtype) && rrs != [] && ServesWhole(lib, rows, qname, rtype, now, allowStale, Whole(rrs, stale))
    case SingleHit(rr, stale) =>
      && NoWhole(lib, rows, qname, rtype, now, allowStale)
      && ServesSingle(lib, rows, qname, rtype, now, allowStale, Single(Some(rr), stale))
    case NotHandled =>
      NoWhole(lib, rows, qname, rtype, now, allowStale) && NoSingle(lib, rows, qname, rtype, now, allowStale)
  }

  /** Local records come first, then the cache. */
  ghost predicate ServesFast(lib: Library, settings: Settings, records: seq<DNSRecord>, rows: seq<CacheRow>,
                             qname: string, rtype: string, isPTR: bool, now: nat, f: Fast)
  {
    if isPTR then f == NotHandled
    else if f.LocalHit? then
      settings.localEnabled && f.local != [] && ServesLocal(lib, records, qname, rtype, f.local)
    else
      && NoLocal(lib, settings, records, qname, rtype)
      && if settings.cacheEnabled then ServesCached(lib, rows, qname, rtype, now, settings.staleWhileRevalidate, f)
         else f == NotHandled
  }

  lemma {:induction false} NoWholeServed(lib: Library, rows: seq<CacheRow>, qname: string, rtype: string, now: nat,
                                         allowStale: bool)
    requires NulFree(qname) && NulFree(rtype)
    requires WholeType(rtype) ==> SetAnswer(lib, rows, IdxKey(qname, rtype), now, allowStale).rrs == []
    ensures NoWhole(lib, rows, qname, rtype, now, allowStale)
  {
    if WholeType(rtype) {
      var w := SetAnswer(lib, rows, IdxKey(qname, rtype), now, allowStale);
      WholeServed(lib, rows, qname, rtype, now, allowStale);
      assert w == Whole([], w.stale);
    }
  }

  lemma {:induction false} RestServed(lib: Library, rows: seq<CacheRow>, qname: string, rtype: string, now: nat,
                                      allowStale: bool)
    requires NulFree(qname) && NulFree(rtype) && NoWhole(lib, rows, qname, rtype, now, allowStale)
    ensures var s := SingleAnswer(lib, rows, IdxKey(qname, rtype), now, allowStale);
            ServesCached(lib, rows, qname, rtype, now, allowStale,
                         if s.rr.Some? then SingleHit(s.rr.value, s.stale) else NotHandled)
  {
    var s := SingleAnswer(lib, rows, IdxKey(qname, rtype), now, allowStale);
    SingleServed(lib, rows, qname, rtype, now, allowStale);
    assert s == Single(s.rr, s.stale);
  }

  lemma {:induction false} CachedServed(lib: Library, rows: seq<CacheRow>, qname: string, rtype: string, now: nat,
                                        allowStale: bool)
    requires NulFree(qname) && NulFree(rtype)
    ensures ServesCached(lib, rows, qname, rtype, now, allowStale,
                         FromCache(lib, rows, IdxKey(qname, rtype), WholeType(rtype), now, allowStale))
  {
    var w := SetAnswer(lib, rows, IdxKey(qname, rtype), now, allowStale);
    if WholeType(rtype) && w.rrs != [] {
      WholeServed(lib, rows, qname, rtype, now, allowStale);
      assert w == Whole(w.rrs, w.stale);
    } else {
      NoWholeServed(lib, rows, qname, rtype, now, allowStale);
      RestServed(lib, rows, qname, rtype, now, allowStale);
    }
  }

  /** The fast path serves exactly that, for queries without NUL. */
  lemma {:induction false} FastServed(lib: Library, settings: Settings, records: seq<DNSRecord>, rows: seq<CacheRow>,
                                      qname: string, rtype: string, isPTR: bool, now: nat)
    requires NulFree(qname) && NulFree(rtype)
    ensures ServesFast(lib, settings, records, rows, qname, rtype, isPTR, now,
                       TryFast(lib, settings, records, rows, qname, rtype, isPTR, now))
  {
    LocalServed(lib, records, qname, rtype);
    SetTypeIff(rtype);
    CachedServed(lib, rows, qname, rtype, now, settings.staleWhileRevalidate);
  }
}
