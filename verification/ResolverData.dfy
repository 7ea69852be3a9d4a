/** The resolver's in-memory data (data/data.go, data/lookup_index.go, data/cache_compact.go): two row lists, each with
    its index, and every operation that replaces or reads them. */
module ResolverData {
  import opened Options
  import opened Text
  import opened Search
  import opened Records
  import opened RRSetCodec
  import opened LookupIndex
  import opened Cache
  import opened CacheFill
  import opened Served

  class DNSResolverData {
    const lib: Library
    const readOnly: bool
    var settings: Settings
    var rejectLocal: bool
    var dnsRecords: seq<DNSRecord>
    var dnsRecordIdx: Index
    var cacheRecords: seq<CacheRow>
    var cacheRecordIdx: Index
    var clusterSkipNotify: bool
    /** How often the cluster notify callback has been called. */
    var notified: nat

    /** Both indexes agree with their rows. */
    ghost predicate Valid()
      reads this
    {
      IndexFor(dnsRecordIdx, dnsRecords, RecordIdxKey) && IndexFor(cacheRecordIdx, cacheRecords, RowIdxKey)
    }

    constructor (lib: Library, readOnly: bool, settings: Settings, rejectLocal: bool, records: seq<DNSRecord>,
                 cache: seq<CacheRow>)
      ensures Valid() && dnsRecords == records && cacheRecords == cache && !clusterSkipNotify && notified == 0
      ensures this.lib == lib && this.readOnly == readOnly && this.settings == settings
              && this.rejectLocal == rejectLocal
    {
      this.lib, this.readOnly, this.settings, this.rejectLocal := lib, readOnly, settings, rejectLocal;
      dnsRecords, cacheRecords, clusterSkipNotify, notified := records, cache, false, 0;
      new;
      dnsRecordIdx := BuildIndex(records, RecordIdxKey);
      cacheRecordIdx := BuildIndex(cache, RowIdxKey);
    }

    // ---- Local records ----

    /** `saved` says whether writing the records file succeeded. */
    method StoreRecords(records: seq<DNSRecord>, persist: bool, saved: bool)
      requires Valid()
      modifies this`dnsRecords, this`dnsRecordIdx, this`notified
      ensures Valid() && dnsRecords == records
      ensures notified == old(notified) + if persist && saved && !clusterSkipNotify then 1 else 0
    {
      var idx := BuildIndex(records, RecordIdxKey);
      dnsRecords := records;
      dnsRecordIdx := idx;
      if persist {
        if saved && !clusterSkipNotify {
          notified := notified + 1;
        }
      }
    }

    method UpdateRecords(records: seq<DNSRecord>, saved: bool) returns (ok: bool)
      requires Valid()
      modifies this`dnsRecords, this`dnsRecordIdx, this`notified
      ensures Valid() && (ok <==> !rejectLocal && !readOnly)
      ensures dnsRecords == if ok then records else old(dnsRecords)
      ensures notified == old(notified) + if ok && saved && !clusterSkipNotify then 1 else 0
    {
      if rejectLocal || readOnly {
        return false;
      }
      StoreRecords(records, true, saved);
      return true;
    }

    /** Applying a peer's records never calls the notify callback, and leaves the flag down. */
    method ApplyClusterRecords(records: seq<DNSRecord>, saved: bool) returns (ok: bool)
      requires Valid()
      modifies this`dnsRecords, this`dnsRecordIdx, this`notified, this`clusterSkipNotify
      ensures Valid() && (ok <==> !readOnly) && notified == old(notified)
      ensures dnsRecords == if ok then Canonical(records) else old(dnsRecords)
      ensures ok ==> |dnsRecords| == |records| && forall i :: 0 <= i < |records| ==>
                dnsRecords[i] == records[i].(name := TrimDots(TrimSpace(records[i].name)))
      ensures clusterSkipNotify == if ok then false else old(clusterSkipNotify)
    {
      if readOnly {
        return false;
      }
      var rec := records;
      for i := 0 to |rec|
        invariant |rec| == |records| && rec[..i] == Canonical(records)[..i] && rec[i..] == records[i..]
      {
        assert rec[i] == records[i..][0];
        rec := rec[i := rec[i].(name := CanonName(rec[i].name))];
      }
      clusterSkipNotify := true;
      StoreRecords(rec, true, saved);
      clusterSkipNotify := false;
      return true;
    }

    /** lookupLocalNonPTRLocked. */
    method LookupLocalNonPTR(qname: string, rtype: string) returns (out: seq<RR>)
      requires Valid()
      ensures out == LocalAnswer(lib, dnsRecords, IdxKey(qname, rtype))
      ensures NulFree(qname) && NulFree(rtype) ==> ServesLocal(lib, dnsRecords, qname, rtype, out)
    {
      LocalServed(lib, dnsRecords, qname, rtype);
      var k := IdxKey(qname, rtype);
      var ps := Positions(dnsRecordIdx, k);
      assert ps == PositionsBy(dnsRecords, RecordIdxKey, k);
      out := ParseEach(lib, Picked(dnsRecords, ps));
    }

    // ---- The cache ----

    method StoreCacheRecords(rows: seq<CacheRow>)
      requires Valid()
      modifies this`cacheRecords, this`cacheRecordIdx
      ensures Valid() && cacheRecords == rows
    {
      var idx := BuildIndex(rows, RowIdxKey);
      cacheRecords := rows;
      cacheRecordIdx := idx;
    }

    /** cacheUpstreamAnswerAfterSuccess against this store. */
    method CacheAnswer(q: Question, answer: seq<RR>, now: nat)
      requires Valid()
      modifies this`cacheRecords, this`cacheRecordIdx
      ensures Valid()
      ensures cacheRecords ==
              if settings.cacheEnabled
              then Fill(lib, old(cacheRecords), q, answer, Floor(settings.minCacheTTLSeconds), now)
              else old(cacheRecords)
    {
      var rows := CacheUpstreamAnswer(lib, cacheRecords, q, answer, settings.cacheEnabled,
                                      settings.minCacheTTLSeconds, now);
      StoreCacheRecords(rows);
    }

    /** Keeps exactly the rows that have not expired, in order; removed and kept rows add up. */
    method CompactExpiredCacheRecords(now: nat) returns (removed: nat)
      requires Valid()
      modifies this`cacheRecords, this`cacheRecordIdx
      ensures Valid() && cacheRecords == Unexpired(old(cacheRecords), now)
      ensures removed + |cacheRecords| == |old(cacheRecords)|
    {
      var kept;
      kept, removed := DropExpired(cacheRecords, now);
      if removed == 0 {
        AllKept(cacheRecords, now);
        return;
      }
      StoreCacheRecords(kept);
    }

    /** lookupCacheRRLocked. */
    method LookupCacheRR(qname: string, rtype: string, now: nat, stale: bool) returns (s: Single)
      requires Valid()
      ensures s == SingleAnswer(lib, cacheRecords, IdxKey(qname, rtype), now, stale)
      ensures NulFree(qname) && NulFree(rtype) ==> ServesSingle(lib, cacheRecords, qname, rtype, now, stale, s)
    {
      if NulFree(qname) && NulFree(rtype) {
        SingleServed(lib, cacheRecords, qname, rtype, now, stale);
      }
      if |cacheRecords| == 0 {
        return Single(None, false);
      }
      var k := IdxKey(qname, rtype);
      var h := IndexedHit(cacheRecords, cacheRecordIdx, RowIdxKey, k, IsSingle, ByParts(qname, rtype, IsSingle),
                          LiveAt(now), stale, Under(k, IsSingle));
      match h {
        case Miss => return Single(None, false);
        case Fresh(r) => return Single(lib.newRR(Format(r.rec, RemainingSec(r, now))), false);
        case Stale(r) => return Single(lib.newRR(Format(r.rec, 1)), true);
      }
    }

    /** lookupRRSetCacheLocked. */
    method LookupRRSetCache(qname: string, rtype: string, now: nat, stale: bool) returns (w: Whole)
      requires Valid()
      ensures w == if SetType(NormType(rtype)) then SetAnswer(lib, cacheRecords, IdxKey(qname, rtype), now, stale)
              else Whole([], false)
      ensures NulFree(qname) && NulFree(rtype) && WholeType(rtype) ==>
                ServesWhole(lib, cacheRecords, qname, rtype, now, stale, w)
      ensures !WholeType(rtype) ==> w == Whole([], false)
    {
      SetTypeIff(rtype);
      if NulFree(qname) && NulFree(rtype) {
        WholeServed(lib, cacheRecords, qname, rtype, now, stale);
      }
      if !SetType(NormType(rtype)) || |cacheRecords| == 0 {
        return Whole([], false);
      }
      var k := IdxKey(qname, rtype);
      var kind := DecodableSet(lib);
      var h := IndexedHit(cacheRecords, cacheRecordIdx, RowIdxKey, k, kind, ByParts(qname, rtype, kind), LiveAt(now),
                          stale, Under(k, kind));
      match h {
        case Miss => return Whole([], false);
        case Fresh(r) =>
          var rrs := ClipRRSetTTLs(SetRecords(lib, r), AtLeastOne(RemainingSec(r, now)), false);
          return Whole(rrs, false);
        case Stale(r) =>
          var rrs := ClipRRSetTTLs(SetRecords(lib, r), 1, true);
          return Whole(rrs, true);
      }
    }

    method TryFastLocalOrCache(qname: string, rtype: string, qtypePTR: bool, now: nat) returns (f: Fast)
      requires Valid()
      ensures f == TryFast(lib, settings, dnsRecords, cacheRecords, qname, rtype, qtypePTR, now)
      ensures NulFree(qname) && NulFree(rtype) ==>
                ServesFast(lib, settings, dnsRecords, cacheRecords, qname, rtype, qtypePTR, now, f)
    {
      if NulFree(qname) && NulFree(rtype) {
        FastServed(lib, settings, dnsRecords, cacheRecords, qname, rtype, qtypePTR, now);
      }
      if qtypePTR {
        return NotHandled;
      }
      if settings.localEnabled {
        var local := LookupLocalNonPTR(qname, rtype);
        if |local| > 0 {
          return LocalHit(local);
        }
      }
      if !settings.cacheEnabled {
        return NotHandled;
      }
      var w := LookupRRSetCache(qname, rtype, now, settings.staleWhileRevalidate);
      if |w.rrs| > 0 {
        return WholeHit(w.rrs, w.stale);
      }
      var s := LookupCacheRR(qname, rtype, now, settings.staleWhileRevalidate);
      match s.rr {
        case None => return NotHandled;
        case Some(rr) => return SingleHit(rr, s.stale);
      }
    }
  }

  method DropExpired(rows: seq<CacheRow>, now: nat) returns (kept: seq<CacheRow>, removed: nat)
    ensures kept == Unexpired(rows, now) && removed + |kept| == |rows|
  {
    kept, removed := [], 0;
    for i := 0 to |rows|
      invariant kept == Unexpired(rows[..i], now) && removed + |kept| == i
    {
      assert rows[..i + 1][..i] == rows[..i];
      var cr := rows[i];
      if cr.expiry == 0 || !(now < cr.expiry) {
        removed := removed + 1;
      } else {
        kept := kept + [cr];
      }
    }
    assert rows[..|rows|] == rows;
  }

  /** Parses local rows one by one, leaving out those the library rejects. */
  method ParseEach(lib: Library, recs: seq<DNSRecord>) returns (out: seq<RR>)
    ensures out == ParsedAll(lib, recs)
  {
    out := [];
    for i := 0 to |recs|
      invariant out == ParsedAll(lib, recs[..i])
    {
      assert recs[..i + 1][..i] == recs[..i];
      match lib.newRR(Format(recs[i], recs[i].ttl)) {
        case None => assert out + [] == out;
        case Some(rr) => out := out + [rr];
      }
    }
    assert recs[..|recs|] == recs;
  }

  lemma {:induction false} AllKept(rows: seq<CacheRow>, now: nat)
    requires |Unexpired(rows, now)| == |rows|
    ensures Unexpired(rows, now) == rows
  {
    if rows != [] {
      var head := rows[..|rows| - 1];
      assert |Unexpired(head, now)| <= |head|;
      AllKept(head, now);
      assert rows == head + [rows[|rows| - 1]];
    }
  }

  /** dnsrecords.FindAllRecords for types other than PTR. */
  method FindAllRecords(lib: Library, rows: seq<DNSRecord>, qname: string, rtype: string) returns (out: seq<RR>)
    ensures out == AllMatching(lib, rows, qname, rtype)
    ensures ServesLocal(lib, rows, qname, rtype, out)
  {
    LocalServed(lib, rows, qname, rtype);
    out := [];
    for i := 0 to |rows|
      invariant out == AllMatching(lib, rows[..i], qname, rtype)
    {
      assert rows[..i + 1][..i] == rows[..i];
      var r := rows[i];
      if NameKey(r.name) == NameKey(qname) && NormType(r.rtype) == NormType(rtype) {
        match lib.newRR(Format(r, r.ttl)) {
          case None => assert out + [] == out;
          case Some(rr) => out := out + [rr];
        }
      } else {
        assert out + [] == out;
      }
    }
    assert rows[..|rows|] == rows;
  }
}
