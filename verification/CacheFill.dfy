/** Filling the cache with answers (dnsrecordcache/dnsrecordcache.go and the fillers of resolver/resolver.go). */
module CacheFill {
  import opened Search
  import opened Safecast
  import opened Records
  import opened RRSetCodec
  import opened LookupIndex
  import opened Cache

  datatype Question = Question(name: string, qtype: string)

  /** Name, type and value exactly as stored. */
  datatype Exact = Exact(name: string, rtype: string, value: string)

  function ExactKey(r: CacheRow): Exact {
    Exact(r.rec.name, r.rec.rtype, r.rec.value)
  }

  function WireKey(rr: RR): Exact {
    Exact(rr.name, rr.rtype, rr.value)
  }

  /** Normalised name and stored type: what identifies a whole-answer row. */
  datatype SetId = SetId(name: string, rtype: string, isSet: bool)

  function SetKey(r: CacheRow): SetId {
    SetId(NameKey(r.rec.name), r.rec.rtype, IsSet(r))
  }

  function QuestionKey(q: Question): SetId {
    SetId(NameKey(q.name), q.qtype, true)
  }

  function CachedRecord(name: string, rtype: string, value: string, ttl: nat): DNSRecord {
    DNSRecord("", name, rtype, value, ttl, 0, 0, "", false, 0)
  }

  /** The configured floor; a setting of 0 means 600 seconds, a negative one means none. */
  function Floor(minCacheTTLSeconds: int): nat {
    if minCacheTTLSeconds == 0 then 600 else IntToUint32Clamp(minCacheTTLSeconds)
  }

  function Floored(ttl: nat, floor: nat): nat {
    if floor > 0 && ttl < floor then floor else ttl
  }

  // ---- Single rows ----

  function AddRow(rows: seq<CacheRow>, rr: RR, floor: nat, now: nat): seq<CacheRow> {
    var ttl := Floored(rr.ttl, floor);
    var expiry := now + ttl * SECOND;
    var i := IndexBy(rows, ExactKey, WireKey(rr));
    if i >= 0 then rows[i := rows[i].(rec := rows[i].rec.(ttl := ttl), expiry := expiry, lastQuery := now)]
    else rows + [CacheRow(CachedRecord(rr.name, rr.rtype, rr.value, ttl), expiry, now, now)]
  }

  function AddRows(rows: seq<CacheRow>, rrs: seq<RR>, floor: nat, now: nat): seq<CacheRow> {
    if rrs == [] then rows else AddRow(AddRows(rows, rrs[..|rrs| - 1], floor, now), rrs[|rrs| - 1], floor, now)
  }

  /** The row is for this very record: same name, type and value as written. */
  function Holding(rr: RR): CacheRow -> bool {
    (r: CacheRow) => r.rec.name == rr.name && r.rec.rtype == rr.rtype && r.rec.value == rr.value
  }

  /** The lifetime of a record: its own TTL, or the floor if that is longer. */
  predicate Lifetime(ttl: nat, own: nat, floor: nat) {
    ttl >= own && ttl >= floor && (ttl == own || ttl == floor)
  }

  /** A row for the record that lives from `now` for its lifetime. */
  predicate LivesFrom(r: CacheRow, rr: RR, floor: nat, now: nat) {
    Holding(rr)(r) && Lifetime(r.rec.ttl, rr.ttl, floor) && r.expiry == now + r.rec.ttl * 1_000_000_000
  }

  /** The fields that a cached record does not use. */
  predicate Bare(rec: DNSRecord) {
    rec.id == "" && rec.addedOn == rec.updatedOn == rec.lastQuery == 0 && rec.mac == "" && !rec.cacheRecord
  }

  /** `x` is `prior` with a new lifetime: nothing else of it changes but the time of its last use. */
  predicate Renews(prior: CacheRow, x: CacheRow, now: nat) {
    x == prior.(rec := prior.rec.(ttl := x.rec.ttl), expiry := x.expiry, lastQuery := now)
  }

  /** The first row for the record is renewed in place; without one a row is appended. Every other row stays. */
  ghost predicate Caches(rows: seq<CacheRow>, rr: RR, floor: nat, now: nat, out: seq<CacheRow>) {
    exists i: nat, x :: With(rows, i, x, out) && LivesFrom(x, rr, floor, now)
      && (if i < |rows| then FirstAt(rows, Holding(rr), i) && Renews(rows[i], x, now)
          else NoneAt(rows, Holding(rr)) && x.timestamp == x.lastQuery == now && Bare(x.rec))
  }

  lemma AddRowCaches(rows: seq<CacheRow>, rr: RR, floor: nat, now: nat)
    ensures Caches(rows, rr, floor, now, AddRow(rows, rr, floor, now))
  {
    var out := AddRow(rows, rr, floor, now);
    var i := IndexBy(rows, ExactKey, WireKey(rr));
    IndexIsFirst(rows, ExactKey, WireKey(rr), Holding(rr));
    var at := if i >= 0 then i else |rows|;
    assert With(rows, at, out[at], out) && LivesFrom(out[at], rr, floor, now);
  }

  /** dnsrecordcache.Add. */
  method Add(rows: seq<CacheRow>, rr: RR, minTTL: nat, now: nat) returns (out: seq<CacheRow>)
    ensures out == AddRow(rows, rr, minTTL, now)
    ensures Caches(rows, rr, minTTL, now, out)
  {
    AddRowCaches(rows, rr, minTTL, now);
    out := rows;
    var ttl := rr.ttl;
    if minTTL > 0 && ttl < minTTL {
      ttl := minTTL;
    }
    var row := CacheRow(CachedRecord(rr.name, rr.rtype, rr.value, ttl), now + ttl * SECOND, now, now);
    var i := FindBy(rows, ExactKey, ExactKey(row));
    if i != -1 {
      out := out[i := out[i].(rec := out[i].rec.(ttl := ttl), expiry := row.expiry, lastQuery := now)];
    } else {
      out := out + [row];
    }
  }

  /** cacheDNSResponse. */
  method CacheDNSResponse(rows: seq<CacheRow>, rrs: seq<RR>, cacheEnabled: bool, minCacheTTLSeconds: int, now: nat)
    returns (out: seq<CacheRow>)
    ensures out == if cacheEnabled then AddRows(rows, rrs, Floor(minCacheTTLSeconds), now) else rows
  {
    out := rows;
    if |rrs| == 0 || !cacheEnabled {
      return;
    }
    var minTTL := IntToUint32Clamp(minCacheTTLSeconds);
    if minCacheTTLSeconds == 0 {
      minTTL := 600;
    }
    for i := 0 to |rrs|
      invariant out == AddRows(rows, rrs[..i], minTTL, now)
    {
      assert rrs[..i + 1][..i] == rrs[..i];
      out := Add(out, rrs[i], minTTL, now);
    }
    assert rrs[..|rrs|] == rrs;
  }

  // ---- Whole answers ----

  predicate ShouldCacheRRSet(q: Question, answer: seq<RR>) {
    SetType(q.qtype) && answer != [] && (|answer| > 1 || answer[0].rtype == "CNAME")
  }

  /** The TTL loop of cacheSyntheticRRSetAnswer: zero is taken for "not set yet". */
  function FoldTTL(answer: seq<RR>): nat {
    if answer == [] then 0
    else
      var ttl, t := FoldTTL(answer[..|answer| - 1]), answer[|answer| - 1].ttl;
      if ttl == 0 || t < ttl then t else ttl
  }

  function SetTTL(answer: seq<RR>, floor: nat): nat {
    var ttl := FoldTTL(answer);
    Floored(if ttl == 0 then floor else ttl, floor)
  }

  /** Replaces the first row of the set `k`, keeping its creation time, or appends `cr`. */
  function PutSet(rows: seq<CacheRow>, k: SetId, cr: CacheRow): seq<CacheRow> {
    var i := IndexBy(rows, SetKey, k);
    if i >= 0 then rows[i := cr.(timestamp := rows[i].timestamp)] else rows + [cr]
  }

  function SetRow(lib: Library, q: Question, answer: seq<RR>, floor: nat, now: nat): CacheRow {
    var ttl := SetTTL(answer, floor);
    CacheRow(CachedRecord(q.name, q.qtype, Encode(lib, answer), ttl), now + ttl * SECOND, now, now)
  }

  function AddSet(lib: Library, rows: seq<CacheRow>, q: Question, answer: seq<RR>, floor: nat,
                  now: nat): seq<CacheRow> {
    PutSet(rows, QuestionKey(q), SetRow(lib, q, answer, floor, now))
  }

  /** The row holds a whole answer for the question's name, in any spelling, and type. */
  function SetFor(q: Question): CacheRow -> bool {
    (r: CacheRow) => SameName(r.rec.name, q.name) && r.rec.rtype == q.qtype && IsSet(r)
  }

  /** A row that holds the encoded answer and lives from `now` for `ttl` seconds. */
  predicate HoldsAnswer(lib: Library, r: CacheRow, q: Question, answer: seq<RR>, ttl: nat, now: nat) {
    && r.rec.name == q.name && r.rec.rtype == q.qtype && r.rec.value == Encode(lib, answer) && r.rec.ttl == ttl
    && r.expiry == now + ttl * 1_000_000_000 && r.lastQuery == now && Bare(r.rec)
  }

  /** The answer takes the place of the first whole answer for the question and keeps its creation time; without one
      it is appended. Every other row stays. */
  ghost predicate CachesWhole(lib: Library, rows: seq<CacheRow>, q: Question, answer: seq<RR>, ttl: nat, now: nat,
                              out: seq<CacheRow>) {
    exists i: nat, x :: With(rows, i, x, out) && HoldsAnswer(lib, x, q, answer, ttl, now)
      && (if i < |rows| then FirstAt(rows, SetFor(q), i) && x.timestamp == rows[i].timestamp
          else NoneAt(rows, SetFor(q)) && x.timestamp == now)
  }

  lemma SetKeyIff(rows: seq<CacheRow>, q: Question)
    ensures forall r <- rows :: SetKey(r) == QuestionKey(q) <==> SetFor(q)(r)
  {
    forall r | r in rows ensures SetKey(r) == QuestionKey(q) <==> SetFor(q)(r) {
      NameKeyIff(r.rec.name, q.name);
    }
  }

  lemma AddSetCaches(lib: Library, rows: seq<CacheRow>, q: Question, answer: seq<RR>, floor: nat, now: nat)
    ensures CachesWhole(lib, rows, q, answer, SetTTL(answer, floor), now, AddSet(lib, rows, q, answer, floor, now))
  {
    var out := AddSet(lib, rows, q, answer, floor, now);
    var i := IndexBy(rows, SetKey, QuestionKey(q));
    SetKeyIff(rows, q);
    IndexIsFirst(rows, SetKey, QuestionKey(q), SetFor(q));
    var at := if i >= 0 then i else |rows|;
    assert With(rows, at, out[at], out) && HoldsAnswer(lib, out[at], q, answer, SetTTL(answer, floor), now);
  }

  method StoreSet(rows: seq<CacheRow>, k: SetId, cr: CacheRow) returns (out: seq<CacheRow>)
    ensures out == PutSet(rows, k, cr)
  {
    out := rows;
    var i := FindBy(rows, SetKey, k);
    if i >= 0 {
      out := out[i := out[i].(rec := cr.rec, expiry := cr.expiry, lastQuery := cr.lastQuery)];
    } else {
      out := out + [cr];
    }
  }

  method AnswerTTL(answer: seq<RR>, minTTL: nat) returns (ttl: nat)
    ensures ttl == SetTTL(answer, minTTL)
  {
    ttl := 0;
    for i := 0 to |answer|
      invariant ttl == FoldTTL(answer[..i])
    {
      assert answer[..i + 1][..i] == answer[..i];
      var t := answer[i].ttl;
      if ttl == 0 || t < ttl {
        ttl := t;
      }
    }
    assert answer[..|answer|] == answer;
    if ttl == 0 {
      ttl := minTTL;
    }
    if minTTL > 0 && ttl < minTTL {
      ttl := minTTL;
    }
  }

  method CacheSyntheticRRSetAnswer(lib: Library, rows: seq<CacheRow>, q: Question, answer: seq<RR>, cacheEnabled: bool,
                                   minCacheTTLSeconds: int, now: nat) returns (out: seq<CacheRow>)
    ensures out == if cacheEnabled && answer != [] then AddSet(lib, rows, q, answer, Floor(minCacheTTLSeconds), now)
            else rows
    ensures cacheEnabled && answer != [] ==>
              CachesWhole(lib, rows, q, answer, SetTTL(answer, Floor(minCacheTTLSeconds)), now, out)
  {
    AddSetCaches(lib, rows, q, answer, Floor(minCacheTTLSeconds), now);
    out := rows;
    if |answer| == 0 || !cacheEnabled {
      return;
    }
    var minTTL := IntToUint32Clamp(minCacheTTLSeconds);
    if minCacheTTLSeconds == 0 {
      minTTL := 600;
    }
    var ttl := AnswerTTL(answer, minTTL);
    var value := BuildRRSetCacheValue(lib, answer);
    var cr := CacheRow(CachedRecord(q.name, q.qtype, value, ttl), now + ttl * SECOND, now, now);
    assert cr == SetRow(lib, q, answer, Floor(minCacheTTLSeconds), now);
    out := StoreSet(rows, QuestionKey(q), cr);
  }

  /** cacheUpstreamAnswerAfterSuccess. */
  function Fill(lib: Library, rows: seq<CacheRow>, q: Question, answer: seq<RR>, floor: nat, now: nat): seq<CacheRow> {
    var singles := AddRows(rows, answer, floor, now);
    if ShouldCacheRRSet(q, answer) then AddSet(lib, singles, q, answer, floor, now) else singles
  }

  method CacheUpstreamAnswer(lib: Library, rows: seq<CacheRow>, q: Question, answer: seq<RR>, cacheEnabled: bool,
                             minCacheTTLSeconds: int, now: nat) returns (out: seq<CacheRow>)
    ensures out == if cacheEnabled then Fill(lib, rows, q, answer, Floor(minCacheTTLSeconds), now) else rows
  {
    out := CacheDNSResponse(rows, answer, cacheEnabled, minCacheTTLSeconds, now);
    if ShouldCacheRRSet(q, answer) {
      out := CacheSyntheticRRSetAnswer(lib, out, q, answer, cacheEnabled, minCacheTTLSeconds, now);
    }
  }

  // ---- The TTL loop is a minimum exactly when a zero is absent or last ----

  function MinTTL(answer: seq<RR>): (m: nat)
    requires answer != []
    ensures forall rr <- answer :: m <= rr.ttl
    ensures exists rr <- answer :: m == rr.ttl
  {
    if |answer| == 1 then assert answer == [answer[0]]; answer[0].ttl
    else
      var head, last := answer[..|answer| - 1], answer[|answer| - 1];
      assert answer == head + [last];
      if MinTTL(head) <= last.ttl then
        var w :| w in head && MinTTL(head) == w.ttl;
        assert w in answer;
        MinTTL(head)
      else last.ttl
  }

  /** The loop finds the minimum exactly when no TTL is zero or the last one is. */
  lemma {:induction false} FoldTTLIsMinIff(answer: seq<RR>)
    requires answer != []
    ensures FoldTTL(answer) == 0 <==> answer[|answer| - 1].ttl == 0
    ensures FoldTTL(answer) == MinTTL(answer) <==>
            (forall rr <- answer :: rr.ttl > 0) || answer[|answer| - 1].ttl == 0
  {
    var n := |answer| - 1;
    var head, last := answer[..n], answer[n];
    assert answer == head + [last];
    if n > 0 {
      FoldTTLIsMinIff(head);
      assert head[n - 1] in head;
    }
  }

  /** The loop's result: the smallest TTL since the last zero, and zero if that comes last. */
  lemma {:induction false} FoldTTLMeaning(answer: seq<RR>) returns (k: nat)
    requires answer != []
    ensures k <= |answer| && (k > 0 ==> answer[k - 1].ttl == 0) && forall i :: k <= i < |answer| ==> answer[i].ttl > 0
    ensures k == |answer| ==> FoldTTL(answer) == 0
    ensures forall i :: k <= i < |answer| ==> FoldTTL(answer) <= answer[i].ttl
    ensures k < |answer| ==> exists i :: k <= i < |answer| && FoldTTL(answer) == answer[i].ttl
  {
    var n := |answer| - 1;
    if answer[n].ttl == 0 {
      k := |answer|;
    } else if n == 0 {
      k := 0;
      assert answer[..0] == [];
    } else {
      k := FoldTTLMeaning(answer[..n]);
      assert forall i :: 0 <= i < n ==> answer[..n][i] == answer[i];
      if k < n {
        var i :| k <= i < n && FoldTTL(answer[..n]) == answer[..n][i].ttl;
        assert FoldTTL(answer) == answer[i].ttl || FoldTTL(answer) == answer[n].ttl;
      } else {
        assert FoldTTL(answer) == answer[n].ttl;
      }
    }
  }

  /** What a whole answer is stored for: that TTL, or the floor if that is longer. */
  lemma SetTTLMeaning(answer: seq<RR>, floor: nat)
    ensures Lifetime(SetTTL(answer, floor), FoldTTL(answer), floor)
  {
  }

  /** The configured floor. The setting 0 means ten minutes, not "none"; a negative one means none. */
  lemma FloorMeaning(minCacheTTLSeconds: int)
    ensures minCacheTTLSeconds < 0 ==> Floor(minCacheTTLSeconds) == 0
    ensures minCacheTTLSeconds == 0 ==> Floor(minCacheTTLSeconds) == 10 * 60
    ensures 0 < minCacheTTLSeconds < 0x1_0000_0000 ==> Floor(minCacheTTLSeconds) == minCacheTTLSeconds
    ensures minCacheTTLSeconds >= 0x1_0000_0000 ==> Floor(minCacheTTLSeconds) == 0xFFFF_FFFF
  {
  }

  /** The TTL a whole answer is stored with is its smallest one, floored, exactly when the loop finds the minimum or the
      floor hides the difference. */
  lemma SetTTLIsMinIff(answer: seq<RR>, floor: nat)
    requires answer != []
    ensures SetTTL(answer, floor) == (if MinTTL(answer) < floor then floor else MinTTL(answer)) <==>
            || (forall rr <- answer :: rr.ttl > 0)
            || answer[|answer| - 1].ttl == 0
            || FoldTTL(answer) <= floor
  {
    FoldTTLIsMinIff(answer);
    FoldAboveMin(answer);
  }

  lemma {:induction false} FoldAboveMin(answer: seq<RR>)
    requires answer != []
    ensures MinTTL(answer) <= FoldTTL(answer)
  {
    var n := |answer| - 1;
    assert answer == answer[..n] + [answer[n]];
    if n > 0 {
      FoldAboveMin(answer[..n]);
    }
  }

  /** A zero before a positive TTL is forgotten. */
  lemma LeadingZeroForgotten(a: RR, b: RR)
    requires a.ttl == 0 < b.ttl
    ensures FoldTTL([a, b]) == b.ttl > MinTTL([a, b]) == 0
  {
    assert [a, b][..1] == [a] && [a][..0] == [];
    FoldTTLIsMinIff([a, b]);
    assert a in [a, b];
  }
}
