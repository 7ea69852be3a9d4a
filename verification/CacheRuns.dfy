/** What every run of cache fills and compactions keeps, and what a later lookup sees. */
module CacheRuns {
  import opened Options
  import opened Text
  import opened Search
  import opened Records
  import opened RRSetCodec
  import opened LookupIndex
  import opened Cache
  import opened CacheFill
  import opened Served

  predicate AnyRow(r: CacheRow) {
    true
  }

  /** No two rows with the same exact name, type and value; one whole-answer row per normalised name and type. */
  ghost predicate Tidy(rows: seq<CacheRow>) {
    && DistinctBy(rows, AnyRow, ExactKey)
    && DistinctBy(rows, IsSet, SetKey)
    && forall r <- rows :: IsSet(r) ==> SetType(r.rec.rtype)
  }

  /** Record values as they come off the wire never start with the marker of whole-answer rows. */
  predicate Wire(answer: seq<RR>) {
    forall rr <- answer :: !IsRRSet(rr.value)
  }

  /** Rows stay in place and keep what identifies them. */
  ghost predicate KeepsKeys(rows: seq<CacheRow>, out: seq<CacheRow>) {
    |rows| <= |out| &&
    forall i :: 0 <= i < |rows| ==>
      SetKey(out[i]) == SetKey(rows[i]) && (IsSingle(rows[i]) ==> ExactKey(out[i]) == ExactKey(rows[i]))
  }

  /** Every row is untouched or has been given an expiry of at least `until`. */
  ghost predicate Written(rows: seq<CacheRow>, out: seq<CacheRow>, until: nat) {
    |rows| <= |out| && forall i :: 0 <= i < |out| ==> (i < |rows| && out[i] == rows[i]) || out[i].expiry >= until
  }

  // ---- One row ----

  lemma AddRowTidy(rows: seq<CacheRow>, rr: RR, floor: nat, now: nat)
    requires Tidy(rows) && !IsRRSet(rr.value)
    ensures Tidy(AddRow(rows, rr, floor, now))
  {
    var out := AddRow(rows, rr, floor, now);
    var i := IndexBy(rows, ExactKey, WireKey(rr));
    if i >= 0 {
      assert ExactKey(out[i]) == ExactKey(rows[i]) && SetKey(out[i]) == SetKey(rows[i]);
      DistinctUpdate(rows, AnyRow, ExactKey, i, out[i]);
      DistinctUpdate(rows, IsSet, SetKey, i, out[i]);
    } else {
      DistinctAppend(rows, AnyRow, ExactKey, out[|rows|]);
      DistinctAppend(rows, IsSet, SetKey, out[|rows|]);
    }
  }

  lemma AddRowEffect(rows: seq<CacheRow>, rr: RR, floor: nat, now: nat)
    ensures Written(rows, AddRow(rows, rr, floor, now), now + floor * SECOND)
    ensures KeepsKeys(rows, AddRow(rows, rr, floor, now))
    ensures IndexBy(AddRow(rows, rr, floor, now), ExactKey, WireKey(rr)) >= 0
    ensures |AddRow(rows, rr, floor, now)| == |rows| + if IndexBy(rows, ExactKey, WireKey(rr)) >= 0 then 0 else 1
  {
    var out, ttl := AddRow(rows, rr, floor, now), Floored(rr.ttl, floor);
    assert ttl * SECOND >= floor * SECOND;
    var i := IndexBy(rows, ExactKey, WireKey(rr));
    var at := if i >= 0 then i else |rows|;
    assert ExactKey(out[at]) == WireKey(rr);
  }

  lemma SetRowIsSet(lib: Library, q: Question, answer: seq<RR>, floor: nat, now: nat)
    ensures SetKey(SetRow(lib, q, answer, floor, now)) == QuestionKey(q)
  {
    assert Encode(lib, answer)[..|RRSET_PREFIX|] == RRSET_PREFIX;
  }

  /** Storing a whole answer, seen abstractly: the row's key is the question's. */
  lemma PutSetTidy(rows: seq<CacheRow>, k: SetId, cr: CacheRow)
    requires Tidy(rows) && SetKey(cr) == k && k.isSet && SetType(k.rtype)
    ensures Tidy(PutSet(rows, k, cr))
  {
    var out := PutSet(rows, k, cr);
    var i := IndexBy(rows, SetKey, k);
    assert forall r <- rows :: SetKey(r) != k ==> ExactKey(r) != ExactKey(cr);
    if i >= 0 {
      var x := out[i];
      assert SetKey(x) == k && ExactKey(x) == ExactKey(cr);
      DistinctUpdate(rows, IsSet, SetKey, i, x);
      DistinctUpdate(rows, AnyRow, ExactKey, i, x);
    } else {
      DistinctAppend(rows, AnyRow, ExactKey, cr);
      DistinctAppend(rows, IsSet, SetKey, cr);
    }
  }

  lemma PutSetEffect(rows: seq<CacheRow>, k: SetId, cr: CacheRow)
    requires SetKey(cr) == k && k.isSet
    ensures Written(rows, PutSet(rows, k, cr), cr.expiry)
    ensures KeepsKeys(rows, PutSet(rows, k, cr))
    ensures |PutSet(rows, k, cr)| == |rows| + if IndexBy(rows, SetKey, k) >= 0 then 0 else 1
    ensures IndexBy(PutSet(rows, k, cr), SetKey, k) >= 0
  {
    var i := IndexBy(rows, SetKey, k);
    var at := if i >= 0 then i else |rows|;
    assert SetKey(PutSet(rows, k, cr)[at]) == k;
  }

  // ---- One fill ----

  lemma {:induction false} AddRowsFacts(rows: seq<CacheRow>, rrs: seq<RR>, floor: nat, now: nat)
    ensures Tidy(rows) && Wire(rrs) ==> Tidy(AddRows(rows, rrs, floor, now))
    ensures Written(rows, AddRows(rows, rrs, floor, now), now + floor * SECOND)
    ensures KeepsKeys(rows, AddRows(rows, rrs, floor, now))
  {
    if rrs != [] {
      var head, last := rrs[..|rrs| - 1], rrs[|rrs| - 1];
      AddRowsFacts(rows, head, floor, now);
      var mid := AddRows(rows, head, floor, now);
      AddRowEffect(mid, last, floor, now);
      if Tidy(rows) && Wire(rrs) {
        AddRowTidy(mid, last, floor, now);
      }
    }
  }

  lemma SetTTLFloor(answer: seq<RR>, floor: nat)
    ensures SetTTL(answer, floor) >= floor
  {
  }

  /** A fill keeps the cache tidy, gives every row it writes at least the floor's lifetime, and leaves the others
      alone. */
  lemma FillFacts(lib: Library, rows: seq<CacheRow>, q: Question, answer: seq<RR>, floor: nat, now: nat)
    ensures Tidy(rows) && Wire(answer) ==> Tidy(Fill(lib, rows, q, answer, floor, now))
    ensures Written(rows, Fill(lib, rows, q, answer, floor, now), now + floor * SECOND)
    ensures KeepsKeys(rows, Fill(lib, rows, q, answer, floor, now))
  {
    AddRowsFacts(rows, answer, floor, now);
    if ShouldCacheRRSet(q, answer) {
      var mid := AddRows(rows, answer, floor, now);
      AddSetFacts(lib, mid, q, answer, floor, now);
      Compose(rows, mid, AddSet(lib, mid, q, answer, floor, now), now + floor * SECOND);
    }
  }

  lemma AddSetFacts(lib: Library, rows: seq<CacheRow>, q: Question, answer: seq<RR>, floor: nat, now: nat)
    requires ShouldCacheRRSet(q, answer)
    ensures Tidy(rows) ==> Tidy(AddSet(lib, rows, q, answer, floor, now))
    ensures Written(rows, AddSet(lib, rows, q, answer, floor, now), now + floor * SECOND)
    ensures KeepsKeys(rows, AddSet(lib, rows, q, answer, floor, now))
  {
    var k, cr := QuestionKey(q), SetRow(lib, q, answer, floor, now);
    SetRowIsSet(lib, q, answer, floor, now);
    SetTTLFloor(answer, floor);
    PutSetEffect(rows, k, cr);
    WrittenWeaker(rows, PutSet(rows, k, cr), cr.expiry, now + floor * SECOND);
    if Tidy(rows) {
      PutSetTidy(rows, k, cr);
    }
  }

  lemma WrittenWeaker(rows: seq<CacheRow>, out: seq<CacheRow>, until: nat, sooner: nat)
    requires Written(rows, out, until) && sooner <= until
    ensures Written(rows, out, sooner)
  {
  }

  lemma Compose(a: seq<CacheRow>, b: seq<CacheRow>, c: seq<CacheRow>, until: nat)
    requires Written(a, b, until) && Written(b, c, until) && KeepsKeys(a, b) && KeepsKeys(b, c)
    ensures Written(a, c, until) && KeepsKeys(a, c)
  {
  }

  // ---- What a fill leaves behind, and for how long ----

  /** Everything a fill would write has a row that lives at least until `until`. */
  ghost predicate CoversUntil(rows: seq<CacheRow>, q: Question, answer: seq<RR>, until: nat) {
    && AllUntil(rows, answer, until)
    && (ShouldCacheRRSet(q, answer) ==> SetUntil(rows, QuestionKey(q), until))
  }

  ghost predicate RowUntil(rows: seq<CacheRow>, k: Exact, until: nat) {
    exists i :: 0 <= i < |rows| && ExactKey(rows[i]) == k && rows[i].expiry >= until
  }

  ghost predicate AllUntil(rows: seq<CacheRow>, rrs: seq<RR>, until: nat) {
    forall rr <- rrs :: RowUntil(rows, WireKey(rr), until)
  }

  ghost predicate SetUntil(rows: seq<CacheRow>, k: SetId, until: nat) {
    exists i :: 0 <= i < |rows| && SetKey(rows[i]) == k && rows[i].expiry >= until
  }

  lemma RowUntilPersists(rows: seq<CacheRow>, out: seq<CacheRow>, rr: RR, until: nat)
    requires KeepsKeys(rows, out) && Written(rows, out, until) && !IsRRSet(rr.value)
             && RowUntil(rows, WireKey(rr), until)
    ensures RowUntil(out, WireKey(rr), until)
  {
    var i :| 0 <= i < |rows| && ExactKey(rows[i]) == WireKey(rr) && rows[i].expiry >= until;
    assert IsSingle(rows[i]) && ExactKey(out[i]) == WireKey(rr);
  }

  lemma AllUntilPersists(rows: seq<CacheRow>, out: seq<CacheRow>, rrs: seq<RR>, until: nat)
    requires KeepsKeys(rows, out) && Written(rows, out, until) && Wire(rrs) && AllUntil(rows, rrs, until)
    ensures AllUntil(out, rrs, until)
  {
    forall rr | rr in rrs ensures RowUntil(out, WireKey(rr), until) {
      RowUntilPersists(rows, out, rr, until);
    }
  }

  lemma SetUntilPersists(rows: seq<CacheRow>, out: seq<CacheRow>, k: SetId, until: nat)
    requires KeepsKeys(rows, out) && Written(rows, out, until) && SetUntil(rows, k, until)
    ensures SetUntil(out, k, until)
  {
    var i :| 0 <= i < |rows| && SetKey(rows[i]) == k && rows[i].expiry >= until;
    assert SetKey(out[i]) == k;
  }

  lemma {:induction false} AddRowsUntil(rows: seq<CacheRow>, rrs: seq<RR>, floor: nat, now: nat)
    requires Wire(rrs)
    ensures AllUntil(AddRows(rows, rrs, floor, now), rrs, now + floor * SECOND)
  {
    if rrs != [] {
      var head, last := rrs[..|rrs| - 1], rrs[|rrs| - 1];
      var mid := AddRows(rows, head, floor, now);
      AddRowsUntil(rows, head, floor, now);
      AddRowEffect(mid, last, floor, now);
      AllUntilPersists(mid, AddRow(mid, last, floor, now), head, now + floor * SECOND);
      AddRowUntil(mid, last, floor, now);
      AllUntilGrows(AddRow(mid, last, floor, now), rrs, now + floor * SECOND);
    }
  }

  lemma AllUntilGrows(rows: seq<CacheRow>, rrs: seq<RR>, until: nat)
    requires rrs != [] && AllUntil(rows, rrs[..|rrs| - 1], until) && RowUntil(rows, WireKey(rrs[|rrs| - 1]), until)
    ensures AllUntil(rows, rrs, until)
  {
    assert rrs == rrs[..|rrs| - 1] + [rrs[|rrs| - 1]];
  }

  lemma AddRowUntil(rows: seq<CacheRow>, rr: RR, floor: nat, now: nat)
    ensures RowUntil(AddRow(rows, rr, floor, now), WireKey(rr), now + floor * SECOND)
  {
    var i := IndexBy(rows, ExactKey, WireKey(rr));
    var at, out := if i >= 0 then i else |rows|, AddRow(rows, rr, floor, now);
    assert Floored(rr.ttl, floor) * SECOND >= floor * SECOND;
    assert ExactKey(out[at]) == WireKey(rr);
  }

  lemma FillCoversUntil(lib: Library, rows: seq<CacheRow>, q: Question, answer: seq<RR>, floor: nat, now: nat)
    requires Wire(answer)
    ensures CoversUntil(Fill(lib, rows, q, answer, floor, now), q, answer, now + floor * SECOND)
  {
    var mid, until := AddRows(rows, answer, floor, now), now + floor * SECOND;
    AddRowsUntil(rows, answer, floor, now);
    if ShouldCacheRRSet(q, answer) {
      var out := AddSet(lib, mid, q, answer, floor, now);
      AddSetFacts(lib, mid, q, answer, floor, now);
      AllUntilPersists(mid, out, answer, until);
      AddSetUntil(lib, mid, q, answer, floor, now);
    }
  }

  lemma AddSetUntil(lib: Library, rows: seq<CacheRow>, q: Question, answer: seq<RR>, floor: nat, now: nat)
    ensures SetUntil(AddSet(lib, rows, q, answer, floor, now), QuestionKey(q), now + floor * SECOND)
  {
    SetRowIsSet(lib, q, answer, floor, now);
    SetTTLFloor(answer, floor);
    var i, out := IndexBy(rows, SetKey, QuestionKey(q)), AddSet(lib, rows, q, answer, floor, now);
    var at := if i >= 0 then i else |rows|;
    assert SetKey(out[at]) == QuestionKey(q) && out[at].expiry >= now + floor * SECOND;
  }

  // ---- What a fill writes ----

  /** No later record of the answer is for the same row. */
  predicate LastOfKey(rrs: seq<RR>, k: nat) {
    k < |rrs| && forall j :: k < j < |rrs| ==> WireKey(rrs[j]) != WireKey(rrs[k])
  }

  ghost predicate SomeLives(rows: seq<CacheRow>, rr: RR, floor: nat, now: nat) {
    exists r <- rows :: LivesFrom(r, rr, floor, now)
  }

  lemma AddRowKeeps(rows: seq<CacheRow>, rr: RR, floor: nat, now: nat, r: CacheRow)
    requires r in rows && ExactKey(r) != WireKey(rr)
    ensures r in AddRow(rows, rr, floor, now)
  {
    var j :| 0 <= j < |rows| && rows[j] == r;
    assert AddRow(rows, rr, floor, now)[j] == r;
  }

  lemma AddRowLives(rows: seq<CacheRow>, rr: RR, floor: nat, now: nat)
    ensures SomeLives(AddRow(rows, rr, floor, now), rr, floor, now)
  {
    var out := AddRow(rows, rr, floor, now);
    AddRowCaches(rows, rr, floor, now);
    var i: nat, x :| With(rows, i, x, out) && LivesFrom(x, rr, floor, now);
    assert out[i] in out;
  }

  lemma {:induction false} AddRowsLive(rows: seq<CacheRow>, rrs: seq<RR>, floor: nat, now: nat, k: nat)
    requires LastOfKey(rrs, k)
    ensures SomeLives(AddRows(rows, rrs, floor, now), rrs[k], floor, now)
  {
    var n := |rrs| - 1;
    var mid, last := AddRows(rows, rrs[..n], floor, now), rrs[n];
    if k == n {
      AddRowLives(mid, last, floor, now);
    } else {
      AddRowsLive(rows, rrs[..n], floor, now, k);
      var r :| r in mid && LivesFrom(r, rrs[k], floor, now);
      AddRowKeeps(mid, last, floor, now, r);
    }
  }

  /** After a fill every record of the answer has a row that lives for its own TTL, or the floor if that is longer;
      where two records share a row, the last one decides. */
  lemma {:induction false} FilledLifetimes(lib: Library, rows: seq<CacheRow>, q: Question, answer: seq<RR>, floor: nat,
                                           now: nat, k: nat)
    requires Wire(answer) && LastOfKey(answer, k)
    ensures SomeLives(Fill(lib, rows, q, answer, floor, now), answer[k], floor, now)
  {
    AddRowsLive(rows, answer, floor, now, k);
    if ShouldCacheRRSet(q, answer) {
      var mid := AddRows(rows, answer, floor, now);
      var r :| r in mid && LivesFrom(r, answer[k], floor, now);
      assert answer[k] in answer && SetKey(r) != QuestionKey(q);
      PutSetKeepsOthers(mid, QuestionKey(q), SetRow(lib, q, answer, floor, now), r);
    }
  }

  predicate WholeRow(r: CacheRow, q: Question) {
    SameName(r.rec.name, q.name) && r.rec.rtype == q.qtype && HasPrefix(r.rec.value, "__RRSET_v1__\n")
  }

  /** Questions whose answers are kept whole: the four types, with several records or a single alias. */
  predicate KeptWhole(q: Question, answer: seq<RR>) {
    && (q.qtype == "A" || q.qtype == "AAAA" || q.qtype == "HTTPS" || q.qtype == "SVCB")
    && (|answer| > 1 || (|answer| == 1 && answer[0].rtype == "CNAME"))
  }

  lemma WholeRowIff(r: CacheRow, q: Question)
    ensures WholeRow(r, q) <==> SetKey(r) == QuestionKey(q)
  {
    NameKeyIff(r.rec.name, q.name);
  }

  /** A fill leaves a whole-answer row for the question exactly if there was one or the answer is one to keep whole. */
  lemma FillKeepsWholeIff(lib: Library, rows: seq<CacheRow>, q: Question, answer: seq<RR>, floor: nat, now: nat)
    requires Wire(answer)
    ensures (exists r <- Fill(lib, rows, q, answer, floor, now) :: WholeRow(r, q)) <==>
            (exists r <- rows :: WholeRow(r, q)) || KeptWhole(q, answer)
  {
    var out := Fill(lib, rows, q, answer, floor, now);
    FillFacts(lib, rows, q, answer, floor, now);
    if r :| r in rows && WholeRow(r, q) {
      var i :| 0 <= i < |rows| && rows[i] == r;
      WholeRowIff(rows[i], q);
      WholeRowIff(out[i], q);
      assert out[i] in out;
    }
    if KeptWhole(q, answer) {
      FillCovers(lib, rows, q, answer, floor, now);
      var i := IndexBy(out, SetKey, QuestionKey(q));
      WholeRowIff(out[i], q);
      assert out[i] in out;
    } else if r :| r in out && WholeRow(r, q) {
      AddRowsOnlySingles(rows, answer, floor, now, r, q);
    }
  }

  /** Single rows are not whole-answer rows. */
  lemma {:induction false} AddRowsOnlySingles(rows: seq<CacheRow>, rrs: seq<RR>, floor: nat, now: nat, r: CacheRow,
                                              q: Question)
    requires Wire(rrs) && r in AddRows(rows, rrs, floor, now) && WholeRow(r, q)
    ensures r in rows
  {
    if rrs != [] {
      var n := |rrs| - 1;
      var mid := AddRows(rows, rrs[..n], floor, now);
      var out := AddRow(mid, rrs[n], floor, now);
      AddRowCaches(mid, rrs[n], floor, now);
      var i: nat, x :| With(mid, i, x, out) && LivesFrom(x, rrs[n], floor, now);
      assert rrs[n] in rrs && r != x;
      var j :| 0 <= j < |out| && out[j] == r;
      assert mid[j] == r;
      AddRowsOnlySingles(rows, rrs[..n], floor, now, r, q);
    }
  }

  // ---- Refilling ----

  /** Everything a fill would write already has a row. */
  ghost predicate Covers(rows: seq<CacheRow>, q: Question, answer: seq<RR>) {
    && AllPresent(rows, answer)
    && (ShouldCacheRRSet(q, answer) ==> IndexBy(rows, SetKey, QuestionKey(q)) >= 0)
  }

  lemma KeepsPresence(rows: seq<CacheRow>, out: seq<CacheRow>, rr: RR, k: SetId)
    requires KeepsKeys(rows, out) && !IsRRSet(rr.value)
    ensures IndexBy(rows, ExactKey, WireKey(rr)) >= 0 ==> IndexBy(out, ExactKey, WireKey(rr)) >= 0
    ensures IndexBy(rows, SetKey, k) >= 0 ==> IndexBy(out, SetKey, k) >= 0
  {
    var i, j := IndexBy(rows, ExactKey, WireKey(rr)), IndexBy(rows, SetKey, k);
    if i >= 0 { assert ExactKey(out[i]) == WireKey(rr); }
    if j >= 0 { assert SetKey(out[j]) == k; }
  }

  ghost predicate AllPresent(rows: seq<CacheRow>, rrs: seq<RR>) {
    forall rr <- rrs :: IndexBy(rows, ExactKey, WireKey(rr)) >= 0
  }

  lemma PresencePersists(rows: seq<CacheRow>, out: seq<CacheRow>, rrs: seq<RR>)
    requires KeepsKeys(rows, out) && Wire(rrs) && AllPresent(rows, rrs)
    ensures AllPresent(out, rrs)
  {
    forall rr | rr in rrs ensures IndexBy(out, ExactKey, WireKey(rr)) >= 0 {
      KeepsPresence(rows, out, rr, SetId("", "", false));
    }
  }

  lemma AddRowsPresent(rows: seq<CacheRow>, rrs: seq<RR>, floor: nat, now: nat)
    requires Wire(rrs)
    ensures AllPresent(AddRows(rows, rrs, floor, now), rrs)
  {
    AddRowsUntil(rows, rrs, floor, now);
    UntilIsPresent(AddRows(rows, rrs, floor, now), rrs, now + floor * SECOND);
  }

  lemma {:induction false} AddRowsInPlace(rows: seq<CacheRow>, rrs: seq<RR>, floor: nat, now: nat)
    requires Wire(rrs) && AllPresent(rows, rrs)
    ensures |AddRows(rows, rrs, floor, now)| == |rows|
  {
    if rrs != [] {
      var head, last := rrs[..|rrs| - 1], rrs[|rrs| - 1];
      AddRowsInPlace(rows, head, floor, now);
      AddRowsFacts(rows, head, floor, now);
      KeepsPresence(rows, AddRows(rows, head, floor, now), last, SetId("", "", false));
      AddRowEffect(AddRows(rows, head, floor, now), last, floor, now);
    }
  }

  lemma FillCovers(lib: Library, rows: seq<CacheRow>, q: Question, answer: seq<RR>, floor: nat, now: nat)
    requires Wire(answer)
    ensures Covers(Fill(lib, rows, q, answer, floor, now), q, answer)
    ensures Covers(rows, q, answer) ==> |Fill(lib, rows, q, answer, floor, now)| == |rows|
  {
    var mid := AddRows(rows, answer, floor, now);
    AddRowsPresent(rows, answer, floor, now);
    AddRowsFacts(rows, answer, floor, now);
    if Covers(rows, q, answer) {
      AddRowsInPlace(rows, answer, floor, now);
    }
    if ShouldCacheRRSet(q, answer) {
      var cr := SetRow(lib, q, answer, floor, now);
      SetRowIsSet(lib, q, answer, floor, now);
      PutSetEffect(mid, QuestionKey(q), cr);
      KeepsPresence(rows, mid, answer[0], QuestionKey(q));
      PresencePersists(mid, PutSet(mid, QuestionKey(q), cr), answer);
    }
  }

  // ---- Runs ----

  datatype Op = FillOp(q: Question, answer: seq<RR>, now: nat) | CompactOp(now: nat)

  function Apply(lib: Library, rows: seq<CacheRow>, op: Op, floor: nat): seq<CacheRow> {
    match op
    case FillOp(q, answer, now) => Fill(lib, rows, q, answer, floor, now)
    case CompactOp(now) => Unexpired(rows, now)
  }

  function Run(lib: Library, rows: seq<CacheRow>, ops: seq<Op>, floor: nat): seq<CacheRow> {
    if ops == [] then rows else Apply(lib, Run(lib, rows, ops[..|ops| - 1], floor), ops[|ops| - 1], floor)
  }

  ghost predicate WireOps(ops: seq<Op>) {
    forall op <- ops :: op.FillOp? ==> Wire(op.answer)
  }

  lemma {:induction false} DistinctUnexpired<K>(rows: seq<CacheRow>, counts: CacheRow -> bool, key: CacheRow -> K,
                                                now: nat)
    requires DistinctBy(rows, counts, key)
    ensures DistinctBy(Unexpired(rows, now), counts, key)
  {
    if rows != [] {
      var n := |rows| - 1;
      DistinctUnexpired(rows[..n], counts, key, now);
      var kept := Unexpired(rows[..n], now);
      assert forall i :: 0 <= i < |kept| ==> kept[i] in rows[..n];
      DistinctAppend(kept, counts, key, rows[n]);
    }
  }

  /** Any run of fills and compactions keeps a tidy cache tidy; the empty cache is tidy. */
  lemma {:induction false} RunKeepsTidy(lib: Library, rows: seq<CacheRow>, ops: seq<Op>, floor: nat)
    requires Tidy(rows) && WireOps(ops)
    ensures Tidy(Run(lib, rows, ops, floor))
  {
    if ops != [] {
      var mid := Run(lib, rows, ops[..|ops| - 1], floor);
      RunKeepsTidy(lib, rows, ops[..|ops| - 1], floor);
      match ops[|ops| - 1] {
        case FillOp(q, answer, now) =>
          assert ops[|ops| - 1] in ops;
          FillFacts(lib, mid, q, answer, floor, now);
        case CompactOp(now) =>
          DistinctUnexpired(mid, AnyRow, ExactKey, now);
          DistinctUnexpired(mid, IsSet, SetKey, now);
      }
    }
  }

  /** A fill grows the cache exactly when something it writes has no row yet. */
  lemma FillGrowsIff(lib: Library, rows: seq<CacheRow>, q: Question, answer: seq<RR>, floor: nat, now: nat)
    requires Wire(answer)
    ensures |Fill(lib, rows, q, answer, floor, now)| == |rows| <==> Covers(rows, q, answer)
  {
    var out := Fill(lib, rows, q, answer, floor, now);
    FillCovers(lib, rows, q, answer, floor, now);
    FillFacts(lib, rows, q, answer, floor, now);
    if |out| == |rows| {
      CoveredBefore(rows, out, q, answer);
    }
  }

  lemma CoveredBefore(rows: seq<CacheRow>, out: seq<CacheRow>, q: Question, answer: seq<RR>)
    requires KeepsKeys(rows, out) && |rows| == |out| && Wire(answer) && Covers(out, q, answer)
    ensures Covers(rows, q, answer)
  {
    forall rr | rr in answer ensures IndexBy(rows, ExactKey, WireKey(rr)) >= 0 {
      var i := IndexBy(out, ExactKey, WireKey(rr));
      assert SetKey(rows[i]) == SetKey(out[i]) && ExactKey(out[i]) == WireKey(rr);
    }
    if ShouldCacheRRSet(q, answer) {
      var i := IndexBy(out, SetKey, QuestionKey(q));
      assert SetKey(rows[i]) == QuestionKey(q);
    }
  }

  lemma CompactionKeepsCovers(rows: seq<CacheRow>, q: Question, answer: seq<RR>, until: nat, now: nat)
    requires CoversUntil(rows, q, answer, until) && now < until
    ensures CoversUntil(Unexpired(rows, now), q, answer, until)
  {
    var kept := Unexpired(rows, now);
    forall rr | rr in answer ensures RowUntil(kept, WireKey(rr), until) {
      var i :| 0 <= i < |rows| && ExactKey(rows[i]) == WireKey(rr) && rows[i].expiry >= until;
      assert rows[i] in kept;
    }
    if ShouldCacheRRSet(q, answer) {
      var i :| 0 <= i < |rows| && SetKey(rows[i]) == QuestionKey(q) && rows[i].expiry >= until;
      assert rows[i] in kept;
    }
  }

  /** Nothing in `ops` happens before `t`, and no compaction at or after `until`. */
  ghost predicate Between(ops: seq<Op>, t: nat, until: nat) {
    forall op <- ops :: t <= op.now && (op.CompactOp? ==> op.now < until)
  }

  lemma {:induction false} RunKeepsCovers(lib: Library, rows: seq<CacheRow>, ops: seq<Op>, floor: nat, q: Question,
                                          answer: seq<RR>, t: nat)
    requires Wire(answer) && CoversUntil(rows, q, answer, t + floor * SECOND) && Between(ops, t, t + floor * SECOND)
    ensures CoversUntil(Run(lib, rows, ops, floor), q, answer, t + floor * SECOND)
  {
    if ops != [] {
      var head, last, until := ops[..|ops| - 1], ops[|ops| - 1], t + floor * SECOND;
      var mid := Run(lib, rows, head, floor);
      assert last in ops;
      RunKeepsCovers(lib, rows, head, floor, q, answer, t);
      match last {
        case FillOp(q', answer', now) =>
          var out := Fill(lib, mid, q', answer', floor, now);
          FillFacts(lib, mid, q', answer', floor, now);
          WrittenWeaker(mid, out, now + floor * SECOND, until);
          AllUntilPersists(mid, out, answer, until);
          if ShouldCacheRRSet(q, answer) {
            SetUntilPersists(mid, out, QuestionKey(q), until);
          }
        case CompactOp(now) => CompactionKeepsCovers(mid, q, answer, until, now);
      }
    }
  }

  /** Once an answer has been filled in, filling it in again does not grow the cache, whatever was filled in between and
      whatever compactions ran before the floor's lifetime was over. */
  lemma RefillNeverGrows(lib: Library, rows: seq<CacheRow>, ops: seq<Op>, floor: nat, q: Question, answer: seq<RR>,
                         t: nat, t': nat)
    requires Wire(answer) && Between(ops, t, t + floor * SECOND)
    ensures var between := Run(lib, Fill(lib, rows, q, answer, floor, t), ops, floor);
            Covers(between, q, answer) && |Fill(lib, between, q, answer, floor, t')| == |between|
  {
    var filled := Fill(lib, rows, q, answer, floor, t);
    var between := Run(lib, filled, ops, floor);
    FillCoversUntil(lib, rows, q, answer, floor, t);
    RunKeepsCovers(lib, filled, ops, floor, q, answer, t);
    UntilIsCovered(between, q, answer, t + floor * SECOND);
    FillGrowsIff(lib, between, q, answer, floor, t');
  }

  lemma UntilIsCovered(rows: seq<CacheRow>, q: Question, answer: seq<RR>, until: nat)
    requires CoversUntil(rows, q, answer, until)
    ensures Covers(rows, q, answer)
  {
    UntilIsPresent(rows, answer, until);
  }

  lemma UntilIsPresent(rows: seq<CacheRow>, rrs: seq<RR>, until: nat)
    requires AllUntil(rows, rrs, until)
    ensures AllPresent(rows, rrs)
  {
    forall rr | rr in rrs ensures IndexBy(rows, ExactKey, WireKey(rr)) >= 0 {
      assert RowUntil(rows, WireKey(rr), until);
    }
  }

  // ---- Store, then read ----

  lemma SetTypeNormal(t: string)
    requires SetType(t)
    ensures NormType(t) == t && NulFree(t)
  {
    TrimSpaceFixed(t);
    assert Upper(t) == t;
  }

  /** In a tidy cache a key has at most one decodable whole-answer row. */
  lemma OneSetPerKey(lib: Library, rows: seq<CacheRow>, q: Question, i: nat, j: nat)
    requires Tidy(rows) && i < |rows| && j < |rows| && SetType(q.qtype)
    requires SetKey(rows[i]) == QuestionKey(q)
    requires Under(IdxKey(q.name, q.qtype), DecodableSet(lib))(rows[j])
    ensures i == j
  {
    var r := rows[j].rec;
    assert IsSet(rows[j]);
    SetTypeNormal(q.qtype);
    SetTypeNormal(r.rtype);
    JoinsCollideIff(NameKey(r.name), r.rtype, NameKey(q.name), q.qtype);
    NoStraddle(NameKey(r.name), r.rtype, NameKey(q.name), q.qtype);
    assert SetKey(rows[j]) == QuestionKey(q);
  }

  /** The whole-answer row a fill leaves behind. */
  lemma FilledSetRow(lib: Library, rows: seq<CacheRow>, q: Question, answer: seq<RR>, floor: nat, t: nat)
    returns (i: nat)
    requires ShouldCacheRRSet(q, answer)
    ensures var out := Fill(lib, rows, q, answer, floor, t);
            i < |out| && out[i].rec == SetRow(lib, q, answer, floor, t).rec
              && out[i].expiry == t + SetTTL(answer, floor) * SECOND
  {
    var mid, k := AddRows(rows, answer, floor, t), QuestionKey(q);
    i := if IndexBy(mid, SetKey, k) >= 0 then IndexBy(mid, SetKey, k) else |mid|;
  }

  /** `op` writes no whole answer under `q`, and drops nothing that lives after `now`. */
  predicate Bystander(op: Op, q: Question, now: nat) {
    match op
    case FillOp(q', answer, _) => ShouldCacheRRSet(q', answer) ==> QuestionKey(q') != QuestionKey(q)
    case CompactOp(at) => at <= now
  }

  lemma {:induction false} AddRowsKeepSets(rows: seq<CacheRow>, rrs: seq<RR>, floor: nat, now: nat, r: CacheRow)
    requires Wire(rrs) && r in rows && IsSet(r)
    ensures r in AddRows(rows, rrs, floor, now)
  {
    if rrs != [] {
      var mid, last := AddRows(rows, rrs[..|rrs| - 1], floor, now), rrs[|rrs| - 1];
      AddRowsKeepSets(rows, rrs[..|rrs| - 1], floor, now, r);
      var j :| 0 <= j < |mid| && mid[j] == r;
      assert ExactKey(r) != WireKey(last);
      assert AddRow(mid, last, floor, now)[j] == r;
    }
  }

  lemma PutSetKeepsOthers(rows: seq<CacheRow>, k: SetId, cr: CacheRow, r: CacheRow)
    requires r in rows && SetKey(r) != k
    ensures r in PutSet(rows, k, cr)
  {
    var j :| 0 <= j < |rows| && rows[j] == r;
    assert PutSet(rows, k, cr)[j] == r;
  }

  lemma {:induction false} RunKeepsRow(lib: Library, rows: seq<CacheRow>, ops: seq<Op>, floor: nat, q: Question,
                                       r: CacheRow, now: nat)
    requires WireOps(ops) && (forall op <- ops :: Bystander(op, q, now))
    requires r in rows && SetKey(r) == QuestionKey(q) && now < r.expiry
    ensures r in Run(lib, rows, ops, floor)
  {
    if ops != [] {
      var mid, last := Run(lib, rows, ops[..|ops| - 1], floor), ops[|ops| - 1];
      assert last in ops;
      RunKeepsRow(lib, rows, ops[..|ops| - 1], floor, q, r, now);
      match last {
        case FillOp(q', answer, at) =>
          var singles := AddRows(mid, answer, floor, at);
          AddRowsKeepSets(mid, answer, floor, at, r);
          if ShouldCacheRRSet(q', answer) {
            PutSetKeepsOthers(singles, QuestionKey(q'), SetRow(lib, q', answer, floor, at), r);
          }
        case CompactOp(at) =>
      }
    }
  }

  /** An answer that is cached whole, as the wire and the library give it. */
  ghost predicate Storable(lib: Library, q: Question, answer: seq<RR>) {
    Wire(answer) && ShouldCacheRRSet(q, answer) && forall rr <- answer :: Printable(lib, rr)
  }

  ghost predicate Bystanders(ops: seq<Op>, q: Question, now: nat) {
    WireOps(ops) && forall op <- ops :: Bystander(op, q, now)
  }

  /** A lookup that reaches the cache, under some spelling of the question. */
  predicate Reaches(lib: Library, settings: Settings, records: seq<DNSRecord>, q: Question, name: string,
                    rtype: string)
  {
    && settings.cacheEnabled && NameKey(name) == NameKey(q.name) && NormType(rtype) == q.qtype
    && (settings.localEnabled ==> LocalAnswer(lib, records, IdxKey(name, rtype)) == [])
  }

  /** The lookup gives the records of `answer` in order, not marked stale, with only their TTLs shortened. */
  ghost predicate Serves(lib: Library, settings: Settings, records: seq<DNSRecord>, rows: seq<CacheRow>, name: string,
                   rtype: string, answer: seq<RR>, expiry: nat, now: nat)
    requires now < expiry
  {
    var f := TryFast(lib, settings, records, rows, name, rtype, false, now);
    f.WholeHit? && !f.stale && ShortenedBy(answer, f.rrs, expiry - now)
  }

  /** Each TTL becomes the smaller of its own and the whole seconds in `time`, but at least 1. If the time does not
      fit the 32 bits of a TTL, nothing is said but that no TTL grows. */
  ghost predicate ShortenedBy(answer: seq<RR>, out: seq<RR>, time: nat) {
    && Shortened(answer, out, time / 1_000_000_000)
    && forall left: nat :: left < 0x1_0000_0000 && left * 1_000_000_000 <= time < (left + 1) * 1_000_000_000 ==>
         Shortens(answer, out, left)
  }

  /** Fill in an answer served whole, then let any other questions be filled in and any compactions run; every
      lookup before it expires, under any spelling of the name and type and with no local record in the way, gives
      the same records in order, none marked stale, with only the TTLs reduced: to at least 1, at most the record's
      own and at most the time left (each rounded up to 1). */
  lemma {:induction false} StoreThenRead(lib: Library, settings: Settings, records: seq<DNSRecord>, rows: seq<CacheRow>,
                                         q: Question, answer: seq<RR>, t: nat, ops: seq<Op>, name: string,
                                         rtype: string, now: nat, expiry: nat)
    requires Tidy(rows) && Storable(lib, q, answer) && Bystanders(ops, q, now)
    requires Reaches(lib, settings, records, q, name, rtype)
    requires now < expiry == t + SetTTL(answer, Floor(settings.minCacheTTLSeconds)) * SECOND
    ensures var floor := Floor(settings.minCacheTTLSeconds);
            var later := Run(lib, Fill(lib, rows, q, answer, floor, t), ops, floor);
            Serves(lib, settings, records, later, name, rtype, answer, expiry, now)
  {
    var floor := Floor(settings.minCacheTTLSeconds);
    RowStays(lib, rows, q, answer, floor, t, ops, now, expiry);
    RowServes(lib, settings, records, Run(lib, Fill(lib, rows, q, answer, floor, t), ops, floor), q, answer, expiry,
              name, rtype, now);
  }

  /** A tidy cache that holds `answer` whole until `expiry`. */
  ghost predicate HeldUntil(lib: Library, rows: seq<CacheRow>, q: Question, answer: seq<RR>, expiry: nat) {
    Tidy(rows) && exists i :: 0 <= i < |rows| && HoldsAnswer(lib, rows[i], q, answer) && rows[i].expiry == expiry
  }

  lemma RowServes(lib: Library, settings: Settings, records: seq<DNSRecord>, rows: seq<CacheRow>, q: Question,
                  answer: seq<RR>, expiry: nat, name: string, rtype: string, now: nat)
    requires HeldUntil(lib, rows, q, answer, expiry) && Storable(lib, q, answer) && now < expiry
    requires Reaches(lib, settings, records, q, name, rtype)
    ensures Serves(lib, settings, records, rows, name, rtype, answer, expiry, now)
  {
    var i :| 0 <= i < |rows| && HoldsAnswer(lib, rows[i], q, answer) && rows[i].expiry == expiry;
    RowIsAnswer(lib, rows, q, answer, i, expiry, now, settings.staleWhileRevalidate);
    ServedUntil(lib, settings, records, rows, q, answer, expiry, name, rtype, now);
  }

  /** From the cache lookup to what the fast path serves. */
  lemma ServedUntil(lib: Library, settings: Settings, records: seq<DNSRecord>, rows: seq<CacheRow>, q: Question,
                    answer: seq<RR>, expiry: nat, name: string, rtype: string, now: nat)
    requires now < expiry && AnswerUntil(lib, rows, q, answer, expiry, now, settings.staleWhileRevalidate)
    requires SetType(q.qtype) && answer != [] && Reaches(lib, settings, records, q, name, rtype)
    ensures Serves(lib, settings, records, rows, name, rtype, answer, expiry, now)
  {
    var left := (expiry - now) / SECOND;
    SameKey(q, name, rtype);
    TruncationBelow(left);
    ClipBounds(answer, left % UINT32, left);
    ClippedBy(answer, expiry - now);
    TryFastWhole(lib, settings, records, rows, name, rtype, now,
                 Whole(Clip(answer, AtLeastOne(left % UINT32), false), false));
  }

  lemma SameKey(q: Question, name: string, rtype: string)
    requires SetType(q.qtype) && NameKey(name) == NameKey(q.name) && NormType(rtype) == q.qtype
    ensures IdxKey(name, rtype) == IdxKey(q.name, q.qtype)
  {
    SetTypeNormal(q.qtype);
  }

  /** The same records in order; each TTL is at least 1, at most its own and at most `left`, both rounded up to 1. */
  predicate Shortened(answer: seq<RR>, out: seq<RR>, left: nat) {
    |out| == |answer| &&
    forall i :: 0 <= i < |answer| ==>
      out[i] == answer[i].(ttl := out[i].ttl) && 1 <= out[i].ttl <= AtLeastOne(answer[i].ttl)
        && out[i].ttl <= AtLeastOne(left)
  }

  lemma TryFastWhole(lib: Library, settings: Settings, records: seq<DNSRecord>, rows: seq<CacheRow>, name: string,
                     rtype: string, now: nat, w: Whole)
    requires settings.cacheEnabled && SetType(NormType(rtype)) && w.rrs != []
    requires settings.localEnabled ==> LocalAnswer(lib, records, IdxKey(name, rtype)) == []
    requires SetAnswer(lib, rows, IdxKey(name, rtype), now, settings.staleWhileRevalidate) == w
    ensures TryFast(lib, settings, records, rows, name, rtype, false, now) == WholeHit(w.rrs, w.stale)
  {
  }

  /** The lookup gives `answer` with its TTLs clipped to what is left until `expiry`. */
  predicate AnswerUntil(lib: Library, rows: seq<CacheRow>, q: Question, answer: seq<RR>, expiry: nat, now: nat,
                        allowStale: bool)
    requires now < expiry
  {
    SetAnswer(lib, rows, IdxKey(q.name, q.qtype), now, allowStale)
    == Whole(Clip(answer, AtLeastOne((expiry - now) / SECOND % UINT32), false), false)
  }

  lemma RemainingOf(r: CacheRow, expiry: nat, now: nat)
    requires r.expiry == expiry && now < expiry
    ensures RemainingSec(r, now) == (expiry - now) / SECOND % UINT32
  {
  }

  /** A whole-answer row as a fill of `q` writes it. */
  predicate HoldsAnswer(lib: Library, r: CacheRow, q: Question, answer: seq<RR>) {
    r.rec.name == q.name && r.rec.rtype == q.qtype && r.rec.value == Encode(lib, answer)
  }

  /** The row the fill wrote is still there. */
  lemma RowStays(lib: Library, rows: seq<CacheRow>, q: Question, answer: seq<RR>, floor: nat, t: nat, ops: seq<Op>,
                 now: nat, expiry: nat)
    requires Tidy(rows) && Storable(lib, q, answer) && Bystanders(ops, q, now)
    requires now < expiry == t + SetTTL(answer, floor) * SECOND
    ensures HeldUntil(lib, Run(lib, Fill(lib, rows, q, answer, floor, t), ops, floor), q, answer, expiry)
  {
    var filled := Fill(lib, rows, q, answer, floor, t);
    FillFacts(lib, rows, q, answer, floor, t);
    RunKeepsTidy(lib, filled, ops, floor);
    var i := FilledSetRow(lib, rows, q, answer, floor, t);
    SetRowIsSet(lib, q, answer, floor, t);
    RunKeepsRow(lib, filled, ops, floor, q, filled[i], now);
    var later := Run(lib, filled, ops, floor);
    var at :| 0 <= at < |later| && later[at] == filled[i];
    assert HoldsAnswer(lib, later[at], q, answer);
  }

  lemma RowIsAnswer(lib: Library, rows: seq<CacheRow>, q: Question, answer: seq<RR>, i: nat, expiry: nat, now: nat,
                    allowStale: bool)
    requires Tidy(rows) && Storable(lib, q, answer) && i < |rows| && HoldsAnswer(lib, rows[i], q, answer)
    requires rows[i].expiry == expiry > now
    ensures AnswerUntil(lib, rows, q, answer, expiry, now, allowStale)
  {
    ReadSetRow(lib, rows, q, answer, i, now);
    FreshIsAnswer(lib, rows, IdxKey(q.name, q.qtype), rows[i], now, allowStale);
    RemainingOf(rows[i], expiry, now);
  }

  lemma FreshIsAnswer(lib: Library, rows: seq<CacheRow>, k: string, r: CacheRow, now: nat, allowStale: bool)
    requires FreshRow(rows, Under(k, DecodableSet(lib)), LiveAt(now)) == Some(r)
    ensures SetAnswer(lib, rows, k, now, allowStale)
            == Whole(Clip(SetRecords(lib, r), AtLeastOne(RemainingSec(r, now)), false), false)
  {
  }

  lemma TruncationBelow(n: nat)
    ensures n % UINT32 <= n
  {
  }

  lemma ClipBounds(answer: seq<RR>, remaining: nat, left: nat)
    requires remaining <= left
    ensures Shortened(answer, Clip(answer, AtLeastOne(remaining), false), left)
  {
  }

  lemma ClippedBy(answer: seq<RR>, time: nat)
    ensures ShortenedBy(answer, Clip(answer, AtLeastOne(time / SECOND % UINT32), false), time)
  {
    TruncationBelow(time / SECOND);
    ClipBounds(answer, time / SECOND % UINT32, time / SECOND);
    forall left: nat | left < 0x1_0000_0000 && left * 1_000_000_000 <= time < (left + 1) * 1_000_000_000
      ensures Shortens(answer, Clip(answer, AtLeastOne(time / SECOND % UINT32), false), left)
    {
      assert left == time / SECOND == time / SECOND % UINT32;
      ClipShortens(answer, left);
    }
  }

  lemma ReadSetRow(lib: Library, rows: seq<CacheRow>, q: Question, answer: seq<RR>, i: nat, now: nat)
    requires Tidy(rows) && Storable(lib, q, answer) && i < |rows| && HoldsAnswer(lib, rows[i], q, answer)
    requires now < rows[i].expiry
    ensures FreshRow(rows, Under(IdxKey(q.name, q.qtype), DecodableSet(lib)), LiveAt(now)) == Some(rows[i])
    ensures SetRecords(lib, rows[i]) == answer
  {
    RoundTrip(lib, answer);
    var w := Under(IdxKey(q.name, q.qtype), DecodableSet(lib));
    assert w(rows[i]) && IsSet(rows[i]);
    var f := FirstFresh(rows, w, LiveAt(now));
    assert f >= 0;
    OneSetPerKey(lib, rows, q, i, f);
  }

  // ---- Store a single record, then read ----

  /** `r` is in the cache, and no other row has its index key. */
  ghost predicate OnlyRow(rows: seq<CacheRow>, r: CacheRow) {
    exists i: nat :: OnlyAt(rows, r, i)
  }

  ghost predicate OnlyAt(rows: seq<CacheRow>, r: CacheRow, i: nat) {
    i < |rows| && rows[i] == r && forall j :: 0 <= j < |rows| && j != i ==> RowIdxKey(rows[j]) != RowIdxKey(r)
  }

  /** `op` writes nothing under the name and type of `rr`, and drops nothing that lives after `now`. */
  predicate LeavesAlone(op: Op, rr: RR, now: nat) {
    match op
    case FillOp(q, answer, _) =>
      && !(SameName(q.name, rr.name) && SameType(q.qtype, rr.rtype))
      && forall x <- answer :: !(SameName(x.name, rr.name) && SameType(x.rtype, rr.rtype))
    case CompactOp(at) => at <= now
  }

  lemma AddRowOnly(rows: seq<CacheRow>, x: RR, floor: nat, now: nat, r: CacheRow)
    requires OnlyRow(rows, r) && IdxKey(x.name, x.rtype) != RowIdxKey(r)
    ensures OnlyRow(AddRow(rows, x, floor, now), r)
  {
    var i: nat :| OnlyAt(rows, r, i);
    var out := AddRow(rows, x, floor, now);
    AddRowCaches(rows, x, floor, now);
    var k: nat, y :| With(rows, k, y, out) && LivesFrom(y, x, floor, now)
      && (if k < |rows| then FirstAt(rows, Holding(x), k) && Renews(rows[k], y, now)
          else NoneAt(rows, Holding(x)) && y.timestamp == y.lastQuery == now);
    assert RowIdxKey(y) == IdxKey(x.name, x.rtype);
    assert OnlyAt(out, r, i);
  }

  lemma {:induction false} AddRowsOnly(rows: seq<CacheRow>, rrs: seq<RR>, floor: nat, now: nat, r: CacheRow)
    requires OnlyRow(rows, r) && forall x <- rrs :: IdxKey(x.name, x.rtype) != RowIdxKey(r)
    ensures OnlyRow(AddRows(rows, rrs, floor, now), r)
  {
    if rrs != [] {
      var n := |rrs| - 1;
      AddRowsOnly(rows, rrs[..n], floor, now, r);
      assert rrs[n] in rrs;
      AddRowOnly(AddRows(rows, rrs[..n], floor, now), rrs[n], floor, now, r);
    }
  }

  lemma PutSetOnly(rows: seq<CacheRow>, k: SetId, cr: CacheRow, r: CacheRow)
    requires OnlyRow(rows, r) && SetKey(cr) == k && RowIdxKey(cr) != RowIdxKey(r) && IsSingle(r) && k.isSet
    ensures OnlyRow(PutSet(rows, k, cr), r)
  {
    var i: nat :| OnlyAt(rows, r, i);
    assert SetKey(r) != k;
    assert OnlyAt(PutSet(rows, k, cr), r, i);
  }

  lemma {:induction false} UnexpiredOnly(rows: seq<CacheRow>, at: nat, r: CacheRow)
    requires OnlyRow(rows, r) && at < r.expiry
    ensures OnlyRow(Unexpired(rows, at), r)
  {
    var from := UnexpiredInOrder(rows, at);
    var kept := Unexpired(rows, at);
    var i: nat :| OnlyAt(rows, r, i);
    assert !Goes(at)(rows[i]);
    var a :| 0 <= a < |from| && from[a] == i;
    assert forall b :: 0 <= b < |from| ==> Stays(at)(rows[from[b]], kept[b]);
    forall b | 0 <= b < |kept| && b != a ensures RowIdxKey(kept[b]) != RowIdxKey(r) {
      assert from[b] != i;
    }
    assert OnlyAt(kept, r, a);
  }

  lemma OtherKey(rr: RR, name: string, rtype: string)
    requires NulFree(rr.name) && NulFree(rr.rtype) && !(SameName(name, rr.name) && SameType(rtype, rr.rtype))
    ensures IdxKey(name, rtype) != IdxKey(rr.name, rr.rtype)
  {
    KeysCompareParts(rr.name, rr.rtype, name, rtype);
    NameKeyIff(name, rr.name);
    NormTypeIff(rtype, rr.rtype);
  }

  lemma {:induction false} RunKeepsOnly(lib: Library, rows: seq<CacheRow>, ops: seq<Op>, floor: nat, rr: RR,
                                        r: CacheRow, now: nat)
    requires NulFree(rr.name) && NulFree(rr.rtype) && RowIdxKey(r) == IdxKey(rr.name, rr.rtype) && IsSingle(r)
    requires OnlyRow(rows, r) && now < r.expiry && forall op <- ops :: LeavesAlone(op, rr, now)
    ensures OnlyRow(Run(lib, rows, ops, floor), r)
  {
    if ops != [] {
      var mid, last := Run(lib, rows, ops[..|ops| - 1], floor), ops[|ops| - 1];
      assert last in ops;
      RunKeepsOnly(lib, rows, ops[..|ops| - 1], floor, rr, r, now);
      match last {
        case FillOp(q, answer, at) =>
          forall x | x in answer ensures IdxKey(x.name, x.rtype) != RowIdxKey(r) {
            OtherKey(rr, x.name, x.rtype);
          }
          AddRowsOnly(mid, answer, floor, at, r);
          OtherKey(rr, q.name, q.qtype);
          SetRowIsSet(lib, q, answer, floor, at);
          if ShouldCacheRRSet(q, answer) {
            PutSetOnly(AddRows(mid, answer, floor, at), QuestionKey(q), SetRow(lib, q, answer, floor, at), r);
          }
        case CompactOp(at) => UnexpiredOnly(mid, at, r);
      }
    }
  }

  /** The row that filling in one record leaves, if the cache held nothing else under its name and type. */
  lemma OthersDiffer(rows: seq<CacheRow>, out: seq<CacheRow>, rr: RR, i: nat, x: CacheRow, j: nat)
    requires Tidy(rows) && NulFree(rr.name) && NulFree(rr.rtype) && With(rows, i, x, out) && j < |out| && j != i
    requires forall x <- rows :: Asked(x, rr.name, rr.rtype) ==> Holding(rr)(x)
    requires Holding(rr)(x) && if i < |rows| then Holding(rr)(rows[i]) else NoneAt(rows, Holding(rr))
    ensures RowIdxKey(out[j]) != RowIdxKey(x)
  {
    assert out[j] == rows[j] && rows[j] in rows;
    if i < |rows| {
      assert ExactKey(rows[i]) != ExactKey(rows[j]);
    }
    assert !Holding(rr)(rows[j]);
    OtherKey(rr, rows[j].rec.name, rows[j].rec.rtype);
  }

  lemma FilledOnly(lib: Library, rows: seq<CacheRow>, q: Question, rr: RR, floor: nat, t: nat) returns (r: CacheRow)
    requires Tidy(rows) && NulFree(rr.name) && NulFree(rr.rtype) && !KeptWhole(q, [rr])
    requires forall x <- rows :: Asked(x, rr.name, rr.rtype) ==> Holding(rr)(x)
    ensures LivesFrom(r, rr, floor, t) && OnlyRow(Fill(lib, rows, q, [rr], floor, t), r)
  {
    var out := AddRow(rows, rr, floor, t);
    assert [rr][..0] == [] && AddRows(rows, [rr], floor, t) == AddRow(AddRows(rows, [], floor, t), rr, floor, t);
    AddRowCaches(rows, rr, floor, t);
    var i: nat;
    i, r := AddedAt(rows, rr, floor, t, out);
    forall j: nat | j < |out| && j != i ensures RowIdxKey(out[j]) != RowIdxKey(r) {
      OthersDiffer(rows, out, rr, i, r, j);
    }
    assert OnlyAt(out, r, i);
  }

  lemma AddedAt(rows: seq<CacheRow>, rr: RR, floor: nat, t: nat, out: seq<CacheRow>) returns (i: nat, x: CacheRow)
    requires Caches(rows, rr, floor, t, out)
    ensures With(rows, i, x, out) && LivesFrom(x, rr, floor, t)
    ensures if i < |rows| then Holding(rr)(rows[i]) else NoneAt(rows, Holding(rr))
  {
    i, x :| With(rows, i, x, out) && LivesFrom(x, rr, floor, t)
      && (if i < |rows| then FirstAt(rows, Holding(rr), i) && Renews(rows[i], x, t)
          else NoneAt(rows, Holding(rr)) && x.timestamp == x.lastQuery == t && Bare(x.rec));
  }

  /** The text of the record with that TTL, as the library reads it. */
  ghost predicate ReadWith(lib: Library, rr: RR, ttl: nat, x: Option<RR>) {
    exists d :: Writes(d, ttl) && x == lib.newRR(rr.name + " " + d + " IN " + rr.rtype + " " + rr.value)
  }

  /** Fill in a single record that is not kept whole, then let anything else be filled in and any compactions run; every
      lookup before it expires, under any spelling of its name and type and with no local record in the way, gives that
      record, not marked stale, with the whole seconds it has left. */
  lemma {:induction false} StoreSingleThenRead(lib: Library, settings: Settings, records: seq<DNSRecord>,
                                               rows: seq<CacheRow>, q: Question, rr: RR, t: nat, ops: seq<Op>,
                                               name: string, rtype: string, now: nat, ttl: nat, left: nat)
    requires Tidy(rows) && Wire([rr]) && NulFree(rr.name) && NulFree(rr.rtype) && !KeptWhole(q, [rr])
    requires forall x <- rows :: Asked(x, rr.name, rr.rtype) ==> Holding(rr)(x)
    requires forall op <- ops :: LeavesAlone(op, rr, now)
    requires Reaches(lib, settings, records, Question(rr.name, NormType(rr.rtype)), name, rtype)
    requires Lifetime(ttl, rr.ttl, Floor(settings.minCacheTTLSeconds)) && left < 0x1_0000_0000
    requires left * 1_000_000_000 <= t + ttl * 1_000_000_000 - now < (left + 1) * 1_000_000_000
    requires now < t + ttl * 1_000_000_000
    ensures var floor := Floor(settings.minCacheTTLSeconds);
            var later := Run(lib, Fill(lib, rows, q, [rr], floor, t), ops, floor);
            var f := TryFast(lib, settings, records, later, name, rtype, false, now);
            exists x :: ReadWith(lib, rr, left, x) && f == if x.Some? then SingleHit(x.value, false) else NotHandled
  {
    var floor := Floor(settings.minCacheTTLSeconds);
    var r := FilledOnly(lib, rows, q, rr, floor, t);
    var filled := Fill(lib, rows, q, [rr], floor, t);
    assert rr in [rr] && IsSingle(r);
    RunKeepsOnly(lib, filled, ops, floor, rr, r, now);
    OnlyRowServed(lib, settings, records, Run(lib, filled, ops, floor), r, name, rtype, now);
    LeftOf(r, now, left);
    ReadsAs(lib, r, rr, left);
  }

  lemma LeftOf(r: CacheRow, now: nat, left: nat)
    requires now < r.expiry && left < 0x1_0000_0000
    requires left * 1_000_000_000 <= r.expiry - now < (left + 1) * 1_000_000_000
    ensures RemainingSec(r, now) == left
  {
  }

  lemma ReadsAs(lib: Library, r: CacheRow, rr: RR, left: nat)
    requires Holding(rr)(r)
    ensures ReadWith(lib, rr, left, lib.newRR(Format(r.rec, left)))
  {
    DecimalWrites(left);
  }

  lemma OnlyRowServed(lib: Library, settings: Settings, records: seq<DNSRecord>, rows: seq<CacheRow>, r: CacheRow,
                      name: string, rtype: string, now: nat)
    requires OnlyRow(rows, r) && IsSingle(r) && now < r.expiry && RowIdxKey(r) == IdxKey(name, rtype)
    requires settings.cacheEnabled && (settings.localEnabled ==> LocalAnswer(lib, records, IdxKey(name, rtype)) == [])
    ensures var x := lib.newRR(Format(r.rec, RemainingSec(r, now)));
            TryFast(lib, settings, records, rows, name, rtype, false, now) ==
            if x.Some? then SingleHit(x.value, false) else NotHandled
  {
    var k := IdxKey(name, rtype);
    OnlyRowFound(lib, rows, r, k, now);
  }

  lemma OnlyRowFound(lib: Library, rows: seq<CacheRow>, r: CacheRow, k: string, now: nat)
    requires OnlyRow(rows, r) && IsSingle(r) && now < r.expiry && RowIdxKey(r) == k
    ensures FreshRow(rows, Under(k, IsSingle), LiveAt(now)) == Some(r)
    ensures FreshRow(rows, Under(k, DecodableSet(lib)), LiveAt(now)) == None
    ensures FreshRow(rows, Under(k, DecodableSet(lib)), Under(k, DecodableSet(lib))) == None
  {
    var i: nat :| OnlyAt(rows, r, i);
    var w := Under(k, DecodableSet(lib));
    assert forall j :: 0 <= j < |rows| ==> !w(rows[j]);
    assert Under(k, IsSingle)(rows[i]) && LiveAt(now)(rows[i]);
  }
}
