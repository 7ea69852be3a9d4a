/** Row lists with a key-to-positions index, and the lookups that use it (data/lookup_index.go). */
module LookupIndex {
  import opened Options
  import opened Search
  import opened Records

  /** A cache row. Times are nanoseconds since Go's zero time, so the zero time is 0. */
  datatype CacheRow = CacheRow(rec: DNSRecord, expiry: nat, timestamp: nat, lastQuery: nat)

  type Index = map<string, seq<nat>>

  const NUL: char := '\0'
  const SECOND: nat := 1_000_000_000

  function IdxKey(name: string, rtype: string): string {
    NameKey(name) + [NUL] + NormType(rtype)
  }

  function RecordIdxKey(r: DNSRecord): string {
    IdxKey(r.name, r.rtype)
  }

  function RowIdxKey(r: CacheRow): string {
    IdxKey(r.rec.name, r.rec.rtype)
  }

  // ---- The index ----

  function Positions(idx: Index, k: string): seq<nat> {
    if k in idx then idx[k] else []
  }

  /** Under every key the index lists exactly the ascending positions of the rows with that key. */
  ghost predicate IndexFor<T>(idx: Index, rows: seq<T>, key: T -> string) {
    forall k :: Positions(idx, k) == PositionsBy(rows, key, k)
  }

  /** buildDNSRecordIndex and buildCacheRecordIndex. */
  method BuildIndex<T>(rows: seq<T>, key: T -> string) returns (idx: Index)
    ensures IndexFor(idx, rows, key)
  {
    idx := map[];
    for i := 0 to |rows|
      invariant IndexFor(idx, rows[..i], key)
    {
      var k := key(rows[i]);
      assert rows[..i + 1][..i] == rows[..i];
      idx := idx[k := Positions(idx, k) + [i]];
    }
    assert rows[..|rows|] == rows;
  }

  // ---- First fresh row, else the first expired one ----

  datatype Hit<T> = Miss | Fresh(row: T) | Stale(row: T)

  /** Position of the first row that is wanted and live, or -1. */
  function FirstFresh<T>(rows: seq<T>, wanted: T -> bool, live: T -> bool): (i: int)
    ensures -1 <= i < |rows|
    ensures i >= 0 ==> wanted(rows[i]) && live(rows[i])
    ensures forall j :: 0 <= j < (if i < 0 then |rows| else i) && wanted(rows[j]) ==> !live(rows[j])
  {
    if rows == [] then -1
    else
      var n := |rows| - 1;
      var i := FirstFresh(rows[..n], wanted, live);
      if i >= 0 then i else if wanted(rows[n]) && live(rows[n]) then n else -1
  }

  function FreshRow<T>(rows: seq<T>, wanted: T -> bool, live: T -> bool): Option<T> {
    var i := FirstFresh(rows, wanted, live);
    if i >= 0 then Some(rows[i]) else None
  }

  /** The answer of one scan: the first wanted live row, else (if allowed) the first wanted row. */
  function FirstHit<T>(rows: seq<T>, wanted: T -> bool, live: T -> bool, allowStale: bool): Hit<T> {
    match FreshRow(rows, wanted, live)
    case Some(r) => Fresh(r)
    case None =>
      match FreshRow(rows, wanted, wanted)
      case Some(r) => if allowStale then Stale(r) else Miss
      case None => Miss
  }

  /** One loop of a cache lookup, starting with the expired row an earlier loop remembered, if any. */
  method Scan<T>(rows: seq<T>, test: T -> bool, live: T -> bool, allowStale: bool, remembered: Option<T>)
    returns (h: Hit<T>)
    ensures h == if FreshRow(rows, test, live).Some? || remembered.None? then FirstHit(rows, test, live, allowStale)
                 else Stale(remembered.value)
  {
    var best := remembered;
    for i := 0 to |rows|
      invariant FirstFresh(rows[..i], test, live) == -1
      invariant remembered.Some? ==> best == remembered
      invariant remembered.None? ==> best == if allowStale then FreshRow(rows[..i], test, test) else None
    {
      assert rows[..i + 1][..i] == rows[..i];
      if test(rows[i]) {
        if live(rows[i]) {
          assert FirstFresh(rows, test, live) == i;
          return Fresh(rows[i]);
        }
        if allowStale && best.None? {
          best := Some(rows[i]);
        }
      }
    }
    assert rows[..|rows|] == rows;
    match best {
      case Some(r) => return Stale(r);
      case None => return Miss;
    }
  }

  /** The rows at the given positions. */
  function Picked<T>(rows: seq<T>, ps: seq<nat>): seq<T>
    requires forall a :: 0 <= a < |ps| ==> ps[a] < |rows|
  {
    seq(|ps|, a requires 0 <= a < |ps| => rows[ps[a]])
  }

  /** Both loops together, as both cache lookups run them: first over the index entry, then over every row.
      Whenever the second loop's test is at least as strict as the first's, the result is that of one scan by key:
      the second loop contributes nothing. */
  method IndexedHit<T>(rows: seq<T>, idx: Index, key: T -> string, k: string, kind: T -> bool, test: T -> bool,
                       live: T -> bool, allowStale: bool, ghost wanted: T -> bool) returns (h: Hit<T>)
    requires IndexFor(idx, rows, key)
    requires forall r <- rows :: wanted(r) <==> key(r) == k && kind(r)
    requires forall r <- rows :: test(r) ==> wanted(r)
    ensures h == FirstHit(rows, wanted, live, allowStale)
  {
    var ps := Positions(idx, k);
    assert ps == PositionsBy(rows, key, k);
    PickedFresh(rows, key, k, kind, wanted, live, live);
    PickedFresh(rows, key, k, kind, wanted, kind, wanted);
    var viaIndex := Scan(Picked(rows, ps), kind, live, allowStale, None);
    if viaIndex.Fresh? {
      return viaIndex;
    }
    h := Scan(rows, test, live, allowStale, if viaIndex.Stale? then Some(viaIndex.row) else None);
  }

  lemma FreshGrows<T>(rows: seq<T>, x: T, wanted: T -> bool, live: T -> bool)
    ensures FreshRow(rows + [x], wanted, live) ==
            match FreshRow(rows, wanted, live)
            case Some(r) => Some(r)
            case None => if wanted(x) && live(x) then Some(x) else None
  {
    assert (rows + [x])[..|rows|] == rows;
  }

  /** Scanning the positions listed under a key is scanning all rows for that key. */
  lemma {:induction false} PickedFresh<T>(rows: seq<T>, key: T -> string, k: string, kind: T -> bool, wanted: T -> bool,
                                          live: T -> bool, live': T -> bool)
    requires forall r <- rows :: wanted(r) <==> key(r) == k && kind(r)
    requires forall r <- rows :: wanted(r) ==> live(r) == live'(r)
    ensures FreshRow(Picked(rows, PositionsBy(rows, key, k)), kind, live) == FreshRow(rows, wanted, live')
  {
    if rows != [] {
      var n := |rows| - 1;
      var head, x := rows[..n], rows[n];
      PickedFresh(head, key, k, kind, wanted, live, live');
      PickedGrows(rows, key, k);
      assert rows == head + [x];
      FreshGrows(head, x, wanted, live');
      FreshGrows(Picked(head, PositionsBy(head, key, k)), x, kind, live);
      if key(x) != k {
        assert Picked(head, PositionsBy(head, key, k)) + [] == Picked(head, PositionsBy(head, key, k));
      }
    }
  }

  lemma PickedGrows<T>(rows: seq<T>, key: T -> string, k: string)
    requires rows != []
    ensures var n := |rows| - 1;
            Picked(rows, PositionsBy(rows, key, k)) ==
            Picked(rows[..n], PositionsBy(rows[..n], key, k)) + if key(rows[n]) == k then [rows[n]] else []
  {
  }
}
