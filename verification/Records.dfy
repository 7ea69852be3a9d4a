/** The local record table of dnsrecords/dnsrecords.go: normalisation keys, the add, update and
    remove operations on the record slice, and what every run of them keeps. */
module Records {
  import opened Text
  import opened Search

  datatype DNSRecord = DNSRecord(
    id: string, name: string, rtype: string, value: string, ttl: nat,
    addedOn: nat, updatedOn: nat, mac: string, cacheRecord: bool, lastQuery: nat)

  /** Name, type and value after normalisation: what makes two rows "the same record". */
  datatype Key = Key(name: string, rtype: string, value: string)

  /** The library's type table and value checks, which are not part of this model. */
  datatype Validator = Validator(knownTypes: set<string>, validValue: (string, string) -> bool)

  // ---- Normalisation (pure in the source) ----

  function NormType(t: string): string {
    Upper(TrimSpace(t))
  }

  function CanonName(name: string): string {
    TrimDots(TrimSpace(name))
  }

  function NameKey(name: string): string {
    Lower(CanonName(name))
  }

  function ValueKey(rtype: string, value: string): string {
    var t := NormType(rtype);
    var v := TrimSpace(value);
    if t == "CNAME" || t == "NS" || t == "PTR" then NameKey(v)
    else if t == "A" || t == "AAAA" then Lower(v)
    else v
  }

  function TargetKey(name: string, rtype: string, value: string): Key {
    Key(NameKey(name), NormType(rtype), ValueKey(rtype, value))
  }

  function KeyOf(r: DNSRecord): Key {
    TargetKey(r.name, r.rtype, r.value)
  }

  /** The copy of a peer's records that a node stores: every name canonicalised. */
  function Canonical(rs: seq<DNSRecord>): seq<DNSRecord> {
    seq(|rs|, i requires 0 <= i < |rs| => rs[i].(name := CanonName(rs[i].name)))
  }

  /** The trimmed id; a blank one identifies nothing. */
  function IdKey(r: DNSRecord): string {
    TrimSpace(r.id)
  }

  // ---- Searches ----

  function IndexOfKey(rows: seq<DNSRecord>, k: Key): int {
    IndexBy(rows, KeyOf, k)
  }

  function IndexOfId(rows: seq<DNSRecord>, id: string): int {
    if TrimSpace(id) == "" then -1 else IndexBy(rows, IdKey, TrimSpace(id))
  }

  method FindDNSRecordIndex(rows: seq<DNSRecord>, name: string, rtype: string, value: string) returns (i: int)
    ensures i == IndexOfKey(rows, TargetKey(name, rtype, value))
  {
    var targetType := NormType(rtype);
    NormTypeIdempotent(rtype);
    i := FindBy(rows, KeyOf, Key(NameKey(name), targetType, ValueKey(targetType, value)));
  }

  method FindDNSRecordIndexByID(rows: seq<DNSRecord>, id: string) returns (i: int)
    ensures i == IndexOfId(rows, id)
  {
    var wanted := TrimSpace(id);
    if wanted == "" {
      return -1;
    }
    i := FindBy(rows, IdKey, wanted);
  }

  // ---- When two spellings mean the same record ----

  /** What canonicalising keeps of a name: a piece of it, with only spaces before, and only dots and then spaces
      behind. */
  lemma CanonShape(name: string) returns (lo: nat, hi: nat, dots: nat)
    ensures lo <= hi <= dots <= |name| && CanonName(name) == name[lo..hi]
    ensures forall i :: 0 <= i < lo || dots <= i < |name| ==> IsSpace(name[i])
    ensures forall i :: hi <= i < dots ==> name[i] == '.'
    ensures lo < dots ==> !IsSpace(name[lo]) && !IsSpace(name[dots - 1])
    ensures lo < hi ==> name[hi - 1] != '.'
  {
    lo, dots := TrimSpaceShape(name);
    TrimDotsShape(TrimSpace(name));
    hi := lo + |CanonName(name)|;
    forall i | hi <= i < dots ensures name[i] == '.' {
      assert TrimSpace(name)[i - lo] == name[i];
    }
  }

  /** Names are the same but for case, surrounding space and trailing dots. */
  predicate SameName(a: string, b: string) {
    SameText(TrimDots(TrimSpace(a)), TrimDots(TrimSpace(b)))
  }

  /** Types are the same but for case and surrounding space. */
  predicate SameType(a: string, b: string) {
    SameText(TrimSpace(a), TrimSpace(b))
  }

  /** Values of that type are the same: host names as names, addresses but for case and space, others but for space. */
  predicate SameValue(rtype: string, a: string, b: string) {
    if SameType(rtype, "CNAME") || SameType(rtype, "NS") || SameType(rtype, "PTR") then SameName(a, b)
    else if SameType(rtype, "A") || SameType(rtype, "AAAA") then SameText(TrimSpace(a), TrimSpace(b))
    else TrimSpace(a) == TrimSpace(b)
  }

  predicate Means(r: DNSRecord, name: string, rtype: string, value: string) {
    SameName(r.name, name) && SameType(r.rtype, rtype) && SameValue(rtype, r.value, value)
  }

  lemma NameKeyIff(a: string, b: string)
    ensures NameKey(a) == NameKey(b) <==> SameName(a, b)
  {
    LowerIff(CanonName(a), CanonName(b));
  }

  lemma NormTypeIff(a: string, b: string)
    ensures NormType(a) == NormType(b) <==> SameType(a, b)
  {
    UpperIff(TrimSpace(a), TrimSpace(b));
  }

  lemma TypeIsIff(a: string, name: string)
    requires NormType(name) == name
    ensures NormType(a) == name <==> SameType(a, name)
  {
    NormTypeIff(a, name);
  }

  lemma KnownTypesNormal()
    ensures NormType("CNAME") == "CNAME" && NormType("NS") == "NS" && NormType("PTR") == "PTR"
    ensures NormType("A") == "A" && NormType("AAAA") == "AAAA"
  {
    TrimSpaceFixed("CNAME");
    TrimSpaceFixed("NS");
    TrimSpaceFixed("PTR");
    TrimSpaceFixed("A");
    TrimSpaceFixed("AAAA");
    assert Upper("CNAME") == "CNAME" && Upper("NS") == "NS" && Upper("PTR") == "PTR";
    assert Upper("A") == "A" && Upper("AAAA") == "AAAA";
  }

  lemma ValueKeyIff(rtype: string, a: string, b: string)
    ensures ValueKey(rtype, a) == ValueKey(rtype, b) <==> SameValue(rtype, a, b)
  {
    KnownTypesNormal();
    TypeIsIff(rtype, "CNAME");
    TypeIsIff(rtype, "NS");
    TypeIsIff(rtype, "PTR");
    TypeIsIff(rtype, "A");
    TypeIsIff(rtype, "AAAA");
    TrimSpaceTwice(a);
    TrimSpaceTwice(b);
    NameKeyIff(TrimSpace(a), TrimSpace(b));
    LowerIff(TrimSpace(a), TrimSpace(b));
  }

  lemma ValueKeyOfType(rtype: string, rtype': string, value: string)
    requires NormType(rtype) == NormType(rtype')
    ensures ValueKey(rtype, value) == ValueKey(rtype', value)
  {
  }

  /** A row has the key that name, type and value give exactly when it means the same record. */
  lemma KeyIff(r: DNSRecord, name: string, rtype: string, value: string)
    ensures KeyOf(r) == TargetKey(name, rtype, value) <==> Means(r, name, rtype, value)
  {
    NameKeyIff(r.name, name);
    NormTypeIff(r.rtype, rtype);
    if NormType(r.rtype) == NormType(rtype) {
      ValueKeyOfType(r.rtype, rtype, r.value);
      ValueKeyIff(rtype, r.value, value);
    }
  }

  // ---- What each operation makes of the table ----

  /** New rows, and false when the operation reports ErrInvalidArgs. */
  datatype Result = Result(rows: seq<DNSRecord>, ok: bool)

  predicate Complete(r: DNSRecord, env: Validator) {
    r.name != "" && r.rtype != "" && r.value != "" && r.rtype in env.knownTypes && env.validValue(r.rtype, r.value)
  }

  /** The record as AddRecord and UpdateRecordByID normalise it before checking it. */
  function Prepared(r: DNSRecord): DNSRecord {
    r.(name := CanonName(r.name), value := TrimSpace(r.value), rtype := NormType(r.rtype),
       ttl := if r.ttl == 0 then 3600 else r.ttl)
  }

  /** addRecordInternal's own normalisation. */
  function Stored(r: DNSRecord, now: nat): DNSRecord {
    r.(name := CanonName(r.name), rtype := NormType(r.rtype), addedOn := if r.addedOn == 0 then now else r.addedOn)
  }

  function UpdatedId(given: string, prior: string, newId: string): string {
    if TrimSpace(given) != "" then given else if TrimSpace(prior) != "" then prior else newId
  }

  function AddInternal(rows: seq<DNSRecord>, rec: DNSRecord, allowUpdate: bool, newId: string, now: nat): Result {
    var r := Stored(rec, now);
    var i := IndexOfKey(rows, KeyOf(r));
    if i >= 0 then
      if allowUpdate then
        Result(rows[i := r.(id := UpdatedId(r.id, rows[i].id, newId), updatedOn := now)], true)
      else Result(rows, true)
    else if TrimSpace(r.id) == "" then Result(rows + [r.(id := newId)], true)
    else if IndexOfId(rows, r.id) >= 0 then Result(rows, false)
    else Result(rows + [r], true)
  }

  function Add(rows: seq<DNSRecord>, rec: DNSRecord, allowUpdate: bool, env: Validator, newId: string,
               now: nat): Result {
    var r := Prepared(rec);
    if Complete(r, env) then AddInternal(rows, r.(addedOn := now), allowUpdate, newId, now)
    else Result(rows, false)
  }

  function UpdateById(rows: seq<DNSRecord>, id: string, rec: DNSRecord, env: Validator, now: nat): Result {
    var i := IndexOfId(rows, id);
    var r := Prepared(rec);
    if i < 0 || !Complete(r, env) then Result(rows, false)
    else
      var other := IndexOfKey(rows, KeyOf(r));
      if other >= 0 && other != i then Result(rows, false)
      else
        var prior := rows[i];
        Result(rows[i := r.(id := TrimSpace(id), addedOn := prior.addedOn,
                            mac := if r.mac == "" then prior.mac else r.mac,
                            cacheRecord := prior.cacheRecord, lastQuery := prior.lastQuery, updatedOn := now)], true)
  }

  function RemoveAt(rows: seq<DNSRecord>, i: nat): seq<DNSRecord>
    requires i < |rows|
  {
    rows[..i] + rows[i + 1..]
  }

  function RemoveById(rows: seq<DNSRecord>, id: string): Result {
    var i := IndexOfId(rows, id);
    if i < 0 then Result(rows, false) else Result(RemoveAt(rows, i), true)
  }

  /** remove <Name> <Type> <Value>; the two-argument form reaches this with the type it detected. */
  function RemoveTriple(rows: seq<DNSRecord>, name: string, rtype: string, value: string): Result {
    var i := IndexOfKey(rows, TargetKey(TrimSpace(name), rtype, value));
    if TrimSpace(name) == "" || rtype == "" || value == "" || i < 0 then Result(rows, false)
    else Result(RemoveAt(rows, i), true)
  }

  function NameOf(r: DNSRecord): string {
    NameKey(r.name)
  }

  /** remove <Name>: only when exactly one row has the name, and that row has a type and a value. */
  function RemoveByName(rows: seq<DNSRecord>, name: string): Result {
    var ps := PositionsBy(rows, NameOf, NameKey(TrimSpace(name)));
    if TrimSpace(name) == "" || |ps| != 1 || rows[ps[0]].rtype == "" || rows[ps[0]].value == "" then Result(rows, false)
    else Result(RemoveAt(rows, ps[0]), true)
  }

  // ---- The operations as the source runs them ----

  method AddRecord(rows: seq<DNSRecord>, rec: DNSRecord, allowUpdate: bool, env: Validator, newId: string, now: nat)
    returns (out: seq<DNSRecord>, ok: bool)
    ensures Result(out, ok) == Add(rows, rec, allowUpdate, env, newId, now)
  {
    out, ok := rows, false;
    var r := rec.(name := CanonName(rec.name), value := TrimSpace(rec.value), rtype := NormType(rec.rtype));
    if r.name == "" || r.rtype == "" || r.value == "" || r.rtype !in env.knownTypes {
      return;
    }
    if r.ttl == 0 {
      r := r.(ttl := 3600);
    }
    if !env.validValue(r.rtype, r.value) {
      return;
    }
    r := r.(addedOn := now, name := CanonName(r.name), rtype := NormType(r.rtype));
    if r.addedOn == 0 {
      r := r.(addedOn := now);
    }
    var existing := FindDNSRecordIndex(rows, r.name, r.rtype, r.value);
    if existing != -1 {
      if allowUpdate {
        if TrimSpace(r.id) == "" {
          r := r.(id := rows[existing].id);
        }
        if TrimSpace(r.id) == "" {
          r := r.(id := newId);
        }
        out := out[existing := r.(updatedOn := now)];
      }
      return out, true;
    }
    if TrimSpace(r.id) != "" {
      var clash := FindDNSRecordIndexByID(rows, r.id);
      if clash != -1 {
        return;
      }
    } else {
      r := r.(id := newId);
    }
    return out + [r], true;
  }

  method UpdateRecordByID(rows: seq<DNSRecord>, id: string, rec: DNSRecord, env: Validator, now: nat)
    returns (out: seq<DNSRecord>, ok: bool)
    ensures Result(out, ok) == UpdateById(rows, id, rec, env, now)
  {
    out, ok := rows, false;
    var i := FindDNSRecordIndexByID(rows, id);
    if i == -1 {
      return;
    }
    var r := Prepared(rec);
    if !Complete(r, env) {
      return;
    }
    var other := FindDNSRecordIndex(rows, r.name, r.rtype, r.value);
    if other != -1 && other != i {
      return;
    }
    var prior := rows[i];
    r := r.(id := TrimSpace(id), addedOn := prior.addedOn);
    if r.mac == "" {
      r := r.(mac := prior.mac);
    }
    r := r.(cacheRecord := prior.cacheRecord, lastQuery := prior.lastQuery, updatedOn := now);
    return rows[i := r], true;
  }

  method RemoveNamed(rows: seq<DNSRecord>, fullName: string) returns (out: seq<DNSRecord>, ok: bool)
    ensures Result(out, ok) == RemoveByName(rows, fullName)
  {
    out, ok := rows, false;
    var name := TrimSpace(fullName);
    if name == "" {
      return;
    }
    var target := NameKey(name);
    var existing := -1;
    for i := 0 to |rows|
      invariant existing == -1 ==> forall j :: 0 <= j < i ==> NameOf(rows[j]) != target
      invariant existing != -1 ==> 0 <= existing < i && NameOf(rows[existing]) == target
      invariant existing != -1 ==> forall j :: 0 <= j < i && j != existing ==> NameOf(rows[j]) != target
    {
      if NameKey(rows[i].name) == target {
        if existing != -1 {
          assert existing in PositionsBy(rows, NameOf, target) && i in PositionsBy(rows, NameOf, target);
          return;
        }
        existing := i;
      }
    }
    OnePosition(rows, NameOf, target, existing);
    if existing == -1 || rows[existing].rtype == "" || rows[existing].value == "" {
      return;
    }
    return rows[..existing] + rows[existing + 1..], true;
  }

  method RemoveExact(rows: seq<DNSRecord>, fullName: string, rtype: string, value: string)
    returns (out: seq<DNSRecord>, ok: bool)
    ensures Result(out, ok) == RemoveTriple(rows, fullName, rtype, value)
  {
    out, ok := rows, false;
    var name := TrimSpace(fullName);
    if name == "" || rtype == "" || value == "" {
      return;
    }
    var i := FindDNSRecordIndex(rows, name, rtype, value);
    if i == -1 {
      return;
    }
    return rows[..i] + rows[i + 1..], true;
  }

  method RemoveRecordByID(rows: seq<DNSRecord>, id: string) returns (out: seq<DNSRecord>, ok: bool)
    ensures Result(out, ok) == RemoveById(rows, id)
  {
    var i := FindDNSRecordIndexByID(rows, id);
    if i == -1 {
      return rows, false;
    }
    return rows[..i] + rows[i + 1..], true;
  }

  // ---- What the operations mean, in terms of rows, spellings and fields alone ----

  function WithId(id: string): DNSRecord -> bool {
    (r: DNSRecord) => TrimSpace(r.id) == TrimSpace(id)
  }

  function Meaning(name: string, rtype: string, value: string): DNSRecord -> bool {
    (r: DNSRecord) => Means(r, name, rtype, value)
  }

  lemma FindIdMeaning(rows: seq<DNSRecord>, id: string)
    ensures var i := IndexOfId(rows, id);
            if TrimSpace(id) == "" || NoneAt(rows, WithId(id)) then i == -1 else FirstAt(rows, WithId(id), i)
  {
    IndexIsFirst(rows, IdKey, TrimSpace(id), WithId(id));
  }

  lemma FindMeaning(rows: seq<DNSRecord>, name: string, rtype: string, value: string)
    ensures var i := IndexOfKey(rows, TargetKey(name, rtype, value));
            if NoneAt(rows, Meaning(name, rtype, value)) then i == -1 else FirstAt(rows, Meaning(name, rtype, value), i)
  {
    forall r | r in rows ensures KeyOf(r) == TargetKey(name, rtype, value) <==> Meaning(name, rtype, value)(r) {
      KeyIff(r, name, rtype, value);
    }
    IndexIsFirst(rows, KeyOf, TargetKey(name, rtype, value), Meaning(name, rtype, value));
  }

  lemma RemovedAt(rows: seq<DNSRecord>, i: nat)
    requires i < |rows|
    ensures Without(rows, i, RemoveAt(rows, i))
  {
  }

  /** Removing by id deletes the first row with that id, and fails without a change if the id is blank or unknown. */
  lemma RemoveByIdMeaning(rows: seq<DNSRecord>, id: string)
    ensures var res := RemoveById(rows, id);
            if TrimSpace(id) == "" || NoneAt(rows, WithId(id)) then res == Result(rows, false)
            else res.ok && exists i: nat :: FirstAt(rows, WithId(id), i) && Without(rows, i, res.rows)
  {
    var i := IndexOfId(rows, id);
    FindIdMeaning(rows, id);
    if i >= 0 {
      RemovedAt(rows, i);
    }
  }

  /** Removing by name, type and value deletes the first row that means that record. */
  lemma RemoveTripleMeaning(rows: seq<DNSRecord>, name: string, rtype: string, value: string)
    ensures var res, p := RemoveTriple(rows, name, rtype, value), Meaning(name, rtype, value);
            if TrimSpace(name) == "" || rtype == "" || value == "" || NoneAt(rows, p) then res == Result(rows, false)
            else res.ok && exists i: nat :: FirstAt(rows, p, i) && Without(rows, i, res.rows)
  {
    var i := IndexOfKey(rows, TargetKey(TrimSpace(name), rtype, value));
    TrimSpaceTwice(name);
    assert TargetKey(TrimSpace(name), rtype, value) == TargetKey(name, rtype, value);
    FindMeaning(rows, name, rtype, value);
    if i >= 0 {
      RemovedAt(rows, i);
    }
  }

  /** `i` is the only row with that name, and it has a type and a value. */
  predicate OnlyNamed(rows: seq<DNSRecord>, name: string, i: nat) {
    && i < |rows| && rows[i].rtype != "" && rows[i].value != ""
    && forall j :: 0 <= j < |rows| ==> (SameName(rows[j].name, name) <==> j == i)
  }

  /** Removing by name alone deletes the only row with that name, and fails without a change if there is no such row. */
  lemma RemoveByNameMeaning(rows: seq<DNSRecord>, name: string)
    ensures var res := RemoveByName(rows, name);
            && (res.ok <==> TrimSpace(name) != "" && exists i: nat :: OnlyNamed(rows, name, i))
            && (!res.ok ==> res.rows == rows)
            && (forall i: nat :: res.ok && OnlyNamed(rows, name, i) ==> Without(rows, i, res.rows))
  {
    var k := NameKey(name);
    TrimSpaceTwice(name);
    assert NameKey(TrimSpace(name)) == k;
    forall j | 0 <= j < |rows| ensures NameOf(rows[j]) == k <==> SameName(rows[j].name, name) {
      NameKeyIff(rows[j].name, name);
    }
    var ps := PositionsBy(rows, NameOf, k);
    forall i: nat | OnlyNamed(rows, name, i) ensures ps == [i] && Without(rows, i, RemoveAt(rows, i)) {
      OnePosition(rows, NameOf, k, i);
      RemovedAt(rows, i);
    }
    if |ps| == 1 && rows[ps[0]].rtype != "" && rows[ps[0]].value != "" {
      assert forall j :: 0 <= j < |rows| && NameOf(rows[j]) == k ==> j in ps;
      assert OnlyNamed(rows, name, ps[0]);
    }
  }

  /** A record that passes the checks: nothing blank, a known type, and a value valid for it. */
  predicate Acceptable(rec: DNSRecord, env: Validator) {
    && TrimDots(TrimSpace(rec.name)) != "" && TrimSpace(rec.rtype) != "" && TrimSpace(rec.value) != ""
    && Upper(TrimSpace(rec.rtype)) in env.knownTypes
    && env.validValue(Upper(TrimSpace(rec.rtype)), TrimSpace(rec.value))
  }

  /** `p` is `rec` with its name, type and value tidied and a TTL of 0 replaced by an hour. */
  predicate Tidies(rec: DNSRecord, p: DNSRecord) {
    && p.name == TrimDots(TrimSpace(rec.name)) && p.rtype == Upper(TrimSpace(rec.rtype))
    && p.value == TrimSpace(rec.value)
    && (if rec.ttl == 0 then p.ttl == 3600 else p.ttl == rec.ttl)
    && p.id == rec.id && p.mac == rec.mac && p.cacheRecord == rec.cacheRecord && p.lastQuery == rec.lastQuery
    && p.updatedOn == rec.updatedOn
  }

  lemma PreparedMeaning(rec: DNSRecord, env: Validator)
    ensures Tidies(rec, Prepared(rec)) && (Complete(Prepared(rec), env) <==> Acceptable(rec, env))
  {
  }

  /** The row `x` that an update by id puts in place of `prior`. */
  predicate Replaces(prior: DNSRecord, rec: DNSRecord, id: string, now: nat, x: DNSRecord) {
    && Tidies(rec, x.(id := rec.id, mac := rec.mac, cacheRecord := rec.cacheRecord, lastQuery := rec.lastQuery,
                      updatedOn := rec.updatedOn))
    && x.id == TrimSpace(id) && x.updatedOn == now && x.addedOn == prior.addedOn
    && x.cacheRecord == prior.cacheRecord && x.lastQuery == prior.lastQuery
    && (if rec.mac == "" then x.mac == prior.mac else x.mac == rec.mac)
  }

  /** Updating by id replaces the first row with that id, keeping what belongs to the row. It fails without a change
      if the id is blank or unknown, the record is not acceptable, or the first row that means the new record is
      another one. */
  lemma UpdateMeaning(rows: seq<DNSRecord>, id: string, rec: DNSRecord, env: Validator, now: nat)
    ensures var res := UpdateById(rows, id, rec, env, now);
            var same := Meaning(TrimDots(TrimSpace(rec.name)), rec.rtype, rec.value);
            && (!res.ok ==> res.rows == rows)
            && (res.ok <==>
                && TrimSpace(id) != "" && Acceptable(rec, env)
                && exists i: nat :: FirstAt(rows, WithId(id), i) && (NoneAt(rows, same) || FirstAt(rows, same, i)))
            && (forall i: nat :: res.ok && FirstAt(rows, WithId(id), i) ==>
                  exists x :: Replaces(rows[i], rec, id, now, x) && With(rows, i, x, res.rows))
  {
    var r, i := Prepared(rec), IndexOfId(rows, id);
    var res := UpdateById(rows, id, rec, env, now);
    PreparedMeaning(rec, env);
    FindIdMeaning(rows, id);
    UpdateClash(rows, rec);
    if res.ok {
      var x := res.rows[i];
      assert Replaces(rows[i], rec, id, now, x) && With(rows, i, x, res.rows);
    }
  }

  lemma UpdateClash(rows: seq<DNSRecord>, rec: DNSRecord)
    ensures var j := IndexOfKey(rows, KeyOf(Prepared(rec)));
            var same := Meaning(TrimDots(TrimSpace(rec.name)), rec.rtype, rec.value);
            if NoneAt(rows, same) then j == -1 else FirstAt(rows, same, j)
  {
    NormTypeIdempotent(rec.rtype);
    TrimSpaceTwice(rec.value);
    assert KeyOf(Prepared(rec)) == TargetKey(CanonName(rec.name), rec.rtype, rec.value);
    FindMeaning(rows, CanonName(rec.name), rec.rtype, rec.value);
  }

  /** The row `x` that adding `rec` leaves, with the given id and time of update. */
  predicate Enters(rec: DNSRecord, id: string, updatedOn: nat, now: nat, x: DNSRecord) {
    && x.name == TrimDots(TrimSpace(rec.name)) && x.rtype == Upper(TrimSpace(rec.rtype)) && x.value == rec.value
    && x.ttl == rec.ttl && x.mac == rec.mac && x.cacheRecord == rec.cacheRecord && x.lastQuery == rec.lastQuery
    && x.id == id && x.updatedOn == updatedOn && x.addedOn == if rec.addedOn == 0 then now else rec.addedOn
  }

  /** The row `x` that adding `rec` with update leaves in place of `prior`. */
  predicate Refreshes(prior: DNSRecord, rec: DNSRecord, newId: string, now: nat, x: DNSRecord) {
    && Enters(rec, x.id, now, now, x)
    && (TrimSpace(rec.id) != "" ==> x.id == rec.id)
    && (TrimSpace(rec.id) == "" && TrimSpace(prior.id) != "" ==> x.id == prior.id)
    && (TrimSpace(rec.id) == "" && TrimSpace(prior.id) == "" ==> x.id == newId)
  }

  /** Adding a record that no row means appends it, under its own id or else a new one, and fails if its id is
      taken. If a row means it already, nothing happens, or, with update allowed, the first such row is replaced and
      keeps its id unless the record brings one. */
  lemma AddInternalMeaning(rows: seq<DNSRecord>, rec: DNSRecord, allowUpdate: bool, newId: string, now: nat)
    ensures var res := AddInternal(rows, rec, allowUpdate, newId, now);
            var same, blank := Meaning(TrimDots(TrimSpace(rec.name)), rec.rtype, rec.value), TrimSpace(rec.id) == "";
            if NoneAt(rows, same) then
              if blank || NoneAt(rows, WithId(rec.id)) then
                var id := if blank then newId else rec.id;
                res.ok && exists x :: Enters(rec, id, rec.updatedOn, now, x) && With(rows, |rows|, x, res.rows)
              else res == Result(rows, false)
            else if allowUpdate then
              res.ok && exists i: nat, x ::
                FirstAt(rows, same, i) && With(rows, i, x, res.rows) && Refreshes(rows[i], rec, newId, now, x)
            else res == Result(rows, true)
  {
    var r := Stored(rec, now);
    var res := AddInternal(rows, rec, allowUpdate, newId, now);
    NormTypeIdempotent(rec.rtype);
    assert KeyOf(r) == TargetKey(CanonName(rec.name), rec.rtype, rec.value);
    FindMeaning(rows, CanonName(rec.name), rec.rtype, rec.value);
    FindIdMeaning(rows, rec.id);
    var i := IndexOfKey(rows, KeyOf(r));
    if i >= 0 && allowUpdate {
      assert With(rows, i, res.rows[i], res.rows);
    } else if |res.rows| > |rows| {
      assert With(rows, |rows|, res.rows[|rows|], res.rows);
    }
  }

  /** AddRecord refuses what is not acceptable, and otherwise adds the tidied record dated now. */
  lemma AddMeaning(rows: seq<DNSRecord>, rec: DNSRecord, allowUpdate: bool, env: Validator, newId: string, now: nat)
    ensures var res := Add(rows, rec, allowUpdate, env, newId, now);
            if Acceptable(rec, env) then
              exists p :: Tidies(rec, p) && p.addedOn == now && res == AddInternal(rows, p, allowUpdate, newId, now)
            else res == Result(rows, false)
  {
    PreparedMeaning(rec, env);
    if Acceptable(rec, env) {
      assert Tidies(rec, Prepared(rec).(addedOn := now));
    }
  }

  // ---- What every run of operations keeps ----

  predicate Any(r: DNSRecord) {
    true
  }

  predicate HasId(r: DNSRecord) {
    IdKey(r) != ""
  }

  ghost predicate UniqueKeys(rows: seq<DNSRecord>) {
    DistinctBy(rows, Any, KeyOf)
  }

  ghost predicate UniqueIds(rows: seq<DNSRecord>) {
    DistinctBy(rows, HasId, IdKey)
  }

  /** NewRecordID's promise: not blank and not in use. */
  predicate Fresh(rows: seq<DNSRecord>, newId: string) {
    TrimSpace(newId) != "" && IndexOfId(rows, newId) < 0
  }

  /** AddRecord, the add command with the record it parsed, update by id, and the ways of removing. */
  datatype Op =
    | AddOp(rec: DNSRecord, allowUpdate: bool, newId: string, now: nat)
    | CommandOp(rec: DNSRecord, allowUpdate: bool, newId: string, now: nat)
    | UpdateOp(id: string, rec: DNSRecord, now: nat)
    | RemoveTripleOp(name: string, rtype: string, value: string)
    | RemoveNameOp(name: string)
    | RemoveIdOp(id: string)

  function Apply(rows: seq<DNSRecord>, op: Op, env: Validator): Result {
    match op
    case AddOp(rec, allowUpdate, newId, now) => Add(rows, rec, allowUpdate, env, newId, now)
    case CommandOp(rec, allowUpdate, newId, now) => AddInternal(rows, rec, allowUpdate, newId, now)
    case UpdateOp(id, rec, now) => UpdateById(rows, id, rec, env, now)
    case RemoveTripleOp(name, rtype, value) => RemoveTriple(rows, name, rtype, value)
    case RemoveNameOp(name) => RemoveByName(rows, name)
    case RemoveIdOp(id) => RemoveById(rows, id)
  }

  function Run(rows: seq<DNSRecord>, ops: seq<Op>, env: Validator): seq<DNSRecord>
    decreases |ops|
  {
    if ops == [] then rows else Run(Apply(rows, ops[0], env).rows, ops[1..], env)
  }

  /** Every add gets a fresh id to use, and add-with-update comes with a blank id, as its callers call it. */
  ghost predicate WellCalled(rows: seq<DNSRecord>, ops: seq<Op>, env: Validator)
    decreases |ops|
  {
    ops != [] ==>
      && (ops[0].AddOp? || ops[0].CommandOp? ==>
            Fresh(rows, ops[0].newId) && (ops[0].allowUpdate ==> !HasId(ops[0].rec)))
      && WellCalled(Apply(rows, ops[0], env).rows, ops[1..], env)
  }

  /** A row's key does not depend on how often its type has been normalised, nor on the other fields. */
  lemma StoredKey(rec: DNSRecord, id: string, updatedOn: nat, now: nat)
    ensures KeyOf(Stored(rec, now).(id := id, updatedOn := updatedOn)) == KeyOf(Stored(rec, now))
  {
  }

  /** Adding keeps keys distinct, whatever the ids. */
  lemma AddKeepsKeys(rows: seq<DNSRecord>, rec: DNSRecord, allowUpdate: bool, newId: string, now: nat)
    requires UniqueKeys(rows)
    ensures UniqueKeys(AddInternal(rows, rec, allowUpdate, newId, now).rows)
  {
    var r := Stored(rec, now);
    var i := IndexOfKey(rows, KeyOf(r));
    if i >= 0 {
      if allowUpdate {
        var x := r.(id := UpdatedId(r.id, rows[i].id, newId), updatedOn := now);
        StoredKey(rec, x.id, now, now);
        DistinctUpdate(rows, Any, KeyOf, i, x);
      }
    } else {
      StoredKey(rec, newId, r.updatedOn, now);
      DistinctAppend(rows, Any, KeyOf, r.(id := newId));
      DistinctAppend(rows, Any, KeyOf, r);
    }
  }

  /** The row an add-with-update would give the caller's id to, although another row already has that id. */
  ghost predicate StealsId(rows: seq<DNSRecord>, rec: DNSRecord, allowUpdate: bool, now: nat) {
    var i := IndexOfKey(rows, KeyOf(Stored(rec, now)));
    allowUpdate && i >= 0 && HasId(rec) &&
    exists j :: 0 <= j < |rows| && j != i && IdKey(rows[j]) == IdKey(rec)
  }

  /** Two rows with ids of their own; updating the first with the second's id leaves two rows with one id. */
  lemma UpdateCanStealId(x: DNSRecord, y: DNSRecord, newId: string, now: nat)
    requires HasId(x) && HasId(y) && IdKey(x) != IdKey(y) && Stored(x, now) == x
    ensures UniqueIds([x, y]) && !UniqueIds(AddInternal([x, y], x.(id := y.id), true, newId, now).rows)
  {
    var rows, rec := [x, y], x.(id := y.id);
    assert KeyOf(Stored(rec, now)) == KeyOf(rows[0]);
    var out := AddInternal(rows, rec, true, newId, now).rows;
    assert IdKey(out[0]) == IdKey(out[1]) && HasId(out[0]) && HasId(out[1]);
  }

  /** Adding keeps ids distinct exactly when an update does not hand out an id another row holds. */
  lemma AddKeepsIdsIff(rows: seq<DNSRecord>, rec: DNSRecord, allowUpdate: bool, newId: string, now: nat)
    requires UniqueIds(rows) && Fresh(rows, newId)
    ensures UniqueIds(AddInternal(rows, rec, allowUpdate, newId, now).rows) <==> !StealsId(rows, rec, allowUpdate, now)
  {
    var r := Stored(rec, now);
    var i := IndexOfKey(rows, KeyOf(r));
    if i >= 0 {
      var x := r.(id := UpdatedId(r.id, rows[i].id, newId), updatedOn := now);
      DistinctUpdate(rows, HasId, IdKey, i, x);
    } else {
      DistinctAppend(rows, HasId, IdKey, r.(id := newId));
      DistinctAppend(rows, HasId, IdKey, r);
    }
  }

  lemma UpdateKeepsBoth(rows: seq<DNSRecord>, id: string, rec: DNSRecord, env: Validator, now: nat)
    ensures UniqueKeys(rows) ==> UniqueKeys(UpdateById(rows, id, rec, env, now).rows)
    ensures UniqueIds(rows) ==> UniqueIds(UpdateById(rows, id, rec, env, now).rows)
  {
    var i := IndexOfId(rows, id);
    var out := UpdateById(rows, id, rec, env, now);
    if out.ok {
      var x := out.rows[i];
      assert KeyOf(x) == KeyOf(Prepared(rec));
      TrimSpaceTwice(id);
      if UniqueKeys(rows) { DistinctUpdate(rows, Any, KeyOf, i, x); }
      if UniqueIds(rows) { DistinctUpdate(rows, HasId, IdKey, i, x); }
    }
  }

  /** Every operation is local: it leaves the table alone, or replaces, appends or deletes a single row. */
  ghost predicate OneRowAtMost(before: seq<DNSRecord>, after: seq<DNSRecord>) {
    || after == before
    || (|after| == |before| + 1 && before <= after)
    || (|after| == |before| && exists i :: 0 <= i < |before| && after == before[i := after[i]])
    || (exists i :: 0 <= i < |before| && after == RemoveAt(before, i))
  }

  lemma ApplyIsLocal(rows: seq<DNSRecord>, op: Op, env: Validator)
    ensures OneRowAtMost(rows, Apply(rows, op, env).rows)
    ensures !Apply(rows, op, env).ok ==> Apply(rows, op, env).rows == rows
  {
  }

  lemma RemoveKeepsBoth(rows: seq<DNSRecord>, op: Op, env: Validator)
    requires !op.AddOp? && !op.CommandOp? && !op.UpdateOp?
    ensures UniqueKeys(rows) ==> UniqueKeys(Apply(rows, op, env).rows)
    ensures UniqueIds(rows) ==> UniqueIds(Apply(rows, op, env).rows)
  {
    forall i | 0 <= i < |rows|
      ensures UniqueKeys(rows) ==> UniqueKeys(RemoveAt(rows, i))
      ensures UniqueIds(rows) ==> UniqueIds(RemoveAt(rows, i))
    {
      if UniqueKeys(rows) { DistinctRemove(rows, Any, KeyOf, i); }
      if UniqueIds(rows) { DistinctRemove(rows, HasId, IdKey, i); }
    }
  }

  /** No sequence of operations, well called or not, ever produces two rows with the same key. */
  lemma {:induction false} RunKeepsKeys(rows: seq<DNSRecord>, ops: seq<Op>, env: Validator)
    requires UniqueKeys(rows)
    ensures UniqueKeys(Run(rows, ops, env))
    decreases |ops|
  {
    if ops != [] {
      match ops[0] {
        case AddOp(rec, allowUpdate, newId, now) =>
          AddKeepsKeys(rows, Prepared(rec).(addedOn := now), allowUpdate, newId, now);
        case CommandOp(rec, allowUpdate, newId, now) => AddKeepsKeys(rows, rec, allowUpdate, newId, now);
        case UpdateOp(id, rec, now) => UpdateKeepsBoth(rows, id, rec, env, now);
        case _ => RemoveKeepsBoth(rows, ops[0], env);
      }
      RunKeepsKeys(Apply(rows, ops[0], env).rows, ops[1..], env);
    }
  }

  /** Well-called runs also keep the non-blank ids distinct. */
  lemma {:induction false} RunKeepsIds(rows: seq<DNSRecord>, ops: seq<Op>, env: Validator)
    requires UniqueIds(rows) && WellCalled(rows, ops, env)
    ensures UniqueIds(Run(rows, ops, env))
    decreases |ops|
  {
    if ops != [] {
      match ops[0] {
        case AddOp(rec, allowUpdate, newId, now) =>
          AddKeepsIdsIff(rows, Prepared(rec).(addedOn := now), allowUpdate, newId, now);
        case CommandOp(rec, allowUpdate, newId, now) => AddKeepsIdsIff(rows, rec, allowUpdate, newId, now);
        case UpdateOp(id, rec, now) => UpdateKeepsBoth(rows, id, rec, env, now);
        case _ => RemoveKeepsBoth(rows, ops[0], env);
      }
      RunKeepsIds(Apply(rows, ops[0], env).rows, ops[1..], env);
    }
  }

  // ---- Adding and then removing under the same name ----

  /** The name does not end in a space once its trailing dots are gone ("a. ." does). */
  predicate SettledName(name: string) {
    var c := CanonName(name);
    c != "" ==> !IsSpace(c[|c| - 1])
  }

  /** Canonicalising again changes a name exactly when it was not settled. */
  lemma CanonAgain(name: string)
    ensures SettledName(name) ==> CanonName(CanonName(name)) == CanonName(name)
    ensures !SettledName(name) ==> |CanonName(CanonName(name))| < |CanonName(name)|
    ensures |CanonName(CanonName(name))| <= |CanonName(name)|
  {
    var lo, hi := TrimSpaceShape(name);
    TrimDotsShape(TrimSpace(name));
    var c := CanonName(name);
    var lo2, hi2 := TrimSpaceShape(c);
    TrimDotsShape(TrimSpace(c));
    if c != "" && SettledName(name) {
      assert c[0] == name[lo];
      TrimSpaceFixed(c);
    }
  }

  /** Adding a new record and removing it by the same words restores the table exactly for settled names:
      a name such as "a. ." is stored under a shorter name than the one the removal looks for. */
  lemma AddThenRemoveIff(rows: seq<DNSRecord>, rec: DNSRecord, env: Validator, newId: string, now: nat)
    requires Complete(Prepared(rec), env) && !HasId(rec)
    requires IndexOfKey(rows, KeyOf(Stored(Prepared(rec), now))) < 0
    ensures RemoveTriple(Add(rows, rec, false, env, newId, now).rows, rec.name, rec.rtype, rec.value) ==
            Result(rows, true)
            <==> SettledName(rec.name)
  {
    var r := Stored(Prepared(rec).(addedOn := now), now).(id := newId);
    AddAppends(rows, rec, env, newId, now);
    StoredMatchesTargetIff(rec, r);
    AppendThenDelete(rows, KeyOf, r, TargetKey(TrimSpace(rec.name), rec.rtype, rec.value));
    SpellingNotBlank(rec, env);
  }

  /** One round leaves "a. ." unsettled, so such a record stays in the table. */
  lemma DottedNameStays(rows: seq<DNSRecord>, rec: DNSRecord, env: Validator, newId: string, now: nat)
    requires rec.name == "a. ." && Complete(Prepared(rec), env) && !HasId(rec)
    requires IndexOfKey(rows, KeyOf(Stored(Prepared(rec), now))) < 0
    ensures CanonName("a. .") == "a. " && CanonName("a. ") == "a"
    ensures RemoveTriple(Add(rows, rec, false, env, newId, now).rows, rec.name, rec.rtype, rec.value) !=
            Result(rows, true)
  {
    CanonOfDotted();
    AddThenRemoveIff(rows, rec, env, newId, now);
  }

  lemma CanonOfDotted()
    ensures CanonName("a. .") == "a. " && CanonName("a. ") == "a" && !SettledName("a. .")
  {
    TrimSpaceFixed("a. .");
    assert "a. ."[..3] == "a. " && TrimDots("a. .") == "a. ";
    assert TrimLeft("a. ") == "a. " && "a. "[..2] == "a." && TrimSpace("a. ") == "a.";
    assert "a."[..1] == "a" && TrimDots("a.") == "a";
  }

  lemma AddAppends(rows: seq<DNSRecord>, rec: DNSRecord, env: Validator, newId: string, now: nat)
    requires Complete(Prepared(rec), env) && !HasId(rec)
    requires IndexOfKey(rows, KeyOf(Stored(Prepared(rec), now))) < 0
    ensures var r := Stored(Prepared(rec).(addedOn := now), now).(id := newId);
            && Add(rows, rec, false, env, newId, now).rows == rows + [r]
            && forall j :: 0 <= j < |rows| ==> KeyOf(rows[j]) != KeyOf(r)
  {
  }

  lemma SpellingNotBlank(rec: DNSRecord, env: Validator)
    requires Complete(Prepared(rec), env)
    ensures TrimSpace(rec.name) != "" && rec.rtype != "" && rec.value != ""
  {
  }

  lemma StoredMatchesTargetIff(rec: DNSRecord, r: DNSRecord)
    requires r.name == CanonName(CanonName(rec.name)) && r.rtype == NormType(NormType(rec.rtype))
             && r.value == TrimSpace(rec.value)
    ensures KeyOf(r) == TargetKey(TrimSpace(rec.name), rec.rtype, rec.value) <==> SettledName(rec.name)
  {
    NormTypeIdempotent(rec.rtype);
    TrimSpaceTwice(rec.name);
    TrimSpaceTwice(rec.value);
    CanonAgain(rec.name);
    CanonAgain(CanonName(rec.name));
    assert |NameKey(r.name)| == |CanonName(r.name)| && |NameKey(TrimSpace(rec.name))| == |CanonName(rec.name)|;
  }
}
