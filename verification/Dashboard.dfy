/** The live dashboard (data/dashboard_live.go): a bounded log and pruned per-second and per-minute aggregates that must
    agree with the full history of resolutions. */
module Dashboard {
  import opened Options
  import opened Search
  import opened Text

  /** One resolved query; `at` is in Unix seconds, and `row` holds the columns that are only displayed. */
  datatype Resolution = Resolution(at: int, kind: Kind, durationMs: real, row: string)

  datatype SecondAgg = SecondAgg(total: nat, local: nat, cache: nat, upstream: nat, none: nat, blocked: nat)
  datatype MinuteAgg = MinuteAgg(count: nat, sumMs: real)

  const SERIES_SLOTS := 60
  const SECOND_RETAIN := 65
  const DEFAULT_CAP := 1000
  const MAX_CAP := 1000000
  const NO_SECOND := SecondAgg(0, 0, 0, 0, 0, 0)
  const NO_MINUTE := MinuteAgg(0, 0.0)

  /** Go's integer division of Unix seconds by 60, which truncates toward zero. */
  function MinuteKey(at: int): int {
    if at >= 0 then at / 60 else -((-at) / 60)
  }

  datatype Kind = Local | Cache | Upstream | NoAnswer | Blocked | Other

  function KindOf(outcome: string): Kind {
    var o := Lower(TrimSpace(outcome));
    if o == "local" then Local
    else if o == "cache" then Cache
    else if o == "upstream" then Upstream
    else if o == "none" then NoAnswer
    else if o == "blocked" then Blocked
    else Other
  }

  function Bump(a: SecondAgg, kind: Kind): SecondAgg {
    var b := a.(total := a.total + 1);
    match kind
    case Local => b.(local := b.local + 1)
    case Cache => b.(cache := b.cache + 1)
    case Upstream => b.(upstream := b.upstream + 1)
    case NoAnswer => b.(none := b.none + 1)
    case Blocked => b.(blocked := b.blocked + 1)
    case Other => b
  }

  function Plus(a: SecondAgg, b: SecondAgg): SecondAgg {
    SecondAgg(a.total + b.total, a.local + b.local, a.cache + b.cache, a.upstream + b.upstream, a.none + b.none,
              a.blocked + b.blocked)
  }

  // ---- Direct counts over a full history ----

  predicate Counted(e: Resolution, from: int, to: int, kind: Option<Kind>) {
    from <= e.at < to && (kind.Some? ==> e.kind == kind.value)
  }

  /** How many resolutions have from <= at < to and, if a kind is given, that kind. */
  function Count(es: seq<Resolution>, from: int, to: int, kind: Option<Kind>): nat {
    if es == [] then 0
    else Count(es[..|es| - 1], from, to, kind) + if Counted(es[|es| - 1], from, to, kind) then 1 else 0
  }

  /** A bucket's counter for a kind, or its total. */
  function Field(a: SecondAgg, kind: Option<Kind>): nat {
    match kind
    case None => a.total
    case Some(Local) => a.local
    case Some(Cache) => a.cache
    case Some(Upstream) => a.upstream
    case Some(NoAnswer) => a.none
    case Some(Blocked) => a.blocked
    case Some(Other) => 0
  }

  /** Every counter of the bucket is the direct count over [from, to). */
  ghost predicate Exact(a: SecondAgg, es: seq<Resolution>, from: int, to: int) {
    forall kind :: kind != Some(Other) ==> Field(a, kind) == Count(es, from, to, kind)
  }

  function InMinute(es: seq<Resolution>, mk: int): MinuteAgg {
    if es == [] then NO_MINUTE
    else
      var a, e := InMinute(es[..|es| - 1], mk), es[|es| - 1];
      if MinuteKey(e.at) == mk then MinuteAgg(a.count + 1, a.sumMs + e.durationMs) else a
  }

  /** The last `n` entries, or all of them. */
  function Last(es: seq<Resolution>, n: nat): seq<Resolution> {
    if |es| <= n then es else es[|es| - n..]
  }

  ghost predicate NoneAfter(es: seq<Resolution>, now: int) {
    forall e <- es :: e.at <= now
  }

  lemma {:induction false} CountSplit(es: seq<Resolution>, from: int, mid: int, to: int, kind: Option<Kind>)
    requires from <= mid <= to
    ensures Count(es, from, to, kind) == Count(es, from, mid, kind) + Count(es, mid, to, kind)
    ensures Count(es, to, to, kind) == 0
  {
    if es != [] {
      CountSplit(es[..|es| - 1], from, mid, to, kind);
    }
  }

  lemma ExactPlus(a: SecondAgg, b: SecondAgg, es: seq<Resolution>, from: int, mid: int, to: int)
    requires from <= mid <= to && Exact(a, es, from, mid) && Exact(b, es, mid, to)
    ensures Exact(Plus(a, b), es, from, to)
  {
    forall kind | kind != Some(Other) ensures Field(Plus(a, b), kind) == Count(es, from, to, kind) {
      CountSplit(es, from, mid, to, kind);
      assert Field(Plus(a, b), kind) == Field(a, kind) + Field(b, kind);
    }
  }

  lemma ExactEmpty(es: seq<Resolution>, at: int)
    ensures Exact(NO_SECOND, es, at, at)
  {
    forall kind | kind != Some(Other) ensures Field(NO_SECOND, kind) == Count(es, at, at, kind) {
      CountSplit(es, at, at, at, kind);
    }
  }

  lemma ExactAppend(a: SecondAgg, es: seq<Resolution>, e: Resolution, k: int)
    requires Exact(a, es, k, k + 1)
    ensures Exact(if e.at == k then Bump(a, e.kind) else a, es + [e], k, k + 1)
  {
    var b := if e.at == k then Bump(a, e.kind) else a;
    assert (es + [e])[..|es|] == es;
    forall kind | kind != Some(Other) ensures Field(b, kind) == Count(es + [e], k, k + 1, kind) {
      assert Field(a, kind) == Count(es, k, k + 1, kind);
    }
  }

  // ---- Aggregates that have been pruned still hold everything recent ----

  function SecondOf(m: map<int, SecondAgg>, k: int): SecondAgg {
    if k in m then m[k] else NO_SECOND
  }

  function MinuteOf(m: map<int, MinuteAgg>, k: int): MinuteAgg {
    if k in m then m[k] else NO_MINUTE
  }

  /** For every bound on the history's times, the buckets near that bound or later are the direct counts. */
  ghost predicate SecondsAgree(m: map<int, SecondAgg>, es: seq<Resolution>) {
    forall top, k :: NoneAfter(es, top) && k >= top - SECOND_RETAIN ==> Exact(SecondOf(m, k), es, k, k + 1)
  }

  ghost predicate MinutesAgree(m: map<int, MinuteAgg>, es: seq<Resolution>) {
    forall top, k :: NoneAfter(es, top) && k >= MinuteKey(top) - SERIES_SLOTS - 1 ==> MinuteOf(m, k) == InMinute(es, k)
  }

  function Kept<V>(m: map<int, V>, cut: int): map<int, V> {
    map k | k in m && k >= cut :: m[k]
  }

  lemma SecondsStep(m: map<int, SecondAgg>, es: seq<Resolution>, e: Resolution)
    requires SecondsAgree(m, es)
    ensures SecondsAgree(Kept(m[e.at := Bump(SecondOf(m, e.at), e.kind)], e.at - SECOND_RETAIN), es + [e])
  {
    var m' := Kept(m[e.at := Bump(SecondOf(m, e.at), e.kind)], e.at - SECOND_RETAIN);
    assert (es + [e])[..|es|] == es;
    forall top, k | NoneAfter(es + [e], top) && k >= top - SECOND_RETAIN
      ensures Exact(SecondOf(m', k), es + [e], k, k + 1) {
      assert e in es + [e];
      assert forall x <- es :: x in es + [e];
      assert NoneAfter(es, top);
      ExactAppend(SecondOf(m, k), es, e, k);
    }
  }

  lemma MinuteKeyMonotone(a: int, b: int)
    requires a <= b
    ensures MinuteKey(a) <= MinuteKey(b)
  {
  }

  lemma MinutesStep(m: map<int, MinuteAgg>, es: seq<Resolution>, e: Resolution)
    requires MinutesAgree(m, es)
    ensures var mk := MinuteKey(e.at); var a := MinuteOf(m, mk);
            MinutesAgree(Kept(m[mk := MinuteAgg(a.count + 1, a.sumMs + e.durationMs)], mk - SERIES_SLOTS - 1), es + [e])
  {
    var mk := MinuteKey(e.at);
    var a := MinuteOf(m, mk);
    var m' := Kept(m[mk := MinuteAgg(a.count + 1, a.sumMs + e.durationMs)], mk - SERIES_SLOTS - 1);
    assert (es + [e])[..|es|] == es;
    forall top, k | NoneAfter(es + [e], top) && k >= MinuteKey(top) - SERIES_SLOTS - 1
      ensures MinuteOf(m', k) == InMinute(es + [e], k) {
      assert e in es + [e];
      assert forall x <- es :: x in es + [e];
      assert NoneAfter(es, top);
      MinuteKeyMonotone(e.at, top);
      assert MinuteOf(m, k) == InMinute(es, k);
    }
  }

  /** The pruning loops. */
  method Prune<V>(m: map<int, V>, cut: int) returns (r: map<int, V>)
    ensures r == Kept(m, cut)
  {
    r := m;
    var todo: set<int> := m.Keys;
    while true
      invariant todo <= m.Keys
      invariant r == map k | k in m && (k in todo || k >= cut) :: m[k]
      decreases todo
    {
      if k :| k in todo {
        todo := todo - {k};
        if k < cut {
          r := r - {k};
        }
      } else {
        break;
      }
    }
  }

  method CountSecond(m: map<int, SecondAgg>, e: Resolution, ghost es: seq<Resolution>) returns (r: map<int, SecondAgg>)
    requires SecondsAgree(m, es)
    ensures SecondsAgree(r, es + [e])
  {
    SecondsStep(m, es, e);
    var sb := if e.at in m then m[e.at] else NO_SECOND;
    r := Prune(m[e.at := Bump(sb, e.kind)], e.at - SECOND_RETAIN);
  }

  method CountMinute(m: map<int, MinuteAgg>, e: Resolution, ghost es: seq<Resolution>) returns (r: map<int, MinuteAgg>)
    requires MinutesAgree(m, es)
    ensures MinutesAgree(r, es + [e])
  {
    MinutesStep(m, es, e);
    var mk := MinuteKey(e.at);
    var agg := if mk in m then m[mk] else NO_MINUTE;
    r := Prune(m[mk := MinuteAgg(agg.count + 1, agg.sumMs + e.durationMs)], mk - SERIES_SLOTS - 1);
  }

  /** The log is the end of what was recorded since the last clear, and no longer than the cap. */
  ghost predicate LogAgrees(log: seq<Resolution>, since: seq<Resolution>, cap: nat) {
    |log| <= cap && |log| <= |since| && log == since[|since| - |log|..]
  }

  /** What a change of the cap does to the log. */
  lemma TrimmedAgrees(log: seq<Resolution>, since: seq<Resolution>, cap: nat, cap': nat)
    requires LogAgrees(log, since, cap)
    ensures LogAgrees(Last(log, cap'), since, cap')
    ensures log == Last(since, cap) ==> (Last(log, cap') == Last(since, cap') <==> cap' <= cap || |since| <= cap)
  {
  }

  method AppendLog(log: seq<Resolution>, e: Resolution, cap: nat, ghost since: seq<Resolution>)
    returns (r: seq<Resolution>)
    requires cap >= 1 && LogAgrees(log, since, cap)
    ensures LogAgrees(r, since + [e], cap)
    ensures log == Last(since, cap) || |r| == cap ==> r == Last(since + [e], cap)
  {
    r := log + [e];
    if |r| > cap {
      r := r[|r| - cap..];
    }
  }

  datatype Rates = Rates(windowSeconds: nat, resolutions: real, local: real, cache: real, upstream: real, none: real,
                         blocked: real)

  function Average(a: SecondAgg, w: nat): Rates
    requires w > 0
  {
    Rates(w, a.total as real / w as real, a.local as real / w as real, a.cache as real / w as real,
          a.upstream as real / w as real, a.none as real / w as real, a.blocked as real / w as real)
  }

  /** The bucket of direct counts over [from, to). */
  function Counts(es: seq<Resolution>, from: int, to: int): SecondAgg {
    SecondAgg(Count(es, from, to, None), Count(es, from, to, Some(Local)), Count(es, from, to, Some(Cache)),
              Count(es, from, to, Some(Upstream)), Count(es, from, to, Some(NoAnswer)),
              Count(es, from, to, Some(Blocked)))
  }

  lemma ExactIsCounts(a: SecondAgg, es: seq<Resolution>, from: int, to: int)
    requires Exact(a, es, from, to)
    ensures a == Counts(es, from, to)
  {
    assert Field(a, None) == a.total && Field(a, Some(Local)) == a.local && Field(a, Some(Cache)) == a.cache;
    assert Field(a, Some(Upstream)) == a.upstream && Field(a, Some(NoAnswer)) == a.none
      && Field(a, Some(Blocked)) == a.blocked;
  }

  datatype MinutePoint = MinutePoint(minute: int, replies: nat, avgMs: real)

  function Point(mk: int, a: MinuteAgg): MinutePoint {
    MinutePoint(mk, a.count, if a.count > 0 then a.sumMs / (a.count as real) else 0.0)
  }

  // ---- What the counts mean ----

  /** The outcome is that word, in any case and with any blanks around it. */
  predicate Says(outcome: string, word: string) {
    SameText(TrimSpace(outcome), word)
  }

  predicate Names(kind: Kind, outcome: string) {
    match kind
    case Local => Says(outcome, "local")
    case Cache => Says(outcome, "cache")
    case Upstream => Says(outcome, "upstream")
    case NoAnswer => Says(outcome, "none")
    case Blocked => Says(outcome, "blocked")
    case Other =>
      !(Says(outcome, "local") || Says(outcome, "cache") || Says(outcome, "upstream") || Says(outcome, "none")
        || Says(outcome, "blocked"))
  }

  lemma SaysIff(outcome: string, word: string)
    requires forall i :: 0 <= i < |word| ==> !('A' <= word[i] <= 'Z')
    ensures Lower(TrimSpace(outcome)) == word <==> Says(outcome, word)
  {
    assert Lower(word) == word;
    LowerIff(TrimSpace(outcome), word);
  }

  lemma KindOfIff(outcome: string, kind: Kind)
    ensures KindOf(outcome) == kind <==> Names(kind, outcome)
  {
    SaysIff(outcome, "local");
    SaysIff(outcome, "cache");
    SaysIff(outcome, "upstream");
    SaysIff(outcome, "none");
    SaysIff(outcome, "blocked");
  }

  /** Second `at` lies in minute `mk`; before 1970 a minute ends with its sixtieth second. */
  predicate InMinuteOf(at: int, mk: int) {
    if at >= 0 then 60 * mk <= at < 60 * mk + 60 else 60 * mk - 60 < at <= 60 * mk
  }

  lemma MinuteKeyIff(at: int, mk: int)
    ensures MinuteKey(at) == mk <==> InMinuteOf(at, mk)
  {
  }

  /** Positions of the resolutions of [from, to) and, if a kind is given, of that kind. */
  function Resolved(es: seq<Resolution>, from: int, to: int, kind: Option<Kind>): set<nat> {
    set i: nat | i < |es| && from <= es[i].at < to && (kind == None || kind == Some(es[i].kind))
  }

  lemma ResolvedGrows(es: seq<Resolution>, from: int, to: int, kind: Option<Kind>, before: set<nat>)
    requires es != [] && before == Resolved(es[..|es| - 1], from, to, kind)
    ensures Resolved(es, from, to, kind) ==
            if Counted(es[|es| - 1], from, to, kind) then before + {|es| - 1} else before
  {
  }

  lemma {:induction false} CountIsSize(es: seq<Resolution>, from: int, to: int, kind: Option<Kind>)
    ensures Count(es, from, to, kind) == |Resolved(es, from, to, kind)|
  {
    if es != [] {
      var n := |es| - 1;
      CountIsSize(es[..n], from, to, kind);
      var before := Resolved(es[..n], from, to, kind);
      assert n !in before;
      ResolvedGrows(es, from, to, kind, before);
    }
  }

  /** So many resolutions a second over the `w` seconds before `now`. */
  predicate Rated(rate: real, w: nat, es: seq<Resolution>, now: int, kind: Option<Kind>) {
    rate * (w as real) == |Resolved(es, now - w, now, kind)| as real
  }

  lemma QuotientTimes(n: nat, w: nat)
    requires w > 0
    ensures n as real / w as real * w as real == n as real
  {
  }

  lemma CountRated(es: seq<Resolution>, now: int, w: nat, kind: Option<Kind>)
    requires w > 0
    ensures Rated(Count(es, now - w, now, kind) as real / w as real, w, es, now, kind)
  {
    CountIsSize(es, now - w, now, kind);
    QuotientTimes(Count(es, now - w, now, kind), w);
  }

  lemma AverageRated(es: seq<Resolution>, now: int, w: nat)
    requires w > 0
    ensures var r := Average(Counts(es, now - w, now), w);
            && Rated(r.resolutions, w, es, now, None) && Rated(r.local, w, es, now, Some(Local))
            && Rated(r.cache, w, es, now, Some(Cache)) && Rated(r.upstream, w, es, now, Some(Upstream))
            && Rated(r.none, w, es, now, Some(NoAnswer)) && Rated(r.blocked, w, es, now, Some(Blocked))
  {
    CountRated(es, now, w, None);
    CountRated(es, now, w, Some(Local));
    CountRated(es, now, w, Some(Cache));
    CountRated(es, now, w, Some(Upstream));
    CountRated(es, now, w, Some(NoAnswer));
    CountRated(es, now, w, Some(Blocked));
  }

  function Total(xs: seq<real>): real {
    if xs == [] then 0.0 else Total(xs[..|xs| - 1]) + xs[|xs| - 1]
  }

  function Lasts(mk: int): (Resolution, real) -> bool {
    (e: Resolution, ms: real) => InMinuteOf(e.at, mk) && ms == e.durationMs
  }

  function Outside(mk: int): Resolution -> bool {
    (e: Resolution) => !InMinuteOf(e.at, mk)
  }

  /** `ms` are the durations of the minute's resolutions, in order. */
  ghost predicate Durations(es: seq<Resolution>, mk: int, ms: seq<real>, from: seq<nat>) {
    Gathers(es, Lasts(mk), Outside(mk), ms, from)
  }

  lemma {:induction false} MinuteDurations(es: seq<Resolution>, mk: int) returns (ms: seq<real>, from: seq<nat>)
    ensures Durations(es, mk, ms, from) && InMinute(es, mk) == MinuteAgg(|ms|, Total(ms))
  {
    ms, from := [], [];
    if es != [] {
      var head, e := es[..|es| - 1], es[|es| - 1];
      ms, from := MinuteDurations(head, mk);
      assert es == head + [e];
      MinuteKeyIff(e.at, mk);
      if InMinuteOf(e.at, mk) {
        TotalGrows(ms, e.durationMs);
        ms, from := OneMoreDuration(es, head, e, mk, ms, from);
      } else {
        OtherMinute(es, head, e, mk, ms, from);
      }
    }
  }

  lemma TotalGrows(xs: seq<real>, x: real)
    ensures Total(xs + [x]) == Total(xs) + x
  {
    assert (xs + [x])[..|xs|] == xs;
  }

  lemma OneMoreDuration(es: seq<Resolution>, head: seq<Resolution>, e: Resolution, mk: int, ms: seq<real>,
                        from: seq<nat>)
    returns (ms': seq<real>, from': seq<nat>)
    requires es == head + [e] && Durations(head, mk, ms, from) && InMinuteOf(e.at, mk)
    ensures Durations(es, mk, ms', from') && ms' == ms + [e.durationMs]
  {
    GathersTake(head, Lasts(mk), Outside(mk), ms, from, e, e.durationMs);
    ms', from' := ms + [e.durationMs], from + [|head|];
  }

  lemma OtherMinute(es: seq<Resolution>, head: seq<Resolution>, e: Resolution, mk: int, ms: seq<real>, from: seq<nat>)
    requires es == head + [e] && Durations(head, mk, ms, from) && !InMinuteOf(e.at, mk)
    ensures Durations(es, mk, ms, from)
  {
    GathersSkip(head, Lasts(mk), Outside(mk), ms, from, e);
  }

  predicate IsMean(avg: real, ms: seq<real>) {
    if ms == [] then avg == 0.0 else avg * |ms| as real == Total(ms)
  }

  lemma MeanIs(ms: seq<real>, total: real)
    requires total == Total(ms)
    ensures IsMean(if |ms| > 0 then total / |ms| as real else 0.0, ms)
  {
  }

  /** The point shows how many resolutions the minute had and their mean duration, or zero. */
  ghost predicate Shows(pt: MinutePoint, es: seq<Resolution>, mk: int) {
    exists ms, from :: Durations(es, mk, ms, from) && pt.minute == mk && pt.replies == |ms| && IsMean(pt.avgMs, ms)
  }

  lemma PointShows(es: seq<Resolution>, mk: int, a: MinuteAgg)
    requires a == InMinute(es, mk)
    ensures Shows(Point(mk, a), es, mk)
  {
    var ms, from := MinuteDurations(es, mk);
    MeanIs(ms, a.sumMs);
  }

  /** The points show the sixty minutes that end with `last`. */
  ghost predicate ShowsHour(points: seq<MinutePoint>, es: seq<Resolution>, last: int) {
    |points| == 60 && forall i :: 0 <= i < 60 ==> Shows(points[i], es, last - 59 + i)
  }

  /** The points are those of the minutes from `last` - 59 on. */
  ghost predicate Plots(points: seq<MinutePoint>, es: seq<Resolution>, last: int) {
    forall i :: 0 <= i < |points| ==>
      var mk := last - SERIES_SLOTS + 1 + i; points[i] == Point(mk, InMinute(es, mk))
  }

  lemma SeriesShows(points: seq<MinutePoint>, es: seq<Resolution>, last: int)
    requires |points| == SERIES_SLOTS && Plots(points, es, last)
    ensures ShowsHour(points, es, last)
  {
    forall i | 0 <= i < 60 ensures Shows(points[i], es, last - 59 + i) {
      PointShows(es, last - 59 + i, InMinute(es, last - 59 + i));
    }
  }

  class DashboardLive {
    var log: seq<Resolution>
    var minute: map<int, MinuteAgg>
    var second: map<int, SecondAgg>
    var logCap: nat
    /** Everything ever recorded, and what was recorded since the log was last cleared. */
    ghost var history: seq<Resolution>
    ghost var since: seq<Resolution>

    ghost predicate Valid()
      reads this
    {
      && 1 <= logCap <= MAX_CAP
      && SecondsAgree(second, history) && MinutesAgree(minute, history)
      && LogAgrees(log, since, logCap)
    }

    /** The log holds as much of what was recorded since the last clear as the cap allows. */
    ghost predicate Complete()
      reads this
    {
      log == Last(since, logCap)
    }

    constructor ()
      ensures Valid() && history == [] && since == [] && Complete() && logCap == 1000
    {
      log, minute, second, logCap := [], map[], map[], DEFAULT_CAP;
      history, since := [], [];
    }

    method SetLogCap(n: int)
      requires Valid()
      modifies this`logCap, this`log
      ensures Valid() && logCap == if n <= 0 then DEFAULT_CAP else if n > MAX_CAP then MAX_CAP else n
      ensures if n <= 0 then logCap == 1000 else if n <= 1_000_000 then logCap == n else logCap == 1_000_000
      ensures log == Last(old(log), logCap)
      ensures old(Complete()) ==> (Complete() <==> logCap <= old(logCap) || |since| <= old(logCap))
    {
      TrimmedAgrees(log, since, logCap, if n <= 0 then DEFAULT_CAP else if n > MAX_CAP then MAX_CAP else n);
      logCap := if n <= 0 then DEFAULT_CAP else if n > MAX_CAP then MAX_CAP else n;
      if |log| > logCap {
        log := log[|log| - logCap..];
      }
    }

    method ClearLog()
      requires Valid()
      modifies this`log, this`since
      ensures Valid() && log == [] && since == [] && Complete()
    {
      log, since := [], [];
    }

    /** RecordDashboardResolution; `now` is used when the resolution carries no time. */
    method Record(at: Option<int>, outcome: string, durationMs: real, row: string, now: int)
      requires Valid()
      modifies this`log, this`minute, this`second, this`history, this`since
      ensures var e := Resolution(if at.Some? then at.value else now, KindOf(outcome), durationMs, row);
              history == old(history) + [e] && since == old(since) + [e]
      ensures forall kind :: history[|history| - 1].kind == kind <==> Names(kind, outcome)
      ensures Valid() && (old(Complete()) || |log| == logCap ==> Complete())
    {
      forall kind ensures KindOf(outcome) == kind <==> Names(kind, outcome) {
        KindOfIff(outcome, kind);
      }
      Enter(Resolution(if at.Some? then at.value else now, KindOf(outcome), durationMs, row));
    }

    method Enter(e: Resolution)
      requires Valid()
      modifies this`log, this`minute, this`second, this`history, this`since
      ensures history == old(history) + [e] && since == old(since) + [e]
      ensures Valid() && (old(Complete()) || |log| == logCap ==> Complete())
    {
      second := CountSecond(second, e, history);
      log := AppendLog(log, e, logCap, since);
      minute := CountMinute(minute, e, history);
      history, since := history + [e], since + [e];
    }

    /** The rates over the last completed seconds are the averages of the full history, despite the pruning. */
    method GetPerSecRates(windowSeconds: int, now: int) returns (r: Rates)
      requires Valid()
      ensures r.windowSeconds == if windowSeconds < 1 then 5 else if windowSeconds > 60 then 60 else windowSeconds
      ensures NoneAfter(history, now) ==> r == Average(Counts(history, now - r.windowSeconds, now), r.windowSeconds)
      ensures NoneAfter(history, now) ==>
                && Rated(r.resolutions, r.windowSeconds, history, now, None)
                && Rated(r.local, r.windowSeconds, history, now, Some(Local))
                && Rated(r.cache, r.windowSeconds, history, now, Some(Cache))
                && Rated(r.upstream, r.windowSeconds, history, now, Some(Upstream))
                && Rated(r.none, r.windowSeconds, history, now, Some(NoAnswer))
                && Rated(r.blocked, r.windowSeconds, history, now, Some(Blocked))
    {
      var w: nat := if windowSeconds < 1 then 5 else if windowSeconds > 60 then 60 else windowSeconds;
      var sum := NO_SECOND;
      ExactEmpty(history, now);
      for i := 0 to w
        invariant NoneAfter(history, now) ==> Exact(sum, history, now - i, now)
      {
        var sk := now - 1 - i;
        if NoneAfter(history, now) {
          ExactPlus(SecondOf(second, sk), sum, history, sk, sk + 1, now);
        }
        if sk in second {
          sum := Plus(second[sk], sum);
        }
      }
      AverageRated(history, now, w);
      if NoneAfter(history, now) {
        ExactIsCounts(sum, history, now - w, now);
      }
      return Average(sum, w);
    }

    /** The 60-minute series likewise. */
    method GetSeries(now: int) returns (points: seq<MinutePoint>)
      requires Valid()
      ensures |points| == SERIES_SLOTS
      ensures NoneAfter(history, now) ==> Plots(points, history, MinuteKey(now))
      ensures NoneAfter(history, now) ==>
                exists last :: InMinuteOf(now, last) && ShowsHour(points, history, last)
    {
      var nowMin := MinuteKey(now);
      points := [];
      for i := 0 to SERIES_SLOTS
        invariant |points| == i
        invariant NoneAfter(history, now) ==> Plots(points, history, nowMin)
      {
        var mk := nowMin - SERIES_SLOTS + 1 + i;
        var pt := MinutePoint(mk, 0, 0.0);
        if mk in minute {
          var agg := minute[mk];
          pt := pt.(replies := agg.count);
          if agg.count > 0 {
            pt := pt.(avgMs := agg.sumMs / (agg.count as real));
          }
        }
        assert pt == Point(mk, MinuteOf(minute, mk));
        points := points + [pt];
      }
      MinuteKeyIff(now, nowMin);
      if NoneAfter(history, now) {
        SeriesShows(points, history, nowMin);
      }
    }
  }
}
