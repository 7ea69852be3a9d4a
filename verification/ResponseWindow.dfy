/** The per-client response limiter (abuse/sliding.go) as dnsserve/serve.go drives it: ask, answer, record. */
module ResponseWindow {

  datatype Entry = Entry(count: nat, start: int)

  /** A limiter's configuration and table, as a value. */
  datatype Limiter = Limiter(m: map<string, Entry>, window: nat, maxPerIP: int, maxIPs: nat)

  predicate Allows(l: Limiter, ip: string, now: int) {
    || l.maxPerIP <= 0
    || ip !in l.m
    || now - l.m[ip].start >= l.window
    || l.m[ip].count < l.maxPerIP
  }

  function Recorded(l: Limiter, ip: string, now: int): Limiter {
    if l.maxPerIP <= 0 then l
    else if ip !in l.m || now - l.m[ip].start >= l.window then l.(m := l.m[ip := Entry(1, now)])
    else l.(m := l.m[ip := l.m[ip].(count := l.m[ip].count + 1)])
  }

  class SlidingWindow {
    var m: map<string, Entry>
    const window: nat
    const maxPerIP: int
    const maxIPs: nat

    constructor (window: nat, maxPerIP: int, maxIPs: int)
      ensures View() == Limiter(map[], window, maxPerIP, if maxIPs <= 0 then 50000 else maxIPs)
    {
      this.window, this.maxPerIP, this.maxIPs, m := window, maxPerIP, if maxIPs <= 0 then 50000 else maxIPs, map[];
    }

    function View(): Limiter
      reads this
    {
      Limiter(m, window, maxPerIP, maxIPs)
    }

    method Allow(ip: string, now: int) returns (ok: bool)
      ensures ok == Allows(View(), ip, now)
      ensures !ok <==> ip in m && now - m[ip].start < window && m[ip].count >= maxPerIP > 0
    {
      if maxPerIP <= 0 {
        return true;
      }
      if |m| >= maxIPs && ip !in m {
        return true;
      }
      if ip !in m {
        return true;
      }
      if now - m[ip].start >= window {
        return true;
      }
      return m[ip].count < maxPerIP;
    }

    method RecordResponse(ip: string, now: int)
      modifies this
      ensures View() == Recorded(old(View()), ip, now)
      ensures maxPerIP <= 0 ==> m == old(m)
      ensures maxPerIP > 0 ==> m.Keys == old(m.Keys) + {ip} && forall x <- old(m) :: x != ip ==> m[x] == old(m)[x]
    {
      if maxPerIP <= 0 {
        return;
      }
      if ip !in m {
        m := m[ip := Entry(1, now)];
        return;
      }
      if now - m[ip].start >= window {
        m := m[ip := Entry(1, now)];
        return;
      }
      m := m[ip := m[ip].(count := m[ip].count + 1)];
    }
  }

  // ---- Overlapping queries ----

  /** A query asks the limiter; an allowed one is outstanding until its response is sent and recorded. */
  datatype Event = Ask(ip: string, now: int) | Send(ip: string, now: int)

  /** The limiter, and how many allowed responses each client still has coming. */
  datatype State = State(l: Limiter, coming: map<string, nat>)

  function Coming(s: State, ip: string): nat {
    if ip in s.coming then s.coming[ip] else 0
  }

  function Step(s: State, e: Event): State {
    match e
    case Ask(ip, now) => if Allows(s.l, ip, now) then s.(coming := s.coming[ip := Coming(s, ip) + 1]) else s
    case Send(ip, now) =>
      if Coming(s, ip) == 0 then s else State(Recorded(s.l, ip, now), s.coming[ip := Coming(s, ip) - 1])
  }

  function Run(s: State, es: seq<Event>): State {
    if es == [] then s else Step(Run(s, es[..|es| - 1]), es[|es| - 1])
  }

  predicate Responds(s: State, e: Event, ip: string, from: int, to: int) {
    e.Send? && e.ip == ip && Coming(s, ip) > 0 && from <= e.now < to
  }

  /** Responses to `ip` sent at times in [from, to). */
  function Responses(s: State, es: seq<Event>, ip: string, from: int, to: int): nat {
    if es == [] then 0
    else
      var head, e := es[..|es| - 1], es[|es| - 1];
      Responses(s, head, ip, from, to) + if Responds(Run(s, head), e, ip, from, to) then 1 else 0
  }

  predicate Idle(s: State) {
    s.l.m == map[] && s.coming == map[] && s.l.maxPerIP > 0
  }

  /** The clock does not go back and ends by `now`, and there are never more than `c` responses to `ip` outstanding. */
  predicate Orderly(s: State, es: seq<Event>, ip: string, now: int, c: nat) {
    && Coming(Run(s, es), ip) <= c
    && (es != [] ==> es[|es| - 1].now <= now && Orderly(s, es[..|es| - 1], ip, es[|es| - 1].now, c))
  }

  /** How many responses may fall into [from, from + window) when the client's entry is `e` and a counting window
      holds at most `most`. */
  function Budget(e: Entry, most: nat, from: int, window: nat): int {
    if e.start < from then e.count - 1 else if e.start < from + window then most - 1 + e.count else 2 * most - 1
  }

  ghost predicate EntrySound(e: Entry, coming: nat, count: nat, most: nat, from: int, window: nat, now: int) {
    && 1 <= e.count <= most && e.start <= now
    && (now - e.start < window ==> e.count + coming <= most)
    && count <= Budget(e, most, from, window)
  }

  ghost predicate Sound(s: State, ip: string, count: nat, from: int, now: int, c: nat) {
    && s.l.maxPerIP > 0 && Coming(s, ip) <= c
    && (count > 0 ==> from <= now)
    && if ip in s.l.m then EntrySound(s.l.m[ip], Coming(s, ip), count, s.l.maxPerIP - 1 + c, from, s.l.window, now)
       else count == 0
  }

  lemma StepSound(s: State, e: Event, ip: string, count: nat, from: int, now: int, c: nat)
    requires Sound(s, ip, count, from, now, c) && now <= e.now && Coming(Step(s, e), ip) <= c
    ensures Sound(Step(s, e), ip, count + if Responds(s, e, ip, from, from + s.l.window) then 1 else 0, from, e.now, c)
  {
  }

  lemma {:induction false} RunSound(s: State, es: seq<Event>, ip: string, from: int, now: int, c: nat)
    requires Idle(s) && Orderly(s, es, ip, now, c)
    ensures Run(s, es).l == s.l.(m := Run(s, es).l.m)
    ensures Sound(Run(s, es), ip, Responses(s, es, ip, from, from + s.l.window), from, now, c)
  {
    if es != [] {
      var head, e := es[..|es| - 1], es[|es| - 1];
      RunSound(s, head, ip, from, e.now, c);
      StepSound(Run(s, head), e, ip, Responses(s, head, ip, from, from + s.l.window), from, e.now, c);
      LaterSound(Run(s, es), ip, Responses(s, es, ip, from, from + s.l.window), from, e.now, now, c);
    }
  }

  lemma LaterSound(s: State, ip: string, count: nat, from: int, now: int, later: int, c: nat)
    requires Sound(s, ip, count, from, now, c) && now <= later
    ensures Sound(s, ip, count, from, later, c)
  {
  }

  /** With at most `c` responses to a client outstanding at a time, a counting window never holds more than max - 1 + c
      responses, and no interval one window long holds more than 2 * (max - 1 + c) - 1, whatever the table size. */
  lemma WindowBound(s: State, es: seq<Event>, ip: string, from: int, now: int, c: nat)
    requires Idle(s) && Orderly(s, es, ip, now, c) && c > 0
    ensures ip in Run(s, es).l.m ==> 1 <= Run(s, es).l.m[ip].count <= s.l.maxPerIP - 1 + c
    ensures Responses(s, es, ip, from, from + s.l.window) <= 2 * (s.l.maxPerIP - 1 + c) - 1
  {
    RunSound(s, es, ip, from, now, c);
  }

  // ---- The limit is used in full ----

  lemma {:induction false} WiderCountsMore(s: State, es: seq<Event>, ip: string, from: int, from': int, to: int)
    requires from' <= from
    ensures Responses(s, es, ip, from, to) <= Responses(s, es, ip, from', to)
  {
    if es != [] {
      WiderCountsMore(s, es[..|es| - 1], ip, from, from', to);
    }
  }

  /** The client's entry counts no more than what was sent to it since the entry's start. */
  ghost predicate Earned(s: State, ip: string, now: int, count: int -> nat) {
    ip in s.l.m ==> s.l.m[ip].start <= now && s.l.m[ip].count <= count(s.l.m[ip].start)
  }

  lemma StepEarned(s: State, e: Event, ip: string, now: int, to: int, count: int -> nat, count': int -> nat)
    requires s.l.maxPerIP > 0 && Earned(s, ip, now, count) && now <= e.now < to
    requires forall from :: count'(from) == count(from) + if Responds(s, e, ip, from, to) then 1 else 0
    ensures Earned(Step(s, e), ip, e.now, count')
  {
  }

  lemma {:induction false} RunEarned(s: State, es: seq<Event>, ip: string, now: int, to: int, c: nat)
    requires Idle(s) && Orderly(s, es, ip, now, c) && now < to
    ensures Run(s, es).l == s.l.(m := Run(s, es).l.m)
    ensures Earned(Run(s, es), ip, now, from => Responses(s, es, ip, from, to))
  {
    if es != [] {
      var head, e := es[..|es| - 1], es[|es| - 1];
      RunEarned(s, head, ip, e.now, to, c);
      StepEarned(Run(s, head), e, ip, e.now, to, from => Responses(s, head, ip, from, to),
                 from => Responses(s, es, ip, from, to));
    }
  }

  /** A client is refused only if it was sent its `max` responses within the last window, the present tick included. */
  lemma RefusedOnlyWhenFull(s: State, es: seq<Event>, ip: string, now: int, c: nat)
    requires Idle(s) && Orderly(s, es, ip, now, c) && Step(Run(s, es), Ask(ip, now)).coming == Run(s, es).coming
    ensures Responses(s, es, ip, now - s.l.window + 1, now + 1) >= s.l.maxPerIP
  {
    RunEarned(s, es, ip, now, now + 1, c);
    var r := Run(s, es);
    assert Coming(Step(r, Ask(ip, now)), ip) == Coming(r, ip);
    WiderCountsMore(s, es, ip, r.l.m[ip].start, now - s.l.window + 1, now + 1);
  }

  // ---- Queries handled one after the other ----

  datatype Query = Query(ip: string, asked: int, answered: int)

  /** Each query is answered, if allowed, before the next one asks. */
  function Serial(qs: seq<Query>): seq<Event> {
    if qs == [] then []
    else
      var q := qs[|qs| - 1];
      Serial(qs[..|qs| - 1]) + [Ask(q.ip, q.asked)] + [Send(q.ip, q.answered)]
  }

  predicate InOrder(qs: seq<Query>, now: int) {
    qs != [] ==>
      var q := qs[|qs| - 1];
      q.asked <= q.answered <= now && InOrder(qs[..|qs| - 1], q.asked)
  }

  lemma RunOne(s: State, es: seq<Event>, e: Event, ip: string, from: int, to: int)
    ensures Run(s, es + [e]) == Step(Run(s, es), e)
    ensures Responses(s, es + [e], ip, from, to) ==
            Responses(s, es, ip, from, to) + if Responds(Run(s, es), e, ip, from, to) then 1 else 0
  {
    assert (es + [e])[..|es|] == es;
  }

  lemma OrderlyOne(s: State, es: seq<Event>, e: Event, ip: string, was: int, now: int, c: nat)
    requires Orderly(s, es, ip, was, c) && was <= e.now <= now && Coming(Step(Run(s, es), e), ip) <= c
    ensures Orderly(s, es + [e], ip, now, c)
  {
    assert (es + [e])[..|es|] == es;
  }

  lemma AnsweredAtOnce(r: State, ask: Event, send: Event, ip: string)
    requires Coming(r, ip) == 0 && ask.Ask? && send.Send? && ask.ip == send.ip
    ensures Coming(Step(r, ask), ip) <= 1 && Coming(Step(Step(r, ask), send), ip) == 0
  {
  }

  lemma OneQuery(s: State, es: seq<Event>, q: Query, ip: string, now: int)
    requires Coming(Run(s, es), ip) == 0 && Orderly(s, es, ip, q.asked, 1) && q.asked <= q.answered <= now
    ensures var all := es + [Ask(q.ip, q.asked)] + [Send(q.ip, q.answered)];
            Coming(Run(s, all), ip) == 0 && Orderly(s, all, ip, now, 1)
  {
    var ask, send := Ask(q.ip, q.asked), Send(q.ip, q.answered);
    AnsweredAtOnce(Run(s, es), ask, send, ip);
    RunOne(s, es, ask, ip, 0, 0);
    OrderlyOne(s, es, ask, ip, q.asked, q.asked, 1);
    RunOne(s, es + [ask], send, ip, 0, 0);
    OrderlyOne(s, es + [ask], send, ip, q.asked, now, 1);
  }

  lemma {:induction false} SerialOrderly(s: State, qs: seq<Query>, ip: string, now: int)
    requires Idle(s) && InOrder(qs, now)
    ensures Coming(Run(s, Serial(qs)), ip) == 0 && Orderly(s, Serial(qs), ip, now, 1)
  {
    if qs != [] {
      var head, q := qs[..|qs| - 1], qs[|qs| - 1];
      SerialOrderly(s, head, ip, q.asked);
      OneQuery(s, Serial(head), q, ip, now);
    }
  }

  /** So in a serial run a counting window holds at most max responses and a window length at most 2 * max - 1. */
  lemma SerialBound(s: State, qs: seq<Query>, ip: string, from: int, now: int)
    requires Idle(s) && InOrder(qs, now)
    ensures ip in Run(s, Serial(qs)).l.m ==> 1 <= Run(s, Serial(qs)).l.m[ip].count <= s.l.maxPerIP
    ensures Responses(s, Serial(qs), ip, from, from + s.l.window) <= 2 * s.l.maxPerIP - 1
  {
    SerialOrderly(s, qs, ip, now);
    WindowBound(s, Serial(qs), ip, from, now, 1);
  }

  // ---- The bound is reached ----

  /** An orderly run that leaves the limiter with table `m`, `coming` responses outstanding, and `count` sent from
      time 1 up to `to`. */
  predicate Leaves(s: State, es: seq<Event>, ip: string, now: int, c: nat, m: map<string, Entry>, coming: nat,
                   count: nat, to: int)
  {
    && Orderly(s, es, ip, now, c) && Run(s, es).l == s.l.(m := m)
    && Coming(Run(s, es), ip) == coming && Responses(s, es, ip, 1, to) == count
  }

  function Only(ip: string, count: nat, start: int): map<string, Entry> {
    map[ip := Entry(count, start)]
  }

  lemma CountsOn(l: Limiter, ip: string, count: nat, start: int, now: int)
    requires l.m == Only(ip, count, start) && l.maxPerIP > 0 && now - start < l.window
    ensures Recorded(l, ip, now).m == Only(ip, count + 1, start)
  {
  }

  lemma StartsAnew(l: Limiter, ip: string, now: int)
    requires l.maxPerIP > 0 && (l.m == map[] || (l.m.Keys == {ip} && now - l.m[ip].start >= l.window))
    ensures Recorded(l, ip, now).m == Only(ip, 1, now)
  {
  }

  /** One more request that is allowed. */
  lemma Asking(s: State, es: seq<Event>, ip: string, was: int, now: int, c: nat, m: map<string, Entry>, coming: nat,
               count: nat, to: int)
    returns (longer: seq<Event>)
    requires Leaves(s, es, ip, was, c, m, coming, count, to) && was <= now && coming < c
    requires Allows(s.l.(m := m), ip, now)
    ensures Leaves(s, longer, ip, now, c, m, coming + 1, count, to)
  {
    var e := Ask(ip, now);
    RunOne(s, es, e, ip, 1, to);
    OrderlyOne(s, es, e, ip, was, now, c);
    longer := es + [e];
  }

  /** One more response. */
  lemma Sending(s: State, es: seq<Event>, ip: string, was: int, now: int, c: nat, m: map<string, Entry>, coming: nat,
                count: nat, to: int)
    returns (longer: seq<Event>)
    requires Leaves(s, es, ip, was, c, m, coming, count, to) && was <= now && coming > 0
    ensures Leaves(s, longer, ip, now, c, Recorded(s.l.(m := m), ip, now).m, coming - 1,
                   count + if 1 <= now < to then 1 else 0, to)
  {
    var e := Send(ip, now);
    RunOne(s, es, e, ip, 1, to);
    OrderlyOne(s, es, e, ip, was, now, c);
    longer := es + [e];
  }

  lemma {:induction false} AskingAll(s: State, es: seq<Event>, ip: string, now: int, c: nat, m: map<string, Entry>,
                                     coming: nat, count: nat, to: int)
    returns (longer: seq<Event>)
    requires Leaves(s, es, ip, now, c, m, coming, count, to) && coming <= c && Allows(s.l.(m := m), ip, now)
    ensures Leaves(s, longer, ip, now, c, m, c, count, to)
    decreases c - coming
  {
    longer := es;
    if coming < c {
      longer := Asking(s, es, ip, now, now, c, m, coming, count, to);
      longer := AskingAll(s, longer, ip, now, c, m, coming + 1, count, to);
    }
  }

  /** Within the running window, sends all that is coming. */
  lemma {:induction false} SendingAll(s: State, es: seq<Event>, ip: string, now: int, c: nat, entry: nat, start: int,
                                      coming: nat, count: nat, to: int, full: nat, total: nat)
    returns (longer: seq<Event>)
    requires Leaves(s, es, ip, now, c, Only(ip, entry, start), coming, count, to) && 1 <= now < to
    requires now - start < s.l.window && s.l.maxPerIP > 0 && full == entry + coming && total == count + coming
    ensures Leaves(s, longer, ip, now, c, Only(ip, full, start), 0, total, to)
    decreases coming
  {
    longer := es;
    if coming > 0 {
      longer := Sending(s, es, ip, now, now, c, Only(ip, entry, start), coming, count, to);
      CountsOn(s.l.(m := Only(ip, entry, start)), ip, entry, start, now);
      longer := SendingAll(s, longer, ip, now, c, entry + 1, start, coming - 1, count + 1, to, full, total);
    }
  }

  /** Within the running window, asks and sends in turn until the limit is reached. */
  lemma {:induction false} Filling(s: State, es: seq<Event>, ip: string, now: int, c: nat, entry: nat, start: int,
                                   coming: nat, count: nat, to: int, total: nat)
    returns (longer: seq<Event>)
    requires Leaves(s, es, ip, now, c, Only(ip, entry, start), coming, count, to) && coming < c && 1 <= now < to
    requires now - start < s.l.window && entry <= s.l.maxPerIP && 0 < s.l.maxPerIP
    requires total == count + s.l.maxPerIP - entry
    ensures Leaves(s, longer, ip, now, c, Only(ip, s.l.maxPerIP, start), coming, total, to)
    decreases s.l.maxPerIP - entry
  {
    longer := es;
    if entry < s.l.maxPerIP {
      var m := Only(ip, entry, start);
      longer := Asking(s, es, ip, now, now, c, m, coming, count, to);
      longer := Sending(s, longer, ip, now, now, c, m, coming + 1, count, to);
      CountsOn(s.l.(m := m), ip, entry, start, now);
      longer := Filling(s, longer, ip, now, c, entry + 1, start, coming, count + 1, to, total);
    }
  }

  lemma LaterOrderly(s: State, es: seq<Event>, ip: string, now: int, later: int, c: nat)
    requires Orderly(s, es, ip, now, c) && now <= later
    ensures Orderly(s, es, ip, later, c)
  {
  }

  lemma LaterLeaves(s: State, es: seq<Event>, ip: string, was: int, now: int, c: nat, m: map<string, Entry>,
                    coming: nat, count: nat, to: int)
    requires Leaves(s, es, ip, was, c, m, coming, count, to) && was <= now
    ensures Leaves(s, es, ip, now, c, m, coming, count, to)
  {
    LaterOrderly(s, es, ip, was, now, c);
  }

  /** Opens a counting window with `c` requests and one response. */
  lemma OpenWindow(s: State, es: seq<Event>, ip: string, was: int, now: int, c: nat, m: map<string, Entry>, count: nat,
                   to: int)
    returns (longer: seq<Event>)
    requires s.l.maxPerIP > 0 && c > 0 && was <= now && Leaves(s, es, ip, was, c, m, 0, count, to)
    requires m == map[] || (m.Keys == {ip} && now - m[ip].start >= s.l.window)
    ensures Leaves(s, longer, ip, now, c, Only(ip, 1, now), c - 1, count + if 1 <= now < to then 1 else 0, to)
  {
    LaterLeaves(s, es, ip, was, now, c, m, 0, count, to);
    longer := AskingAll(s, es, ip, now, c, m, 0, count, to);
    longer := Sending(s, longer, ip, now, now, c, m, c, count, to);
    StartsAnew(s.l.(m := m), ip, now);
  }

  /** Fills an open counting window as far as it goes, at `now`. */
  lemma FillWindow(s: State, es: seq<Event>, ip: string, was: int, now: int, c: nat, start: int, count: nat, to: int,
                   total: nat)
    returns (longer: seq<Event>)
    requires s.l.maxPerIP > 0 && c > 0 && was <= now < start + s.l.window && 1 <= now < to
    requires Leaves(s, es, ip, was, c, Only(ip, 1, start), c - 1, count, to) && total == count + s.l.maxPerIP - 2 + c
    ensures Leaves(s, longer, ip, now, c, Only(ip, s.l.maxPerIP - 1 + c, start), 0, total, to)
  {
    var max, filled := s.l.maxPerIP, count + s.l.maxPerIP - 1;
    LaterLeaves(s, es, ip, was, now, c, Only(ip, 1, start), c - 1, count, to);
    longer := Filling(s, es, ip, now, c, 1, start, c - 1, count, to, filled);
    longer := SendingAll(s, longer, ip, now, c, max, start, c - 1, filled, to, max - 1 + c, total);
  }

  /** For every limit, every `c` and every window of at least two ticks some run puts 2 * (max - 1 + c) - 1
      responses into one window length: the rest of a window's allowance at its last tick, and all of the next one's
      a tick later. */
  lemma WindowBoundReached(s: State, ip: string, c: nat) returns (es: seq<Event>)
    requires Idle(s) && s.l.window >= 2 && c > 0
    ensures Orderly(s, es, ip, s.l.window, c)
    ensures Responses(s, es, ip, 1, 1 + s.l.window) == 2 * (s.l.maxPerIP - 1 + c) - 1
  {
    var w, to, most := s.l.window, 1 + s.l.window, s.l.maxPerIP - 1 + c;
    es := [];
    assert Leaves(s, es, ip, 0, c, map[], 0, 0, to);
    es := OpenWindow(s, es, ip, 0, 0, c, map[], 0, to);
    es := FillWindow(s, es, ip, 0, w - 1, c, 0, 0, to, most - 1);
    es := OpenWindow(s, es, ip, w - 1, w, c, Only(ip, most, 0), most - 1, to);
    es := FillWindow(s, es, ip, w, w, c, w, most, to, 2 * most - 1);
  }
}
