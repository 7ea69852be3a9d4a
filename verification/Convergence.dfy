/** When do replicas under global_lww converge? Exactly when the newest stamp cannot be shadowed. */
module Convergence {
  import opened Text
  import opened Records
  import opened ClusterState
  import opened ClusterNode

  /** A writable global_lww node that has seen no snapshot; its initial records are arbitrary. */
  predicate FreshReplica(n: Node) {
    n.cfg.policy == GlobalLww && !n.cfg.readOnly && n.sync.peerSeq == map[] && n.sync.lww == FRESH
  }

  /** What must be equal for two replicas to have converged. */
  predicate Agree(a: Node, b: Node) {
    a.records == b.records && a.sync.peerSeq == b.sync.peerSeq && a.sync.lww == b.sync.lww
  }

  /** Same snapshots, in any order and with any repeats. */
  ghost predicate SameMembers(a: seq<Snapshot>, b: seq<Snapshot>) {
    forall m :: m in a <==> m in b
  }

  /** `t` carries the greatest stamp among the snapshots with a node id. */
  predicate IsTop(ms: seq<Snapshot>, t: Snapshot) {
    t in ms && t.nodeId != "" && forall s <- ms :: s.nodeId != "" ==> !Before(StampOf(t), StampOf(s))
  }

  /** Every snapshot of t's sender that does not carry the top stamp has a smaller sequence number than `t`. */
  predicate Unshadowed(ms: seq<Snapshot>, t: Snapshot) {
    IsTop(ms, t) &&
    forall s <- ms :: s.nodeId == t.nodeId && !IsTop(ms, s) ==> NormSeq(s.seqNo) < NormSeq(t.seqNo)
  }

  ghost predicate TopsAgree(ms: seq<Snapshot>) {
    forall t, u :: IsTop(ms, t) && IsTop(ms, u) ==> Canonical(t.records) == Canonical(u.records)
  }

  /** Some holder of the top stamp is unshadowed, and all holders carry the same records. */
  ghost predicate TopSurvives(ms: seq<Snapshot>) {
    (exists t :: Unshadowed(ms, t)) && TopsAgree(ms)
  }

  // ---- What a replica knows after any sequence of snapshots ----

  /** Entry `p` was committed by a snapshot whose stamp is not beyond the stored one. */
  ghost predicate Backed(ms: seq<Snapshot>, n: Node, p: string) {
    exists m :: m in ms && m.nodeId == p != "" && NormSeq(m.seqNo) == PeerSeq(n.sync, p)
      && !Before(n.sync.lww, StampOf(m))
  }

  /** The snapshot that owns the stored stamp is one of `ms` and supplied the records. */
  ghost predicate Owned(ms: seq<Snapshot>, n: Node) {
    exists m :: m in ms && m.nodeId != "" && StampOf(m) == n.sync.lww && Canonical(m.records) == n.records
  }

  ghost predicate Knows(start: Node, ms: seq<Snapshot>, n: Node) {
    && n.cfg == start.cfg
    && (forall m <- ms :: m.nodeId != "" ==> NormSeq(m.seqNo) <= PeerSeq(n.sync, m.nodeId))
    && (forall p <- n.sync.peerSeq :: n.sync.peerSeq[p] > 0 && Backed(ms, n, p))
    && (if n.sync.peerSeq == map[] then n == start else Owned(ms, n))
  }

  lemma BackedStep(ms: seq<Snapshot>, n: Node, m: Snapshot, p: string)
    requires n.cfg.policy == GlobalLww && !n.cfg.readOnly
    requires p in Receive(n, m).sync.peerSeq && (p in n.sync.peerSeq ==> Backed(ms, n, p))
    ensures Backed(ms + [m], Receive(n, m), p)
  {
    var n' := Receive(n, m);
    BeforeTotal(StampOf(m), StampOf(m));
    if p == m.nodeId && !Duplicate(n.sync, m) {
      assert m in ms + [m];
    } else {
      var w :| w in ms && w.nodeId == p != "" && NormSeq(w.seqNo) == PeerSeq(n.sync, p)
        && !Before(n.sync.lww, StampOf(w));
      assert w in ms + [m];
      if Applies(n, m) && Before(StampOf(m), StampOf(w)) {
        BeforeTransitive(n.sync.lww, StampOf(m), StampOf(w));
      }
    }
  }

  lemma OwnedStep(ms: seq<Snapshot>, n: Node, m: Snapshot)
    requires n.cfg.policy == GlobalLww
    requires Applies(n, m) || Owned(ms, n)
    ensures Owned(ms + [m], Receive(n, m))
  {
    ReceiveStep(n, m);
    if Applies(n, m) {
      assert m in ms + [m];
    } else {
      var w :| w in ms && w.nodeId != "" && StampOf(w) == n.sync.lww && Canonical(w.records) == n.records;
      assert w in ms + [m];
    }
  }

  lemma KnowsStep(start: Node, ms: seq<Snapshot>, n: Node, m: Snapshot)
    requires FreshReplica(start) && Knows(start, ms, n)
    ensures Knows(start, ms + [m], Receive(n, m))
  {
    var n' := Receive(n, m);
    ReceiveStep(n, m);
    forall p | p in n'.sync.peerSeq ensures n'.sync.peerSeq[p] > 0 && Backed(ms + [m], n', p) {
      BackedStep(ms, n, m, p);
    }
    if n'.sync.peerSeq != map[] {
      FreshIsLowest(m);
      OwnedStep(ms, n, m);
    }
  }

  lemma {:induction false} KnowsAll(start: Node, ms: seq<Snapshot>)
    requires FreshReplica(start)
    ensures Knows(start, ms, ReceiveAll(start, ms))
  {
    if ms != [] {
      var head, last := ms[..|ms| - 1], ms[|ms| - 1];
      KnowsAll(start, head);
      KnowsStep(start, head, ReceiveAll(start, head), last);
      assert head + [last] == ms;
    }
  }

  /** Whatever a global_lww node started with, stamp and records are both unchanged or both of one snapshot. */
  lemma {:induction false} OwnedAll(start: Node, ms: seq<Snapshot>)
    requires start.cfg.policy == GlobalLww
    ensures var n := ReceiveAll(start, ms);
            n.cfg == start.cfg &&
            ((n.sync.lww == start.sync.lww && n.records == start.records) || Owned(ms, n))
  {
    if ms != [] {
      var head, last := ms[..|ms| - 1], ms[|ms| - 1];
      OwnedAll(start, head);
      var n := ReceiveAll(start, head);
      ReceiveStep(n, last);
      assert head + [last] == ms;
      if Applies(n, last) || Owned(head, n) {
        OwnedStep(head, n, last);
      }
    }
  }

  // ---- Sequence maps always converge, under every policy ----

  /** A node that takes snapshots and has no sequence entry yet. */
  predicate NoEntries(n: Node) {
    !n.cfg.readOnly && n.sync.peerSeq == map[]
  }

  /** Each entry is the largest normalised number among the sender's snapshots, and every sender has one. */
  ghost predicate EntriesAreMaxima(ms: seq<Snapshot>, s: SyncState) {
    && (forall m <- ms :: m.nodeId != "" ==> NormSeq(m.seqNo) <= PeerSeq(s, m.nodeId))
    && (forall p <- s.peerSeq :: Committed(ms, s, p))
  }

  ghost predicate Committed(ms: seq<Snapshot>, s: SyncState, p: string) {
    exists m :: m in ms && m.nodeId == p != "" && NormSeq(m.seqNo) == PeerSeq(s, p)
  }

  lemma CommittedStep(ms: seq<Snapshot>, n: Node, m: Snapshot, p: string)
    requires !n.cfg.readOnly && p in Receive(n, m).sync.peerSeq && (p in n.sync.peerSeq ==> Committed(ms, n.sync, p))
    ensures Committed(ms + [m], Receive(n, m).sync, p)
  {
    if p == m.nodeId && !Duplicate(n.sync, m) {
      assert m in ms + [m];
    } else {
      var w :| w in ms && w.nodeId == p != "" && NormSeq(w.seqNo) == PeerSeq(n.sync, p);
      assert w in ms + [m];
    }
  }

  lemma MaximaStep(ms: seq<Snapshot>, n: Node, m: Snapshot)
    requires !n.cfg.readOnly && EntriesAreMaxima(ms, n.sync)
    ensures EntriesAreMaxima(ms + [m], Receive(n, m).sync)
  {
    ReceiveStep(n, m);
    forall p | p in Receive(n, m).sync.peerSeq ensures Committed(ms + [m], Receive(n, m).sync, p) {
      CommittedStep(ms, n, m, p);
    }
  }

  lemma {:induction false} MaximaAll(start: Node, ms: seq<Snapshot>)
    requires NoEntries(start)
    ensures ReceiveAll(start, ms).cfg == start.cfg
    ensures EntriesAreMaxima(ms, ReceiveAll(start, ms).sync)
  {
    if ms != [] {
      var head, last := ms[..|ms| - 1], ms[|ms| - 1];
      MaximaAll(start, head);
      MaximaStep(head, ReceiveAll(start, head), last);
      assert head + [last] == ms;
    }
  }

  lemma PeerSeqsAgree(a: Node, b: Node, ms1: seq<Snapshot>, ms2: seq<Snapshot>)
    requires NoEntries(a) && NoEntries(b) && SameMembers(ms1, ms2)
    ensures ReceiveAll(a, ms1).sync.peerSeq == ReceiveAll(b, ms2).sync.peerSeq
  {
    PeerSeqsBelow(a, b, ms1, ms2);
    PeerSeqsBelow(b, a, ms2, ms1);
  }

  lemma PeerSeqsBelow(a: Node, b: Node, ms1: seq<Snapshot>, ms2: seq<Snapshot>)
    requires NoEntries(a) && NoEntries(b) && SameMembers(ms1, ms2)
    ensures var p1, p2 := ReceiveAll(a, ms1).sync.peerSeq, ReceiveAll(b, ms2).sync.peerSeq;
            forall p <- p1 :: p in p2 && p1[p] <= p2[p]
  {
    MaximaAll(a, ms1);
    MaximaAll(b, ms2);
    var n1, n2 := ReceiveAll(a, ms1), ReceiveAll(b, ms2);
    forall p | p in n1.sync.peerSeq ensures p in n2.sync.peerSeq && n1.sync.peerSeq[p] <= n2.sync.peerSeq[p] {
      var m :| m in ms1 && m.nodeId == p != "" && NormSeq(m.seqNo) == PeerSeq(n1.sync, p);
      assert m in ms2;
    }
  }

  // ---- The condition is enough ----

  lemma TopUnique(ms: seq<Snapshot>, t: Snapshot, u: Snapshot)
    requires IsTop(ms, t) && u in ms && u.nodeId != ""
    ensures StampOf(u) == StampOf(t) <==> IsTop(ms, u)
  {
    BeforeTotal(StampOf(t), StampOf(u));
    if StampOf(u) != StampOf(t) {
      assert Before(StampOf(u), StampOf(t));
    }
  }

  lemma EndsAtTop(start: Node, ms: seq<Snapshot>, t: Snapshot)
    requires FreshReplica(start) && TopSurvives(ms) && IsTop(ms, t)
    ensures ReceiveAll(start, ms).sync.lww == StampOf(t)
    ensures ReceiveAll(start, ms).records == Canonical(t.records)
  {
    KnowsAll(start, ms);
    var n := ReceiveAll(start, ms);
    var t0 :| Unshadowed(ms, t0);
    assert t0.nodeId in n.sync.peerSeq;
    var m :| m in ms && m.nodeId == t0.nodeId && NormSeq(m.seqNo) == PeerSeq(n.sync, m.nodeId)
      && !Before(n.sync.lww, StampOf(m));
    assert IsTop(ms, m);
    var w :| w in ms && w.nodeId != "" && StampOf(w) == n.sync.lww && Canonical(w.records) == n.records;
    BeforeTotal(StampOf(m), StampOf(w));
    TopUnique(ms, m, w);
    TopUnique(ms, m, t);
  }

  // ---- The condition is needed ----

  /** Whatever follows, a replica that starts with a holder of the top stamp ends there. */
  lemma {:induction false} TopFirstWins(start: Node, ms: seq<Snapshot>, t: Snapshot)
    requires FreshReplica(start) && t.nodeId != ""
    requires forall s <- ms :: s.nodeId != "" ==> !Before(StampOf(t), StampOf(s))
    ensures ReceiveAll(start, [t] + ms).cfg == start.cfg
    ensures ReceiveAll(start, [t] + ms).sync.lww == StampOf(t)
    ensures ReceiveAll(start, [t] + ms).records == Canonical(t.records)
  {
    FreshIsLowest(t);
    if ms == [] {
      assert ReceiveAll(start, [t]) == Receive(ReceiveAll(start, []), t);
      assert [t] + ms == [t];
    } else {
      var head, last := ms[..|ms| - 1], ms[|ms| - 1];
      TopFirstWins(start, head, t);
      assert ([t] + ms)[..|ms|] == [t] + head;
      ReceiveStep(ReceiveAll(start, [t] + head), last);
    }
  }

  function Tops(ms: seq<Snapshot>, from: seq<Snapshot>, wanted: bool): (r: seq<Snapshot>)
    ensures forall m :: m in r <==> m in from && IsTop(ms, m) == wanted
  {
    if from == [] then []
    else (if IsTop(ms, from[0]) == wanted then [from[0]] else []) + Tops(ms, from[1..], wanted)
  }

  /** Once every sender of a top snapshot has an entry at least as large as it, top snapshots are ignored. */
  lemma {:induction false} ShadowedIgnored(n: Node, ms: seq<Snapshot>)
    requires forall m <- ms :: Duplicate(n.sync, m)
    ensures ReceiveAll(n, ms) == n
  {
    if ms != [] {
      ShadowedIgnored(n, ms[..|ms| - 1]);
    }
  }

  lemma {:induction false} ReceiveConcat(n: Node, a: seq<Snapshot>, b: seq<Snapshot>)
    ensures ReceiveAll(n, a + b) == ReceiveAll(ReceiveAll(n, a), b)
    decreases |b|
  {
    if b == [] {
      assert a + b == a;
    } else {
      ReceiveConcat(n, a, b[..|b| - 1]);
      assert (a + b)[..|a + b| - 1] == a + b[..|b| - 1];
    }
  }

  /** If every top snapshot is shadowed, delivering the others first keeps the replica below the top stamp. */
  lemma ShadowedOrderMisses(start: Node, ms: seq<Snapshot>, t: Snapshot) returns (order: seq<Snapshot>)
    requires FreshReplica(start) && IsTop(ms, t) && !exists u :: Unshadowed(ms, u)
    ensures SameMembers(order, ms)
    ensures ReceiveAll(start, order).sync.lww != StampOf(t)
  {
    var low, high := Tops(ms, ms, false), Tops(ms, ms, true);
    order := low + high;
    var n := ReceiveAll(start, low);
    KnowsAll(start, low);
    forall u | u in high ensures Duplicate(n.sync, u) {
      assert !Unshadowed(ms, u);
      var s :| s in ms && s.nodeId == u.nodeId && !IsTop(ms, s) && NormSeq(s.seqNo) >= NormSeq(u.seqNo);
      assert s in low;
    }
    ShadowedIgnored(n, high);
    ReceiveConcat(start, low, high);
    if n.sync.peerSeq == map[] {
      FreshIsLowest(t);
    } else {
      var w :| w in low && w.nodeId != "" && StampOf(w) == n.sync.lww;
      TopUnique(ms, t, w);
    }
  }

  lemma {:induction false} SomeTop(ms: seq<Snapshot>) returns (t: Snapshot)
    requires exists m :: m in ms && m.nodeId != ""
    ensures IsTop(ms, t)
  {
    var head, last := ms[..|ms| - 1], ms[|ms| - 1];
    assert forall m :: m in ms <==> m in head || m == last;
    BeforeTotal(StampOf(last), StampOf(last));
    if exists m :: m in head && m.nodeId != "" {
      t := SomeTop(head);
      if last.nodeId != "" && Before(StampOf(t), StampOf(last)) {
        AboveTop(head, t, last);
        t := last;
      }
    } else {
      t := last;
    }
  }

  lemma AboveTop(ms: seq<Snapshot>, t: Snapshot, x: Snapshot)
    requires IsTop(ms, t) && Before(StampOf(t), StampOf(x))
    ensures forall s <- ms :: s.nodeId != "" ==> !Before(StampOf(x), StampOf(s))
  {
    forall s | s in ms && s.nodeId != "" ensures !Before(StampOf(x), StampOf(s)) {
      if Before(StampOf(x), StampOf(s)) {
        BeforeTransitive(StampOf(t), StampOf(x), StampOf(s));
      }
    }
  }

  // ---- Main results ----

  /** `u` is from a later second than `s`, or from the same second and the dictionary puts its trimmed sender last;
      times that are not positive count as 1. */
  ghost predicate Outranks(u: Snapshot, s: Snapshot) {
    var t, t' := if u.ts <= 0 then 1 else u.ts, if s.ts <= 0 then 1 else s.ts;
    t > t' || (t == t' && exists k: nat :: PartsAt(TrimSpace(s.nodeId), TrimSpace(u.nodeId), k))
  }

  /** A later snapshot of the same sender; number 0 counts as 1. */
  predicate Renumbers(u: Snapshot, s: Snapshot) {
    u.nodeId == s.nodeId && s.seqNo < u.seqNo && u.seqNo > 1
  }

  lemma OutranksIff(u: Snapshot, s: Snapshot)
    ensures Outranks(u, s) <==> Before(StampOf(s), StampOf(u))
  {
    LessIff(TrimSpace(s.nodeId), TrimSpace(u.nodeId));
  }

  /** Who wins: a snapshot that outranks all others, and is the later one of those of its own sender, is what every
      replica ends with, in every order and with any repeats. */
  lemma NewestWins(start: Node, ms: seq<Snapshot>, u: Snapshot)
    requires FreshReplica(start) && u in ms && u.nodeId != ""
    requires forall s <- ms :: s.nodeId != "" && s != u ==> Outranks(u, s) && (s.nodeId == u.nodeId ==> Renumbers(u, s))
    ensures ReceiveAll(start, ms).records == Canonical(u.records)
    ensures ReceiveAll(start, ms).sync.lww.unix == (if u.ts <= 0 then 1 else u.ts)
    ensures ReceiveAll(start, ms).sync.lww.node == TrimSpace(u.nodeId)
  {
    forall s | s in ms && s.nodeId != "" ensures !Before(StampOf(u), StampOf(s)) && (s != u ==> !IsTop(ms, s)) {
      OutranksIff(u, s);
      BeforeTotal(StampOf(s), StampOf(u));
    }
    assert IsTop(ms, u) && Unshadowed(ms, u);
    EndsAtTop(start, ms, u);
  }

  /** Snapshots of two nodes from one second: the records of the greater id stay, whichever comes first. */
  lemma GreaterIdWins(start: Node, m: Snapshot, u: Snapshot, k: nat)
    requires FreshReplica(start) && m.ts == u.ts && m.nodeId != ""
    requires PartsAt(TrimSpace(m.nodeId), TrimSpace(u.nodeId), k)
    ensures ReceiveAll(start, [m, u]).records == ReceiveAll(start, [u, m]).records == Canonical(u.records)
  {
    assert m.nodeId != u.nodeId && TrimSpace("") == "";
    assert Outranks(u, m);
    NewestWins(start, [m, u], u);
    NewestWins(start, [u, m], u);
  }

  /** What a node stores of a snapshot: every record, in order, with nothing changed but its name. */
  lemma CanonicalKeeps(records: seq<DNSRecord>)
    ensures |Canonical(records)| == |records|
    ensures forall i :: 0 <= i < |records| ==>
              Canonical(records)[i] == records[i].(name := TrimDots(TrimSpace(records[i].name)))
  {
  }

  /** Sequence maps, stamps and records agree for every two orders of the same snapshots, with any repeats,
      exactly when the top stamp survives. Pushed snapshots and pull replies are treated alike. */
  lemma ConvergesIff(a: Node, b: Node, ms: seq<Snapshot>)
    requires FreshReplica(a) && FreshReplica(b)
    requires exists m :: m in ms && m.nodeId != ""
    ensures (forall ms1, ms2 :: SameMembers(ms1, ms) && SameMembers(ms2, ms) ==>
                Agree(ReceiveAll(a, ms1), ReceiveAll(b, ms2)))
            <==> TopSurvives(ms)
  {
    if TopSurvives(ms) {
      var t := SomeTop(ms);
      forall ms1, ms2 | SameMembers(ms1, ms) && SameMembers(ms2, ms)
        ensures Agree(ReceiveAll(a, ms1), ReceiveAll(b, ms2))
      {
        ConvergesTo(a, ms, ms1, t);
        ConvergesTo(b, ms, ms2, t);
        PeerSeqsAgree(a, b, ms1, ms2);
      }
    } else {
      var ms1, ms2 := OrdersThatDisagree(a, b, ms);
    }
  }

  /** Two orders of the same snapshots that leave replicas with different stamps or records. */
  lemma OrdersThatDisagree(a: Node, b: Node, ms: seq<Snapshot>) returns (ms1: seq<Snapshot>, ms2: seq<Snapshot>)
    requires FreshReplica(a) && FreshReplica(b) && !TopSurvives(ms)
    requires exists m :: m in ms && m.nodeId != ""
    ensures SameMembers(ms1, ms) && SameMembers(ms2, ms)
    ensures !Agree(ReceiveAll(a, ms1), ReceiveAll(b, ms2))
  {
    if TopsAgree(ms) {
      var t := SomeTop(ms);
      ms1 := ShadowedOrderMisses(a, ms, t);
      ms2 := [t] + ms;
      TopFirstWins(b, ms, t);
    } else {
      var u, v :| IsTop(ms, u) && IsTop(ms, v) && Canonical(u.records) != Canonical(v.records);
      ms1, ms2 := [u] + ms, [v] + ms;
      TopFirstWins(a, ms, u);
      TopFirstWins(b, ms, v);
    }
  }

  /** What they agree on: the top stamp, its records, and each sender's largest number. */
  lemma ConvergesTo(start: Node, ms: seq<Snapshot>, order: seq<Snapshot>, t: Snapshot)
    requires FreshReplica(start) && SameMembers(order, ms) && TopSurvives(ms) && IsTop(ms, t)
    ensures ReceiveAll(start, order).sync.lww == StampOf(t)
    ensures ReceiveAll(start, order).records == Canonical(t.records)
    ensures EntriesAreMaxima(ms, ReceiveAll(start, order).sync)
  {
    var t0 :| Unshadowed(ms, t0);
    assert forall u :: IsTop(order, u) <==> IsTop(ms, u);
    assert Unshadowed(order, t0);
    EndsAtTop(start, order, t);
    MaximaAll(start, order);
    SameMaxima(order, ms, ReceiveAll(start, order).sync);
  }

  lemma SameMaxima(ms: seq<Snapshot>, ms': seq<Snapshot>, s: SyncState)
    requires SameMembers(ms, ms') && EntriesAreMaxima(ms, s)
    ensures EntriesAreMaxima(ms', s)
  {
    forall p | p in s.peerSeq ensures Committed(ms', s, p) {
      var m :| m in ms && m.nodeId == p != "" && NormSeq(m.seqNo) == PeerSeq(s, p);
      assert m in ms';
    }
  }

  /** Sender ids are in trimmed form, and no sender uses a number for two different snapshots. */
  ghost predicate OnePerNumber(ms: seq<Snapshot>) {
    && (forall m <- ms :: m.nodeId != "" ==> TrimSpace(m.nodeId) == m.nodeId)
    && (forall s, u :: s in ms && u in ms && s.nodeId == u.nodeId && NormSeq(s.seqNo) == NormSeq(u.seqNo) ==> s == u)
  }

  /** Moreover each sender's clock moves at least a second between its pushes: later number, later second. */
  ghost predicate ClockOrdered(ms: seq<Snapshot>) {
    && OnePerNumber(ms)
    && (forall s, u :: s in ms && u in ms && s.nodeId == u.nodeId && NormSeq(s.seqNo) < NormSeq(u.seqNo) ==>
          NormTs(s.ts) < NormTs(u.ts))
  }

  lemma ClockOrderedSurvives(ms: seq<Snapshot>)
    requires ClockOrdered(ms) && exists m :: m in ms && m.nodeId != ""
    ensures TopSurvives(ms)
  {
    var t := SomeTop(ms);
    forall u | IsTop(ms, u) ensures u == t { TopUnique(ms, t, u); }
    forall s | s in ms && s.nodeId == t.nodeId && !IsTop(ms, s) ensures NormSeq(s.seqNo) < NormSeq(t.seqNo) {
      TopUnique(ms, t, s);
    }
    assert Unshadowed(ms, t);
  }

  /** Pushes from such senders always converge. */
  lemma ClockOrderedConverges(a: Node, b: Node, ms: seq<Snapshot>, ms1: seq<Snapshot>, ms2: seq<Snapshot>)
    requires FreshReplica(a) && FreshReplica(b)
    requires exists m :: m in ms && m.nodeId != ""
    requires ClockOrdered(ms) && SameMembers(ms1, ms) && SameMembers(ms2, ms)
    ensures Agree(ReceiveAll(a, ms1), ReceiveAll(b, ms2))
  {
    ClockOrderedSurvives(ms);
    ConvergesIff(a, b, ms);
  }

  /** Without it they need not: two pushes in the same second, delivered in the two orders. */
  lemma SameSecondDiverges(a: Node, b: Node, x: DNSRecord, y: DNSRecord)
    requires FreshReplica(a) && FreshReplica(b) && CanonName(x.name) != CanonName(y.name)
    ensures var m1, m2 := Snapshot("n", 1, 5, [x]), Snapshot("n", 2, 5, [y]);
            ReceiveAll(a, [m1, m2]).records != ReceiveAll(b, [m2, m1]).records
  {
    var m1, m2 := Snapshot("n", 1, 5, [x]), Snapshot("n", 2, 5, [y]);
    BeforeTotal(StampOf(m1), StampOf(m2));
    TopFirstWins(a, [m2], m1);
    TopFirstWins(b, [m1], m2);
    assert [m1] + [m2] == [m1, m2] && [m2] + [m1] == [m2, m1];
    assert Canonical(m1.records)[0].name != Canonical(m2.records)[0].name;
  }
}
