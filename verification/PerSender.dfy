/** Convergence under the policies that do not order different senders: lww_per_node takes every snapshot,
    primary_writer those of listed writers (cluster/policy.go:48-74). Whoever is applied last wins. */
module PerSender {
  import opened Records
  import opened ClusterState
  import opened ClusterNode
  import opened Convergence

  /** Under these policies it depends on the sender alone whether a snapshot is taken. */
  predicate Accepts(cfg: SyncConfig, m: Snapshot) {
    m.nodeId != "" && (cfg.policy == PrimaryWriter ==> WriterListed(cfg.allowedWriters, m.nodeId))
  }

  predicate PerSenderReplica(n: Node) {
    NoEntries(n) && n.cfg.policy != GlobalLww
  }

  /** `m` is taken, and no snapshot of its sender has a larger number. */
  predicate IsLast(cfg: SyncConfig, ms: seq<Snapshot>, m: Snapshot) {
    m in ms && Accepts(cfg, m) && forall s <- ms :: s.nodeId == m.nodeId ==> NormSeq(s.seqNo) <= NormSeq(m.seqNo)
  }

  ghost predicate SomeAccepted(cfg: SyncConfig, ms: seq<Snapshot>) {
    exists m :: m in ms && Accepts(cfg, m)
  }

  /** All senders' last snapshots carry the same records. */
  ghost predicate LastsAgree(cfg: SyncConfig, ms: seq<Snapshot>) {
    forall m, u :: IsLast(cfg, ms, m) && IsLast(cfg, ms, u) ==> Canonical(m.records) == Canonical(u.records)
  }

  // ---- What a replica ends with ----

  ghost predicate FromLast(ms: seq<Snapshot>, n: Node) {
    exists m :: IsLast(n.cfg, ms, m) && Canonical(m.records) == n.records
  }

  ghost predicate Traced(start: Node, ms: seq<Snapshot>, n: Node) {
    && n.cfg == start.cfg && n.sync.lww == start.sync.lww && EntriesAreMaxima(ms, n.sync)
    && (if SomeAccepted(start.cfg, ms) then FromLast(ms, n) else n.records == start.records)
  }

  lemma AcceptedStep(cfg: SyncConfig, ms: seq<Snapshot>, m: Snapshot)
    ensures SomeAccepted(cfg, ms + [m]) <==> SomeAccepted(cfg, ms) || Accepts(cfg, m)
  {
    assert m in ms + [m] && forall s <- ms :: s in ms + [m];
  }

  /** A last snapshot stays one when the new snapshot is of another sender or has no larger number. */
  lemma LastStays(cfg: SyncConfig, ms: seq<Snapshot>, w: Snapshot, m: Snapshot)
    requires IsLast(cfg, ms, w) && (m.nodeId == w.nodeId ==> NormSeq(m.seqNo) <= NormSeq(w.seqNo))
    ensures IsLast(cfg, ms + [m], w)
  {
  }

  /** A snapshot that is not applied leaves the records with a last snapshot. */
  lemma SkippedStep(start: Node, ms: seq<Snapshot>, n: Node, m: Snapshot)
    requires PerSenderReplica(start) && Traced(start, ms, n) && !Applies(n, m) && SomeAccepted(start.cfg, ms + [m])
    ensures FromLast(ms + [m], n)
  {
    AcceptedStep(start.cfg, ms, m);
    if Accepts(start.cfg, m) {
      var s :| s in ms && s.nodeId == m.nodeId != "" && NormSeq(s.seqNo) == PeerSeq(n.sync, m.nodeId);
      assert Accepts(start.cfg, s);
    }
    var w :| IsLast(n.cfg, ms, w) && Canonical(w.records) == n.records;
    LastStays(n.cfg, ms, w, m);
  }

  lemma {:induction false} TracedStep(start: Node, ms: seq<Snapshot>, n: Node, m: Snapshot)
    requires PerSenderReplica(start) && Traced(start, ms, n)
    ensures Traced(start, ms + [m], Receive(n, m))
  {
    var n' := Receive(n, m);
    ReceiveStep(n, m);
    MaximaStep(ms, n, m);
    AcceptedStep(start.cfg, ms, m);
    if Applies(n, m) {
      assert IsLast(n.cfg, ms + [m], m);
    } else if SomeAccepted(start.cfg, ms + [m]) {
      SkippedStep(start, ms, n, m);
      var w :| IsLast(n.cfg, ms + [m], w) && Canonical(w.records) == n.records;
      assert FromLast(ms + [m], n');
    }
  }

  lemma {:induction false} TracedAll(start: Node, ms: seq<Snapshot>)
    requires PerSenderReplica(start)
    ensures Traced(start, ms, ReceiveAll(start, ms))
  {
    if ms != [] {
      var head, last := ms[..|ms| - 1], ms[|ms| - 1];
      TracedAll(start, head);
      TracedStep(start, head, ReceiveAll(start, head), last);
      assert head + [last] == ms;
    }
  }

  // ---- Every last snapshot can be the one that stays ----

  predicate SameNumber(s: Snapshot, m: Snapshot) {
    s.nodeId == m.nodeId && NormSeq(s.seqNo) == NormSeq(m.seqNo)
  }

  /** The snapshots of `from` that carry m's sender and number, or the others. */
  function Select(from: seq<Snapshot>, m: Snapshot, wanted: bool): (r: seq<Snapshot>)
    ensures forall s :: s in r <==> s in from && SameNumber(s, m) == wanted
  {
    if from == [] then []
    else (if SameNumber(from[0], m) == wanted then [from[0]] else []) + Select(from[1..], m, wanted)
  }

  lemma LastCanStay(start: Node, ms: seq<Snapshot>, m: Snapshot) returns (order: seq<Snapshot>)
    requires PerSenderReplica(start) && IsLast(start.cfg, ms, m)
    ensures SameMembers(order, ms) && ReceiveAll(start, order).records == Canonical(m.records)
  {
    var others, same := Select(ms, m, false), Select(ms, m, true);
    var before := ReceiveAll(start, others);
    TracedAll(start, others);
    SmallerEntry(others, before.sync, m);
    var after := Receive(before, m);
    ReceiveStep(before, m);
    assert forall s <- same :: Duplicate(after.sync, s);
    ShadowedIgnored(after, same);
    order := others + [m] + same;
    ReceiveConcat(start, others + [m], same);
    assert (others + [m])[..|others|] == others;
  }

  lemma SmallerEntry(ms: seq<Snapshot>, s: SyncState, m: Snapshot)
    requires EntriesAreMaxima(ms, s) && m.nodeId != ""
    requires forall u <- ms :: u.nodeId == m.nodeId ==> NormSeq(u.seqNo) < NormSeq(m.seqNo)
    ensures !Duplicate(s, m)
  {
    if m.nodeId in s.peerSeq {
      var u :| u in ms && u.nodeId == m.nodeId && NormSeq(u.seqNo) == PeerSeq(s, m.nodeId);
    }
  }

  // ---- Main results ----

  /** What two replicas must bring along to end with the same records: the last snapshots agree, or nothing is taken and
      they started with the same records. */
  ghost predicate SameOutcome(a: Node, b: Node, ms: seq<Snapshot>) {
    && a.sync.lww == b.sync.lww
    && (if SomeAccepted(a.cfg, ms) then LastsAgree(a.cfg, ms) else a.records == b.records)
  }

  /** All orders of the same snapshots, with any repeats, leave the replicas equal exactly when all senders' last
      snapshots carry the same records. */
  lemma LastsDecideIff(a: Node, b: Node, ms: seq<Snapshot>)
    requires PerSenderReplica(a) && PerSenderReplica(b)
    requires a.cfg.policy == b.cfg.policy && a.cfg.allowedWriters == b.cfg.allowedWriters
    ensures (forall ms1, ms2 :: SameMembers(ms1, ms) && SameMembers(ms2, ms) ==>
                Agree(ReceiveAll(a, ms1), ReceiveAll(b, ms2)))
            <==> SameOutcome(a, b, ms)
  {
    if SameOutcome(a, b, ms) {
      forall ms1, ms2 | SameMembers(ms1, ms) && SameMembers(ms2, ms)
        ensures Agree(ReceiveAll(a, ms1), ReceiveAll(b, ms2))
      {
        LastsDecide(a, b, ms, ms1, ms2);
      }
    } else {
      var ms1, ms2 := OrdersThatDiffer(a, b, ms);
    }
  }

  lemma LastsDecide(a: Node, b: Node, ms: seq<Snapshot>, ms1: seq<Snapshot>, ms2: seq<Snapshot>)
    requires PerSenderReplica(a) && PerSenderReplica(b) && SameOutcome(a, b, ms)
    requires a.cfg.policy == b.cfg.policy && a.cfg.allowedWriters == b.cfg.allowedWriters
    requires SameMembers(ms1, ms) && SameMembers(ms2, ms)
    ensures Agree(ReceiveAll(a, ms1), ReceiveAll(b, ms2))
  {
    TracedAll(a, ms1);
    TracedAll(b, ms2);
    PeerSeqsAgree(a, b, ms1, ms2);
    SameLasts(a.cfg, ms1, ms);
    SameLasts(b.cfg, ms2, ms);
    assert forall m :: Accepts(a.cfg, m) == Accepts(b.cfg, m);
  }

  lemma SameLasts(cfg: SyncConfig, ms: seq<Snapshot>, ms': seq<Snapshot>)
    requires SameMembers(ms, ms')
    ensures SomeAccepted(cfg, ms) == SomeAccepted(cfg, ms')
    ensures forall m :: IsLast(cfg, ms, m) <==> IsLast(cfg, ms', m)
  {
  }

  /** Otherwise two orders leave them different. */
  lemma OrdersThatDiffer(a: Node, b: Node, ms: seq<Snapshot>) returns (ms1: seq<Snapshot>, ms2: seq<Snapshot>)
    requires PerSenderReplica(a) && PerSenderReplica(b) && !SameOutcome(a, b, ms)
    requires a.cfg.policy == b.cfg.policy && a.cfg.allowedWriters == b.cfg.allowedWriters
    ensures SameMembers(ms1, ms) && SameMembers(ms2, ms)
    ensures !Agree(ReceiveAll(a, ms1), ReceiveAll(b, ms2))
  {
    assert forall m :: Accepts(a.cfg, m) == Accepts(b.cfg, m);
    if a.sync.lww == b.sync.lww && SomeAccepted(a.cfg, ms) {
      var m, u :| IsLast(a.cfg, ms, m) && IsLast(a.cfg, ms, u) && Canonical(m.records) != Canonical(u.records);
      assert IsLast(b.cfg, ms, u);
      ms1 := LastCanStay(a, ms, m);
      ms2 := LastCanStay(b, ms, u);
    } else {
      ms1, ms2 := ms, ms;
      TracedAll(a, ms);
      TracedAll(b, ms);
    }
  }

  /** All snapshots come from one sender. */
  ghost predicate OneSender(ms: seq<Snapshot>) {
    forall m, u :: m in ms && u in ms ==> m.nodeId == u.nodeId
  }

  /** A single writer that uses each number once is safe, whatever its clock does. */
  lemma SingleWriterSafe(cfg: SyncConfig, ms: seq<Snapshot>)
    requires OneSender(ms) && OnePerNumber(ms)
    ensures LastsAgree(cfg, ms)
  {
    forall m, u | IsLast(cfg, ms, m) && IsLast(cfg, ms, u) ensures m == u {
      assert m.nodeId == u.nodeId && NormSeq(m.seqNo) == NormSeq(u.seqNo);
    }
  }

  /** Two writers with different records are not: each can be the one that stays. */
  lemma TwoWritersDiverge(a: Node, b: Node, x: DNSRecord, y: DNSRecord)
    returns (ms1: seq<Snapshot>, ms2: seq<Snapshot>)
    requires PerSenderReplica(a) && PerSenderReplica(b) && a.cfg.policy == b.cfg.policy == LwwPerNode
    requires CanonName(x.name) != CanonName(y.name)
    ensures var ms := [Snapshot("n", 1, 5, [x]), Snapshot("m", 1, 6, [y])];
            SameMembers(ms1, ms) && SameMembers(ms2, ms)
    ensures ReceiveAll(a, ms1).records != ReceiveAll(b, ms2).records
  {
    var m, u := Snapshot("n", 1, 5, [x]), Snapshot("m", 1, 6, [y]);
    assert m.nodeId[0] != u.nodeId[0];
    assert IsLast(a.cfg, [m, u], m) && IsLast(b.cfg, [m, u], u);
    ms1 := LastCanStay(a, [m, u], m);
    ms2 := LastCanStay(b, [m, u], u);
    assert Canonical(m.records)[0].name != Canonical(u.records)[0].name;
  }
}
