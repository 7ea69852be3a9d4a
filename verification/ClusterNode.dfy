/** One node handling one snapshot at a time: the records branch of serveConn and the tail of pullOnce
    (cluster/cluster.go), with the record store behind it (data/data.go). */
module ClusterNode {
  import opened Text
  import opened Records
  import opened ClusterState

  datatype Node = Node(cfg: SyncConfig, sync: SyncState, records: seq<DNSRecord>)

  /** The snapshot passes the duplicate check and the policy, and the store takes it. */
  predicate Applies(n: Node, m: Snapshot) {
    !Duplicate(n.sync, m) && ShouldApply(n.cfg, n.sync, m) && !n.cfg.readOnly
  }

  function Receive(n: Node, m: Snapshot): Node {
    if Duplicate(n.sync, m) then n
    else if !ShouldApply(n.cfg, n.sync, m) then n.(sync := CommitSeq(n.sync, m))
    else if n.cfg.readOnly then n
    else
      var s := CommitSeq(n.sync, m);
      n.(records := Canonical(m.records), sync := if n.cfg.policy == GlobalLww then CommitLww(s, m) else s)
  }

  /** The node after the snapshots of `ms`, in order. */
  function ReceiveAll(n: Node, ms: seq<Snapshot>): Node {
    if ms == [] then n else Receive(ReceiveAll(n, ms[..|ms| - 1]), ms[|ms| - 1])
  }

  /** What one snapshot can change: sequence entries only grow; records change only when it applies, and then
      the sender's entry strictly grows; under global_lww the stamp then strictly grows to the snapshot's. */
  lemma ReceiveStep(n: Node, m: Snapshot)
    ensures Receive(n, m).cfg == n.cfg && Receive(n, m).sync.nodeId == n.sync.nodeId
    ensures Receive(n, m).sync.localSeq == n.sync.localSeq
    ensures forall p :: PeerSeq(n.sync, p) <= PeerSeq(Receive(n, m).sync, p)
    ensures Applies(n, m) ==> Receive(n, m).records == Canonical(m.records)
    ensures Applies(n, m) ==> PeerSeq(n.sync, m.nodeId) < NormSeq(m.seqNo) == PeerSeq(Receive(n, m).sync, m.nodeId)
    ensures Applies(n, m) && n.cfg.policy == GlobalLww ==>
      Receive(n, m).sync.lww == StampOf(m) && Before(n.sync.lww, StampOf(m))
    ensures !Applies(n, m) ==> Receive(n, m).records == n.records && Receive(n, m).sync.lww == n.sync.lww
    ensures n.cfg.policy != GlobalLww ==> Receive(n, m).sync.lww == n.sync.lww
  {
  }

  /** Under primary_writer a snapshot from an unlisted writer changes nothing but its sequence entry. */
  lemma DeniedTouchesOnlySequences(n: Node, m: Snapshot)
    requires n.cfg.policy == PrimaryWriter && !WriterListed(n.cfg.allowedWriters, m.nodeId)
    ensures Receive(n, m) == n.(sync := n.sync.(peerSeq := Receive(n, m).sync.peerSeq))
    ensures forall p :: p != m.nodeId ==> PeerSeq(Receive(n, m).sync, p) == PeerSeq(n.sync, p)
  {
  }

  lemma {:induction false} ReceivedSeqs(n: Node, ms: seq<Snapshot>, k: nat, p: string)
    requires k <= |ms|
    ensures ReceiveAll(n, ms).cfg == n.cfg
    ensures PeerSeq(ReceiveAll(n, ms[..k]).sync, p) <= PeerSeq(ReceiveAll(n, ms).sync, p)
    decreases |ms|
  {
    if ms == [] || k == |ms| {
      assert ms[..k] == ms;
    }
    if ms != [] {
      var head := ms[..|ms| - 1];
      ReceivedSeqs(n, head, if k < |ms| then k else |head|, p);
      assert k < |ms| ==> head[..k] == ms[..k];
      ReceiveStep(ReceiveAll(n, head), ms[|ms| - 1]);
    }
  }

  /** Each sender's applied sequence numbers strictly increase, under every policy. */
  lemma AppliedSeqsIncrease(n: Node, ms: seq<Snapshot>, i: nat, j: nat)
    requires i < j < |ms| && ms[i].nodeId == ms[j].nodeId
    requires Applies(ReceiveAll(n, ms[..i]), ms[i]) && Applies(ReceiveAll(n, ms[..j]), ms[j])
    ensures NormSeq(ms[i].seqNo) < NormSeq(ms[j].seqNo)
  {
    ReceiveStep(ReceiveAll(n, ms[..i]), ms[i]);
    assert ms[..i + 1][..i] == ms[..i] && ms[..j][..i + 1] == ms[..i + 1];
    ReceivedSeqs(n, ms[..j], i + 1, ms[i].nodeId);
    ReceiveStep(ReceiveAll(n, ms[..j]), ms[j]);
  }

  // ---- What a snapshot does, outright ----

  /** The snapshot names its sender and carries a newer number than the last one kept for it; number 0 counts as 1. */
  predicate Unseen(peerSeq: map<string, nat>, m: Snapshot) {
    m.nodeId != "" && (m.nodeId in peerSeq ==> peerSeq[m.nodeId] < m.seqNo || peerSeq[m.nodeId] == 0)
  }

  /** The policy lets the snapshot in: always; from a listed writer; or with a later second than the last one that
      won, or the same second and an id that comes after its id in the dictionary. */
  ghost predicate Permitted(cfg: SyncConfig, lww: Stamp, m: Snapshot) {
    match cfg.policy
    case LwwPerNode => true
    case PrimaryWriter =>
      exists i :: 0 <= i < |cfg.allowedWriters| && TrimSpace(cfg.allowedWriters[i]) == TrimSpace(m.nodeId) != ""
    case GlobalLww =>
      var t := if m.ts <= 0 then 1 else m.ts;
      lww.unix < t || (lww.unix == t && exists k: nat :: PartsAt(lww.node, TrimSpace(m.nodeId), k))
  }

  /** The records are those of the snapshot, in order, with nothing changed but dots and blanks around the names. */
  ghost predicate Adopts(records: seq<DNSRecord>, m: Snapshot) {
    && |records| == |m.records|
    && forall i :: 0 <= i < |records| ==>
         records[i] == m.records[i].(name := TrimDots(TrimSpace(m.records[i].name)))
  }

  lemma PermittedIff(cfg: SyncConfig, s: SyncState, m: Snapshot)
    ensures ShouldApply(cfg, s, m) <==> Permitted(cfg, s.lww, m)
  {
    LessIff(s.lww.node, TrimSpace(m.nodeId));
    if i :| 0 <= i < |cfg.allowedWriters| && TrimSpace(cfg.allowedWriters[i]) == TrimSpace(m.nodeId) {
      assert cfg.allowedWriters[i] in cfg.allowedWriters;
    }
  }

  /** A snapshot that has been seen changes nothing. A new one is remembered by its number, even if the policy turns it
      away, unless the policy lets it in and the store is read-only. If it is let in the store takes its records, and
      under global_lww its stamp is kept. */
  lemma ReceiveMeaning(n: Node, m: Snapshot)
    ensures var r, isNew, ok := Receive(n, m), Unseen(n.sync.peerSeq, m), Permitted(n.cfg, n.sync.lww, m);
            && r.cfg == n.cfg && r.sync.nodeId == n.sync.nodeId && r.sync.localSeq == n.sync.localSeq
            && (Applies(n, m) <==> isNew && ok && !n.cfg.readOnly)
            && (if isNew && ok && !n.cfg.readOnly then Adopts(r.records, m) else r.records == n.records)
            && r.sync.peerSeq == (if isNew && !(ok && n.cfg.readOnly)
                                  then n.sync.peerSeq[m.nodeId := if m.seqNo == 0 then 1 else m.seqNo]
                                  else n.sync.peerSeq)
            && r.sync.lww == (if isNew && ok && !n.cfg.readOnly && n.cfg.policy == GlobalLww
                              then Stamp(if m.ts <= 0 then 1 else m.ts, TrimSpace(m.nodeId)) else n.sync.lww)
  {
    PermittedIff(n.cfg, n.sync, m);
  }
}
