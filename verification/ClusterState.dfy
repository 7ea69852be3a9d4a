/** Per-node sync state (cluster/state.go) and the sync policies over it (cluster/policy.go). */
module ClusterState {
  import opened Text
  import opened Records

  /** A full record snapshot as it travels between nodes (RecordsFullMessage). */
  datatype Snapshot = Snapshot(nodeId: string, seqNo: nat, ts: int, records: seq<DNSRecord>)

  /** The pair that orders snapshots under global_lww. */
  datatype Stamp = Stamp(unix: int, node: string)

  datatype SyncState = SyncState(nodeId: string, localSeq: nat, peerSeq: map<string, nat>, lww: Stamp)

  datatype Policy = LwwPerNode | PrimaryWriter | GlobalLww

  /** The settings that decide what a node sends and accepts. */
  datatype SyncConfig = SyncConfig(
    policy: Policy, allowedWriters: seq<string>, readOnly: bool, rejectLocal: bool,
    enabled: bool, replicaOnly: bool, hasToken: bool, peers: seq<string>)

  /** Sequence numbers are Go uint64s. */
  const SEQ_LIMIT: nat := 0x1_0000_0000_0000_0000

  const FRESH: Stamp := Stamp(0, "")

  /** `localSeq++` on a uint64. */
  function NextSeq(n: nat): nat {
    if n + 1 >= SEQ_LIMIT then 0 else n + 1
  }

  function NormSeq(n: nat): nat {
    if n == 0 then 1 else n
  }

  function NormTs(t: int): int {
    if t <= 0 then 1 else t
  }

  function StampOf(m: Snapshot): Stamp {
    Stamp(NormTs(m.ts), TrimSpace(m.nodeId))
  }

  /** Lexicographic order on stamps: later second first, then the greater node id. */
  predicate Before(a: Stamp, b: Stamp) {
    a.unix < b.unix || (a.unix == b.unix && Less(a.node, b.node))
  }

  function PeerSeq(s: SyncState, peer: string): nat {
    if peer in s.peerSeq then s.peerSeq[peer] else 0
  }

  predicate Duplicate(s: SyncState, m: Snapshot) {
    m.nodeId == "" || NormSeq(m.seqNo) <= PeerSeq(s, m.nodeId)
  }

  function CommitSeq(s: SyncState, m: Snapshot): SyncState {
    if Duplicate(s, m) then s else s.(peerSeq := s.peerSeq[m.nodeId := NormSeq(m.seqNo)])
  }

  function CommitLww(s: SyncState, m: Snapshot): SyncState {
    s.(lww := StampOf(m))
  }

  predicate WriterListed(allowed: seq<string>, nodeId: string) {
    TrimSpace(nodeId) != "" && exists id <- allowed :: TrimSpace(id) == TrimSpace(nodeId)
  }

  predicate ShouldApply(cfg: SyncConfig, s: SyncState, m: Snapshot) {
    match cfg.policy
    case LwwPerNode => true
    case PrimaryWriter => WriterListed(cfg.allowedWriters, m.nodeId)
    case GlobalLww => Before(s.lww, StampOf(m))
  }

  // ---- Stamps are totally ordered, and fresh state is below every stamp ----

  lemma BeforeTransitive(a: Stamp, b: Stamp, c: Stamp)
    requires Before(a, b) && Before(b, c)
    ensures Before(a, c)
  {
    if a.unix == b.unix == c.unix {
      LessTransitive(a.node, b.node, c.node);
    }
  }

  lemma BeforeTotal(a: Stamp, b: Stamp)
    ensures Before(a, b) || a == b || Before(b, a)
    ensures !(Before(a, b) && Before(b, a)) && !Before(a, a)
  {
    LessTotal(a.node, b.node);
    LessIrreflexive(a.node);
    if Before(a, b) && Before(b, a) {
      BeforeTransitive(a, b, a);
    }
  }

  lemma FreshIsLowest(m: Snapshot)
    ensures Before(FRESH, StampOf(m))
  {
  }

  // ---- cluster/state.go ----

  class StateManager {
    var nodeId: string
    var localSeq: nat
    var peerSeq: map<string, nat>
    var lastGlobalLWWUnix: int
    var lastGlobalLWWNodeID: string

    function View(): SyncState
      reads this
    {
      SyncState(nodeId, localSeq, peerSeq, Stamp(lastGlobalLWWUnix, lastGlobalLWWNodeID))
    }

    /** A node that has no state file yet. */
    constructor (cfgNodeId: string, randomId: string)
      ensures View() == SyncState(if TrimSpace(cfgNodeId) == "" then "node-" + randomId else TrimSpace(cfgNodeId),
                                  0, map[], FRESH)
    {
      nodeId := TrimSpace(cfgNodeId);
      if TrimSpace(cfgNodeId) == "" {
        nodeId := "node-" + randomId;
      }
      localSeq, peerSeq := 0, map[];
      lastGlobalLWWUnix, lastGlobalLWWNodeID := 0, "";
    }

    method NextLocalSeq() returns (n: nat)
      modifies this`localSeq
      ensures n == localSeq == NextSeq(old(localSeq))
      ensures n == old(localSeq) + 1 || (n == 0 && old(localSeq) + 1 >= 0x1_0000_0000_0000_0000)
    {
      localSeq := NextSeq(localSeq);
      n := localSeq;
    }

    method IsDuplicate(m: Snapshot) returns (dup: bool)
      ensures dup == Duplicate(View(), m)
      ensures !dup <==>
              m.nodeId != "" && (m.nodeId in peerSeq ==> peerSeq[m.nodeId] < m.seqNo || peerSeq[m.nodeId] == 0)
    {
      if m.nodeId == "" {
        return true;
      }
      var n := m.seqNo;
      if n == 0 {
        n := 1;
      }
      dup := n <= (if m.nodeId in peerSeq then peerSeq[m.nodeId] else 0);
    }

    method CommitPeerSeq(m: Snapshot)
      modifies this`peerSeq
      ensures View() == CommitSeq(old(View()), m)
      ensures forall p :: old(PeerSeq(View(), p)) <= PeerSeq(View(), p)
      ensures m.nodeId != "" ==> m.nodeId in peerSeq && peerSeq[m.nodeId] >= 1 && peerSeq[m.nodeId] >= m.seqNo
      ensures forall p :: p in old(peerSeq) || p == m.nodeId != "" <==> p in peerSeq
      ensures forall p <- peerSeq :: (p in old(peerSeq) && peerSeq[p] == old(peerSeq)[p]) ||
                (p == m.nodeId && (peerSeq[p] == m.seqNo || (m.seqNo == 0 && peerSeq[p] == 1)))
    {
      if m.nodeId == "" {
        return;
      }
      var n := m.seqNo;
      if n == 0 {
        n := 1;
      }
      if n > (if m.nodeId in peerSeq then peerSeq[m.nodeId] else 0) {
        peerSeq := peerSeq[m.nodeId := n];
      }
    }

    /** The first-snapshot shortcut and the two comparisons together are the lexicographic order: with no snapshot seen
        yet everything is accepted, then a later second, and in the same second the id that the dictionary puts last. */
    method ShouldAcceptGlobalLWW(ts: int, id: string) returns (accept: bool)
      ensures accept == Before(View().lww, Stamp(NormTs(ts), TrimSpace(id)))
      ensures var t := if ts <= 0 then 1 else ts;
              accept <==>
              || (lastGlobalLWWUnix == 0 && lastGlobalLWWNodeID == "")
              || lastGlobalLWWUnix < t
              || (lastGlobalLWWUnix == t && exists k: nat :: PartsAt(lastGlobalLWWNodeID, TrimSpace(id), k))
    {
      LessIff(lastGlobalLWWNodeID, TrimSpace(id));
      var t := if ts <= 0 then 1 else ts;
      var node := TrimSpace(id);
      if lastGlobalLWWUnix == 0 && lastGlobalLWWNodeID == "" {
        return true;
      }
      if t > lastGlobalLWWUnix {
        return true;
      }
      if t < lastGlobalLWWUnix {
        return false;
      }
      accept := Less(lastGlobalLWWNodeID, node);
    }

    method CommitGlobalLWW(ts: int, id: string)
      modifies this`lastGlobalLWWUnix, this`lastGlobalLWWNodeID
      ensures View() == old(View()).(lww := Stamp(NormTs(ts), TrimSpace(id)))
      ensures lastGlobalLWWUnix == (if ts <= 0 then 1 else ts) && lastGlobalLWWNodeID == TrimSpace(id)
    {
      lastGlobalLWWUnix := if ts <= 0 then 1 else ts;
      lastGlobalLWWNodeID := TrimSpace(id);
    }
  }

  // ---- cluster/policy.go ----

  method WriterAllowed(allowed: seq<string>, nodeId: string) returns (ok: bool)
    ensures ok == WriterListed(allowed, nodeId)
    ensures ok <==> exists i :: 0 <= i < |allowed| && TrimSpace(allowed[i]) == TrimSpace(nodeId) != ""
  {
    var wanted := TrimSpace(nodeId);
    if wanted == "" {
      return false;
    }
    for i := 0 to |allowed|
      invariant forall j :: 0 <= j < i ==> TrimSpace(allowed[j]) != wanted
    {
      if TrimSpace(allowed[i]) == wanted {
        assert allowed[i] in allowed;
        return true;
      }
    }
    return false;
  }

  datatype Reason = Accepted | NoAllowlist | WriterDenied | GlobalLwwStale

  method ShouldApplySnapshot(cfg: SyncConfig, st: StateManager, m: Snapshot) returns (ok: bool, reason: Reason)
    ensures ok == ShouldApply(cfg, st.View(), m)
    ensures cfg.policy == LwwPerNode ==> ok
    ensures cfg.policy == PrimaryWriter ==>
              (ok <==> exists i :: 0 <= i < |cfg.allowedWriters| &&
                         TrimSpace(cfg.allowedWriters[i]) == TrimSpace(m.nodeId) != "")
    ensures cfg.policy == GlobalLww ==>
              var t := if m.ts <= 0 then 1 else m.ts;
              (ok <==>
               || (st.lastGlobalLWWUnix == 0 && st.lastGlobalLWWNodeID == "")
               || st.lastGlobalLWWUnix < t
               || (st.lastGlobalLWWUnix == t &&
                   exists k: nat :: PartsAt(st.lastGlobalLWWNodeID, TrimSpace(m.nodeId), k)))
    ensures ok <==> reason == Accepted
    ensures reason == NoAllowlist <==> cfg.policy == PrimaryWriter && cfg.allowedWriters == []
    ensures reason == GlobalLwwStale <==> cfg.policy == GlobalLww && !Before(st.View().lww, StampOf(m))
  {
    match cfg.policy {
      case LwwPerNode =>
        return true, Accepted;
      case PrimaryWriter =>
        if |cfg.allowedWriters| == 0 {
          return false, NoAllowlist;
        }
        var listed := WriterAllowed(cfg.allowedWriters, m.nodeId);
        return listed, if listed then Accepted else WriterDenied;
      case GlobalLww =>
        var wins := st.ShouldAcceptGlobalLWW(if m.ts <= 0 then 1 else m.ts, m.nodeId);
        return wins, if wins then Accepted else GlobalLwwStale;
    }
  }
}
