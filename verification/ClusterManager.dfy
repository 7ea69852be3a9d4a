/** The cluster manager (cluster/cluster.go): its sync state, its record store, the notify callback between them,
    and the paths by which records leave and reach the node. Each method is one step of ClusterWorld at this node. */
module ClusterManager {
  import opened Options
  import opened Text
  import opened Records
  import opened ClusterState
  import opened ClusterNode
  import opened ClusterWorld
  import opened ResolverData

  class Manager {
    const state: StateManager
    const dns: DNSResolverData
    var cfg: SyncConfig
    /** How many calls of the notify callback have been carried out. */
    var delivered: nat
    /** Pushes that NotifyLocalRecordsChanged has started and that have not run yet. */
    var pushes: nat

    ghost predicate Valid()
      reads this, dns
    {
      && dns.Valid() && cfg.readOnly == dns.readOnly && cfg.rejectLocal == dns.rejectLocal
      && !dns.clusterSkipNotify && delivered == dns.notified
    }

    /** This node as the theorems about snapshots see it. */
    function View(): Node
      reads this, state, dns
    {
      Node(cfg, state.View(), dns.dnsRecords)
    }

    /** This node is the one at address `at` of the cluster `w`. */
    ghost predicate Represents(w: World, at: string)
      reads this, state, dns
    {
      Valid() && at in w.nodes && w.nodes[at] == View() && w.jobs[at] == pushes
    }

    /** A manager whose sync state has been loaded and whose callback has been registered. */
    constructor (state: StateManager, dns: DNSResolverData, cfg: SyncConfig)
      requires dns.Valid() && cfg.readOnly == dns.readOnly && cfg.rejectLocal == dns.rejectLocal
               && !dns.clusterSkipNotify
      ensures Valid() && this.state == state && this.dns == dns && View() == Node(cfg, state.View(), dns.dnsRecords)
      ensures pushes == 0
    {
      this.state, this.dns, this.cfg := state, dns, cfg;
      delivered, pushes := dns.notified, 0;
    }

    /** Starts a push unless the settings rule one out. */
    method NotifyLocalRecordsChanged()
      modifies this`pushes
      ensures pushes == old(pushes) + if Notifies(cfg) then 1 else 0
      ensures pushes > old(pushes) <==>
              cfg.enabled && cfg.peers != [] && !cfg.replicaOnly && !cfg.readOnly && cfg.hasToken
    {
      if !cfg.enabled || |cfg.peers| == 0 {
        return;
      }
      if cfg.replicaOnly {
        return;
      }
      if cfg.readOnly {
        return;
      }
      if !cfg.hasToken {
        return;
      }
      pushes := pushes + 1;
    }

    /** Runs the callback once for every call the store has made. */
    method RunCallbacks()
      requires delivered <= dns.notified
      modifies this`pushes, this`delivered
      ensures delivered == dns.notified
      ensures pushes == old(pushes) + if Notifies(cfg) then dns.notified - old(delivered) else 0
    {
      while delivered < dns.notified
        invariant old(delivered) <= delivered <= dns.notified
        invariant pushes == old(pushes) + if Notifies(cfg) then delivered - old(delivered) else 0
      {
        NotifyLocalRecordsChanged();
        delivered := delivered + 1;
      }
    }

    /** A local write through the store, with the callback it triggers: the cluster's LocalWrite step. */
    method WriteRecords(records: seq<DNSRecord>, saved: bool, ghost w: World, ghost at: string) returns (ok: bool)
      requires Represents(w, at)
      modifies this, dns
      ensures Represents(Step(w, LocalWrite(at, records, saved)), at)
      ensures ok <==> !cfg.rejectLocal && !cfg.readOnly
      ensures pushes > old(pushes) <==> dns.notified > old(dns.notified) && Notifies(cfg)
      ensures dns.notified > old(dns.notified) <==> ok && saved
      ensures dns.dnsRecords == if ok then records else old(dns.dnsRecords)
    {
      ok := dns.UpdateRecords(records, saved);
      RunCallbacks();
    }

    /** The records branch of serveConn and the tail of pullOnce: the cluster's Deliver and Pull steps. The store keeps
        the flag raised while it writes, so the callback is not called and no push is started. */
    method HandleSnapshot(m: Snapshot, saved: bool, ghost w: World, ghost at: string, ghost e: Event)
      returns (applied: bool)
      requires Represents(w, at) && Handled(w, e, at) == [m]
      modifies this, state, dns
      ensures View() == Receive(old(View()), m) && Represents(Step(w, e), at)
      ensures applied <==> Applies(old(View()), m)
      ensures dns.notified == old(dns.notified) && pushes == old(pushes) && dns.cacheRecords == old(dns.cacheRecords)
    {
      applied := ApplySnapshot(m, saved);
      RunCallbacks();
    }

    /** PullFromPeers for one peer, with pullOnce: the cluster's Pull step. `reply` is what the peer sent, if it did. */
    method PullOnce(peer: string, reply: Option<Snapshot>, saved: bool, now: int, ghost w: World, ghost at: string)
      returns (applied: bool)
      requires Represents(w, at)
      requires reply.Some? ==> peer in w.nodes && reply.value == Current(w.nodes[peer], now)
      modifies this, state, dns
      ensures reply.Some? ==> Represents(Step(w, Pull(at, peer, now)), at)
      ensures reply.Some? && cfg.enabled && cfg.hasToken ==> View() == Receive(old(View()), reply.value)
      ensures reply == None || !cfg.enabled || !cfg.hasToken ==> View() == old(View())
      ensures applied <==> reply.Some? && cfg.enabled && cfg.hasToken && Applies(old(View()), reply.value)
      ensures dns.notified == old(dns.notified) && pushes == old(pushes)
    {
      applied := false;
      if !cfg.enabled {
        return;
      }
      if !cfg.hasToken {
        return;
      }
      match reply {
        case None =>
        case Some(m) => applied := HandleSnapshot(m, saved, w, at, Pull(at, peer, now));
      }
    }

    method ApplySnapshot(m: Snapshot, saved: bool) returns (applied: bool)
      requires Valid()
      modifies state, dns
      ensures Valid() && View() == Receive(old(View()), m)
      ensures applied <==> Applies(old(View()), m)
      ensures applied <==> Unseen(old(state.peerSeq), m) && Permitted(cfg, old(View()).sync.lww, m) && !cfg.readOnly
      ensures if applied then Adopts(dns.dnsRecords, m) else dns.dnsRecords == old(dns.dnsRecords)
      ensures dns.notified == old(dns.notified) && dns.cacheRecords == old(dns.cacheRecords)
    {
      ReceiveMeaning(View(), m);
      var dup := state.IsDuplicate(m);
      if dup {
        return false;
      }
      var ok, reason := ShouldApplySnapshot(cfg, state, m);
      if !ok {
        state.CommitPeerSeq(m);
        return false;
      }
      var stored := dns.ApplyClusterRecords(m.records, saved);
      if !stored {
        return false;
      }
      state.CommitPeerSeq(m);
      if cfg.policy == GlobalLww {
        state.CommitGlobalLWW(if m.ts <= 0 then 1 else m.ts, m.nodeId);
      }
      return true;
    }

    /** pushToAllPeers: takes the next number and sends the current records, one packet a peer: the cluster's
        RunPush. */
    method PushToAllPeers(now: int, ghost w: World, ghost at: string) returns (sent: seq<Packet>)
      requires Represents(w, at) && pushes > 0
      modifies this`pushes, state
      ensures View() == Numbered(old(View())) && Represents(Step(w, RunPush(at, now)), at)
      ensures sent == PacketsTo(cfg.peers, Current(View(), now))
      ensures |sent| == |cfg.peers| && forall i :: 0 <= i < |sent| ==>
                sent[i] == Packet(cfg.peers[i], Snapshot(state.nodeId, state.localSeq, now, dns.dnsRecords))
      ensures state.localSeq == old(state.localSeq) + 1 || old(state.localSeq) + 1 >= 0x1_0000_0000_0000_0000
      ensures Step(w, RunPush(at, now)).wire == w.wire + multiset(sent)
    {
      pushes := pushes - 1;
      var n := state.NextLocalSeq();
      var payload := Snapshot(state.nodeId, n, now, dns.dnsRecords);
      sent := [];
      for i := 0 to |cfg.peers|
        invariant sent == PacketsTo(cfg.peers, payload)[..i]
      {
        sent := sent + [Packet(cfg.peers[i], payload)];
      }
    }

    /** PushRecordsToPeer: a push to one peer on request, the cluster's ManualPush. A blank address is refused only
        after the number has been taken. */
    method PushRecordsToPeer(peer: string, now: int, ghost w: World, ghost at: string)
      returns (sent: seq<Packet>, ok: bool)
      requires Represents(w, at)
      modifies state
      ensures Represents(Step(w, ManualPush(at, peer, now)), at)
      ensures Step(w, ManualPush(at, peer, now)).wire == w.wire + multiset(sent)
      ensures ok <==> cfg.enabled && !cfg.replicaOnly && cfg.hasToken && TrimSpace(peer) != ""
      ensures sent == if ok then [Packet(TrimSpace(peer), Snapshot(state.nodeId, state.localSeq, now, dns.dnsRecords))]
                      else []
    {
      sent, ok := [], false;
      if !cfg.enabled || cfg.replicaOnly || !cfg.hasToken {
        return;
      }
      var n := state.NextLocalSeq();
      var p := TrimSpace(peer);
      if p == "" {
        return;
      }
      return [Packet(p, Snapshot(state.nodeId, n, now, dns.dnsRecords))], true;
    }

    /** sendCurrentSnapshot: answers a pull with the current number, taking none. */
    method SendCurrentSnapshot(now: int) returns (m: Snapshot)
      requires Valid()
      ensures m == Current(View(), now)
      ensures m.nodeId == state.nodeId && m.seqNo == state.localSeq && m.ts == now && m.records == dns.dnsRecords
    {
      m := Snapshot(state.nodeId, state.localSeq, now, dns.dnsRecords);
    }
  }
}
