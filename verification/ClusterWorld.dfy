/** Runs of a whole cluster: local writes, pushes, deliveries, losses and pulls in any order
    (cluster/cluster.go and the notify path of data/data.go), one step at a time. */
module ClusterWorld {
  import opened Text
  import opened Records
  import opened ClusterState
  import opened ClusterNode
  import opened Convergence
  import opened PerSender

  datatype Packet = Packet(dest: string, body: Snapshot)

  /** Nodes by address, push jobs started by NotifyLocalRecordsChanged, and snapshots under way. */
  datatype World = World(nodes: map<string, Node>, jobs: multiset<string>, wire: multiset<Packet>)

  datatype Event =
    | LocalWrite(at: string, records: seq<DNSRecord>, saved: bool)
    | ManualPush(at: string, peer: string, now: int)
    | RunPush(at: string, now: int)
    | Deliver(p: Packet)
    | Lose(p: Packet)
    | Pull(at: string, from: string, now: int)

  predicate Notifies(cfg: SyncConfig) {
    cfg.enabled && cfg.peers != [] && !cfg.replicaOnly && !cfg.readOnly && cfg.hasToken
  }

  function Numbered(n: Node): Node {
    n.(sync := n.sync.(localSeq := NextSeq(n.sync.localSeq)))
  }

  /** A full snapshot stamped with the node's current number: what sendCurrentSnapshot answers, and what a push
      sends right after taking the next number. */
  function Current(n: Node, now: int): Snapshot {
    Snapshot(n.sync.nodeId, n.sync.localSeq, now, n.records)
  }

  function PacketsTo(peers: seq<string>, m: Snapshot): seq<Packet> {
    seq(|peers|, i requires 0 <= i < |peers| => Packet(peers[i], m))
  }

  predicate PushEnabled(w: World, e: Event) {
    match e
    case RunPush(at, _) => at in w.jobs && at in w.nodes
    case ManualPush(at, peer, _) =>
      at in w.nodes && w.nodes[at].cfg.enabled && !w.nodes[at].cfg.replicaOnly && w.nodes[at].cfg.hasToken
    case _ => false
  }

  /** The snapshot node `at` handles in this step, if any. */
  function Handled(w: World, e: Event, at: string): seq<Snapshot> {
    match e
    case Deliver(p) => if p in w.wire && p.dest == at then [p.body] else []
    case Pull(dst, from, now) =>
      if dst == at && at in w.nodes && from in w.nodes && w.nodes[at].cfg.enabled && w.nodes[at].cfg.hasToken
      then [Current(w.nodes[from], now)] else []
    case _ => []
  }

  /** UpdateRecords accepts a local write. */
  predicate Writable(w: World, e: Event) {
    e.LocalWrite? && e.at in w.nodes && !w.nodes[e.at].cfg.rejectLocal && !w.nodes[e.at].cfg.readOnly
  }

  /** What an enabled push event sends. */
  function Sent(w: World, e: Event): seq<Snapshot> {
    if PushEnabled(w, e) then [Current(Numbered(w.nodes[e.at]), e.now)] else []
  }

  function NodeAfter(w: World, e: Event, at: string): Node
    requires at in w.nodes
  {
    var n, got := w.nodes[at], Handled(w, e, at);
    if got != [] then Receive(n, got[0])
    else if PushEnabled(w, e) && e.at == at then Numbered(n)
    else if Writable(w, e) && e.at == at then n.(records := e.records)
    else n
  }

  function JobsAfter(w: World, e: Event): multiset<string> {
    if Writable(w, e) && e.saved && Notifies(w.nodes[e.at].cfg) then w.jobs + multiset{e.at}
    else if e.RunPush? && PushEnabled(w, e) then w.jobs - multiset{e.at}
    else w.jobs
  }

  function WireAfter(w: World, e: Event): multiset<Packet> {
    match e
    case RunPush(at, _) =>
      if Sent(w, e) == [] then w.wire
      else w.wire + multiset(PacketsTo(w.nodes[at].cfg.peers, Sent(w, e)[0]))
    case ManualPush(_, peer, _) =>
      if Sent(w, e) == [] || TrimSpace(peer) == "" then w.wire
      else w.wire + multiset{Packet(TrimSpace(peer), Sent(w, e)[0])}
    case Deliver(p) => w.wire - multiset{p}
    case Lose(p) => w.wire - multiset{p}
    case _ => w.wire
  }

  function Step(w: World, e: Event): World {
    World(map at | at in w.nodes :: NodeAfter(w, e, at), JobsAfter(w, e), WireAfter(w, e))
  }

  function Run(w: World, es: seq<Event>): World {
    if es == [] then w else Step(Run(w, es[..|es| - 1]), es[|es| - 1])
  }

  // ---- No echo and quiescence ----

  /** Handling a peer's snapshot, by delivery or by pull, starts no push and puts nothing on the wire. */
  lemma {:induction false} NoEcho(w: World, e: Event)
    requires e.Deliver? || e.Lose? || e.Pull?
    ensures Step(w, e).jobs == w.jobs && Step(w, e).wire <= w.wire
    ensures !e.Pull? && e.p in w.wire ==> |Step(w, e).wire| == |w.wire| - 1
  {
  }

  /** The steps left once local writes, manual pushes and pulls have stopped. */
  predicate Draining(w: World, e: Event) {
    (e.RunPush? && PushEnabled(w, e)) || ((e.Deliver? || e.Lose?) && e.p in w.wire)
  }

  ghost predicate AllDraining(w: World, es: seq<Event>) {
    forall i :: 0 <= i < |es| ==> Draining(Run(w, es[..i]), es[i])
  }

  ghost predicate PeersAtMost(w: World, width: nat) {
    forall a <- w.nodes :: |w.nodes[a].cfg.peers| <= width
  }

  function Work(w: World, width: nat): nat {
    |w.wire| + |w.jobs| * (width + 1)
  }

  lemma OneMore(a: nat, b: nat)
    ensures (a + 1) * b == a * b + b
  {
  }

  lemma {:induction false} DrainPush(w: World, at: string, now: int, width: nat)
    requires PeersAtMost(w, width) && at in w.jobs && at in w.nodes
    ensures PeersAtMost(Step(w, RunPush(at, now)), width)
    ensures Work(Step(w, RunPush(at, now)), width) < Work(w, width)
  {
    var w' := Step(w, RunPush(at, now));
    assert |w'.wire| == |w.wire| + |w.nodes[at].cfg.peers|;
    assert |w.jobs| == |w'.jobs| + 1;
    OneMore(|w'.jobs|, width + 1);
  }

  lemma {:induction false} DrainStep(w: World, e: Event, width: nat)
    requires PeersAtMost(w, width) && Draining(w, e)
    ensures PeersAtMost(Step(w, e), width)
    ensures Work(Step(w, e), width) < Work(w, width)
    ensures Step(w, e).jobs <= w.jobs
    ensures !e.RunPush? ==> |Step(w, e).wire| == |w.wire| - 1
  {
    if e.RunPush? {
      DrainPush(w, e.at, e.now, width);
    } else {
      NoEcho(w, e);
      PeersKept(w, e, width);
    }
  }

  lemma {:induction false} PeersKept(w: World, e: Event, width: nat)
    requires PeersAtMost(w, width)
    ensures PeersAtMost(Step(w, e), width)
  {
    forall a | a in w.nodes ensures Step(w, e).nodes[a].cfg == w.nodes[a].cfg {
      StepKeepsConfig(w, e, a);
    }
  }

  lemma {:induction false} StepKeepsConfig(w: World, e: Event, at: string)
    requires at in w.nodes
    ensures NodeAfter(w, e, at).cfg == w.nodes[at].cfg
  {
    if Handled(w, e, at) != [] {
      ReceiveStep(w.nodes[at], Handled(w, e, at)[0]);
    }
  }

  /** A draining cluster takes at most Work(w) further steps; every step uses up some of it. */
  lemma {:induction false} Quiesces(w: World, es: seq<Event>, width: nat)
    requires PeersAtMost(w, width) && AllDraining(w, es)
    ensures PeersAtMost(Run(w, es), width) && Run(w, es).jobs <= w.jobs
    ensures |es| + Work(Run(w, es), width) <= Work(w, width)
    ensures w.jobs == multiset{} ==> |Run(w, es).wire| == |w.wire| - |es|
  {
    if es != [] {
      var head, last := es[..|es| - 1], es[|es| - 1];
      assert forall i :: 0 <= i <= |head| ==> es[..i] == head[..i];
      assert head[..|head|] == head;
      Quiesces(w, head, width);
      DrainStep(Run(w, head), last, width);
    }
  }

  /** It can only stop when it is silent. */
  lemma StopsOnlyWhenSilent(w: World)
    requires forall a <- w.jobs :: a in w.nodes
    ensures (forall e :: !Draining(w, e)) <==> w.jobs == multiset{} && w.wire == multiset{}
  {
    if w.wire != multiset{} {
      var p :| p in w.wire;
      assert Draining(w, Deliver(p));
    }
    if w.jobs != multiset{} {
      var a :| a in w.jobs;
      assert Draining(w, RunPush(a, 0));
    }
  }

  // ---- Stamps and ownership over whole runs ----

  ghost predicate NoWritesAt(es: seq<Event>, at: string) {
    forall e <- es :: !(e.LocalWrite? && e.at == at)
  }

  function Unnumbered(n: Node): Node {
    n.(sync := n.sync.(localSeq := 0))
  }

  /** A step in which `at` handles nothing leaves its sync state alone but for the local number. */
  lemma {:induction false} StepUnhandled(w: World, e: Event, at: string)
    requires at in w.nodes && Handled(w, e, at) == []
    ensures Step(w, e).nodes[at].sync == w.nodes[at].sync.(localSeq := Step(w, e).nodes[at].sync.localSeq)
    ensures !(e.LocalWrite? && e.at == at) ==> Unnumbered(Step(w, e).nodes[at]) == Unnumbered(w.nodes[at])
  {
  }

  /** In every run of a global_lww node the stamp strictly grows at each apply and is otherwise unchanged;
      sequence entries never shrink. */
  lemma {:induction false} StampMovesOnlyForward(w: World, e: Event, at: string)
    requires at in w.nodes && w.nodes[at].cfg.policy == GlobalLww
    ensures var n, n' := w.nodes[at], Step(w, e).nodes[at];
            && at in Step(w, e).nodes
            && (forall p :: PeerSeq(n.sync, p) <= PeerSeq(n'.sync, p))
            && (if Handled(w, e, at) != [] && Applies(n, Handled(w, e, at)[0])
                then Before(n.sync.lww, n'.sync.lww) && n'.sync.lww == StampOf(Handled(w, e, at)[0])
                else n'.sync.lww == n.sync.lww)
  {
    if Handled(w, e, at) != [] {
      ReceiveStep(w.nodes[at], Handled(w, e, at)[0]);
    } else {
      StepUnhandled(w, e, at);
    }
  }

  lemma {:induction false} RunKeepsConfig(w: World, es: seq<Event>, at: string)
    requires at in w.nodes
    ensures at in Run(w, es).nodes && Run(w, es).nodes[at].cfg == w.nodes[at].cfg
  {
    if es != [] {
      RunKeepsConfig(w, es[..|es| - 1], at);
      StepKeepsConfig(Run(w, es[..|es| - 1]), es[|es| - 1], at);
    }
  }

  /** So over a whole run it never falls, cut where one likes. */
  lemma {:induction false} StampNeverFallsInRun(w: World, es: seq<Event>, cut: nat, at: string)
    requires at in w.nodes && w.nodes[at].cfg.policy == GlobalLww && cut <= |es|
    ensures at in Run(w, es).nodes && at in Run(w, es[..cut]).nodes
    ensures !Before(Run(w, es).nodes[at].sync.lww, Run(w, es[..cut]).nodes[at].sync.lww)
  {
    RunKeepsConfig(w, es[..cut], at);
    var earlier := Run(w, es[..cut]).nodes[at].sync.lww;
    if cut == |es| {
      assert es[..cut] == es;
      BeforeTotal(earlier, earlier);
    } else {
      var head, last := es[..|es| - 1], es[|es| - 1];
      assert head[..cut] == es[..cut];
      StampNeverFallsInRun(w, head, cut, at);
      RunKeepsConfig(w, head, at);
      NoFall(Run(w, head), last, at, earlier);
    }
  }

  lemma {:induction false} NoFall(w: World, e: Event, at: string, earlier: Stamp)
    requires at in w.nodes && w.nodes[at].cfg.policy == GlobalLww && !Before(w.nodes[at].sync.lww, earlier)
    ensures !Before(Step(w, e).nodes[at].sync.lww, earlier)
  {
    StampMovesOnlyForward(w, e, at);
    var was, now := w.nodes[at].sync.lww, Step(w, e).nodes[at].sync.lww;
    if Before(was, now) && Before(now, earlier) {
      BeforeTransitive(was, now, earlier);
    }
  }

  /** The snapshots node `at` handled during the run, oldest first. */
  function HandledLog(w: World, es: seq<Event>, at: string): seq<Snapshot> {
    if es == [] then []
    else
      var head := es[..|es| - 1];
      HandledLog(w, head, at) + Handled(Run(w, head), es[|es| - 1], at)
  }

  lemma {:induction false} ReceiveIgnoresNumber(n: Node, m: Snapshot)
    ensures Receive(Unnumbered(n), m) == Unnumbered(Receive(n, m))
  {
    var u := Unnumbered(n);
    assert PeerSeq(u.sync, m.nodeId) == PeerSeq(n.sync, m.nodeId) && u.sync.lww == n.sync.lww;
    assert Duplicate(u.sync, m) == Duplicate(n.sync, m)
      && ShouldApply(u.cfg, u.sync, m) == ShouldApply(n.cfg, n.sync, m);
  }

  /** A node without local writes is exactly what its handled snapshots make of it, whatever else the cluster does. */
  lemma {:induction false} NodeIsItsLog(w: World, es: seq<Event>, at: string)
    requires at in w.nodes && NoWritesAt(es, at)
    ensures at in Run(w, es).nodes
    ensures Unnumbered(Run(w, es).nodes[at]) == ReceiveAll(Unnumbered(w.nodes[at]), HandledLog(w, es, at))
  {
    if es != [] {
      var head, last := es[..|es| - 1], es[|es| - 1];
      NodeIsItsLog(w, head, at);
      assert last in es;
      LogStep(Run(w, head), last, at, Unnumbered(w.nodes[at]), HandledLog(w, head, at));
    }
  }

  lemma {:induction false} LogStep(w: World, e: Event, at: string, start: Node, log: seq<Snapshot>)
    requires at in w.nodes && !(e.LocalWrite? && e.at == at) && Unnumbered(w.nodes[at]) == ReceiveAll(start, log)
    ensures Unnumbered(Step(w, e).nodes[at]) == ReceiveAll(start, log + Handled(w, e, at))
  {
    var got := Handled(w, e, at);
    if got == [] {
      StepUnhandled(w, e, at);
      assert log + got == log;
    } else {
      ReceiveIgnoresNumber(w.nodes[at], got[0]);
      assert got == [got[0]] && (log + got)[..|log + got| - 1] == log;
    }
  }

  /** Under global_lww stamp and records are both those at the start, or both those of one handled snapshot, through
      push and pull alike: the next apply after any local write makes them belong together. */
  lemma RecordsBelongToStamp(w: World, es: seq<Event>, at: string)
    requires at in w.nodes && w.nodes[at].cfg.policy == GlobalLww && NoWritesAt(es, at)
    ensures at in Run(w, es).nodes
    ensures var n, n0 := Run(w, es).nodes[at], w.nodes[at];
            (n.sync.lww == n0.sync.lww && n.records == n0.records) || Owned(HandledLog(w, es, at), n)
  {
    NodeIsItsLog(w, es, at);
    var start, log := Unnumbered(w.nodes[at]), HandledLog(w, es, at);
    OwnedAll(start, log);
    var n, u := Run(w, es).nodes[at], ReceiveAll(start, log);
    assert n.records == u.records && n.sync.lww == u.sync.lww;
  }

  // ---- Agreement, whatever the network did ----

  /** In any run, with any pulls and any clocks, two fresh global_lww replicas without local writes that handled the
      same snapshots agree if the top stamp of what they handled survives. */
  lemma HandledAlikeAgree(w: World, es: seq<Event>, a: string, b: string)
    requires a in w.nodes && b in w.nodes && NoWritesAt(es, a) && NoWritesAt(es, b)
    requires FreshReplica(w.nodes[a]) && FreshReplica(w.nodes[b])
    requires SameMembers(HandledLog(w, es, b), HandledLog(w, es, a)) && TopSurvives(HandledLog(w, es, a))
    ensures a in Run(w, es).nodes && b in Run(w, es).nodes
    ensures Agree(Run(w, es).nodes[a], Run(w, es).nodes[b])
  {
    var la, lb := HandledLog(w, es, a), HandledLog(w, es, b);
    NodeIsItsLog(w, es, a);
    NodeIsItsLog(w, es, b);
    var t :| Unshadowed(la, t);
    assert t in la && t.nodeId != "";
    ConvergesIff(Unnumbered(w.nodes[a]), Unnumbered(w.nodes[b]), la);
    assert Agree(ReceiveAll(Unnumbered(w.nodes[a]), la), ReceiveAll(Unnumbered(w.nodes[b]), lb));
    AgreeUnnumbered(Run(w, es).nodes[a], Run(w, es).nodes[b]);
  }

  lemma AgreeUnnumbered(a: Node, b: Node)
    ensures Agree(Unnumbered(a), Unnumbered(b)) <==> Agree(a, b)
  {
  }

  /** Likewise under the policies that do not order senders, if the last snapshots they handled agree. */
  lemma HandledAlikeAgreePerSender(w: World, es: seq<Event>, a: string, b: string)
    requires a in w.nodes && b in w.nodes && NoWritesAt(es, a) && NoWritesAt(es, b)
    requires PerSenderReplica(w.nodes[a]) && PerSenderReplica(w.nodes[b])
    requires w.nodes[a].cfg.policy == w.nodes[b].cfg.policy
    requires w.nodes[a].cfg.allowedWriters == w.nodes[b].cfg.allowedWriters
    requires SameMembers(HandledLog(w, es, b), HandledLog(w, es, a))
    requires SameOutcome(w.nodes[a], w.nodes[b], HandledLog(w, es, a))
    ensures a in Run(w, es).nodes && b in Run(w, es).nodes
    ensures Agree(Run(w, es).nodes[a], Run(w, es).nodes[b])
  {
    var la, lb := HandledLog(w, es, a), HandledLog(w, es, b);
    NodeIsItsLog(w, es, a);
    NodeIsItsLog(w, es, b);
    LastsDecide(Unnumbered(w.nodes[a]), Unnumbered(w.nodes[b]), la, la, lb);
    AgreeUnnumbered(Run(w, es).nodes[a], Run(w, es).nodes[b]);
  }

  // ---- From the senders' numbers and clocks to agreement ----

  /** The snapshots pushed during the run, oldest first. */
  function PushLog(w: World, es: seq<Event>): seq<Snapshot> {
    if es == [] then []
    else
      var head := es[..|es| - 1];
      PushLog(w, head) + Sent(Run(w, head), es[|es| - 1])
  }

  predicate ProperId(id: string) {
    id != "" && TrimSpace(id) == id
  }

  ghost predicate DistinctIds(w: World) {
    && (forall a <- w.nodes :: ProperId(w.nodes[a].sync.nodeId))
    && (forall a <- w.nodes, b <- w.nodes :: w.nodes[a].sync.nodeId == w.nodes[b].sync.nodeId ==> a == b)
  }

  ghost predicate RoomFor(w: World, steps: nat) {
    forall a <- w.nodes :: w.nodes[a].sync.localSeq + steps < SEQ_LIMIT
  }

  /** Nothing logged for this sender is as recent as the push event's second. */
  ghost predicate LaterSecond(w: World, log: seq<Snapshot>, e: Event) {
    PushEnabled(w, e) ==> forall s <- log :: s.nodeId == w.nodes[e.at].sync.nodeId ==> NormTs(s.ts) < NormTs(e.now)
  }

  /** Each push happens in a later second than the same node's earlier pushes. */
  ghost predicate ClocksMove(w: World, es: seq<Event>) {
    forall i :: 0 <= i < |es| ==> LaterSecond(Run(w, es[..i]), PushLog(w, es[..i]), es[i])
  }

  /** Some node sent `s`, and has not numbered anything past its own counter. */
  ghost predicate SentBy(w: World, s: Snapshot) {
    exists a <- w.nodes :: w.nodes[a].sync.nodeId == s.nodeId && 0 < s.seqNo <= w.nodes[a].sync.localSeq
  }

  /** Everything pushed has a sender and a number of its own. */
  ghost predicate LogSound(w: World, log: seq<Snapshot>) {
    DistinctIds(w) && OnePerNumber(log) && forall s <- log :: SentBy(w, s)
  }

  /** Ids never change, and only a push takes a number. */
  lemma {:induction false} StepNumbers(w: World, e: Event, at: string)
    requires at in w.nodes
    ensures Step(w, e).nodes[at].sync.nodeId == w.nodes[at].sync.nodeId
    ensures Step(w, e).nodes[at].sync.localSeq ==
            (if PushEnabled(w, e) && e.at == at then NextSeq(w.nodes[at].sync.localSeq) else w.nodes[at].sync.localSeq)
  {
    if Handled(w, e, at) != [] {
      ReceiveStep(w.nodes[at], Handled(w, e, at)[0]);
    }
  }

  /** A newly numbered snapshot keeps numbers distinct, and in a later second keeps the log in clock order. */
  lemma ClockOrderedAppend(log: seq<Snapshot>, m: Snapshot)
    requires OnePerNumber(log) && TrimSpace(m.nodeId) == m.nodeId && m.seqNo > 0
    requires forall s <- log :: s.seqNo > 0 && (s.nodeId == m.nodeId ==> s.seqNo < m.seqNo)
    ensures OnePerNumber(log + [m])
    ensures ClockOrdered(log) && (forall s <- log :: s.nodeId == m.nodeId ==> NormTs(s.ts) < NormTs(m.ts)) ==>
              ClockOrdered(log + [m])
  {
    assert forall s :: s in log + [m] <==> s in log || s == m;
  }

  lemma WireStep(w: World, e: Event, log: seq<Snapshot>)
    requires forall p <- w.wire :: p.body in log
    ensures forall p <- Step(w, e).wire :: p.body in log + Sent(w, e)
  {
    if e.RunPush? && PushEnabled(w, e) {
      var n := Numbered(w.nodes[e.at]);
      assert forall p <- PacketsTo(n.cfg.peers, Current(n, e.now)) :: p.body == Current(n, e.now);
    }
  }

  lemma {:induction false} SentByStep(w: World, e: Event, s: Snapshot)
    requires SentBy(w, s) && RoomFor(w, 1)
    ensures SentBy(Step(w, e), s)
  {
    var a :| a in w.nodes && w.nodes[a].sync.nodeId == s.nodeId && 0 < s.seqNo <= w.nodes[a].sync.localSeq;
    StepNumbers(w, e, a);
  }

  lemma {:induction false} DistinctIdsStep(w: World, e: Event)
    requires DistinctIds(w)
    ensures DistinctIds(Step(w, e))
  {
    forall a | a in w.nodes ensures Step(w, e).nodes[a].sync.nodeId == w.nodes[a].sync.nodeId {
      StepNumbers(w, e, a);
    }
  }

  /** A new push is numbered after everything its sender has pushed so far. */
  lemma {:induction false} PushExtendsLog(w: World, e: Event, log: seq<Snapshot>)
    requires LogSound(w, log) && RoomFor(w, 1) && PushEnabled(w, e)
    ensures OnePerNumber(log + Sent(w, e)) && SentBy(Step(w, e), Sent(w, e)[0])
    ensures ClockOrdered(log) && LaterSecond(w, log, e) ==> ClockOrdered(log + Sent(w, e))
  {
    var m := Sent(w, e)[0];
    StepNumbers(w, e, e.at);
    forall s | s in log ensures s.seqNo > 0 && (s.nodeId == m.nodeId ==> s.seqNo < m.seqNo) {
      var a :| a in w.nodes && w.nodes[a].sync.nodeId == s.nodeId && 0 < s.seqNo <= w.nodes[a].sync.localSeq;
    }
    ClockOrderedAppend(log, m);
  }

  lemma {:induction false} LogSoundStep(w: World, e: Event, log: seq<Snapshot>)
    requires LogSound(w, log) && RoomFor(w, 1)
    ensures LogSound(Step(w, e), log + Sent(w, e))
    ensures ClockOrdered(log) && LaterSecond(w, log, e) ==> ClockOrdered(log + Sent(w, e))
  {
    DistinctIdsStep(w, e);
    forall s | s in log ensures SentBy(Step(w, e), s) {
      SentByStep(w, e, s);
    }
    if PushEnabled(w, e) {
      PushExtendsLog(w, e, log);
    } else {
      assert log + Sent(w, e) == log;
    }
  }

  /** Along every run with room in the counters no number is used twice; with moving clocks, numbers follow clocks. */
  lemma {:induction false} LogStaysSound(w: World, es: seq<Event>, room: nat)
    requires DistinctIds(w) && RoomFor(w, |es| + room)
    ensures LogSound(Run(w, es), PushLog(w, es)) && RoomFor(Run(w, es), room)
    ensures ClocksMove(w, es) ==> ClockOrdered(PushLog(w, es))
  {
    if es != [] {
      var head, last := es[..|es| - 1], es[|es| - 1];
      assert forall i :: 0 <= i <= |head| ==> es[..i] == head[..i];
      LogStaysSound(w, head, room + 1);
      var mid := Run(w, head);
      LogSoundStep(mid, last, PushLog(w, head));
      forall a | a in Run(w, es).nodes ensures Run(w, es).nodes[a].sync.localSeq + room < SEQ_LIMIT {
        StepNumbers(mid, last, a);
      }
    }
  }

  lemma {:induction false} WireWasPushed(w: World, es: seq<Event>)
    requires w.wire == multiset{}
    ensures forall p <- Run(w, es).wire :: p.body in PushLog(w, es)
  {
    if es != [] {
      var head := es[..|es| - 1];
      WireWasPushed(w, head);
      WireStep(Run(w, head), es[|es| - 1], PushLog(w, head));
    }
  }

  ghost predicate NoPullsAt(es: seq<Event>, at: string) {
    forall e <- es :: e.Pull? ==> e.at != at
  }

  /** From an empty network, a node that does not pull handles only snapshots that were pushed. */
  lemma {:induction false} HandledWerePushed(w: World, es: seq<Event>, at: string)
    requires w.wire == multiset{} && NoPullsAt(es, at)
    ensures forall m <- HandledLog(w, es, at) :: m in PushLog(w, es)
  {
    if es != [] {
      var head, last := es[..|es| - 1], es[|es| - 1];
      HandledWerePushed(w, head, at);
      WireWasPushed(w, head);
      assert last in es;
      assert forall m <- Handled(Run(w, head), last, at) :: m in PushLog(w, head);
    }
  }

  /** Facts about pushed snapshots hold of any selection of them. */
  lemma PushedSubset(w: World, es: seq<Event>, log: seq<Snapshot>)
    requires DistinctIds(w) && RoomFor(w, |es|) && forall m <- log :: m in PushLog(w, es)
    ensures OnePerNumber(log) && (ClocksMove(w, es) ==> ClockOrdered(log))
    ensures forall m <- log :: m.nodeId != ""
  {
    LogStaysSound(w, es, 0);
    forall m | m in log ensures m.nodeId != "" {
      assert SentBy(Run(w, es), m);
    }
  }

  /** End to end: start with nothing in flight and distinct node ids, and let every push happen in a later second than
      the sender's previous one. Then any two fresh replicas without local writes or pulls of their own that have been
      handed the same pushed snapshots, in whatever orders and whatever else the cluster did, agree. */
  lemma ReplicasAgree(w: World, es: seq<Event>, a: string, b: string)
    requires DistinctIds(w) && w.wire == multiset{} && RoomFor(w, |es|) && ClocksMove(w, es)
    requires a in w.nodes && b in w.nodes && NoWritesAt(es, a) && NoWritesAt(es, b)
    requires NoPullsAt(es, a) && NoPullsAt(es, b)
    requires FreshReplica(w.nodes[a]) && FreshReplica(w.nodes[b])
    requires HandledLog(w, es, a) != [] && SameMembers(HandledLog(w, es, b), HandledLog(w, es, a))
    ensures a in Run(w, es).nodes && b in Run(w, es).nodes
    ensures Agree(Run(w, es).nodes[a], Run(w, es).nodes[b])
  {
    var la := HandledLog(w, es, a);
    HandledWerePushed(w, es, a);
    PushedSubset(w, es, la);
    assert la[0] in la;
    ClockOrderedSurvives(la);
    HandledAlikeAgree(w, es, a, b);
  }

  /** Under lww_per_node or primary_writer the same holds without any clocks, if all that the replicas were handed comes
      from one writer that they accept. */
  lemma OneWriterReplicasAgree(w: World, es: seq<Event>, a: string, b: string)
    requires DistinctIds(w) && w.wire == multiset{} && RoomFor(w, |es|)
    requires a in w.nodes && b in w.nodes && NoWritesAt(es, a) && NoWritesAt(es, b)
    requires NoPullsAt(es, a) && NoPullsAt(es, b)
    requires PerSenderReplica(w.nodes[a]) && PerSenderReplica(w.nodes[b])
    requires w.nodes[a].cfg.policy == w.nodes[b].cfg.policy
    requires w.nodes[a].cfg.allowedWriters == w.nodes[b].cfg.allowedWriters
    requires w.nodes[a].sync.lww == w.nodes[b].sync.lww
    requires OneSender(HandledLog(w, es, a)) && SomeAccepted(w.nodes[a].cfg, HandledLog(w, es, a))
    requires SameMembers(HandledLog(w, es, b), HandledLog(w, es, a))
    ensures a in Run(w, es).nodes && b in Run(w, es).nodes
    ensures Agree(Run(w, es).nodes[a], Run(w, es).nodes[b])
  {
    var la := HandledLog(w, es, a);
    HandledWerePushed(w, es, a);
    PushedSubset(w, es, la);
    SingleWriterSafe(w.nodes[a].cfg, la);
    HandledAlikeAgreePerSender(w, es, a, b);
  }
}
