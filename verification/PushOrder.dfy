/** Pushes of one node running at once. Each runs in a goroutine of its own and takes its number, reads the records and
    reads the clock one after the other (cluster/cluster.go:430-443), while local writes go on and time passes. */
module PushOrder {
  import opened Records
  import opened ClusterState
  import opened ClusterNode
  import opened Convergence
  import opened PerSender
  import opened ClusterWorld

  datatype Pc = Take | Read | Date | Sent

  /** A push, the snapshot it puts together, and how many local writes had been made when it read the records. */
  datatype Push = Push(pc: Pc, m: Snapshot, version: nat)

  datatype System = System(node: Node, now: int, version: nat, pushes: seq<Push>)

  datatype Move = Advance(k: nat) | WriteLocally(records: seq<DNSRecord>) | Tick

  function AdvancePush(s: System, k: nat): System
    requires k < |s.pushes|
  {
    var p := s.pushes[k];
    match p.pc
    case Take =>
      var node := Numbered(s.node);
      var m := p.m.(nodeId := node.sync.nodeId, seqNo := node.sync.localSeq);
      s.(node := node, pushes := s.pushes[k := p.(pc := Read, m := m)])
    case Read =>
      s.(pushes := s.pushes[k := p.(pc := Date, m := p.m.(records := s.node.records), version := s.version)])
    case Date => s.(pushes := s.pushes[k := p.(pc := Sent, m := p.m.(ts := s.now))])
    case Sent => s
  }

  function Next(s: System, move: Move): (s': System)
    ensures |s'.pushes| == |s.pushes|
  {
    match move
    case Advance(k) => if k < |s.pushes| then AdvancePush(s, k) else s
    case WriteLocally(records) => s.(node := s.node.(records := records), version := s.version + 1)
    case Tick => s.(now := s.now + 1)
  }

  function Play(s: System, moves: seq<Move>): (s': System)
    ensures |s'.pushes| == |s.pushes|
  {
    if moves == [] then s else Next(Play(s, moves[..|moves| - 1]), moves[|moves| - 1])
  }

  /** Pushes about to start, with room for their numbers. */
  predicate Starting(s: System) {
    s.node.sync.localSeq + |s.pushes| < SEQ_LIMIT && forall i :: 0 <= i < |s.pushes| ==> s.pushes[i].pc == Take
  }

  lemma PlayOne(s: System, moves: seq<Move>, move: Move)
    ensures Play(s, moves + [move]) == Next(Play(s, moves), move)
  {
    assert (moves + [move])[..|moves|] == moves;
  }

  /** A push left alone sends the node's next number with its current records and time: one RunPush of the cluster. */
  lemma AloneIsRunPush(s: System, k: nat)
    requires k < |s.pushes| && s.pushes[k].pc == Take
    ensures AdvancePush(AdvancePush(AdvancePush(s, k), k), k) ==
            s.(node := Numbered(s.node),
               pushes := s.pushes[k := Push(Sent, Current(Numbered(s.node), s.now), s.version)])
  {
    var s' := AdvancePush(AdvancePush(AdvancePush(s, k), k), k);
    assert s'.pushes == s.pushes[k := s'.pushes[k]];
  }

  // ---- Numbers, records and times ----

  /** `p` was sent under a smaller number than `q`. */
  predicate Precedes(p: Push, q: Push) {
    p.pc == Sent && q.pc == Sent && p.m.seqNo < q.m.seqNo
  }

  predicate NoNewer(p: Push, q: Push) {
    p.version <= q.version && p.m.ts <= q.m.ts
  }

  /** A larger number goes with records and a time that are no older. */
  ghost predicate InOrder(s: System) {
    forall p <- s.pushes, q <- s.pushes :: Precedes(p, q) ==> NoNewer(p, q)
  }

  ghost predicate AlwaysInOrder(s0: System) {
    forall moves :: InOrder(Play(s0, moves))
  }

  /** `i` has the newest records under a smaller number than `j`, and the later time. */
  predicate Misordered(s: System, i: nat, j: nat, current: seq<DNSRecord>, previous: seq<DNSRecord>) {
    && i < |s.pushes| && j < |s.pushes| && s.node.records == current
    && Precedes(s.pushes[i], s.pushes[j]) && s.pushes[i].m.seqNo > 0
    && s.pushes[i].m.nodeId == s.pushes[j].m.nodeId == s.node.sync.nodeId
    && s.pushes[i].m.records == current && s.pushes[j].m.records == previous
    && s.pushes[i].version > s.pushes[j].version && s.pushes[i].m.ts > s.pushes[j].m.ts
  }

  /** The first push takes its number, the second runs through, a local write is made and a second passes, and the first
      goes on. */
  lemma OverlapMisorders(s0: System, i: nat, j: nat, records: seq<DNSRecord>) returns (moves: seq<Move>)
    requires Starting(s0) && i < |s0.pushes| && j < |s0.pushes| && i != j
    ensures Misordered(Play(s0, moves), i, j, records, s0.node.records)
    ensures Play(s0, moves).node.sync.nodeId == s0.node.sync.nodeId
  {
    PlayOne(s0, [], Advance(i));
    moves := [] + [Advance(i)];
    moves := Pushing(s0, moves, j);
    var s := Play(s0, moves);
    PlayOne(s0, moves, WriteLocally(records));
    PlayOne(s0, moves + [WriteLocally(records)], Tick);
    moves := moves + [WriteLocally(records)] + [Tick];
    PlayOne(s0, moves, Advance(i));
    PlayOne(s0, moves + [Advance(i)], Advance(i));
    LateFinish(s, i, j, records);
    moves := moves + [Advance(i)] + [Advance(i)];
  }

  lemma LateFinish(s: System, i: nat, j: nat, records: seq<DNSRecord>)
    requires i < |s.pushes| && j < |s.pushes| && i != j && s.pushes[i].pc == Read && s.pushes[j].pc == Sent
    requires 0 < s.pushes[i].m.seqNo < s.pushes[j].m.seqNo
    requires s.pushes[j].version <= s.version && s.pushes[j].m.ts <= s.now
    requires s.pushes[i].m.nodeId == s.pushes[j].m.nodeId == s.node.sync.nodeId
    ensures Misordered(AdvancePush(AdvancePush(Next(Next(s, WriteLocally(records)), Tick), i), i), i, j, records,
                       s.pushes[j].m.records)
  {
  }

  /** Lets push `k` run from start to end. */
  lemma Pushing(s0: System, moves: seq<Move>, k: nat) returns (longer: seq<Move>)
    requires k < |s0.pushes| && Play(s0, moves).pushes[k].pc == Take
    ensures var s, s' := Play(s0, moves), Play(s0, longer);
            && s'.node == Numbered(s.node) && s'.now == s.now && s'.version == s.version
            && s'.pushes == s.pushes[k := Push(Sent, Current(Numbered(s.node), s.now), s.version)]
  {
    AloneIsRunPush(Play(s0, moves), k);
    var m1 := moves + [Advance(k)];
    PlayOne(s0, moves, Advance(k));
    var m2 := m1 + [Advance(k)];
    PlayOne(s0, m1, Advance(k));
    PlayOne(s0, m2, Advance(k));
    longer := m2 + [Advance(k)];
  }

  /** Whatever is interleaved, numbers follow records and times exactly when there are no two pushes. */
  lemma InOrderIff(s0: System)
    requires Starting(s0)
    ensures AlwaysInOrder(s0) <==> |s0.pushes| <= 1
  {
    if |s0.pushes| <= 1 {
      forall moves ensures InOrder(Play(s0, moves)) {
      }
    } else {
      var moves := OverlapMisorders(s0, 0, 1, []);
      var s := Play(s0, moves);
      assert s.pushes[0] in s.pushes && s.pushes[1] in s.pushes;
    }
  }

  /** And then the older records win: under lww_per_node a replica that is handed both, in any order, ends with what the
      writer had before its last write. */
  lemma NewestRecordsLost(s0: System, i: nat, j: nat, records: seq<DNSRecord>, replica: Node) returns (moves: seq<Move>)
    requires Starting(s0) && i < |s0.pushes| && j < |s0.pushes| && i != j && s0.node.sync.nodeId != ""
    requires PerSenderReplica(replica) && replica.cfg.policy == LwwPerNode
    ensures var s := Play(s0, moves);
            && s.node.records == records
            && forall order :: SameMembers(order, [s.pushes[i].m, s.pushes[j].m]) ==>
                 ReceiveAll(replica, order).records == Canonical(s0.node.records)
  {
    moves := OverlapMisorders(s0, i, j, records);
    var s := Play(s0, moves);
    var mi, mj := s.pushes[i].m, s.pushes[j].m;
    forall order | SameMembers(order, [mi, mj]) ensures ReceiveAll(replica, order).records == Canonical(mj.records) {
      LargerWins(replica, order, mi, mj);
    }
  }

  lemma LargerWins(replica: Node, order: seq<Snapshot>, small: Snapshot, large: Snapshot)
    requires PerSenderReplica(replica) && replica.cfg.policy == LwwPerNode && SameMembers(order, [small, large])
    requires small.nodeId == large.nodeId != "" && 0 < small.seqNo < large.seqNo
    ensures ReceiveAll(replica, order).records == Canonical(large.records)
  {
    assert large in order && Accepts(replica.cfg, large);
    TracedAll(replica, order);
    forall m | IsLast(replica.cfg, order, m) ensures m == large {
      assert m in [small, large];
    }
  }

  // ---- Pushes that do not overlap ----

  predicate Busy(p: Push) {
    p.pc == Read || p.pc == Date
  }

  /** No push takes a number while another one is under way. */
  predicate Alone(s: System, move: Move) {
    move.Advance? && move.k < |s.pushes| && s.pushes[move.k].pc == Take ==>
      forall i :: 0 <= i < |s.pushes| ==> !Busy(s.pushes[i])
  }

  ghost predicate NoOverlap(s0: System, moves: seq<Move>) {
    forall i :: 0 <= i < |moves| ==> Alone(Play(s0, moves[..i]), moves[i])
  }

  /** What a push has taken so far is no newer than the node. */
  predicate Fits(s: System, p: Push) {
    && (p.pc != Take ==> p.m.seqNo <= s.node.sync.localSeq)
    && (p.pc == Date || p.pc == Sent ==> p.version <= s.version)
    && (p.pc == Sent ==> p.m.ts <= s.now)
  }

  /** If `q` is under way then `p` has not started, or is done with a smaller number and records no newer than those `q`
      has read; if both are sent they are in order. */
  predicate Follows(p: Push, q: Push) {
    && (Precedes(p, q) ==> NoNewer(p, q))
    && (Busy(q) ==> p.pc == Take || (p.pc == Sent && p.m.seqNo < q.m.seqNo))
    && (q.pc == Date && p.pc == Sent ==> p.version <= q.version)
  }

  ghost predicate Tidy(s: System) {
    && (forall i :: 0 <= i < |s.pushes| ==> Fits(s, s.pushes[i]))
    && (forall i, j :: 0 <= i < |s.pushes| && 0 <= j < |s.pushes| && i != j ==> Follows(s.pushes[i], s.pushes[j]))
  }

  lemma TidyInOrder(s: System)
    requires Tidy(s)
    ensures InOrder(s)
  {
    forall p, q | p in s.pushes && q in s.pushes && Precedes(p, q) ensures NoNewer(p, q) {
      var i :| 0 <= i < |s.pushes| && s.pushes[i] == p;
      var j :| 0 <= j < |s.pushes| && s.pushes[j] == q;
      assert Follows(s.pushes[i], s.pushes[j]);
    }
  }

  /** How many pushes have not taken a number. */
  function Waiting(pushes: seq<Push>): nat {
    if pushes == [] then 0 else Waiting(pushes[1..]) + if pushes[0].pc == Take then 1 else 0
  }

  lemma {:induction false} WaitingStep(pushes: seq<Push>, k: nat, p: Push)
    requires k < |pushes|
    ensures Waiting(pushes[k := p]) ==
            Waiting(pushes) - (if pushes[k].pc == Take then 1 else 0) + if p.pc == Take then 1 else 0
  {
    if k == 0 {
      assert pushes[k := p][1..] == pushes[1..];
    } else {
      assert pushes[k := p][1..] == pushes[1..][k - 1 := p];
      WaitingStep(pushes[1..], k - 1, p);
    }
  }

  lemma {:induction false} WaitingAtMost(pushes: seq<Push>)
    ensures Waiting(pushes) <= |pushes|
  {
    if pushes != [] {
      WaitingAtMost(pushes[1..]);
    }
  }

  predicate Room(s: System) {
    s.node.sync.localSeq + Waiting(s.pushes) < SEQ_LIMIT
  }

  lemma RoomStep(s: System, move: Move)
    requires Room(s)
    ensures Room(Next(s, move))
  {
    if move.Advance? && move.k < |s.pushes| {
      WaitingStep(s.pushes, move.k, AdvancePush(s, move.k).pushes[move.k]);
    }
  }

  lemma RoomForTake(s: System, k: nat)
    requires Room(s) && k < |s.pushes| && s.pushes[k].pc == Take
    ensures s.node.sync.localSeq + 1 < SEQ_LIMIT
  {
    WaitingStep(s.pushes, k, s.pushes[k].(pc := Read));
  }

  /** What one step of push `k` does to it and to another push `p`. */
  lemma AdvanceFollows(s: System, k: nat, p: Push)
    requires k < |s.pushes| && Fits(s, s.pushes[k]) && Fits(s, p)
    requires Follows(p, s.pushes[k]) && Follows(s.pushes[k], p)
    requires s.pushes[k].pc == Take ==> !Busy(p) && s.node.sync.localSeq + 1 < SEQ_LIMIT
    ensures var s' := AdvancePush(s, k);
            Fits(s', s'.pushes[k]) && Fits(s', p) && Follows(p, s'.pushes[k]) && Follows(s'.pushes[k], p)
  {
  }

  lemma AdvanceFits(s: System, k: nat)
    requires k < |s.pushes| && Fits(s, s.pushes[k]) && (s.pushes[k].pc == Take ==> s.node.sync.localSeq + 1 < SEQ_LIMIT)
    ensures Fits(AdvancePush(s, k), AdvancePush(s, k).pushes[k])
  {
  }

  lemma TidyAdvance(s: System, k: nat)
    requires Tidy(s) && Room(s) && Alone(s, Advance(k)) && k < |s.pushes|
    ensures Tidy(AdvancePush(s, k))
  {
    var s' := AdvancePush(s, k);
    if s.pushes[k].pc == Take {
      RoomForTake(s, k);
    }
    AdvanceFits(s, k);
    forall i | 0 <= i < |s.pushes| && i != k
      ensures s'.pushes[i] == s.pushes[i] && Fits(s', s'.pushes[i])
      ensures Follows(s'.pushes[i], s'.pushes[k]) && Follows(s'.pushes[k], s'.pushes[i])
    {
      AdvanceFollows(s, k, s.pushes[i]);
    }
  }

  lemma TidyStep(s: System, move: Move)
    requires Tidy(s) && Room(s) && Alone(s, move)
    ensures Tidy(Next(s, move))
  {
    if move.Advance? && move.k < |s.pushes| {
      TidyAdvance(s, move.k);
    }
  }

  lemma {:induction false} TidyPlay(s0: System, moves: seq<Move>)
    requires Starting(s0) && NoOverlap(s0, moves)
    ensures Tidy(Play(s0, moves)) && Room(Play(s0, moves))
  {
    if moves == [] {
      WaitingAtMost(s0.pushes);
    } else {
      var head, last := moves[..|moves| - 1], moves[|moves| - 1];
      assert forall i :: 0 <= i <= |head| ==> head[..i] == moves[..i];
      TidyPlay(s0, head);
      TidyStep(Play(s0, head), last);
      RoomStep(Play(s0, head), last);
    }
  }

  /** Pushes that do not overlap are in order, whatever local writes fall in between. */
  lemma NoOverlapInOrder(s0: System, moves: seq<Move>)
    requires Starting(s0) && NoOverlap(s0, moves)
    ensures InOrder(Play(s0, moves))
  {
    TidyPlay(s0, moves);
    TidyInOrder(Play(s0, moves));
  }
}
