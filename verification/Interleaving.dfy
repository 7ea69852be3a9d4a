/** Several connection handlers and local writers of one node running at once. Duplicate check, policy check, store,
    flag read and commits are separate critical sections (cluster/cluster.go:648-673, data/data.go:639-668), so they can
    interleave. A schedule is a list of numbers, handlers first and writers after them; each entry lets that handler or
    writer take its next step. The store calls the notify callback only if it could save the records file. */
module Interleaving {
  import opened Records
  import opened ClusterState
  import opened ClusterNode

  /** Where a connection handler is. */
  datatype Pc = Check | Decide | Raise | Store | Notify | Lower | CommitApplied | CommitStamp | CommitRejected | Done

  /** Where a local writer (UpdateRecords) is. */
  datatype WriterPc = Write | Tell | Finished

  /** `skip` is clusterSkipNotify; `echoes` counts stores of peer records that called the notify callback, `lost`
      counts saved local writes that did not. */
  datatype Shared = Shared(sync: SyncState, records: seq<DNSRecord>, skip: bool, echoes: nat, lost: nat)

  /** `saves` holds the numbers of the handlers and writers whose save succeeds. */
  datatype System = System(cfg: SyncConfig, shared: Shared, msgs: seq<Snapshot>, pcs: seq<Pc>,
                           writes: seq<seq<DNSRecord>>, wpcs: seq<WriterPc>, saves: set<nat>)

  predicate Sized(s: System) {
    |s.pcs| == |s.msgs| && |s.wpcs| == |s.writes|
  }

  /** Where the policy check sends handler `k`. */
  function AfterDecision(s: System, k: nat): Pc
    requires k < |s.msgs|
  {
    if !ShouldApply(s.cfg, s.shared.sync, s.msgs[k]) then CommitRejected else if s.cfg.readOnly then Done else Raise
  }

  function HandlerStep(s: System, k: nat): System
    requires Sized(s) && k < |s.msgs|
  {
    var m, sh := s.msgs[k], s.shared;
    match s.pcs[k]
    case Check => s.(pcs := s.pcs[k := if Duplicate(sh.sync, m) then Done else Decide])
    case Decide => s.(pcs := s.pcs[k := AfterDecision(s, k)])
    case Raise => s.(shared := sh.(skip := true), pcs := s.pcs[k := Store])
    case Store => s.(shared := sh.(records := Canonical(m.records)), pcs := s.pcs[k := Notify])
    case Notify =>
      s.(shared := sh.(echoes := sh.echoes + if k in s.saves && !sh.skip then 1 else 0), pcs := s.pcs[k := Lower])
    case Lower => s.(shared := sh.(skip := false), pcs := s.pcs[k := CommitApplied])
    case CommitApplied =>
      s.(shared := sh.(sync := CommitSeq(sh.sync, m)),
         pcs := s.pcs[k := if s.cfg.policy == GlobalLww then CommitStamp else Done])
    case CommitStamp => s.(shared := sh.(sync := CommitLww(sh.sync, m)), pcs := s.pcs[k := Done])
    case CommitRejected => s.(shared := sh.(sync := CommitSeq(sh.sync, m)), pcs := s.pcs[k := Done])
    case Done => s
  }

  predicate WriterSaves(s: System, j: nat) {
    |s.msgs| + j in s.saves
  }

  function WriterStep(s: System, j: nat): System
    requires Sized(s) && j < |s.writes|
  {
    match s.wpcs[j]
    case Write =>
      if s.cfg.rejectLocal || s.cfg.readOnly then s.(wpcs := s.wpcs[j := Finished])
      else s.(shared := s.shared.(records := s.writes[j]), wpcs := s.wpcs[j := Tell])
    case Tell =>
      s.(shared := s.shared.(lost := s.shared.lost + if WriterSaves(s, j) && s.shared.skip then 1 else 0),
         wpcs := s.wpcs[j := Finished])
    case Finished => s
  }

  /** Everything but program counters and shared state stays. */
  predicate SameTasks(s: System, s': System) {
    Sized(s') && s'.cfg == s.cfg && s'.msgs == s.msgs && s'.writes == s.writes && s'.saves == s.saves
  }

  function Step(s: System, k: nat): (s': System)
    requires Sized(s)
    ensures SameTasks(s, s')
  {
    if k < |s.msgs| then HandlerStep(s, k)
    else if k - |s.msgs| < |s.writes| then WriterStep(s, k - |s.msgs|)
    else s
  }

  function Run(s: System, schedule: seq<nat>): (s': System)
    requires Sized(s)
    ensures SameTasks(s, s')
  {
    if schedule == [] then s else Step(Run(s, schedule[..|schedule| - 1]), schedule[|schedule| - 1])
  }

  lemma RunThen(s: System, schedule: seq<nat>, k: nat)
    requires Sized(s)
    ensures Run(s, schedule + [k]) == Step(Run(s, schedule), k)
  {
    assert (schedule + [k])[..|schedule|] == schedule;
  }

  /** Handlers and writers about to start on a writable node with the flag down. */
  predicate Initial(s: System) {
    && Sized(s) && (forall i :: 0 <= i < |s.pcs| ==> s.pcs[i] == Check)
    && (forall j :: 0 <= j < |s.wpcs| ==> s.wpcs[j] == Write)
    && !s.cfg.readOnly && !s.shared.skip && s.shared.echoes == 0 && s.shared.lost == 0
  }

  /** Handler `i` would apply its snapshot if it ran now. */
  predicate Live(s: System, i: nat) {
    i < |s.msgs| && !Duplicate(s.shared.sync, s.msgs[i]) && ShouldApply(s.cfg, s.shared.sync, s.msgs[i])
  }

  predicate InApply(pc: Pc) {
    pc in {Raise, Store, Notify, Lower, CommitApplied, CommitStamp}
  }

  // ---- Every interleaving ----

  /** No step of any handler lowers a peer's sequence entry. */
  lemma StepSeqs(s: System, k: nat, p: string)
    requires Sized(s)
    ensures PeerSeq(s.shared.sync, p) <= PeerSeq(Step(s, k).shared.sync, p)
  {
  }

  /** The stamp moves only when a handler commits its own. */
  lemma StampMoves(s: System, k: nat)
    requires Sized(s)
    ensures Step(s, k).shared.sync.lww ==
            if k < |s.msgs| && s.pcs[k] == CommitStamp then StampOf(s.msgs[k]) else s.shared.sync.lww
  {
  }

  /** Nor does any schedule, cut where one likes. */
  lemma {:induction false} SeqsNeverShrink(s: System, schedule: seq<nat>, cut: nat, p: string)
    requires Sized(s) && cut <= |schedule|
    ensures PeerSeq(Run(s, schedule[..cut]).shared.sync, p) <= PeerSeq(Run(s, schedule).shared.sync, p)
  {
    if cut == |schedule| {
      assert schedule[..cut] == schedule;
    } else {
      var head := schedule[..|schedule| - 1];
      assert head[..cut] == schedule[..cut];
      SeqsNeverShrink(s, head, cut, p);
      StepSeqs(Run(s, head), schedule[|schedule| - 1], p);
    }
  }

  /** Only handlers that were live at the start ever store anything, and the stamp is the initial one or a live
      one's. */
  ghost predicate Sound(s0: System, s: System) {
    && Sized(s0) && SameTasks(s0, s)
    && (forall p :: PeerSeq(s0.shared.sync, p) <= PeerSeq(s.shared.sync, p))
    && (forall i :: 0 <= i < |s.pcs| && InApply(s.pcs[i]) ==> Live(s0, i))
    && (forall i :: 0 <= i < |s.pcs| && s.pcs[i] == CommitStamp ==> s.cfg.policy == GlobalLww)
    && (forall i :: 0 <= i < |s.pcs| && s.pcs[i] == Decide ==> !Duplicate(s0.shared.sync, s.msgs[i]))
    && (s.shared.sync.lww == s0.shared.sync.lww || LiveStamp(s0, s.shared.sync.lww))
  }

  ghost predicate LiveStamp(s0: System, t: Stamp) {
    s0.cfg.policy == GlobalLww && exists i: nat :: Live(s0, i) && StampOf(s0.msgs[i]) == t
  }

  /** A snapshot accepted by a later state would have been accepted by the initial one. */
  lemma AcceptedLaterIsLive(s0: System, s: System, i: nat)
    requires Sound(s0, s) && i < |s.msgs| && !Duplicate(s0.shared.sync, s.msgs[i])
    requires ShouldApply(s.cfg, s.shared.sync, s.msgs[i])
    ensures Live(s0, i)
  {
    var now, start := s.shared.sync.lww, s0.shared.sync.lww;
    if s.cfg.policy == GlobalLww && now != start {
      BeforeTransitive(start, now, StampOf(s.msgs[i]));
    }
  }

  /** What one step of handler `k` can make of its own counter. */
  lemma MoveSound(s0: System, s: System, k: nat)
    requires Sound(s0, s) && k < |s.msgs|
    ensures var pc := HandlerStep(s, k).pcs[k];
            && (InApply(pc) ==> Live(s0, k)) && (pc == CommitStamp ==> s.cfg.policy == GlobalLww)
            && (pc == Decide ==> !Duplicate(s0.shared.sync, s.msgs[k]))
  {
    if s.pcs[k] == Decide && ShouldApply(s.cfg, s.shared.sync, s.msgs[k]) {
      AcceptedLaterIsLive(s0, s, k);
    }
  }

  lemma {:induction false} SoundStep(s0: System, s: System, k: nat)
    requires Sound(s0, s)
    ensures Sound(s0, Step(s, k))
  {
    var s' := Step(s, k);
    forall p ensures PeerSeq(s0.shared.sync, p) <= PeerSeq(s'.shared.sync, p) {
      StepSeqs(s, k, p);
    }
    StampMoves(s, k);
    if k < |s.msgs| {
      MoveSound(s0, s, k);
      assert forall i :: 0 <= i < |s.pcs| && i != k ==> s'.pcs[i] == s.pcs[i];
    }
  }

  lemma {:induction false} SoundRun(s0: System, schedule: seq<nat>)
    requires Initial(s0)
    ensures Sound(s0, Run(s0, schedule))
  {
    if schedule != [] {
      SoundRun(s0, schedule[..|schedule| - 1]);
      SoundStep(s0, Run(s0, schedule[..|schedule| - 1]), schedule[|schedule| - 1]);
    }
  }

  // ---- One handler at a time is the atomic step ----

  function Repeat(s: System, k: nat, times: nat): (s': System)
    requires Sized(s)
    ensures SameTasks(s, s')
    decreases times
  {
    if times == 0 then s else Repeat(Step(s, k), k, times - 1)
  }

  lemma TwoSteps(s: System, k: nat, times: nat)
    requires Sized(s) && times >= 2
    ensures Repeat(s, k, times) == Repeat(Step(Step(s, k), k), k, times - 2)
  {
  }

  lemma {:induction false} DoneStays(s: System, k: nat, times: nat)
    requires Sized(s) && k < |s.msgs| && s.pcs[k] == Done
    ensures Repeat(s, k, times) == s
  {
    if times > 0 {
      DoneStays(s, k, times - 1);
    }
  }

  lemma {:induction false} RunRepeat(s: System, schedule: seq<nat>, k: nat, times: nat) returns (longer: seq<nat>)
    requires Sized(s)
    ensures Run(s, longer) == Repeat(Run(s, schedule), k, times)
    decreases times
  {
    if times == 0 {
      longer := schedule;
    } else {
      RunThen(s, schedule, k);
      longer := RunRepeat(s, schedule + [k], k, times - 1);
    }
  }

  /** A handler left alone for eight steps or more does exactly what Receive does, with no echo. */
  lemma AloneIsReceive(s: System, k: nat, times: nat)
    requires Sized(s) && k < |s.msgs| && s.pcs[k] == Check && !s.shared.skip && times >= 8
    ensures var n := Receive(Node(s.cfg, s.shared.sync, s.shared.records), s.msgs[k]);
            Repeat(s, k, times) ==
              s.(shared := s.shared.(sync := n.sync, records := n.records), pcs := s.pcs[k := Done])
  {
    var s2 := Step(Step(s, k), k);
    TwoSteps(s, k, times);
    assert s2.shared == s.shared;
    if Duplicate(s.shared.sync, s.msgs[k]) {
      DoneStays(s2, k, times - 2);
    } else {
      assert s2.pcs == s.pcs[k := AfterDecision(s, k)];
      FinishAlone(s2, k, times - 2);
    }
  }

  lemma {:induction false} FinishedStays(s: System, j: nat, times: nat)
    requires Sized(s) && j < |s.writes| && s.wpcs[j] == Finished
    ensures Repeat(s, |s.msgs| + j, times) == s
  {
    if times > 0 {
      FinishedStays(s, j, times - 1);
    }
  }

  /** A local writer left alone for two steps or more replaces the records and loses no push; where local writes are not
      allowed it changes nothing. */
  lemma AloneIsWrite(s: System, j: nat, times: nat)
    requires Sized(s) && j < |s.writes| && s.wpcs[j] == Write && !s.shared.skip && times >= 2
    ensures Repeat(s, |s.msgs| + j, times) ==
            s.(shared := if s.cfg.readOnly || s.cfg.rejectLocal then s.shared else s.shared.(records := s.writes[j]),
               wpcs := s.wpcs[j := Finished])
  {
    var k := |s.msgs| + j;
    TwoSteps(s, k, times);
    FinishedStays(Step(Step(s, k), k), j, times - 2);
  }

  /** The sync state once handler `k` has committed what it applied. */
  function Committed(s: System, k: nat): SyncState
    requires k < |s.msgs|
  {
    var c := CommitSeq(s.shared.sync, s.msgs[k]);
    if s.cfg.policy == GlobalLww then CommitLww(c, s.msgs[k]) else c
  }

  /** What a handler that has decided does to the shared state. */
  function Outcome(s: System, k: nat): Shared
    requires Sized(s) && k < |s.msgs|
  {
    match s.pcs[k]
    case Raise => s.shared.(sync := Committed(s, k), records := Canonical(s.msgs[k].records), skip := false)
    case CommitRejected => s.shared.(sync := CommitSeq(s.shared.sync, s.msgs[k]))
    case _ => s.shared
  }

  predicate Decided(pc: Pc) {
    pc == Raise || pc == CommitRejected || pc == Done
  }

  lemma FinishAlone(s: System, k: nat, times: nat)
    requires Sized(s) && k < |s.msgs| && Decided(s.pcs[k]) && times >= 6
    ensures Repeat(s, k, times) == s.(shared := Outcome(s, k), pcs := s.pcs[k := Done])
  {
    match s.pcs[k]
    case Raise => ApplyAlone(s, k, times);
    case CommitRejected =>
      TwoSteps(s, k, times);
      DoneStays(Step(Step(s, k), k), k, times - 2);
    case Done => DoneStays(s, k, times);
  }

  lemma ApplyAlone(s: System, k: nat, times: nat)
    requires Sized(s) && k < |s.msgs| && s.pcs[k] == Raise && times >= 6
    ensures Repeat(s, k, times) == s.(shared := Outcome(s, k), pcs := s.pcs[k := Done])
  {
    var s2 := Step(Step(s, k), k);
    TwoSteps(s, k, times);
    assert s2 == s.(shared := s.shared.(records := Canonical(s.msgs[k].records), skip := true),
                    pcs := s.pcs[k := Notify]);
    CommitAlone(s2, k, times - 2);
  }

  /** From the flag read on: an echo if the flag is down, then the commits. */
  lemma CommitAlone(s: System, k: nat, times: nat)
    requires Sized(s) && k < |s.msgs| && s.pcs[k] == Notify && times >= 4
    ensures Repeat(s, k, times) ==
            s.(shared := s.shared.(sync := Committed(s, k), skip := false,
                                   echoes := s.shared.echoes + if k in s.saves && !s.shared.skip then 1 else 0),
               pcs := s.pcs[k := Done])
  {
    var s2 := Step(Step(s, k), k);
    TwoSteps(s, k, times);
    assert s2.pcs == s.pcs[k := CommitApplied];
    var s4 := Step(Step(s2, k), k);
    TwoSteps(s2, k, times - 2);
    assert s4.pcs == s.pcs[k := Done];
    DoneStays(s4, k, times - 4);
  }

  // ---- Extending a schedule ----

  /** Lets handler `k` check and decide. */
  lemma Deciding(s0: System, schedule: seq<nat>, k: nat) returns (longer: seq<nat>)
    requires Sized(s0) && k < |s0.msgs| && Run(s0, schedule).pcs[k] == Check
    ensures var s := Run(s0, schedule);
            Run(s0, longer) ==
            s.(pcs := s.pcs[k := if Duplicate(s.shared.sync, s.msgs[k]) then Done else AfterDecision(s, k)])
  {
    var s := Run(s0, schedule);
    RunThen(s0, schedule, k);
    RunThen(s0, schedule + [k], k);
    longer := schedule + [k] + [k];
    assert Run(s0, longer).pcs ==
           s.pcs[k := if Duplicate(s.shared.sync, s.msgs[k]) then Done else AfterDecision(s, k)];
  }

  /** Lets handler `k`, which has decided to apply, raise the flag and store. */
  lemma Storing(s0: System, schedule: seq<nat>, k: nat) returns (longer: seq<nat>)
    requires Sized(s0) && k < |s0.msgs| && Run(s0, schedule).pcs[k] == Raise
    ensures var s := Run(s0, schedule);
            Run(s0, longer) ==
            s.(shared := s.shared.(records := Canonical(s.msgs[k].records), skip := true), pcs := s.pcs[k := Notify])
  {
    var s := Run(s0, schedule);
    RunThen(s0, schedule, k);
    RunThen(s0, schedule + [k], k);
    longer := schedule + [k] + [k];
    assert Run(s0, longer).pcs == s.pcs[k := Notify];
  }

  /** Lets handler `k`, which has decided, run to its end. */
  lemma Finishing(s0: System, schedule: seq<nat>, k: nat, times: nat) returns (longer: seq<nat>)
    requires Sized(s0) && k < |s0.msgs| && Decided(Run(s0, schedule).pcs[k]) && times >= 6
    ensures var s := Run(s0, schedule); Run(s0, longer) == s.(shared := Outcome(s, k), pcs := s.pcs[k := Done])
  {
    FinishAlone(Run(s0, schedule), k, times);
    longer := RunRepeat(s0, schedule, k, times);
  }

  /** Lets handler `k`, which has stored under global_lww, commit. */
  lemma Committing(s0: System, schedule: seq<nat>, k: nat, times: nat) returns (longer: seq<nat>)
    requires Sized(s0) && k < |s0.msgs| && Run(s0, schedule).pcs[k] == Notify && s0.cfg.policy == GlobalLww
             && times >= 4
    ensures var s, s' := Run(s0, schedule), Run(s0, longer);
            s'.pcs == s.pcs[k := Done] && s'.shared.records == s.shared.records
              && s'.shared.sync.lww == StampOf(s.msgs[k])
  {
    CommitAlone(Run(s0, schedule), k, times);
    longer := RunRepeat(s0, schedule, k, times);
  }

  // ---- Echoes ----

  ghost predicate EchoFree(s0: System)
    requires Sized(s0)
  {
    forall schedule :: Run(s0, schedule).shared.echoes == 0
  }

  /** No handler with a snapshot to apply that it can save has company. */
  ghost predicate SavesAlone(s0: System) {
    forall i: nat, j: nat :: Live(s0, i) && Live(s0, j) && j in s0.saves ==> i == j
  }

  ghost predicate Quiet(s: System) {
    && s.shared.echoes == 0
    && forall i :: 0 <= i < |s.pcs| && s.pcs[i] in {Store, Notify} && i in s.saves ==> s.shared.skip
  }

  lemma QuietStep(s0: System, s: System, k: nat)
    requires Sound(s0, s) && Quiet(s) && SavesAlone(s0)
    ensures Quiet(Step(s, k))
  {
    if k < |s.msgs| && InApply(s.pcs[k]) {
      assert forall i :: 0 <= i < |s.pcs| && InApply(s.pcs[i]) && i in s.saves ==> i == k;
    }
  }

  lemma {:induction false} QuietRun(s0: System, schedule: seq<nat>)
    requires Initial(s0) && SavesAlone(s0)
    ensures Quiet(Run(s0, schedule))
  {
    if schedule != [] {
      var head := schedule[..|schedule| - 1];
      QuietRun(s0, head);
      SoundRun(s0, head);
      QuietStep(s0, Run(s0, head), schedule[|schedule| - 1]);
    }
  }

  /** Two live handlers can overlap so that the second reads the flag after the first has lowered it. */
  lemma OverlapEchoes(s0: System, i: nat, j: nat) returns (schedule: seq<nat>)
    requires Initial(s0) && Live(s0, i) && Live(s0, j) && i != j && j in s0.saves
    ensures Run(s0, schedule).shared.echoes == 1
  {
    schedule := BothDecided(s0, i, j);
    schedule := Storing(s0, schedule, j);
    schedule := Finishing(s0, schedule, i, 6);
    RunThen(s0, schedule, j);
    schedule := schedule + [j];
  }

  /** Both handlers pass their checks before either stores. */
  lemma BothDecided(s0: System, i: nat, j: nat) returns (schedule: seq<nat>)
    requires Initial(s0) && Live(s0, i) && Live(s0, j) && i != j
    ensures Run(s0, schedule) == s0.(pcs := s0.pcs[i := Raise][j := Raise])
  {
    schedule := Deciding(s0, [], i);
    schedule := Deciding(s0, schedule, j);
  }

  /** No schedule echoes exactly when a handler that has a snapshot to apply and can save it is the only one with a
      snapshot to apply. If all saves succeed, that is: when at most one has. */
  lemma EchoFreeIff(s0: System)
    requires Initial(s0)
    ensures EchoFree(s0) <==> SavesAlone(s0)
  {
    if SavesAlone(s0) {
      forall schedule ensures Run(s0, schedule).shared.echoes == 0 {
        QuietRun(s0, schedule);
      }
    } else {
      var i: nat, j: nat :| Live(s0, i) && Live(s0, j) && j in s0.saves && i != j;
      var schedule := OverlapEchoes(s0, i, j);
    }
  }

  // ---- Local writes ----

  /** Every accepted local write calls the notify callback. */
  ghost predicate LossFree(s0: System)
    requires Sized(s0)
  {
    forall schedule :: Run(s0, schedule).shared.lost == 0
  }

  ghost predicate NoneLive(s0: System) {
    forall i: nat :: !Live(s0, i)
  }

  predicate NoWriters(s0: System) {
    s0.writes == [] || s0.cfg.rejectLocal
  }

  /** No local write is both accepted and saved. */
  ghost predicate NothingToTell(s0: System) {
    NoWriters(s0) || forall j :: 0 <= j < |s0.writes| ==> !WriterSaves(s0, j)
  }

  ghost predicate Kept(s0: System, s: System) {
    && s.shared.lost == 0 && (NoneLive(s0) ==> !s.shared.skip)
    && (NoWriters(s0) ==> forall j :: 0 <= j < |s.wpcs| ==> s.wpcs[j] != Tell)
  }

  lemma KeptStep(s0: System, s: System, k: nat)
    requires Sound(s0, s) && Kept(s0, s) && (NoneLive(s0) || NothingToTell(s0))
    ensures Kept(s0, Step(s, k))
  {
    if k < |s.msgs| {
      assert s.pcs[k] == Raise ==> Live(s0, k);
    } else if k - |s.msgs| < |s.writes| {
      assert WriterSaves(s, k - |s.msgs|) == WriterSaves(s0, k - |s.msgs|);
    }
  }

  lemma {:induction false} KeptRun(s0: System, schedule: seq<nat>)
    requires Initial(s0) && (NoneLive(s0) || NothingToTell(s0))
    ensures Kept(s0, Run(s0, schedule))
  {
    if schedule != [] {
      var head := schedule[..|schedule| - 1];
      KeptRun(s0, head);
      SoundRun(s0, head);
      KeptStep(s0, Run(s0, head), schedule[|schedule| - 1]);
    }
  }

  /** A write while a live handler has the flag raised calls no callback. */
  lemma WriteLosesPush(s0: System, i: nat, j: nat) returns (schedule: seq<nat>)
    requires Initial(s0) && Live(s0, i) && !s0.cfg.rejectLocal && j < |s0.writes| && WriterSaves(s0, j)
    ensures Run(s0, schedule).shared.lost == 1
  {
    var w := |s0.msgs| + j;
    schedule := Deciding(s0, [], i);
    schedule := Storing(s0, schedule, i);
    RunThen(s0, schedule, w);
    RunThen(s0, schedule + [w], w);
    UntoldWrite(Run(s0, schedule), j);
    schedule := schedule + [w] + [w];
  }

  /** A writer left alone while the flag is raised. */
  lemma UntoldWrite(s: System, j: nat)
    requires Sized(s) && j < |s.writes| && s.wpcs[j] == Write && !s.cfg.rejectLocal && !s.cfg.readOnly
    requires s.shared.skip && WriterSaves(s, j)
    ensures Step(Step(s, |s.msgs| + j), |s.msgs| + j).shared ==
            s.shared.(records := s.writes[j], lost := s.shared.lost + 1)
  {
  }

  /** No schedule loses a saved local write's push exactly when there is none to lose or no handler has a snapshot to
      apply. */
  lemma LossFreeIff(s0: System)
    requires Initial(s0)
    ensures LossFree(s0) <==> NothingToTell(s0) || NoneLive(s0)
  {
    if NothingToTell(s0) || NoneLive(s0) {
      forall schedule ensures Run(s0, schedule).shared.lost == 0 {
        KeptRun(s0, schedule);
      }
    } else {
      var i: nat :| Live(s0, i);
      var j: nat :| j < |s0.writes| && WriterSaves(s0, j);
      var schedule := WriteLosesPush(s0, i, j);
    }
  }

  // ---- The stamp ----

  ghost predicate StampNeverFalls(s0: System)
    requires Sized(s0)
  {
    forall schedule, k: nat ::
      !Before(Run(s0, schedule + [k]).shared.sync.lww, Run(s0, schedule).shared.sync.lww)
  }

  ghost predicate OneLiveStamp(s0: System) {
    forall i: nat, j: nat :: Live(s0, i) && Live(s0, j) ==> StampOf(s0.msgs[i]) == StampOf(s0.msgs[j])
  }

  lemma StampStep(s0: System, schedule: seq<nat>, k: nat)
    requires Initial(s0) && s0.cfg.policy == GlobalLww && OneLiveStamp(s0)
    ensures !Before(Run(s0, schedule + [k]).shared.sync.lww, Run(s0, schedule).shared.sync.lww)
  {
    RunThen(s0, schedule, k);
    SoundRun(s0, schedule);
    var s := Run(s0, schedule);
    StampMoves(s, k);
    BeforeTotal(s.shared.sync.lww, s.shared.sync.lww);
    if k < |s.msgs| && s.pcs[k] == CommitStamp {
      assert Live(s0, k);
      BeforeTotal(s.shared.sync.lww, StampOf(s0.msgs[k]));
    }
  }

  /** Lets handler `k`, which has decided to apply, run up to its stamp commit; the stamp stays until then. */
  lemma ReachingStamp(s0: System, schedule: seq<nat>, k: nat) returns (longer: seq<nat>)
    requires Sized(s0) && k < |s0.msgs| && Run(s0, schedule).pcs[k] == Raise && s0.cfg.policy == GlobalLww
    ensures var s, s' := Run(s0, schedule), Run(s0, longer);
            s'.shared.sync.lww == s.shared.sync.lww && s'.pcs == s.pcs[k := CommitStamp]
  {
    var s := Run(s0, schedule);
    longer := Storing(s0, schedule, k);
    RunThen(s0, longer, k);
    longer := longer + [k];
    assert Run(s0, longer).shared.sync == s.shared.sync && Run(s0, longer).pcs == s.pcs[k := Lower];
    RunThen(s0, longer, k);
    longer := longer + [k];
    assert Run(s0, longer).shared.sync == s.shared.sync && Run(s0, longer).pcs == s.pcs[k := CommitApplied];
    RunThen(s0, longer, k);
    longer := longer + [k];
    assert Run(s0, longer).pcs == s.pcs[k := CommitStamp];
  }

  /** Two live handlers with different stamps can commit them in the wrong order. */
  lemma StampCanFall(s0: System, i: nat, j: nat) returns (schedule: seq<nat>)
    requires Initial(s0) && s0.cfg.policy == GlobalLww && Live(s0, i) && Live(s0, j)
    requires Before(StampOf(s0.msgs[i]), StampOf(s0.msgs[j]))
    ensures Before(Run(s0, schedule + [i]).shared.sync.lww, Run(s0, schedule).shared.sync.lww)
  {
    BeforeTotal(StampOf(s0.msgs[i]), StampOf(s0.msgs[j]));
    schedule := BothDecided(s0, i, j);
    schedule := Finishing(s0, schedule, j, 6);
    schedule := ReachingStamp(s0, schedule, i);
    RunThen(s0, schedule, i);
  }

  /** No schedule lowers the stamp exactly when all snapshots to be applied carry the same one. */
  lemma StampNeverFallsIff(s0: System)
    requires Initial(s0) && s0.cfg.policy == GlobalLww
    ensures StampNeverFalls(s0) <==> OneLiveStamp(s0)
  {
    if OneLiveStamp(s0) {
      forall schedule, k: nat
        ensures !Before(Run(s0, schedule + [k]).shared.sync.lww, Run(s0, schedule).shared.sync.lww)
      {
        StampStep(s0, schedule, k);
      }
    } else {
      var i: nat, j: nat :| Live(s0, i) && Live(s0, j) && StampOf(s0.msgs[i]) != StampOf(s0.msgs[j]);
      BeforeTotal(StampOf(s0.msgs[i]), StampOf(s0.msgs[j]));
      if Before(StampOf(s0.msgs[i]), StampOf(s0.msgs[j])) {
        var schedule := StampCanFall(s0, i, j);
      } else {
        var schedule := StampCanFall(s0, j, i);
      }
    }
  }

  // ---- Who owns the records ----

  predicate AllDone(s: System) {
    forall pc <- s.pcs :: pc == Done
  }

  /** Handler `l` brought both this stamp and these records. */
  predicate Owns(s0: System, l: nat, stamp: Stamp, records: seq<DNSRecord>) {
    Live(s0, l) && StampOf(s0.msgs[l]) == stamp && Canonical(s0.msgs[l].records) == records
  }

  /** Nothing was applied, or the records are those of a snapshot that owns the stamp. */
  ghost predicate Consistent(s0: System, s: System) {
    || (s.shared.records == s0.shared.records && s.shared.sync.lww == s0.shared.sync.lww)
    || exists l: nat :: Owns(s0, l, s.shared.sync.lww, s.shared.records)
  }

  ghost predicate AlwaysConsistent(s0: System)
    requires Sized(s0)
  {
    forall schedule :: AllDone(Run(s0, schedule)) ==> Consistent(s0, Run(s0, schedule))
  }

  /** Some snapshot to be applied has the stamp of `i` and the records of `j`. */
  ghost predicate Mixed(s0: System, i: nat, j: nat) {
    i < |s0.msgs| && j < |s0.msgs| && exists l: nat :: Owns(s0, l, StampOf(s0.msgs[i]), Canonical(s0.msgs[j].records))
  }

  ghost predicate Mixable(s0: System) {
    forall i: nat, j: nat {:trigger Mixed(s0, i, j)} :: Live(s0, i) && Live(s0, j) ==> Mixed(s0, i, j)
  }

  ghost predicate LiveRecords(s0: System, records: seq<DNSRecord>) {
    exists j: nat :: Live(s0, j) && Canonical(s0.msgs[j].records) == records
  }

  predicate Stored(pc: Pc) {
    pc in {Notify, Lower, CommitApplied, CommitStamp}
  }

  predicate SomeStored(s: System) {
    exists i :: 0 <= i < |s.pcs| && Stored(s.pcs[i])
  }

  /** Who has stored and not yet committed tells apart "nothing applied" from "records without their stamp yet". */
  ghost predicate Traced(s0: System, s: System) {
    && (s.shared.records == s0.shared.records || LiveRecords(s0, s.shared.records))
    && (SomeStored(s) ==> LiveRecords(s0, s.shared.records))
    && (s.shared.sync.lww != s0.shared.sync.lww ==> LiveRecords(s0, s.shared.records))
    && (s.shared.sync.lww == s0.shared.sync.lww ==>
          s.shared.records == s0.shared.records || SomeStored(s))
  }

  lemma {:induction false} TracedStep(s0: System, s: System, k: nat)
    requires Initial(s0) && s0.cfg.policy == GlobalLww && NoWriters(s0)
    requires Sound(s0, s) && Kept(s0, s) && Traced(s0, s)
    ensures Traced(s0, Step(s, k))
  {
    if k >= |s.msgs| {
      RefusedChangesNothing(s0, s, k);
    } else if s.pcs[k] == Store {
      TracedStore(s0, s, k);
    } else if s.pcs[k] == CommitStamp {
      TracedCommit(s0, s, k);
    } else {
      OthersKeep(s, k);
      StoredKept(s, k);
    }
  }

  lemma TracedStore(s0: System, s: System, k: nat)
    requires Sized(s) && k < |s.msgs| && s.pcs[k] == Store && s.msgs == s0.msgs && Live(s0, k)
    ensures Traced(s0, HandlerStep(s, k))
  {
    var s' := HandlerStep(s, k);
    assert s'.shared.records == Canonical(s0.msgs[k].records) && Stored(s'.pcs[k]);
  }

  lemma TracedCommit(s0: System, s: System, k: nat)
    requires Sized(s) && k < |s.msgs| && s.pcs[k] == CommitStamp && s.msgs == s0.msgs && Live(s0, k)
    requires s0.cfg.policy == GlobalLww && Traced(s0, s)
    ensures Traced(s0, HandlerStep(s, k))
  {
    BeforeTotal(s0.shared.sync.lww, StampOf(s0.msgs[k]));
    assert Stored(s.pcs[k]);
  }

  lemma OthersKeep(s: System, k: nat)
    requires Sized(s) && k < |s.msgs| && s.pcs[k] != Store && s.pcs[k] != CommitStamp
    ensures var s' := HandlerStep(s, k);
            s'.shared.records == s.shared.records && s'.shared.sync.lww == s.shared.sync.lww
  {
  }

  lemma RefusedChangesNothing(s0: System, s: System, k: nat)
    requires Sound(s0, s) && Kept(s0, s) && NoWriters(s0) && k >= |s.msgs|
    ensures Step(s, k).shared == s.shared && Step(s, k).pcs == s.pcs
  {
  }

  lemma StoredKept(s: System, k: nat)
    requires Sized(s) && k < |s.msgs| && s.pcs[k] != Store && s.pcs[k] != CommitStamp && s.cfg.policy == GlobalLww
    ensures SomeStored(HandlerStep(s, k)) <==> SomeStored(s)
  {
    var s' := HandlerStep(s, k);
    assert Stored(s'.pcs[k]) <==> Stored(s.pcs[k]);
    assert forall i :: 0 <= i < |s.pcs| && i != k ==> s'.pcs[i] == s.pcs[i];
  }

  lemma {:induction false} TracedRun(s0: System, schedule: seq<nat>)
    requires Initial(s0) && s0.cfg.policy == GlobalLww && NoWriters(s0)
    ensures Traced(s0, Run(s0, schedule))
  {
    if schedule != [] {
      var head := schedule[..|schedule| - 1];
      TracedRun(s0, head);
      SoundRun(s0, head);
      KeptRun(s0, head);
      TracedStep(s0, Run(s0, head), schedule[|schedule| - 1]);
    }
  }

  /** Lets the first `m` handlers check and decide, before any of them stores. */
  lemma {:induction false} DecidingAll(s0: System, m: nat) returns (schedule: seq<nat>)
    requires Initial(s0) && m <= |s0.msgs|
    ensures var s := Run(s0, schedule);
            && s.shared == s0.shared
            && (forall k :: 0 <= k < m ==> Decided(s.pcs[k]) && (Live(s0, k) ==> s.pcs[k] == Raise))
            && (forall k :: m <= k < |s.pcs| ==> s.pcs[k] == Check)
  {
    if m == 0 {
      schedule := [];
    } else {
      schedule := DecidingAll(s0, m - 1);
      schedule := Deciding(s0, schedule, m - 1);
    }
  }

  /** Lets those of the first `m` handlers finish that are not kept waiting. */
  lemma {:induction false} FinishingOthers(s0: System, start: seq<nat>, i: nat, j: nat, m: nat)
    returns (schedule: seq<nat>)
    requires Sized(s0) && m <= |s0.msgs| && i < |s0.msgs| && j < |s0.msgs|
    requires forall k :: 0 <= k < |s0.msgs| ==> Decided(Run(s0, start).pcs[k])
    ensures var s, s' := Run(s0, start), Run(s0, schedule);
            && s'.pcs[i] == s.pcs[i] && s'.pcs[j] == s.pcs[j]
            && forall k :: 0 <= k < |s0.msgs| && k != i && k != j ==> s'.pcs[k] == if k < m then Done else s.pcs[k]
  {
    if m == 0 {
      schedule := start;
    } else {
      schedule := FinishingOthers(s0, start, i, j, m - 1);
      if m - 1 != i && m - 1 != j {
        schedule := Finishing(s0, schedule, m - 1, 6);
      }
    }
  }

  /** Two handlers that have decided to apply can leave the stamp of one with the records of the other. */
  lemma Mixing(s0: System, start: seq<nat>, i: nat, j: nat) returns (schedule: seq<nat>)
    requires Sized(s0) && s0.cfg.policy == GlobalLww && i < |s0.msgs| && j < |s0.msgs| && i != j
    requires Run(s0, start).pcs[i] == Raise && Run(s0, start).pcs[j] == Raise
    ensures var s := Run(s0, schedule);
            && s.pcs == Run(s0, start).pcs[i := Done][j := Done] && s.shared.sync.lww == StampOf(s0.msgs[i])
            && s.shared.records == Canonical(s0.msgs[j].records)
  {
    var pcs := Run(s0, start).pcs;
    schedule := Storing(s0, start, i);
    schedule := Finishing(s0, schedule, j, 6);
    schedule := Committing(s0, schedule, i, 4);
    assert pcs[i := Notify][j := Done][i := Done] == pcs[i := Done][j := Done];
  }

  /** And they can do so with every handler done. */
  lemma StampAndRecordsMix(s0: System, i: nat, j: nat) returns (schedule: seq<nat>)
    requires Initial(s0) && s0.cfg.policy == GlobalLww && Live(s0, i) && Live(s0, j) && i != j
    ensures var s := Run(s0, schedule);
            && AllDone(s) && s.shared.sync.lww == StampOf(s0.msgs[i])
            && s.shared.records == Canonical(s0.msgs[j].records)
  {
    schedule := DecidingAll(s0, |s0.msgs|);
    schedule := FinishingOthers(s0, schedule, i, j, |s0.msgs|);
    schedule := Mixing(s0, schedule, i, j);
  }

  /** However the handlers overlap, once all are done the records are those of a snapshot owning the stamp, exactly when
      every mixture of a live stamp and live records is itself one of the live snapshots. */
  lemma ConsistentIff(s0: System)
    requires Initial(s0) && s0.cfg.policy == GlobalLww && NoWriters(s0)
    ensures AlwaysConsistent(s0) <==> Mixable(s0)
  {
    if Mixable(s0) {
      forall schedule | AllDone(Run(s0, schedule)) ensures Consistent(s0, Run(s0, schedule)) {
        TracedRun(s0, schedule);
        SoundRun(s0, schedule);
        MixedIsOwned(s0, Run(s0, schedule));
      }
    } else {
      var i: nat, j: nat :| Live(s0, i) && Live(s0, j) && !Mixed(s0, i, j);
      if i == j {
        SharedIsMixed(s0, i, j);
      }
      var schedule := StampAndRecordsMix(s0, i, j);
      BeforeTotal(s0.shared.sync.lww, StampOf(s0.msgs[i]));
    }
  }

  lemma MixedIsOwned(s0: System, s: System)
    requires Mixable(s0) && Sound(s0, s) && Traced(s0, s) && AllDone(s)
    ensures Consistent(s0, s)
  {
    assert forall i :: 0 <= i < |s.pcs| ==> s.pcs[i] in s.pcs;
    if s.shared.sync.lww != s0.shared.sync.lww {
      var i: nat :| Live(s0, i) && StampOf(s0.msgs[i]) == s.shared.sync.lww;
      var j: nat :| Live(s0, j) && Canonical(s0.msgs[j].records) == s.shared.records;
      assert Mixed(s0, i, j);
    }
  }

  predicate Shares(m: Snapshot, m': Snapshot) {
    StampOf(m) == StampOf(m') || Canonical(m.records) == Canonical(m'.records)
  }

  /** It suffices that any two live snapshots share the stamp or the records. */
  lemma MixableIfShared(s0: System)
    requires forall i: nat, j: nat :: Live(s0, i) && Live(s0, j) ==> Shares(s0.msgs[i], s0.msgs[j])
    ensures Mixable(s0)
  {
    forall i: nat, j: nat | Live(s0, i) && Live(s0, j) ensures Mixed(s0, i, j) {
      SharedIsMixed(s0, i, j);
    }
  }

  lemma SharedIsMixed(s0: System, i: nat, j: nat)
    requires Live(s0, i) && Live(s0, j) && Shares(s0.msgs[i], s0.msgs[j])
    ensures Mixed(s0, i, j)
  {
    var stamp, records := StampOf(s0.msgs[i]), Canonical(s0.msgs[j].records);
    assert Owns(s0, i, stamp, records) || Owns(s0, j, stamp, records);
  }

  /** With two handlers it is also needed. */
  lemma TwoMixableIff(s0: System)
    requires |s0.msgs| == 2 && Live(s0, 0) && Live(s0, 1)
    ensures Mixable(s0) <==> Shares(s0.msgs[0], s0.msgs[1])
  {
    if Mixable(s0) {
      assert Mixed(s0, 0, 1);
    } else if Shares(s0.msgs[0], s0.msgs[1]) {
      MixableIfShared(s0);
    }
  }
}
