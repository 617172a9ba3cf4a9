/** What holds in every reachable state of a lease, over every run of its protocol. */
module LeaseSafety {
  import opened LeaseTypes
  import opened WorkerModel
  import opened HostModel
  import opened LeaseSystem
  import opened LeaseInvariant

  lemma ReportReceiptKeepsInv(s: System, f: Frame)
    requires Inv(s) && Genuine(s.log.issued, f)
    ensures Inv(s.(h := Deliver(s.h, f)))
  {
    DeliverKeepsInv(s.h, s.log, f);
  }

  lemma GapReceiptKeepsInv(s: System, through: nat)
    requires Inv(s) && through <= s.w.gapThrough && s.h.held
    ensures Inv(s.(h := SkipLeaseGap(s.h, through), log := s.log.(gapped := Max(s.log.gapped, through))))
    ensures SkipLeaseGap(s.h, through).appliedSeq >= s.h.appliedSeq
  {
    SkipGapKeepsInv(s.h, s.log, through);
    if through > s.h.appliedSeq {
      assert Pulled(through, AboveSeq(s.h.appliedAhead, through)) >= through;
    }
    GapKeepsRest(s, s.(log := s.log.(gapped := Max(s.log.gapped, through))), through);
  }

  lemma GapKeepsRest(s: System, t: System, through: nat)
    requires LogInv(s.log) && WorkerInv(s.w, s.log) && NetInv(s) && through <= s.w.gapThrough
    requires t == s.(log := s.log.(gapped := Max(s.log.gapped, through)))
    ensures LogInv(t.log) && WorkerInv(t.w, t.log) && NetInv(t)
  {
    SameIssuedSameMessages(s.log, t.log, s.w.gapThrough);
  }

  lemma HostReceiptKeepsInv(s: System, m: UpMsg)
    requires Inv(s) && GoodMessage(s.log, s.w.gapThrough, m)
    ensures Inv(HostReceives(s, m))
    ensures HostReceives(s, m).h.appliedSeq >= s.h.appliedSeq
  {
    match m
    case Report(f) => ReportReceiptKeepsInv(s, f);
    case LeaseGap(through, _) => if s.h.held { GapReceiptKeepsInv(s, through); }
  }

  lemma SocketStepsKeepInv(s: System, step: Step)
    requires Inv(s) && Enabled(s, step)
    requires step.SocketClosed? || step.SocketOpened? || step.Registered? || step.BackstopFired?
    ensures Inv(Apply(s, step))
  {
    match step
    case SocketClosed =>
      assert forall m :: m in Pending(s) ==> m in s.w.wire;
      assert WorkerInv(OnClose(s.w), s.log);
    case SocketOpened => assert WorkerInv(OnConnect(s.w), s.log);
    case Registered => RegistrationKeepsInv(s);
    case BackstopFired =>
      FlushSends(s.w.(awaitingAck := false), s.log);
      SendsKeepInv(s, OnReplayBackstop(s.w));
  }

  lemma RegistrationKeepsInv(s: System)
    requires Inv(s)
    ensures Inv(WorkerRegisters(s))
  {
    var w1 := s.w.(registered := true);
    GapReportSends(w1, s.log);
    if s.alive {
      GapReportSends(ReportLeaseGap(w1), s.log);
      SendsKeepInv(s, OnRegistered(s.w));
    } else {
      SendsKeepInv(s, FlushQueue(w1));
    }
  }

  /** Forgetting a lease moves its frames out of the buffer and touches nothing else. */
  lemma ForgettingKeepsInv(s: System, why: Farewell)
    requires Inv(s) && s.alive && !why.NoFarewell?
    requires why.Acknowledged? ==> RunCompleteAck in s.sent
    requires why.Disowned? ==> LeaseLost in s.sent
    ensures Inv(WorkerForgot(s, why))
  {
    var t := WorkerForgot(s, why);
    ForgettingKeepsWorkerInv(s.w, s.log, t.log);
    ForgettingKeepsHostInv(s.h, s.log, t.log);
    ForgettingKeepsNet(s, t);
  }

  lemma ForgettingKeepsNet(s: System, t: System)
    requires LogInv(s.log) && NetInv(s) && t.w == ForgetLease(s.w)
    requires t == s.(w := t.w, alive := t.alive, log := t.log)
    requires t.log == s.log.(farewell := t.log.farewell, forgotten := t.log.forgotten)
    ensures LogInv(t.log) && NetInv(t)
  {
    SameIssuedSameMessages(s.log, t.log, s.w.gapThrough);
  }

  lemma ForgettingKeepsWorkerInv(w: Worker, log: History, log': History)
    requires WorkerInv(w, log) && log.forgotten == {}
    requires log' == log.(farewell := log'.farewell, forgotten := Nums(w.frames))
    ensures WorkerInv(ForgetLease(w), log')
  {
    assert forall n :: n in Nums(w.frames) ==> exists f :: f in w.frames && f.num == n;
    SameIssuedSameMessages(log, log', w.gapThrough);
  }

  lemma ForgettingKeepsHostInv(h: Host, log: History, log': History)
    requires HostInv(h, log) && log' == log.(farewell := log'.farewell, forgotten := log'.forgotten)
    ensures HostInv(h, log')
  {
  }

  lemma RestartKeepsInv(s: System, restored: bool)
    requires Inv(s)
    ensures Inv(Apply(s, HostRestarts(restored)))
  {
    var t := Apply(s, HostRestarts(restored));
    RestartedHostInv(restored, s.disk, s.log);
    NewLifeKeepsRest(s, t);
  }

  lemma RestartedHostInv(restored: bool, watermark: nat, log: History)
    requires watermark <= |log.issued| && (!BelowCompletion(log, watermark) ==> log.finished && log.overdue)
    requires forall n :: 1 <= n <= watermark ==> n in log.store || n in log.discarded || n <= log.gapped
    ensures HostInv(Installed(restored, watermark), log.(life := []))
  {
    assert Nums([]) == {};
  }

  lemma NewLifeKeepsRest(s: System, t: System)
    requires LogInv(s.log) && WorkerInv(s.w, s.log) && NetInv(s)
    requires t == s.(h := t.h, log := s.log.(life := []))
    ensures LogInv(t.log) && WorkerInv(t.w, t.log) && NetInv(t)
  {
  }

  /** Storing one more genuine frame disturbs nothing on the worker's side or in the network. */
  lemma StoringKeepsRest(s: System, f: Frame)
    requires Inv(s) && Genuine(s.log.issued, f)
    ensures LogInv(Stored(s.log, f)) && WorkerInv(s.w, Stored(s.log, f))
    ensures NetInv(s.(log := Stored(s.log, f)))
  {
    StoringKeepsLog(s.log, f);
  }

  lemma WriteStepKeepsInv(s: System)
    requires Inv(s) && Enabled(s, WriteLands)
    ensures Inv(Apply(s, WriteLands))
  {
    assert s.h.chain[0] in s.h.chain;
    WriteLandedKeepsInv(s.h, s.log);
    StoringKeepsRest(s, s.h.chain[0]);
  }

  lemma DiscardingKeepsRest(s: System, f: Frame)
    requires Inv(s) && Genuine(s.log.issued, f) && Discardable(f)
    ensures LogInv(StoredNothing(s.log, f)) && WorkerInv(s.w, StoredNothing(s.log, f))
    ensures NetInv(s.(log := StoredNothing(s.log, f)))
  {
    DiscardingKeepsLog(s.log, f);
  }

  lemma DiscardStepKeepsInv(s: System, disk: bool)
    requires Inv(s) && Enabled(s, WriteDiscarded(disk))
    ensures Inv(Apply(s, WriteDiscarded(disk)))
  {
    assert s.h.chain[0] in s.h.chain;
    WriteDiscardedKeepsInv(s.h, s.log);
    DiscardingKeepsRest(s, s.h.chain[0]);
  }

  lemma RejectionKeepsInv(s: System)
    requires Inv(s) && Enabled(s, WriteFails)
    ensures Inv(Apply(s, WriteFails))
  {
    WriteFailedKeepsInv(s.h, s.log);
  }

  lemma CompletionWriteKeepsInv(s: System)
    requires Inv(s) && Enabled(s, CompletionLands)
    ensures Inv(Apply(s, CompletionLands))
  {
    CompletionLandingKeepsInv(s.h, s.log);
    StoringKeepsRest(s, s.h.completion.frame);
    StoredKeepsInv(s, Apply(s, CompletionLands), s.h.completion.frame);
  }

  lemma StoredKeepsInv(s: System, t: System, f: Frame)
    requires Inv(s) && t == s.(h := t.h, log := Stored(s.log, f)) && t.h.appliedSeq == s.h.appliedSeq
    requires LogInv(t.log) && WorkerInv(t.w, t.log) && HostInv(t.h, t.log) && NetInv(s.(log := t.log))
    ensures Inv(t)
  {
  }

  lemma FinishStepKeepsInv(s: System, live: bool)
    requires Inv(s) && Enabled(s, CompletionFinishes(live))
    ensures Inv(Apply(s, CompletionFinishes(live)))
    ensures Apply(s, CompletionFinishes(live)).h.appliedSeq >= s.h.appliedSeq
  {
    FinishKeepsInv(s.h, s.log);
    RunCompleteIsLast(s.log, s.h.completion.frame);
    WatermarkAccounted(s);
    assert |s.log.issued| in s.log.store;
    FinishedLogKeepsRest(s, Apply(s, CompletionFinishes(live)));
  }

  lemma FinishedLogKeepsRest(s: System, t: System)
    requires Inv(s) && Completed(s.log.issued)
    requires Accounted(s.log, |s.log.issued|)
    requires t == s.(h := t.h, sent := t.sent, log := s.log.(finished := true))
    requires t.sent == s.sent || t.sent == s.sent + {RunCompleteAck}
    ensures LogInv(t.log) && WorkerInv(t.w, t.log) && NetInv(t)
  {
  }

  lemma RecordingKeepsInv(s: System)
    requires Inv(s) && Enabled(s, WriteRecorded)
    ensures Inv(Apply(s, WriteRecorded))
    ensures Apply(s, WriteRecorded).h.appliedSeq >= s.h.appliedSeq
  {
    RecordHeadKeepsInv(s.h, s.log);
    MarkingIsMonotone(s.h.(chain := s.h.chain[1..], headLanded := false), s.h.chain[0].num);
  }

  lemma MarkingIsMonotone(h: Host, n: nat)
    ensures MarkApplied(h, n).appliedSeq >= h.appliedSeq
  {
    assert Pulled(h.appliedSeq, h.appliedAhead + {n}) >= h.appliedSeq;
  }

  lemma DownMessageKeepsInv(s: System, m: DownMsg)
    requires Inv(s) && s.alive && m in s.sent
    ensures Inv(WorkerReceives(s, m))
  {
    match m
    case LeaseAck(n) => AckKeepsInv(s, n);
    case RunCompleteAck => ForgettingKeepsInv(s, Acknowledged);
    case LeaseLost => ForgettingKeepsInv(s, Disowned);
  }

  lemma UpMessageKeepsInv(s: System)
    requires Inv(s) && s.taken < |s.w.wire|
    ensures Inv(Apply(s, DeliverUp)) && Apply(s, DeliverUp).h.appliedSeq >= s.h.appliedSeq
  {
    assert s.w.wire[s.taken] in s.w.wire;
    TakingKeepsInv(s);
    HostReceiptKeepsInv(s.(taken := s.taken + 1), s.w.wire[s.taken]);
  }

  lemma TakingKeepsInv(s: System)
    requires Inv(s) && s.taken < |s.w.wire|
    ensures Inv(s.(taken := s.taken + 1))
  {
  }

  lemma AnswerKeepsInv(s: System, m: DownMsg)
    requires Inv(s) && (m.LeaseAck? ==> m.num == s.h.appliedSeq && s.h.held) && !m.RunCompleteAck?
    ensures Inv(s.(sent := s.sent + {m}))
  {
    WatermarkAccounted(s);
  }

  lemma CompletionStepKeepsInv(s: System, step: Step)
    requires Inv(s) && Enabled(s, step) && CompletionStep(step)
    ensures Inv(Apply(s, step)) && Apply(s, step).h.appliedSeq >= s.h.appliedSeq
  {
    match step
    case CompletionChecked => CompletionCheckKeepsInv(s.h, s.log);
    case CompletionLands => CompletionWriteKeepsInv(s);
    case CompletionFails => CompletionFailureKeepsInv(s.h, s.log);
    case CompletionFinishes(live) => FinishStepKeepsInv(s, live);
  }

  lemma LeaseStepKeepsInv(s: System, step: Step)
    requires Inv(s) && Enabled(s, step) && (step.WatermarkPersisted? || step.LeaseExpires?)
    ensures Inv(Apply(s, step)) && Apply(s, step).h.appliedSeq == s.h.appliedSeq
  {
    match step
    case LeaseExpires => ExpiryKeepsInv(s.h, s.log);
    case WatermarkPersisted(n) => PersistingKeepsInv(s, n);
  }

  lemma PersistingKeepsInv(s: System, n: nat)
    requires Inv(s) && Enabled(s, WatermarkPersisted(n))
    ensures Inv(Apply(s, WatermarkPersisted(n)))
  {
    var t := Apply(s, WatermarkPersisted(n));
    SameIssuedSameMessages(s.log, t.log, s.w.gapThrough);
    OverdueKeepsHostInv(s.h, s.log, t.log);
    OverdueKeepsRest(s, t);
  }

  lemma OverdueKeepsHostInv(h: Host, log: History, log': History)
    requires HostInv(h, log) && log' == log.(overdue := log'.overdue) && (log.overdue ==> log'.overdue)
    ensures HostInv(h, log')
  {
  }

  lemma OverdueKeepsRest(s: System, t: System)
    requires LogInv(s.log) && WorkerInv(s.w, s.log) && NetInv(s)
    requires t == s.(disk := t.disk, log := s.log.(overdue := t.log.overdue))
    requires forall m :: GoodMessage(s.log, s.w.gapThrough, m) <==> GoodMessage(t.log, s.w.gapThrough, m)
    ensures LogInv(t.log) && WorkerInv(t.w, t.log) && NetInv(t)
  {
  }

  lemma ReportStepKeepsInv(s: System, kind: Kind, payload: Content)
    requires Inv(s) && Enabled(s, DoReport(kind, payload))
    ensures Inv(Apply(s, DoReport(kind, payload)))
  {
    ReportKeepsInv(s, kind, payload);
  }

  predicate WorkerStep(step: Step) {
    step.DoReport? || step.SocketClosed? || step.SocketOpened? || step.Registered? || step.BackstopFired?
    || step.WorkerForgets? || step.DeliverDown?
  }

  predicate WriteStep(step: Step) {
    step.WriteLands? || step.WriteDiscarded? || step.WriteFails? || step.WriteRecorded?
  }

  predicate CompletionStep(step: Step) {
    step.CompletionChecked? || step.CompletionLands? || step.CompletionFails? || step.CompletionFinishes?
  }

  /** Steps of the worker and of the sockets leave the host alone. */
  lemma WorkerStepKeepsHost(s: System, step: Step)
    requires Enabled(s, step) && WorkerStep(step)
    ensures Apply(s, step).h == s.h
  {
  }

  lemma WorkerStepKeepsInv(s: System, step: Step)
    requires Inv(s) && Enabled(s, step) && WorkerStep(step)
    ensures Inv(Apply(s, step))
  {
    match step
    case DoReport(kind, payload) => ReportStepKeepsInv(s, kind, payload);
    case WorkerForgets => ForgettingKeepsInv(s, DeadlinePassed);
    case DeliverDown(m) => DownMessageKeepsInv(s, m);
    case _ => SocketStepsKeepInv(s, step);
  }

  lemma WriteStepsKeepInv(s: System, step: Step)
    requires Inv(s) && Enabled(s, step) && WriteStep(step)
    ensures Inv(Apply(s, step)) && Apply(s, step).h.appliedSeq >= s.h.appliedSeq
  {
    match step
    case WriteLands => WriteStepKeepsInv(s);
    case WriteDiscarded(disk) => DiscardStepKeepsInv(s, disk);
    case WriteFails => RejectionKeepsInv(s);
    case WriteRecorded => RecordingKeepsInv(s);
  }

  lemma OtherStepsKeepInv(s: System, step: Step)
    requires Inv(s) && Enabled(s, step) && !WorkerStep(step) && !WriteStep(step) && !CompletionStep(step)
    ensures Inv(Apply(s, step))
    ensures step.HostRestarts? || Apply(s, step).h.appliedSeq >= s.h.appliedSeq
  {
    match step
    case DeliverUp => UpMessageKeepsInv(s);
    case DeliverStale(m) => HostReceiptKeepsInv(s, m);
    case HostAcks => AnswerKeepsInv(s, LeaseAck(s.h.appliedSeq));
    case HostDisowns => AnswerKeepsInv(s, LeaseLost);
    case HostRestarts(restored) => RestartKeepsInv(s, restored);
    case _ => LeaseStepKeepsInv(s, step);
  }

  /** Every step keeps the invariant, and within one host life the watermark never moves back. */
  lemma StepKeepsInv(s: System, step: Step)
    requires Inv(s) && Enabled(s, step)
    ensures Inv(Apply(s, step))
    ensures step.HostRestarts? || Apply(s, step).h.appliedSeq >= s.h.appliedSeq
  {
    if WorkerStep(step) {
      WorkerStepKeepsInv(s, step);
      WorkerStepKeepsHost(s, step);
    } else if WriteStep(step) {
      WriteStepsKeepInv(s, step);
    } else if CompletionStep(step) {
      CompletionStepKeepsInv(s, step);
    } else {
      OtherStepsKeepInv(s, step);
    }
  }

  lemma {:induction false} ExecKeepsInv(s: System, steps: seq<Step>)
    requires Inv(s) && Possible(s, steps)
    ensures Inv(Exec(s, steps))
    decreases |steps|
  {
    if steps != [] {
      StepKeepsInv(s, steps[0]);
      ExecKeepsInv(Apply(s, steps[0]), steps[1..]);
    }
  }

  /** The invariant holds after every run of the protocol. */
  lemma ReachableInv(steps: seq<Step>)
    requires Possible(INITIAL, steps)
    ensures Inv(Exec(INITIAL, steps))
  {
    InitialInv();
    ExecKeepsInv(INITIAL, steps);
  }

  // ---------------------------------------------------------------- the promises

  /**
   * What became of a frame the worker no longer holds: the store has it as it was reported, or the
   * host recorded it with nothing stored, which its kind or content must allow, or it was a run-event
   * or run-artifact the cap gave up on.
   */
  ghost predicate Settled(log: History, n: nat) {
    && 1 <= n <= |log.issued|
    && var f := log.issued[n - 1];
    || (n in log.store && log.store[n] == f)
    || (n in log.discarded && MayGoUnstored(f))
    || (n in log.dropped && Cheap(f))
  }

  predicate Cheap(f: Frame) { f.kind.RunEvent? || f.kind.RunArtifact? }

  /** Run-events and run-memories, and what the host's checks may refuse of artifacts and usage snapshots. */
  predicate MayGoUnstored(f: Frame) {
    f.kind.RunEvent? || f.kind.RunMemories?
    || (f.payload.Refused? && (f.kind.RunArtifact? || f.kind.RunUsageSnapshot?))
  }

  /** Nothing may lose these: a run-patch, a run-complete, and a usage snapshot the host's checks accept. */
  predicate NeverLost(f: Frame) {
    f.kind.RunPatch? || f.kind.RunComplete? || (f.kind.RunUsageSnapshot? && f.payload.Plain?)
  }

  lemma AccountedIsSettled(log: History, n: nat)
    requires LogInv(log) && Accounted(log, n) && n <= |log.issued|
    ensures forall k: nat :: 1 <= k <= n ==> Settled(log, k)
  {
  }

  lemma UnheldIsSettled(w: Worker, log: History, n: nat)
    requires LogInv(log) && WorkerInv(w, log) && 1 <= n <= |log.issued|
    ensures log.issued[n - 1] in w.frames || n in log.forgotten || Settled(log, n)
  {
    if n in Nums(w.frames) {
      var f :| f in w.frames && f.num == n;
      assert Genuine(log.issued, f);
    }
  }

  /**
   * End to end: across drops, reconnects, failed writes, gaps, crashes and restarts, every frame ever
   * reported is still buffered by the worker, or settled, or was in the buffer when the worker
   * forgot the lease on being disowned or past its own deadline.
   */
  lemma NothingIsLost(steps: seq<Step>, n: nat)
    requires Possible(INITIAL, steps) && 1 <= n <= |Exec(INITIAL, steps).log.issued|
    ensures var s := Exec(INITIAL, steps); var f := s.log.issued[n - 1];
            || (s.alive && f in s.w.frames)
            || Settled(s.log, n)
            || (n in s.log.forgotten && (s.log.farewell.Disowned? || s.log.farewell.DeadlinePassed?))
  {
    ReachableInv(steps);
    EveryFrameIsSomewhere(Exec(INITIAL, steps), n);
  }

  lemma EveryFrameIsSomewhere(s: System, n: nat)
    requires Inv(s) && 1 <= n <= |s.log.issued|
    ensures (s.alive && s.log.issued[n - 1] in s.w.frames) || Settled(s.log, n)
            || (n in s.log.forgotten && (s.log.farewell.Disowned? || s.log.farewell.DeadlinePassed?))
  {
    UnheldIsSettled(s.w, s.log, n);
    if s.log.farewell.Acknowledged? { AccountedIsSettled(s.log, |s.log.issued|); }
  }

  /**
   * The worker forgets a lease only when the host acknowledged its run-complete, and then every frame
   * is settled, or when the host said it does not hold the lease, or when its own deadline passed. A
   * lease disowned because its completion went through, the ack being lost, is settled throughout too.
   */
  lemma ForgettingIsJustified(steps: seq<Step>)
    requires Possible(INITIAL, steps) && !Exec(INITIAL, steps).alive
    ensures var s := Exec(INITIAL, steps);
            && s.w.frames == []
            && (match s.log.farewell
                case Acknowledged => Completed(s.log.issued) && forall n: nat :: 1 <= n <= |s.log.issued| ==>
                    Settled(s.log, n)
                case Disowned =>
                  && LeaseLost in s.sent
                  && (s.log.finished ==> forall n: nat :: 1 <= n <= |s.log.issued| ==> Settled(s.log, n))
                case DeadlinePassed => true
                case NoFarewell => false)
  {
    ReachableInv(steps);
    var s := Exec(INITIAL, steps);
    if s.log.finished { FinishedIsSettled(s.log); }
  }

  /** Only run-events and run-artifacts are ever given up on. */
  lemma OnlyCheapFramesAreDropped(steps: seq<Step>, n: nat)
    requires Possible(INITIAL, steps) && n in Exec(INITIAL, steps).log.dropped
    ensures var log := Exec(INITIAL, steps).log;
            1 <= n <= |log.issued| && Cheap(log.issued[n - 1])
  {
    ReachableInv(steps);
  }

  /** The host stores nothing the worker did not report, under its own number. */
  lemma NothingIsInvented(steps: seq<Step>, n: nat)
    requires Possible(INITIAL, steps) && n in Exec(INITIAL, steps).log.store
    ensures var log := Exec(INITIAL, steps).log; 1 <= n <= |log.issued| && log.store[n] == log.issued[n - 1]
  {
    ReachableInv(steps);
    StoredIsIssued(Exec(INITIAL, steps).log, n);
  }

  lemma StoredIsIssued(log: History, n: nat)
    requires LogInv(log) && n in log.store
    ensures 1 <= n <= |log.issued| && log.store[n] == log.issued[n - 1]
  {
  }

  /**
   * A run-complete is acknowledged, which makes the worker throw its buffer away, only when every
   * frame of the lease is settled, the completion, the run-patches and the accepted usage snapshots
   * in the store.
   */
  lemma AcknowledgedCompletionIsComplete(steps: seq<Step>)
    requires Possible(INITIAL, steps) && RunCompleteAck in Exec(INITIAL, steps).sent
    ensures var log := Exec(INITIAL, steps).log;
            && Completed(log.issued)
            && (forall n: nat :: 1 <= n <= |log.issued| ==> Settled(log, n))
            && (forall n: nat :: 1 <= n <= |log.issued| && NeverLost(log.issued[n - 1]) ==> n in log.store)
  {
    ReachableInv(steps);
    AckedIsFinished(Exec(INITIAL, steps));
    FinishedIsSettled(Exec(INITIAL, steps).log);
  }

  lemma AckedIsFinished(s: System)
    requires NetInv(s) && RunCompleteAck in s.sent
    ensures s.log.finished
  {
  }

  lemma FinishedIsSettled(log: History)
    requires LogInv(log) && log.finished
    ensures Completed(log.issued) && forall n: nat :: 1 <= n <= |log.issued| ==> Settled(log, n)
    ensures forall n: nat :: 1 <= n <= |log.issued| && NeverLost(log.issued[n - 1]) ==> n in log.store
  {
    AccountedIsSettled(log, |log.issued|);
    forall n: nat | 1 <= n <= |log.issued| && NeverLost(log.issued[n - 1]) ensures n in log.store {
      assert Settled(log, n);
    }
  }

  /** A lease-ack covers only settled frames: a run-patch or an accepted usage snapshot it covers is in the store. */
  lemma AcknowledgedFramesAreSettled(steps: seq<Step>, acked: nat, n: nat)
    requires Possible(INITIAL, steps) && LeaseAck(acked) in Exec(INITIAL, steps).sent
    requires 1 <= n <= acked
    ensures var log := Exec(INITIAL, steps).log; Settled(log, n) && (NeverLost(log.issued[n - 1]) ==> n in log.store)
  {
    ReachableInv(steps);
    AckedIsSettled(Exec(INITIAL, steps), LeaseAck(acked));
  }

  lemma AckedIsSettled(s: System, ack: DownMsg)
    requires NetInv(s) && LogInv(s.log) && ack in s.sent && ack.LeaseAck?
    ensures forall n: nat :: 1 <= n <= ack.num ==> Settled(s.log, n)
  {
    AccountedIsSettled(s.log, ack.num);
  }

  /** Within one host life no frame is written twice, however often it arrives. */
  lemma WrittenAtMostOnce(steps: seq<Step>)
    requires Possible(INITIAL, steps)
    ensures DistinctSeq(Exec(INITIAL, steps).log.life)
  {
    ReachableInv(steps);
  }

  /** What the host's checks turn away, kind by kind: nothing of a run-patch or a run-complete. */
  predicate TurnedAway(f: Frame) {
    f.payload.Refused?
    && (f.kind.RunEvent? || f.kind.RunArtifact? || f.kind.RunMemories? || f.kind.RunUsageSnapshot?)
  }

  /**
   * How a handler may end, kind by kind, in every reachable state: refused content is settled with
   * nothing stored whatever the disk does; else a working disk stores the frame, and a failing one
   * leaves a run-event or a run-memories settled without it and rejects any other.
   */
  lemma HandlersEndAs(steps: seq<Step>)
    requires Possible(INITIAL, steps) && HandlerRuns(Exec(INITIAL, steps).h)
    ensures EndsAs(Exec(INITIAL, steps), Exec(INITIAL, steps).h.chain[0])
  {
    var s := Exec(INITIAL, steps);
    ReachableInv(steps);
    ChainIsOfOtherKinds(s.h, s.log);
    HeadEndsAs(s);
  }

  predicate EndsAs(s: System, f: Frame) {
    && (Enabled(s, WriteLands) <==> !TurnedAway(f))
    && (Enabled(s, WriteDiscarded(true)) <==> TurnedAway(f))
    && (Enabled(s, WriteDiscarded(false)) <==> TurnedAway(f) || f.kind.RunEvent? || f.kind.RunMemories?)
    && (Enabled(s, WriteFails) <==>
          !TurnedAway(f) && (f.kind.RunPatch? || f.kind.RunArtifact? || f.kind.RunUsageSnapshot?))
  }

  lemma HeadEndsAs(s: System)
    requires HandlerRuns(s.h) && !s.h.chain[0].kind.RunComplete?
    ensures EndsAs(s, s.h.chain[0])
  {
  }

  lemma ChainIsOfOtherKinds(h: Host, log: History)
    requires HostInv(h, log) && h.chain != []
    ensures !h.chain[0].kind.RunComplete?
  {
    assert h.chain[0] in h.chain;
  }

  /** The disk fails under the head's write, and whatever its handler then does is done. */
  function AfterDiskFailure(s: System): System
    requires Enabled(s, WriteFails) || Enabled(s, WriteDiscarded(false))
  {
    if Enabled(s, WriteFails) then Apply(s, WriteFails)
    else Apply(Apply(s, WriteDiscarded(false)), WriteRecorded)
  }

  /**
   * In every reachable state, a frame whose write meets a failing disk is admitted again, and so
   * retried by a resend, if and only if it is a run-patch, an artifact or a usage snapshot, not
   * refused, and no gap has passed it meanwhile.
   */
  lemma DiskFailureIsRetriedExactlyWhen(steps: seq<Step>)
    requires Possible(INITIAL, steps) && HandlerRuns(Exec(INITIAL, steps).h)
    ensures var s := Exec(INITIAL, steps); var f := s.h.chain[0];
            && (Enabled(s, WriteFails) || Enabled(s, WriteDiscarded(false)))
            && (Admits(AfterDiskFailure(s).h, f.num) <==>
                  && (f.kind.RunPatch? || (f.payload.Plain? && (f.kind.RunArtifact? || f.kind.RunUsageSnapshot?)))
                  && f.num > s.h.appliedSeq)
  {
    ReachableInv(steps);
    HandlersEndAs(steps);
    FailedHeadIsAdmitted(Exec(INITIAL, steps));
  }

  lemma FailedHeadIsAdmitted(s: System)
    requires HostInv(s.h, s.log) && HandlerRuns(s.h) && (Enabled(s, WriteFails) || Enabled(s, WriteDiscarded(false)))
    ensures Admits(AfterDiskFailure(s).h, s.h.chain[0].num) <==>
              Enabled(s, WriteFails) && s.h.chain[0].num > s.h.appliedSeq
  {
    if Enabled(s, WriteFails) {
      RejectedIsAdmitted(s.h, s.log);
    } else {
      RecordedIsNotAdmitted(WriteLanded(s.h));
    }
  }

  lemma RejectedIsAdmitted(h: Host, log: History)
    requires HostInv(h, log) && h.chain != []
    ensures Admits(WriteFailed(h), h.chain[0].num) <==> h.chain[0].num > h.appliedSeq
  {
    assert h.chain[0] in h.chain;
  }

  lemma RecordedIsNotAdmitted(h: Host)
    requires h.chain != []
    ensures !Admits(RecordHead(h), h.chain[0].num)
  {
    var n := h.chain[0].num;
    PulledIsTheContiguousPrefix(h.appliedSeq, h.appliedAhead + {n});
  }

  /**
   * The watermark: everything at or below it is stored, discarded or covered by an accepted
   * lease-gap, it stops only at a number that is missing, and what is applied ahead of it is above
   * it, stored or discarded, and not being written.
   */
  lemma WatermarkIsSound(steps: seq<Step>)
    requires Possible(INITIAL, steps)
    ensures var s := Exec(INITIAL, steps);
            && (forall n: nat :: 1 <= n <= s.h.appliedSeq ==>
                Settled(s.log, n) && (n in s.log.store || n in s.log.discarded || n <= s.log.gapped))
            && s.h.appliedSeq + 1 !in s.h.appliedAhead
            && (forall n :: n in s.h.appliedAhead ==>
                  n > s.h.appliedSeq && (n in s.log.store || n in s.log.discarded) && n !in s.h.inFlight)
            && s.disk <= s.h.appliedSeq
  {
    ReachableInv(steps);
    var s := Exec(INITIAL, steps);
    WatermarkAccounted(s);
    AccountedIsSettled(s.log, s.h.appliedSeq);
    WatermarkFacts(s.h, s.log);
  }

  lemma WatermarkFacts(h: Host, log: History)
    requires WatermarkInv(h, log)
    ensures forall n :: 1 <= n <= h.appliedSeq ==> n in log.store || n in log.discarded || n <= log.gapped
    ensures forall n :: n in h.appliedAhead ==>
              n > h.appliedSeq && (n in log.store || n in log.discarded) && n !in h.inFlight
  {
  }

  /**
   * Gap soundness: an announced gap, wherever it is, lies below every frame still held, and each
   * number it covers was acknowledged or is a cheap frame the cap dropped. Frames are held in order.
   */
  lemma AnnouncedGapsAreSound(steps: seq<Step>, gap: UpMsg)
    requires Possible(INITIAL, steps) && gap.LeaseGap?
    requires var s := Exec(INITIAL, steps); gap in s.w.wire || gap in s.w.queue || gap in s.stale
    ensures var s := Exec(INITIAL, steps);
            && Ascending(s.w.frames)
            && (forall f :: f in s.w.frames ==> gap.throughSeq < f.num)
            && (forall n: nat :: 1 <= n <= gap.throughSeq ==> GivenUp(s.log, n))
  {
    ReachableInv(steps);
    var s := Exec(INITIAL, steps);
    assert GoodMessage(s.log, s.w.gapThrough, gap);
    forall n: nat | 1 <= n <= gap.throughSeq ensures GivenUp(s.log, n) {
      GapCoversOnlyGone(s.w, s.log, n);
    }
  }

  /** The worker was told it may forget the frame, or the cap dropped it, a cheap one. */
  ghost predicate GivenUp(log: History, n: nat) {
    n <= |log.issued| && (n <= log.trimmed || (1 <= n && n in log.dropped && Cheap(log.issued[n - 1])))
  }

  lemma GapCoversOnlyGone(w: Worker, log: History, n: nat)
    requires LogInv(log) && WorkerInv(w, log) && 1 <= n <= w.gapThrough
    ensures GivenUp(log, n)
  {
    assert forall f :: f in w.frames ==> f.num != n;
    assert n !in Nums(w.frames);
  }

  /**
   * No completion is left behind, and none is taken early: a parked completion has a frame missing
   * below it, and one being applied has every frame below it settled.
   */
  lemma CompletionWaitsExactlyForTheHole(steps: seq<Step>)
    requires Possible(INITIAL, steps)
    ensures var s := Exec(INITIAL, steps);
            && (s.h.completion.Parked? ==> s.h.appliedSeq < s.h.completion.frame.num - 1)
            && (s.h.completion.Writing? || s.h.completion.Landed? ==>
                  forall n: nat :: 1 <= n < s.h.completion.frame.num ==> Settled(s.log, n))
  {
    ReachableInv(steps);
    var s := Exec(INITIAL, steps);
    WatermarkAccounted(s);
    AccountedIsSettled(s.log, s.h.appliedSeq);
  }

  // ---------------------------------------------------------------- a healthy disk

  predicate DiskNeverFails(steps: seq<Step>) {
    forall i :: 0 <= i < |steps| ==> steps[i] != WriteDiscarded(false)
  }

  ghost predicate OnlyRefusedDiscarded(log: History) {
    forall n :: n in log.discarded ==> 1 <= n <= |log.issued| && Refuses(log.issued[n - 1])
  }

  lemma StepDiscardsOnlyRefused(s: System, step: Step)
    requires Inv(s) && OnlyRefusedDiscarded(s.log) && Enabled(s, step) && step != WriteDiscarded(false)
    ensures OnlyRefusedDiscarded(Apply(s, step).log)
  {
    if step.WriteDiscarded? {
      assert s.h.chain[0] in s.h.chain;
    } else {
      OtherStepsDiscardNothing(s, step);
    }
  }

  lemma OtherStepsDiscardNothing(s: System, step: Step)
    requires Enabled(s, step) && !step.WriteDiscarded?
    ensures Apply(s, step).log.discarded == s.log.discarded && s.log.issued <= Apply(s, step).log.issued
  {
  }

  lemma {:induction false} RunDiscardsOnlyRefused(s: System, steps: seq<Step>)
    requires Inv(s) && OnlyRefusedDiscarded(s.log) && Possible(s, steps) && DiskNeverFails(steps)
    ensures OnlyRefusedDiscarded(Exec(s, steps).log)
    decreases |steps|
  {
    if steps != [] {
      assert steps[0] != WriteDiscarded(false);
      StepKeepsInv(s, steps[0]);
      StepDiscardsOnlyRefused(s, steps[0]);
      assert DiskNeverFails(steps[1..]);
      RunDiscardsOnlyRefused(Apply(s, steps[0]), steps[1..]);
    }
  }

  /**
   * While no swallowed write fails, an acknowledged frame that may not be dropped and was not refused
   * is in the store.
   */
  lemma HealthyDiskStoresWhatIsAcknowledged(steps: seq<Step>, acked: nat, n: nat)
    requires Possible(INITIAL, steps) && DiskNeverFails(steps) && LeaseAck(acked) in Exec(INITIAL, steps).sent
    requires 1 <= n <= acked
    ensures var log := Exec(INITIAL, steps).log;
            && n <= |log.issued|
            && (NeverLost(log.issued[n - 1]) ==> n in log.store)
            && (log.issued[n - 1].kind.RunMemories? && log.issued[n - 1].payload.Plain? ==> n in log.store)
  {
    InitialInv();
    RunDiscardsOnlyRefused(INITIAL, steps);
    AcknowledgedFramesAreSettled(steps, acked, n);
  }
}
