/**
 * The bound the cap keeps over every run, what a drop announces, and a concrete run that leaves a
 * lease out of reach.
 */
module LeaseExamples {
  import opened LeaseTypes
  import opened WorkerModel
  import opened HostModel
  import opened LeaseSystem
  import opened LeaseInvariant
  import opened LeaseSafety
  import opened LeaseCatchUp
  import opened LeaseOneFrame

  lemma ReportIsBounded(w: Worker, kind: Kind, payload: Content)
    requires Ascending(w.frames + [Frame(w.lastSeq + 1, kind, payload)])
    ensures Bounded(SendReporting(w, kind, payload))
  {
    var f := Frame(w.lastSeq + 1, kind, payload);
    var w1 := w.(lastSeq := f.num, frames := w.frames + [f]);
    CapIsBounded(w1);
    FlushKeepsBounded(CapLeaseBuffer(w1));
  }

  lemma CapIsBounded(w: Worker)
    requires Ascending(w.frames)
    ensures Bounded(CapLeaseBuffer(w))
  {
    CapKeepsAllButCheapFrames(w.frames);
    assert CapLeaseBuffer(w).frames == Capped(w.frames);
  }

  lemma FlushKeepsBounded(w: Worker)
    requires Bounded(w)
    ensures Bounded(FlushLease(w))
  {
  }

  lemma StepKeepsBound(s: System, step: Step)
    requires Inv(s) && Bounded(s.w) && Enabled(s, step)
    ensures Bounded(Apply(s, step).w)
  {
    match step
    case DoReport(kind, payload) =>
      AppendKeepsOrder(s.w, s.log, Frame(s.w.lastSeq + 1, kind, payload));
      ReportIsBounded(s.w, kind, payload);
    case DeliverDown(m) => if m.LeaseAck? { AboveFacts(s.w.frames, m.num); }
    case _ =>
  }

  lemma {:induction false} StaysBounded(s: System, steps: seq<Step>)
    requires Inv(s) && Bounded(s.w) && Possible(s, steps)
    ensures Bounded(Exec(s, steps).w)
    decreases |steps|
  {
    if steps != [] {
      StepKeepsInv(s, steps[0]);
      StepKeepsBound(s, steps[0]);
      StaysBounded(Apply(s, steps[0]), steps[1..]);
    }
  }

  /** In every reachable state the buffer is within its limit or holds nothing that may be dropped. */
  lemma BufferIsBounded(steps: seq<Step>)
    requires Possible(INITIAL, steps)
    ensures var frames := Exec(INITIAL, steps).w.frames;
            |frames| <= 2000 || forall f :: f in frames ==> !f.kind.RunEvent? && !f.kind.RunArtifact?
  {
    InitialInv();
    StaysBounded(INITIAL, steps);
  }

  /** A report that made the cap drop something restates the gap up to the oldest frame still held. */
  lemma DropRestatesGap(w: Worker, kind: Kind, payload: Content)
    requires Ascending(w.frames + [Frame(w.lastSeq + 1, kind, payload)])
    requires |SendReporting(w, kind, payload).frames| <= |w.frames|
    ensures var w' := SendReporting(w, kind, payload);
            w'.gapThrough == Max(w.gapThrough, BelowOldest(w'.frames, w'.lastSeq))
  {
    var f := Frame(w.lastSeq + 1, kind, payload);
    var w1 := w.(lastSeq := f.num, frames := w.frames + [f]);
    CapKeepsAllButCheapFrames(w1.frames);
    assert CapLeaseBuffer(w1).frames == Capped(w1.frames);
  }

  /** A drop announces exactly the lost numbers below the oldest frame still held; those above it stay unannounced. */
  lemma DropAnnouncesWhatIsBelowTheOldest(s: System, kind: Kind, payload: Content, n: nat)
    requires Inv(s) && Enabled(s, DoReport(kind, payload))
    requires |WorkerReports(s, kind, payload).w.frames| <= |s.w.frames|
    requires n in WorkerReports(s, kind, payload).log.dropped
    ensures var w := WorkerReports(s, kind, payload).w;
            n <= w.gapThrough <==> (w.frames == [] || n < w.frames[0].num)
  {
    ReportKeepsInv(s, kind, payload);
    AppendKeepsOrder(s.w, s.log, Frame(s.w.lastSeq + 1, kind, payload));
    DropRestatesGap(s.w, kind, payload);
    OldestIsAboveTheGap(WorkerReports(s, kind, payload), n);
  }

  lemma OldestIsAboveTheGap(s: System, n: nat)
    requires LogInv(s.log) && WorkerInv(s.w, s.log) && n in s.log.dropped
    requires s.w.gapThrough >= BelowOldest(s.w.frames, s.w.lastSeq)
    ensures n <= s.w.gapThrough <==> (s.w.frames == [] || n < s.w.frames[0].num)
  {
    if s.w.frames != [] {
      assert s.w.frames[0] in s.w.frames;
    }
  }

  /** While the worker waits to hear where the host got to, a report puts no frame on the wire. */
  lemma NothingIsSentPastTheGap(w: Worker, kind: Kind, payload: Content)
    requires w.awaitingAck && Ascending(w.frames + [Frame(w.lastSeq + 1, kind, payload)])
    requires forall m :: m in w.queue ==> m.LeaseGap?
    ensures forall f :: Report(f) in SendReporting(w, kind, payload).wire ==> Report(f) in w.wire
  {
    CapFacts(w.(lastSeq := w.lastSeq + 1, frames := w.frames + [Frame(w.lastSeq + 1, kind, payload)]));
  }

  /** A report that made the cap drop something announces the gap: on a registered socket at once, else at its next. */
  lemma DropIsAnnounced(w: Worker, kind: Kind, payload: Content)
    requires Ascending(w.frames + [Frame(w.lastSeq + 1, kind, payload)])
    requires |SendReporting(w, kind, payload).frames| <= |w.frames|
    ensures var w' := SendReporting(w, kind, payload);
            w'.gapThrough > 0 ==>
              if w.registered then LeaseGap(w'.gapThrough, w'.droppedSinceGap) in w'.wire[|w.wire|..]
              else LeaseGap(w'.gapThrough, w'.droppedSinceGap) in w'.queue
  {
    var f := Frame(w.lastSeq + 1, kind, payload);
    var w1 := w.(lastSeq := f.num, frames := w.frames + [f]);
    CapAnnounces(w1);
    FlushOnlyAppends(CapLeaseBuffer(w1), |w.wire|);
  }

  lemma CapAnnounces(w: Worker)
    requires Ascending(w.frames) && |CapLeaseBuffer(w).frames| < |w.frames|
    ensures var w' := CapLeaseBuffer(w); var gap := LeaseGap(w'.gapThrough, w'.droppedSinceGap);
            && |w'.wire| >= |w.wire|
            && (w'.gapThrough > 0 ==> if w.registered then gap in w'.wire[|w.wire|..] else gap in w'.queue)
  {
    var w' := CapLeaseBuffer(w);
    var gap := LeaseGap(w'.gapThrough, w'.droppedSinceGap);
    if w'.gapThrough > 0 && w.registered {
      assert w'.wire == w.wire + (w.queue + [gap]);
      assert w'.wire[|w.wire|..] == w.queue + [gap];
    }
  }

  lemma FlushOnlyAppends(w: Worker, k: nat)
    requires k <= |w.wire|
    ensures var w' := FlushLease(w);
            && w'.frames == w.frames && w'.queue == w.queue && w'.gapThrough == w.gapThrough
            && w'.droppedSinceGap == w.droppedSinceGap && |w'.wire| >= |w.wire|
            && forall m :: m in w.wire[k..] ==> m in w'.wire[k..]
  {
    var w' := FlushLease(w);
    assert w'.wire[k..] == w.wire[k..] + w'.wire[|w.wire|..];
  }

  // ---------------------------------------------------------------- a crash behind the debounce

  const COMPLETE: Frame := Frame(2, RunComplete, PLAIN)

  /** The worker, knowing nothing of the crash, reports its run-complete. */
  lemma CompletionIsReported(w: Worker)
    requires w == Trimmed(RunPatch)
    ensures var w' := SendReporting(w, RunComplete, PLAIN);
            w'.frames == [COMPLETE] && w'.gapThrough == 0
                && w'.wire == [Report(Lone(RunPatch)), Report(COMPLETE)] && w'.lastSeq == 2
  {
    var w1 := w.(lastSeq := 2, frames := [COMPLETE]);
    assert [] + [COMPLETE] == [COMPLETE];
    assert CapLeaseBuffer(w1) == w1;
    CompletionGoesOut(w1);
  }

  lemma CompletionGoesOut(w1: Worker)
    requires w1.frames == [COMPLETE] && w1.delivered == {1} && w1.registered && !w1.awaitingAck
    ensures FlushLease(w1).wire == w1.wire + [Report(COMPLETE)] && FlushLease(w1).frames == w1.frames
    ensures FlushLease(w1).gapThrough == w1.gapThrough && FlushLease(w1).lastSeq == w1.lastSeq
  {
    assert Undelivered([COMPLETE], {1}) == [COMPLETE] + Undelivered([COMPLETE][1..], {1, 2});
    assert Reports([COMPLETE]) == [Report(COMPLETE)];
  }

  lemma TrimmedFrameIsOutOfReach(s: System)
    requires s.h == Installed(true, 0) && s.taken == 1 && s.stale == {}
    requires s.w.frames == [COMPLETE] && s.w.gapThrough == 0
    requires s.w.wire == [Report(Lone(RunPatch)), Report(COMPLETE)] && s.w.lastSeq == 2
    ensures Hole(s, 1)
  {
    assert Pending(s) == [Report(COMPLETE)];
  }

  lemma CrashedRun() returns (steps: seq<Step>, s: System)
    ensures Possible(INITIAL, steps) && s == Exec(INITIAL, steps)
    ensures s.w == Trimmed(RunPatch) && s.alive && s.taken == 1 && s.stale == {} && s.h == Installed(true, 0)
    ensures 1 in s.log.store && s.log.issued == [Lone(RunPatch)]
  {
    var s0;
    steps, s0 := AckedRun(RunPatch, WriteLands);
    ExecThen(INITIAL, steps, HostRestarts(true));
    steps := steps + [HostRestarts(true)];
    s := Apply(s0, HostRestarts(true));
  }

  lemma StrandedRun() returns (steps: seq<Step>, s: System)
    ensures Possible(INITIAL, steps) && s == Exec(INITIAL, steps)
    ensures s.alive && s.h == Installed(true, 0) && s.taken == 1 && s.stale == {}
    ensures s.w.frames == [COMPLETE] && s.w.gapThrough == 0
    ensures s.w.wire == [Report(Lone(RunPatch)), Report(COMPLETE)] && s.w.lastSeq == 2
    ensures Completed(s.log.issued) && 1 in s.log.store
  {
    var s0;
    steps, s0 := CrashedRun();
    CompletionIsReported(s0.w);
    ExecThen(INITIAL, steps, DoReport(RunComplete, PLAIN));
    steps := steps + [DoReport(RunComplete, PLAIN)];
    s := Apply(s0, DoReport(RunComplete, PLAIN));
  }

  /**
   * The acknowledged watermark was still behind the debounce when the host crashed: the worker has
   * trimmed frame 1 and reported its run-complete, and the restored host waits for frame 1 through
   * every run from there. (The frame itself is in the run store; see `NothingIsLost`.)
   */
  lemma CrashBehindDebounceStrandsTheLease() returns (steps: seq<Step>)
    ensures Possible(INITIAL, steps)
    ensures var s := Exec(INITIAL, steps);
            && s.alive && s.h.held && Completed(s.log.issued) && 1 in s.log.store
            && forall more :: Possible(s, more) ==> Exec(s, more).h.appliedSeq < 1
  {
    var s;
    steps, s := StrandedRun();
    TrimmedFrameIsOutOfReach(s);
    ReachableInv(steps);
    forall more | Possible(s, more) ensures Exec(s, more).h.appliedSeq < 1 {
      HoleBlocksEveryRun(s, more, 1);
    }
  }
}
