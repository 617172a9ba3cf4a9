/** What the host answers and when, what a failed or parked completion comes to, and what a dropped socket leaves. */
module LeaseAnswers {
  import opened LeaseTypes
  import opened WorkerModel
  import opened HostModel
  import opened LeaseSystem
  import opened LeaseInvariant
  import opened LeaseSafety

  /** What a step adds to the host's answers. */
  function Answer(s: System, step: Step): set<DownMsg> {
    match step
    case HostAcks => {LeaseAck(s.h.appliedSeq)}
    case HostDisowns => {LeaseLost}
    case CompletionFinishes(live) => if live then {RunCompleteAck} else {}
    case _ => {}
  }

  /**
   * The host tells its watermark while it holds the lease, disowns the lease only while it does not,
   * and acknowledges a completion exactly when it finishes one with the worker connected; the lease is
   * then released. It never takes an answer back.
   */
  lemma AnswersAre(s: System, step: Step)
    requires Enabled(s, step)
    ensures Apply(s, step).sent == s.sent + Answer(s, step)
    ensures step.HostAcks? ==> s.h.held
    ensures step.HostDisowns? ==> !s.h.held
    ensures step.CompletionFinishes? ==> !Apply(s, step).h.held && Apply(s, step).h.completion.NoCompletion?
  {
  }

  /**
   * In every reachable state a completion whose write fails leaves no trace: its resend is admitted,
   * and while the lease is held taken up anew.
   */
  lemma FailedCompletionIsRetried(steps: seq<Step>)
    requires Possible(INITIAL, steps) && Enabled(Exec(INITIAL, steps), CompletionFails)
    ensures var s := Exec(INITIAL, steps); var t := Apply(s, CompletionFails); var f := s.h.completion.frame;
            && t.h.completion.NoCompletion? && Admits(t.h, f.num)
            && (t.h.held ==> Deliver(t.h, f).completion == Draining(f))
  {
    ReachableInv(steps);
    FailedCompletionIsAdmitted(Exec(INITIAL, steps).h, Exec(INITIAL, steps).log);
  }

  lemma FailedCompletionIsAdmitted(h: Host, log: History)
    requires LogInv(log) && HostInv(h, log) && h.completion.Writing?
    ensures Admits(CompletionFailed(h), h.completion.frame.num) && h.completion.frame.kind.RunComplete?
  {
    RunCompleteIsLast(log, h.completion.frame);
  }

  /** An expiry takes a parked completion with it, which then waits for a resend, and no other. */
  lemma ExpiryTakesOnlyTheParked(s: System)
    requires Enabled(s, LeaseExpires)
    ensures var t := Apply(s, LeaseExpires);
            && !t.h.held && t.h.appliedSeq == s.h.appliedSeq && t.h.chain == s.h.chain
            && t.h.completion == if s.h.completion.Parked? then NoCompletion else s.h.completion
  {
  }

  /** What a dropped socket still held may all surface later, and then again. */
  lemma StraysMaySurface(s: System, m: UpMsg)
    requires m in Pending(s) || m in s.stale
    ensures var t := Apply(s, SocketClosed);
            && Pending(t) == [] && Enabled(t, DeliverStale(m)) && Enabled(Apply(t, DeliverStale(m)), DeliverStale(m))
  {
  }

  /** A restarted host takes the lease up at the watermark the file has, with nothing in flight. */
  lemma RestartResumesFromTheFile(s: System, n: nat, restored: bool)
    requires Enabled(s, WatermarkPersisted(n))
    ensures var t := Apply(Apply(s, WatermarkPersisted(n)), HostRestarts(restored));
            && t.h.held == restored && t.h.appliedSeq == n && t.h.appliedAhead == t.h.inFlight == {}
            && t.h.chain == [] && t.h.completion.NoCompletion?
  {
  }

  // ---------------------------------------------------------------- a forgotten lease

  /** The completion's ack, the host disowning the lease, and the deadline each make the worker forget it. */
  predicate Forgets(step: Step) {
    step.WorkerForgets? || step == DeliverDown(RunCompleteAck) || step == DeliverDown(LeaseLost)
  }

  lemma SendsNoReport(w: Worker)
    requires w.frames == [] && forall m :: m in w.queue ==> m.LeaseGap?
    ensures forall m :: m in FlushLease(w).wire && m.Report? ==> m in w.wire
    ensures forall m :: m in FlushQueue(w).wire && m.Report? ==> m in w.wire
  {
  }

  lemma ForgottenStaysSilent(s: System, step: Step)
    requires Inv(s) && !s.alive && Enabled(s, step)
    ensures !Apply(s, step).alive
    ensures forall m :: m in Apply(s, step).w.wire && m.Report? ==> m in s.w.wire
  {
    SendsNoReport(s.w.(awaitingAck := false));
    SendsNoReport(s.w.(registered := true));
  }

  lemma {:induction false} StaysSilent(s: System, steps: seq<Step>)
    requires Inv(s) && !s.alive && Possible(s, steps)
    ensures !Exec(s, steps).alive
    ensures forall m :: m in Exec(s, steps).w.wire && m.Report? ==> m in s.w.wire
    decreases |steps|
  {
    if steps != [] {
      StepKeepsInv(s, steps[0]);
      ForgottenStaysSilent(s, steps[0]);
      StaysSilent(Apply(s, steps[0]), steps[1..]);
    }
  }

  /**
   * Once the worker forgets a lease its buffer is gone, and in no run does it send a frame of it again,
   * on that socket or any other.
   */
  lemma ForgottenLeaseSendsNothing(steps: seq<Step>, step: Step, after: seq<Step>)
    requires Possible(INITIAL, steps) && Enabled(Exec(INITIAL, steps), step) && Forgets(step)
    requires Possible(Apply(Exec(INITIAL, steps), step), after)
    ensures var t := Apply(Exec(INITIAL, steps), step);
            && !t.alive && t.w.frames == []
            && forall m :: m in Exec(t, after).w.wire && m.Report? ==> m in t.w.wire
  {
    ReachableInv(steps);
    var s := Exec(INITIAL, steps);
    ForgetsAtOnce(s, step);
    StepKeepsInv(s, step);
    StaysSilent(Apply(s, step), after);
  }

  lemma ForgetsAtOnce(s: System, step: Step)
    requires Enabled(s, step) && Forgets(step)
    ensures !Apply(s, step).alive && Apply(s, step).w.frames == []
  {
  }

  // ---------------------------------------------------------------- dropped frames and the socket

  /** No dropped frame counts as handed to the socket, nor any not numbered yet. */
  ghost predicate DroppedForgotten(s: System) {
    forall n :: n in s.w.delivered ==> n !in s.log.dropped && n <= s.w.lastSeq
  }

  lemma FlushKeepsForgotten(w: Worker, log: History)
    requires forall n :: n in log.dropped ==> n !in Nums(w.frames)
    requires forall f :: f in w.frames ==> f.num <= w.lastSeq
    requires forall n :: n in w.delivered ==> n !in log.dropped && n <= w.lastSeq
    ensures forall n :: n in FlushLease(w).delivered ==> n !in log.dropped && n <= w.lastSeq
  {
  }

  lemma CapForgets(w: Worker)
    requires Ascending(w.frames)
    ensures var w' := CapLeaseBuffer(w);
            && w'.lastSeq == w.lastSeq && (forall f :: f in w'.frames ==> f in w.frames)
            && w'.delivered == w.delivered - (Nums(w.frames) - Nums(w'.frames))
  {
    CapKeepsAllButCheapFrames(w.frames);
  }

  lemma ReportForgets(s: System, kind: Kind, payload: Content)
    requires Inv(s) && DroppedForgotten(s) && Enabled(s, DoReport(kind, payload))
    ensures DroppedForgotten(WorkerReports(s, kind, payload))
  {
    var f := Frame(s.w.lastSeq + 1, kind, payload);
    var w1 := s.w.(lastSeq := f.num, frames := s.w.frames + [f]);
    AppendKeepsOrder(s.w, s.log, f);
    CapForgets(w1);
    ReportKeepsInv(s, kind, payload);
    var t := WorkerReports(s, kind, payload);
    DroppingForgets(s, w1, CapLeaseBuffer(w1), t.log);
    HeldIsNotDropped(t.w, t.log);
    FlushKeepsForgotten(CapLeaseBuffer(w1), t.log);
  }

  lemma DroppingForgets(s: System, w1: Worker, w2: Worker, log: History)
    requires DroppedForgotten(s) && w1.delivered == s.w.delivered && w2.lastSeq > s.w.lastSeq
    requires w2.delivered == w1.delivered - (Nums(w1.frames) - Nums(w2.frames))
    requires log.dropped == s.log.dropped + (Nums(w1.frames) - Nums(w2.frames))
    ensures forall n :: n in w2.delivered ==> n !in log.dropped && n <= w2.lastSeq
  {
  }

  lemma HeldIsNotDropped(w: Worker, log: History)
    requires WorkerInv(w, log)
    ensures forall n :: n in log.dropped ==> n !in Nums(w.frames)
    ensures forall f :: f in w.frames ==> f.num <= w.lastSeq
  {
  }

  lemma AckForgets(s: System, n: nat)
    requires Inv(s) && DroppedForgotten(s) && Enabled(s, DeliverDown(LeaseAck(n)))
    ensures DroppedForgotten(WorkerReceives(s, LeaseAck(n)))
  {
    AboveFacts(s.w.frames, n);
    AckKeepsInv(s, n);
    var kept := Above(s.w.frames, n);
    FlushKeepsForgotten(s.w.(frames := kept,
                             delivered := if n == s.w.lastAckedSeq then s.w.delivered - Nums(kept) else s.w.delivered,
                             lastAckedSeq := n, awaitingAck := false), s.log);
  }

  lemma StepForgets(s: System, step: Step)
    requires Inv(s) && DroppedForgotten(s) && Enabled(s, step)
    ensures DroppedForgotten(Apply(s, step))
  {
    match step
    case DoReport(kind, payload) => ReportForgets(s, kind, payload);
    case DeliverDown(m) => if m.LeaseAck? { AckForgets(s, m.num); }
    case BackstopFired => FlushKeepsForgotten(s.w.(awaitingAck := false), s.log);
    case _ =>
  }

  lemma {:induction false} RunForgets(s: System, steps: seq<Step>)
    requires Inv(s) && DroppedForgotten(s) && Possible(s, steps)
    ensures DroppedForgotten(Exec(s, steps))
    decreases |steps|
  {
    if steps != [] {
      StepKeepsInv(s, steps[0]);
      StepForgets(s, steps[0]);
      RunForgets(Apply(s, steps[0]), steps[1..]);
    }
  }

  /** In every reachable state the frames counted as handed to the socket are numbered ones the cap has not dropped. */
  lemma DroppedFramesAreNotDelivered(steps: seq<Step>, n: nat)
    requires Possible(INITIAL, steps) && n in Exec(INITIAL, steps).w.delivered
    ensures n <= Exec(INITIAL, steps).w.lastSeq && n !in Exec(INITIAL, steps).log.dropped
  {
    InitialInv();
    RunForgets(INITIAL, steps);
  }
}
