/** The invariant of one lease, and that every step of the protocol keeps it. */
module LeaseInvariant {
  import opened LeaseTypes
  import opened WorkerModel
  import opened HostModel
  import opened LeaseSystem

  /**
   * Everything up to `n` has reached the run store, was discarded by the host, or was a cheap frame
   * the cap gave up on.
   */
  ghost predicate Accounted(log: History, n: nat) {
    forall k :: 1 <= k <= n ==> k in log.store || k in log.discarded || k in log.dropped
  }

  /**
   * The log itself: frames numbered from 1, run-complete last, only issued frames stored, only frames
   * without a sure write discarded, only cheap frames dropped.
   */
  ghost predicate LogInv(log: History) {
    && (forall i :: 0 <= i < |log.issued| ==> log.issued[i].num == i + 1)
    && (forall i :: 0 <= i < |log.issued| - 1 ==> !log.issued[i].kind.RunComplete?)
    && (forall n :: n in log.store ==> log.store[n].num == n && Genuine(log.issued, log.store[n]))
    && (forall n :: n in log.dropped ==> 1 <= n <= |log.issued| && Droppable(log.issued[n - 1].kind))
    && (forall n :: n in log.discarded ==> 1 <= n <= |log.issued| && Discardable(log.issued[n - 1]))
    && (log.finished ==> Completed(log.issued) && Accounted(log, |log.issued|))
  }

  ghost predicate GoodMessage(log: History, gapThrough: nat, m: UpMsg) {
    match m
    case Report(f) => Genuine(log.issued, f)
    case LeaseGap(through, _) => through <= gapThrough
  }

  /** A watermark is below the run-complete, if there is one. */
  predicate BelowCompletion(log: History, n: nat) {
    Completed(log.issued) ==> n < |log.issued|
  }

  /** Or the run-complete is settled, and then a watermark may stand at it. */
  predicate NotBeyond(log: History, n: nat) {
    BelowCompletion(log, n) || log.finished
  }

  /**
   * The buffer: every number is trimmed, held, forgotten or dropped; frames are held in order, above both the
   * trimmed watermark and the announced gap.
   */
  ghost predicate WorkerInv(w: Worker, log: History) {
    && w.lastSeq == |log.issued|
    && Ascending(w.frames)
    && (forall f :: f in w.frames ==> Genuine(log.issued, f) && f.num > log.trimmed && f.num > w.gapThrough)
    && (forall n :: 1 <= n <= w.lastSeq ==>
        n <= log.trimmed || n in Nums(w.frames) || n in log.forgotten || n in log.dropped)
    && (forall n :: n in log.dropped ==> n !in Nums(w.frames))
    && (forall n :: n in log.forgotten ==> 1 <= n <= w.lastSeq && n > w.gapThrough)
    && log.trimmed <= w.lastSeq && Accounted(log, log.trimmed) && NotBeyond(log, log.trimmed)
    && w.gapThrough <= w.lastSeq && BelowCompletion(log, w.gapThrough)
    && log.gapped <= w.gapThrough
    && (forall m :: m in w.queue ==> m.LeaseGap? && m.throughSeq <= w.gapThrough)
    && (forall m :: m in w.wire ==> GoodMessage(log, w.gapThrough, m))
  }

  ghost predicate NetInv(s: System) {
    && s.taken <= |s.w.wire|
    && (forall m :: m in s.stale ==> GoodMessage(s.log, s.w.gapThrough, m))
    && (forall m :: m in s.sent && m.LeaseAck? ==>
          m.num <= |s.log.issued| && Accounted(s.log, m.num) && NotBeyond(s.log, m.num))
    && (RunCompleteAck in s.sent ==> s.log.finished)
  }

  /**
   * The watermark: everything at or below it is stored, discarded or covered by an accepted lease-gap,
   * and it is maximal.
   */
  ghost predicate WatermarkInv(h: Host, log: History) {
    && h.appliedSeq <= |log.issued|
    && (forall n :: 1 <= n <= h.appliedSeq ==> n in log.store || n in log.discarded || n <= log.gapped)
    && (forall n :: n in h.appliedAhead ==>
        n > h.appliedSeq && (n in log.store || n in log.discarded) && BelowCompletion(log, n))
    && h.appliedSeq + 1 !in h.appliedAhead
    && h.appliedAhead !! h.inFlight
    && (!BelowCompletion(log, h.appliedSeq) ==> log.finished && (h.held ==> log.overdue))
  }

  /** The write chain and the completion: exactly the frames in flight, each once. */
  ghost predicate ChainInv(h: Host, log: History) {
    && (forall f :: f in h.chain ==> Genuine(log.issued, f) && !f.kind.RunComplete?)
    && DistinctNums(h.chain)
    && Nums(h.chain) + CompletionNums(h.completion) <= h.inFlight
    && (h.held ==> h.inFlight == Nums(h.chain) + CompletionNums(h.completion))
    && (!h.completion.NoCompletion? ==>
          && Genuine(log.issued, h.completion.frame) && h.completion.frame.kind.RunComplete?
          && BelowCompletion(log, h.appliedSeq))
    && (h.headLanded ==> h.chain != [] && (h.chain[0].num in log.store || h.chain[0].num in log.discarded))
    && (h.completion.Parked? ==> !ContiguousBelow(h, h.completion.frame.num))
    && (h.completion.Writing? || h.completion.Landed? ==> ContiguousBelow(h, h.completion.frame.num))
    && (h.completion.Landed? ==> h.completion.frame.num in log.store)
  }

  predicate DistinctSeq(ns: seq<nat>) {
    forall i, j :: 0 <= i < j < |ns| ==> ns[i] != ns[j]
  }

  /** Numbers admitted whose write has not reached the store yet. */
  function Unwritten(h: Host): set<nat> {
    (if h.headLanded && h.chain != [] then Nums(h.chain[1..]) else Nums(h.chain))
    + (if h.completion.Landed? then {} else CompletionNums(h.completion))
  }

  /** At most once: a number written in this life is never admitted or written again in it. */
  ghost predicate LifeInv(h: Host, log: History) {
    && DistinctSeq(log.life)
    && (forall n :: n in log.life ==>
          (n in log.store || n in log.discarded)
              && (n <= h.appliedSeq || n in h.appliedAhead || n in h.inFlight) && n !in Unwritten(h))
  }

  ghost predicate HostInv(h: Host, log: History) {
    WatermarkInv(h, log) && ChainInv(h, log) && LifeInv(h, log)
  }

  /** The worker forgets a lease once, for a reason the host gave it or its own deadline. */
  ghost predicate FarewellInv(s: System) {
    && (s.alive <==> s.log.farewell.NoFarewell?)
    && (s.log.farewell.Acknowledged? ==> RunCompleteAck in s.sent)
    && (s.log.farewell.Disowned? ==> LeaseLost in s.sent)
    && (if s.alive then s.log.forgotten == {} else s.w.frames == [])
  }

  ghost predicate Inv(s: System) {
    && FarewellInv(s)
    && LogInv(s.log)
    && WorkerInv(s.w, s.log)
    && NetInv(s)
    && HostInv(s.h, s.log)
    && s.disk <= s.h.appliedSeq && (!BelowCompletion(s.log, s.disk) ==> s.log.finished && s.log.overdue)
    && (forall n :: 1 <= n <= s.disk ==> n in s.log.store || n in s.log.discarded || n <= s.log.gapped)
  }

  lemma InitialInv()
    ensures Inv(INITIAL)
  {
    assert Nums([]) == {};
  }

  /** A gap the worker announced covers only accounted frames, so a skipped watermark is still sound. */
  lemma GapAccounted(s: System)
    requires LogInv(s.log) && WorkerInv(s.w, s.log)
    ensures Accounted(s.log, s.w.gapThrough)
  {
  }

  lemma WatermarkAccounted(s: System)
    requires Inv(s)
    ensures Accounted(s.log, s.h.appliedSeq) && Accounted(s.log, s.disk)
  {
    GapAccounted(s);
  }

  // ---------------------------------------------------------------- worker steps

  /** A worker step that only sends: same frames, same gap, and everything new on the wire is good. */
  ghost predicate OnlySends(w: Worker, w': Worker, log: History) {
    && w'.lastSeq == w.lastSeq && w'.frames == w.frames && w'.gapThrough == w.gapThrough
    && (forall m :: m in w'.queue ==> m in w.queue || (m.LeaseGap? && m.throughSeq <= w.gapThrough))
    && (forall m :: m in w'.wire ==> m in w.wire || GoodMessage(log, w.gapThrough, m))
    && |w'.wire| >= |w.wire|
  }

  lemma FlushSends(w: Worker, log: History)
    requires forall f :: f in w.frames ==> Genuine(log.issued, f)
    ensures OnlySends(w, FlushLease(w), log)
  {
    UndeliveredFacts(w.frames, w.delivered);
  }

  lemma GapReportSends(w: Worker, log: History)
    requires forall m :: m in w.queue ==> m.LeaseGap? && m.throughSeq <= w.gapThrough
    ensures OnlySends(w, ReportLeaseGap(w), log)
    ensures OnlySends(w, FlushQueue(w), log)
  {
  }

  lemma SendsKeepWorkerInv(w: Worker, w': Worker, log: History)
    requires WorkerInv(w, log) && OnlySends(w, w', log)
    ensures WorkerInv(w', log)
  {
  }

  lemma SendsKeepInv(s: System, w': Worker)
    requires Inv(s) && OnlySends(s.w, w', s.log)
    ensures Inv(s.(w := w'))
  {
    SendsKeepWorkerInv(s.w, w', s.log);
  }

  /** Trimming to an accounted watermark, before anything is resent. */
  lemma TrimKeepsWorkerInv(w: Worker, w1: Worker, log: History, n: nat)
    requires WorkerInv(w, log) && LogInv(log) && log.forgotten == {}
    requires n <= |log.issued| && Accounted(log, n) && NotBeyond(log, n)
    requires w1.frames == Above(w.frames, n)
    requires w1.lastSeq == w.lastSeq && w1.gapThrough == w.gapThrough && w1.queue == w.queue && w1.wire == w.wire
    ensures WorkerInv(w1, log.(trimmed := Max(log.trimmed, n)))
  {
    AboveFacts(w.frames, n);
    AboveNums(w.frames, n);
    SameIssuedSameMessages(log, log.(trimmed := Max(log.trimmed, n)), w.gapThrough);
  }

  lemma SameIssuedSameMessages(log: History, log': History, gapThrough: nat)
    requires log'.issued == log.issued
    ensures forall m :: GoodMessage(log, gapThrough, m) <==> GoodMessage(log', gapThrough, m)
  {
  }

  lemma AboveNums(frames: seq<Frame>, n: nat)
    ensures forall k :: k in Nums(Above(frames, n)) <==> k in Nums(frames) && k > n
  {
    AboveFacts(frames, n);
    forall k | k in Nums(frames) && k > n ensures k in Nums(Above(frames, n)) {
      var f :| f in frames && f.num == k;
      assert f in Above(frames, n);
    }
  }

  lemma AckKeepsInv(s: System, n: nat)
    requires Inv(s) && s.alive && LeaseAck(n) in s.sent
    ensures Inv(WorkerReceives(s, LeaseAck(n)))
  {
    var kept := Above(s.w.frames, n);
    var w1 := s.w.(frames := kept,
                   delivered := if n == s.w.lastAckedSeq then s.w.delivered - Nums(kept) else s.w.delivered,
                   lastAckedSeq := n, awaitingAck := false);
    var t := s.(w := w1, log := s.log.(trimmed := Max(s.log.trimmed, n)));
    assert LeaseAck(n).LeaseAck?;
    TrimKeepsWorkerInv(s.w, w1, s.log, n);
    TrimKeepsHostInv(s.h, s.log, n);
    TrimKeepsNet(s, t);
    FlushSends(w1, t.log);
    SendsKeepInv(t, FlushLease(w1));
  }

  lemma TrimKeepsNet(s: System, t: System)
    requires LogInv(s.log) && NetInv(s) && t == s.(w := t.w, log := s.log.(trimmed := t.log.trimmed))
    requires t.w.wire == s.w.wire && t.w.gapThrough == s.w.gapThrough
    ensures LogInv(t.log) && NetInv(t)
  {
    SameIssuedSameMessages(s.log, t.log, s.w.gapThrough);
  }

  lemma TrimKeepsHostInv(h: Host, log: History, n: nat)
    requires HostInv(h, log)
    ensures HostInv(h, log.(trimmed := n)) && HostInv(h, log.(trimmed := Max(log.trimmed, n)))
  {
  }

  /** The log with one more frame issued and some cheap frames dropped keeps what it said about stored frames. */
  lemma LogGrows(log: History, f: Frame, dropped: set<nat>)
    requires LogInv(log) && !Completed(log.issued) && f.num == |log.issued| + 1
    requires forall n :: n in dropped ==> 1 <= n <= |log.issued| + 1 && Droppable((log.issued + [f])[n - 1].kind)
    ensures LogInv(log.(issued := log.issued + [f], dropped := log.dropped + dropped))
    ensures forall g :: Genuine(log.issued, g) ==> Genuine(log.issued + [f], g)
  {
    assert !log.finished;
    var all := log.issued + [f];
    forall i | 0 <= i < |all| - 1 ensures !all[i].kind.RunComplete? {
      if i == |log.issued| - 1 {
        assert all[i] == log.issued[|log.issued| - 1];
      }
    }
  }

  /** Within the limit, unless only frames that may never be dropped are left. */
  ghost predicate Bounded(w: Worker) {
    |w.frames| <= WORKER_REPLAY_BUFFER_LIMIT || forall f :: f in w.frames ==> !Droppable(f.kind)
  }

  /** What capping did to a buffer, without saying which frames it chose. */
  ghost predicate CapEffect(w: Worker, w': Worker) {
    && Ascending(w'.frames) && w'.lastSeq == w.lastSeq && Bounded(w')
    && (forall g :: g in w'.frames ==> g in w.frames)
    && (forall g :: g in w.frames && g !in w'.frames ==> Droppable(g.kind))
    && (w'.gapThrough == w.gapThrough
        || (w'.gapThrough > w.gapThrough && w'.gapThrough == BelowOldest(w'.frames, w.lastSeq)))
    && |w'.wire| >= |w.wire|
    && (forall m :: m in w'.queue ==> m in w.queue || (m.LeaseGap? && m.throughSeq == w'.gapThrough))
    && (forall m :: m in w'.wire ==> m in w.wire || m in w.queue || (m.LeaseGap? && m.throughSeq == w'.gapThrough))
  }

  lemma CapFacts(w: Worker)
    requires Ascending(w.frames)
    ensures CapEffect(w, CapLeaseBuffer(w))
  {
    CapKeepsAllButCheapFrames(w.frames);
    var kept := Capped(w.frames);
    if |kept| < |w.frames| {
      AnnouncedCapFacts(w, kept, w.(
        frames := kept,
        delivered := w.delivered - (Nums(w.frames) - Nums(kept)),
        droppedSinceGap := w.droppedSinceGap + (|w.frames| - |kept|),
        gapThrough := Max(w.gapThrough, BelowOldest(kept, w.lastSeq))));
    }
  }

  lemma AnnouncedCapFacts(w: Worker, kept: seq<Frame>, w1: Worker)
    requires Ascending(kept) && forall g :: g in kept ==> g in w.frames
    requires forall g :: g in w.frames && g !in kept ==> Droppable(g.kind)
    requires |kept| <= WORKER_REPLAY_BUFFER_LIMIT || forall g :: g in kept ==> !Droppable(g.kind)
    requires w1 == w.(frames := kept, delivered := w1.delivered, droppedSinceGap := w1.droppedSinceGap,
                      gapThrough := Max(w.gapThrough, BelowOldest(kept, w.lastSeq)))
    ensures CapEffect(w, ReportLeaseGap(w1))
  {
  }

  lemma ReportKeepsInv(s: System, kind: Kind, payload: Content)
    requires Inv(s) && Enabled(s, DoReport(kind, payload))
    ensures Inv(WorkerReports(s, kind, payload))
  {
    var f := Frame(s.w.lastSeq + 1, kind, payload);
    var w1 := s.w.(lastSeq := s.w.lastSeq + 1, frames := s.w.frames + [f]);
    AppendKeepsOrder(s.w, s.log, f);
    CapFacts(w1);
    ReportEffectKeepsInv(s, f, w1, CapLeaseBuffer(w1), WorkerReports(s, kind, payload));
  }

  lemma ReportEffectKeepsInv(s: System, f: Frame, w1: Worker, w2: Worker, s1: System)
    requires Inv(s) && s.alive && !Completed(s.log.issued) && f.num == s.w.lastSeq + 1
    requires w1 == s.w.(lastSeq := f.num, frames := s.w.frames + [f]) && CapEffect(w1, w2)
    requires s1 == s.(w := FlushLease(w2),
                      log := s.log.(issued := s.log.issued + [f],
                                    dropped := s.log.dropped + (Nums(w1.frames) - Nums(FlushLease(w2).frames))))
    ensures Inv(s1)
  {
    var log := s1.log;
    var t := s.(w := w2, log := log);
    AppendKeepsOrder(s.w, s.log, f);
    CapDropsCheapFrames(w1, w2, log.issued);
    LogGrows(s.log, f, Nums(w1.frames) - Nums(w2.frames));
    ReportedWorkerInv(s.w, s.log, f, w1, w2, log);
    ReportedHostInv(s.h, s.log, log, f);
    ReportedNetInv(s, t, f);
    FlushSends(w2, log);
    SendsKeepInv(t, s1.w);
  }

  lemma AppendKeepsOrder(w: Worker, log: History, f: Frame)
    requires WorkerInv(w, log) && f.num == w.lastSeq + 1
    ensures Ascending(w.frames + [f])
    ensures forall g :: g in w.frames + [f] ==> Genuine(log.issued + [f], g)
    ensures Nums(w.frames + [f]) == Nums(w.frames) + {f.num}
  {
    assert forall g :: g in w.frames ==> g.num <= w.lastSeq;
    NumsOfConcat(w.frames, [f]);
    assert Nums([f]) == {f.num};
  }

  lemma CapDropsCheapFrames(w1: Worker, w2: Worker, issued: seq<Frame>)
    requires CapEffect(w1, w2) && forall g :: g in w1.frames ==> Genuine(issued, g)
    ensures forall n :: n in Nums(w1.frames) - Nums(w2.frames) ==> 1 <= n <= |issued| && Droppable(issued[n - 1].kind)
  {
    forall n | n in Nums(w1.frames) - Nums(w2.frames) ensures 1 <= n <= |issued| && Droppable(issued[n - 1].kind) {
      var g :| g in w1.frames && g.num == n;
      assert g !in w2.frames;
    }
  }

  lemma ReportedWorkerInv(w: Worker, log0: History, f: Frame, w1: Worker, w2: Worker, log: History)
    requires WorkerInv(w, log0) && LogInv(log0) && !Completed(log0.issued) && f.num == w.lastSeq + 1
    requires log0.forgotten == {}
    requires w1 == w.(lastSeq := f.num, frames := w.frames + [f]) && CapEffect(w1, w2)
    requires log == log0.(issued := log0.issued + [f],
                          dropped := log0.dropped + (Nums(w1.frames) - Nums(w2.frames)))
    ensures WorkerInv(w2, log)
  {
    AppendKeepsOrder(w, log0, f);
    CappedAboveGap(w, log0, f, w1, w2, log);
    CappedCoverage(w, log0, f, w1, w2, log);
    CappedMessages(w, log0, w1, w2, log);
  }

  /** What is left lies above the gap, which stays below the run-complete. */
  lemma CappedAboveGap(w: Worker, log0: History, f: Frame, w1: Worker, w2: Worker, log: History)
    requires WorkerInv(w, log0) && LogInv(log0) && !Completed(log0.issued) && f.num == w.lastSeq + 1
    requires w1 == w.(lastSeq := f.num, frames := w.frames + [f]) && CapEffect(w1, w2)
    requires log.issued == log0.issued + [f] && log.trimmed == log0.trimmed
    ensures forall g :: g in w2.frames ==> g.num > log.trimmed && g.num > w2.gapThrough
    ensures w2.gapThrough <= w2.lastSeq && BelowCompletion(log, w2.gapThrough) && w.gapThrough <= w2.gapThrough
  {
    forall g | g in w1.frames ensures g.num > w.gapThrough && g.num > log.trimmed {
      assert g in w.frames || g == f;
    }
    forall g | g in w2.frames ensures g.num > w2.gapThrough {
      assert w2.frames[0].num <= g.num;
      assert w2.frames[0] in w1.frames;
    }
    if Completed(log.issued) {
      assert f == (w.frames + [f])[|w.frames|];
      assert f in w1.frames && f in w2.frames;
      assert w2.frames[0].num <= f.num;
    }
  }

  lemma CappedMessages(w: Worker, log0: History, w1: Worker, w2: Worker, log: History)
    requires WorkerInv(w, log0) && w1 == w.(lastSeq := w1.lastSeq, frames := w1.frames) && CapEffect(w1, w2)
    requires forall g :: Genuine(log0.issued, g) ==> Genuine(log.issued, g)
    ensures forall m :: m in w2.wire ==> GoodMessage(log, w2.gapThrough, m)
    ensures forall m :: m in w2.queue ==> m.LeaseGap? && m.throughSeq <= w2.gapThrough
  {
    forall m | m in w2.wire ensures GoodMessage(log, w2.gapThrough, m) {
      assert m in w.wire ==> GoodMessage(log0, w.gapThrough, m);
    }
  }

  lemma CappedCoverage(w: Worker, log0: History, f: Frame, w1: Worker, w2: Worker, log: History)
    requires WorkerInv(w, log0) && f.num == w.lastSeq + 1 && log0.forgotten == {}
    requires w1.frames == w.frames + [f] && CapEffect(w1, w2)
    requires forall n :: n in log0.dropped ==> n <= w.lastSeq
    requires log == log0.(issued := log0.issued + [f],
                          dropped := log0.dropped + (Nums(w1.frames) - Nums(w2.frames)))
    ensures forall n :: 1 <= n <= f.num ==> n <= log.trimmed || n in Nums(w2.frames) || n in log.dropped
    ensures forall n :: n in log.dropped ==> n !in Nums(w2.frames)
  {
    AppendKeepsOrder(w, log0, f);
    assert Nums(w2.frames) <= Nums(w1.frames);
  }

  lemma ReportedHostInv(h: Host, log: History, log': History, f: Frame)
    requires LogInv(log) && HostInv(h, log) && !Completed(log.issued)
    requires log'.issued == log.issued + [f] && log' == log.(issued := log'.issued, dropped := log'.dropped)
    ensures HostInv(h, log')
  {
    assert forall g :: Genuine(log.issued, g) ==> Genuine(log'.issued, g);
    assert forall n :: n in log.store ==> n <= |log.issued|;
  }

  lemma ReportedNetInv(s: System, t: System, f: Frame)
    requires Inv(s) && !Completed(s.log.issued)
    requires t == s.(w := t.w, log := t.log) && s.log.dropped <= t.log.dropped
    requires t.log.issued == s.log.issued + [f] && t.log == s.log.(issued := t.log.issued, dropped := t.log.dropped)
    requires t.w.gapThrough >= s.w.gapThrough && |t.w.wire| >= |s.w.wire|
    ensures NetInv(t)
  {
    assert forall g :: Genuine(s.log.issued, g) ==> Genuine(t.log.issued, g);
  }

  // ---------------------------------------------------------------- host steps

  lemma RunCompleteIsLast(log: History, f: Frame)
    requires LogInv(log) && Genuine(log.issued, f) && f.kind.RunComplete?
    ensures Completed(log.issued) && f.num == |log.issued|
  {
  }

  lemma DeliverKeepsInv(h: Host, log: History, f: Frame)
    requires LogInv(log) && HostInv(h, log) && Genuine(log.issued, f)
    ensures HostInv(Deliver(h, f), log)
  {
    if h.held && Admits(h, f.num) {
      if f.kind.RunComplete? {
        RunCompleteIsLast(log, f);
      } else {
        ChainedFrameKeepsInv(h, log, f);
      }
    }
  }

  lemma ChainedFrameKeepsInv(h: Host, log: History, f: Frame)
    requires LogInv(log) && HostInv(h, log) && Genuine(log.issued, f) && !f.kind.RunComplete?
    requires h.held && Admits(h, f.num)
    ensures HostInv(h.(inFlight := h.inFlight + {f.num}, chain := h.chain + [f]), log)
  {
    var h1 := h.(inFlight := h.inFlight + {f.num}, chain := h.chain + [f]);
    AppendedNums(h.chain, f);
    ChainedFrameKeepsChain(h, h1, log, f);
    AppendedUnwritten(h, h1, f);
    FreshNumberKeepsLife(h, h1, log, f.num);
    FreshNumberKeepsWatermark(h, h1, log, f.num);
  }

  lemma AppendedNums(frames: seq<Frame>, f: Frame)
    ensures Nums(frames + [f]) == Nums(frames) + {f.num}
  {
    NumsOfConcat(frames, [f]);
    assert Nums([f]) == {f.num};
  }

  lemma AppendedUnwritten(h: Host, h1: Host, f: Frame)
    requires h1 == h.(inFlight := h1.inFlight, chain := h.chain + [f]) && (h.headLanded ==> h.chain != [])
    ensures Unwritten(h1) == Unwritten(h) + {f.num}
  {
    if h.headLanded {
      assert h1.chain[1..] == h.chain[1..] + [f];
      AppendedNums(h.chain[1..], f);
    } else {
      AppendedNums(h.chain, f);
    }
  }

  lemma FreshNumberKeepsWatermark(h: Host, h1: Host, log: History, n: nat)
    requires WatermarkInv(h, log) && Admits(h, n)
    requires h1 == h.(inFlight := h.inFlight + {n}, chain := h1.chain)
    ensures WatermarkInv(h1, log)
  {
  }

  lemma ChainedFrameKeepsChain(h: Host, h1: Host, log: History, f: Frame)
    requires ChainInv(h, log) && Genuine(log.issued, f) && !f.kind.RunComplete? && f.num !in h.inFlight
    requires h1 == h.(inFlight := h.inFlight + {f.num}, chain := h.chain + [f])
    requires Nums(h1.chain) == Nums(h.chain) + {f.num}
    ensures ChainInv(h1, log)
  {
    forall i | 0 <= i < |h.chain| ensures h.chain[i].num != f.num {
      assert h.chain[i] in h.chain;
      assert h.chain[i].num in Nums(h.chain);
    }
  }

  lemma FreshNumberKeepsLife(h: Host, h1: Host, log: History, n: nat)
    requires LifeInv(h, log) && Admits(h, n)
    requires h1 == h.(inFlight := h.inFlight + {n}, chain := h1.chain)
    requires Unwritten(h1) == Unwritten(h) + {n}
    ensures LifeInv(h1, log)
  {
  }

  /** The chain without its head holds the other numbers. */
  lemma TailNums(chain: seq<Frame>)
    requires chain != [] && DistinctNums(chain)
    ensures Nums(chain[1..]) == Nums(chain) - {chain[0].num} && DistinctNums(chain[1..])
    ensures chain[0].num in Nums(chain)
  {
    assert chain == [chain[0]] + chain[1..];
    NumsOfConcat([chain[0]], chain[1..]);
    assert Nums([chain[0]]) == {chain[0].num};
    assert forall f :: f in chain[1..] ==> f.num != chain[0].num;
  }

  /** Pulling the watermark up from an accounted starting point. */
  lemma PullKeepsWatermark(h: Host, log: History, n: nat, ahead: set<nat>)
    requires n <= |log.issued| && (forall k :: 1 <= k <= n ==> k in log.store || k in log.discarded || k <= log.gapped)
    requires forall k :: k in ahead ==>
              k > n && (k in log.store || k in log.discarded) && BelowCompletion(log, k) && k <= |log.issued|
    requires ahead !! h.inFlight && BelowCompletion(log, n)
    ensures WatermarkInv(PullUp(h, n, ahead), log)
    ensures PullUp(h, n, ahead).appliedSeq >= n && BelowCompletion(log, PullUp(h, n, ahead).appliedSeq)
    ensures forall k :: k in ahead ==> k <= PullUp(h, n, ahead).appliedSeq || k in PullUp(h, n, ahead).appliedAhead
  {
    PulledIsTheContiguousPrefix(n, ahead);
    assert Pulled(n, ahead) == n || Pulled(n, ahead) in ahead;
  }

  /** The watermark moved and nothing else but possibly the parked completion. */
  lemma MovedWatermarkKeepsChain(h: Host, h1: Host, log: History)
    requires ChainInv(h, log) && LifeInv(h, log)
    requires h1 == h.(appliedSeq := h1.appliedSeq, appliedAhead := h1.appliedAhead)
    requires h1.appliedSeq >= h.appliedSeq && BelowCompletion(log, h1.appliedSeq)
    requires forall k :: k in h.appliedAhead ==> k <= h1.appliedSeq || k in h1.appliedAhead
    ensures ChainInv(MaybeFinishPending(h1), log) && LifeInv(MaybeFinishPending(h1), log)
  {
    assert Unwritten(MaybeFinishPending(h1)) == Unwritten(h);
  }

  lemma SkipGapKeepsInv(h: Host, log: History, through: nat)
    requires LogInv(log) && HostInv(h, log)
    requires through <= |log.issued| && BelowCompletion(log, through)
    ensures HostInv(SkipLeaseGap(h, through), log.(gapped := Max(log.gapped, through)))
  {
    var log1 := log.(gapped := Max(log.gapped, through));
    if h.held && through > h.appliedSeq {
      var h1 := PullUp(h, through, AboveSeq(h.appliedAhead, through));
      SkippedKeepsWatermark(h, log, log1, through);
      SkippedAheadIsKept(h, through);
      MovedWatermarkKeepsChain(h, h1, log1);
      FinishPendingKeepsWatermark(h1, log1);
    }
  }

  lemma SkippedKeepsWatermark(h: Host, log: History, log1: History, through: nat)
    requires LogInv(log) && WatermarkInv(h, log)
    requires through <= |log.issued| && BelowCompletion(log, through)
    requires log1 == log.(gapped := Max(log.gapped, through))
    ensures WatermarkInv(PullUp(h, through, AboveSeq(h.appliedAhead, through)), log1)
    ensures BelowCompletion(log1, PullUp(h, through, AboveSeq(h.appliedAhead, through)).appliedSeq)
  {
    AheadIsStored(h, log);
    PullKeepsWatermark(h, log1, through, AboveSeq(h.appliedAhead, through));
  }

  lemma FinishPendingKeepsWatermark(h: Host, log: History)
    requires WatermarkInv(h, log)
    ensures WatermarkInv(MaybeFinishPending(h), log)
  {
  }

  lemma AheadIsStored(h: Host, log: History)
    requires LogInv(log) && WatermarkInv(h, log)
    ensures forall k :: k in h.appliedAhead ==>
              (k in log.store || k in log.discarded) && BelowCompletion(log, k) && k <= |log.issued|
    ensures h.appliedAhead !! h.inFlight
  {
  }

  lemma SkippedAheadIsKept(h: Host, through: nat)
    ensures var h1 := PullUp(h, through, AboveSeq(h.appliedAhead, through));
            h1.appliedSeq >= through && forall k :: k in h.appliedAhead ==> k <= h1.appliedSeq || k in h1.appliedAhead
  {
  }

  lemma PopKeepsChain(h: Host, h1: Host, log: History)
    requires ChainInv(h, log) && LogInv(log) && h.chain != []
    requires h1 == h.(chain := h.chain[1..], headLanded := false, inFlight := h.inFlight - {h.chain[0].num})
    ensures ChainInv(h1, log)
    ensures Unwritten(h1) == Unwritten(h) - {h.chain[0].num}
    ensures h.chain[0] in h.chain && h.chain[0].num in h.inFlight && h.chain[0].num !in CompletionNums(h.completion)
    ensures !h.headLanded ==> h.chain[0].num in Unwritten(h)
  {
    TailNums(h.chain);
    var f := h.chain[0];
    assert f in h.chain;
    if !h.completion.NoCompletion? {
      CompletionLeavesChain(h, log);
    }
  }

  /** The head of the chain has landed; recording it moves its number from in flight to applied. */
  lemma RecordHeadKeepsInv(h: Host, log: History)
    requires LogInv(log) && HostInv(h, log) && h.chain != [] && h.headLanded
    ensures HostInv(RecordHead(h), log)
  {
    var n := h.chain[0].num;
    var h1 := h.(chain := h.chain[1..], headLanded := false, inFlight := h.inFlight - {n});
    PopKeepsChain(h, h1, log);
    if n > h.appliedSeq {
      HeadIsBelowCompletion(h, log);
      RecordNewKeepsInv(h, h1, log, n);
    } else {
      RecordOldKeepsInv(h, h1, log, n);
    }
    assert RecordHead(h) == MarkApplied(h.(chain := h.chain[1..], headLanded := false), n);
  }

  /** A gap passed the frame while it was being written: only its place in flight goes. */
  lemma RecordOldKeepsInv(h: Host, h1: Host, log: History, n: nat)
    requires HostInv(h, log) && ChainInv(h1, log) && n <= h.appliedSeq && Unwritten(h1) <= Unwritten(h)
    requires h1 == h.(chain := h1.chain, headLanded := false, inFlight := h.inFlight - {n})
    ensures HostInv(h1, log)
  {
  }

  lemma RecordNewKeepsInv(h: Host, h1: Host, log: History, n: nat)
    requires LogInv(log) && HostInv(h, log) && ChainInv(h1, log) && n > h.appliedSeq && Unwritten(h1) <= Unwritten(h)
    requires h1 == h.(chain := h1.chain, headLanded := false, inFlight := h.inFlight - {n})
    requires (n in log.store || n in log.discarded) && n <= |log.issued| && BelowCompletion(log, n)
    ensures HostInv(MarkApplied(h.(chain := h1.chain, headLanded := false), n), log)
  {
    var h2 := PullUp(h1, h.appliedSeq, h.appliedAhead + {n});
    AheadWithOneMore(h, h1, log, n);
    PullKeepsWatermark(h1, log, h.appliedSeq, h.appliedAhead + {n});
    RecordedKeepsChain(h, h1, h2, log, n);
    FinishPendingKeepsWatermark(h2, log);
    MarkAppliedPulls(h.(chain := h1.chain, headLanded := false), h1, n);
  }

  lemma MarkAppliedPulls(h: Host, h1: Host, n: nat)
    requires h1 == h.(inFlight := h.inFlight - {n}) && n > h.appliedSeq
    ensures var h2 := PullUp(h1, h.appliedSeq, h.appliedAhead + {n});
            MarkApplied(h, n) == if h2.appliedSeq == h.appliedSeq then h2 else MaybeFinishPending(h2)
  {
  }

  lemma AheadWithOneMore(h: Host, h1: Host, log: History, n: nat)
    requires LogInv(log) && WatermarkInv(h, log) && n > h.appliedSeq
    requires (n in log.store || n in log.discarded) && BelowCompletion(log, n) && n <= |log.issued|
    requires h1.inFlight == h.inFlight - {n}
    ensures forall k :: k in h.appliedAhead + {n} ==>
              k > h.appliedSeq && (k in log.store || k in log.discarded) && BelowCompletion(log, k) && k <= |log.issued|
    ensures h.appliedAhead + {n} !! h1.inFlight && BelowCompletion(log, h.appliedSeq)
  {
  }

  lemma HeadIsBelowCompletion(h: Host, log: History)
    requires LogInv(log) && ChainInv(h, log) && h.chain != []
    ensures BelowCompletion(log, h.chain[0].num) && h.chain[0].num <= |log.issued|
  {
    assert h.chain[0] in h.chain;
  }

  lemma RecordedKeepsChain(h: Host, h1: Host, h2: Host, log: History, n: nat)
    requires ChainInv(h1, log) && LifeInv(h, log)
    requires h1 == h.(chain := h1.chain, headLanded := false, inFlight := h.inFlight - {n})
    requires h2 == h1.(appliedSeq := h2.appliedSeq, appliedAhead := h2.appliedAhead)
    requires Unwritten(h1) <= Unwritten(h)
    requires n <= h2.appliedSeq || n in h2.appliedAhead
    requires h2.appliedSeq >= h.appliedSeq && BelowCompletion(log, h2.appliedSeq)
    requires forall k :: k in h.appliedAhead ==> k <= h2.appliedSeq || k in h2.appliedAhead
    ensures LifeInv(MaybeFinishPending(h2), log) && ChainInv(MaybeFinishPending(h2), log) && LifeInv(h2, log)
    ensures h2.appliedSeq == h.appliedSeq ==> ChainInv(h2, log)
  {
    assert Unwritten(h2) == Unwritten(h1);
    assert Unwritten(MaybeFinishPending(h2)) == Unwritten(h1);
  }

  lemma WriteFailedKeepsInv(h: Host, log: History)
    requires LogInv(log) && HostInv(h, log) && h.chain != [] && !h.headLanded
    ensures HostInv(WriteFailed(h), log)
  {
    PopKeepsChain(h, WriteFailed(h), log);
  }

  lemma StoringKeepsLog(log: History, f: Frame)
    requires LogInv(log) && Genuine(log.issued, f)
    ensures LogInv(Stored(log, f))
    ensures forall n :: Accounted(log, n) ==> Accounted(Stored(log, f), n)
  {
  }

  /** A frame in flight is written: it was not written before in this life. */
  lemma WriteLandedKeepsInv(h: Host, log: History)
    requires LogInv(log) && HostInv(h, log) && h.chain != [] && !h.headLanded
    ensures HostInv(WriteLanded(h), Stored(log, h.chain[0]))
  {
    TailNums(h.chain);
    PopKeepsChain(h, WriteFailed(h), log);
    assert Unwritten(WriteLanded(h)) == Unwritten(h) - {h.chain[0].num};
  }

  lemma DiscardingKeepsLog(log: History, f: Frame)
    requires LogInv(log) && Genuine(log.issued, f) && Discardable(f)
    ensures LogInv(StoredNothing(log, f))
    ensures forall n :: Accounted(log, n) ==> Accounted(StoredNothing(log, f), n)
  {
  }

  /** A frame's handler resolved with nothing stored: the host's bookkeeping cannot tell. */
  lemma WriteDiscardedKeepsInv(h: Host, log: History)
    requires LogInv(log) && HostInv(h, log) && h.chain != [] && !h.headLanded && Discardable(h.chain[0])
    ensures HostInv(WriteLanded(h), StoredNothing(log, h.chain[0]))
  {
    TailNums(h.chain);
    PopKeepsChain(h, WriteFailed(h), log);
    assert Unwritten(WriteLanded(h)) == Unwritten(h) - {h.chain[0].num};
  }

  lemma CompletionCheckKeepsInv(h: Host, log: History)
    requires HostInv(h, log) && h.completion.Draining?
    ensures HostInv(CheckCompletion(h), log)
  {
    assert Unwritten(CheckCompletion(h)) == Unwritten(h);
  }

  lemma CompletionFailureKeepsInv(h: Host, log: History)
    requires LogInv(log) && HostInv(h, log) && h.completion.Writing?
    ensures HostInv(CompletionFailed(h), log)
  {
    CompletionLeavesChain(h, log);
    assert h.completion.frame.num in Unwritten(h);
    assert Unwritten(CompletionFailed(h)) <= Unwritten(h);
  }

  lemma CompletionLandingKeepsInv(h: Host, log: History)
    requires LogInv(log) && HostInv(h, log) && h.completion.Writing?
    ensures HostInv(CompletionLanded(h), Stored(log, h.completion.frame))
  {
    CompletionLeavesChain(h, log);
    assert h.completion.frame.num in Unwritten(h);
    assert Nums(h.chain[..]) == Nums(h.chain);
    if h.headLanded {
      TailNums(h.chain);
    }
    assert Unwritten(CompletionLanded(h)) == Unwritten(h) - {h.completion.frame.num};
  }

  /** The completion's number is not in the chain, which holds no run-complete. */
  lemma CompletionLeavesChain(h: Host, log: History)
    requires LogInv(log) && ChainInv(h, log) && !h.completion.NoCompletion?
    ensures h.completion.frame.num !in Nums(h.chain)
  {
    forall f | f in h.chain ensures f.num != h.completion.frame.num {
      assert Genuine(log.issued, f);
    }
  }

  lemma ExpiryKeepsInv(h: Host, log: History)
    requires HostInv(h, log)
    ensures HostInv(Settle(h), log)
  {
    assert Unwritten(Settle(h)) <= Unwritten(h);
  }

  /**
   * The completion is recorded and the lease settled: everything below it was applied or skipped,
   * so the watermark lands exactly on it.
   */
  lemma FinishKeepsInv(h: Host, log: History)
    requires LogInv(log) && HostInv(h, log) && h.completion.Landed?
    ensures FinishCompletion(h).appliedSeq == |log.issued| && Completed(log.issued)
    ensures HostInv(FinishCompletion(h), log.(finished := true))
  {
    var f := h.completion.frame;
    RunCompleteIsLast(log, f);
    assert h.appliedSeq == f.num - 1;
    assert h.appliedAhead == {};
    CompletionLeavesChain(h, log);
    assert h.appliedAhead + {f.num} == {f.num};
    assert Pulled(f.num, {f.num} - {f.num}) == f.num;
    assert Pulled(h.appliedSeq, {f.num}) == f.num;
    var h1 := FinishCompletion(h);
    assert h1 == h.(held := false, completion := NoCompletion, appliedSeq := f.num, appliedAhead := {},
        inFlight := h.inFlight - {f.num});
    assert Unwritten(h1) <= Unwritten(h);
  }
}
