/** What goes out again, in what order, and that the announced number of drops is exact. */
module LeaseResending {
  import opened LeaseTypes
  import opened WorkerModel
  import opened LeaseSystem
  import opened LeaseInvariant
  import opened LeaseSafety

  /** The frame was put on the wire by the step from `w` to `w'`. */
  ghost predicate Sent(w: Worker, w': Worker, f: Frame) {
    exists i :: |w.wire| <= i < |w'.wire| && w'.wire[i] == Report(f)
  }

  /** A flush on a socket that may send puts out exactly the held frames it has not seen, in order. */
  lemma FlushSendsExactlyTheUnseen(w: Worker)
    requires Ascending(w.frames) && w.registered && !w.awaitingAck
    ensures var w' := FlushLease(w);
            && |w'.wire| >= |w.wire| && w'.wire[..|w.wire|] == w.wire
            && (forall f :: Sent(w, w', f) <==> f in w.frames && f.num !in w.delivered)
            && (forall i, j :: |w.wire| <= i < j < |w'.wire| ==>
                  w'.wire[i].Report? && w'.wire[j].Report? && w'.wire[i].frame.num < w'.wire[j].frame.num)
            && (forall f :: f in w'.frames ==> f.num in w'.delivered)
  {
    var sent := Undelivered(w.frames, w.delivered);
    var w' := FlushLease(w);
    UndeliveredFacts(w.frames, w.delivered);
    UndeliveredKeepsOrder(w.frames, w.delivered);
    assert forall i :: |w.wire| <= i < |w'.wire| ==> w'.wire[i] == Report(sent[i - |w.wire|]);
    forall f | f in w.frames && f.num !in w.delivered ensures Sent(w, w', f) {
      var k :| 0 <= k < |sent| && sent[k] == f;
      assert w'.wire[|w.wire| + k] == Report(f);
    }
  }

  /**
   * On a healthy socket a second ack with the same watermark puts every frame above it on the wire
   * again, whatever was handed over before: this alone retries a write that failed.
   */
  lemma RepeatedAckResendsEverything(w: Worker, n: nat, f: Frame)
    requires Ascending(w.frames) && w.registered && f in w.frames && f.num > n
    ensures var w1 := OnLeaseAck(w, n); Sent(w1, OnLeaseAck(w1, n), f)
  {
    var w1 := OnLeaseAck(w, n);
    AboveFacts(w.frames, n);
    AboveFacts(w1.frames, n);
    var kept := Above(w1.frames, n);
    assert f in kept && f.num in Nums(kept);
    FlushSendsExactlyTheUnseen(w1.(frames := kept, delivered := w1.delivered - Nums(kept)));
  }

  /** Whatever dropped socket saw it, a frame the host has not acknowledged goes out again on the next ack. */
  lemma AckAfterReconnectReplays(w: Worker, n: nat, f: Frame)
    requires Ascending(w.frames) && f in w.frames
    ensures var w1 := OnRegistered(OnConnect(OnClose(w)));
            Sent(w1, OnLeaseAck(w1, n), f) <==> f.num > n
  {
    var w1 := OnRegistered(OnConnect(OnClose(w)));
    AboveFacts(w.frames, n);
    var kept := Above(w.frames, n);
    ReconnectedWorker(w);
    assert w1.delivered - Nums(kept) == {};
    FlushSendsExactlyTheUnseen(w1.(frames := kept, lastAckedSeq := n, awaitingAck := false));
  }

  /**
   * What an ack puts on the wire, exactly: the held frames above it that this socket has not seen,
   * and, when it repeats the watermark of the ack before, every frame above it. It trims the rest.
   */
  lemma AckSendsExactly(w: Worker, n: nat, f: Frame)
    requires Ascending(w.frames) && w.registered
    ensures Sent(w, OnLeaseAck(w, n), f) <==>
              f in w.frames && f.num > n && (f.num !in w.delivered || n == w.lastAckedSeq)
    ensures forall g :: g in OnLeaseAck(w, n).frames <==> g in w.frames && g.num > n
    ensures OnLeaseAck(w, n).lastAckedSeq == n
  {
    var kept := Above(w.frames, n);
    AboveFacts(w.frames, n);
    assert forall g :: g in kept ==> g.num in Nums(kept);
    FlushSendsExactlyTheUnseen(w.(
      frames := kept,
      delivered := if n == w.lastAckedSeq then w.delivered - Nums(kept) else w.delivered,
      lastAckedSeq := n,
      awaitingAck := false));
  }

  /** On a socket that may send, a report goes out at once, whatever the cap leaves unsent ahead of it. */
  lemma ReportGoesOutAtOnce(w: Worker, kind: Kind, payload: Content)
    requires Ascending(w.frames + [Frame(w.lastSeq + 1, kind, payload)]) && w.registered && !w.awaitingAck
    requires w.lastSeq + 1 !in w.delivered
    ensures var f := Frame(w.lastSeq + 1, kind, payload); var w' := SendReporting(w, kind, payload);
            && w'.lastSeq == w.lastSeq + 1
            && (f in w'.frames ==> Sent(w, w', f))
            && (|w.frames| < 2000 ==> w'.frames == w.frames + [f])
  {
    var f := Frame(w.lastSeq + 1, kind, payload);
    var w1 := w.(lastSeq := f.num, frames := w.frames + [f]);
    CapKeepsSocket(w1);
    FlushSendsBehind(w, CapLeaseBuffer(w1), f);
  }

  lemma CapKeepsSocket(w: Worker)
    requires Ascending(w.frames)
    ensures var w' := CapLeaseBuffer(w);
            && w'.registered == w.registered && w'.awaitingAck == w.awaitingAck && w'.delivered <= w.delivered
            && |w'.wire| >= |w.wire| && w'.lastSeq == w.lastSeq && Ascending(w'.frames)
            && (|w.frames| <= 2000 ==> w'.frames == w.frames)
  {
    CapKeepsAllButCheapFrames(w.frames);
  }

  lemma FlushSendsBehind(w: Worker, w2: Worker, f: Frame)
    requires |w.wire| <= |w2.wire| && Ascending(w2.frames) && w2.registered && !w2.awaitingAck
    requires f.num !in w2.delivered
    ensures f in w2.frames ==> Sent(w, FlushLease(w2), f)
    ensures FlushLease(w2).frames == w2.frames && FlushLease(w2).lastSeq == w2.lastSeq
  {
    FlushSendsExactlyTheUnseen(w2);
    if f in w2.frames {
      assert Sent(w2, FlushLease(w2), f);
      var i :| |w2.wire| <= i < |FlushLease(w2).wire| && FlushLease(w2).wire[i] == Report(f);
    }
  }

  /** A host that never answers does not keep the worker silent: the backstop sends everything held. */
  lemma BackstopSendsEverything(w: Worker, f: Frame)
    requires Ascending(w.frames) && f in w.frames
    ensures var w1 := OnRegistered(OnConnect(OnClose(w)));
            w1.awaitingAck && Sent(w1, OnReplayBackstop(w1), f) && !OnReplayBackstop(w1).awaitingAck
  {
    var w1 := OnRegistered(OnConnect(OnClose(w)));
    ReconnectedWorker(w);
    FlushSendsExactlyTheUnseen(w1.(awaitingAck := false));
  }

  /**
   * A reconnect in full: the new socket carries what was queued and the restated gap, nothing of the
   * buffer has been handed to it or may be before an answer, and all else is as it was.
   */
  lemma ReconnectedWorker(w: Worker)
    ensures OnRegistered(OnConnect(OnClose(w)))
            == w.(registered := true, awaitingAck := true, delivered := {}, queue := [],
                  wire := w.queue + if w.gapThrough > 0 then [LeaseGap(w.gapThrough, w.droppedSinceGap)] else [])
  {
    assert [] + w.queue == w.queue && w.queue + [] == w.queue;
    assert [] + (w.queue + [LeaseGap(w.gapThrough, w.droppedSinceGap)])
        == w.queue + [LeaseGap(w.gapThrough, w.droppedSinceGap)];
  }

  // ---------------------------------------------------------------- the announced count

  lemma {:induction false} AscendingCard(frames: seq<Frame>)
    requires Ascending(frames)
    ensures |Nums(frames)| == |frames|
    decreases |frames|
  {
    if frames != [] {
      var before, last := frames[..|frames| - 1], frames[|frames| - 1];
      AscendingCard(before);
      assert frames == before + [last];
      NumsOfConcat(before, [last]);
      assert Nums([last]) == {last.num};
      assert last.num !in Nums(before);
    }
  }

  lemma SubsetCount(all: set<nat>, some: set<nat>)
    requires some <= all
    ensures |all - some| == |all| - |some|
  {
    assert all == (all - some) + some;
  }

  lemma CapCounts(w: Worker)
    requires Ascending(w.frames)
    ensures var w' := CapLeaseBuffer(w);
            w'.droppedSinceGap == w.droppedSinceGap + |Nums(w.frames) - Nums(w'.frames)|
  {
    var kept := Capped(w.frames);
    CapKeepsAllButCheapFrames(w.frames);
    AscendingCard(w.frames);
    AscendingCard(kept);
    SubsetCount(Nums(w.frames), Nums(kept));
    assert CapLeaseBuffer(w).frames == kept;
  }

  lemma CountAddsUp(dropped: set<nat>, held: set<nat>, kept: set<nat>)
    requires dropped !! held
    ensures |dropped + (held - kept)| == |dropped| + |held - kept|
  {
  }

  lemma FlushKeepsBuffer(w: Worker)
    ensures FlushLease(w).frames == w.frames && FlushLease(w).droppedSinceGap == w.droppedSinceGap
  {
  }

  lemma ReportCounts(w1: Worker, w2: Worker, dropped: set<nat>)
    requires w2 == CapLeaseBuffer(w1) && Ascending(w1.frames) && dropped !! Nums(w1.frames)
    requires w1.droppedSinceGap == |dropped|
    ensures FlushLease(w2).droppedSinceGap == |dropped + (Nums(w1.frames) - Nums(FlushLease(w2).frames))|
  {
    CapCounts(w1);
    FlushKeepsBuffer(w2);
    CountAddsUp(dropped, Nums(w1.frames), Nums(w2.frames));
  }

  lemma DroppedStayGone(w: Worker, log: History, f: Frame)
    requires LogInv(log) && WorkerInv(w, log) && f.num == w.lastSeq + 1
    ensures Ascending(w.frames + [f]) && log.dropped !! Nums(w.frames + [f])
  {
    AppendKeepsOrder(w, log, f);
  }

  lemma OtherStepsKeepCount(s: System, step: Step)
    requires Enabled(s, step) && !step.DoReport?
    ensures Apply(s, step).w.droppedSinceGap == s.w.droppedSinceGap && Apply(s, step).log.dropped == s.log.dropped
  {
  }

  lemma StepKeepsCount(s: System, step: Step)
    requires Inv(s) && Enabled(s, step) && s.w.droppedSinceGap == |s.log.dropped|
    ensures Apply(s, step).w.droppedSinceGap == |Apply(s, step).log.dropped|
  {
    if step.DoReport? {
      var f := Frame(s.w.lastSeq + 1, step.kind, step.payload);
      var w1 := s.w.(lastSeq := s.w.lastSeq + 1, frames := s.w.frames + [f]);
      DroppedStayGone(s.w, s.log, f);
      ReportCounts(w1, CapLeaseBuffer(w1), s.log.dropped);
    } else {
      OtherStepsKeepCount(s, step);
    }
  }

  lemma {:induction false} ExecKeepsCount(s: System, steps: seq<Step>)
    requires Inv(s) && Possible(s, steps) && s.w.droppedSinceGap == |s.log.dropped|
    ensures Exec(s, steps).w.droppedSinceGap == |Exec(s, steps).log.dropped|
    decreases |steps|
  {
    if steps != [] {
      StepKeepsInv(s, steps[0]);
      StepKeepsCount(s, steps[0]);
      ExecKeepsCount(Apply(s, steps[0]), steps[1..]);
    }
  }

  /** The count a gap carries is the number of frames the lease ever dropped: it is never reset. */
  lemma AnnouncedCountIsTotal(steps: seq<Step>)
    requires Possible(INITIAL, steps)
    ensures var s := Exec(INITIAL, steps); s.w.droppedSinceGap == |s.log.dropped|
  {
    InitialInv();
    ExecKeepsCount(INITIAL, steps);
  }
}
