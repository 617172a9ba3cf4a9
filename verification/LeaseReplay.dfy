/**
 * Not one lucky schedule but all of them: after a reconnect, however the host's work, its acks, the
 * worker's backstop and the network's deliveries interleave, a replay in which no write is rejected
 * and nothing crashes ends caught up.
 */
module LeaseReplay {
  import opened LeaseTypes
  import opened WorkerModel
  import opened LeaseSystem
  import opened LeaseInvariant
  import opened LeaseSafety
  import opened LeaseResending
  import opened LeaseCatchUp

  /** Messages arrive, writes land, completions go through: nothing fails, drops, expires or crashes. */
  predicate Progress(step: Step) {
    || step.DeliverUp? || step.DeliverStale? || step.HostAcks? || step.WatermarkPersisted?
    || step.WriteLands? || step.WriteDiscarded? || step.WriteRecorded?
    || step.CompletionChecked? || step.CompletionLands? || step.CompletionFinishes?
  }

  predicate AllProgress(steps: seq<Step>) {
    forall i :: 0 <= i < |steps| ==> Progress(steps[i])
  }

  /** The socket is drained and the host has nothing under way; a completion may be parked. */
  predicate Quiescent(s: System) {
    s.taken == |s.w.wire| && s.h.chain == [] && (s.h.completion.NoCompletion? || s.h.completion.Parked?)
  }

  /** One step of host work, or of the network, loses no number on its way. */
  lemma HostProgress(s: System, step: Step)
    requires Inv(s) && s.h.held && Enabled(s, step) && Progress(step) && !step.DeliverUp? && !step.DeliverStale?
    ensures var t := Apply(s, step);
            && t.w == s.w && t.alive == s.alive && t.taken == s.taken
            && (if t.h.held then forall q :: HostHas(s.h, q) ==> HostHas(t.h, q) else CaughtUp(t))
  {
    match step
    case WriteRecorded => RecordingProgresses(s.h);
    case CompletionFinishes(_) => FinishKeepsInv(s.h, s.log);
    case _ =>
  }

  lemma ProgressStep(s: System, step: Step)
    requires Inv(s) && s.h.held && Enabled(s, step) && Progress(step)
    ensures var t := Apply(s, step);
            && t.w == s.w && t.alive == s.alive
            && (if t.h.held then forall q :: Coming(s, q) ==> Coming(t, q) else CaughtUp(t))
  {
    var t := Apply(s, step);
    if step.DeliverUp? {
      ReceiptMoves(s);
      ReceiptKeepsComing(s, t);
    } else if step.DeliverStale? {
      StrayArrives(s, step.up);
      assert Pending(t) == Pending(s);
    } else {
      HostProgress(s, step);
      assert Pending(t) == Pending(s);
    }
  }

  /** A caught-up lease stays caught up through any step that is no report and no crash. */
  lemma CaughtUpStays(s: System, step: Step)
    requires Inv(s) && CaughtUp(s) && Enabled(s, step) && !step.DoReport? && !step.HostRestarts?
    ensures CaughtUp(Apply(s, step))
  {
    StepKeepsInv(s, step);
    assert Apply(s, step).w.lastSeq == s.w.lastSeq;
  }

  lemma {:induction false} ProgressRun(s: System, steps: seq<Step>)
    requires Inv(s) && (s.h.held || CaughtUp(s)) && AllProgress(steps) && Possible(s, steps)
    ensures var t := Exec(s, steps);
            && Inv(t) && t.w == s.w && t.alive == s.alive
            && (CaughtUp(t) || (t.h.held && forall q :: Coming(s, q) ==> Coming(t, q)))
    decreases |steps|
  {
    if steps != [] {
      var t := Apply(s, steps[0]);
      StepKeepsInv(s, steps[0]);
      ProgressKeepsWorker(s, steps[0]);
      if CaughtUp(s) { CaughtUpStays(s, steps[0]); } else { ProgressStep(s, steps[0]); }
      assert AllProgress(steps[1..]);
      ProgressRun(t, steps[1..]);
      if CaughtUp(t) { StaysCaughtUp(t, steps[1..]); }
    }
  }

  lemma ProgressKeepsWorker(s: System, step: Step)
    requires Enabled(s, step) && Progress(step)
    ensures Apply(s, step).w == s.w && Apply(s, step).alive == s.alive
  {
  }

  lemma {:induction false} StaysCaughtUp(s: System, steps: seq<Step>)
    requires Inv(s) && CaughtUp(s) && AllProgress(steps) && Possible(s, steps)
    ensures CaughtUp(Exec(s, steps))
    decreases |steps|
  {
    if steps != [] {
      StepKeepsInv(s, steps[0]);
      CaughtUpStays(s, steps[0]);
      assert AllProgress(steps[1..]);
      StaysCaughtUp(Apply(s, steps[0]), steps[1..]);
    }
  }

  // ---------------------------------------------------------------- a replay, step by step

  /**
   * A step of a replay: progress, or the worker's backstop firing, or the worker hearing an ack that
   * is not ahead of the host's watermark, as every ack of this host life is, or the ack of a
   * completion that went through.
   */
  predicate ReplayStep(s: System, step: Step) {
    || Progress(step)
    || step.BackstopFired?
    || (step.DeliverDown? && step.down.LeaseAck? && step.down.num <= s.h.appliedSeq)
    || (step.DeliverDown? && step.down.RunCompleteAck? && CaughtUp(s))
  }

  predicate Replaying(s: System, steps: seq<Step>)
    requires Possible(s, steps)
    decreases |steps|
  {
    steps == [] || (ReplayStep(s, steps[0]) && Replaying(Apply(s, steps[0]), steps[1..]))
  }

  /**
   * Every number is with the host or on its way there, or held and not handed to this socket yet;
   * and once the worker may send, it has handed over all it holds.
   */
  ghost predicate OnItsWay(s: System) {
    && s.h.held && s.w.registered
    && (forall q :: 1 <= q <= s.w.lastSeq ==> Coming(s, q) || (q in Nums(s.w.frames) && q !in s.w.delivered))
    && (!s.w.awaitingAck ==> Nums(s.w.frames) <= s.w.delivered)
  }

  /** A flush puts on the wire whatever this socket has not seen. */
  lemma FlushBrings(s: System, w1: Worker, t: System)
    requires Ascending(w1.frames) && w1.registered && !w1.awaitingAck && w1.wire == s.w.wire && s.taken <= |s.w.wire|
    requires t == s.(w := FlushLease(w1), log := t.log)
    ensures forall q :: Coming(s, q) ==> Coming(t, q)
    ensures forall q :: q in Nums(w1.frames) && q !in w1.delivered ==> Coming(t, q)
    ensures Nums(t.w.frames) <= t.w.delivered
  {
    FlushSendsExactlyTheUnseen(w1);
    forall q | Coming(s, q) ensures Coming(t, q) {
      if !HostHas(s.h, q) {
        var i :| 0 <= i < |Pending(s)| && Brings(Pending(s)[i], q);
        assert Pending(t)[i] == Pending(s)[i];
      }
    }
    forall q | q in Nums(w1.frames) && q !in w1.delivered ensures Coming(t, q) {
      var f :| f in w1.frames && f.num == q;
      assert Sent(w1, t.w, f);
      var i :| |w1.wire| <= i < |t.w.wire| && t.w.wire[i] == Report(f);
      WireIsComing(t, i, q);
    }
  }

  lemma WireIsComing(t: System, i: nat, q: nat)
    requires t.taken <= i < |t.w.wire| && Brings(t.w.wire[i], q)
    ensures Coming(t, q)
  {
    assert Pending(t)[i - t.taken] == t.w.wire[i];
  }

  lemma BackstopKeepsOnItsWay(s: System)
    requires Inv(s) && OnItsWay(s)
    ensures OnItsWay(Apply(s, BackstopFired))
  {
    if s.w.awaitingAck {
      FlushBrings(s, s.w.(awaitingAck := false), Apply(s, BackstopFired));
    }
  }

  lemma AckKeepsOnItsWay(s: System, n: nat)
    requires Inv(s) && OnItsWay(s) && n <= s.h.appliedSeq
    ensures OnItsWay(WorkerReceives(s, LeaseAck(n)))
  {
    var kept := Above(s.w.frames, n);
    var w1 := s.w.(frames := kept,
                   delivered := if n == s.w.lastAckedSeq then s.w.delivered - Nums(kept) else s.w.delivered,
                   lastAckedSeq := n, awaitingAck := false);
    var t := WorkerReceives(s, LeaseAck(n));
    AboveFacts(s.w.frames, n);
    AboveNums(s.w.frames, n);
    FlushBrings(s, w1, t);
    forall q | 1 <= q <= t.w.lastSeq ensures Coming(t, q) {
      if !Coming(s, q) {
        assert q in Nums(s.w.frames) && q !in s.w.delivered;
        assert q > n ==> q in Nums(kept) && q !in w1.delivered;
      }
    }
  }

  lemma ReplayStepKeeps(s: System, step: Step)
    requires Inv(s) && Enabled(s, step) && ReplayStep(s, step) && (CaughtUp(s) || OnItsWay(s))
    ensures CaughtUp(Apply(s, step)) || OnItsWay(Apply(s, step))
  {
    if CaughtUp(s) {
      CaughtUpStays(s, step);
    } else if Progress(step) {
      ProgressStep(s, step);
    } else if step.BackstopFired? {
      BackstopKeepsOnItsWay(s);
    } else {
      AckKeepsOnItsWay(s, step.down.num);
    }
  }

  lemma {:induction false} ReplayKeeps(s: System, steps: seq<Step>)
    requires Inv(s) && (CaughtUp(s) || OnItsWay(s)) && Possible(s, steps) && Replaying(s, steps)
    ensures Inv(Exec(s, steps)) && (CaughtUp(Exec(s, steps)) || OnItsWay(Exec(s, steps)))
    decreases |steps|
  {
    if steps != [] {
      StepKeepsInv(s, steps[0]);
      ReplayStepKeeps(s, steps[0]);
      ReplayKeeps(Apply(s, steps[0]), steps[1..]);
    }
  }

  // ---------------------------------------------------------------- every replay catches up

  /** Every number is held, announced, with the host or on the current socket: no stray is counted on. */
  ghost predicate RecoverableWithoutStrays(s: System) {
    forall q :: 1 <= q <= s.w.lastSeq ==> q in Nums(s.w.frames) || q <= s.w.gapThrough || Coming(s, q)
  }

  lemma ReconnectedIsOnItsWay(s: System)
    requires Inv(s) && s.alive && s.h.held
    requires forall q :: 1 <= q <= s.w.lastSeq ==> q in Nums(s.w.frames) || q <= s.w.gapThrough || HostHas(s.h, q)
    ensures Inv(Reconnected(s)) && OnItsWay(Reconnected(s))
  {
    ReconnectedFacts(s);
    assert forall q :: HostHas(s.h, q) ==> HostHas(Reconnected(s).h, q);
  }

  lemma DrainedThenReconnected(s: System, drain: seq<Step>)
    requires Inv(s) && s.alive && s.h.held && RecoverableWithoutStrays(s)
    requires AllProgress(drain) && Possible(s, drain) && Pending(Exec(s, drain)) == []
    ensures var t := Reconnected(Exec(s, drain)); Inv(t) && (CaughtUp(t) || OnItsWay(t))
  {
    ProgressRun(s, drain);
    var s1 := Exec(s, drain);
    if CaughtUp(s1) {
      ReconnectedFacts(s1);
    } else {
      ReconnectedIsOnItsWay(s1);
    }
  }

  lemma QuiescentIsCaughtUp(s: System)
    requires Inv(s) && (CaughtUp(s) || OnItsWay(s)) && Quiescent(s) && !s.w.awaitingAck
    ensures CaughtUp(s)
  {
    if !CaughtUp(s) {
      assert Pending(s) == [];
      IdleHostIsCaughtUp(s);
    }
  }

  /**
   * Every replay of a recoverable lease catches up: the current socket is drained, the worker
   * reconnects, and from there acks, the backstop, deliveries, host work and strays come in any order
   * whatever. As soon as the worker has been let send, the socket is drained and the host is idle,
   * the watermark is at the last frame ever reported.
   */
  lemma EveryReplayCatchesUp(s: System, drain: seq<Step>, replay: seq<Step>)
    requires Inv(s) && s.alive && s.h.held && RecoverableWithoutStrays(s)
    requires AllProgress(drain) && Possible(s, drain) && Pending(Exec(s, drain)) == []
    requires var t := Reconnected(Exec(s, drain));
             Possible(t, replay) && Replaying(t, replay) && Quiescent(Exec(t, replay)) && !Exec(t, replay).w.awaitingAck
    ensures CaughtUp(Exec(Reconnected(Exec(s, drain)), replay))
  {
    DrainedThenReconnected(s, drain);
    var s2 := Reconnected(Exec(s, drain));
    ReplayKeeps(s2, replay);
    QuiescentIsCaughtUp(Exec(s2, replay));
  }
}
