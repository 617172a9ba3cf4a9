/**
 * A reachable lease with a hole nobody announces: the cap drops a run-event above a frame it must
 * keep, so the gap stays where it was, and the host waits for a number that will never come.
 */
module LeaseHole {
  import opened LeaseTypes
  import opened WorkerModel
  import opened HostModel
  import opened LeaseSystem
  import opened LeaseInvariant
  import opened LeaseSafety
  import opened LeaseCatchUp

  /** Offline, nothing acknowledged: the buffer holds a patch, a run-event, and only patches after them. */
  ghost predicate Filling(s: System, k: nat) {
    && Inv(s) && s.alive && s.h == Installed(true, 0) && s.disk == 0
    && !s.w.registered && s.stale == {} && s.taken == |s.w.wire| && s.w.gapThrough == 0 && s.log.trimmed == 0
    && s.w.frames == s.log.issued && |s.w.frames| == k && 2 <= k <= WORKER_REPLAY_BUFFER_LIMIT
    && s.w.frames[1].kind.RunEvent?
    && forall i :: 0 <= i < k && i != 1 ==> s.w.frames[i].kind.RunPatch?
  }

  /** An offline report that stays within the limit only appends. */
  lemma OfflineReport(w: Worker, kind: Kind)
    requires !w.registered && |w.frames| < WORKER_REPLAY_BUFFER_LIMIT
    ensures SendReporting(w, kind, PLAIN)
            == w.(lastSeq := w.lastSeq + 1, frames := w.frames + [Frame(w.lastSeq + 1, kind, PLAIN)])
  {
  }

  lemma OfflineStep(s: System, kind: Kind)
    requires Inv(s) && Enabled(s, DoReport(kind, PLAIN))
    requires !s.w.registered && |s.w.frames| < WORKER_REPLAY_BUFFER_LIMIT
    ensures var t := Apply(s, DoReport(kind, PLAIN));
            Inv(t) && t.w == SendReporting(s.w, kind, PLAIN)
            && t == s.(w := t.w, log := s.log.(issued := s.log.issued + [Frame(s.w.lastSeq + 1, kind, PLAIN)]))
  {
    StepKeepsInv(s, DoReport(kind, PLAIN));
    OfflineReport(s.w, kind);
    var f := Frame(s.w.lastSeq + 1, kind, PLAIN);
    assert Nums(s.w.frames + [f]) - Nums(s.w.frames + [f]) == {};
    assert s.log.dropped + {} == s.log.dropped;
  }

  lemma Start() returns (steps: seq<Step>)
    ensures Possible(INITIAL, steps) && Filling(Exec(INITIAL, steps), 2)
  {
    var s1 := OfflineStart();
    OneStep(INITIAL, SocketClosed);
    steps := FirstTwo([SocketClosed], s1);
  }

  lemma FirstTwo(steps: seq<Step>, s1: System) returns (all: seq<Step>)
    requires Possible(INITIAL, steps) && s1 == Exec(INITIAL, steps) && Inv(s1)
    requires s1 == INITIAL.(w := FRESH.(registered := false, awaitingAck := true))
    ensures Possible(INITIAL, all) && Filling(Exec(INITIAL, all), 2)
  {
    all := Continue(INITIAL, steps, DoReport(RunPatch, PLAIN));
    var s2 := FirstReport(s1);
    all := Continue(INITIAL, all, DoReport(RunEvent, PLAIN));
    SecondReport(s2);
  }

  const FIRST: Frame := Frame(1, RunPatch, PLAIN)

  lemma FirstReport(s1: System) returns (s2: System)
    requires Inv(s1) && s1 == INITIAL.(w := FRESH.(registered := false, awaitingAck := true))
    ensures s2 == Apply(s1, DoReport(RunPatch, PLAIN)) && Inv(s2)
    ensures s2 == s1.(w := s1.w.(lastSeq := 1, frames := [FIRST]), log := s1.log.(issued := [FIRST]))
  {
    OfflineStep(s1, RunPatch);
    OfflineReport(s1.w, RunPatch);
    s2 := Apply(s1, DoReport(RunPatch, PLAIN));
  }

  lemma SecondReport(s2: System)
    requires Inv(s2) && s2.w == FRESH.(registered := false, awaitingAck := true, lastSeq := 1, frames := [FIRST])
    requires s2 == INITIAL.(w := s2.w, log := INITIAL.log.(issued := [FIRST]))
    ensures Filling(Apply(s2, DoReport(RunEvent, PLAIN)), 2)
  {
    OfflineStep(s2, RunEvent);
    OfflineReport(s2.w, RunEvent);
  }

  /** The fresh lease with its socket closed. */
  lemma OfflineStart() returns (s: System)
    ensures s == Apply(INITIAL, SocketClosed) && Inv(s)
    ensures s == INITIAL.(w := FRESH.(registered := false, awaitingAck := true))
  {
    InitialInv();
    StepKeepsInv(INITIAL, SocketClosed);
    s := Apply(INITIAL, SocketClosed);
    assert Pending(INITIAL) == [];
    assert Messages([]) == {};
  }

  lemma Continue(s: System, steps: seq<Step>, step: Step) returns (all: seq<Step>)
    requires Possible(s, steps) && Enabled(Exec(s, steps), step)
    ensures Possible(s, all) && Exec(s, all) == Apply(Exec(s, steps), step)
  {
    ExecThen(s, steps, step);
    all := steps + [step];
  }

  lemma {:induction false} Fill(steps: seq<Step>, k: nat) returns (all: seq<Step>)
    requires Possible(INITIAL, steps) && Filling(Exec(INITIAL, steps), k)
    ensures Possible(INITIAL, all) && Filling(Exec(INITIAL, all), WORKER_REPLAY_BUFFER_LIMIT)
    decreases WORKER_REPLAY_BUFFER_LIMIT - k
  {
    if k == WORKER_REPLAY_BUFFER_LIMIT {
      return steps;
    }
    FillOne(Exec(INITIAL, steps), k);
    all := Continue(INITIAL, steps, DoReport(RunPatch, PLAIN));
    all := Fill(all, k + 1);
  }

  lemma FillOne(s: System, k: nat)
    requires Filling(s, k) && k < WORKER_REPLAY_BUFFER_LIMIT
    ensures Enabled(s, DoReport(RunPatch, PLAIN)) && Filling(Apply(s, DoReport(RunPatch, PLAIN)), k + 1)
  {
    OfflineStep(s, RunPatch);
    OfflineReport(s.w, RunPatch);
  }

  /** One more patch: the cap drops the run-event numbered 2, and the gap stays below frame 1. */
  lemma OverflowDropsTheEvent(w: Worker)
    requires !w.registered && w.gapThrough == 0 && |w.frames| == WORKER_REPLAY_BUFFER_LIMIT
    requires w.frames[0].num == 1 && w.frames[0].kind.RunPatch? && w.frames[1].kind.RunEvent?
    ensures var w' := SendReporting(w, RunPatch, PLAIN);
            && w'.frames == WithoutIndex(w.frames + [Frame(w.lastSeq + 1, RunPatch, PLAIN)], 1)
            && w'.gapThrough == 0 && w'.wire == w.wire && w'.lastSeq == w.lastSeq + 1 && w'.registered == w.registered
  {
    var all := w.frames + [Frame(w.lastSeq + 1, RunPatch, PLAIN)];
    assert IndexOf(all, RunEvent) == 1;
    assert VictimIndex(all) == 1;
    var kept := WithoutIndex(all, 1);
    assert |kept| == WORKER_REPLAY_BUFFER_LIMIT;
    assert Capped(all) == Capped(kept) == kept;
    assert kept[0] == w.frames[0];
  }

  /** With nothing droppable left, an offline report only appends, limit or no limit. */
  lemma FullReportAppends(w: Worker, kind: Kind)
    requires !w.registered && !Droppable(kind) && forall f :: f in w.frames ==> !Droppable(f.kind)
    ensures SendReporting(w, kind, PLAIN)
            == w.(lastSeq := w.lastSeq + 1, frames := w.frames + [Frame(w.lastSeq + 1, kind, PLAIN)])
  {
    var all := w.frames + [Frame(w.lastSeq + 1, kind, PLAIN)];
    VictimIsCheapest(all);
    assert Capped(all) == all;
  }

  /** Frame 2 is gone, and nothing anywhere brings it. */
  ghost predicate SecondLost(s: System) {
    && s.alive && s.h == Installed(true, 0) && s.stale == {} && s.taken == |s.w.wire| && !s.w.registered
    && 2 in s.log.dropped && s.w.lastSeq >= 2 && 2 !in Nums(s.w.frames) && s.w.gapThrough == 0
    && forall f :: f in s.w.frames ==> !Droppable(f.kind)
  }

  lemma SecondIsGone(s: System, frames: seq<Frame>)
    requires Filling(s, WORKER_REPLAY_BUFFER_LIMIT)
    requires frames == WithoutIndex(s.w.frames + [Frame(s.w.lastSeq + 1, RunPatch, PLAIN)], 1)
    ensures 2 !in Nums(frames)
  {
    var f := Frame(s.w.lastSeq + 1, RunPatch, PLAIN);
    AppendKeepsOrder(s.w, s.log, f);
    WithoutIndexFacts(s.w.frames + [f], 1);
    assert (s.w.frames + [f])[1] == s.log.issued[1];
  }

  lemma OnlyPatchesAreLeft(all: seq<Frame>)
    requires |all| > 1 && forall i :: 0 <= i < |all| && i != 1 ==> all[i].kind.RunPatch?
    ensures forall f :: f in WithoutIndex(all, 1) ==> !Droppable(f.kind)
  {
    assert forall i :: 0 <= i < |all| - 1 ==> WithoutIndex(all, 1)[i] == all[if i < 1 then i else i + 1];
  }

  lemma OverflowLosesTheSecond(s: System)
    requires Filling(s, WORKER_REPLAY_BUFFER_LIMIT)
    ensures SecondLost(Apply(s, DoReport(RunPatch, PLAIN)))
    ensures !Completed(Apply(s, DoReport(RunPatch, PLAIN)).log.issued)
  {
    var t := Apply(s, DoReport(RunPatch, PLAIN));
    assert s.w.frames[0] in s.w.frames && s.w.frames[1] in s.w.frames;
    OverflowDropsTheEvent(s.w);
    SecondIsGone(s, t.w.frames);
    OnlyPatchesAreLeft(s.w.frames + [Frame(s.w.lastSeq + 1, RunPatch, PLAIN)]);
    assert (s.w.frames + [Frame(s.w.lastSeq + 1, RunPatch, PLAIN)])[1].num == 2;
  }

  lemma CompletionChangesNothing(s: System)
    requires SecondLost(s) && !Completed(s.log.issued)
    ensures SecondLost(Apply(s, DoReport(RunComplete, PLAIN)))
    ensures Completed(Apply(s, DoReport(RunComplete, PLAIN)).log.issued)
  {
    var t := Apply(s, DoReport(RunComplete, PLAIN));
    FullReportAppends(s.w, RunComplete);
    assert forall f :: f in t.w.frames ==> f in s.w.frames || f.num == s.w.lastSeq + 1;
  }

  lemma SecondIsOutOfReach(s: System)
    requires SecondLost(s)
    ensures Hole(s, 2)
  {
    assert Pending(s) == [];
  }

  /**
   * There is a run after which the worker is alive and has reported its run-complete, the host holds
   * the lease, and frame 2 was dropped and never announced: whatever happens from there, the lease
   * never catches up, and the completion is never applied.
   */
  lemma UnannouncedHoleStrandsTheLease() returns (steps: seq<Step>)
    ensures Possible(INITIAL, steps)
    ensures var s := Exec(INITIAL, steps);
            && s.alive && s.h.held && Completed(s.log.issued) && 2 in s.log.dropped
            && forall more :: Possible(s, more) ==> Exec(s, more).h.appliedSeq < 2
  {
    steps := Start();
    steps := Fill(steps, 2);
    OverflowLosesTheSecond(Exec(INITIAL, steps));
    steps := Continue(INITIAL, steps, DoReport(RunPatch, PLAIN));
    CompletionChangesNothing(Exec(INITIAL, steps));
    steps := Continue(INITIAL, steps, DoReport(RunComplete, PLAIN));
    var s := Exec(INITIAL, steps);
    SecondIsOutOfReach(s);
    ReachableInv(steps);
    forall more | Possible(s, more) ensures Exec(s, more).h.appliedSeq < 2 {
      HoleBlocksEveryRun(s, more, 2);
    }
  }
}
