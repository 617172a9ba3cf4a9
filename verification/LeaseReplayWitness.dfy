/** A replay that comes about: one frame, reported offline, goes through after a reconnect. */
module LeaseReplayWitness {
  import opened LeaseTypes
  import opened WorkerModel
  import opened HostModel
  import opened LeaseSystem
  import opened LeaseInvariant
  import opened LeaseCatchUp
  import opened LeaseReplay
  import opened LeaseOneFrame
  import LeaseHole

  const REPLAY: seq<Step> := [BackstopFired, DeliverUp, WriteLands, WriteRecorded]

  lemma ReplayOne(s: System, step: Step, rest: seq<Step>)
    requires Enabled(s, step) && ReplayStep(s, step) && Possible(Apply(s, step), rest)
    requires Replaying(Apply(s, step), rest)
    ensures Possible(s, [step] + rest) && Replaying(s, [step] + rest)
    ensures Exec(s, [step] + rest) == Exec(Apply(s, step), rest)
  {
    assert ([step] + rest)[1..] == rest;
  }

  /** The worker reconnected, still unanswered, with the frame to send. */
  ghost predicate Waiting(t: System) {
    && t.w.frames == [Lone(RunPatch)] && t.w.registered && t.w.awaitingAck && t.w.delivered == {} && t.w.wire == []
    && t.taken == 0 && t.h == Installed(true, 0)
  }

  lemma BackstopSends(t: System)
    requires Waiting(t)
    ensures var u := Apply(t, BackstopFired);
            u == t.(w := t.w.(awaitingAck := false, delivered := {1}, wire := [Report(Lone(RunPatch))]))
  {
    var f := Lone(RunPatch);
    assert Undelivered([f], {}) == [f] + Undelivered([f][1..], {1}) == [f];
    assert Nums([f]) == {1} && {} + {1} == {1};
    assert Reports([f]) == [Report(f)] && [] + [Report(f)] == [Report(f)];
  }

  lemma ReplayGoesThrough(t: System)
    requires Waiting(t)
    ensures Possible(t, REPLAY) && Replaying(t, REPLAY)
    ensures Quiescent(Exec(t, REPLAY)) && !Exec(t, REPLAY).w.awaitingAck
  {
    BackstopSends(t);
    LoneIsApplied(Lone(RunPatch));
    var u1 := Apply(t, BackstopFired);
    var u2 := Apply(u1, DeliverUp);
    var u3 := Apply(u2, WriteLands);
    var u4 := Apply(u3, WriteRecorded);
    assert Possible(u4, []) && Replaying(u4, []);
    ReplayOne(u3, WriteRecorded, []);
    ReplayOne(u2, WriteLands, [WriteRecorded] + []);
    ReplayOne(u1, DeliverUp, [WriteLands] + ([WriteRecorded] + []));
    ReplayOne(t, BackstopFired, [DeliverUp] + ([WriteLands] + ([WriteRecorded] + [])));
    assert REPLAY == [BackstopFired] + ([DeliverUp] + ([WriteLands] + ([WriteRecorded] + [])));
  }

  lemma Offline() returns (s: System)
    ensures Inv(s) && s.alive && s.h == Installed(true, 0) && s.taken == |s.w.wire| && s.w.lastSeq == 1
    ensures s.w.frames == [Lone(RunPatch)] && s.w.gapThrough == 0 && s.w.queue == []
  {
    var s1 := LeaseHole.OfflineStart();
    s := LeaseHole.FirstReport(s1);
  }

  lemma OfflineIsRecoverable(s: System)
    requires s.w.frames == [Lone(RunPatch)] && s.w.lastSeq == 1 && s.taken == |s.w.wire| && s.h == Installed(true, 0)
    ensures RecoverableWithoutStrays(s) && !CaughtUp(s) && Pending(s) == []
  {
    assert Lone(RunPatch) in s.w.frames;
    assert 1 in Nums(s.w.frames);
  }

  lemma OfflineReconnects(s: System)
    requires s.alive && s.w.frames == [Lone(RunPatch)] && s.w.gapThrough == 0 && s.w.queue == []
    requires s.h == Installed(true, 0)
    ensures Waiting(Reconnected(s))
  {
    OpenedFacts(s);
  }

  /** All that `EveryReplayCatchesUp` asks for, met by a lease that was behind. */
  lemma ReplayComesAbout() returns (s: System)
    ensures Inv(s) && s.alive && s.h.held && RecoverableWithoutStrays(s) && !CaughtUp(s)
    ensures AllProgress([]) && Possible(s, []) && Pending(Exec(s, [])) == []
    ensures var t := Reconnected(Exec(s, []));
            Possible(t, REPLAY) && Replaying(t, REPLAY) && Quiescent(Exec(t, REPLAY)) && !Exec(t, REPLAY).w.awaitingAck
  {
    s := Offline();
    OfflineIsRecoverable(s);
    OfflineReconnects(s);
    ReplayGoesThrough(Reconnected(s));
  }
}
