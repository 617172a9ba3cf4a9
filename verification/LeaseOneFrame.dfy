/** The shortest run of a lease: one frame is reported, handled, acknowledged and trimmed. */
module LeaseOneFrame {
  import opened LeaseTypes
  import opened WorkerModel
  import opened HostModel
  import opened LeaseSystem

  function Lone(kind: Kind): Frame { Frame(1, kind, PLAIN) }

  /** The worker once the frame is on the wire. */
  function Reporting(kind: Kind): Worker {
    Worker(1, [Lone(kind)], false, -1, 0, 0, true, {1}, [], [Report(Lone(kind))])
  }

  /** The worker once the frame is acknowledged. */
  function Trimmed(kind: Kind): Worker {
    Reporting(kind).(frames := [], lastAckedSeq := 1)
  }

  /** The host once the frame is recorded. */
  const APPLIED: Host := Host(true, 1, {}, {}, [], false, NoCompletion)

  lemma LoneIsReported(kind: Kind)
    ensures SendReporting(FRESH, kind, PLAIN) == Reporting(kind)
  {
    var f := Lone(kind);
    var w1 := FRESH.(lastSeq := 1, frames := [f]);
    assert [] + [f] == [f];
    assert CapLeaseBuffer(w1) == w1;
    assert Undelivered([f], {}) == [f] + Undelivered([f][1..], {1});
    assert Nums([f]) == {1};
    assert Reports([f]) == [Report(f)];
  }

  lemma LoneIsApplied(f: Frame)
    requires f.num == 1 && !f.kind.RunComplete?
    ensures var h := Deliver(Installed(true, 0), f);
            h.chain == [f] && !h.headLanded && RecordHead(WriteLanded(h)) == APPLIED
  {
    assert [f][1..] == [];
    assert {1} - {1} == {};
    assert Pulled(0, {1}) == Pulled(1, {1} - {1}) == 1;
    assert AboveSeq({1}, 1) == {};
  }

  lemma LoneIsTrimmed(kind: Kind)
    ensures OnLeaseAck(Reporting(kind), 1) == Trimmed(kind)
  {
    assert Above([Lone(kind)], 1) == Above([Lone(kind)][1..], 1) == [];
    assert {1} + Nums([]) == {1};
  }

  /** The frame's handler resolves: stored, or, for a kind that does not propagate a failure, not. */
  predicate Resolves(kind: Kind, handled: Step) {
    handled.WriteLands? || (handled == WriteDiscarded(false) && !Propagates(kind))
  }

  function AfterHandling(log: History, f: Frame, handled: Step): History {
    if handled.WriteLands? then Stored(log, f) else StoredNothing(log, f)
  }

  lemma DeliveredRun(kind: Kind) returns (steps: seq<Step>, s: System)
    requires !kind.RunComplete?
    ensures Possible(INITIAL, steps) && s == Exec(INITIAL, steps)
    ensures s == INITIAL.(w := Reporting(kind), taken := 1, h := Deliver(Installed(true, 0), Lone(kind)),
                          log := INITIAL.log.(issued := [Lone(kind)]))
  {
    LoneIsReported(kind);
    ExecThen(INITIAL, [], DoReport(kind, PLAIN));
    var s1 := Apply(INITIAL, DoReport(kind, PLAIN));
    assert NewlyDropped(FRESH, Lone(kind), s1.w) == {};
    assert s1 == INITIAL.(w := Reporting(kind), log := INITIAL.log.(issued := [Lone(kind)]));
    steps := [] + [DoReport(kind, PLAIN)];
    ExecThen(INITIAL, steps, DeliverUp);
    steps := steps + [DeliverUp];
    s := Apply(s1, DeliverUp);
  }

  lemma RecordedRun(kind: Kind, handled: Step) returns (steps: seq<Step>, s: System)
    requires !kind.RunComplete? && Resolves(kind, handled)
    ensures Possible(INITIAL, steps) && s == Exec(INITIAL, steps)
    ensures s == INITIAL.(w := Reporting(kind), taken := 1, h := APPLIED,
                          log := AfterHandling(INITIAL.log.(issued := [Lone(kind)]), Lone(kind), handled))
  {
    var s2;
    steps, s2 := DeliveredRun(kind);
    LoneIsApplied(Lone(kind));
    ExecThen(INITIAL, steps, handled);
    var s3 := Apply(s2, handled);
    steps := steps + [handled];
    ExecThen(INITIAL, steps, WriteRecorded);
    s := Apply(s3, WriteRecorded);
    steps := steps + [WriteRecorded];
  }

  /** The whole run: the worker has trimmed the frame, and the log says whether it was stored. */
  lemma AckedRun(kind: Kind, handled: Step) returns (steps: seq<Step>, s: System)
    requires !kind.RunComplete? && Resolves(kind, handled)
    ensures Possible(INITIAL, steps) && s == Exec(INITIAL, steps)
    ensures s.w == Trimmed(kind) && s.alive && s.taken == 1 && s.stale == {} && s.h == APPLIED && s.disk == 0
    ensures s.sent == {LeaseAck(1)} && s.log.issued == [Lone(kind)]
    ensures if handled.WriteLands? then 1 in s.log.store else s.log.store == map[] && s.log.discarded == {1}
  {
    var s4;
    steps, s4 := RecordedRun(kind, handled);
    LoneIsTrimmed(kind);
    ExecThen(INITIAL, steps, HostAcks);
    var s5 := Apply(s4, HostAcks);
    steps := steps + [HostAcks];
    ExecThen(INITIAL, steps, DeliverDown(LeaseAck(1)));
    s := Apply(s5, DeliverDown(LeaseAck(1)));
    steps := steps + [DeliverDown(LeaseAck(1))];
  }
}
