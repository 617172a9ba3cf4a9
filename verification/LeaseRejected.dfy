/** A run-patch whose write is rejected takes effect after a later one: its resend comes behind it. */
module LeaseRejected {
  import opened LeaseTypes
  import opened WorkerModel
  import opened HostModel
  import opened LeaseSystem
  import opened LeaseOneFrame

  const FIRST: Frame := Lone(RunPatch)
  const SECOND: Frame := Frame(2, RunPatch, PLAIN)

  /** The worker with both patches on the wire, once or, after a stalled watermark, twice. */
  function Sending(lastAcked: int, times: nat): Worker {
    Worker(2, [FIRST, SECOND], false, lastAcked, 0, 0, true, {1, 2}, [], Twice(times))
  }

  function Twice(times: nat): seq<UpMsg> {
    if times == 0 then [] else Twice(times - 1) + [Report(FIRST), Report(SECOND)]
  }

  lemma SecondIsReported()
    ensures SendReporting(Reporting(RunPatch), RunPatch, PLAIN) == Sending(-1, 1)
  {
    var w1 := Reporting(RunPatch).(lastSeq := 2, frames := [FIRST, SECOND]);
    assert [FIRST] + [SECOND] == [FIRST, SECOND];
    assert CapLeaseBuffer(w1) == w1;
    assert Undelivered([FIRST, SECOND], {1}) == Undelivered([FIRST, SECOND][1..],
        {1}) == [SECOND] + Undelivered([], {1, 2});
    assert Nums([FIRST, SECOND]) == {1, 2} by { assert FIRST in [FIRST, SECOND] && SECOND in [FIRST, SECOND]; }
    assert Reports([SECOND]) == [Report(SECOND)];
    assert Twice(1) == Twice(0) + [Report(FIRST), Report(SECOND)];
  }

  /** Both patches reach the chain; the first is rejected, the second recorded ahead of it. */
  lemma HostTakesBoth()
    ensures var h1 := Deliver(Installed(true, 0), FIRST); var h2 := Deliver(h1, SECOND);
            && h2.chain == [FIRST, SECOND] && !h2.headLanded
            && WriteFailed(h2) == Host(true, 0, {}, {2}, [SECOND], false, NoCompletion)
            && RecordHead(WriteLanded(WriteFailed(h2))) == Host(true, 0, {2}, {}, [], false, NoCompletion)
  {
    assert [FIRST, SECOND][1..] == [SECOND] && [SECOND][1..] == [];
    assert {1, 2} - {1} == {2} && {2} - {2} == {};
    assert Pulled(0, {2}) == 0;
    assert AboveSeq({2}, 0) == {2};
  }

  lemma BothAreUnseen()
    ensures Undelivered([FIRST, SECOND], {}) == [FIRST, SECOND]
  {
    assert [SECOND][1..] == [] && Undelivered([], {1} + {2}) == [];
    assert Undelivered([SECOND], {1}) == [SECOND];
    assert [FIRST, SECOND][1..] == [SECOND] && {} + {1} == {1};
    assert [FIRST] + [SECOND] == [FIRST, SECOND];
  }

  /** A first ack at the stalled watermark changes nothing; a second one resends both. */
  lemma AcksResend()
    ensures OnLeaseAck(Sending(-1, 1), 0) == Sending(0, 1)
    ensures OnLeaseAck(Sending(0, 1), 0) == Sending(0, 2)
  {
    var both := [FIRST, SECOND];
    assert Above(both, 0) == [FIRST] + Above(both[1..], 0) == [FIRST] + ([SECOND] + Above(both[1..][1..], 0)) == both;
    assert Nums(both) == {1, 2} by { assert FIRST in both && SECOND in both; }
    assert Undelivered(both, {1, 2}) == Undelivered(both[1..], {1, 2}) == Undelivered(both[1..][1..], {1, 2}) == [];
    assert {1, 2} - Nums(both) == {};
    BothAreUnseen();
    assert Reports(both) == [Report(FIRST), Report(SECOND)];
    assert {1, 2} + {1, 2} == {1, 2} && {} + Nums(both) == {1, 2};
  }

  lemma BothTaken() returns (steps: seq<Step>, s: System)
    ensures Possible(INITIAL, steps) && s == Exec(INITIAL, steps)
    ensures s.w == Sending(-1, 1) && s.alive && s.taken == 2 && s.log.issued == [FIRST, SECOND] && s.log.life == []
    ensures s.h == Deliver(Deliver(Installed(true, 0), FIRST), SECOND)
  {
    var s1;
    steps, s1 := DeliveredRun(RunPatch);
    SecondIsReported();
    ExecThen(INITIAL, steps, DoReport(RunPatch, PLAIN));
    var s2 := Apply(s1, DoReport(RunPatch, PLAIN));
    steps := steps + [DoReport(RunPatch, PLAIN)];
    assert Twice(1) == Twice(0) + [Report(FIRST), Report(SECOND)];
    ExecThen(INITIAL, steps, DeliverUp);
    steps := steps + [DeliverUp];
    s := Apply(s2, DeliverUp);
  }

  lemma FirstRejected() returns (steps: seq<Step>, s: System)
    ensures Possible(INITIAL, steps) && s == Exec(INITIAL, steps)
    ensures s.w == Sending(-1, 1) && s.alive && s.taken == 2 && s.log.issued == [FIRST, SECOND] && s.log.life == [2]
    ensures s.h == Host(true, 0, {2}, {}, [], false, NoCompletion)
  {
    var s1;
    steps, s1 := BothTaken();
    HostTakesBoth();
    ExecThen(INITIAL, steps, WriteFails);
    var s2 := Apply(s1, WriteFails);
    steps := steps + [WriteFails];
    ExecThen(INITIAL, steps, WriteLands);
    var s3 := Apply(s2, WriteLands);
    steps := steps + [WriteLands];
    ExecThen(INITIAL, steps, WriteRecorded);
    s := Apply(s3, WriteRecorded);
    steps := steps + [WriteRecorded];
  }

  lemma BothResent() returns (steps: seq<Step>, s: System)
    ensures Possible(INITIAL, steps) && s == Exec(INITIAL, steps)
    ensures s.w == Sending(0, 2) && s.alive && s.taken == 2 && s.log.issued == [FIRST, SECOND] && s.log.life == [2]
    ensures s.h == Host(true, 0, {2}, {}, [], false, NoCompletion)
  {
    var s1;
    steps, s1 := FirstRejected();
    AcksResend();
    ExecThen(INITIAL, steps, HostAcks);
    var s2 := Apply(s1, HostAcks);
    steps := steps + [HostAcks];
    ExecThen(INITIAL, steps, DeliverDown(LeaseAck(0)));
    var s3 := Apply(s2, DeliverDown(LeaseAck(0)));
    steps := steps + [DeliverDown(LeaseAck(0))];
    ExecThen(INITIAL, steps, DeliverDown(LeaseAck(0)));
    s := Apply(s3, DeliverDown(LeaseAck(0)));
    steps := steps + [DeliverDown(LeaseAck(0))];
  }

  /**
   * Two run-patches; the first one's write is rejected and its resend accepted. Both are applied in
   * one host life, the first after the second, whose fields it may overwrite.
   */
  lemma RejectedPatchTakesEffectLate() returns (steps: seq<Step>)
    ensures Possible(INITIAL, steps)
    ensures var s := Exec(INITIAL, steps); s.log.issued == [FIRST, SECOND] && s.log.life == [2, 1]
  {
    var s1;
    steps, s1 := BothResent();
    assert Twice(2) == Twice(1) + [Report(FIRST), Report(SECOND)]
        && Twice(1) == Twice(0) + [Report(FIRST), Report(SECOND)];
    assert s1.w.wire[2] == Report(FIRST);
    ExecThen(INITIAL, steps, DeliverUp);
    var s2 := Apply(s1, DeliverUp);
    steps := steps + [DeliverUp];
    assert s2.h.chain == [FIRST];
    ExecThen(INITIAL, steps, WriteLands);
    steps := steps + [WriteLands];
  }
}
