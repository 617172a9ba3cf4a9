/**
 * One run of the host for each way a run ends up with two workers: each starts with a single run,
 * takes one step that overtakes, and ends with two dispatched leases the host holds for that run.
 */
module DispatchWitnesses {
  import opened LeaseStoreModel
  import opened RunRecovery
  import opened DurableDispatch

  const RUN: RunId := 7

  const QUEUED: seq<Run> := [Run(RUN, Queued, 0)]

  const CLAIM: Persisted := Persisted(RUN, 0)

  /** Two leases, both dispatched and both held, are for the run. */
  ghost predicate InTwoHands(s: Sys, a: LeaseId, b: LeaseId) {
    a != b && {a, b} <= Live(s) && a in s.runOf && b in s.runOf && s.runOf[a] == s.runOf[b] == RUN
  }

  lemma {:induction false} Then(s: Sys, steps: seq<Step>, step: Step)
    requires Possible(s, steps) && Enabled(Exec(s, steps), step)
    ensures Possible(s, steps + [step]) && Exec(s, steps + [step]) == Apply(Exec(s, steps), step)
    decreases |steps|
  {
    if steps == [] {
      assert [step][1..] == [];
      assert Possible(Apply(s, step), []);
    } else {
      assert (steps + [step])[0] == steps[0] && (steps + [step])[1..] == steps[1..] + [step];
      Then(Apply(s, steps[0]), steps[1..], step);
    }
  }

  // ---------------------------------------------------------------- states on the way

  /** Lease 0 is taken and its claim is being written. */
  const CLAIMING: Sys :=
    Sys(Store(map[0 := CLAIM], false, [], Writing(0, map[0 := CLAIM]), map[], 1, true), {0}, map[0 := 0], {},
        map[0 := RUN], QUEUED, [])

  /** Lease 0's dispatch went out. */
  const DISPATCHED: Sys :=
    Sys(Store(map[0 := CLAIM], false, [], Nothing, map[0 := CLAIM], 1, true), {0}, map[], {0}, map[0 := RUN],
        QUEUED, [])

  lemma Claiming() returns (steps: seq<Step>)
    ensures Possible(EMPTY, steps) && Exec(EMPTY, steps) == CLAIMING
  {
    steps := [];
    Then(EMPTY, [], NewRun(RUN, 0));
    var s1 := Apply(EMPTY, NewRun(RUN, 0));
    assert s1 == EMPTY.(runs := QUEUED, queue := [RUN]);
    Then(EMPTY, [] + [NewRun(RUN, 0)], Dispatch(0));
    var s2 := Apply(s1, Dispatch(0));
    steps := [] + [NewRun(RUN, 0)] + [Dispatch(0)];
    assert s2.queue == [] && s2.store.waiting == [0];
    Then(EMPTY, steps, TaskStart);
    steps := steps + [TaskStart];
    assert s2.store.waiting[1..] == [];
  }

  lemma Dispatched() returns (steps: seq<Step>)
    ensures Possible(EMPTY, steps) && Exec(EMPTY, steps) == DISPATCHED
  {
    steps := Claiming();
    Then(EMPTY, steps, TaskSettle(true));
    steps := steps + [TaskSettle(true)];
    assert CLAIMING.claims - {0} == map[];
  }

  /** From a host with nothing queued for writing and the run at the head: dispatching a new lease makes it live. */
  lemma DispatchGoesOut(s: Sys, steps: seq<Step>, l: LeaseId) returns (all: seq<Step>)
    requires Possible(EMPTY, steps) && Exec(EMPTY, steps) == s
    requires s.queue == [RUN] && s.runs == QUEUED && l !in s.runOf
    requires s.store.waiting == [] && s.store.running.Nothing?
    ensures Possible(EMPTY, all)
    ensures var t := Exec(EMPTY, all);
            && t.registry == s.registry + {l} && t.sent == s.sent + {l} && t.runOf == s.runOf[l := RUN]
            && t.store.disk == s.store.leases[l := CLAIM] && t.runs == s.runs
  {
    Then(EMPTY, steps, Dispatch(l));
    var s1 := Apply(s, Dispatch(l));
    all := steps + [Dispatch(l)];
    assert s1.store.waiting == [s.store.nextTask] && s1.queue == [];
    Then(EMPTY, all, TaskStart);
    var s2 := Apply(s1, TaskStart);
    all := all + [TaskStart];
    Then(EMPTY, all, TaskSettle(true));
    all := all + [TaskSettle(true)];
    assert IsClaim(s2) && Claimed(s2) == l;
  }

  // ---------------------------------------------------------------- a retry of a run still leased

  /**
   * A run-patch has recorded the run as finished, its run-complete has not come yet: a retry queues
   * the run although its lease is still held.
   */
  lemma RetryOfALeasedRun() returns (steps: seq<Step>)
    ensures Possible(EMPTY, steps) && InTwoHands(Exec(EMPTY, steps), 0, 1)
  {
    steps := Dispatched();
    Then(EMPTY, steps, StatusChanges(0, Terminal, 0));
    var s1 := Apply(DISPATCHED, StatusChanges(0, Terminal, 0));
    steps := steps + [StatusChanges(0, Terminal, 0)];
    assert 0 in s1.registry && Leased(s1, RUN) && Overtakes(s1, Requeue(0, 0));
    Then(EMPTY, steps, Requeue(0, 0));
    var s2 := Apply(s1, Requeue(0, 0));
    assert s2 == DISPATCHED.(queue := [RUN]);
    steps := DispatchGoesOut(s2, steps + [Requeue(0, 0)], 1);
  }

  // ---------------------------------------------------------------- a claim failing behind another

  /** Lease 0 was settled while its claim was being written, and the run was dispatched again as lease 1. */
  const REDISPATCHED: Sys :=
    Sys(Store(map[1 := CLAIM], false, [1, 2], Writing(0, map[0 := CLAIM]), map[], 3, true), {1}, map[0 := 0,
        2 := 1], {},
        map[0 := RUN, 1 := RUN], QUEUED, [])

  lemma Redispatched() returns (steps: seq<Step>)
    ensures Possible(EMPTY, steps) && Exec(EMPTY, steps) == REDISPATCHED
  {
    steps := Claiming();
    Then(EMPTY, steps, Settle(0));
    var s1 := Apply(CLAIMING, Settle(0));
    assert CLAIMING.store.leases - {0} == map[] && s1.store.waiting == [1];
    Then(EMPTY, steps + [Settle(0)], Requeue(0, 0));
    var s2 := Apply(s1, Requeue(0, 0));
    assert s2 == s1.(queue := [RUN]);
    Then(EMPTY, steps + [Settle(0)] + [Requeue(0, 0)], Dispatch(1));
    steps := steps + [Settle(0)] + [Requeue(0, 0)] + [Dispatch(1)];
    var s3 := Apply(s2, Dispatch(1));
    assert s3.store.waiting == [1, 2] && s3.queue == [];
  }

  /**
   * The first lease's claim fails after the second was taken: its failure puts the run back on the
   * queue behind the second lease's back, and the run is dispatched a third time.
   */
  lemma FailedClaimBehindAnother() returns (steps: seq<Step>)
    ensures Possible(EMPTY, steps) && InTwoHands(Exec(EMPTY, steps), 1, 2)
  {
    steps := Redispatched();
    assert Leased(REDISPATCHED, RUN) && Overtakes(REDISPATCHED, TaskSettle(false));
    Then(EMPTY, steps, TaskSettle(false));
    var s1 := Apply(REDISPATCHED, TaskSettle(false));
    assert s1.queue == [RUN] && s1.claims == map[2 := 1];
    steps := steps + [TaskSettle(false)];
    var s5;
    steps, s5 := TwoWritesLand(s1, steps);
    steps := DispatchGoesOut(s5, steps, 2);
  }

  /** Two queued writes land; the second may be a claim. */
  lemma TwoWritesLand(s: Sys, steps: seq<Step>) returns (all: seq<Step>, t: Sys)
    requires Possible(EMPTY, steps) && Exec(EMPTY, steps) == s
    requires s.store.waiting == [1, 2] && s.store.running.Nothing? && 1 !in s.claims
    requires 2 in s.claims ==> s.claims[2] in s.registry && s.claims[2] in s.runOf
    ensures Possible(EMPTY, all) && Exec(EMPTY, all) == t
    ensures t == s.(store := s.store.(waiting := [], disk := s.store.leases, lastOk := true), claims := t.claims,
                    sent := if 2 in s.claims then s.sent + {s.claims[2]} else s.sent)
  {
    Then(EMPTY, steps, TaskStart);
    var s1 := Apply(s, TaskStart);
    assert s1.store.waiting == [2];
    Then(EMPTY, steps + [TaskStart], TaskSettle(true));
    var s2 := Apply(s1, TaskSettle(true));
    assert s.claims - {1} == s.claims;
    assert s2 == s.(store := s.store.(waiting := [2], disk := s.store.leases, lastOk := true));
    all := steps + [TaskStart] + [TaskSettle(true)];
    Then(EMPTY, all, TaskStart);
    var s3 := Apply(s2, TaskStart);
    assert s3.store.waiting == [];
    Then(EMPTY, all + [TaskStart], TaskSettle(true));
    all := all + [TaskStart] + [TaskSettle(true)];
    t := Apply(s3, TaskSettle(true));
  }

  // ---------------------------------------------------------------- a settled lease back from the file

  /** Lease 0 was settled, a late write put it back in the map, and the run was requeued. */
  lemma LateWritten() returns (steps: seq<Step>, s: Sys)
    ensures Possible(EMPTY, steps) && Exec(EMPTY, steps) == s
    ensures s == Sys(Store(map[0 := CLAIM], false, [1, 2], Nothing, map[0 := CLAIM], 3, true), {}, map[], {0},
                     map[0 := RUN], QUEUED, [RUN])
  {
    steps := Dispatched();
    Then(EMPTY, steps, Settle(0));
    var s1 := Apply(DISPATCHED, Settle(0));
    assert DISPATCHED.store.leases - {0} == map[] && s1.store.waiting == [1];
    Then(EMPTY, steps + [Settle(0)], LateWrite(0, 0));
    var s2 := Apply(s1, LateWrite(0, 0));
    assert s2.store.leases == map[0 := CLAIM] && s2.store.waiting == [1, 2];
    steps := steps + [Settle(0)] + [LateWrite(0, 0)];
    Then(EMPTY, steps, Requeue(0, 0));
    s := Apply(s2, Requeue(0, 0));
    assert s == s2.(queue := [RUN]);
    steps := steps + [Requeue(0, 0)];
  }

  lemma BothOnDisk() returns (steps: seq<Step>)
    ensures Possible(EMPTY, steps)
    ensures var s := Exec(EMPTY, steps);
            s.store.disk.Keys == s.sent == {0, 1} && s.runOf == map[0 := RUN, 1 := RUN] && s.runs == QUEUED
  {
    var s, t;
    steps, s := LateWritten();
    steps, t := TwoWritesLand(s, steps);
    steps := DispatchGoesOut(t, steps, 1);
  }

  /**
   * A frame's write lands on lease 0 after it was settled: the lease is back in the map, reaches the
   * file beside the lease the run is dispatched with next, and a restart takes both over.
   */
  lemma LateWriteThenCrash() returns (steps: seq<Step>)
    ensures Possible(EMPTY, steps) && InTwoHands(Exec(EMPTY, steps), 0, 1)
  {
    steps := BothOnDisk();
    BothRestored(Exec(EMPTY, steps));
    Then(EMPTY, steps, CrashAndRestart(false));
    steps := steps + [CrashAndRestart(false)];
  }

  lemma BothRestored(s: Sys)
    requires s.store.disk.Keys == s.sent == {0, 1} && s.runOf == map[0 := RUN, 1 := RUN] && s.runs == QUEUED
    ensures Overtakes(s, CrashAndRestart(false)) && InTwoHands(Restarted(s, false), 0, 1)
  {
    assert 0 in Kept(s) && 1 in Kept(s);
  }
}
