/**
 * What a restart makes of the leases and the queue, exactly; that a dispatch goes out once its claim
 * is durable and not before; and where runs stand on the queue.
 */
module DispatchRecovery {
  import opened LeaseStoreModel
  import opened LeaseStoreRuns
  import opened RunRecovery
  import opened D = DurableDispatch

  // ---------------------------------------------------------------- the restarted host

  /** The run is known and not finished. */
  ghost predicate Unfinished(runs: seq<Run>, id: RunId) {
    exists r :: r in runs && r.id == id && !r.status.Terminal?
  }

  lemma UnfinishedByStatus(runs: seq<Run>, id: RunId)
    requires DistinctIds(runs)
    ensures Unfinished(runs, id) <==> !StatusOf(runs, id).Terminal?
  {
    if r :| r in runs && r.id == id {
      StatusOfMember(runs, r);
      forall x | x in runs && x.id == id ensures x == r {
        var i :| 0 <= i < |runs| && runs[i] == x;
        var j :| 0 <= j < |runs| && runs[j] == r;
      }
    } else {
      NoStatus(runs, id);
    }
  }

  lemma {:induction false} NoStatus(runs: seq<Run>, id: RunId)
    requires forall r :: r in runs ==> r.id != id
    ensures StatusOf(runs, id).Terminal?
    decreases |runs|
  {
    if runs != [] {
      assert runs[0] in runs;
      NoStatus(runs[1..], id);
    }
  }

  lemma LeasedAfterRestart(s: Sys, timer: bool, id: RunId)
    ensures Leased(Restarted(s, timer), id) <==> id in RunsOf(Kept(s), s.runOf)
  {
  }

  lemma {:induction false} PushingDistinctAppends(queue: seq<RunId>, ids: seq<RunId>)
    requires NoRepeats(queue + ids)
    ensures PushAllNew(queue, ids) == queue + ids
    decreases |ids|
  {
    if ids == [] {
      assert queue + ids == queue;
    } else {
      var all := queue + ids;
      assert all[|queue|] == ids[0] && forall i :: 0 <= i < |queue| ==> all[i] == queue[i];
      assert queue + [ids[0]] + ids[1..] == all;
      PushingDistinctAppends(queue + [ids[0]], ids[1..]);
    }
  }

  lemma RestartedQueueIsThePlan(s: Sys, timer: bool)
    requires DistinctIds(s.runs)
    ensures Restarted(s, timer).queue == PlanRunRecovery(Pending(s.runs), RunsOf(Kept(s), s.runOf)).queue
  {
    var plan := PlanRunRecovery(Pending(s.runs), RunsOf(Kept(s), s.runOf));
    PendingKeepsOrder(s.runs, Run(0, Queued, 0), Run(0, Queued, 0));
    PlanQueuesOnce(Pending(s.runs), RunsOf(Kept(s), s.runOf));
    assert [] + plan.queue == plan.queue;
    PushingDistinctAppends([], plan.queue);
  }

  /**
   * A restart at any moment takes over exactly the leases in the file whose run is known and not
   * finished, and queues exactly the runs recorded as queued that none of them holds.
   */
  lemma RestartRestoresExactly(steps: seq<Step>, timer: bool)
    requires D.Possible(EMPTY, steps)
    ensures var s := D.Exec(EMPTY, steps); var t := D.Apply(s, CrashAndRestart(timer));
            && (forall l :: l in t.registry <==>
                  l in s.store.disk && l in s.runOf && Unfinished(s.runs, s.runOf[l]))
            && (forall id :: id in t.queue <==>
                  !Leased(t, id) && exists r :: r in s.runs && r.id == id && r.status.Queued?)
            && t.runs == s.runs && t.sent == s.sent && (t.store.timer <==> timer && t.registry != {})
  {
    D.ReachableInv(steps);
    var s := D.Exec(EMPTY, steps);
    var t := D.Apply(s, CrashAndRestart(timer));
    forall l | l in s.runOf ensures Unfinished(s.runs, s.runOf[l]) <==> !StatusOf(s.runs, s.runOf[l]).Terminal? {
      UnfinishedByStatus(s.runs, s.runOf[l]);
    }
    RestartedQueueIsThePlan(s, timer);
    PendingFacts(s.runs);
    forall id ensures id in t.queue <==>
        !Leased(t, id) && exists r :: r in s.runs && r.id == id && r.status.Queued? {
      LeasedAfterRestart(s, timer, id);
      PlanMembers(Pending(s.runs), RunsOf(Kept(s), s.runOf), id);
    }
  }

  /**
   * After a restart the queue is first in, first out again: of two queued runs no restored lease
   * holds, the one queued earlier stands earlier, runs queued at the same time as they were listed.
   */
  lemma RestartQueuesInOrder(steps: seq<Step>, timer: bool, x: Run, y: Run)
    requires D.Possible(EMPTY, steps)
    requires var s := D.Exec(EMPTY, steps); var t := D.Apply(s, CrashAndRestart(timer));
             && x in s.runs && y in s.runs && x.status.Queued? && y.status.Queued?
             && !Leased(t, x.id) && !Leased(t, y.id)
             && (x.queuedAt < y.queuedAt || (x.queuedAt == y.queuedAt && Precedes(s.runs, x, y)))
    ensures Precedes(D.Apply(D.Exec(EMPTY, steps), CrashAndRestart(timer)).queue, x.id, y.id)
  {
    ReachableIdsAreDistinct(steps);
    RestartIsRestarted(D.Exec(EMPTY, steps), timer);
    RestartedQueueIsInOrder(D.Exec(EMPTY, steps), timer, x, y);
  }

  lemma ReachableIdsAreDistinct(steps: seq<Step>)
    requires D.Possible(EMPTY, steps)
    ensures DistinctIds(D.Exec(EMPTY, steps).runs)
  {
    D.ReachableInv(steps);
  }

  lemma RestartIsRestarted(s: Sys, timer: bool)
    ensures D.Apply(s, CrashAndRestart(timer)) == Restarted(s, timer)
  {
  }

  lemma RestartedQueueIsInOrder(s: Sys, timer: bool, x: Run, y: Run)
    requires DistinctIds(s.runs) && x in s.runs && y in s.runs && x.status.Queued? && y.status.Queued?
    requires !Leased(Restarted(s, timer), x.id) && !Leased(Restarted(s, timer), y.id)
    requires x.queuedAt < y.queuedAt || (x.queuedAt == y.queuedAt && Precedes(s.runs, x, y))
    ensures Precedes(Restarted(s, timer).queue, x.id, y.id)
  {
    LeasedAfterRestart(s, timer, x.id);
    LeasedAfterRestart(s, timer, y.id);
    RestartedQueueIsThePlan(s, timer);
    PlanOfAllQueuesInOrder(s.runs, RunsOf(Kept(s), s.runOf), x, y);
  }

  lemma PlanOfAllQueuesInOrder(runs: seq<Run>, leasedRuns: set<RunId>, x: Run, y: Run)
    requires DistinctIds(runs) && x in runs && y in runs && x.status.Queued? && y.status.Queued?
    requires x.id !in leasedRuns && y.id !in leasedRuns
    requires x.queuedAt < y.queuedAt || (x.queuedAt == y.queuedAt && Precedes(runs, x, y))
    ensures Precedes(PlanRunRecovery(Pending(runs), leasedRuns).queue, x.id, y.id)
  {
    PendingFacts(runs);
    PendingKeepsOrder(runs, x, y);
    PlanQueuesInOrder(Pending(runs), leasedRuns, x, y);
  }

  // ---------------------------------------------------------------- durable before dispatch

  /**
   * A dispatch frame goes out in one way: the write of the lease's own claim lands, with the lease
   * still held; and at that moment the lease is in the file.
   */
  lemma DispatchGoesOutExactlyWhen(steps: seq<Step>, step: Step, l: LeaseId)
    requires D.Possible(EMPTY, steps) && D.Enabled(D.Exec(EMPTY, steps), step) && l !in D.Exec(EMPTY, steps).sent
    ensures var s := D.Exec(EMPTY, steps); var t := D.Apply(s, step);
            && (l in t.sent <==> step == TaskSettle(true) && IsClaim(s) && Claimed(s) == l && l in s.registry)
            && (l in t.sent ==> l in t.registry && l in t.store.disk)
  {
    D.ReachableInv(steps);
  }

  // ---------------------------------------------------------------- places on the queue

  /** A run given back goes first; a run queued anew goes last, and keeps its place if it has one. */
  lemma GivenBackGoesFirst(s: Sys, step: Step, l: LeaseId)
    requires D.Enabled(s, step) && l in s.runOf
    requires step == WorkerRejects(l) || (step == TaskSettle(false) && IsClaim(s) && Claimed(s) == l)
    ensures var t := D.Apply(s, step); var r := s.runOf[l];
            && l !in t.registry
            && t.queue == if StatusOf(s.runs, r).Queued? && r !in s.queue then [r] + s.queue else s.queue
  {
  }

  lemma RequeuedGoesLast(s: Sys, i: nat, at: nat)
    requires D.Enabled(s, Requeue(i, at))
    ensures var t := D.Apply(s, Requeue(i, at)); var r := s.runs[i].id;
            && t.runs[i] == Run(r, Queued, at)
            && t.queue == if r in s.queue then s.queue else s.queue + [r]
  {
  }

  /**
   * A new run goes last, too; a dispatch takes the first, for a claim at watermark 0, and what cannot
   * be dispatched any more is dropped from the front.
   */
  lemma DispatchTakesTheFirst(s: Sys, id: RunId, at: nat, l: LeaseId)
    ensures D.Enabled(s, DropHead) ==> s.queue == [s.queue[0]] + D.Apply(s, DropHead).queue
    ensures D.Enabled(s, NewRun(id, at)) ==>
              var t := D.Apply(s, NewRun(id, at)); t.queue == s.queue + [id] && t.runs == s.runs + [Run(id, Queued, at)]
    ensures D.Enabled(s, Dispatch(l)) ==>
              var t := D.Apply(s, Dispatch(l));
              && s.queue == [t.runOf[l]] + t.queue && t.registry == s.registry + {l} && t.sent == s.sent
              && t.store.leases == s.store.leases[l := Persisted(s.queue[0], 0)]
  {
  }

  /** A cancelled run leaves the queue, and the others stay, in their order. */
  lemma CancelTakesOneRun(s: Sys, id: RunId, x: RunId, y: RunId)
    requires x != id && y != id
    ensures var t := D.Apply(s, Cancel(id));
            && id !in t.queue && (x in t.queue <==> x in s.queue)
            && (Precedes(t.queue, x, y) <==> Precedes(s.queue, x, y))
  {
    WithoutFacts(s.queue, id);
    WithoutKeepsOrder(s.queue, id, x, y);
  }

  lemma {:induction false} WithoutKeepsOrder(queue: seq<RunId>, id: RunId, x: RunId, y: RunId)
    requires x != id && y != id
    ensures Precedes(Without(queue, id), x, y) <==> Precedes(queue, x, y)
    decreases |queue|
  {
    if queue != [] {
      var head, rest := queue[0], queue[1..];
      assert queue == [head] + rest;
      WithoutKeepsOrder(rest, id, x, y);
      WithoutFacts(rest, id);
      HeadPrecedes(head, rest, x, y);
      HeadPrecedes(head, Without(rest, id), x, y);
    }
  }

  // ---------------------------------------------------------------- the file follows the map

  /** A watermark is in the map under its lease and run, and on its way to the file, late or not. */
  lemma WatermarkReachesTheMap(steps: seq<Step>, step: Step)
    requires D.Possible(EMPTY, steps) && D.Enabled(D.Exec(EMPTY, steps), step) && (step.Watermark? || step.LateWrite?)
    ensures var s := D.Exec(EMPTY, steps); var t := D.Apply(s, step).store;
            && step.lease in s.runOf
            && t.leases == s.store.leases[step.lease := Persisted(s.runOf[step.lease], step.appliedSeq)]
            && (t.timer || t.waiting != [])
  {
    D.ReachableInv(steps);
  }

  /** The debounce's timer fires into a queued write. */
  lemma TimerQueuesTheWrite(s: Sys)
    requires D.Enabled(s, D.Step.TimerFires)
    ensures var t := D.Apply(s, D.Step.TimerFires).store;
            && t.leases == s.store.leases && !t.timer && t.waiting == s.store.waiting + [s.store.nextTask]
  {
  }

  /** A run's status is what was last recorded of it. */
  lemma StatusIsRecorded(steps: seq<Step>, i: nat, status: Status, at: nat)
    requires D.Possible(EMPTY, steps) && D.Enabled(D.Exec(EMPTY, steps), StatusChanges(i, status, at))
    ensures var s := D.Exec(EMPTY, steps); var t := D.Apply(s, StatusChanges(i, status, at));
            && StatusOf(t.runs, s.runs[i].id) == status
            && forall r :: r in s.runs && r.id != s.runs[i].id ==> r in t.runs
  {
    D.ReachableInv(steps);
    var s := D.Exec(EMPTY, steps);
    D.StepKeepsInv(s, StatusChanges(i, status, at));
    var t := D.Apply(s, StatusChanges(i, status, at));
    assert t.runs[i] in t.runs;
    StatusOfMember(t.runs, t.runs[i]);
    forall r | r in s.runs && r.id != s.runs[i].id ensures r in t.runs {
      var k :| 0 <= k < |s.runs| && s.runs[k] == r;
      assert t.runs[k] == r;
    }
  }

  lemma RestoredStoreAgrees(disk: Leases, kept: set<LeaseId>, timer: bool)
    requires kept <= disk.Keys
    ensures Agrees(RestoredStore(disk, kept, timer))
  {
    RestoredStoreFacts(disk, kept, timer);
    var t := RestoredStore(disk, kept, timer);
    if t.waiting == [] {
      NothingDropped(disk.Keys, kept);
      assert t.leases == disk;
    }
  }

  lemma NothingDropped(all: set<LeaseId>, kept: set<LeaseId>)
    requires kept <= all && |all - kept| == 0
    ensures kept == all
  {
    assert all - kept == {};
  }

  lemma SettledLeaseAgrees(s: Sys, l: LeaseId)
    requires Agrees(s.store)
    ensures Agrees(SettleLease(s, l).store)
  {
    DoKeepsAgreement(s.store, DoDelete(l));
  }

  lemma StepKeepsAgreement(s: Sys, step: Step)
    requires Agrees(s.store) && D.Enabled(s, step)
    ensures Agrees(D.Apply(s, step).store)
  {
    match step
    case Dispatch(l) => DoKeepsAgreement(s.store, DoPutDurable(l, Persisted(s.queue[0], 0)));
    case WorkerRejects(l) => SettledLeaseAgrees(s, l);
    case Watermark(l, n) => DoKeepsAgreement(s.store, DoPut(l, s.store.leases[l].(appliedSeq := n)));
    case LateWrite(l, n) => DoKeepsAgreement(s.store, DoPut(l, Persisted(s.runOf[l], n)));
    case Settle(l) => SettledLeaseAgrees(s, l);
    case TimerFires => DoKeepsAgreement(s.store, LeaseStoreRuns.TimerFires);
    case TaskStart => DoKeepsAgreement(s.store, WriteStarts);
    case TaskSettle(ok) =>
      DoKeepsAgreement(s.store, LeaseStoreRuns.WriteSettles(ok));
      if IsClaim(s) && !ok { SettledLeaseAgrees(D.WriteSettles(s, ok), Claimed(s)); }
    case CrashAndRestart(timer) => RestoredStoreAgrees(s.store.disk, Kept(s), timer);
    case _ =>
  }

  lemma {:induction false} RunKeepsAgreement(s: Sys, steps: seq<Step>)
    requires Agrees(s.store) && D.Possible(s, steps)
    ensures Agrees(D.Exec(s, steps).store)
    decreases |steps|
  {
    if steps != [] {
      StepKeepsAgreement(s, steps[0]);
      RunKeepsAgreement(D.Apply(s, steps[0]), steps[1..]);
    }
  }

  /**
   * Across crashes, too, nothing is forgotten: with no timer armed and no write queued or under way,
   * the file names exactly the leases of the map, dropped ones gone, unless the last write failed.
   */
  lemma FileFollowsTheMap(steps: seq<Step>)
    requires D.Possible(EMPTY, steps)
    ensures var s := D.Exec(EMPTY, steps).store;
            !s.timer && s.waiting == [] && s.running.Nothing? && s.lastOk ==> s.disk == s.leases
  {
    RunKeepsAgreement(EMPTY, steps);
  }
}
