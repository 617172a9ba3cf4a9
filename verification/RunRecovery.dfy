/** Which runs a restarted host puts back on its queue, given the leases it restored. */
module RunRecovery {
  import opened LeaseStoreModel

  datatype Status = Queued | Active | Waiting | Terminal

  datatype Run = Run(id: RunId, status: Status, queuedAt: nat)

  datatype Plan = Plan(leased: seq<RunId>, queue: seq<RunId>, interrupted: seq<RunId>)

  /** Runs neither terminal nor waiting take part in recovery. */
  function Pending(runs: seq<Run>): seq<Run> {
    if runs == [] then []
    else if runs[0].status.Terminal? || runs[0].status.Waiting? then Pending(runs[1..])
    else [runs[0]] + Pending(runs[1..])
  }

  function Where(runs: seq<Run>, keep: Run -> bool): seq<Run> {
    if runs == [] then []
    else if keep(runs[0]) then [runs[0]] + Where(runs[1..], keep)
    else Where(runs[1..], keep)
  }

  /** Insert behind every run queued no later, so the order among equals is kept. */
  function Insert(r: Run, sorted: seq<Run>): seq<Run> {
    if sorted == [] then [r]
    else if r.queuedAt < sorted[0].queuedAt then [r] + sorted
    else [sorted[0]] + Insert(r, sorted[1..])
  }

  function ByQueuedAt(runs: seq<Run>): seq<Run> {
    if runs == [] then [] else Insert(runs[|runs| - 1], ByQueuedAt(runs[..|runs| - 1]))
  }

  function Ids(runs: seq<Run>): seq<RunId> {
    seq(|runs|, i requires 0 <= i < |runs| => runs[i].id)
  }

  function HasLease(leasedRuns: set<RunId>): Run -> bool {
    (r: Run) => r.id in leasedRuns
  }

  function Requeueable(leasedRuns: set<RunId>): Run -> bool {
    (r: Run) => r.status.Queued? && r.id !in leasedRuns
  }

  function Broken(leasedRuns: set<RunId>): Run -> bool {
    (r: Run) => !r.status.Queued? && r.id !in leasedRuns
  }

  /** Leases first: only runs without one are looked at by status, the queued ones oldest first. */
  function PlanRunRecovery(pending: seq<Run>, leasedRuns: set<RunId>): Plan {
    Plan(
      Ids(Where(pending, HasLease(leasedRuns))),
      Ids(ByQueuedAt(Where(pending, Requeueable(leasedRuns)))),
      Ids(Where(pending, Broken(leasedRuns))))
  }

  lemma {:induction false} WhereFacts(runs: seq<Run>, keep: Run -> bool)
    ensures forall r :: r in Where(runs, keep) <==> r in runs && keep(r)
  {
    if runs != [] {
      WhereFacts(runs[1..], keep);
      assert runs == [runs[0]] + runs[1..];
    }
  }

  lemma {:induction false} PendingFacts(runs: seq<Run>)
    ensures forall r :: r in Pending(runs) <==> r in runs && !r.status.Terminal? && !r.status.Waiting?
  {
    if runs != [] {
      PendingFacts(runs[1..]);
      assert runs == [runs[0]] + runs[1..];
    }
  }

  predicate DistinctIds(runs: seq<Run>) {
    forall i, j :: 0 <= i < j < |runs| ==> runs[i].id != runs[j].id
  }

  predicate InOrder(runs: seq<Run>) {
    forall i, j :: 0 <= i < j < |runs| ==> runs[i].queuedAt <= runs[j].queuedAt
  }

  lemma {:induction false} InsertMembers(r: Run, sorted: seq<Run>)
    ensures multiset(Insert(r, sorted)) == multiset(sorted) + multiset{r}
    ensures forall x :: x in Insert(r, sorted) <==> x == r || x in sorted
    decreases |sorted|
  {
    if sorted != [] {
      assert sorted == [sorted[0]] + sorted[1..];
      InsertMembers(r, sorted[1..]);
    }
  }

  lemma {:induction false} InsertFacts(r: Run, sorted: seq<Run>)
    requires InOrder(sorted)
    ensures InOrder(Insert(r, sorted)) && multiset(Insert(r, sorted)) == multiset(sorted) + multiset{r}
    decreases |sorted|
  {
    InsertMembers(r, sorted);
    if sorted != [] && r.queuedAt >= sorted[0].queuedAt {
      InsertFacts(r, sorted[1..]);
      InsertMembers(r, sorted[1..]);
      HeadIsLeast(sorted);
      PrependKeepsOrder(sorted[0], Insert(r, sorted[1..]));
    }
  }

  lemma HeadIsLeast(sorted: seq<Run>)
    requires InOrder(sorted) && sorted != []
    ensures forall x :: x in sorted ==> sorted[0].queuedAt <= x.queuedAt
  {
  }

  lemma PrependKeepsOrder(head: Run, rest: seq<Run>)
    requires InOrder(rest) && forall x :: x in rest ==> head.queuedAt <= x.queuedAt
    ensures InOrder([head] + rest)
  {
  }

  function QueuedAt(time: nat): Run -> bool {
    (r: Run) => r.queuedAt == time
  }

  lemma {:induction false} WhereLast(runs: seq<Run>, r: Run, keep: Run -> bool)
    ensures Where(runs + [r], keep) == Where(runs, keep) + if keep(r) then [r] else []
    decreases |runs|
  {
    if runs == [] {
      assert [r][1..] == [];
    } else {
      WhereLast(runs[1..], r, keep);
      assert (runs + [r])[1..] == runs[1..] + [r];
    }
  }

  lemma {:induction false} NoneQueuedAt(runs: seq<Run>, time: nat)
    requires forall x :: x in runs ==> x.queuedAt != time
    ensures Where(runs, QueuedAt(time)) == []
    decreases |runs|
  {
    if runs != [] { NoneQueuedAt(runs[1..], time); }
  }

  /** Inserting puts a run behind those queued at the same time. */
  lemma {:induction false} InsertGoesBehindEquals(r: Run, sorted: seq<Run>, time: nat)
    requires InOrder(sorted)
    ensures Where(Insert(r, sorted), QueuedAt(time))
         == Where(sorted, QueuedAt(time)) + if r.queuedAt == time then [r] else []
    decreases |sorted|
  {
    if sorted == [] {
      assert [r][1..] == [];
    } else if r.queuedAt < sorted[0].queuedAt {
      HeadIsLeast(sorted);
      assert ([r] + sorted)[1..] == sorted;
      if r.queuedAt == time { NoneQueuedAt(sorted, time); }
    } else {
      InsertGoesBehindEquals(r, sorted[1..], time);
      assert ([sorted[0]] + Insert(r, sorted[1..]))[1..] == Insert(r, sorted[1..]);
    }
  }

  /**
   * Sorting by time queued is a permutation in ascending order, and stable: runs queued at the same
   * time stay in the order they had.
   */
  lemma {:induction false} SortFacts(runs: seq<Run>)
    ensures InOrder(ByQueuedAt(runs)) && multiset(ByQueuedAt(runs)) == multiset(runs)
    ensures forall time :: Where(ByQueuedAt(runs), QueuedAt(time)) == Where(runs, QueuedAt(time))
    decreases |runs|
  {
    if runs != [] {
      var front, last := runs[..|runs| - 1], runs[|runs| - 1];
      assert runs == front + [last];
      SortFacts(front);
      InsertFacts(last, ByQueuedAt(front));
      forall time ensures Where(ByQueuedAt(runs), QueuedAt(time)) == Where(runs, QueuedAt(time)) {
        InsertGoesBehindEquals(last, ByQueuedAt(front), time);
        WhereLast(front, last, QueuedAt(time));
      }
    }
  }

  lemma SortMembers(runs: seq<Run>)
    ensures forall r :: r in ByQueuedAt(runs) <==> r in runs
  {
    SortFacts(runs);
    assert forall r :: r in ByQueuedAt(runs) <==> r in multiset(ByQueuedAt(runs));
    assert forall r :: r in runs <==> r in multiset(runs);
  }

  lemma IdsMembers(runs: seq<Run>, id: RunId)
    ensures id in Ids(runs) <==> exists r :: r in runs && r.id == id
  {
    if id in Ids(runs) {
      var i :| 0 <= i < |Ids(runs)| && Ids(runs)[i] == id;
      assert runs[i] in runs;
    }
    if r :| r in runs && r.id == id {
      var i :| 0 <= i < |runs| && runs[i] == r;
      assert Ids(runs)[i] == id;
    }
  }

  /**
   * The plan is a partition with leases first: a run with a restored lease is neither queued nor
   * interrupted whatever its status says, and every other pending run is queued exactly when its
   * status is queued and interrupted otherwise.
   */
  lemma RestoredLeaseDecides(pending: seq<Run>, leasedRuns: set<RunId>, r: Run)
    requires r in pending && DistinctIds(pending)
    ensures var plan := PlanRunRecovery(pending, leasedRuns);
            && (r.id in plan.leased <==> r.id in leasedRuns)
            && (r.id in plan.queue <==> r.id !in leasedRuns && r.status.Queued?)
            && (r.id in plan.interrupted <==> r.id !in leasedRuns && !r.status.Queued?)
  {
    PlanMembers(pending, leasedRuns, r.id);
    forall x | x in pending && x.id == r.id ensures x == r {
      var i :| 0 <= i < |pending| && pending[i] == x;
      var j :| 0 <= j < |pending| && pending[j] == r;
    }
  }

  lemma PlanMembers(pending: seq<Run>, leasedRuns: set<RunId>, id: RunId)
    ensures var plan := PlanRunRecovery(pending, leasedRuns);
            && (id in plan.leased <==> exists r :: r in pending && r.id == id && id in leasedRuns)
            && (id in plan.queue <==> exists r :: r in pending && r.id == id && r.status.Queued? && id !in leasedRuns)
            && (id in plan.interrupted <==>
                exists r :: r in pending && r.id == id && !r.status.Queued? && id !in leasedRuns)
  {
    WhereFacts(pending, HasLease(leasedRuns));
    WhereFacts(pending, Requeueable(leasedRuns));
    WhereFacts(pending, Broken(leasedRuns));
    SortMembers(Where(pending, Requeueable(leasedRuns)));
    IdsMembers(Where(pending, HasLease(leasedRuns)), id);
    IdsMembers(ByQueuedAt(Where(pending, Requeueable(leasedRuns))), id);
    IdsMembers(Where(pending, Broken(leasedRuns)), id);
  }

  // ---------------------------------------------------------------- the order of the plan

  /** `x` stands before `y`. */
  ghost predicate Precedes<T>(xs: seq<T>, x: T, y: T) {
    exists a, b :: 0 <= a < b < |xs| && xs[a] == x && xs[b] == y
  }

  /** Picking runs out keeps their order. */
  lemma {:induction false} WhereKeepsOrder(runs: seq<Run>, keep: Run -> bool, x: Run, y: Run)
    requires keep(x) && keep(y)
    ensures Precedes(Where(runs, keep), x, y) <==> Precedes(runs, x, y)
    decreases |runs|
  {
    if runs != [] {
      var head, rest := runs[0], runs[1..];
      assert runs == [head] + rest;
      WhereKeepsOrder(rest, keep, x, y);
      WhereFacts(rest, keep);
      HeadPrecedes(head, rest, x, y);
      HeadPrecedes(head, Where(rest, keep), x, y);
    }
  }

  lemma HeadPrecedes<T>(head: T, rest: seq<T>, x: T, y: T)
    ensures Precedes([head] + rest, x, y) <==> Precedes(rest, x, y) || (x == head && y in rest)
  {
    var all := [head] + rest;
    if Precedes(rest, x, y) {
      var a, b :| 0 <= a < b < |rest| && rest[a] == x && rest[b] == y;
      assert all[a + 1] == x && all[b + 1] == y;
    }
    if x == head && y in rest {
      var b :| 0 <= b < |rest| && rest[b] == y;
      assert all[0] == x && all[b + 1] == y;
    }
    if Precedes(all, x, y) {
      var a, b :| 0 <= a < b < |all| && all[a] == x && all[b] == y;
      assert rest[b - 1] == y;
      if a > 0 { assert rest[a - 1] == x; }
    }
  }

  /** In a sorted list the one queued earlier stands earlier. */
  lemma EarlierStandsEarlier(sorted: seq<Run>, x: Run, y: Run)
    requires InOrder(sorted) && x in sorted && y in sorted && x.queuedAt < y.queuedAt
    ensures Precedes(sorted, x, y)
  {
    var a :| 0 <= a < |sorted| && sorted[a] == x;
    var b :| 0 <= b < |sorted| && sorted[b] == y;
    assert a < b;
  }

  lemma SortedPrecedes(runs: seq<Run>, x: Run, y: Run)
    requires x in runs && y in runs
    requires x.queuedAt < y.queuedAt || (x.queuedAt == y.queuedAt && Precedes(runs, x, y))
    ensures Precedes(ByQueuedAt(runs), x, y)
  {
    var sorted := ByQueuedAt(runs);
    SortFacts(runs);
    SortMembers(runs);
    if x.queuedAt < y.queuedAt {
      EarlierStandsEarlier(sorted, x, y);
    } else {
      WhereKeepsOrder(runs, QueuedAt(x.queuedAt), x, y);
      WhereKeepsOrder(sorted, QueuedAt(x.queuedAt), x, y);
    }
  }

  lemma IdsKeepOrder(runs: seq<Run>, x: Run, y: Run)
    requires Precedes(runs, x, y)
    ensures Precedes(Ids(runs), x.id, y.id)
  {
    var a, b :| 0 <= a < b < |runs| && runs[a] == x && runs[b] == y;
    assert Ids(runs)[a] == x.id && Ids(runs)[b] == y.id;
  }

  lemma {:induction false} WhereKeepsIdsDistinct(runs: seq<Run>, keep: Run -> bool)
    requires DistinctIds(runs)
    ensures DistinctIds(Where(runs, keep))
    decreases |runs|
  {
    if runs != [] {
      WhereKeepsIdsDistinct(runs[1..], keep);
      WhereFacts(runs[1..], keep);
      assert forall r :: r in runs[1..] ==> r.id != runs[0].id;
    }
  }

  lemma {:induction false} InsertKeepsIdsDistinct(r: Run, sorted: seq<Run>)
    requires DistinctIds(sorted) && forall x :: x in sorted ==> x.id != r.id
    ensures DistinctIds(Insert(r, sorted))
    decreases |sorted|
  {
    if sorted != [] && r.queuedAt >= sorted[0].queuedAt {
      InsertKeepsIdsDistinct(r, sorted[1..]);
      InsertMembers(r, sorted[1..]);
      assert forall x :: x in sorted[1..] ==> x.id != sorted[0].id;
    }
  }

  lemma {:induction false} SortKeepsIdsDistinct(runs: seq<Run>)
    requires DistinctIds(runs)
    ensures DistinctIds(ByQueuedAt(runs))
    decreases |runs|
  {
    if runs != [] {
      var front, last := runs[..|runs| - 1], runs[|runs| - 1];
      SortKeepsIdsDistinct(front);
      SortMembers(front);
      InsertKeepsIdsDistinct(last, ByQueuedAt(front));
    }
  }

  predicate NoRepeats(queue: seq<RunId>) {
    forall i, j :: 0 <= i < j < |queue| ==> queue[i] != queue[j]
  }

  /**
   * The plan's queue: no run twice, and of two queued runs without a restored lease the one queued
   * earlier stands earlier, runs queued at the same time as they were listed.
   */
  lemma PlanQueuesInOrder(pending: seq<Run>, leasedRuns: set<RunId>, x: Run, y: Run)
    requires DistinctIds(pending) && x in pending && y in pending
    requires x.status.Queued? && y.status.Queued? && x.id !in leasedRuns && y.id !in leasedRuns
    requires x.queuedAt < y.queuedAt || (x.queuedAt == y.queuedAt && Precedes(pending, x, y))
    ensures NoRepeats(PlanRunRecovery(pending, leasedRuns).queue)
    ensures Precedes(PlanRunRecovery(pending, leasedRuns).queue, x.id, y.id)
  {
    var runs := Where(pending, Requeueable(leasedRuns));
    WhereFacts(pending, Requeueable(leasedRuns));
    WhereKeepsOrder(pending, Requeueable(leasedRuns), x, y);
    SortedPrecedes(runs, x, y);
    IdsKeepOrder(ByQueuedAt(runs), x, y);
    PlanQueuesOnce(pending, leasedRuns);
  }

  lemma PlanQueuesOnce(pending: seq<Run>, leasedRuns: set<RunId>)
    requires DistinctIds(pending)
    ensures NoRepeats(PlanRunRecovery(pending, leasedRuns).queue)
  {
    WhereKeepsIdsDistinct(pending, Requeueable(leasedRuns));
    SortKeepsIdsDistinct(Where(pending, Requeueable(leasedRuns)));
  }

  lemma {:induction false} PendingKeepsOrder(runs: seq<Run>, x: Run, y: Run)
    requires x.status.Queued? && y.status.Queued? && DistinctIds(runs)
    ensures Precedes(Pending(runs), x, y) <==> Precedes(runs, x, y)
    ensures DistinctIds(Pending(runs))
    decreases |runs|
  {
    if runs != [] {
      var head, rest := runs[0], runs[1..];
      assert runs == [head] + rest;
      PendingKeepsOrder(rest, x, y);
      PendingFacts(rest);
      HeadPrecedes(head, rest, x, y);
      HeadPrecedes(head, Pending(rest), x, y);
      assert forall r :: r in rest ==> r.id != head.id;
    }
  }
}
