/**
 * Durable before dispatch, over crashes. A dispatch frame goes out only once the lease's own write
 * has landed, so whatever step a crash strikes at, the restarted host finds every lease somebody
 * may be executing. Whether a run can be handed out twice is decided step by step: the three steps
 * that can start it, and exactly when they do, are in `Overtakes`.
 */
module DurableDispatch {
  import opened LeaseStoreModel
  import opened RunRecovery

  /**
   * `registry` is the host's leases, `claims` which lease each durable write is for, `sent` the
   * leases whose dispatch frame ever went out, `runOf` every lease id ever used, `queue` the
   * dispatch queue.
   */
  datatype Sys = Sys(
    store: Store,
    registry: set<LeaseId>,
    claims: map<nat, LeaseId>,
    sent: set<LeaseId>,
    runOf: map<LeaseId, RunId>,
    runs: seq<Run>,
    queue: seq<RunId>)

  /**
   * `Requeue` is a retry, a resumption or the requeue after an expiry. `LateWrite` is a frame's write
   * landing on a lease settled meanwhile: its watermark is put in the store all the same.
   */
  datatype Step =
    | NewRun(id: RunId, at: nat)
    | StatusChanges(i: nat, status: Status, at: nat)
    | Requeue(i: nat, at: nat)
    | Cancel(id: RunId)
    | DropHead
    | Dispatch(lease: LeaseId)
    | WorkerRejects(lease: LeaseId)
    | Watermark(lease: LeaseId, appliedSeq: nat)
    | LateWrite(lease: LeaseId, appliedSeq: nat)
    | Settle(lease: LeaseId)
    | TimerFires
    | TaskStart
    | TaskSettle(ok: bool)
    | CrashAndRestart(timer: bool)

  const EMPTY: Sys := Sys(Loaded(map[]), {}, map[], {}, map[], [], [])

  ghost predicate HasRun(runs: seq<Run>, id: RunId) {
    exists r :: r in runs && r.id == id
  }

  /** Leases a worker may be executing: dispatched, and held by the host. */
  function Live(s: Sys): set<LeaseId> {
    s.sent * s.registry
  }

  /** Some lease the host holds is for this run. */
  ghost predicate Leased(s: Sys, id: RunId) {
    exists l :: l in s.registry && l in s.runOf && s.runOf[l] == id
  }

  /** A run leaves the queue by dispatch only while its status is queued. */
  ghost predicate Enabled(s: Sys, step: Step) {
    match step
    case NewRun(id, _) => !HasRun(s.runs, id)
    case StatusChanges(i, _, _) => i < |s.runs|
    case Requeue(i, _) => i < |s.runs|
    case Cancel(_) => true
    case DropHead => s.queue != []
    case Dispatch(l) => s.queue != [] && StatusOf(s.runs, s.queue[0]).Queued? && l !in s.runOf
    case WorkerRejects(l) => l in s.registry && l in s.runOf
    case Watermark(l, n) => l in s.registry && l in s.store.leases && s.store.leases[l].appliedSeq <= n
    case LateWrite(l, n) => l in s.runOf && l !in s.registry
    case Settle(l) => l in s.registry
    case TimerFires => TimerCanFire(s.store)
    case TaskStart => TaskCanStart(s.store)
    case TaskSettle(_) => s.store.running.Writing?
    case CrashAndRestart(_) => true
  }

  function PushNew(queue: seq<RunId>, id: RunId): seq<RunId> {
    if id in queue then queue else queue + [id]
  }

  function PushAllNew(queue: seq<RunId>, ids: seq<RunId>): seq<RunId>
    decreases |ids|
  {
    if ids == [] then queue else PushAllNew(PushNew(queue, ids[0]), ids[1..])
  }

  function Without(queue: seq<RunId>, id: RunId): seq<RunId> {
    if queue == [] then []
    else if queue[0] == id then Without(queue[1..], id)
    else [queue[0]] + Without(queue[1..], id)
  }

  function StatusOf(runs: seq<Run>, id: RunId): Status
    decreases |runs|
  {
    if runs == [] then Terminal else if runs[0].id == id then runs[0].status else StatusOf(runs[1..], id)
  }

  /** Settling a lease the registry no longer holds does nothing. */
  function SettleLease(s: Sys, l: LeaseId): Sys {
    if l !in s.registry then s else s.(registry := s.registry - {l}, store := Delete(s.store, l))
  }

  /** The run goes back to the head of the queue, whoever else may hold it. */
  function RunRejected(s: Sys, r: RunId): Sys {
    if StatusOf(s.runs, r).Queued? && r !in s.queue then s.(queue := [r] + s.queue) else s
  }

  /** The durable write of a claim landed: send the dispatch, unless the lease was settled meanwhile. */
  function ClaimLanded(s: Sys, l: LeaseId): Sys {
    if l in s.registry then s.(sent := s.sent + {l}) else s
  }

  /** A claim that never became durable: its lease is settled, and its run offered for dispatch anew. */
  function GivenBack(s: Sys, l: LeaseId): Sys
    requires l in s.runOf
  {
    RunRejected(SettleLease(s, l), s.runOf[l])
  }

  /** Leases whose run is gone or terminal are dropped on restore; the rest are taken over. */
  function Kept(s: Sys): set<LeaseId> {
    set l | l in s.store.disk && l in s.runOf && !StatusOf(s.runs, s.runOf[l]).Terminal?
  }

  function RunsOf(leases: set<LeaseId>, runOf: map<LeaseId, RunId>): set<RunId> {
    set l | l in leases && l in runOf :: runOf[l]
  }

  /** The store after restore: every entry loaded, the dropped ones deleted again, each with its own write. */
  function RestoredStore(disk: Leases, kept: set<LeaseId>, timer: bool): Store {
    var dropped := |disk.Keys - kept|;
    Store(map l | l in kept && l in disk :: disk[l], timer && kept != {},
          seq(dropped, i requires 0 <= i < dropped => i), Nothing, disk, dropped, true)
  }

  function Restarted(s: Sys, timer: bool): Sys {
    var kept := Kept(s);
    Sys(RestoredStore(s.store.disk, kept, timer), kept, map[], s.sent, s.runOf, s.runs,
        PushAllNew([], PlanRunRecovery(Pending(s.runs), RunsOf(kept, s.runOf)).queue))
  }

  ghost function Apply(s: Sys, step: Step): Sys
    requires Enabled(s, step)
  {
    match step
    case NewRun(id, at) => s.(runs := s.runs + [Run(id, Queued, at)], queue := s.queue + [id])
    case StatusChanges(i, status, at) => s.(runs := s.runs[i := Run(s.runs[i].id, status, at)])
    case Requeue(i, at) =>
      s.(runs := s.runs[i := Run(s.runs[i].id, Queued, at)], queue := PushNew(s.queue, s.runs[i].id))
    case Cancel(id) => s.(queue := Without(s.queue, id))
    case DropHead => s.(queue := s.queue[1..])
    case Dispatch(l) =>
      var r := s.queue[0];
      s.(registry := s.registry + {l}, runOf := s.runOf[l := r], claims := s.claims[s.store.nextTask := l],
         store := PutDurable(s.store, l, Persisted(r, 0)), queue := s.queue[1..])
    case WorkerRejects(l) => GivenBack(s, l)
    case Watermark(l, n) => s.(store := Put(s.store, l, s.store.leases[l].(appliedSeq := n)))
    case LateWrite(l, n) => s.(store := Put(s.store, l, Persisted(s.runOf[l], n)))
    case Settle(l) => SettleLease(s, l)
    case TimerFires => s.(store := WriteNow(s.store))
    case TaskStart => s.(store := TaskStarts(s.store))
    case TaskSettle(ok) =>
      if !IsClaim(s) then WriteSettles(s, ok)
      else if ok then ClaimLanded(WriteSettles(s, ok), Claimed(s))
      else GivenBack(WriteSettles(s, ok), Claimed(s))
    case CrashAndRestart(timer) => Restarted(s, timer)
  }

  /** The running write is the one a dispatch waits for. */
  predicate IsClaim(s: Sys) {
    s.store.running.Writing? && s.store.running.task in s.claims && s.claims[s.store.running.task] in s.runOf
  }

  function Claimed(s: Sys): LeaseId
    requires IsClaim(s)
  {
    s.claims[s.store.running.task]
  }

  function WriteSettles(s: Sys, ok: bool): Sys
    requires s.store.running.Writing?
  {
    s.(store := TaskSettles(s.store, ok), claims := s.claims - {s.store.running.task})
  }

  // ---------------------------------------------------------------- what holds of every run

  /** A version of the lease file holds only leases once dispatched, each for its own run. */
  ghost predicate KnownLeases(leases: Leases, runOf: map<LeaseId, RunId>) {
    forall l :: l in leases ==> l in runOf && leases[l].runId == runOf[l]
  }

  ghost predicate StoreInv(s: Sys) {
    && s.registry <= s.store.leases.Keys && (forall t :: t in s.store.waiting ==> t < s.store.nextTask)
    && KnownLeases(s.store.leases, s.runOf)
    && KnownLeases(s.store.disk, s.runOf)
    && (s.store.running.Writing? ==>
        KnownLeases(s.store.running.snapshot, s.runOf) && s.store.running.task < s.store.nextTask)
  }

  /** No version of the file lacks a live lease; a claim being written and still held is in what is written. */
  ghost predicate LiveInv(s: Sys) {
    && Live(s) <= s.store.disk.Keys && s.sent <= s.runOf.Keys && s.claims.Values <= s.runOf.Keys
    && (s.store.running.Writing? ==> Live(s) <= s.store.running.snapshot.Keys)
    && (IsClaim(s) && Claimed(s) in s.registry ==> Claimed(s) in s.store.running.snapshot)
  }

  ghost predicate RunsInv(s: Sys) {
    && NoRepeats(s.queue)
    && (forall r :: r in s.queue ==> HasRun(s.runs, r))
    && (forall l :: l in s.runOf ==> HasRun(s.runs, s.runOf[l]))
    && DistinctIds(s.runs)
  }

  ghost predicate Inv(s: Sys) {
    StoreInv(s) && LiveInv(s) && RunsInv(s)
  }

  // ---------------------------------------------------------------- every step keeps it

  lemma {:induction false} PushAllNewFacts(queue: seq<RunId>, ids: seq<RunId>)
    requires NoRepeats(queue)
    ensures NoRepeats(PushAllNew(queue, ids))
    ensures forall r :: r in PushAllNew(queue, ids) <==> r in queue || r in ids
    decreases |ids|
  {
    if ids != [] {
      assert ids == [ids[0]] + ids[1..];
      PushAllNewFacts(PushNew(queue, ids[0]), ids[1..]);
    }
  }

  lemma {:induction false} WithoutFacts(queue: seq<RunId>, id: RunId)
    ensures forall r :: r in Without(queue, id) <==> r in queue && r != id
    ensures NoRepeats(queue) ==> NoRepeats(Without(queue, id))
    decreases |queue|
  {
    if queue != [] {
      assert queue == [queue[0]] + queue[1..];
      WithoutFacts(queue[1..], id);
      if NoRepeats(queue) {
        assert queue[0] !in queue[1..];
      }
    }
  }

  lemma PrependKeepsNoRepeats(queue: seq<RunId>, id: RunId)
    requires NoRepeats(queue) && id !in queue
    ensures NoRepeats([id] + queue)
  {
  }

  lemma SameIdsSameRuns(runs: seq<Run>, i: nat, r: Run)
    requires i < |runs| && r.id == runs[i].id
    ensures forall id :: HasRun(runs, id) <==> HasRun(runs[i := r], id)
    ensures DistinctIds(runs) ==> DistinctIds(runs[i := r])
  {
    var runs' := runs[i := r];
    forall id | HasRun(runs, id) ensures HasRun(runs', id) {
      var x :| x in runs && x.id == id;
      var k :| 0 <= k < |runs| && runs[k] == x;
      assert runs'[k] in runs';
    }
    forall id | HasRun(runs', id) ensures HasRun(runs, id) {
      var x :| x in runs' && x.id == id;
      var k :| 0 <= k < |runs'| && runs'[k] == x;
      assert runs[k] in runs;
    }
  }

  lemma NewRunKeepsInv(s: Sys, id: RunId, at: nat)
    requires Inv(s) && Enabled(s, NewRun(id, at))
    ensures Inv(Apply(s, NewRun(id, at)))
  {
    var r := Run(id, Queued, at);
    assert forall x :: x in s.runs + [r] <==> x in s.runs || x == r;
    assert forall k :: 0 <= k < |s.runs| ==> s.runs[k] in s.runs;
    assert r in s.runs + [r];
  }

  lemma RunStepsKeepInv(s: Sys, step: Step)
    requires Inv(s) && Enabled(s, step)
    requires step.StatusChanges? || step.Requeue? || step.Cancel? || step.DropHead?
    ensures Inv(Apply(s, step))
  {
    match step
    case StatusChanges(i, status, at) => SameIdsSameRuns(s.runs, i, Run(s.runs[i].id, status, at));
    case Requeue(i, at) =>
      assert s.runs[i] in s.runs && HasRun(s.runs, s.runs[i].id);
      SameIdsSameRuns(s.runs, i, Run(s.runs[i].id, Queued, at));
    case Cancel(id) => WithoutFacts(s.queue, id);
    case DropHead =>
  }

  lemma DispatchKeepsInv(s: Sys, l: LeaseId)
    requires Inv(s) && Enabled(s, Dispatch(l))
    ensures Inv(Apply(s, Dispatch(l)))
  {
    assert s.queue[0] in s.queue;
    assert l !in s.sent;
  }

  lemma SettleKeepsInv(s: Sys, l: LeaseId)
    requires Inv(s)
    ensures Inv(SettleLease(s, l))
  {
  }

  lemma RejectionKeepsInv(s: Sys, r: RunId)
    requires Inv(s) && HasRun(s.runs, r)
    ensures Inv(RunRejected(s, r))
  {
    if r !in s.queue { PrependKeepsNoRepeats(s.queue, r); }
  }

  lemma WatermarksKeepInv(s: Sys, step: Step)
    requires Inv(s) && Enabled(s, step) && (step.Watermark? || step.LateWrite?)
    ensures Inv(Apply(s, step))
  {
  }

  lemma StoreStepsKeepInv(s: Sys, step: Step)
    requires Inv(s) && Enabled(s, step) && (step.TimerFires? || step.TaskStart?)
    ensures Inv(Apply(s, step))
  {
    if step.TaskStart? {
      var waiting := s.store.waiting;
      assert waiting[0] in waiting;
      forall t: nat | t in waiting[1..] ensures t in waiting {
        var k :| 0 <= k < |waiting[1..]| && waiting[1..][k] == t;
        assert waiting[k + 1] == t;
      }
    }
  }

  /** A settled write, before its claim is looked at. */
  lemma WriteSettledKeepsInv(s: Sys, ok: bool)
    requires Inv(s) && s.store.running.Writing?
    ensures Inv(WriteSettles(s, ok))
  {
  }

  lemma TaskSettleKeepsInv(s: Sys, ok: bool)
    requires Inv(s) && Enabled(s, TaskSettle(ok))
    ensures Inv(Apply(s, TaskSettle(ok)))
  {
    WriteSettledKeepsInv(s, ok);
    if IsClaim(s) && !ok {
      SettleKeepsInv(WriteSettles(s, ok), Claimed(s));
      RejectionKeepsInv(SettleLease(WriteSettles(s, ok), Claimed(s)), s.runOf[Claimed(s)]);
    }
  }

  /** What the recovery plan queues has no restored lease and is a known run. */
  lemma PlanQueuesOnlyUnleased(s: Sys, id: RunId)
    requires id in PlanRunRecovery(Pending(s.runs), RunsOf(Kept(s), s.runOf)).queue
    ensures id !in RunsOf(Kept(s), s.runOf) && HasRun(s.runs, id)
  {
    PlanMembers(Pending(s.runs), RunsOf(Kept(s), s.runOf), id);
    PendingFacts(s.runs);
  }

  /** Recovery queues each run once, and none with a restored lease. */
  lemma RestartedQueue(s: Sys, timer: bool)
    ensures var t := Restarted(s, timer);
            NoRepeats(t.queue) && forall r :: r in t.queue ==> HasRun(t.runs, r) && !Leased(t, r)
  {
    var t := Restarted(s, timer);
    PushAllNewFacts([], PlanRunRecovery(Pending(s.runs), RunsOf(Kept(s), s.runOf)).queue);
    forall r | r in t.queue ensures HasRun(t.runs, r) && !Leased(t, r) {
      PlanQueuesOnlyUnleased(s, r);
    }
  }

  lemma RestoredStoreFacts(disk: Leases, kept: set<LeaseId>, timer: bool)
    requires kept <= disk.Keys
    ensures var t := RestoredStore(disk, kept, timer);
            && t.leases.Keys == kept && (forall l :: l in kept ==> t.leases[l] == disk[l])
            && (forall n :: n in t.waiting ==> n < t.nextTask) && t.disk == disk && t.running.Nothing?
  {
  }

  lemma RestartKeepsInv(s: Sys, timer: bool)
    requires Inv(s)
    ensures Inv(Restarted(s, timer))
  {
    RestoredStoreFacts(s.store.disk, Kept(s), timer);
    RestartedQueue(s, timer);
  }

  lemma StepKeepsInv(s: Sys, step: Step)
    requires Inv(s) && Enabled(s, step)
    ensures Inv(Apply(s, step))
  {
    match step
    case NewRun(id, at) => NewRunKeepsInv(s, id, at);
    case Dispatch(l) => DispatchKeepsInv(s, l);
    case WorkerRejects(l) =>
      SettleKeepsInv(s, l);
      RejectionKeepsInv(SettleLease(s, l), s.runOf[l]);
    case Watermark(l, n) => WatermarksKeepInv(s, step);
    case LateWrite(l, n) => WatermarksKeepInv(s, step);
    case Settle(l) => SettleKeepsInv(s, l);
    case TimerFires => StoreStepsKeepInv(s, step);
    case TaskStart => StoreStepsKeepInv(s, step);
    case TaskSettle(ok) => TaskSettleKeepsInv(s, ok);
    case CrashAndRestart(timer) => RestartKeepsInv(s, timer);
    case _ => RunStepsKeepInv(s, step);
  }

  ghost predicate Possible(s: Sys, steps: seq<Step>)
    decreases |steps|
  {
    steps == [] || (Enabled(s, steps[0]) && Possible(Apply(s, steps[0]), steps[1..]))
  }

  ghost function Exec(s: Sys, steps: seq<Step>): Sys
    requires Possible(s, steps)
    decreases |steps|
  {
    if steps == [] then s else Exec(Apply(s, steps[0]), steps[1..])
  }

  lemma {:induction false} ExecKeepsInv(s: Sys, steps: seq<Step>)
    requires Inv(s) && Possible(s, steps)
    ensures Inv(Exec(s, steps))
    decreases |steps|
  {
    if steps != [] {
      StepKeepsInv(s, steps[0]);
      ExecKeepsInv(Apply(s, steps[0]), steps[1..]);
    }
  }

  lemma EmptyInv()
    ensures Inv(EMPTY) && Exclusive(EMPTY) && CleanVersions(EMPTY)
  {
  }

  lemma ReachableInv(steps: seq<Step>)
    requires Possible(EMPTY, steps)
    ensures Inv(Exec(EMPTY, steps))
  {
    EmptyInv();
    ExecKeepsInv(EMPTY, steps);
  }

  /**
   * After every run, crashes included: a lease whose dispatch was sent and that the host holds is in
   * the map, in the file, and in whatever is being written to it.
   */
  lemma SentLeaseIsOnDisk(steps: seq<Step>, l: LeaseId)
    requires Possible(EMPTY, steps) && l in Live(Exec(EMPTY, steps))
    ensures var s := Exec(EMPTY, steps);
            && l in s.store.disk && l in s.store.leases && l in s.runOf && s.store.disk[l].runId == s.runOf[l]
            && (s.store.running.Writing? ==> l in s.store.running.snapshot)
  {
    ReachableInv(steps);
  }

  lemma {:induction false} StatusOfMember(runs: seq<Run>, r: Run)
    requires DistinctIds(runs) && r in runs
    ensures StatusOf(runs, r.id) == r.status
    decreases |runs|
  {
    if runs[0] != r {
      assert runs == [runs[0]] + runs[1..];
      var k :| 0 <= k < |runs| && runs[k] == r;
      assert runs[0].id != runs[k].id;
      StatusOfMember(runs[1..], r);
    }
  }

  /**
   * A crash after any run loses no dispatched lease: unless its run is terminal the restarted host
   * takes it over, and recovery neither queues nor interrupts the run, even one whose recorded
   * status is still queued.
   */
  lemma CrashKeepsDispatchedRuns(steps: seq<Step>, l: LeaseId, r: Run, timer: bool)
    requires Possible(EMPTY, steps) && l in Live(Exec(EMPTY, steps)) && l in Exec(EMPTY, steps).runOf
    requires var s := Exec(EMPTY, steps); r in s.runs && r.id == s.runOf[l] && !r.status.Terminal?
    ensures var s := Exec(EMPTY, steps); var t := Restarted(s, timer);
            var plan := PlanRunRecovery(Pending(s.runs), RunsOf(t.registry, s.runOf));
            && l in Live(t) && r.id !in t.queue
            && r.id !in plan.queue && r.id !in plan.interrupted
  {
    ReachableInv(steps);
    var s := Exec(EMPTY, steps);
    StatusOfMember(s.runs, r);
    assert l in Kept(s);
    assert r.id in RunsOf(Kept(s), s.runOf);
    PlanMembers(Pending(s.runs), RunsOf(Kept(s), s.runOf), r.id);
    PushAllNewFacts([], PlanRunRecovery(Pending(s.runs), RunsOf(Kept(s), s.runOf)).queue);
  }

  /**
   * The queue never holds a run twice, over any run of enqueues, requeues, rejections, cancels,
   * dispatches and recoveries.
   */
  lemma QueueHasNoRepeats(steps: seq<Step>)
    requires Possible(EMPTY, steps)
    ensures NoRepeats(Exec(EMPTY, steps).queue)
  {
    ReachableInv(steps);
  }

  // ---------------------------------------------------------------- one holder per run, exactly when

  /** No two of the leases are for one run. */
  ghost predicate OnePerRun(leases: set<LeaseId>, runOf: map<LeaseId, RunId>) {
    forall a, b :: a in leases && b in leases && a != b && a in runOf && b in runOf ==> runOf[a] != runOf[b]
  }

  /** A run is with one lease, or on the queue, but not both. */
  ghost predicate Exclusive(s: Sys) {
    && OnePerRun(s.registry, s.runOf)
    && (forall r :: r in s.queue ==> !Leased(s, r))
  }

  /**
   * The three steps that can put a run in two hands, and when: a retry of a run a lease is still
   * held for; a claim that fails after its lease was settled, the run, still queued in the store,
   * having been dispatched again; and a restart from a file that names two leases for one run.
   */
  ghost predicate Overtakes(s: Sys, step: Step)
    requires Enabled(s, step)
  {
    match step
    case Requeue(i, _) => Leased(s, s.runs[i].id)
    case TaskSettle(ok) => !ok && IsClaim(s) && FailsBehindAnother(s, Claimed(s))
    case CrashAndRestart(_) => !OnePerRun(Kept(s), s.runOf)
    case _ => false
  }

  ghost predicate FailsBehindAnother(s: Sys, l: LeaseId)
    requires l in s.runOf
  {
    l !in s.registry && StatusOf(s.runs, s.runOf[l]).Queued? && s.runOf[l] !in s.queue && Leased(s, s.runOf[l])
  }

  lemma SettlingFreesTheRun(s: Sys, l: LeaseId)
    requires OnePerRun(s.registry, s.runOf) && l in s.runOf
    ensures OnePerRun(SettleLease(s, l).registry, s.runOf)
    ensures l in s.registry ==> !Leased(SettleLease(s, l), s.runOf[l])
    ensures forall r :: Leased(SettleLease(s, l), r) ==> Leased(s, r)
  {
  }

  lemma GivingBackDecides(s: Sys, l: LeaseId)
    requires Exclusive(s) && l in s.runOf
    ensures Exclusive(GivenBack(s, l)) <==> !FailsBehindAnother(s, l)
  {
    SettlingFreesTheRun(s, l);
    var r := s.runOf[l];
    var t := GivenBack(s, l);
    assert forall x :: Leased(t, x) <==> Leased(SettleLease(s, l), x);
    if FailsBehindAnother(s, l) { assert t.queue[0] == r; }
  }

  lemma DispatchKeepsExclusive(s: Sys, l: LeaseId)
    requires Inv(s) && Exclusive(s) && Enabled(s, Dispatch(l))
    ensures Exclusive(Apply(s, Dispatch(l)))
  {
    var r := s.queue[0];
    var t := Apply(s, Dispatch(l));
    assert !Leased(s, r);
    assert forall x :: x in t.queue ==> x in s.queue && x != r;
    forall x | x in t.queue ensures !Leased(t, x) { assert !Leased(s, x); }
  }

  lemma NewRunKeepsExclusive(s: Sys, id: RunId, at: nat)
    requires Inv(s) && Exclusive(s) && Enabled(s, NewRun(id, at))
    ensures Exclusive(Apply(s, NewRun(id, at)))
  {
    assert !Leased(s, id);
    assert forall r :: Leased(Apply(s, NewRun(id, at)), r) ==> Leased(s, r);
  }

  lemma RequeueDecides(s: Sys, i: nat, at: nat)
    requires Exclusive(s) && Enabled(s, Requeue(i, at))
    ensures Exclusive(Apply(s, Requeue(i, at))) <==> !Leased(s, s.runs[i].id)
  {
    var t := Apply(s, Requeue(i, at));
    assert forall r :: Leased(t, r) <==> Leased(s, r);
    assert s.runs[i].id in t.queue;
  }

  lemma OthersKeepExclusive(s: Sys, step: Step)
    requires Inv(s) && Exclusive(s) && Enabled(s, step)
    requires step.StatusChanges? || step.Cancel? || step.DropHead? || step.Watermark? || step.LateWrite?
             || step.Settle? || step.TimerFires? || step.TaskStart?
    ensures Exclusive(Apply(s, step))
  {
    var t := Apply(s, step);
    assert t.registry <= s.registry && t.runOf == s.runOf;
    assert forall r :: Leased(t, r) ==> Leased(s, r);
    if step.Cancel? { WithoutFacts(s.queue, step.id); }
    assert forall r :: r in t.queue ==> r in s.queue;
  }

  lemma TaskSettleDecides(s: Sys, ok: bool)
    requires Inv(s) && Exclusive(s) && Enabled(s, TaskSettle(ok))
    ensures Exclusive(Apply(s, TaskSettle(ok))) <==> !Overtakes(s, TaskSettle(ok))
  {
    var s1 := WriteSettles(s, ok);
    assert forall r :: Leased(s1, r) <==> Leased(s, r);
    if IsClaim(s) {
      if ok {
        assert forall r :: Leased(ClaimLanded(s1, Claimed(s)), r) <==> Leased(s, r);
      } else {
        GivingBackDecides(s1, Claimed(s));
      }
    }
  }

  /**
   * From a state with one holder per run, a step leaves one holder per run if and only if it does
   * not overtake. For a failing claim that is: the lease is still held, or its run is not queued in
   * the store, or is on the queue already, or no other lease is held for it.
   */
  lemma StepKeepsOneHolderExactlyWhen(s: Sys, step: Step)
    requires Inv(s) && Exclusive(s) && Enabled(s, step)
    ensures Exclusive(Apply(s, step)) <==> !Overtakes(s, step)
  {
    match step
    case NewRun(id, at) => NewRunKeepsExclusive(s, id, at);
    case Dispatch(l) => DispatchKeepsExclusive(s, l);
    case Requeue(i, at) => RequeueDecides(s, i, at);
    case WorkerRejects(l) => GivingBackDecides(s, l);
    case TaskSettle(ok) => TaskSettleDecides(s, ok);
    case CrashAndRestart(timer) => RestartedQueue(s, timer);
    case _ => OthersKeepExclusive(s, step);
  }

  /** No step along the way overtakes. */
  ghost predicate Orderly(s: Sys, steps: seq<Step>)
    requires Possible(s, steps)
    decreases |steps|
  {
    steps == [] || (!Overtakes(s, steps[0]) && Orderly(Apply(s, steps[0]), steps[1..]))
  }

  lemma {:induction false} OrderlyRunKeepsOneHolder(s: Sys, steps: seq<Step>)
    requires Inv(s) && Exclusive(s) && Possible(s, steps) && Orderly(s, steps)
    ensures Exclusive(Exec(s, steps))
    decreases |steps|
  {
    if steps != [] {
      StepKeepsInv(s, steps[0]);
      StepKeepsOneHolderExactlyWhen(s, steps[0]);
      OrderlyRunKeepsOneHolder(Apply(s, steps[0]), steps[1..]);
    }
  }

  /**
   * In a run in which no step overtakes, crashes included, no two leases the host holds are ever for
   * one run, dispatched or not, and no run with a lease is on the queue.
   */
  lemma NoRunIsHandedOutTwice(steps: seq<Step>, a: LeaseId, b: LeaseId)
    requires Possible(EMPTY, steps) && Orderly(EMPTY, steps)
    requires a in Exec(EMPTY, steps).registry && b in Exec(EMPTY, steps).registry
    ensures var s := Exec(EMPTY, steps);
            && a in s.runOf && b in s.runOf
            && (a != b ==> s.runOf[a] != s.runOf[b])
            && s.runOf[a] !in s.queue
  {
    EmptyInv();
    ReachableInv(steps);
    OrderlyRunKeepsOneHolder(EMPTY, steps);
    var s := Exec(EMPTY, steps);
    assert Leased(s, s.runOf[a]);
  }

  // ---------------------------------------------------------------- how two leases of one run get into the file

  /** Map, file and snapshot each have at most one lease for a run. */
  ghost predicate CleanVersions(s: Sys) {
    && OnePerRun(s.store.leases.Keys, s.runOf)
    && OnePerRun(s.store.disk.Keys, s.runOf)
    && (s.store.running.Writing? ==> OnePerRun(s.store.running.snapshot.Keys, s.runOf))
  }

  /** The map has a lease, other than this one, for the run. */
  ghost predicate MapHasAnother(s: Sys, l: LeaseId, r: RunId) {
    exists k :: k in s.store.leases && k != l && k in s.runOf && s.runOf[k] == r
  }

  /**
   * The two steps that put a second lease of a run in the map: a late write on a settled lease whose
   * run has another one there, and a dispatch of a run for which one, settled or not, is there.
   */
  ghost predicate Doubles(s: Sys, step: Step)
    requires Enabled(s, step)
  {
    match step
    case LateWrite(l, _) => MapHasAnother(s, l, s.runOf[l])
    case Dispatch(l) => MapHasAnother(s, l, s.queue[0])
    case _ => false
  }

  lemma AddingDecides(leases: set<LeaseId>, runOf: map<LeaseId, RunId>, l: LeaseId)
    requires OnePerRun(leases, runOf) && l in runOf
    ensures OnePerRun(leases + {l}, runOf) <==> forall k :: k in leases && k != l && k in runOf ==> runOf[k] != runOf[l]
  {
    assert l in leases + {l};
    assert forall k :: k in leases ==> k in leases + {l};
  }

  lemma LateWriteDecides(s: Sys, l: LeaseId, n: nat)
    requires CleanVersions(s) && Enabled(s, LateWrite(l, n))
    ensures CleanVersions(Apply(s, LateWrite(l, n))) <==> !Doubles(s, LateWrite(l, n))
  {
    AddingDecides(s.store.leases.Keys, s.runOf, l);
    assert Apply(s, LateWrite(l, n)).store.leases.Keys == s.store.leases.Keys + {l};
  }

  lemma DispatchDecides(s: Sys, l: LeaseId)
    requires Inv(s) && CleanVersions(s) && Enabled(s, Dispatch(l))
    ensures CleanVersions(Apply(s, Dispatch(l))) <==> !Doubles(s, Dispatch(l))
  {
    var t := Apply(s, Dispatch(l));
    assert l !in s.store.leases && l !in s.store.disk && (s.store.running.Writing? ==> l !in s.store.running.snapshot);
    assert OnePerRun(s.store.leases.Keys, t.runOf) && OnePerRun(s.store.disk.Keys, t.runOf);
    AddingDecides(s.store.leases.Keys, t.runOf, l);
    assert t.store.leases.Keys == s.store.leases.Keys + {l};
  }

  lemma GivingBackKeepsClean(s: Sys, l: LeaseId)
    requires CleanVersions(s) && l in s.runOf
    ensures CleanVersions(GivenBack(s, l))
  {
  }

  /** A restart keeps what the file had; a clean file is restored to one lease per run. */
  lemma CleanCrashIsOrderly(s: Sys, timer: bool)
    requires CleanVersions(s)
    ensures OnePerRun(Kept(s), s.runOf) && CleanVersions(Restarted(s, timer))
  {
    RestoredStoreFacts(s.store.disk, Kept(s), timer);
  }

  /** From clean versions, a step leaves clean versions if and only if it does not double. */
  lemma StepKeepsVersionsCleanExactlyWhen(s: Sys, step: Step)
    requires Inv(s) && CleanVersions(s) && Enabled(s, step)
    ensures CleanVersions(Apply(s, step)) <==> !Doubles(s, step)
  {
    match step
    case LateWrite(l, n) => LateWriteDecides(s, l, n);
    case Dispatch(l) => DispatchDecides(s, l);
    case WorkerRejects(l) => GivingBackKeepsClean(s, l);
    case TaskSettle(ok) => if IsClaim(s) && !ok { GivingBackKeepsClean(WriteSettles(s, ok), Claimed(s)); }
    case CrashAndRestart(timer) => CleanCrashIsOrderly(s, timer);
    case _ =>
  }

  ghost predicate NeverDoubles(s: Sys, steps: seq<Step>)
    requires Possible(s, steps)
    decreases |steps|
  {
    steps == [] || (!Doubles(s, steps[0]) && NeverDoubles(Apply(s, steps[0]), steps[1..]))
  }

  lemma {:induction false} CleanRun(s: Sys, steps: seq<Step>)
    requires Inv(s) && CleanVersions(s) && Possible(s, steps) && NeverDoubles(s, steps)
    ensures CleanVersions(Exec(s, steps))
    decreases |steps|
  {
    if steps != [] {
      StepKeepsInv(s, steps[0]);
      StepKeepsVersionsCleanExactlyWhen(s, steps[0]);
      CleanRun(Apply(s, steps[0]), steps[1..]);
    }
  }

  /** As long as no step doubles, a crash at any point overtakes nothing. */
  lemma CrashOvertakesOnlyAfterADoubling(steps: seq<Step>, timer: bool)
    requires Possible(EMPTY, steps) && NeverDoubles(EMPTY, steps)
    ensures !Overtakes(Exec(EMPTY, steps), CrashAndRestart(timer))
  {
    EmptyInv();
    CleanRun(EMPTY, steps);
    CleanCrashIsOrderly(Exec(EMPTY, steps), timer);
  }

  lemma Unroll(s: Sys, step: Step, steps: seq<Step>)
    requires Enabled(s, step) && Possible(Apply(s, step), steps)
    ensures Possible(s, [step] + steps) && Exec(s, [step] + steps) == Exec(Apply(s, step), steps)
  {
    assert ([step] + steps)[1..] == steps;
  }

  /** The queued writes land, and the file becomes the map. */
  lemma {:induction false} WritesLand(s: Sys) returns (steps: seq<Step>)
    requires s.store.waiting != [] || (s.store.running.Writing? && s.store.running.snapshot == s.store.leases)
    ensures Possible(s, steps)
    ensures var t := Exec(s, steps); t.store.disk == s.store.leases && t.runOf == s.runOf && t.runs == s.runs
    decreases |s.store.waiting|, s.store.running.Writing?
  {
    if s.store.running.Writing? {
      var s1 := Apply(s, TaskSettle(true));
      var rest := [];
      if s.store.waiting != [] {
        rest := WritesLand(s1);
      } else {
        assert Possible(s1, []);
      }
      Unroll(s, TaskSettle(true), rest);
      steps := [TaskSettle(true)] + rest;
    } else {
      var s1 := Apply(s, TaskStart);
      var rest := WritesLand(s1);
      Unroll(s, TaskStart, rest);
      steps := [TaskStart] + rest;
    }
  }

  /** The run a doubling step is about. */
  ghost function DoubledRun(s: Sys, step: Step): RunId
    requires Enabled(s, step) && Doubles(s, step)
  {
    if step.LateWrite? then s.runOf[step.lease] else s.queue[0]
  }

  /** A doubling step of a run that is not finished is followed, on some run, by a crash that overtakes. */
  lemma DoublingLetsACrashOvertake(s: Sys, step: Step) returns (steps: seq<Step>)
    requires Inv(s) && CleanVersions(s) && Enabled(s, step) && Doubles(s, step)
    requires !StatusOf(s.runs, DoubledRun(s, step)).Terminal?
    ensures Possible(Apply(s, step), steps)
    ensures Overtakes(Exec(Apply(s, step), steps), CrashAndRestart(false))
  {
    var t := Apply(s, step);
    var l, r := step.lease, DoubledRun(s, step);
    var k :| k in s.store.leases && k != l && k in s.runOf && s.runOf[k] == r;
    assert step.LateWrite? ==> l !in s.store.leases;
    assert k in t.store.leases && l in t.store.leases && t.runOf[k] == t.runOf[l] == r;
    steps := WritesLand(t);
    var u := Exec(t, steps);
    assert k in Kept(u) && l in Kept(u);
  }

  // ---------------------------------------------------------------- crashes need no condition without late writes

  predicate NoLateWrites(steps: seq<Step>) {
    forall i :: 0 <= i < |steps| ==> !steps[i].LateWrite?
  }

  lemma HeldMapKeepsHeld(s: Sys, step: Step)
    requires s.store.leases.Keys == s.registry && Enabled(s, step) && !step.LateWrite?
    ensures Apply(s, step).store.leases.Keys == Apply(s, step).registry
  {
    match step
    case CrashAndRestart(timer) => RestoredStoreFacts(s.store.disk, Kept(s), timer);
    case WorkerRejects(l) => GivingBackKeepsHeld(s, l);
    case TaskSettle(ok) => if IsClaim(s) && !ok { GivingBackKeepsHeld(WriteSettles(s, ok), Claimed(s)); }
    case _ =>
  }

  lemma GivingBackKeepsHeld(s: Sys, l: LeaseId)
    requires s.store.leases.Keys == s.registry && l in s.runOf
    ensures GivenBack(s, l).store.leases.Keys == GivenBack(s, l).registry
  {
  }

  /** While the map names only held leases and there is one holder per run, no step but a late write doubles. */
  lemma {:induction false} OrderlyRunNeverDoubles(s: Sys, steps: seq<Step>)
    requires Inv(s) && Exclusive(s) && s.store.leases.Keys == s.registry
    requires Possible(s, steps) && Orderly(s, steps) && NoLateWrites(steps)
    ensures NeverDoubles(s, steps)
    decreases |steps|
  {
    if steps != [] {
      StepKeepsInv(s, steps[0]);
      StepKeepsOneHolderExactlyWhen(s, steps[0]);
      assert !steps[0].LateWrite?;
      HeldMapKeepsHeld(s, steps[0]);
      if steps[0].Dispatch? { assert !Leased(s, s.queue[0]); }
      OrderlyRunNeverDoubles(Apply(s, steps[0]), steps[1..]);
    }
  }

  /** As long as no write lands on a settled lease, a crash at any point of an orderly run is harmless. */
  lemma CrashOvertakesOnlyAfterALateWrite(steps: seq<Step>, timer: bool)
    requires Possible(EMPTY, steps) && Orderly(EMPTY, steps) && NoLateWrites(steps)
    ensures !Overtakes(Exec(EMPTY, steps), CrashAndRestart(timer))
  {
    EmptyInv();
    OrderlyRunNeverDoubles(EMPTY, steps);
    CrashOvertakesOnlyAfterADoubling(steps, timer);
  }
}
