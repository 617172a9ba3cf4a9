/** The lease store over whole runs: puts, deletes, flushes, timers and writes that may fail, in any order. */
module LeaseStoreRuns {
  import opened LeaseStoreModel

  datatype Op =
    | DoPut(id: LeaseId, lease: Persisted)
    | DoPutDurable(id: LeaseId, lease: Persisted)
    | DoDelete(id: LeaseId)
    | DoFlush
    | TimerFires
    | WriteStarts
    | WriteSettles(ok: bool)

  predicate Enabled(s: Store, op: Op) {
    match op
    case TimerFires => TimerCanFire(s)
    case WriteStarts => TaskCanStart(s)
    case WriteSettles(_) => s.running.Writing?
    case _ => true
  }

  function Do(s: Store, op: Op): Store
    requires Enabled(s, op)
  {
    match op
    case DoPut(id, lease) => Put(s, id, lease)
    case DoPutDurable(id, lease) => PutDurable(s, id, lease)
    case DoDelete(id) => Delete(s, id)
    case DoFlush => BeginFlush(s)
    case TimerFires => WriteNow(s)
    case WriteStarts => TaskStarts(s)
    case WriteSettles(ok) => TaskSettles(s, ok)
  }

  predicate Possible(s: Store, ops: seq<Op>)
    decreases |ops|
  {
    ops == [] || (Enabled(s, ops[0]) && Possible(Do(s, ops[0]), ops[1..]))
  }

  function Exec(s: Store, ops: seq<Op>): Store
    requires Possible(s, ops)
    decreases |ops|
  {
    if ops == [] then s else Exec(Do(s, ops[0]), ops[1..])
  }

  /** Every map the store goes through, oldest first. */
  function Maps(s: Store, ops: seq<Op>, earlier: seq<Leases>): seq<Leases>
    requires Possible(s, ops)
    decreases |ops|
  {
    if ops == [] then earlier + [s.leases] else Maps(Do(s, ops[0]), ops[1..], earlier + [s.leases])
  }

  /** The file, and whatever is being written, is the map as it once was, the file the older of the two. */
  ghost predicate FromThePast(s: Store, past: seq<Leases>) {
    exists i, k :: 0 <= i <= k < |past| && past[i] == s.disk && (s.running.Writing? ==> past[k] == s.running.snapshot)
  }

  predicate TasksInOrder(s: Store) {
    && |s.waiting| <= s.nextTask
    && (forall i :: 0 <= i < |s.waiting| ==> s.waiting[i] == s.nextTask - |s.waiting| + i)
    && (s.running.Writing? ==> s.running.task + 1 == s.nextTask - |s.waiting|)
  }

  lemma DoKeepsOrder(s: Store, op: Op)
    requires Enabled(s, op) && TasksInOrder(s)
    ensures TasksInOrder(Do(s, op))
  {
  }

  lemma DoKeepsPast(s: Store, op: Op, past: seq<Leases>)
    requires Enabled(s, op) && FromThePast(s, past)
    ensures FromThePast(Do(s, op), past + [Do(s, op).leases])
  {
    var t := Do(s, op);
    var now := past + [t.leases];
    var i, k :| 0 <= i <= k < |past| && past[i] == s.disk && (s.running.Writing? ==> past[k] == s.running.snapshot);
    assert now[i] == past[i] && now[k] == past[k] && now[|past|] == t.leases;
    match op
    case WriteStarts => assert t.running.snapshot == now[|past|];
    case WriteSettles(ok) => if ok { assert now[k] == t.disk; } else { assert now[i] == t.disk; }
    case _ =>
  }

  lemma {:induction false} ExecKeepsPast(s: Store, ops: seq<Op>, earlier: seq<Leases>)
    requires Possible(s, ops) && FromThePast(s, earlier + [s.leases]) && Agrees(s) && TasksInOrder(s)
    ensures FromThePast(Exec(s, ops), Maps(s, ops, earlier))
    ensures Agrees(Exec(s, ops)) && TasksInOrder(Exec(s, ops))
    decreases |ops|
  {
    if ops != [] {
      DoKeepsPast(s, ops[0], earlier + [s.leases]);
      DoKeepsOrder(s, ops[0]);
      DoKeepsAgreement(s, ops[0]);
      ExecKeepsPast(Do(s, ops[0]), ops[1..], earlier + [s.leases]);
    }
  }

  lemma DoKeepsAgreement(s: Store, op: Op)
    requires Enabled(s, op) && Agrees(s)
    ensures Agrees(Do(s, op))
  {
  }

  /**
   * Whatever happens to the store, the file is the whole map exactly as it was at some earlier
   * moment: never a mixture, so a watermark read back after a crash was once the true one.
   */
  lemma FileIsAnEarlierMap(disk: Leases, ops: seq<Op>)
    requires Possible(Loaded(disk), ops)
    ensures Exec(Loaded(disk), ops).disk in Maps(Loaded(disk), ops, [])
  {
    assert [Loaded(disk).leases][0] == disk;
    assert [] + [Loaded(disk).leases] == [Loaded(disk).leases];
    ExecKeepsPast(Loaded(disk), ops, []);
  }

  /**
   * At every moment, with no timer armed and no task unfinished, the file is the map, unless the
   * last write failed; and tasks run one at a time, in the order they were queued.
   */
  lemma FileDiffersOnlyWhileWorkIsPending(disk: Leases, ops: seq<Op>)
    requires Possible(Loaded(disk), ops)
    ensures var s := Exec(Loaded(disk), ops);
            && (!s.timer && s.waiting == [] && s.running.Nothing? && s.lastOk ==> s.disk == s.leases)
            && TasksInOrder(s)
  {
    assert [Loaded(disk).leases][0] == disk;
    assert [] + [Loaded(disk).leases] == [Loaded(disk).leases];
    ExecKeepsPast(Loaded(disk), ops, []);
  }

  // ---------------------------------------------------------------- which changes are written at once

  /** A new lease, a claim, a removed lease, a fired timer, and a flush with the timer armed. */
  predicate WritesAtOnce(s: Store, op: Op) {
    match op
    case DoPut(id, _) => id !in s.leases
    case DoPutDurable(_, _) => true
    case DoDelete(id) => id in s.leases
    case DoFlush => s.timer
    case TimerFires => true
    case _ => false
  }

  /** Whatever a task writes was captured no earlier than the first of these maps. */
  ghost predicate CapturedSince(s: Store, task: nat, past: seq<Leases>) {
    s.running.Writing? && s.running.task == task ==> s.running.snapshot in past
  }

  lemma {:induction false} StaysCaptured(s: Store, task: nat, ops: seq<Op>, earlier: seq<Leases>)
    requires Possible(s, ops) && CapturedSince(s, task, earlier + [s.leases])
    ensures CapturedSince(Exec(s, ops), task, Maps(s, ops, earlier))
    decreases |ops|
  {
    if ops != [] {
      var t := Do(s, ops[0]);
      var past := earlier + [s.leases];
      assert forall m :: m in past ==> m in past + [t.leases];
      assert s.leases in past;
      StaysCaptured(t, task, ops[1..], past);
    }
  }

  /**
   * A write is queued at once, under the next number, exactly by these operations, and whoever waits
   * for it may rely on it: after any further operations, what that task writes is the map as it was
   * after the operation or later. Any other put only arms the timer.
   */
  lemma QueuedWriteHasTheChange(disk: Leases, before: seq<Op>, op: Op, after: seq<Op>)
    requires Possible(Loaded(disk), before) && Enabled(Exec(Loaded(disk), before), op)
    requires Possible(Do(Exec(Loaded(disk), before), op), after)
    ensures var s := Exec(Loaded(disk), before); var t := Do(s, op); var u := Exec(t, after);
            && (WritesAtOnce(s, op) ==>
                  t.waiting == s.waiting + [s.nextTask] && t.nextTask == s.nextTask + 1 && !t.timer)
            && (!WritesAtOnce(s, op) ==> t.nextTask == s.nextTask && (op.DoPut? ==> t.timer && t.waiting == s.waiting))
            && (WritesAtOnce(s, op) && u.running.Writing? && u.running.task == s.nextTask ==>
                  u.running.snapshot in Maps(t, after, []))
  {
    var s := Exec(Loaded(disk), before);
    var t := Do(s, op);
    FileDiffersOnlyWhileWorkIsPending(disk, before);
    DoKeepsOrder(s, op);
    if WritesAtOnce(s, op) { StaysCaptured(t, s.nextTask, after, []); }
  }

  /** What is put is in the map until it is put again or removed, and the file changes by a write that lands alone. */
  lemma OnlyLandingChangesTheFile(s: Store, op: Op)
    requires Enabled(s, op)
    ensures Do(s, op).disk == if op == WriteSettles(true) then s.running.snapshot else s.disk
    ensures Do(s, op).leases == match op
              case DoPut(id, lease) => s.leases[id := lease]
              case DoPutDurable(id, lease) => s.leases[id := lease]
              case DoDelete(id) => s.leases - {id}
              case _ => s.leases
  {
  }
}
