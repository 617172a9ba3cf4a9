/**
 * The persisted leases on values: the in-memory map, the debounce timer, the serialized write
 * queue, and the file. A queued task captures the map when it starts, not when it was queued.
 */
module LeaseStoreModel {

  type LeaseId = nat
  type RunId = nat

  /** What the file keeps of a lease; the watermark is the one field that moves. */
  datatype Persisted = Persisted(runId: RunId, appliedSeq: nat)

  type Leases = map<LeaseId, Persisted>

  /** The task now writing, and the map it captured when it started. */
  datatype Running = Nothing | Writing(task: nat, snapshot: Leases)

  /**
   * `waiting` are the queued tasks in order, `nextTask` names the next one, `lastOk` whether the last
   * settled write landed.
   */
  datatype Store = Store(
    leases: Leases,
    timer: bool,
    waiting: seq<nat>,
    running: Running,
    disk: Leases,
    nextTask: nat,
    lastOk: bool)

  /** A store that has just loaded its file. */
  function Loaded(disk: Leases): Store {
    Store(disk, false, [], Nothing, disk, 0, true)
  }

  function Enqueue(s: Store): Store {
    s.(waiting := s.waiting + [s.nextTask], nextTask := s.nextTask + 1)
  }

  function WriteNow(s: Store): Store {
    Enqueue(s.(timer := false))
  }

  function WriteDebounced(s: Store): Store {
    s.(timer := true)
  }

  function Put(s: Store, id: LeaseId, lease: Persisted): Store {
    var s1 := s.(leases := s.leases[id := lease]);
    if id in s.leases then WriteDebounced(s1) else WriteNow(s1)
  }

  /** The queued task is number `s.nextTask`; the caller waits for that one. */
  function PutDurable(s: Store, id: LeaseId, lease: Persisted): Store {
    Enqueue(s.(leases := s.leases[id := lease], timer := false))
  }

  function Delete(s: Store, id: LeaseId): Store {
    if id !in s.leases then s else WriteNow(s.(leases := s.leases - {id}))
  }

  predicate TimerCanFire(s: Store) { s.timer }

  predicate TaskCanStart(s: Store) { s.running.Nothing? && s.waiting != [] }

  function TaskStarts(s: Store): Store
    requires TaskCanStart(s)
  {
    s.(waiting := s.waiting[1..], running := Writing(s.waiting[0], s.leases))
  }

  /** The running write settles; a failed one leaves the file as it was and the queue goes on. */
  function TaskSettles(s: Store, ok: bool): Store
    requires s.running.Writing?
  {
    s.(running := Nothing, disk := if ok then s.running.snapshot else s.disk, lastOk := ok)
  }

  function BeginFlush(s: Store): Store {
    if s.timer then WriteNow(s) else s
  }

  /** Every queued task runs in order and lands, with nothing put meanwhile. */
  function Drained(s: Store): Store
    decreases |s.waiting|, s.running.Writing?
  {
    if s.running.Writing? then Drained(TaskSettles(s, true))
    else if s.waiting != [] then
      var t := TaskStarts(s);
      assert |t.waiting| < |s.waiting|;
      Drained(t)
    else s
  }

  // ---------------------------------------------------------------- the file agrees with the map

  /**
   * With no timer armed and nothing queued, whatever is being written is the map, and otherwise the
   * file is unless the last write failed.
   */
  ghost predicate Agrees(s: Store) {
    !s.timer && s.waiting == [] ==>
      if s.running.Writing? then s.running.snapshot == s.leases else s.lastOk ==> s.disk == s.leases
  }

  /** Draining leaves the map alone and runs the whole queue. */
  lemma {:induction false} DrainedKeepsMap(s: Store)
    ensures Drained(s).leases == s.leases && Drained(s).waiting == [] && Drained(s).running.Nothing?
    ensures Drained(s).timer == s.timer
    decreases |s.waiting|, s.running.Writing?
  {
    if s.running.Writing? {
      DrainedKeepsMap(TaskSettles(s, true));
    } else if s.waiting != [] {
      DrainedKeepsMap(TaskStarts(s));
    }
  }

  lemma {:induction false} DrainedQueueWritesTheMap(s: Store)
    requires s.waiting != [] || (s.running.Writing? && s.running.snapshot == s.leases) || (s.running.Nothing?
              && s.disk == s.leases)
    ensures Drained(s).disk == s.leases
    decreases |s.waiting|, s.running.Writing?
  {
    if s.running.Writing? {
      DrainedQueueWritesTheMap(TaskSettles(s, true));
    } else if s.waiting != [] {
      DrainedQueueWritesTheMap(TaskStarts(s));
    }
  }

  /**
   * A flush with no puts beside it and writes that succeed leaves the file equal to the map exactly
   * when it finds something to write, or the file already is: a write that failed earlier is not
   * retried by flushing.
   */
  lemma FlushWritesTheMap(s: Store)
    requires Agrees(s)
    ensures Drained(BeginFlush(s)).disk == s.leases <==>
              s.timer || s.waiting != [] || s.running.Writing? || s.disk == s.leases
  {
    var t := BeginFlush(s);
    if s.timer || s.waiting != [] || s.running.Writing? || s.disk == s.leases {
      DrainedQueueWritesTheMap(t);
    } else {
      assert Drained(t) == t;
    }
  }
}
