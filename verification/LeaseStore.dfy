/** The lease store and its write queue, updated in place. */
module LeaseStore {
  import opened LeaseStoreModel
  import opened LeaseStoreRuns

  /** Tasks run one at a time, in the order they were queued; one failing never stops the next. */
  class WriteQueue {
    var waiting: seq<nat>
    var nextTask: nat

    constructor ()
      ensures waiting == [] && nextTask == 0
    {
      waiting, nextTask := [], 0;
    }

    method Enqueue() returns (task: nat)
      modifies this
      ensures task == old(nextTask) && nextTask == old(nextTask) + 1
      ensures waiting == old(waiting) + [task]
    {
      task := nextTask;
      waiting := waiting + [task];
      nextTask := nextTask + 1;
    }

    method Dequeue() returns (task: nat)
      requires waiting != []
      modifies this`waiting
      ensures task == old(waiting)[0] && waiting == old(waiting)[1..]
    {
      task := waiting[0];
      waiting := waiting[1..];
    }
  }

  class LeaseStore {
    var leases: Leases
    var debounceTimer: bool
    const io: WriteQueue
    var running: Running
    var disk: Leases
    var lastOk: bool

    ghost function View(): Store
      reads this, io
    {
      Store(leases, debounceTimer, io.waiting, running, disk, io.nextTask, lastOk)
    }

    /**
     * Tasks run in the order they were queued; with nothing pending the file is the map, unless the
     * last write failed.
     */
    ghost predicate Valid()
      reads this, io
    {
      TasksInOrder(View()) && Agrees(View())
    }

    constructor (file: Leases)
      ensures fresh(io) && Valid() && View() == Loaded(file)
    {
      io := new WriteQueue();
      leases, debounceTimer, running, disk, lastOk := file, false, Nothing, file, true;
    }

    method WriteNow()
      modifies this`debounceTimer, io
      ensures View() == LeaseStoreModel.WriteNow(old(View()))
    {
      debounceTimer := false;
      var _ := io.Enqueue();
    }

    method WriteDebounced()
      modifies this`debounceTimer
      ensures View() == LeaseStoreModel.WriteDebounced(old(View()))
    {
      if debounceTimer { return; }
      debounceTimer := true;
    }

    method Put(id: LeaseId, lease: Persisted)
      requires Valid()
      modifies this`leases, this`debounceTimer, io
      ensures Valid() && leases == old(leases)[id := lease] && (debounceTimer || io.waiting != [])
      ensures View() == LeaseStoreModel.Put(old(View()), id, lease)
    {
      var isNewLease := id !in leases;
      leases := leases[id := lease];
      if isNewLease { WriteNow(); } else { WriteDebounced(); }
    }

    /** Returns the task to wait for. */
    method PutDurable(id: LeaseId, lease: Persisted) returns (task: nat)
      requires Valid()
      modifies this`leases, this`debounceTimer, io
      ensures Valid() && leases == old(leases)[id := lease] && (forall t :: t in old(io.waiting) ==> t < task)
      ensures View() == LeaseStoreModel.PutDurable(old(View()), id, lease) && task == old(View()).nextTask
    {
      leases := leases[id := lease];
      if debounceTimer { debounceTimer := false; }
      task := io.Enqueue();
    }

    method Delete(id: LeaseId)
      requires Valid()
      modifies this`leases, this`debounceTimer, io
      ensures Valid() && id !in leases && (id in old(leases) ==> io.waiting != [])
      ensures View() == LeaseStoreModel.Delete(old(View()), id)
    {
      if id !in leases { return; }
      leases := leases - {id};
      WriteNow();
    }

    method Flush()
      requires Valid()
      modifies this`debounceTimer, io
      ensures Valid() && leases == old(leases) && !debounceTimer
      ensures View() == BeginFlush(old(View()))
    {
      if debounceTimer { WriteNow(); }
    }

    /** The queue's next task starts: it captures the map as it is now. */
    method StartTask()
      requires TaskCanStart(View())
      requires Valid()
      modifies this`running, io
      ensures Valid()
      ensures View() == TaskStarts(old(View()))
    {
      var task := io.Dequeue();
      running := Writing(task, leases);
    }

    method SettleTask(ok: bool)
      requires running.Writing?
      requires Valid()
      modifies this`running, this`disk, this`lastOk
      ensures Valid()
      ensures View() == TaskSettles(old(View()), ok)
    {
      if ok { disk := running.snapshot; }
      running, lastOk := Nothing, ok;
    }

    /** What awaiting a flush comes to when every write lands and nothing is put meanwhile. */
    method AwaitFlush()
      requires Valid()
      modifies this, io
      ensures Valid() && leases == old(leases)
      ensures disk == leases <==> old(debounceTimer || io.waiting != [] || running.Writing? || disk == leases)
      ensures View() == Drained(BeginFlush(old(View())))
    {
      FlushWritesTheMap(View());
      DrainedKeepsMap(BeginFlush(View()));
      Flush();
      while running.Writing? || io.waiting != []
        invariant Valid()
        invariant Drained(View()) == Drained(BeginFlush(old(View())))
        decreases |io.waiting|, running.Writing?
      {
        if running.Writing? {
          SettleTask(true);
        } else {
          StartTask();
        }
      }
    }
  }
}
