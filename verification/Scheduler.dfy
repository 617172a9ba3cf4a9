/** Draining the dispatch queue in order onto the fleet. */
module Scheduler {
  import opened FleetPlacement

  datatype Status = Queued | Failed | Other

  datatype Option<T> = None | Some(value: T)

  /** `hasRepo` is whether the ticket's repo key is configured; without one no dispatch can be built. */
  datatype Run = Run(status: Status, hasRepo: bool, queueReason: Option<Reason>)

  type Runs = map<RunId, Run>

  /** What a drain reads and changes. */
  datatype State = State(queue: seq<RunId>, runs: Runs, leases: seq<Lease>, followUps: set<RunId>)

  function Explain(runs: Runs, queue: seq<RunId>, reason: Reason): Runs
    decreases |queue|
  {
    if queue == [] then runs
    else
      var id := queue[0];
      Explain(if id in runs then runs[id := runs[id].(queueReason := Some(reason))] else runs, queue[1..], reason)
  }

  /** One turn of the drain with the head of the queue; None when the head has to wait. */
  function Turn(s: State, fleet: seq<Worker>, command: string): Option<State>
    requires s.queue != []
  {
    var id := s.queue[0];
    var rest := s.queue[1..];
    if id !in s.runs || !s.runs[id].status.Queued? then Some(s.(queue := rest))
    else if !s.runs[id].hasRepo then Some(s.(queue := rest, runs := s.runs[id := s.runs[id].(status := Failed)]))
    else
      match PlaceWorker(fleet, s.leases, command)
      case NotPlaced(_) => None
      case Placed(w) =>
        Some(State(rest, s.runs[id := s.runs[id].(queueReason := None)], s.leases + [Lease(id, w.id)],
            s.followUps - {id}))
  }

  function Drained(s: State, fleet: seq<Worker>, command: string): State
    decreases |s.queue|
  {
    if s.queue == [] then s
    else
      match Turn(s, fleet, command)
      case Some(t) => Drained(t, fleet, command)
      case None => s.(runs := Explain(s.runs, s.queue, PlaceWorker(fleet, s.leases, command).reason))
  }

  /** The orchestrator's queue, run store and follow-up marks, and the registry's leases, drained in place. */
  class Orchestrator {
    var queue: seq<RunId>
    var runs: Runs
    var leases: seq<Lease>
    var followUps: set<RunId>
    var stopped: bool

    ghost function View(): State
      reads this
    {
      State(queue, runs, leases, followUps)
    }

    /** Take a lease on the worker placement picks. */
    method Dispatch(id: RunId, fleet: seq<Worker>, command: string) returns (placement: Placement)
      modifies this`leases
      ensures placement == PlaceWorker(fleet, old(leases), command)
      ensures leases == if placement.Placed? then old(leases) + [Lease(id, placement.worker.id)] else old(leases)
    {
      placement := PlaceWorker(fleet, leases, command);
      if placement.Placed? {
        leases := leases + [Lease(id, placement.worker.id)];
      }
    }

    method ExplainQueue(reason: Reason)
      modifies this`runs
      ensures runs == Explain(old(runs), queue, reason)
    {
      var i := 0;
      assert queue[0..] == queue;
      while i < |queue|
        invariant 0 <= i <= |queue|
        invariant Explain(runs, queue[i..], reason) == Explain(old(runs), queue, reason)
      {
        var id := queue[i];
        assert queue[i..][1..] == queue[i + 1..];
        if id in runs && runs[id].queueReason != Some(reason) {
          runs := runs[id := runs[id].(queueReason := Some(reason))];
        } else if id in runs {
          assert runs[id := runs[id].(queueReason := Some(reason))] == runs;
        }
        i := i + 1;
      }
    }

    method DispatchQueued(fleet: seq<Worker>, command: string)
      modifies this
      ensures View() == if old(stopped) then old(View()) else Drained(old(View()), fleet, command)
      ensures stopped == old(stopped)
    {
      if stopped { return; }
      while queue != []
        invariant Drained(View(), fleet, command) == Drained(old(View()), fleet, command)
        invariant stopped == old(stopped)
        decreases |queue|
      {
        var id := queue[0];
        if id !in runs || !runs[id].status.Queued? {
          queue := queue[1..];
          continue;
        }
        if !runs[id].hasRepo {
          runs := runs[id := runs[id].(status := Failed)];
          queue := queue[1..];
          continue;
        }
        var outcome := Dispatch(id, fleet, command);
        if outcome.NotPlaced? {
          ExplainQueue(outcome.reason);
          return;
        }
        queue := queue[1..];
        runs := runs[id := runs[id].(queueReason := None)];
        followUps := followUps - {id};
      }
    }
  }

  // ---------------------------------------------------------------- what a drain comes to

  lemma {:induction false} ExplainFacts(runs: Runs, queue: seq<RunId>, reason: Reason)
    ensures Explain(runs, queue, reason).Keys == runs.Keys
    ensures forall id :: id in runs ==>
              Explain(runs, queue, reason)[id].status == runs[id].status
              && Explain(runs, queue, reason)[id].hasRepo == runs[id].hasRepo
              && (id in queue ==> Explain(runs, queue, reason)[id].queueReason == Some(reason))
              && (id !in queue ==> Explain(runs, queue, reason)[id].queueReason == runs[id].queueReason)
    decreases |queue|
  {
    if queue != [] {
      var id := queue[0];
      var runs1 := if id in runs then runs[id := runs[id].(queueReason := Some(reason))] else runs;
      assert queue == [id] + queue[1..];
      ExplainFacts(runs1, queue[1..], reason);
    }
  }

  predicate Dispatchable(s: State, id: RunId) {
    id in s.runs && s.runs[id].status.Queued? && s.runs[id].hasRepo
  }

  /**
   * The drain ends with a suffix of the queue that is empty, or whose head is ready and finds no
   * eligible worker; then every run still queued carries the reason.
   */
  lemma {:induction false} DrainStopsAtTheFirstThatCannotBePlaced(s: State, fleet: seq<Worker>, command: string)
    ensures var t := Drained(s, fleet, command);
            && |t.queue| <= |s.queue| && t.queue == s.queue[|s.queue| - |t.queue|..]
            && (t.queue != [] ==>
                  && Dispatchable(t, t.queue[0])
                  && (forall w :: w in fleet ==> !Eligible(w, t.leases, command))
                  && PlaceWorker(fleet, t.leases, command).NotPlaced?
                  && forall id :: id in t.queue && id in t.runs ==>
                       t.runs[id].queueReason == Some(PlaceWorker(fleet, t.leases, command).reason))
    decreases |s.queue|
  {
    if s.queue != [] {
      var turn := Turn(s, fleet, command);
      if turn.Some? {
        DrainStopsAtTheFirstThatCannotBePlaced(turn.value, fleet, command);
      } else {
        ExplainFacts(s.runs, s.queue, PlaceWorker(fleet, s.leases, command).reason);
        PlacementIsBest(fleet, s.leases, command);
      }
    }
  }

  /** The runs of some leases, in order. */
  function RunsOf(leases: seq<Lease>): seq<RunId> {
    seq(|leases|, i requires 0 <= i < |leases| => leases[i].run)
  }

  /** `a` can be read off `b` left to right. */
  predicate Subsequence(a: seq<RunId>, b: seq<RunId>)
    decreases |b|
  {
    a == [] || (b != [] && (if a[0] == b[0] then Subsequence(a[1..], b[1..]) else Subsequence(a, b[1..])))
  }

  /**
   * First in, first out: no lease is lost, and the leases taken are for runs of the drained part, in
   * queue order. `DrainedRunsAreAccountedFor` says what became of the drained runs without one.
   */
  lemma {:induction false} DrainIsFifo(s: State, fleet: seq<Worker>, command: string)
    ensures var t := Drained(s, fleet, command);
            && |t.leases| >= |s.leases| && t.leases[..|s.leases|] == s.leases
            && |t.queue| <= |s.queue|
            && Subsequence(RunsOf(t.leases[|s.leases|..]), s.queue[..|s.queue| - |t.queue|])
    decreases |s.queue|
  {
    var t := Drained(s, fleet, command);
    if s.queue == [] {
      assert t.leases[|s.leases|..] == [];
    } else {
      var turn := Turn(s, fleet, command);
      if turn.None? {
        assert t.leases[|s.leases|..] == [];
      } else {
        var s1 := turn.value;
        DrainIsFifo(s1, fleet, command);
        var gone := s.queue[..|s.queue| - |t.queue|];
        assert gone[1..] == s1.queue[..|s1.queue| - |t.queue|];
        if s1.leases == s.leases {
          SkipOne(RunsOf(t.leases[|s.leases|..]), gone);
        } else {
          OneMoreLease(s.leases, s1.leases, t.leases);
        }
      }
    }
  }

  /**
   * Every lease a drain takes goes where placement sends it at that moment: to an eligible worker,
   * given the leases taken so far, with the most free slots and the least id among those.
   */
  lemma {:induction false} DrainPlacesBest(s: State, fleet: seq<Worker>, command: string, i: nat)
    requires |s.leases| <= i < |Drained(s, fleet, command).leases|
    ensures var t := Drained(s, fleet, command); var soFar := t.leases[..i];
            exists w :: w in fleet && w.id == t.leases[i].worker && Eligible(w, soFar, command)
                        && forall v :: v in fleet && Eligible(v, soFar, command) ==> FreerOrFirst(soFar, w, v)
    decreases |s.queue|
  {
    var s1 := Turn(s, fleet, command).value;
    var t := Drained(s, fleet, command);
    if i >= |s1.leases| {
      DrainPlacesBest(s1, fleet, command, i);
    } else {
      DrainIsFifo(s1, fleet, command);
      assert t.leases[..i] == t.leases[..|s1.leases|][..i] == s.leases;
      assert t.leases[i] == t.leases[..|s1.leases|][i] == s1.leases[i];
      PlacementIsBest(fleet, s.leases, command);
    }
  }

  lemma OneMoreLease(before: seq<Lease>, after: seq<Lease>, all: seq<Lease>)
    requires |after| == |before| + 1 && after[..|before|] == before && |all| >= |after| && all[..|after|] == after
    ensures all[..|before|] == before
    ensures RunsOf(all[|before|..]) == [after[|before|].run] + RunsOf(all[|after|..])
  {
    assert all[..|after|][..|before|] == all[..|before|];
    assert all[|before|] == all[..|after|][|before|];
    assert all[|before|..] == [after[|before|]] + all[|after|..];
  }

  lemma {:induction false} SkipOne(a: seq<RunId>, b: seq<RunId>)
    requires b != [] && Subsequence(a, b[1..])
    ensures Subsequence(a, b)
    decreases |b|, 0
  {
    if a != [] && a[0] == b[0] {
      DropFirst(a, b[1..]);
    }
  }

  lemma {:induction false} DropFirst(a: seq<RunId>, b: seq<RunId>)
    requires a != [] && Subsequence(a, b)
    ensures Subsequence(a[1..], b)
    decreases |b|, 1
  {
    if a[0] == b[0] {
      SkipOne(a[1..], b);
    } else {
      DropFirst(a, b[1..]);
      SkipOne(a[1..], b);
    }
  }

  /** No dispatch takes a worker above its concurrency: a drain leaves each worker within it, or as loaded as it was. */
  lemma {:induction false} DrainRespectsCapacity(s: State, fleet: seq<Worker>, command: string, w: Worker)
    requires w in fleet && forall v :: v in fleet && v.id == w.id ==> v == w
    ensures var after := |LeasesOf(Drained(s, fleet, command).leases, w.id)|;
            after <= w.maxConcurrency || after == |LeasesOf(s.leases, w.id)|
    decreases |s.queue|
  {
    if s.queue != [] {
      var turn := Turn(s, fleet, command);
      if turn.Some? {
        DrainRespectsCapacity(turn.value, fleet, command, w);
        if turn.value.leases != s.leases {
          PlacementIsBest(fleet, s.leases, command);
          LoadOfAppended(s.leases, turn.value.leases[|s.leases|], w.id);
          LoadCountsLeases(s.leases, w.id);
          LoadCountsLeases(turn.value.leases, w.id);
        }
      }
    }
  }

  /** What left the queue without a lease was not queued any more, or failed because no dispatch could be built. */
  lemma {:induction false} DrainedRunsAreAccountedFor(s: State, fleet: seq<Worker>, command: string, k: nat)
    requires k < |s.queue| - |Drained(s, fleet, command).queue|
    requires forall i, j :: 0 <= i < j < |s.queue| ==> s.queue[i] != s.queue[j]
    ensures var id := s.queue[k]; var t := Drained(s, fleet, command);
            || (exists i :: |s.leases| <= i < |t.leases| && t.leases[i].run == id)
            || id !in s.runs || !s.runs[id].status.Queued?
            || (!s.runs[id].hasRepo && id in t.runs && t.runs[id].status.Failed?)
    decreases |s.queue|
  {
    var turn := Turn(s, fleet, command);
    var s1 := turn.value;
    var t := Drained(s, fleet, command);
    var id := s.queue[k];
    DrainIsFifo(s1, fleet, command);
    if k == 0 {
      FinishedStaysFinished(s1, fleet, command, id);
      if s1.leases != s.leases {
        assert t.leases[..|s1.leases|][|s.leases|] == t.leases[|s.leases|];
        assert t.leases[|s.leases|].run == id;
      }
    } else {
      assert s1.queue == s.queue[1..] && s1.queue[k - 1] == id;
      assert forall i, j :: 0 <= i < j < |s1.queue| ==> s1.queue[i] == s.queue[i + 1] && s1.queue[j] == s.queue[j + 1];
      DrainedRunsAreAccountedFor(s1, fleet, command, k - 1);
    }
  }

  lemma {:induction false} FinishedStaysFinished(s: State, fleet: seq<Worker>, command: string, id: RunId)
    ensures id in s.runs && s.runs[id].status.Failed? ==>
              id in Drained(s, fleet, command).runs && Drained(s, fleet, command).runs[id].status.Failed?
    decreases |s.queue|
  {
    if s.queue != [] {
      var turn := Turn(s, fleet, command);
      if turn.Some? {
        FinishedStaysFinished(turn.value, fleet, command, id);
      } else {
        ExplainFacts(s.runs, s.queue, PlaceWorker(fleet, s.leases, command).reason);
      }
    }
  }

  // ---------------------------------------------------------------- what a drain leaves of each run

  /** Some lease taken since is for the run. */
  ghost predicate TakenSince(s: State, t: State, id: RunId) {
    exists i :: |s.leases| <= i < |t.leases| && t.leases[i].run == id
  }

  /**
   * A drain's effect on each run, in full: one it leased stays as it was, without a queue reason and no
   * follow-up any more; one still waiting carries the reason; one it had to drop failed if it was
   * queued; and nothing else changes.
   */
  lemma {:induction false} DrainChangesOnly(s: State, fleet: seq<Worker>, command: string, id: RunId)
    requires id in s.runs && forall i, j :: 0 <= i < j < |s.queue| ==> s.queue[i] != s.queue[j]
    ensures var t := Drained(s, fleet, command);
            && t.runs.Keys == s.runs.Keys
            && (t.queue != [] ==> PlaceWorker(fleet, t.leases, command).NotPlaced?)
            && (TakenSince(s, t, id) ==> id in s.queue && s.runs[id].status.Queued? && s.runs[id].hasRepo)
            && (id in t.followUps <==> id in s.followUps && !TakenSince(s, t, id))
            && t.runs[id] ==
               if TakenSince(s, t, id) then s.runs[id].(queueReason := None)
               else if id in t.queue
               then s.runs[id].(queueReason := Some(PlaceWorker(fleet, t.leases, command).reason))
               else if id in s.queue && s.runs[id].status.Queued? then s.runs[id].(status := Failed)
               else s.runs[id]
    decreases |s.queue|
  {
    var t := Drained(s, fleet, command);
    if s.queue != [] {
      var turn := Turn(s, fleet, command);
      if turn.None? {
        ExplainFacts(s.runs, s.queue, PlaceWorker(fleet, s.leases, command).reason);
      } else {
        var s1 := turn.value;
        assert s.queue == [s.queue[0]] + s1.queue;
        assert forall i :: 0 <= i < |s1.queue| ==> s1.queue[i] == s.queue[i + 1];
        DrainChangesOnly(s1, fleet, command, id);
        DrainIsFifo(s1, fleet, command);
        DrainStopsAtTheFirstThatCannotBePlaced(s1, fleet, command);
        TakenSinceTurn(s, s1, t, id);
        if id == s.queue[0] {
          assert id !in s1.queue && id !in t.queue;
          UnqueuedIsNotTaken(s1, fleet, command, id);
        }
      }
    }
  }

  lemma {:induction false} UnqueuedIsNotTaken(s: State, fleet: seq<Worker>, command: string, id: RunId)
    requires id !in s.queue
    ensures !TakenSince(s, Drained(s, fleet, command), id)
    decreases |s.queue|
  {
    if s.queue != [] {
      var turn := Turn(s, fleet, command);
      if turn.Some? {
        assert s.queue == [s.queue[0]] + turn.value.queue;
        UnqueuedIsNotTaken(turn.value, fleet, command, id);
        DrainIsFifo(turn.value, fleet, command);
        TakenSinceTurn(s, turn.value, Drained(s, fleet, command), id);
      }
    }
  }

  lemma TakenSinceTurn(s: State, s1: State, t: State, id: RunId)
    requires s.queue != [] && |t.leases| >= |s1.leases| && t.leases[..|s1.leases|] == s1.leases
    requires s1.leases == s.leases || exists w :: s1.leases == s.leases + [Lease(s.queue[0], w)]
    ensures TakenSince(s, t, id) <==>
              TakenSince(s1, t, id) || (s1.leases != s.leases && id == s.queue[0])
  {
    if s1.leases != s.leases {
      assert t.leases[|s.leases|] == t.leases[..|s1.leases|][|s.leases|] == s1.leases[|s.leases|];
    }
  }
}
