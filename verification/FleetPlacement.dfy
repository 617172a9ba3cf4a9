/** Which connected worker a dispatch lands on, or why none can take it. */
module FleetPlacement {

  type RunId = nat
  type WorkerId = nat

  /** A connected worker: its place in the fleet's id order, the operator's state, and what it registered with. */
  datatype Worker = Worker(id: WorkerId, draining: bool, isolated: bool, commands: set<string>, maxConcurrency: nat)

  datatype Lease = Lease(run: RunId, worker: WorkerId)

  datatype Reason = NoWorkers | AllDraining | NoneIsolated | NoAgentCommand | AtCapacity

  datatype Placement = Placed(worker: Worker) | NotPlaced(reason: Reason)

  function Load(leases: seq<Lease>, id: WorkerId): nat {
    if leases == [] then 0 else (if leases[0].worker == id then 1 else 0) + Load(leases[1..], id)
  }

  function Free(leases: seq<Lease>, w: Worker): int {
    w.maxConcurrency - Load(leases, w.id)
  }

  function NotDraining(ws: seq<Worker>): seq<Worker> {
    if ws == [] then [] else (if ws[0].draining then [] else [ws[0]]) + NotDraining(ws[1..])
  }

  function Isolated(ws: seq<Worker>): seq<Worker> {
    if ws == [] then [] else (if ws[0].isolated then [ws[0]] else []) + Isolated(ws[1..])
  }

  function WithAgent(ws: seq<Worker>, command: string): seq<Worker> {
    if ws == [] then [] else (if command in ws[0].commands then [ws[0]] else []) + WithAgent(ws[1..], command)
  }

  function WithCapacity(ws: seq<Worker>, leases: seq<Lease>): seq<Worker> {
    if ws == [] then [] else (if Free(leases, ws[0]) > 0 then [ws[0]] else []) + WithCapacity(ws[1..], leases)
  }

  /** Most free capacity first, then the least id. */
  predicate RanksBefore(leases: seq<Lease>, a: Worker, b: Worker) {
    Free(leases, a) > Free(leases, b) || (Free(leases, a) == Free(leases, b) && a.id <= b.id)
  }

  function Best(ws: seq<Worker>, leases: seq<Lease>): Worker
    requires ws != []
  {
    if |ws| == 1 then ws[0]
    else var rest := Best(ws[1..], leases);
      if RanksBefore(leases, ws[0], rest) then ws[0] else rest
  }

  function PlaceWorker(fleet: seq<Worker>, leases: seq<Lease>, command: string): Placement {
    if fleet == [] then NotPlaced(NoWorkers)
    else
      var notDraining := NotDraining(fleet);
      if notDraining == [] then NotPlaced(AllDraining)
      else
        var available := Isolated(notDraining);
        if available == [] then NotPlaced(NoneIsolated)
        else
          var withAgent := WithAgent(available, command);
          if withAgent == [] then NotPlaced(NoAgentCommand)
          else
            var withCapacity := WithCapacity(withAgent, leases);
            if withCapacity == [] then NotPlaced(AtCapacity) else Placed(Best(withCapacity, leases))
  }

  /** The leases a worker holds. */
  function LeasesOf(leases: seq<Lease>, id: WorkerId): set<nat> {
    set i: nat | i < |leases| && leases[i].worker == id
  }

  lemma {:induction false} LoadOfAppended(leases: seq<Lease>, l: Lease, id: WorkerId)
    ensures Load(leases + [l], id) == Load(leases, id) + (if l.worker == id then 1 else 0)
  {
    if leases == [] {
      assert [l][1..] == [];
    } else {
      assert (leases + [l])[1..] == leases[1..] + [l];
      LoadOfAppended(leases[1..], l, id);
    }
  }

  lemma {:induction false} LoadCountsLeases(leases: seq<Lease>, id: WorkerId)
    ensures Load(leases, id) == |LeasesOf(leases, id)|
    decreases |leases|
  {
    if leases != [] {
      var before, last := leases[..|leases| - 1], leases[|leases| - 1];
      assert leases == before + [last];
      LoadCountsLeases(before, id);
      LoadOfAppended(before, last, id);
      assert LeasesOf(leases, id) == LeasesOf(before, id) + (if last.worker == id then {|before|} else {});
    }
  }

  /** Up and in rotation, isolated, with the agent's command, and holding fewer leases than it may. */
  predicate Eligible(w: Worker, leases: seq<Lease>, command: string) {
    !w.draining && w.isolated && command in w.commands && |LeasesOf(leases, w.id)| < w.maxConcurrency
  }

  /** More free slots, or as many and no greater an id. */
  predicate FreerOrFirst(leases: seq<Lease>, a: Worker, b: Worker) {
    var free, other := a.maxConcurrency - |LeasesOf(leases, a.id)|, b.maxConcurrency - |LeasesOf(leases, b.id)|;
    free > other || (free == other && a.id <= b.id)
  }

  lemma {:induction false} FilterMembers(ws: seq<Worker>, leases: seq<Lease>, command: string, w: Worker)
    ensures w in NotDraining(ws) <==> w in ws && !w.draining
    ensures w in Isolated(ws) <==> w in ws && w.isolated
    ensures w in WithAgent(ws, command) <==> w in ws && command in w.commands
    ensures w in WithCapacity(ws, leases) <==> w in ws && Free(leases, w) > 0
  {
    if ws != [] {
      assert ws == [ws[0]] + ws[1..];
      FilterMembers(ws[1..], leases, command, w);
    }
  }

  lemma {:induction false} BestIsFirst(ws: seq<Worker>, leases: seq<Lease>)
    requires ws != []
    ensures Best(ws, leases) in ws
    ensures forall w :: w in ws ==> RanksBefore(leases, Best(ws, leases), w)
  {
    if |ws| > 1 {
      BestIsFirst(ws[1..], leases);
      assert ws == [ws[0]] + ws[1..];
    }
  }

  lemma EligibleWorkersSurvive(fleet: seq<Worker>, leases: seq<Lease>, command: string, w: Worker)
    ensures w in WithCapacity(WithAgent(Isolated(NotDraining(fleet)), command), leases) <==>
              w in fleet && Eligible(w, leases, command)
  {
    FilterMembers(fleet, leases, command, w);
    FilterMembers(NotDraining(fleet), leases, command, w);
    FilterMembers(Isolated(NotDraining(fleet)), leases, command, w);
    FilterMembers(WithAgent(Isolated(NotDraining(fleet)), command), leases, command, w);
    LoadCountsLeases(leases, w.id);
  }

  /**
   * A run is placed exactly when some worker is eligible, and then on the eligible worker with the
   * most free slots, the least id among those.
   */
  lemma PlacementIsBest(fleet: seq<Worker>, leases: seq<Lease>, command: string)
    ensures var p := PlaceWorker(fleet, leases, command);
            && (p.Placed? <==> exists w :: w in fleet && Eligible(w, leases, command))
            && (p.Placed? ==> p.worker in fleet && Eligible(p.worker, leases, command))
            && (p.Placed? ==> forall w :: w in fleet && Eligible(w, leases, command) ==>
                FreerOrFirst(leases, p.worker, w))
  {
    var candidates := WithCapacity(WithAgent(Isolated(NotDraining(fleet)), command), leases);
    forall w ensures w in candidates <==> w in fleet && Eligible(w, leases, command) {
      EligibleWorkersSurvive(fleet, leases, command, w);
    }
    if candidates != [] {
      BestIsFirst(candidates, leases);
      assert candidates[0] in candidates;
      LoadCountsLeases(leases, Best(candidates, leases).id);
      forall w | w in candidates ensures FreerOrFirst(leases, Best(candidates, leases), w) {
        LoadCountsLeases(leases, w.id);
      }
    }
  }

  /** A refusal names the first test that no worker passes, and each reason is given exactly then. */
  lemma RefusalNamesTheFirstObstacle(fleet: seq<Worker>, leases: seq<Lease>, command: string)
    ensures var p := PlaceWorker(fleet, leases, command);
            && (p == NotPlaced(NoWorkers) <==> fleet == [])
            && (p == NotPlaced(AllDraining) <==> fleet != [] && forall w :: w in fleet ==> w.draining)
            && (p == NotPlaced(NoneIsolated) <==>
                  (forall w :: w in fleet && !w.draining ==> !w.isolated)
                  && exists w :: w in fleet && !w.draining)
            && (p == NotPlaced(NoAgentCommand) <==>
                  (forall w :: w in fleet && !w.draining && w.isolated ==> command !in w.commands)
                  && exists w :: w in fleet && !w.draining && w.isolated)
            && (p == NotPlaced(AtCapacity) <==>
                  (forall w :: w in fleet && !w.draining && w.isolated && command in w.commands ==>
                      |LeasesOf(leases, w.id)| >= w.maxConcurrency)
                  && exists w :: w in fleet && !w.draining && w.isolated && command in w.commands)
  {
    var notDraining := NotDraining(fleet);
    var available := Isolated(notDraining);
    var withAgent := WithAgent(available, command);
    forall w
      ensures w in notDraining <==> w in fleet && !w.draining
      ensures w in available <==> w in fleet && !w.draining && w.isolated
      ensures w in withAgent <==> w in fleet && !w.draining && w.isolated && command in w.commands
      ensures w in WithCapacity(withAgent, leases) <==> w in withAgent && |LeasesOf(leases, w.id)| < w.maxConcurrency
    {
      LoadCountsLeases(leases, w.id);
      FilterMembers(fleet, leases, command, w);
      FilterMembers(notDraining, leases, command, w);
      FilterMembers(available, leases, command, w);
      FilterMembers(withAgent, leases, command, w);
    }
    assert fleet != [] ==> fleet[0] in fleet;
    assert notDraining != [] ==> notDraining[0] in notDraining;
    assert available != [] ==> available[0] in available;
    assert WithCapacity(withAgent, leases) != [] ==>
        WithCapacity(withAgent, leases)[0] in WithCapacity(withAgent, leases);
    assert withAgent != [] ==> withAgent[0] in withAgent;
  }
}
