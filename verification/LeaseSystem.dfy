/**
 * One lease as a transition system: the worker's buffer, the host's bookkeeping, the sockets
 * between them, the debounced watermark on disk, and what has reached the run store.
 *
 * The current socket delivers in order. Frames a dropped socket still held may be lost, or may
 * surface later, in any order and any number of times (`stale`), and the host's answers may be
 * lost, reordered and repeated too, so what is proved here assumes very little of the network.
 */
module LeaseSystem {
  import opened LeaseTypes
  import opened WorkerModel
  import opened HostModel

  /**
   * Why the worker forgot the lease: the completion was acknowledged, the host disowned it, or its own
   * deadline passed.
   */
  datatype Farewell = NoFarewell | Acknowledged | Disowned | DeadlinePassed

  /**
   * `issued` is every frame the worker numbered, `store` the frames whose write reached the run
   * store, `discarded` the numbers recorded as applied with nothing stored, `dropped` the numbers the
   * cap gave up on, `trimmed` the highest watermark the worker trimmed to, `gapped` the highest
   * lease-gap the host accepted, `life` the numbers whose handler resolved in this host life in order,
   * and `finished` whether some host life settled the completion. `overdue` is set when a watermark at
   * the run-complete reached the file, as it can when the lease expired while its completion was under
   * way. `farewell` is why the worker forgot the lease, and `forgotten` the numbers of the frames it
   * then held.
   */
  datatype History = History(
    issued: seq<Frame>,
    store: map<nat, Frame>,
    discarded: set<nat>,
    dropped: set<nat>,
    trimmed: nat,
    gapped: nat,
    life: seq<nat>,
    finished: bool,
    overdue: bool,
    farewell: Farewell,
    forgotten: set<nat>)

  /**
   * `taken` counts the messages of the current socket the host has handled; `alive` ends when the
   * worker forgets the lease; what is left in its other fields then is history.
   */
  datatype System = System(
    w: Worker,
    alive: bool,
    taken: nat,
    stale: set<UpMsg>,
    h: Host,
    disk: nat,
    sent: set<DownMsg>,
    log: History)

  datatype Step =
    | DoReport(kind: Kind, payload: Content)
    | SocketClosed
    | SocketOpened
    | Registered
    | BackstopFired
    | WorkerForgets
    | DeliverUp
    | DeliverStale(up: UpMsg)
    | DeliverDown(down: DownMsg)
    | HostAcks
    | HostDisowns
    | WriteLands
    | WriteDiscarded(disk: bool)
    | WriteFails
    | WriteRecorded
    | CompletionChecked
    | CompletionLands
    | CompletionFails
    | CompletionFinishes(live: bool)
    | WatermarkPersisted(watermark: nat)
    | LeaseExpires
    | HostRestarts(restored: bool)

  /** The lease as a dispatch leaves it: a fresh buffer on a registered socket, a fresh lease at watermark 0. */
  const INITIAL: System :=
    System(FRESH, true, 0, {}, Installed(true, 0), 0, {}, History([], map[], {}, {}, 0, 0, [], false, false,
        NoFarewell, {}))

  /** The worker has numbered its run-complete, the last frame it ever reports on a lease. */
  predicate Completed(issued: seq<Frame>) {
    issued != [] && issued[|issued| - 1].kind.RunComplete?
  }

  predicate AtCompletion(s: System, n: nat) {
    Completed(s.log.issued) && n == |s.log.issued|
  }

  /** The head's handler is running. */
  predicate HandlerRuns(h: Host) {
    h.chain != [] && !h.headLanded
  }

  predicate Enabled(s: System, step: Step) {
    match step
    case DoReport(_, _) => s.alive && !Completed(s.log.issued)
    case SocketClosed => true
    case SocketOpened => !s.w.registered
    case Registered => !s.w.registered && s.w.wire == [] && s.w.delivered == {}
    case BackstopFired => s.w.registered
    case WorkerForgets => s.alive
    case DeliverUp => s.taken < |s.w.wire|
    case DeliverStale(m) => m in s.stale
    case DeliverDown(m) => s.alive && m in s.sent
    case HostAcks => s.h.held
    case HostDisowns => !s.h.held
    case WriteLands => HandlerRuns(s.h) && HandlerOutcome(s.h.chain[0], true).Kept?
    case WriteDiscarded(disk) => HandlerRuns(s.h) && HandlerOutcome(s.h.chain[0], disk).Discarded?
    case WriteFails => HandlerRuns(s.h) && HandlerOutcome(s.h.chain[0], false).Rejected?
    case WriteRecorded => s.h.chain != [] && s.h.headLanded
    case CompletionChecked => s.h.completion.Draining?
    case CompletionLands => s.h.completion.Writing?
    case CompletionFails => s.h.completion.Writing?
    case CompletionFinishes(_) => s.h.completion.Landed?
    case WatermarkPersisted(n) => s.disk <= n <= s.h.appliedSeq
    case LeaseExpires => s.h.held
    case HostRestarts(_) => true
  }

  function NewlyDropped(before: Worker, issued: Frame, after: Worker): set<nat> {
    Nums(before.frames + [issued]) - Nums(after.frames)
  }

  function WorkerReports(s: System, kind: Kind, payload: Content): System {
    var f := Frame(s.w.lastSeq + 1, kind, payload);
    var w := SendReporting(s.w, kind, payload);
    s.(w := w,
       log := s.log.(issued := s.log.issued + [f], dropped := s.log.dropped + NewlyDropped(s.w, f, w)))
  }

  /** Everything the current socket has not delivered. */
  function Pending(s: System): seq<UpMsg> {
    if s.taken <= |s.w.wire| then s.w.wire[s.taken..] else []
  }

  function Messages(ms: seq<UpMsg>): set<UpMsg> {
    set m | m in ms
  }

  function HostReceives(s: System, m: UpMsg): System {
    s.(h := Receive(s.h, m),
       log := if s.h.held && m.LeaseGap? then s.log.(gapped := Max(s.log.gapped, m.throughSeq)) else s.log)
  }

  function WorkerReceives(s: System, m: DownMsg): System {
    match m
    case LeaseAck(n) => s.(w := OnLeaseAck(s.w, n), log := s.log.(trimmed := Max(s.log.trimmed, n)))
    case RunCompleteAck => WorkerForgot(s, Acknowledged)
    case LeaseLost => WorkerForgot(s, Disowned)
  }

  /** The worker deletes the lease's buffer. */
  function WorkerForgot(s: System, why: Farewell): System {
    s.(w := ForgetLease(s.w), alive := false, log := s.log.(farewell := why, forgotten := Nums(s.w.frames)))
  }

  /** A registration restates the gaps of the leases the worker still has. */
  function WorkerRegisters(s: System): System {
    s.(w := if s.alive then OnRegistered(s.w) else FlushQueue(s.w.(registered := true)))
  }

  function StoredNothing(log: History, f: Frame): History {
    log.(discarded := log.discarded + {f.num}, life := log.life + [f.num])
  }

  function Stored(log: History, f: Frame): History {
    log.(store := log.store[f.num := f], life := log.life + [f.num])
  }

  function Apply(s: System, step: Step): System
    requires Enabled(s, step)
  {
    match step
    case DoReport(kind, payload) => WorkerReports(s, kind, payload)
    case SocketClosed => s.(w := OnClose(s.w), stale := s.stale + Messages(Pending(s)), taken := |s.w.wire|)
    case SocketOpened => s.(w := OnConnect(s.w), taken := 0)
    case Registered => WorkerRegisters(s)
    case BackstopFired => s.(w := OnReplayBackstop(s.w))
    case WorkerForgets => WorkerForgot(s, DeadlinePassed)
    case DeliverUp => HostReceives(s.(taken := s.taken + 1), s.w.wire[s.taken])
    case DeliverStale(m) => HostReceives(s, m)
    case DeliverDown(m) => WorkerReceives(s, m)
    case HostAcks => s.(sent := s.sent + {LeaseAck(s.h.appliedSeq)})
    case HostDisowns => s.(sent := s.sent + {LeaseLost})
    case WriteLands => s.(h := WriteLanded(s.h), log := Stored(s.log, s.h.chain[0]))
    case WriteDiscarded(_) => s.(h := WriteLanded(s.h), log := StoredNothing(s.log, s.h.chain[0]))
    case WriteFails => s.(h := WriteFailed(s.h))
    case WriteRecorded => s.(h := RecordHead(s.h))
    case CompletionChecked => s.(h := CheckCompletion(s.h))
    case CompletionLands => s.(h := CompletionLanded(s.h), log := Stored(s.log, s.h.completion.frame))
    case CompletionFails => s.(h := CompletionFailed(s.h))
    case CompletionFinishes(live) =>
      s.(h := FinishCompletion(s.h), sent := if live then s.sent + {RunCompleteAck} else s.sent,
         log := s.log.(finished := true))
    case WatermarkPersisted(n) => s.(disk := n, log := s.log.(overdue := s.log.overdue || AtCompletion(s, n)))
    case LeaseExpires => s.(h := Settle(s.h))
    case HostRestarts(restored) => s.(h := Installed(restored, s.disk), log := s.log.(life := []))
  }

  /** The steps can be taken one after the other from `s`. */
  predicate Possible(s: System, steps: seq<Step>)
    decreases |steps|
  {
    steps == [] || (Enabled(s, steps[0]) && Possible(Apply(s, steps[0]), steps[1..]))
  }

  function Exec(s: System, steps: seq<Step>): System
    requires Possible(s, steps)
    decreases |steps|
  {
    if steps == [] then s else Exec(Apply(s, steps[0]), steps[1..])
  }

  lemma {:induction false} ExecConcat(s: System, a: seq<Step>, b: seq<Step>)
    requires Possible(s, a) && Possible(Exec(s, a), b)
    ensures Possible(s, a + b) && Exec(s, a + b) == Exec(Exec(s, a), b)
    decreases |a|
  {
    if a == [] {
      assert a + b == b;
    } else {
      assert (a + b)[0] == a[0] && (a + b)[1..] == a[1..] + b;
      ExecConcat(Apply(s, a[0]), a[1..], b);
    }
  }

  lemma ExecThen(s: System, steps: seq<Step>, step: Step)
    requires Possible(s, steps) && Enabled(Exec(s, steps), step)
    ensures Possible(s, steps + [step]) && Exec(s, steps + [step]) == Apply(Exec(s, steps), step)
  {
    var t := Apply(Exec(s, steps), step);
    assert [step][1..] == [];
    assert Possible(t, []) && Exec(t, []) == t;
    ExecConcat(s, steps, [step]);
  }
}
