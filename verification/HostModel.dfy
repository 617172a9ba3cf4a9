/**
 * The host's half of one lease, on values: admission by exact sequence number, the lease's write
 * chain, the contiguous watermark and the parked completion. The class in HostRegistry.dfy
 * performs the same steps in place and is proved equal to these functions.
 */
module HostModel {
  import opened LeaseTypes

  /**
   * Where a run-complete stands: waiting for the writes ahead of it, parked behind a hole, its
   * terminal state being written, or written and about to be recorded.
   */
  datatype Completion =
    | NoCompletion
    | Draining(frame: Frame)
    | Parked(frame: Frame)
    | Writing(frame: Frame)
    | Landed(frame: Frame)

  /**
   * `chain` is the lease's write chain, head first; `headLanded` says that the head's handler has
   * resolved but the frame is not recorded yet. `held` is whether the registry still has the lease.
   */
  datatype Host = Host(
    held: bool,
    appliedSeq: nat,
    appliedAhead: set<nat>,
    inFlight: set<nat>,
    chain: seq<Frame>,
    headLanded: bool,
    completion: Completion)

  function CompletionNums(c: Completion): set<nat> {
    if c.NoCompletion? then {} else {c.frame.num}
  }

  /** A lease as dispatch or restore installs it, at a given watermark. */
  function Installed(held: bool, watermark: nat): Host {
    Host(held, watermark, {}, {}, [], false, NoCompletion)
  }

  predicate Admits(h: Host, n: nat) {
    n > h.appliedSeq && n !in h.appliedAhead && n !in h.inFlight
  }

  /** A reporting frame arrives. */
  function Deliver(h: Host, f: Frame): Host {
    if !h.held || !Admits(h, f.num) then h
    else if !f.kind.RunComplete? then h.(inFlight := h.inFlight + {f.num}, chain := h.chain + [f])
    else if !h.completion.NoCompletion? then h.(inFlight := h.inFlight + {f.num})
    else h.(inFlight := h.inFlight + {f.num}, completion := Draining(f))
  }

  /** How far the watermark is pulled up over frames applied ahead of it. */
  function Pulled(n: nat, ahead: set<nat>): (r: nat)
    ensures r >= n
    decreases ahead
  {
    if n + 1 in ahead then Pulled(n + 1, ahead - {n + 1}) else n
  }

  function AboveSeq(ahead: set<nat>, n: nat): set<nat> {
    set s | s in ahead && s > n
  }

  /**
   * The pull stops at the first number missing: everything it stepped over was applied, the next
   * number was not. These two facts determine the result.
   */
  lemma {:induction false} PulledIsTheContiguousPrefix(n: nat, ahead: set<nat>)
    ensures forall s :: n < s <= Pulled(n, ahead) ==> s in ahead
    ensures Pulled(n, ahead) + 1 !in ahead
    decreases ahead
  {
    if n + 1 in ahead {
      PulledIsTheContiguousPrefix(n + 1, ahead - {n + 1});
    }
  }

  /** Every frame below `n` is accounted for, so a completion numbered `n` is safe to acknowledge. */
  predicate ContiguousBelow(h: Host, n: nat) {
    h.appliedSeq + 1 >= n
  }

  function MaybeFinishPending(h: Host): Host {
    if h.completion.Parked? && ContiguousBelow(h, h.completion.frame.num)
    then h.(completion := Writing(h.completion.frame)) else h
  }

  /** Move the watermark to `n`, then over everything already applied just above it. */
  function PullUp(h: Host, n: nat, ahead: set<nat>): Host {
    var to := Pulled(n, ahead);
    h.(appliedSeq := to, appliedAhead := AboveSeq(ahead, to))
  }

  /** Record one frame as applied. */
  function MarkApplied(h: Host, n: nat): Host {
    var h1 := h.(inFlight := h.inFlight - {n});
    if n <= h1.appliedSeq then h1
    else
      var h2 := PullUp(h1, h1.appliedSeq, h1.appliedAhead + {n});
      if h2.appliedSeq == h1.appliedSeq then h2 else MaybeFinishPending(h2)
  }

  /** The worker holds nothing at or below `through` any more: step over the whole range. */
  function SkipLeaseGap(h: Host, through: nat): Host {
    if !h.held || through <= h.appliedSeq then h
    else MaybeFinishPending(PullUp(h, through, AboveSeq(h.appliedAhead, through)))
  }

  /** Any message of the lease arriving from the worker. */
  function Receive(h: Host, m: UpMsg): Host {
    match m
    case Report(f) => Deliver(h, f)
    case LeaseGap(through, _) => SkipLeaseGap(h, through)
  }

  /**
   * The host's checks turn the frame away before anything is written. Nothing is checked of a run-
   * patch or a run-complete.
   */
  predicate Refuses(f: Frame) {
    f.payload.Refused? && !f.kind.RunPatch? && !f.kind.RunComplete?
  }

  /**
   * Whether the kind's handler rejects when the disk does. A run-event's append and a run-memories'
   * store both log a failed write and resolve all the same.
   */
  predicate Propagates(kind: Kind) {
    !kind.RunEvent? && !kind.RunMemories?
  }

  /** What the handler's promise comes to: the frame is in the store, or resolved without it, or rejected. */
  datatype Outcome = Kept | Discarded | Rejected

  function HandlerOutcome(f: Frame, disk: bool): Outcome {
    if Refuses(f) then Discarded
    else if disk then Kept
    else if Propagates(f.kind) then Rejected
    else Discarded
  }

  /** Frames that may be recorded as applied although nothing was stored. */
  predicate Discardable(f: Frame) {
    Refuses(f) || !Propagates(f.kind)
  }

  /** The head's handler resolved, whatever it stored. */
  function WriteLanded(h: Host): Host {
    h.(headLanded := true)
  }

  /** The head's handler rejected: nothing is recorded and the frame becomes admissible again. */
  function WriteFailed(h: Host): Host
    requires h.chain != []
  {
    h.(chain := h.chain[1..], inFlight := h.inFlight - {h.chain[0].num})
  }

  /** The head's landed write is recorded, and the next write may start. */
  function RecordHead(h: Host): Host
    requires h.chain != []
  {
    MarkApplied(h.(chain := h.chain[1..], headLanded := false), h.chain[0].num)
  }

  /** The writes ahead of a completion are drained: apply it, or park it behind a hole. */
  function CheckCompletion(h: Host): Host
    requires h.completion.Draining?
  {
    var f := h.completion.frame;
    h.(completion := if ContiguousBelow(h, f.num) then Writing(f) else Parked(f))
  }

  function CompletionLanded(h: Host): Host
    requires h.completion.Writing?
  {
    h.(completion := Landed(h.completion.frame))
  }

  function CompletionFailed(h: Host): Host
    requires h.completion.Writing?
  {
    h.(completion := NoCompletion, inFlight := h.inFlight - {h.completion.frame.num})
  }

  /**
   * The registry lets go of the lease. A parked completion goes with it; one under way goes on with
   * the lease it holds.
   */
  function Settle(h: Host): Host {
    h.(held := false, completion := if h.completion.Parked? then NoCompletion else h.completion)
  }

  /** The completion's terminal state is on disk: record it and settle the lease. */
  function FinishCompletion(h: Host): Host
    requires h.completion.Landed?
  {
    Settle(MarkApplied(h, h.completion.frame.num)).(completion := NoCompletion)
  }
}
