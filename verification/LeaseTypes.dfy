/** The vocabulary the worker and the host share: reporting frames and the messages of one lease. */
module LeaseTypes {

  /** How many unacknowledged frames a lease's replay buffer may hold before cheap ones are dropped. */
  const WORKER_REPLAY_BUFFER_LIMIT: nat := 2000

  /** The six lease-scoped reporting frame types. */
  datatype Kind = RunPatch | RunEvent | RunArtifact | RunMemories | RunUsageSnapshot | RunComplete

  /**
   * What a frame reports. Refused content is what the host's checks turn away before any write: an
   * oversized or misnamed artifact, an oversized, mismatched or misplaced usage snapshot, an
   * "artifact" run-event, or a run-memories with nothing learned.
   */
  datatype Content = Plain(data: nat) | Refused(data: nat)

  const PLAIN: Content := Plain(0)

  /** One reporting frame; `num` is its per-lease sequence number (frames are numbered from 1). */
  datatype Frame = Frame(num: nat, kind: Kind, payload: Content)

  /** What a worker puts on the wire for one lease. */
  datatype UpMsg = Report(frame: Frame) | LeaseGap(throughSeq: nat, dropped: nat)

  /** What the host answers with for one lease. */
  datatype DownMsg = LeaseAck(num: nat) | RunCompleteAck | LeaseLost

  /** Only these two kinds may ever be given up on by the buffer cap. */
  predicate Droppable(kind: Kind) {
    kind.RunEvent? || kind.RunArtifact?
  }

  /** The sequence numbers of some frames. */
  function Nums(frames: seq<Frame>): set<nat> {
    set f | f in frames :: f.num
  }

  /** Strictly ascending by sequence number, which is how a replay buffer keeps its frames. */
  predicate Ascending(frames: seq<Frame>) {
    forall i, j :: 0 <= i < j < |frames| ==> frames[i].num < frames[j].num
  }

  /** No sequence number occurs twice. */
  predicate DistinctNums(frames: seq<Frame>) {
    forall i, j :: 0 <= i < j < |frames| ==> frames[i].num != frames[j].num
  }

  /** The frame is the very one the worker assigned under its number. */
  predicate Genuine(issued: seq<Frame>, f: Frame) {
    1 <= f.num <= |issued| && issued[f.num - 1] == f
  }
}
