/** A frame nobody may drop, acknowledged and gone: its handler swallowed the disk's failure. */
module LeaseDiscards {
  import opened LeaseTypes
  import opened HostModel
  import opened LeaseSystem
  import opened LeaseOneFrame

  /** No buffer, socket, stray message or write chain holds a frame of the lease. */
  ghost predicate NoCopyInTheProtocol(s: System) {
    s.w.frames == [] && s.w.queue == [] && Pending(s) == [] && s.stale == {} && s.h.chain == []
        && s.h.completion.NoCompletion?
  }

  /**
   * A run-memories, accepted by the host's checks, reaches a full disk: it is recorded, acknowledged
   * and trimmed. The disk does not have it, no copy of it is left in the protocol, and a resend would
   * be refused. The memory store's own copy in memory, lost when the host stops, is not modelled.
   */
  lemma SwallowedFailureLosesMemories() returns (steps: seq<Step>)
    ensures Possible(INITIAL, steps)
    ensures var s := Exec(INITIAL, steps);
            && s.alive && s.h.held && s.log.issued == [Lone(RunMemories)]
            && Lone(RunMemories).payload.Plain?
            && LeaseAck(1) in s.sent && 1 !in s.log.store && NoCopyInTheProtocol(s) && !Admits(s.h, 1)
  {
    var s;
    steps, s := AckedRun(RunMemories, WriteDiscarded(false));
    assert Pending(s) == [];
  }
}
