/** The worker's connection state for one lease, updated in place as the connection's handlers do. */
module WorkerConnection {
  import opened LeaseTypes
  import M = WorkerModel

  /**
   * The replay buffer's fields, the connection's `registered` flag and `delivered` set, this
   * lease's part of the generic queue, and `wire`, what has been handed to the current socket.
   */
  class LeaseConnection {
    var lastSeq: nat
    var frames: seq<Frame>
    var awaitingAck: bool
    var lastAckedSeq: int
    var gapThrough: nat
    var droppedSinceGap: nat
    var registered: bool
    var delivered: set<nat>
    var queue: seq<UpMsg>
    var wire: seq<UpMsg>

    ghost function View(): M.Worker
      reads this
    {
      M.Worker(lastSeq, frames, awaitingAck, lastAckedSeq, gapThrough, droppedSinceGap, registered, delivered,
          queue, wire)
    }

    /** Frames are held in order, and none is numbered above the last number assigned. */
    ghost predicate Valid()
      reads this
    {
      Ascending(frames) && forall f :: f in frames ==> f.num <= lastSeq
    }

    /** A dispatch arriving on a registered connection creates the buffer. */
    constructor ()
      ensures Valid() && View() == M.FRESH
    {
      lastSeq, frames, awaitingAck, lastAckedSeq := 0, [], false, -1;
      gapThrough, droppedSinceGap := 0, 0;
      registered, delivered, queue, wire := true, {}, [], [];
    }

    /** Index of the first frame of a kind, -1 when there is none. */
    method FindIndex(kind: Kind) returns (index: int)
      ensures index == -1 ==> M.IndexOf(frames, kind) == |frames|
      ensures index != -1 ==> 0 <= index < |frames| && index == M.IndexOf(frames, kind)
    {
      index := 0;
      while index < |frames|
        invariant 0 <= index <= |frames|
        invariant forall k :: 0 <= k < index ==> frames[k].kind != kind
      {
        if frames[index].kind == kind {
          M.IndexOfIsFirst(frames, kind, index);
          return;
        }
        index := index + 1;
      }
      M.IndexOfIsFirst(frames, kind, |frames|);
      index := -1;
    }

    method Flush()
      modifies this`queue, this`wire
      ensures View() == M.FlushQueue(old(View()))
    {
      if !registered { return; }
      ghost var all := wire + queue;
      while queue != []
        invariant wire + queue == all
      {
        wire, queue := wire + [queue[0]], queue[1..];
      }
      assert wire + [] == wire;
    }

    method ReportLeaseGap()
      modifies this`queue, this`wire
      ensures View() == M.ReportLeaseGap(old(View()))
    {
      if gapThrough <= 0 { return; }
      queue := queue + [LeaseGap(gapThrough, droppedSinceGap)];
      Flush();
    }

    /** Drop the cheapest frames until the buffer is within its limit or nothing may be dropped. */
    method DropCheapFrames() returns (dropped: nat)
      requires Valid()
      modifies this`frames, this`delivered
      ensures Valid()
      ensures frames == M.Capped(old(frames)) && dropped == |old(frames)| - |frames|
      ensures delivered == old(delivered) - (Nums(old(frames)) - Nums(frames))
    {
      dropped := 0;
      while |frames| > WORKER_REPLAY_BUFFER_LIMIT
        invariant Valid()
        invariant M.Capped(frames) == M.Capped(old(frames))
        invariant dropped == |old(frames)| - |frames|
        invariant Nums(frames) <= Nums(old(frames))
        invariant delivered == old(delivered) - (Nums(old(frames)) - Nums(frames))
        decreases |frames|
      {
        var index := FindIndex(RunEvent);
        if index < 0 { index := FindIndex(RunArtifact); }
        if index < 0 { break; }
        dropped := dropped + 1;
        DropAt(index);
      }
    }

    method DropAt(index: nat)
      requires Valid() && index < |frames|
      modifies this`frames, this`delivered
      ensures Valid()
      ensures frames == M.WithoutIndex(old(frames), index)
      ensures delivered == old(delivered) - {old(frames)[index].num}
      ensures old(frames)[index].num in Nums(old(frames))
      ensures Nums(frames) == Nums(old(frames)) - {old(frames)[index].num}
    {
      M.WithoutIndexFacts(frames, index);
      var gone := frames[index];
      assert gone in frames;
      frames := frames[..index] + frames[index + 1..];
      delivered := delivered - {gone.num};
    }

    /** Cap the buffer and account for every drop. */
    method CapLeaseBuffer()
      requires Valid()
      modifies this`frames, this`delivered, this`droppedSinceGap, this`gapThrough, this`queue, this`wire
      ensures Valid()
      ensures View() == M.CapLeaseBuffer(old(View()))
    {
      ghost var before := frames;
      M.CapKeepsAllButCheapFrames(frames);
      var dropped := DropCheapFrames();
      if dropped == 0 {
        assert Nums(before) - Nums(frames) == {};
        return;
      }
      droppedSinceGap := droppedSinceGap + dropped;
      gapThrough := M.Max(gapThrough, M.BelowOldest(frames, lastSeq));
      ReportLeaseGap();
    }

    /** Hand every frame the current socket has not seen to it, in order. */
    method FlushLease()
      requires Valid()
      modifies this`delivered, this`wire
      ensures Valid()
      ensures View() == M.FlushLease(old(View()))
    {
      if !registered || awaitingAck { return; }
      ghost var all := wire + M.Reports(M.Undelivered(frames, delivered));
      assert frames[0..] == frames;
      for i := 0 to |frames|
        invariant wire + M.Reports(M.Undelivered(frames[i..], delivered)) == all
        invariant delivered == old(delivered) + Nums(frames[..i])
      {
        var f := frames[i];
        FlushOne(i);
        if f.num !in delivered {
          delivered := delivered + {f.num};
          wire := wire + [Report(f)];
        }
      }
      assert frames[..|frames|] == frames;
    }

    lemma FlushOne(i: nat)
      requires i < |frames|
      ensures Nums(frames[..i + 1]) == Nums(frames[..i]) + {frames[i].num}
      ensures M.Reports(M.Undelivered(frames[i..], delivered))
           == if frames[i].num in delivered then M.Reports(M.Undelivered(frames[i + 1..], delivered))
              else [Report(frames[i])] + M.Reports(M.Undelivered(frames[i + 1..], delivered + {frames[i].num}))
    {
      assert frames[i..][1..] == frames[i + 1..];
      assert frames[..i + 1] == frames[..i] + [frames[i]];
      M.NumsOfConcat(frames[..i], [frames[i]]);
      assert Nums([frames[i]]) == {frames[i].num};
    }

    method SendReporting(kind: Kind, payload: Content)
      requires Valid()
      modifies this
      ensures Valid()
      ensures View() == M.SendReporting(old(View()), kind, payload)
    {
      Push(kind, payload);
      CapLeaseBuffer();
      FlushLease();
    }

    method Push(kind: Kind, payload: Content)
      requires Valid()
      modifies this`lastSeq, this`frames
      ensures Valid()
      ensures View() == old(View()).(lastSeq := old(lastSeq) + 1,
                                     frames := old(frames) + [Frame(old(lastSeq) + 1, kind, payload)])
    {
      lastSeq := lastSeq + 1;
      frames := frames + [Frame(lastSeq, kind, payload)];
    }

    method OnLeaseAck(n: nat)
      requires Valid()
      modifies this
      ensures Valid()
      ensures View() == M.OnLeaseAck(old(View()), n)
    {
      M.AboveFacts(frames, n);
      frames := M.Above(frames, n);
      if n == lastAckedSeq {
        delivered := delivered - Nums(frames);
      }
      lastAckedSeq := n;
      awaitingAck := false;
      FlushLease();
    }

    method OnConnect()
      modifies this
      ensures View() == M.OnConnect(old(View()))
    {
      delivered, wire := {}, [];
    }

    method OnRegistered()
      modifies this
      ensures View() == M.OnRegistered(old(View()))
    {
      registered := true;
      ReportLeaseGap();
      Flush();
    }

    method OnClose()
      modifies this
      ensures View() == M.OnClose(old(View()))
    {
      registered, awaitingAck := false, true;
    }

    /** A lease-lost, a run-complete-ack or the worker's own deadline: nothing is left to replay. */
    method ForgetLease()
      modifies this`frames
      ensures Valid() && View() == M.ForgetLease(old(View()))
    {
      frames := [];
    }

    method OnReplayBackstop()
      requires Valid()
      modifies this
      ensures Valid()
      ensures View() == M.OnReplayBackstop(old(View()))
    {
      if !awaitingAck { return; }
      awaitingAck := false;
      FlushLease();
    }
  }
}
