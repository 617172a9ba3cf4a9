/**
 * The worker's half of one lease, on values: what each handler of the connection does to the
 * lease's replay buffer and to the wire. The class in WorkerConnection.dfy performs the same
 * steps in place and is proved equal to these functions.
 */
module WorkerModel {
  import opened LeaseTypes

  /**
   * `delivered` holds the numbers of the frames already handed to the current socket, `queue` the
   * lease's announcements still waiting in the generic queue, and `wire` everything this lease has
   * handed to the current socket, oldest first.
   */
  datatype Worker = Worker(
    lastSeq: nat,
    frames: seq<Frame>,
    awaitingAck: bool,
    lastAckedSeq: int,
    gapThrough: nat,
    droppedSinceGap: nat,
    registered: bool,
    delivered: set<nat>,
    queue: seq<UpMsg>,
    wire: seq<UpMsg>)

  /** The buffer a dispatch creates on a registered connection. */
  const FRESH: Worker := Worker(0, [], false, -1, 0, 0, true, {}, [], [])

  /** Index of the first frame of a kind, or the length when there is none. */
  function IndexOf(frames: seq<Frame>, kind: Kind): (i: nat)
    ensures i <= |frames|
  {
    if frames == [] then 0 else if frames[0].kind == kind then 0 else 1 + IndexOf(frames[1..], kind)
  }

  /** Which frame the cap gives up next: the oldest run-event, else the oldest run-artifact, else none. */
  function VictimIndex(frames: seq<Frame>): (i: nat)
    ensures i <= |frames|
  {
    var event := IndexOf(frames, RunEvent);
    if event < |frames| then event else IndexOf(frames, RunArtifact)
  }

  /** It is the first of its kind. */
  lemma {:induction false} IndexOfIsFirst(frames: seq<Frame>, kind: Kind, i: nat)
    requires i <= |frames|
    ensures i == IndexOf(frames, kind) <==>
              (i < |frames| ==> frames[i].kind == kind) && forall k :: 0 <= k < i ==> frames[k].kind != kind
    decreases |frames|
  {
    if frames != [] && frames[0].kind != kind && i > 0 {
      IndexOfIsFirst(frames[1..], kind, i - 1);
      assert forall k :: 0 < k < i ==> frames[k] == frames[1..][k - 1];
    }
  }

  /**
   * The oldest frame of the cheapest kind present is chosen, a run-event before any run-artifact, and
   * none exactly when neither is left.
   */
  lemma VictimIsCheapest(frames: seq<Frame>)
    ensures var i := VictimIndex(frames);
            && (i == |frames| <==> forall f :: f in frames ==> !f.kind.RunEvent? && !f.kind.RunArtifact?)
            && (i < |frames| ==> frames[i].kind.RunEvent? || frames[i].kind.RunArtifact?)
            && (i < |frames| && frames[i].kind.RunArtifact? ==> forall f :: f in frames ==> !f.kind.RunEvent?)
            && (i < |frames| ==> forall k :: 0 <= k < i ==> frames[k].kind != frames[i].kind)
  {
    IndexOfIsFirst(frames, RunEvent, IndexOf(frames, RunEvent));
    IndexOfIsFirst(frames, RunArtifact, IndexOf(frames, RunArtifact));
  }

  function WithoutIndex(frames: seq<Frame>, i: nat): (r: seq<Frame>)
    requires i < |frames|
  {
    frames[..i] + frames[i + 1..]
  }

  /** The buffer after the cap has run. */
  function Capped(frames: seq<Frame>): seq<Frame>
    decreases |frames|
  {
    if |frames| <= WORKER_REPLAY_BUFFER_LIMIT || VictimIndex(frames) == |frames| then frames
    else Capped(WithoutIndex(frames, VictimIndex(frames)))
  }

  /** Frames not yet handed to the current socket, in order. */
  function Undelivered(frames: seq<Frame>, delivered: set<nat>): seq<Frame> {
    if frames == [] then []
    else if frames[0].num in delivered then Undelivered(frames[1..], delivered)
    else [frames[0]] + Undelivered(frames[1..], delivered + {frames[0].num})
  }

  /** Frames above a watermark, in order. */
  function Above(frames: seq<Frame>, n: int): seq<Frame> {
    if frames == [] then []
    else if frames[0].num > n then [frames[0]] + Above(frames[1..], n)
    else Above(frames[1..], n)
  }

  function Reports(frames: seq<Frame>): (r: seq<UpMsg>)
    ensures |r| == |frames|
    ensures forall i :: 0 <= i < |r| ==> r[i] == Report(frames[i])
  {
    seq(|frames|, i requires 0 <= i < |frames| => Report(frames[i]))
  }

  function FlushLease(w: Worker): Worker {
    if !w.registered || w.awaitingAck then w
    else w.(delivered := w.delivered + Nums(w.frames),
            wire := w.wire + Reports(Undelivered(w.frames, w.delivered)))
  }

  /** Flush the generic queue. */
  function FlushQueue(w: Worker): Worker {
    if !w.registered then w else w.(queue := [], wire := w.wire + w.queue)
  }

  function ReportLeaseGap(w: Worker): Worker {
    if w.gapThrough == 0 then w
    else FlushQueue(w.(queue := w.queue + [LeaseGap(w.gapThrough, w.droppedSinceGap)]))
  }

  function Max(a: nat, b: nat): nat { if a < b then b else a }

  /** The number just below the oldest frame held; the last assigned number when nothing is held. */
  function BelowOldest(frames: seq<Frame>, lastSeq: nat): nat {
    if frames == [] then lastSeq else if frames[0].num == 0 then 0 else frames[0].num - 1
  }

  function CapLeaseBuffer(w: Worker): Worker {
    var kept := Capped(w.frames);
    var dropped := |w.frames| - |kept|;
    if dropped <= 0 then w
    else ReportLeaseGap(w.(
      frames := kept,
      delivered := w.delivered - (Nums(w.frames) - Nums(kept)),
      droppedSinceGap := w.droppedSinceGap + dropped,
      gapThrough := Max(w.gapThrough, BelowOldest(kept, w.lastSeq))))
  }

  /** Number a new frame, buffer it, cap the buffer, and send what may be sent. */
  function SendReporting(w: Worker, kind: Kind, payload: Content): Worker {
    var f := Frame(w.lastSeq + 1, kind, payload);
    FlushLease(CapLeaseBuffer(w.(lastSeq := w.lastSeq + 1, frames := w.frames + [f])))
  }

  /** A lease-ack: trim, make frames eligible again when the watermark is stalled, and replay. */
  function OnLeaseAck(w: Worker, n: nat): Worker {
    var kept := Above(w.frames, n);
    FlushLease(w.(
      frames := kept,
      delivered := if n == w.lastAckedSeq then w.delivered - Nums(kept) else w.delivered,
      lastAckedSeq := n,
      awaitingAck := false))
  }

  /** A fresh socket: nothing has been handed to it yet. */
  function OnConnect(w: Worker): Worker {
    w.(delivered := {}, wire := [])
  }

  /** Registration accepted: restate every hole given up on, then flush the generic queue. */
  function OnRegistered(w: Worker): Worker {
    FlushQueue(ReportLeaseGap(w.(registered := true)))
  }

  function OnClose(w: Worker): Worker {
    w.(registered := false, awaitingAck := true)
  }

  /** The buffer is deleted, and nothing of it is sent any more. */
  function ForgetLease(w: Worker): Worker {
    w.(frames := [])
  }

  /** The host never answered: resend rather than stay silent. */
  function OnReplayBackstop(w: Worker): Worker {
    if w.awaitingAck then FlushLease(w.(awaitingAck := false)) else w
  }

  // ---------------------------------------------------------------- facts about the pieces

  lemma {:induction false} AboveMembers(frames: seq<Frame>, n: int)
    ensures forall f :: f in Above(frames, n) <==> f in frames && f.num > n
    ensures |Above(frames, n)| <= |frames|
    decreases |frames|
  {
    if frames != [] {
      AboveMembers(frames[1..], n);
      assert frames == [frames[0]] + frames[1..];
    }
  }

  lemma {:induction false} AboveKeepsOrder(frames: seq<Frame>, n: int)
    requires Ascending(frames)
    ensures Ascending(Above(frames, n))
    decreases |frames|
  {
    if frames != [] {
      var rest := frames[1..];
      AboveKeepsOrder(rest, n);
      AboveMembers(rest, n);
      forall f | f in Above(rest, n) ensures frames[0].num < f.num {
        var k :| 0 <= k < |rest| && rest[k] == f;
        assert frames[k + 1] == f;
      }
    }
  }

  lemma AboveFacts(frames: seq<Frame>, n: int)
    ensures forall f :: f in Above(frames, n) <==> f in frames && f.num > n
    ensures |Above(frames, n)| <= |frames|
    ensures Ascending(frames) ==> Ascending(Above(frames, n))
  {
    AboveMembers(frames, n);
    if Ascending(frames) { AboveKeepsOrder(frames, n); }
  }

  lemma {:induction false} UndeliveredFacts(frames: seq<Frame>, delivered: set<nat>)
    ensures forall f :: f in Undelivered(frames, delivered) ==> f in frames && f.num !in delivered
    ensures DistinctNums(frames) ==> forall f :: f in frames && f.num !in delivered ==>
              f in Undelivered(frames, delivered)
    decreases |frames|
  {
    if frames != [] {
      var rest := frames[1..];
      assert frames == [frames[0]] + rest;
      assert DistinctNums(frames) ==> DistinctNums(rest);
      assert DistinctNums(frames) ==> forall f :: f in rest ==> f.num != frames[0].num;
      UndeliveredFacts(rest, delivered);
      UndeliveredFacts(rest, delivered + {frames[0].num});
    }
  }

  /** Frames go out in the order they were numbered. */
  lemma {:induction false} UndeliveredKeepsOrder(frames: seq<Frame>, delivered: set<nat>)
    requires Ascending(frames)
    ensures Ascending(Undelivered(frames, delivered))
    decreases |frames|
  {
    if frames != [] {
      var rest := frames[1..];
      var later := delivered + {frames[0].num};
      UndeliveredKeepsOrder(rest, delivered);
      UndeliveredKeepsOrder(rest, later);
      UndeliveredFacts(rest, later);
      assert forall f :: f in rest ==> frames[0].num < f.num;
    }
  }

  lemma WithoutIndexMembers(frames: seq<Frame>, i: nat)
    requires i < |frames|
    ensures forall f :: f in WithoutIndex(frames, i) ==> f in frames
    ensures forall f :: f in frames && f != frames[i] ==> f in WithoutIndex(frames, i)
  {
    assert frames == frames[..i] + [frames[i]] + frames[i + 1..];
  }

  lemma WithoutIndexFacts(frames: seq<Frame>, i: nat)
    requires i < |frames| && Ascending(frames)
    ensures Ascending(WithoutIndex(frames, i))
    ensures forall f :: f in WithoutIndex(frames, i) <==> f in frames && f != frames[i]
    ensures Nums(WithoutIndex(frames, i)) == Nums(frames) - {frames[i].num}
  {
    WithoutIndexMembers(frames, i);
    forall f | f in WithoutIndex(frames, i) ensures f.num != frames[i].num {
      assert f in frames[..i] || f in frames[i + 1..];
    }
    assert forall f :: f in frames ==> f == frames[i] || f in WithoutIndex(frames, i);
  }

  /**
   * What the cap does to a buffer: it stays ascending and only loses frames, every frame lost is a
   * run-event or a run-artifact, an artifact is lost only once no run-event is left, and afterwards
   * the buffer is within the limit unless neither kind is left.
   */
  lemma {:induction false} CapKeepsAllButCheapFrames(frames: seq<Frame>)
    requires Ascending(frames)
    ensures Ascending(Capped(frames))
    ensures forall f :: f in Capped(frames) ==> f in frames
    ensures forall f :: f in frames && f !in Capped(frames) ==> f.kind.RunEvent? || f.kind.RunArtifact?
    ensures |Capped(frames)| <= 2000
            || forall f :: f in Capped(frames) ==> !f.kind.RunEvent? && !f.kind.RunArtifact?
    ensures (exists f :: f in frames && f !in Capped(frames) && f.kind.RunArtifact?)
            ==> forall f :: f in Capped(frames) ==> !f.kind.RunEvent?
    ensures |Capped(frames)| <= |frames|
    ensures |Capped(frames)| == |frames| ==> Capped(frames) == frames
    ensures |frames| <= 2000 ==> Capped(frames) == frames
    ensures |Capped(frames)| < |frames| ==> |Capped(frames)| >= 2000
    decreases |frames|
  {
    var i := VictimIndex(frames);
    VictimIsCheapest(frames);
    if |frames| > WORKER_REPLAY_BUFFER_LIMIT && i < |frames| {
      WithoutIndexFacts(frames, i);
      CapKeepsAllButCheapFrames(WithoutIndex(frames, i));
    }
  }

  /** Of each kind the cap loses the oldest frames. */
  lemma {:induction false} CapDropsTheOldest(frames: seq<Frame>, f: Frame, g: Frame)
    requires Ascending(frames) && f in frames && f !in Capped(frames) && g in Capped(frames) && f.kind == g.kind
    ensures f.num < g.num
    decreases |frames|
  {
    var i := VictimIndex(frames);
    VictimIsCheapest(frames);
    CapKeepsAllButCheapFrames(frames);
    WithoutIndexFacts(frames, i);
    var k :| 0 <= k < |frames| && frames[k] == g;
    if f != frames[i] {
      CapKeepsAllButCheapFrames(WithoutIndex(frames, i));
      CapDropsTheOldest(WithoutIndex(frames, i), f, g);
    } else {
      CapKeepsAllButCheapFrames(WithoutIndex(frames, i));
    }
  }

  lemma NumsOfConcat(a: seq<Frame>, b: seq<Frame>)
    ensures Nums(a + b) == Nums(a) + Nums(b)
  {
    assert forall f :: f in a + b <==> f in a || f in b;
  }
}
