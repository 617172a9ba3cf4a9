/**
 * The order in which frames take effect. Frames go out, arrive and are handled in the order they
 * were numbered, through losses, reconnects and resends, until a handler rejects a write or a stray
 * message gets through: then a frame may take effect after later ones.
 */
module LeaseOrder {
  import opened LeaseTypes
  import opened WorkerModel
  import opened HostModel
  import opened LeaseSystem
  import opened LeaseInvariant
  import opened LeaseSafety
  import opened LeaseResending
  import opened LeaseCatchUp

  /** The run-complete has its own way to the store, beside the chain. */
  predicate IsCompletion(log: History, n: nat) {
    Completed(log.issued) && n == |log.issued|
  }

  /** A frame numbered `n` would be admitted, and would go on the chain. */
  predicate Wanted(s: System, n: nat) {
    !HostHas(s.h, n) && !IsCompletion(s.log, n)
  }

  predicate Carries(m: UpMsg, n: nat) {
    m.Report? && m.frame.num == n
  }

  /** The current socket brings the frame. */
  ghost predicate Pends(s: System, n: nat) {
    exists i :: 0 <= i < |Pending(s)| && Carries(Pending(s)[i], n)
  }

  ghost predicate Sendable(s: System, n: nat) {
    n in Nums(s.w.frames) || Pends(s, n)
  }

  /** The number's handler resolved in this life, or it is on the chain. */
  predicate Passed(s: System, n: nat) {
    n in s.log.life || n in Nums(s.h.chain)
  }

  /** What took effect in this host life is in ascending order, the run-complete excepted. */
  ghost predicate LifeInOrder(log: History) {
    forall i, j :: 0 <= i < j < |log.life| ==> log.life[i] < log.life[j] || IsCompletion(log, log.life[i])
  }

  /** What took effect, and what is about to, is in ascending order. */
  ghost predicate HandledInOrder(s: System) {
    && LifeInOrder(s.log)
    && Ascending(s.h.chain)
    && (forall n, f :: n in s.log.life && f in Unresolved(s.h) ==> n < f.num || IsCompletion(s.log, n))
  }

  function Unresolved(h: Host): seq<Frame> {
    if h.headLanded && h.chain != [] then h.chain[1..] else h.chain
  }

  /** No frame the host still wants lies below one it has taken. */
  ghost predicate NothingOvertaken(s: System) {
    forall n: nat, p: nat :: Wanted(s, n) && Sendable(s, n) && Passed(s, p) ==> p < n || IsCompletion(s.log, p)
  }

  /** A wanted frame goes ahead of every later one on the socket. */
  ghost predicate WireInOrder(s: System) {
    forall i: nat, n: nat ::
      i < |Pending(s)| && Pending(s)[i].Report? && n < Pending(s)[i].frame.num && Wanted(s, n) && Sendable(s, n) ==>
        SentBefore(s, n, i)
  }

  ghost predicate SentBefore(s: System, n: nat, i: nat) {
    exists j :: 0 <= j < i && j < |Pending(s)| && Carries(Pending(s)[j], n)
  }

  /** A held frame handed to this socket is with the host or on its way. */
  ghost predicate NothingSkipped(s: System) {
    && (!s.w.registered ==> Pending(s) == [])
    && (s.w.registered ==>
          && (forall n :: n in Nums(s.w.frames) && n in s.w.delivered && Wanted(s, n) ==> Pends(s, n))
          && (forall n :: n in s.w.delivered ==> n <= s.w.lastSeq))
  }

  ghost predicate InOrder(s: System) {
    && HandledInOrder(s)
    && (s.h.held ==> NothingOvertaken(s) && WireInOrder(s))
    && (s.h.held ==> NothingSkipped(s))
  }

  /** Numbers on the socket, on the chain and in the log are the worker's. */
  ghost predicate Numbered(s: System) {
    && s.taken <= |s.w.wire|
    && (forall i :: 0 <= i < |Pending(s)| && Pending(s)[i].Report? ==> Pending(s)[i].frame.num <= |s.log.issued|)
    && (forall n: nat :: Passed(s, n) ==> n <= |s.log.issued|)
    && s.w.lastSeq == |s.log.issued| && Ascending(s.w.frames)
    && (forall f :: f in s.w.frames ==> f.num <= |s.log.issued|)
  }

  lemma InvIsNumbered(s: System)
    requires Inv(s)
    ensures Numbered(s)
  {
    forall i | 0 <= i < |Pending(s)| && Pending(s)[i].Report? ensures Pending(s)[i].frame.num <= |s.log.issued| {
      assert Pending(s)[i] in s.w.wire;
    }
    PassedIsNumbered(s.h, s.log);
  }

  lemma PassedIsNumbered(h: Host, log: History)
    requires LogInv(log) && HostInv(h, log)
    ensures forall n :: n in log.life || n in Nums(h.chain) ==> n <= |log.issued|
  {
    assert forall f :: f in h.chain ==> f.num <= |log.issued|;
  }

  // ---------------------------------------------------------------- the worker's side

  /** Before anything is flushed: frames go, one may come, gaps may be announced. */
  lemma PreparingKeepsOrder(s: System, t: System, extra: seq<UpMsg>)
    requires Numbered(s) && InOrder(s) && t.h == s.h && t.log.life == s.log.life
    requires s.log.issued <= t.log.issued && (t.log.issued != s.log.issued ==> !Completed(s.log.issued))
    requires Pending(t) == Pending(s) + extra && (forall i :: 0 <= i < |extra| ==> !extra[i].Report?)
    requires forall n :: n in Nums(t.w.frames) ==> n in Nums(s.w.frames) || n > |s.log.issued|
    requires t.w.registered == s.w.registered && t.w.delivered <= s.w.delivered && t.w.lastSeq >= s.w.lastSeq
    requires !s.w.registered ==> extra == []
    ensures InOrder(t)
  {
    assert forall n :: IsCompletion(s.log, n) ==> IsCompletion(t.log, n);
    assert forall n :: Wanted(t, n) ==> Wanted(s, n);
    assert forall i :: 0 <= i < |Pending(s)| ==> Pending(t)[i] == Pending(s)[i];
    assert forall i :: |Pending(s)| <= i < |Pending(t)| ==> Pending(t)[i] == extra[i - |Pending(s)|];
    forall n: nat | Pends(t, n) ensures Pends(s, n) {
      var i :| 0 <= i < |Pending(t)| && Carries(Pending(t)[i], n);
      assert i < |Pending(s)|;
    }
    if s.h.held {
      PreparingOvertakesNothing(s, t);
      PreparingKeepsWire(s, t, extra);
      PreparingKeepsSkips(s, t);
    }
  }

  lemma PreparingOvertakesNothing(s: System, t: System)
    requires Numbered(s) && NothingOvertaken(s) && t.h == s.h && t.log.life == s.log.life
    requires forall n :: IsCompletion(s.log, n) ==> IsCompletion(t.log, n)
    requires forall n :: Wanted(t, n) ==> Wanted(s, n)
    requires forall n: nat :: Pends(t, n) ==> Pends(s, n)
    requires forall n :: n in Nums(t.w.frames) ==> n in Nums(s.w.frames) || n > |s.log.issued|
    ensures NothingOvertaken(t)
  {
    forall n: nat, p: nat | Wanted(t, n) && Sendable(t, n) && Passed(t, p) ensures p < n || IsCompletion(t.log, p) {
      assert Passed(s, p);
      assert n <= |s.log.issued| ==> Sendable(s, n);
    }
  }

  lemma PreparingKeepsWire(s: System, t: System, extra: seq<UpMsg>)
    requires Numbered(s) && WireInOrder(s) && Pending(t) == Pending(s) + extra
    requires forall i :: 0 <= i < |extra| ==> !extra[i].Report?
    requires forall n :: Wanted(t, n) ==> Wanted(s, n)
    requires forall n: nat :: Pends(t, n) ==> Pends(s, n)
    requires forall n :: n in Nums(t.w.frames) ==> n in Nums(s.w.frames) || n > |s.log.issued|
    ensures WireInOrder(t)
  {
    assert forall i :: |Pending(s)| <= i < |Pending(t)| ==> Pending(t)[i] == extra[i - |Pending(s)|];
    forall i: nat, n: nat | i < |Pending(t)| && Pending(t)[i].Report? && n < Pending(t)[i].frame.num
                            && Wanted(t, n) && Sendable(t, n)
      ensures SentBefore(t, n, i)
    {
      assert i < |Pending(s)|;
      assert Pending(s)[i] == Pending(t)[i] && Sendable(s, n);
      assert SentBefore(s, n, i);
      var j :| 0 <= j < i && j < |Pending(s)| && Carries(Pending(s)[j], n);
      assert Carries(Pending(t)[j], n);
    }
  }

  lemma PreparingKeepsSkips(s: System, t: System)
    requires NothingSkipped(s) && t.w.registered == s.w.registered && t.w.delivered <= s.w.delivered
    requires t.w.lastSeq >= s.w.lastSeq
    requires forall n :: Wanted(t, n) ==> Wanted(s, n)
    requires |Pending(t)| >= |Pending(s)| && forall i :: 0 <= i < |Pending(s)| ==> Pending(t)[i] == Pending(s)[i]
    requires !s.w.registered ==> Pending(t) == Pending(s)
    requires forall n :: n in Nums(t.w.frames) ==> n in Nums(s.w.frames) || n > s.w.lastSeq
    ensures NothingSkipped(t)
  {
    forall n | t.w.registered && n in Nums(t.w.frames) && n in t.w.delivered && Wanted(t, n) ensures Pends(t, n) {
      assert Pends(s, n);
      var i :| 0 <= i < |Pending(s)| && Carries(Pending(s)[i], n);
      assert Carries(Pending(t)[i], n);
    }
  }

  /** A flush sends the unseen frames in order, behind everything sent already. */
  lemma FlushKeepsOrder(s: System)
    requires Numbered(s) && InOrder(s)
    ensures InOrder(s.(w := FlushLease(s.w)))
  {
    if s.w.registered && !s.w.awaitingAck && s.h.held {
      FlushOvertakesNothing(s);
      FlushKeepsWire(s);
      FlushKeepsSkips(s);
    }
    SameHostHandlesInOrder(s, s.(w := FlushLease(s.w)));
  }

  lemma SameHostHandlesInOrder(s: System, t: System)
    requires HandledInOrder(s) && t.h == s.h && t.log == s.log
    ensures HandledInOrder(t)
  {
  }

  lemma FlushOvertakesNothing(s: System)
    requires Numbered(s) && s.w.registered && !s.w.awaitingAck && NothingOvertaken(s)
    ensures NothingOvertaken(s.(w := FlushLease(s.w)))
  {
    var t := s.(w := FlushLease(s.w));
    forall n: nat, p: nat | Wanted(t, n) && Sendable(t, n) && Passed(t, p) ensures p < n || IsCompletion(t.log, p) {
      if Pends(t, n) { PendingAfterFlush(s, n); }
      assert Wanted(s, n) && Sendable(s, n) && Passed(s, p);
    }
  }

  lemma FlushExtendsPending(s: System)
    requires Numbered(s) && s.w.registered && !s.w.awaitingAck
    ensures var p, q := Pending(s), Pending(s.(w := FlushLease(s.w)));
            && |q| >= |p| && q[..|p|] == p
            && (forall i :: |p| <= i < |q| ==> q[i] == FlushLease(s.w).wire[s.taken + i] && s.taken + i >= |s.w.wire|)
  {
    var more := FlushAppends(s.w);
    PendingGrows(s, s.(w := FlushLease(s.w)), more);
  }

  lemma FlushAppends(w: Worker) returns (more: seq<UpMsg>)
    ensures FlushLease(w).wire == w.wire + more
  {
    more := if w.registered && !w.awaitingAck then Reports(Undelivered(w.frames, w.delivered)) else [];
  }

  lemma PendingGrows(s: System, t: System, more: seq<UpMsg>)
    requires t.taken == s.taken <= |s.w.wire| && t.w.wire == s.w.wire + more
    ensures Pending(t) == Pending(s) + more
  {
  }

  lemma PendingAfterFlush(s: System, n: nat)
    requires Numbered(s) && s.w.registered && !s.w.awaitingAck && Pends(s.(w := FlushLease(s.w)), n)
    ensures Sendable(s, n)
  {
    var t := s.(w := FlushLease(s.w));
    FlushSendsExactlyTheUnseen(s.w);
    FlushExtendsPending(s);
    var i :| 0 <= i < |Pending(t)| && Carries(Pending(t)[i], n);
    if i < |Pending(s)| {
      assert Pending(t)[..|Pending(s)|][i] == Pending(s)[i];
      assert Pends(s, n);
    } else {
      assert Sent(s.w, t.w, Pending(t)[i].frame);
    }
  }

  lemma FlushKeepsWire(s: System)
    requires Numbered(s) && s.w.registered && !s.w.awaitingAck && WireInOrder(s) && NothingSkipped(s)
    ensures WireInOrder(s.(w := FlushLease(s.w)))
  {
    var t := s.(w := FlushLease(s.w));
    FlushExtendsPending(s);
    forall i: nat, n: nat | i < |Pending(t)| && Pending(t)[i].Report? && n < Pending(t)[i].frame.num
                            && Wanted(t, n) && Sendable(t, n)
      ensures SentBefore(t, n, i)
    {
      if Pends(t, n) { PendingAfterFlush(s, n); }
      if i < |Pending(s)| {
        assert Pending(t)[..|Pending(s)|][i] == Pending(s)[i];
        assert Wanted(s, n) && SentBefore(s, n, i);
        var j :| 0 <= j < i && j < |Pending(s)| && Carries(Pending(s)[j], n);
        assert Pending(t)[..|Pending(s)|][j] == Pending(s)[j];
      } else {
        FlushedBehind(s, i, n);
      }
    }
  }

  /** A frame sent by a flush goes behind every wanted frame numbered below it. */
  lemma FlushedBehind(s: System, i: nat, n: nat)
    requires Numbered(s) && s.w.registered && !s.w.awaitingAck && NothingSkipped(s)
    requires var t := s.(w := FlushLease(s.w));
             |Pending(s)| <= i < |Pending(t)| && Pending(t)[i].Report? && n < Pending(t)[i].frame.num
    requires Wanted(s, n) && Sendable(s, n)
    ensures SentBefore(s.(w := FlushLease(s.w)), n, i)
  {
    if n in s.w.delivered || n !in Nums(s.w.frames) {
      assert Pends(s, n);
      var j := StillPends(s, n);
    } else {
      var f :| f in s.w.frames && f.num == n;
      UnseenGoesAhead(s, i, f);
    }
  }

  lemma UnseenGoesAhead(s: System, i: nat, f: Frame)
    requires Numbered(s) && s.w.registered && !s.w.awaitingAck && f in s.w.frames && f.num !in s.w.delivered
    requires var t := s.(w := FlushLease(s.w));
             |Pending(s)| <= i < |Pending(t)| && Pending(t)[i].Report? && f.num < Pending(t)[i].frame.num
    ensures SentBefore(s.(w := FlushLease(s.w)), f.num, i)
  {
    var t := s.(w := FlushLease(s.w));
    FlushExtendsPending(s);
    var k := UnseenIsSent(s.w, f);
    SentInOrder(s.w, k, s.taken + i);
    assert Pending(t)[k - s.taken] == Report(f) && Carries(Pending(t)[k - s.taken], f.num);
  }

  lemma SentInOrder(w: Worker, k: nat, l: nat)
    requires Ascending(w.frames) && w.registered && !w.awaitingAck
    requires |w.wire| <= k < |FlushLease(w).wire| && |w.wire| <= l < |FlushLease(w).wire|
    requires var a, b := FlushLease(w).wire[k], FlushLease(w).wire[l];
             a.Report? && b.Report? && a.frame.num < b.frame.num
    ensures k < l
  {
    FlushSendsExactlyTheUnseen(w);
  }

  lemma StillPends(s: System, n: nat) returns (j: nat)
    requires Numbered(s) && s.w.registered && !s.w.awaitingAck && Pends(s, n)
    ensures var t := s.(w := FlushLease(s.w)); j < |Pending(s)| <= |Pending(t)| && Carries(Pending(t)[j], n)
  {
    FlushExtendsPending(s);
    j :| j < |Pending(s)| && Carries(Pending(s)[j], n);
    assert Pending(s.(w := FlushLease(s.w)))[..|Pending(s)|][j] == Pending(s)[j];
  }

  lemma UnseenPends(s: System, f: Frame)
    requires Numbered(s) && s.w.registered && !s.w.awaitingAck && f in s.w.frames && f.num !in s.w.delivered
    ensures Pends(s.(w := FlushLease(s.w)), f.num)
  {
    var k := UnseenIsSent(s.w, f);
    OnTheWirePends(s.(w := FlushLease(s.w)), k, f);
  }

  lemma UnseenIsSent(w: Worker, f: Frame) returns (k: nat)
    requires Ascending(w.frames) && w.registered && !w.awaitingAck && f in w.frames && f.num !in w.delivered
    ensures |w.wire| <= k < |FlushLease(w).wire| && FlushLease(w).wire[k] == Report(f)
  {
    FlushSendsExactlyTheUnseen(w);
    assert Sent(w, FlushLease(w), f);
    k :| |w.wire| <= k < |FlushLease(w).wire| && FlushLease(w).wire[k] == Report(f);
  }

  lemma OnTheWirePends(t: System, k: nat, f: Frame)
    requires t.taken <= k < |t.w.wire| && t.w.wire[k] == Report(f)
    ensures Pends(t, f.num)
  {
    assert Pending(t)[k - t.taken] == Report(f) && Carries(Pending(t)[k - t.taken], f.num);
  }

  lemma FlushKeepsSkips(s: System)
    requires Numbered(s) && s.w.registered && !s.w.awaitingAck && NothingSkipped(s)
    ensures NothingSkipped(s.(w := FlushLease(s.w)))
  {
    var t := s.(w := FlushLease(s.w));
    forall n | n in Nums(t.w.frames) && n in t.w.delivered && Wanted(t, n) ensures Pends(t, n) {
      if n in s.w.delivered {
        assert Pends(s, n);
        var j := StillPends(s, n);
      } else {
        var f :| f in s.w.frames && f.num == n;
        UnseenPends(s, f);
      }
    }
    HandedOverIsNumbered(s);
  }

  lemma HandedOverIsNumbered(s: System)
    requires Numbered(s) && s.w.registered && NothingSkipped(s)
    ensures forall n :: n in FlushLease(s.w).delivered ==> n <= s.w.lastSeq
  {
    assert forall n :: n in Nums(s.w.frames) ==> n <= s.w.lastSeq;
  }

  /** The worker before a report's flush: the frame is buffered, the buffer capped, a gap announced. */
  function BeforeFlush(s: System, kind: Kind, payload: Content): Worker {
    CapLeaseBuffer(s.w.(lastSeq := s.w.lastSeq + 1, frames := s.w.frames + [Frame(s.w.lastSeq + 1, kind, payload)]))
  }

  lemma CapAnnouncesOnly(w: Worker) returns (extra: seq<UpMsg>)
    requires Ascending(w.frames) && forall m :: m in w.queue ==> m.LeaseGap?
    ensures var w' := CapLeaseBuffer(w);
            && w'.wire == w.wire + extra && (forall i :: 0 <= i < |extra| ==> !extra[i].Report?)
            && (!w.registered ==> extra == []) && w'.registered == w.registered && w'.delivered <= w.delivered
            && w'.lastSeq == w.lastSeq && w'.awaitingAck == w.awaitingAck
            && (forall f :: f in w'.frames ==> f in w.frames) && Ascending(w'.frames)
  {
    CapFacts(w);
    var w' := CapLeaseBuffer(w);
    if w' == w || !w.registered {
      extra := [];
    } else if w'.gapThrough == 0 {
      extra := [];
    } else {
      var gap := LeaseGap(w'.gapThrough, w'.droppedSinceGap);
      extra := w.queue + [gap];
      assert forall i :: 0 <= i < |extra| ==> extra[i] in w.queue || extra[i] == gap;
    }
  }

  lemma ReportKeepsOrder(s: System, kind: Kind, payload: Content)
    requires Inv(s) && InOrder(s) && Enabled(s, DoReport(kind, payload))
    ensures InOrder(Apply(s, DoReport(kind, payload)))
  {
    var f := Frame(s.w.lastSeq + 1, kind, payload);
    InvIsNumbered(s);
    AppendKeepsOrder(s.w, s.log, f);
    ReportInTwo(s, kind, payload);
    ReportedInOrder(s, f, Apply(s, DoReport(kind, payload)));
  }

  lemma ReportedInOrder(s: System, f: Frame, t: System)
    requires Numbered(s) && InOrder(s) && !Completed(s.log.issued) && f.num == s.w.lastSeq + 1
    requires Ascending(s.w.frames + [f]) && forall m :: m in s.w.queue ==> m.LeaseGap?
    requires t == s.(w := FlushLease(BeforeFlush(s, f.kind, f.payload)), log := t.log)
    requires t.log.life == s.log.life && t.log.issued == s.log.issued + [f]
    ensures InOrder(t)
  {
    var t1 := s.(w := BeforeFlush(s, f.kind, f.payload), log := t.log);
    ReportPrepared(s, f, s.w.(lastSeq := f.num, frames := s.w.frames + [f]), t1);
    FlushKeepsOrder(t1);
  }

  lemma ReportInTwo(s: System, kind: Kind, payload: Content)
    requires Enabled(s, DoReport(kind, payload))
    ensures var t := Apply(s, DoReport(kind, payload));
            && t == s.(w := FlushLease(BeforeFlush(s, kind, payload)), log := t.log)
            && t.log.life == s.log.life
            && t.log.issued == s.log.issued + [Frame(s.w.lastSeq + 1, kind, payload)]
  {
  }

  lemma ReportPrepared(s: System, f: Frame, w1: Worker, t: System)
    requires Numbered(s) && InOrder(s) && !Completed(s.log.issued) && f.num == s.w.lastSeq + 1
    requires forall m :: m in s.w.queue ==> m.LeaseGap?
    requires w1 == s.w.(lastSeq := f.num, frames := s.w.frames + [f]) && Ascending(w1.frames)
    requires t == s.(w := CapLeaseBuffer(w1), log := t.log)
    requires t.log.life == s.log.life && t.log.issued == s.log.issued + [f]
    ensures Numbered(t) && InOrder(t)
  {
    var extra := CapAnnouncesOnly(w1);
    AppendedPrepared(s, f, t, extra);
  }

  lemma AppendedPrepared(s: System, f: Frame, t: System, extra: seq<UpMsg>)
    requires Numbered(s) && InOrder(s) && !Completed(s.log.issued) && f.num == s.w.lastSeq + 1 == t.w.lastSeq
    requires t.h == s.h && t.taken == s.taken && t.log.life == s.log.life && t.log.issued == s.log.issued + [f]
    requires t.w.wire == s.w.wire + extra && (forall i :: 0 <= i < |extra| ==> !extra[i].Report?)
    requires (!s.w.registered ==> extra == []) && t.w.registered == s.w.registered && t.w.delivered <= s.w.delivered
    requires (forall g :: g in t.w.frames ==> g in s.w.frames + [f]) && Ascending(t.w.frames)
    ensures Numbered(t) && InOrder(t)
  {
    assert Pending(t) == Pending(s) + extra;
    NoNewNumbers(s, t, f);
    PreparingKeepsOrder(s, t, extra);
    GrownIsNumbered(s, t, extra);
  }

  lemma NoNewNumbers(s: System, t: System, f: Frame)
    requires forall g :: g in t.w.frames ==> g in s.w.frames + [f]
    requires f.num > |s.log.issued|
    ensures forall n :: n in Nums(t.w.frames) ==> n in Nums(s.w.frames) || n > |s.log.issued|
  {
  }

  lemma GrownIsNumbered(s: System, t: System, extra: seq<UpMsg>)
    requires Numbered(s) && t.h == s.h && t.log.life == s.log.life && t.taken == s.taken && t.taken <= |t.w.wire|
    requires |t.log.issued| >= |s.log.issued| && t.w.lastSeq == |t.log.issued| && Ascending(t.w.frames)
    requires forall f :: f in t.w.frames ==> f.num <= |t.log.issued|
    requires Pending(t) == Pending(s) + extra && forall i :: 0 <= i < |extra| ==> !extra[i].Report?
    ensures Numbered(t)
  {
    forall n: nat | Passed(t, n) ensures n <= |t.log.issued| { assert Passed(s, n); }
  }

  lemma AckKeepsOrder(s: System, n: nat)
    requires Inv(s) && InOrder(s)
    ensures InOrder(WorkerReceives(s, LeaseAck(n)))
  {
    var kept := Above(s.w.frames, n);
    var w1 := s.w.(frames := kept,
                   delivered := if n == s.w.lastAckedSeq then s.w.delivered - Nums(kept) else s.w.delivered,
                   lastAckedSeq := n, awaitingAck := false);
    var t1 := s.(w := w1, log := s.log.(trimmed := Max(s.log.trimmed, n)));
    AboveFacts(s.w.frames, n);
    InvIsNumbered(s);
    assert Pending(t1) == Pending(s) + [];
    PreparingKeepsOrder(s, t1, []);
    GrownIsNumbered(s, t1, []);
    FlushKeepsOrder(t1);
  }

  lemma BackstopKeepsOrder(s: System)
    requires Inv(s) && InOrder(s) && Enabled(s, BackstopFired)
    ensures InOrder(Apply(s, BackstopFired))
  {
    var t1 := s.(w := s.w.(awaitingAck := false));
    InvIsNumbered(s);
    assert Pending(t1) == Pending(s) + [];
    PreparingKeepsOrder(s, t1, []);
    GrownIsNumbered(s, t1, []);
    if s.w.awaitingAck { FlushKeepsOrder(t1); }
  }

  /** Nothing is pending, and nothing has been handed to the socket. */
  lemma EmptySocketIsInOrder(s: System, t: System)
    requires Numbered(s) && InOrder(s) && t.h == s.h && t.log.life == s.log.life && t.log.issued == s.log.issued
    requires (forall i :: 0 <= i < |Pending(t)| ==> !Pending(t)[i].Report?) && Nums(t.w.frames) <= Nums(s.w.frames)
    requires if t.w.registered then t.w.delivered == {} else Pending(t) == []
    ensures InOrder(t)
  {
    assert forall n: nat :: !Pends(t, n);
    forall n: nat, p: nat | s.h.held && Wanted(t, n) && Sendable(t, n) && Passed(t, p)
      ensures p < n || IsCompletion(t.log, p) {
      assert Wanted(s, n) && Sendable(s, n) && Passed(s, p);
    }
  }

  lemma RegistrationKeepsOrder(s: System)
    requires Inv(s) && InOrder(s) && Enabled(s, Registered)
    ensures InOrder(Apply(s, Registered))
  {
    var t := Apply(s, Registered);
    InvIsNumbered(s);
    forall i | 0 <= i < |Pending(t)| ensures !Pending(t)[i].Report? {
      assert Pending(t)[i] in t.w.wire;
      assert t.w.wire[s.taken + i] == Pending(t)[i];
    }
    EmptySocketIsInOrder(s, t);
  }

  lemma ForgettingKeepsOrder(s: System, why: Farewell)
    requires Inv(s) && InOrder(s)
    ensures InOrder(WorkerForgot(s, why))
  {
    var t := WorkerForgot(s, why);
    InvIsNumbered(s);
    assert Pending(t) == Pending(s) + [];
    PreparingKeepsOrder(s, t, []);
  }

  lemma WorkerStepKeepsOrder(s: System, step: Step)
    requires Inv(s) && InOrder(s) && Enabled(s, step) && WorkerStep(step)
    ensures InOrder(Apply(s, step))
  {
    match step
    case DoReport(kind, payload) => ReportKeepsOrder(s, kind, payload);
    case SocketClosed =>
      InvIsNumbered(s);
      EmptySocketIsInOrder(s, Apply(s, step));
    case SocketOpened =>
      InvIsNumbered(s);
      EmptySocketIsInOrder(s, Apply(s, step));
    case Registered => RegistrationKeepsOrder(s);
    case BackstopFired => BackstopKeepsOrder(s);
    case WorkerForgets => ForgettingKeepsOrder(s, DeadlinePassed);
    case DeliverDown(m) =>
      match m {
        case LeaseAck(n) => AckKeepsOrder(s, n);
        case RunCompleteAck => ForgettingKeepsOrder(s, Acknowledged);
        case LeaseLost => ForgettingKeepsOrder(s, Disowned);
      }
  }

  // ---------------------------------------------------------------- the host's side

  /** The socket's first message is handled: what it brought is with the host. */
  lemma ReceiptKeepsSocketOrder(s: System, t: System)
    requires s.h.held && s.taken < |s.w.wire| && WireInOrder(s) && NothingSkipped(s)
    requires t.w == s.w && t.taken == s.taken + 1 && t.h == Receive(s.h, s.w.wire[s.taken])
    requires t.log.issued == s.log.issued
    ensures WireInOrder(t) && NothingSkipped(t)
    ensures forall n: nat :: Wanted(t, n) ==> Wanted(s, n) && !Carries(s.w.wire[s.taken], n)
    ensures forall n: nat :: Pends(t, n) ==> Pends(s, n)
  {
    var m := s.w.wire[s.taken];
    assert Pending(s)[0] == m && Pending(t) == Pending(s)[1..];
    forall n: nat | Wanted(t, n) ensures Wanted(s, n) && !Carries(m, n) {
      if HostHas(s.h, n) { ReceiptLosesNothing(s.h, m, n); }
      if Carries(m, n) { ReceiptBrings(s.h, m, n); }
    }
    forall n: nat | Pends(t, n) ensures Pends(s, n) {
      var i :| 0 <= i < |Pending(t)| && Carries(Pending(t)[i], n);
      assert Carries(Pending(s)[i + 1], n);
    }
    forall i: nat, n: nat | i < |Pending(t)| && Pending(t)[i].Report? && n < Pending(t)[i].frame.num
                            && Wanted(t, n) && Sendable(t, n)
      ensures SentBefore(t, n, i)
    {
      assert Pending(s)[i + 1] == Pending(t)[i] && Wanted(s, n) && Sendable(s, n);
      assert SentBefore(s, n, i + 1);
      var j :| 0 <= j < i + 1 && j < |Pending(s)| && Carries(Pending(s)[j], n);
      assert Pending(t)[j - 1] == Pending(s)[j];
    }
    forall n | t.w.registered && n in Nums(t.w.frames) && n in t.w.delivered && Wanted(t, n) ensures Pends(t, n) {
      assert Pends(s, n);
      var i :| 0 <= i < |Pending(s)| && Carries(Pending(s)[i], n);
      assert Pending(t)[i - 1] == Pending(s)[i];
    }
  }

  /** What arrives first is not overtaken by anything still wanted, and overtakes nothing taken. */
  lemma FirstIsNext(s: System, f: Frame)
    requires s.h.held && s.taken < |s.w.wire| && s.w.wire[s.taken] == Report(f) && Wanted(s, f.num)
    requires NothingOvertaken(s) && WireInOrder(s)
    ensures forall p: nat :: Passed(s, p) ==> p < f.num || IsCompletion(s.log, p)
    ensures forall n: nat :: Wanted(s, n) && Sendable(s, n) ==> f.num <= n
  {
    assert Pending(s)[0] == Report(f) && Carries(Pending(s)[0], f.num);
    assert Pends(s, f.num) && Sendable(s, f.num);
    forall n: nat | Wanted(s, n) && Sendable(s, n) ensures f.num <= n {
      assert n < f.num ==> SentBefore(s, n, 0);
    }
  }

  lemma ReceiptOvertakesNothing(s: System, t: System)
    requires s.h.held && s.taken < |s.w.wire| && NothingOvertaken(s) && WireInOrder(s) && NothingSkipped(s)
    requires LogInv(s.log) && GoodMessage(s.log, s.w.gapThrough, s.w.wire[s.taken])
    requires t == HostReceives(s.(taken := s.taken + 1), s.w.wire[s.taken])
    ensures NothingOvertaken(t)
  {
    var m := s.w.wire[s.taken];
    ReceiptKeepsSocketOrder(s, t);
    forall n: nat, p: nat | Wanted(t, n) && Sendable(t, n) && Passed(t, p) ensures p < n || IsCompletion(t.log, p) {
      assert Wanted(s, n) && Sendable(s, n);
      if !Passed(s, p) {
        assert m.Report? && p == m.frame.num && Wanted(s, p);
        FirstIsNext(s, m.frame);
      }
    }
  }

  lemma ReceiptHandlesInOrder(s: System, t: System)
    requires HandledInOrder(s) && s.taken < |s.w.wire| && (s.h.held ==> NothingOvertaken(s) && WireInOrder(s))
    requires LogInv(s.log) && HostInv(s.h, s.log) && GoodMessage(s.log, s.w.gapThrough, s.w.wire[s.taken])
    requires t == HostReceives(s.(taken := s.taken + 1), s.w.wire[s.taken])
    ensures HandledInOrder(t)
  {
    var m := s.w.wire[s.taken];
    if t.h.chain != s.h.chain {
      var f := m.frame;
      assert Wanted(s, f.num);
      FirstIsNext(s, f);
      ChainedIsNoCompletion(s.h, s.log);
      NextGoesOnChain(s, f, t);
    } else {
      SameChainHandlesInOrder(s, t);
    }
  }

  lemma SameChainHandlesInOrder(s: System, t: System)
    requires HandledInOrder(s) && t.h.chain == s.h.chain && t.h.headLanded == s.h.headLanded
    requires t.log.life == s.log.life && t.log.issued == s.log.issued
    ensures HandledInOrder(t)
  {
  }

  lemma ChainedIsNoCompletion(h: Host, log: History)
    requires LogInv(log) && HostInv(h, log)
    ensures forall c :: c in h.chain ==> !IsCompletion(log, c.num)
    ensures h.headLanded ==> h.chain != []
  {
    forall c | c in h.chain ensures !IsCompletion(log, c.num) { assert Genuine(log.issued, c); }
  }

  lemma NextGoesOnChain(s: System, f: Frame, t: System)
    requires HandledInOrder(s) && t.h.chain == s.h.chain + [f] && t.h.headLanded == s.h.headLanded
    requires t.log.life == s.log.life && t.log.issued == s.log.issued && (s.h.headLanded ==> s.h.chain != [])
    requires forall p: nat :: Passed(s, p) ==> p < f.num || IsCompletion(s.log, p)
    requires forall c :: c in s.h.chain ==> !IsCompletion(s.log, c.num)
    ensures HandledInOrder(t)
  {
    forall c | c in s.h.chain ensures c.num < f.num { assert Passed(s, c.num); }
    AppendedIsAscending(s.h.chain, f);
    assert Unresolved(t.h) == Unresolved(s.h) + [f];
    forall n, g | n in t.log.life && g in Unresolved(t.h) ensures n < g.num || IsCompletion(t.log, n) {
      assert Passed(s, n);
    }
    assert forall n :: IsCompletion(s.log, n) <==> IsCompletion(t.log, n);
  }

  lemma AppendedIsAscending(frames: seq<Frame>, f: Frame)
    requires Ascending(frames) && forall c :: c in frames ==> c.num < f.num
    ensures Ascending(frames + [f])
  {
  }

  lemma DeliveryKeepsOrder(s: System)
    requires Inv(s) && InOrder(s) && s.taken < |s.w.wire|
    ensures InOrder(Apply(s, DeliverUp))
  {
    var t := Apply(s, DeliverUp);
    assert s.w.wire[s.taken] in s.w.wire;
    ReceiptHandlesInOrder(s, t);
    if s.h.held {
      ReceiptOvertakesNothing(s, t);
      ReceiptKeepsSocketOrder(s, t);
    }
  }

  /** A step that leaves the sockets alone and takes nothing from the host. */
  lemma HostStepKeepsSocketOrder(s: System, t: System)
    requires s.h.held && t.h.held ==> NothingOvertaken(s) && WireInOrder(s) && NothingSkipped(s)
    requires t.h.held ==> s.h.held
    requires t.w == s.w && t.taken == s.taken && t.log.issued == s.log.issued
    requires t.h.held ==> forall n: nat :: Wanted(t, n) ==> Wanted(s, n)
    requires forall p: nat :: Passed(t, p) ==> Passed(s, p) || IsCompletion(s.log, p)
    ensures t.h.held ==> NothingOvertaken(t) && WireInOrder(t) && NothingSkipped(t)
  {
    assert Pending(t) == Pending(s);
    forall n: nat ensures Pends(t, n) <==> Pends(s, n) {}
    if t.h.held {
      forall i: nat, n: nat | i < |Pending(t)| && Pending(t)[i].Report? && n < Pending(t)[i].frame.num
                              && Wanted(t, n) && Sendable(t, n)
        ensures SentBefore(t, n, i)
      {
        assert Sendable(s, n) && SentBefore(s, n, i);
      }
      forall n: nat, p: nat | Wanted(t, n) && Sendable(t, n) && Passed(t, p) ensures p < n || IsCompletion(t.log, p) {
        assert Sendable(s, n);
      }
    }
  }

  /** A handler resolves: its number is the next to take effect. */
  lemma ResolvingHandlesInOrder(s: System, t: System)
    requires HandledInOrder(s) && HandlerRuns(s.h) && t.h == WriteLanded(s.h)
    requires t.log.life == s.log.life + [s.h.chain[0].num] && t.log.issued == s.log.issued
    ensures HandledInOrder(t)
  {
    var f := s.h.chain[0];
    assert f in s.h.chain && f in Unresolved(s.h);
    forall i, j | 0 <= i < j < |t.log.life|
      ensures t.log.life[i] < t.log.life[j] || IsCompletion(t.log, t.log.life[i]) {
      assert t.log.life[i] in s.log.life;
      assert IsCompletion(s.log, s.log.life[i]) <==> IsCompletion(t.log, t.log.life[i]);
    }
    forall g | g in Unresolved(t.h) ensures f.num < g.num && g in Unresolved(s.h) {
      var k :| 0 <= k < |s.h.chain[1..]| && s.h.chain[1..][k] == g;
      assert s.h.chain[k + 1] == g;
    }
  }

  lemma ResolvingKeepsOrder(s: System, t: System)
    requires InOrder(s) && HandlerRuns(s.h) && t.h == WriteLanded(s.h) && t.w == s.w && t.taken == s.taken
    requires t.log.life == s.log.life + [s.h.chain[0].num] && t.log.issued == s.log.issued
    ensures InOrder(t)
  {
    ResolvingHandlesInOrder(s, t);
    assert s.h.chain[0] in s.h.chain;
    forall p: nat | Passed(t, p) ensures Passed(s, p) {}
    HostStepKeepsSocketOrder(s, t);
  }

  lemma ResolveStepKeepsOrder(s: System, step: Step)
    requires InOrder(s) && Enabled(s, step) && (step.WriteLands? || step.WriteDiscarded?)
    ensures InOrder(Apply(s, step))
  {
    ResolvingKeepsOrder(s, Apply(s, step));
  }

  lemma RecordingKeepsOrder(s: System)
    requires Inv(s) && InOrder(s) && Enabled(s, WriteRecorded)
    ensures InOrder(Apply(s, WriteRecorded))
  {
    if s.h.held { RecordingProgresses(s.h); }
    PoppingKeepsOrder(s, Apply(s, WriteRecorded));
  }

  /** The landed head is recorded, or the running one rejected: the rest of the chain stands. */
  lemma PoppingHandlesInOrder(s: System, t: System)
    requires HandledInOrder(s) && s.h.chain != [] && t.log == s.log
    requires t.h.chain == s.h.chain[1..] && !t.h.headLanded
    ensures HandledInOrder(t)
  {
    assert forall f :: f in Unresolved(t.h) ==> f in Unresolved(s.h);
  }

  lemma PoppingKeepsOrder(s: System, t: System)
    requires InOrder(s) && s.h.chain != [] && s.h.headLanded
    requires t == s.(h := t.h) && t.h.chain == s.h.chain[1..] && !t.h.headLanded && t.h.held == s.h.held
    requires s.h.held ==> forall q :: HostHas(s.h, q) ==> HostHas(t.h, q)
    ensures InOrder(t)
  {
    PoppingHandlesInOrder(s, t);
    assert forall f :: f in t.h.chain ==> f in s.h.chain;
    HostStepKeepsSocketOrder(s, t);
  }

  lemma HandlerStepKeepsOrder(s: System, step: Step)
    requires Inv(s) && InOrder(s) && Enabled(s, step) && WriteStep(step) && !step.WriteFails?
    ensures InOrder(Apply(s, step))
  {
    if step.WriteRecorded? { RecordingKeepsOrder(s); } else { ResolveStepKeepsOrder(s, step); }
  }

  lemma CompletionStepKeepsOrder(s: System, step: Step)
    requires Inv(s) && InOrder(s) && Enabled(s, step) && CompletionStep(step)
    ensures InOrder(Apply(s, step))
  {
    var t := Apply(s, step);
    RunCompleteIsLast(s.log, s.h.completion.frame);
    PassedIsNumbered(s.h, s.log);
    CompletionStepTouchesOnlyIt(s, step);
    BesideTheChainKeepsOrder(s, t, s.h.completion.frame.num);
  }

  lemma CompletionStepTouchesOnlyIt(s: System, step: Step)
    requires Enabled(s, step) && CompletionStep(step)
    ensures var t := Apply(s, step); var c := s.h.completion.frame.num;
            && t.w == s.w && t.taken == s.taken && t.log.issued == s.log.issued
            && t.h.chain == s.h.chain && t.h.headLanded == s.h.headLanded && (t.h.held ==> s.h.held)
            && (t.h.held ==> forall n :: HostHas(s.h, n) && n != c ==> HostHas(t.h, n))
            && (t.log.life == s.log.life || t.log.life == s.log.life + [c])
  {
  }

  /** The completion's number comes and goes; the order is about the others. */
  lemma BesideTheChainKeepsOrder(s: System, t: System, c: nat)
    requires InOrder(s) && IsCompletion(s.log, c) && forall n :: n in s.log.life ==> n <= |s.log.issued|
    requires t.w == s.w && t.taken == s.taken && t.log.issued == s.log.issued && (t.h.held ==> s.h.held)
    requires t.h.chain == s.h.chain && t.h.headLanded == s.h.headLanded
    requires t.h.held ==> forall n :: HostHas(s.h, n) && n != c ==> HostHas(t.h, n)
    requires t.log.life == s.log.life || t.log.life == s.log.life + [c]
    ensures InOrder(t)
  {
    CompletionHandledInOrder(s, t, c);
    assert forall n :: n in t.log.life ==> n in s.log.life || n == c;
    HostStepKeepsSocketOrder(s, t);
  }

  lemma CompletionHandledInOrder(s: System, t: System, c: nat)
    requires HandledInOrder(s) && IsCompletion(s.log, c) && forall n :: n in s.log.life ==> n <= |s.log.issued|
    requires t.log.issued == s.log.issued && t.h.chain == s.h.chain && t.h.headLanded == s.h.headLanded
    requires t.log.life == s.log.life || t.log.life == s.log.life + [c]
    ensures HandledInOrder(t)
  {
    if t.log.life == s.log.life {
      SameChainHandlesInOrder(s, t);
    } else {
      CompletionAppended(s, t, c);
      assert forall n :: n in t.log.life ==> n in s.log.life || n == c;
    }
  }

  lemma CompletionAppended(s: System, t: System, c: nat)
    requires HandledInOrder(s) && IsCompletion(s.log, c) && forall n :: n in s.log.life ==> n <= |s.log.issued|
    requires t.log.issued == s.log.issued && t.log.life == s.log.life + [c]
    ensures forall i, j :: 0 <= i < j < |t.log.life| ==>
              t.log.life[i] < t.log.life[j] || IsCompletion(t.log, t.log.life[i])
  {
    var before := s.log.life;
    forall i, j | 0 <= i < j < |t.log.life|
      ensures t.log.life[i] < t.log.life[j] || IsCompletion(t.log, t.log.life[i]) {
      assert t.log.life[i] == before[i] && before[i] in before;
      if j < |before| { assert t.log.life[j] == before[j]; }
    }
  }

  lemma HostStepKeepsOrder(s: System, step: Step)
    requires Inv(s) && InOrder(s) && Enabled(s, step)
    requires step.HostAcks? || step.HostDisowns? || step.WatermarkPersisted? || step.LeaseExpires?
    ensures InOrder(Apply(s, step))
  {
    HostStepKeepsSocketOrder(s, Apply(s, step));
  }

  // ---------------------------------------------------------------- the promise

  /** No handler rejects a write, no stray message gets through, and the host does not crash. */
  predicate Undisturbed(step: Step) {
    !step.WriteFails? && !step.DeliverStale? && !step.HostRestarts?
  }

  lemma StepKeepsOrder(s: System, step: Step)
    requires Inv(s) && InOrder(s) && Enabled(s, step) && Undisturbed(step)
    ensures InOrder(Apply(s, step))
  {
    if WorkerStep(step) {
      WorkerStepKeepsOrder(s, step);
    } else if CompletionStep(step) {
      CompletionStepKeepsOrder(s, step);
    } else if WriteStep(step) {
      HandlerStepKeepsOrder(s, step);
    } else if step.DeliverUp? {
      DeliveryKeepsOrder(s);
    } else {
      HostStepKeepsOrder(s, step);
    }
  }

  lemma {:induction false} ExecKeepsOrder(s: System, steps: seq<Step>)
    requires Inv(s) && InOrder(s) && Possible(s, steps)
    requires forall i :: 0 <= i < |steps| ==> Undisturbed(steps[i])
    ensures InOrder(Exec(s, steps))
    decreases |steps|
  {
    if steps != [] {
      assert Undisturbed(steps[0]);
      StepKeepsInv(s, steps[0]);
      StepKeepsOrder(s, steps[0]);
      ExecKeepsOrder(Apply(s, steps[0]), steps[1..]);
    }
  }

  /** The lease as dispatched, or as a restarted host finds it with the worker's socket gone. */
  ghost predicate LifeBegins(s: System, before: seq<Step>) {
    s == INITIAL
    || exists restored: bool ::
         Possible(INITIAL, before) && s == Apply(Apply(Exec(INITIAL, before), HostRestarts(restored)), SocketClosed)
  }

  lemma LifeBeginsInOrder(s: System, before: seq<Step>)
    requires LifeBegins(s, before)
    ensures Inv(s) && InOrder(s)
  {
    if s == INITIAL {
      InitialInv();
      NothingTakenIsInOrder(s);
    } else {
      ReachableInv(before);
      var r := Exec(INITIAL, before);
      var restored :| s == Apply(Apply(r, HostRestarts(restored)), SocketClosed);
      StepKeepsInv(r, HostRestarts(restored));
      StepKeepsInv(Apply(r, HostRestarts(restored)), SocketClosed);
      NothingTakenIsInOrder(s);
    }
  }

  lemma NothingTakenIsInOrder(s: System)
    requires s.log.life == [] && s.h.chain == [] && s.taken == |s.w.wire|
    requires s.w.registered ==> s.w.delivered == {}
    ensures InOrder(s)
  {
    assert Pending(s) == [];
    assert forall p: nat :: !Passed(s, p);
  }

  /**
   * In a host life in which no handler rejects and no stray message gets through, the handlers of a
   * lease's frames resolve in the order the worker numbered them, the run-complete alone excepted,
   * whatever drops, reconnects, resends, gaps and expiry come in between.
   */
  lemma FramesTakeEffectInOrder(s: System, before: seq<Step>, steps: seq<Step>)
    requires LifeBegins(s, before) && Possible(s, steps)
    requires forall i :: 0 <= i < |steps| ==> Undisturbed(steps[i])
    ensures LifeInOrder(Exec(s, steps).log)
  {
    LifeBeginsInOrder(s, before);
    ExecKeepsOrder(s, steps);
  }
}
