/**
 * When a lease can catch up. Short of a new report, the host's watermark can still reach the
 * worker's last frame exactly when every number is held by the worker, covered by the announced
 * gap, already with the host, or on its way there; once the run-complete is reported there is no
 * new report, so this decides every run.
 */
module LeaseCatchUp {
  import opened LeaseTypes
  import opened WorkerModel
  import opened HostModel
  import opened LeaseSystem
  import opened LeaseInvariant
  import opened LeaseSafety

  /** The worker reports nothing new. Anything else may happen, crashes and stray old frames included. */
  predicate QuietStep(step: Step) {
    !step.DoReport?
  }

  predicate Quiet(steps: seq<Step>) {
    forall i :: 0 <= i < |steps| ==> QuietStep(steps[i])
  }

  predicate CaughtUp(s: System) {
    s.h.appliedSeq == s.w.lastSeq
  }

  /** The host has applied, skipped, or is writing the number. */
  predicate HostHas(h: Host, q: nat) {
    q <= h.appliedSeq || q in h.appliedAhead || q in h.inFlight
  }

  /** Handling the message settles the number for the host. */
  predicate Brings(m: UpMsg, q: nat) {
    match m
    case Report(f) => f.num == q
    case LeaseGap(through, _) => q <= through
  }

  /** The host has the number, or the current socket brings it. */
  ghost predicate Coming(s: System, q: nat) {
    HostHas(s.h, q) || exists i :: 0 <= i < |Pending(s)| && Brings(Pending(s)[i], q)
  }

  /** A message some dropped socket held, and may still let through, brings the number. */
  ghost predicate Stray(s: System, q: nat) {
    exists m :: m in s.stale && Brings(m, q)
  }

  /** The number is held, announced as given up, or with (or on its way to) the host. */
  ghost predicate Reachable(s: System, q: nat) {
    q in Nums(s.w.frames) || q <= s.w.gapThrough || Coming(s, q) || Stray(s, q)
  }

  ghost predicate Recoverable(s: System) {
    forall q :: 1 <= q <= s.w.lastSeq ==> Reachable(s, q)
  }

  ghost predicate CanCatchUp(s: System) {
    exists steps :: Quiet(steps) && Possible(s, steps) && CaughtUp(Exec(s, steps))
  }

  // ---------------------------------------------------------------- the schedule

  /** Nothing is being written and no completion is under way; one may be parked. */
  predicate Idle(h: Host) {
    h.held && h.chain == [] && (h.completion.NoCompletion? || h.completion.Parked?)
  }

  /** What a stretch of host work leaves alone. */
  predicate SameWorker(s: System, t: System) {
    t.w == s.w && t.alive == s.alive && t.log.issued == s.log.issued
  }

  lemma ThenStep(s: System, steps: seq<Step>, step: Step) returns (all: seq<Step>)
    requires Possible(s, steps) && Quiet(steps) && QuietStep(step) && Enabled(Exec(s, steps), step)
    ensures Quiet(all) && Possible(s, all) && Exec(s, all) == Apply(Exec(s, steps), step)
  {
    OneStep(Exec(s, steps), step);
    all := Then(s, steps, [step]);
  }

  lemma Then(s: System, a: seq<Step>, b: seq<Step>) returns (all: seq<Step>)
    requires Possible(s, a) && Quiet(a) && Possible(Exec(s, a), b) && Quiet(b)
    ensures Quiet(all) && Possible(s, all) && Exec(s, all) == Exec(Exec(s, a), b)
  {
    ExecConcat(s, a, b);
    all := a + b;
  }

  lemma OneStep(s: System, step: Step)
    requires QuietStep(step) && Enabled(s, step)
    ensures Quiet([step]) && Possible(s, [step]) && Exec(s, [step]) == Apply(s, step)
  {
    var t := Apply(s, step);
    assert [step][1..] == [];
    assert Possible(t, []) && Exec(t, []) == t;
  }

  /** The next step of a host with work to do, every write succeeding. */
  function HostWork(h: Host): Step
    requires h.held && !Idle(h)
  {
    if h.chain != [] then
      if h.headLanded then WriteRecorded
      else if HandlerOutcome(h.chain[0], true).Kept? then WriteLands
      else WriteDiscarded(true)
    else match h.completion
      case Draining(_) => CompletionChecked
      case Writing(_) => CompletionLands
      case _ => CompletionFinishes(true)
  }

  function CompletionRank(c: Completion): nat {
    match c
    case Draining(_) => 3
    case Writing(_) => 2
    case Landed(_) => 1
    case _ => 0
  }

  /** How much work the host has before it: it falls with every step of `HostWork`. */
  function Work(h: Host): nat {
    8 * |h.chain| + (if h.chain != [] && !h.headLanded then 4 else 0) + CompletionRank(h.completion)
  }

  /** One step of host work on the host alone. */
  lemma RecordingProgresses(h: Host)
    requires h.chain != [] && h.headLanded && h.held
    ensures Work(RecordHead(h)) < Work(h) && RecordHead(h).held
    ensures forall q :: HostHas(h, q) ==> HostHas(RecordHead(h), q)
  {
    var h1 := h.(chain := h.chain[1..], headLanded := false);
    assert Pulled(h1.appliedSeq, h1.appliedAhead + {h.chain[0].num}) >= h1.appliedSeq;
    assert CompletionRank(RecordHead(h).completion) <= 3;
  }

  lemma HostWorkStep(s: System)
    requires Inv(s) && s.h.held && !Idle(s.h)
    ensures QuietStep(HostWork(s.h)) && Enabled(s, HostWork(s.h))
    ensures HostWork(s.h) != CompletionFinishes(true) ==>
              var h := Apply(s, HostWork(s.h)).h;
              h.held && Work(h) < Work(s.h) && forall q :: HostHas(s.h, q) ==> HostHas(h, q)
    ensures HostWork(s.h) == CompletionFinishes(true) ==> CaughtUp(Apply(s, HostWork(s.h)))
    ensures SameWorker(s, Apply(s, HostWork(s.h))) && Apply(s, HostWork(s.h)).taken == s.taken
  {
    match HostWork(s.h)
    case WriteRecorded => RecordingProgresses(s.h);
    case CompletionFinishes(_) => FinishKeepsInv(s.h, s.log);
    case _ =>
  }

  /** With every write succeeding the host works its chain and its completion off. */
  lemma {:induction false} HostWorksOff(s: System) returns (steps: seq<Step>)
    requires Inv(s) && s.h.held
    ensures Quiet(steps) && Possible(s, steps)
    ensures var t := Exec(s, steps);
            Inv(t) && SameWorker(s, t) && t.taken == s.taken
            && (CaughtUp(t) || (Idle(t.h) && forall q :: HostHas(s.h, q) ==> HostHas(t.h, q)))
    decreases Work(s.h)
  {
    if Idle(s.h) {
      return [];
    }
    var step := HostWork(s.h);
    HostWorkStep(s);
    StepKeepsInv(s, step);
    OneStep(s, step);
    steps := [step];
    if step != CompletionFinishes(true) {
      var rest := HostWorksOff(Apply(s, step));
      steps := Then(s, [step], rest);
    }
  }

  lemma ReceiptSettles(s: System)
    requires Inv(s) && s.h.held && s.taken < |s.w.wire|
    ensures var t := Apply(s, DeliverUp);
            && Inv(t) && t.h.held && SameWorker(s, t) && t.taken == s.taken + 1
            && (forall q :: Coming(s, q) ==> Coming(t, q))
  {
    StepKeepsInv(s, DeliverUp);
    ReceiptMoves(s);
    ReceiptKeepsComing(s, Apply(s, DeliverUp));
  }

  lemma ReceiptMoves(s: System)
    requires s.taken < |s.w.wire|
    ensures var t := Apply(s, DeliverUp);
            && SameWorker(s, t) && t.taken == s.taken + 1 && t.h == Receive(s.h, s.w.wire[s.taken])
                && t.h.held == s.h.held
  {
  }

  lemma ReceiptKeepsComing(s: System, t: System)
    requires s.h.held && s.taken < |s.w.wire|
    requires t.w == s.w && t.taken == s.taken + 1 && t.h == Receive(s.h, s.w.wire[s.taken])
    ensures forall q :: Coming(s, q) ==> Coming(t, q)
  {
    var m := s.w.wire[s.taken];
    assert Pending(s)[0] == m;
    assert Pending(t) == Pending(s)[1..];
    forall q | Coming(s, q) ensures Coming(t, q) {
      if HostHas(s.h, q) {
        ReceiptLosesNothing(s.h, m, q);
      } else {
        var i :| 0 <= i < |Pending(s)| && Brings(Pending(s)[i], q);
        if i == 0 {
          ReceiptBrings(s.h, m, q);
        } else {
          assert Pending(t)[i - 1] == Pending(s)[i];
        }
      }
    }
  }

  lemma ReceiptLosesNothing(h: Host, m: UpMsg, q: nat)
    requires HostHas(h, q)
    ensures HostHas(Receive(h, m), q)
  {
  }

  lemma ReceiptBrings(h: Host, m: UpMsg, q: nat)
    requires h.held && Brings(m, q)
    ensures HostHas(Receive(h, m), q)
  {
    if m.LeaseGap? {
      assert Pulled(m.throughSeq, AboveSeq(h.appliedAhead, m.throughSeq)) >= m.throughSeq;
    }
  }

  /** Every stray message of a set gets through. */
  lemma {:induction false} StraysArrive(s: System, strays: set<UpMsg>) returns (steps: seq<Step>)
    requires Inv(s) && s.h.held && strays <= s.stale
    ensures Quiet(steps) && Possible(s, steps)
    ensures var t := Exec(s, steps);
            && Inv(t) && SameWorker(s, t) && t.taken == s.taken && t.stale == s.stale
            && (t.h.held && (forall q :: HostHas(s.h, q) ==> HostHas(t.h, q))
                && forall m, q :: m in strays && Brings(m, q) ==> HostHas(t.h, q))
    decreases strays
  {
    if strays == {} {
      return [];
    }
    var m :| m in strays;
    var t1 := Apply(s, DeliverStale(m));
    StepKeepsInv(s, DeliverStale(m));
    OneStep(s, DeliverStale(m));
    StrayArrives(s, m);
    var rest := StraysArrive(t1, strays - {m});
    steps := Then(s, [DeliverStale(m)], rest);
  }

  lemma StrayArrives(s: System, m: UpMsg)
    requires s.h.held && m in s.stale
    ensures var t := Apply(s, DeliverStale(m));
            && SameWorker(s, t) && t.taken == s.taken && t.stale == s.stale && t.h.held
            && (forall q :: HostHas(s.h, q) ==> HostHas(t.h, q)) && (forall q :: Brings(m, q) ==> HostHas(t.h, q))
  {
    forall q | HostHas(s.h, q) ensures HostHas(Receive(s.h, m), q) { ReceiptLosesNothing(s.h, m, q); }
    forall q | Brings(m, q) ensures HostHas(Receive(s.h, m), q) { ReceiptBrings(s.h, m, q); }
  }

  /** Everything on the current socket is handled, every write succeeding. */
  lemma {:induction false} SocketDrains(s: System) returns (steps: seq<Step>)
    requires Inv(s) && s.h.held
    ensures Quiet(steps) && Possible(s, steps)
    ensures var t := Exec(s, steps);
            Inv(t) && SameWorker(s, t)
            && (CaughtUp(t) || (Idle(t.h) && t.taken == |t.w.wire| && forall q :: Coming(s, q) ==> HostHas(t.h, q)))
    decreases |s.w.wire| - s.taken
  {
    if s.taken == |s.w.wire| {
      assert Pending(s) == [];
      steps := HostWorksOff(s);
    } else {
      ReceiptSettles(s);
      var t := Apply(s, DeliverUp);
      OneStep(s, DeliverUp);
      var rest := SocketDrains(t);
      steps := Then(s, [DeliverUp], rest);
    }
  }

  /** A new socket, registered. */
  function Reconnected(s: System): System {
    var s1 := Apply(s, SocketClosed);
    Apply(Apply(s1, SocketOpened), Registered)
  }

  /** Registration restates the gap. */
  lemma ReconnectedFacts(s: System)
    requires Inv(s) && s.alive
    ensures var t := Reconnected(s);
            && Inv(t) && t.alive && t.h == s.h && t.log.issued == s.log.issued && t.log.trimmed == s.log.trimmed
            && t.w.frames == s.w.frames && t.w.lastSeq == s.w.lastSeq && t.w.gapThrough == s.w.gapThrough
            && t.w.registered && t.w.delivered == {} && t.w.awaitingAck
            && (forall q :: 1 <= q <= s.w.gapThrough ==> Coming(t, q))
  {
    ReconnectingKeepsInv(s);
    OpenedFacts(s);
    RegistrationRestatesGap(Apply(Apply(s, SocketClosed), SocketOpened));
  }

  lemma ReconnectingKeepsInv(s: System)
    requires Inv(s)
    ensures Inv(Reconnected(s))
  {
    var s1 := Apply(s, SocketClosed);
    StepKeepsInv(s, SocketClosed);
    StepKeepsInv(s1, SocketOpened);
    StepKeepsInv(Apply(s1, SocketOpened), Registered);
  }

  lemma OpenedFacts(s: System)
    ensures var t := Apply(Apply(s, SocketClosed), SocketOpened);
            && t.w == s.w.(registered := false, awaitingAck := true, delivered := {}, wire := []) && t.taken == 0
            && t.h == s.h && t.alive == s.alive && t.log == s.log
  {
  }

  lemma Reconnects(s: System) returns (steps: seq<Step>)
    ensures Quiet(steps) && Possible(s, steps) && Exec(s, steps) == Reconnected(s)
  {
    OneStep(s, SocketClosed);
    steps := ThenStep(s, [SocketClosed], SocketOpened);
    steps := ThenStep(s, steps, Registered);
  }

  /** Registering on an empty socket puts the queued announcements and the current gap on it. */
  lemma RegistrationRestatesGap(s: System)
    requires s.w.wire == [] && s.taken == 0 && s.w.delivered == {}
    ensures var t := s.(w := OnRegistered(s.w));
            && t.w.frames == s.w.frames && t.w.lastSeq == s.w.lastSeq && t.w.gapThrough == s.w.gapThrough
            && t.w.registered && t.w.delivered == {} && t.w.awaitingAck == s.w.awaitingAck
            && (forall q :: 1 <= q <= s.w.gapThrough ==> Coming(t, q))
  {
    var t := s.(w := OnRegistered(s.w));
    if s.w.gapThrough > 0 {
      var i := |s.w.queue|;
      assert t.w.wire[i] == LeaseGap(s.w.gapThrough, s.w.droppedSinceGap);
      assert Pending(t)[i] == t.w.wire[i];
    }
  }

  /** The host's answer on a new socket makes the worker resend everything above the watermark. */
  lemma AckResends(s: System) returns (steps: seq<Step>)
    requires Inv(s) && s.alive && s.h.held && s.w.registered && s.w.delivered == {} && s.taken == |s.w.wire|
    ensures Quiet(steps) && Possible(s, steps)
    ensures var t := Exec(s, steps);
            && Inv(t) && t.alive && t.h == s.h && t.w.lastSeq == s.w.lastSeq && t.log.issued == s.log.issued
            && (forall q :: q in Nums(s.w.frames) ==> Coming(t, q))
            && (forall q :: HostHas(s.h, q) ==> Coming(t, q))
  {
    var a := s.h.appliedSeq;
    OneStep(s, HostAcks);
    StepKeepsInv(s, HostAcks);
    var s1 := Apply(s, HostAcks);
    steps := ThenStep(s, [HostAcks], DeliverDown(LeaseAck(a)));
    StepKeepsInv(s1, DeliverDown(LeaseAck(a)));
    ResentFramesAreComing(s1);
  }

  lemma ResentFramesAreComing(s: System)
    requires Ascending(s.w.frames) && s.w.registered && s.w.delivered == {} && s.taken == |s.w.wire|
    ensures var t := WorkerReceives(s, LeaseAck(s.h.appliedSeq));
            && t.w.lastSeq == s.w.lastSeq
            && (forall q :: q in Nums(s.w.frames) ==> Coming(t, q))
  {
    var a := s.h.appliedSeq;
    AckedWorkerResends(s.w, a);
    var t := WorkerReceives(s, LeaseAck(a));
    assert Pending(t) == t.w.wire[|s.w.wire|..];
    forall q | q in Nums(s.w.frames) && q > a ensures Coming(t, q) {
      var i :| |s.w.wire| <= i < |t.w.wire| && Brings(t.w.wire[i], q);
      assert Pending(t)[i - |s.w.wire|] == t.w.wire[i];
    }
  }

  /** On a fresh socket a flush hands over every frame held. */
  lemma FreshFlushBrings(frames: seq<Frame>, q: nat)
    requires Ascending(frames) && q in Nums(frames)
    ensures exists i :: 0 <= i < |Undelivered(frames, {})| && Brings(Reports(Undelivered(frames, {}))[i], q)
  {
    UndeliveredFacts(frames, {});
    var f :| f in frames && f.num == q;
    var sent := Undelivered(frames, {});
    var i :| 0 <= i < |sent| && sent[i] == f;
    assert Brings(Reports(sent)[i], q);
  }

  lemma AckedWorkerResends(w: Worker, a: nat)
    requires Ascending(w.frames) && w.registered && w.delivered == {}
    ensures var w' := OnLeaseAck(w, a);
            && |w'.wire| >= |w.wire| && w'.lastSeq == w.lastSeq
            && forall q :: q in Nums(w.frames) && q > a ==>
                exists i :: |w.wire| <= i < |w'.wire| && Brings(w'.wire[i], q)
  {
    var kept := Above(w.frames, a);
    var sent := Reports(Undelivered(kept, {}));
    AboveFacts(w.frames, a);
    assert w.delivered - Nums(kept) == {};
    var wire' := OnLeaseAck(w, a).wire;
    assert wire' == w.wire + sent;
    forall q | q in Nums(w.frames) && q > a ensures exists i :: |w.wire| <= i < |wire'| && Brings(wire'[i], q) {
      var f :| f in w.frames && f.num == q;
      assert f in kept;
      FreshFlushBrings(kept, q);
      var i :| 0 <= i < |sent| && Brings(sent[i], q);
      assert wire'[|w.wire| + i] == sent[i];
    }
  }

  /** An idle host that has everything has applied everything: a parked completion cannot remain. */
  lemma IdleHostIsCaughtUp(s: System)
    requires Inv(s) && Idle(s.h)
    requires forall q :: 1 <= q <= s.w.lastSeq ==> HostHas(s.h, q)
    ensures CaughtUp(s)
  {
    assert Nums(s.h.chain) == {};
    assert HostHas(s.h, s.h.appliedSeq + 1) ==> s.h.appliedSeq + 1 in CompletionNums(s.h.completion);
  }

  lemma ArrivalsAreComing(s: System, t: System)
    requires t.w == s.w && t.taken == s.taken
    requires forall q :: HostHas(s.h, q) ==> HostHas(t.h, q)
    requires forall m, q :: m in s.stale && Brings(m, q) ==> HostHas(t.h, q)
    ensures forall q :: Coming(s, q) || Stray(s, q) ==> Coming(t, q)
  {
    assert Pending(t) == Pending(s);
  }

  /** Everything any socket ever held gets through, every write succeeding. */
  lemma NetworkDrains(s: System) returns (steps: seq<Step>)
    requires Inv(s) && s.h.held
    ensures Quiet(steps) && Possible(s, steps)
    ensures var t := Exec(s, steps);
            Inv(t) && SameWorker(s, t)
            && (CaughtUp(t) || (Idle(t.h) && t.taken == |t.w.wire|
                                && forall q :: Coming(s, q) || Stray(s, q) ==> HostHas(t.h, q)))
  {
    steps := StraysArrive(s, s.stale);
    var s0 := Exec(s, steps);
    ArrivalsAreComing(s, s0);
    var rest := SocketDrains(s0);
    steps := Then(s, steps, rest);
  }

  /**
   * Catch-up: whenever every number is recoverable, finishing what is under way, reconnecting, and
   * resending what the host asks for, with writes that succeed, brings the watermark to the last
   * frame ever reported.
   */
  lemma RecoverableLeaseCatchesUp(s: System) returns (steps: seq<Step>)
    requires Inv(s) && s.alive && s.h.held && Recoverable(s)
    ensures Quiet(steps) && Possible(s, steps) && CaughtUp(Exec(s, steps))
  {
    steps := NetworkDrains(s);
    var s1 := Exec(s, steps);
    if CaughtUp(s1) { return; }
    var reconnect := Reconnects(s1);
    ReconnectedFacts(s1);
    steps := Then(s, steps, reconnect);
    var s2 := Exec(s, steps);
    var drain := SocketDrains(s2);
    steps := Then(s, steps, drain);
    var s3 := Exec(s, steps);
    if CaughtUp(s3) { return; }
    forall q | 1 <= q <= s.w.lastSeq && q !in Nums(s3.w.frames) ensures HostHas(s3.h, q) {
      assert Reachable(s, q);
      if Coming(s, q) || Stray(s, q) {
        assert HostHas(s1.h, q);
      }
      assert Coming(s2, q);
    }
    var resend := AckResends(s3);
    steps := Then(s, steps, resend);
    var s4 := Exec(s, steps);
    var last := SocketDrains(s4);
    steps := Then(s, steps, last);
    var s5 := Exec(s, steps);
    if !CaughtUp(s5) {
      assert forall q :: 1 <= q <= s.w.lastSeq ==> Coming(s4, q);
      IdleHostIsCaughtUp(s5);
    }
  }

  // ---------------------------------------------------------------- the converse

  /** A number the worker no longer holds, never announced, and the host will never get. */
  ghost predicate Hole(s: System, q: nat) {
    1 <= q <= s.w.lastSeq && !Reachable(s, q)
  }

  /** The wire only grew, by messages that do not bring the number. */
  ghost predicate Extends(wire: seq<UpMsg>, wire': seq<UpMsg>, q: nat) {
    exists extra :: wire' == wire + extra && forall i :: 0 <= i < |extra| ==> !Brings(extra[i], q)
  }

  lemma FlushKeepsHoleOffTheWire(w: Worker, q: nat)
    requires q !in Nums(w.frames)
    ensures Extends(w.wire, FlushLease(w).wire, q)
  {
    UndeliveredFacts(w.frames, w.delivered);
    if w.registered && !w.awaitingAck {
      var extra := Reports(Undelivered(w.frames, w.delivered));
      assert forall i :: 0 <= i < |extra| ==> extra[i].frame in w.frames;
      assert FlushLease(w).wire == w.wire + extra;
    } else {
      assert w.wire == w.wire + [];
    }
  }

  lemma ExtraBringsNothing(s: System, t: System, extra: seq<UpMsg>, q: nat)
    requires !Coming(s, q) && t.h == s.h && Pending(t) == Pending(s) + extra
    requires forall i :: 0 <= i < |extra| ==> !Brings(extra[i], q)
    ensures !Coming(t, q)
  {
    forall i | 0 <= i < |Pending(t)| ensures !Brings(Pending(t)[i], q) {
      assert Pending(t)[i] == if i < |Pending(s)| then Pending(s)[i] else extra[i - |Pending(s)|];
    }
  }

  lemma ExtensionKeepsHole(s: System, w': Worker, log': History, q: nat)
    requires Hole(s, q) && s.taken <= |s.w.wire|
    requires w'.lastSeq == s.w.lastSeq && w'.gapThrough == s.w.gapThrough && Nums(w'.frames) <= Nums(s.w.frames)
    requires Extends(s.w.wire, w'.wire, q)
    ensures Hole(s.(w := w', log := log'), q)
  {
    var t := s.(w := w', log := log');
    var extra :| w'.wire == s.w.wire + extra && forall i :: 0 <= i < |extra| ==> !Brings(extra[i], q);
    assert Pending(t) == Pending(s) + extra;
    ExtraBringsNothing(s, t, extra, q);
  }

  lemma BackstopKeepsHole(s: System, q: nat)
    requires Inv(s) && Hole(s, q) && Enabled(s, BackstopFired)
    ensures Hole(Apply(s, BackstopFired), q)
  {
    var t := Apply(s, BackstopFired);
    FlushKeepsHoleOffTheWire(s.w.(awaitingAck := false), q);
    assert s.w.wire == s.w.wire + [];
    ExtensionKeepsHole(s, t.w, t.log, q);
  }

  lemma RegistrationKeepsHole(s: System, q: nat)
    requires Inv(s) && Hole(s, q) && Enabled(s, Registered)
    ensures Hole(Apply(s, Registered), q)
  {
    var t := Apply(s, Registered);
    var gap := LeaseGap(s.w.gapThrough, s.w.droppedSinceGap);
    var extra := if s.w.gapThrough == 0 || !s.alive then s.w.queue else s.w.queue + [gap];
    assert t.w.wire == s.w.wire + extra;
    assert forall i :: 0 <= i < |extra| ==> extra[i] in s.w.queue || extra[i] == gap;
    ExtensionKeepsHole(s, t.w, t.log, q);
  }

  lemma AckKeepsHole(s: System, n: nat, q: nat)
    requires Inv(s) && Hole(s, q)
    ensures Hole(WorkerReceives(s, LeaseAck(n)), q)
  {
    var t := WorkerReceives(s, LeaseAck(n));
    AboveFacts(s.w.frames, n);
    var kept := Above(s.w.frames, n);
    assert Nums(kept) <= Nums(s.w.frames);
    var w1 := s.w.(frames := kept,
                   delivered := if n == s.w.lastAckedSeq then s.w.delivered - Nums(kept) else s.w.delivered,
                   lastAckedSeq := n, awaitingAck := false);
    FlushKeepsHoleOffTheWire(w1, q);
    ExtensionKeepsHole(s, t.w, t.log, q);
  }

  lemma RecordingGainsOnlyItsNumber(h: Host, n: nat, q: nat)
    ensures HostHas(MarkApplied(h, n), q) ==> HostHas(h, q) || q == n
  {
    var ahead := h.appliedAhead + {n};
    PulledIsTheContiguousPrefix(h.appliedSeq, ahead);
    assert h.appliedSeq < q <= Pulled(h.appliedSeq, ahead) ==> q in ahead;
  }

  lemma ReceiptGainsOnlyWhatItBrings(h: Host, m: UpMsg, q: nat)
    requires HostHas(Receive(h, m), q)
    ensures HostHas(h, q) || Brings(m, q)
  {
    if m.LeaseGap? {
      PulledIsTheContiguousPrefix(m.throughSeq, AboveSeq(h.appliedAhead, m.throughSeq));
    }
  }

  /** The host settles only numbers it already had or was just brought. */
  lemma HostStepKeepsHole(s: System, step: Step, q: nat)
    requires Inv(s) && Hole(s, q) && Enabled(s, step)
    requires step.WriteFails? || step.WriteRecorded? || step.CompletionFails?
             || step.CompletionFinishes? || step.LeaseExpires? || step.HostRestarts?
    ensures Hole(Apply(s, step), q)
  {
    var t := Apply(s, step);
    assert Pending(t) == Pending(s);
    if step.WriteRecorded? {
      var popped := s.h.(chain := s.h.chain[1..], headLanded := false);
      PopKeepsChain(s.h, popped.(inFlight := s.h.inFlight - {s.h.chain[0].num}), s.log);
      RecordingGainsOnlyItsNumber(popped, s.h.chain[0].num, q);
    } else if step.CompletionFinishes? {
      RecordingGainsOnlyItsNumber(s.h, s.h.completion.frame.num, q);
    }
  }

  lemma ReceiptKeepsHole(s: System, q: nat)
    requires Inv(s) && Hole(s, q) && Enabled(s, DeliverUp)
    ensures Hole(Apply(s, DeliverUp), q)
  {
    var t := Apply(s, DeliverUp);
    var m := s.w.wire[s.taken];
    assert Pending(s)[0] == m;
    assert Pending(t) == Pending(s)[1..];
    if HostHas(t.h, q) {
      ReceiptGainsOnlyWhatItBrings(s.h, m, q);
    }
  }

  lemma StrayReceiptKeepsHole(s: System, m: UpMsg, q: nat)
    requires Hole(s, q) && m in s.stale
    ensures Hole(Apply(s, DeliverStale(m)), q)
  {
    var t := Apply(s, DeliverStale(m));
    assert Pending(t) == Pending(s) && !Brings(m, q);
    if HostHas(t.h, q) {
      ReceiptGainsOnlyWhatItBrings(s.h, m, q);
    }
  }

  /** A dropped socket's messages become strays; none of them brings the number. */
  lemma SocketStepKeepsHole(s: System, step: Step, q: nat)
    requires Hole(s, q) && Enabled(s, step) && (step.SocketClosed? || step.SocketOpened?)
    ensures Hole(Apply(s, step), q)
  {
    var t := Apply(s, step);
    assert Pending(t) == [];
    forall m | m in t.stale ensures !Brings(m, q) {
      if m !in s.stale {
        var i :| 0 <= i < |Pending(s)| && Pending(s)[i] == m;
      }
    }
  }

  lemma QuietStepKeepsHole(s: System, step: Step, q: nat)
    requires Inv(s) && Hole(s, q) && Enabled(s, step) && QuietStep(step)
    ensures Hole(Apply(s, step), q)
  {
    var t := Apply(s, step);
    if step.BackstopFired? {
      BackstopKeepsHole(s, q);
    } else if step.Registered? {
      RegistrationKeepsHole(s, q);
    } else if step.DeliverDown? && step.down.LeaseAck? {
      AckKeepsHole(s, step.down.num, q);
    } else if step.SocketClosed? || step.SocketOpened? {
      SocketStepKeepsHole(s, step, q);
    } else if step.DeliverUp? {
      ReceiptKeepsHole(s, q);
    } else if step.DeliverStale? {
      StrayReceiptKeepsHole(s, step.up, q);
    } else if step.WriteFails? || step.WriteRecorded? || step.CompletionFails?
              || step.CompletionFinishes? || step.LeaseExpires? || step.HostRestarts? {
      HostStepKeepsHole(s, step, q);
    } else {
      assert Pending(t) == Pending(s);
    }
  }

  /** A hole stays: nothing short of a new report lets the watermark pass it. */
  lemma {:induction false} HoleNeverCloses(s: System, steps: seq<Step>, q: nat)
    requires Inv(s) && Hole(s, q) && Quiet(steps) && Possible(s, steps)
    ensures Hole(Exec(s, steps), q) && Exec(s, steps).h.appliedSeq < q
    decreases |steps|
  {
    if steps != [] {
      QuietStepKeepsHole(s, steps[0], q);
      StepKeepsInv(s, steps[0]);
      HoleNeverCloses(Apply(s, steps[0]), steps[1..], q);
    }
  }

  /** Short of a new report, a live lease can catch up exactly when no number is out of reach. */
  lemma CatchesUpExactlyWhenRecoverable(s: System)
    requires Inv(s) && s.alive && s.h.held
    ensures Recoverable(s) <==> CanCatchUp(s)
  {
    if Recoverable(s) {
      var steps := RecoverableLeaseCatchesUp(s);
    } else {
      var q :| 1 <= q <= s.w.lastSeq && !Reachable(s, q);
      forall steps | Quiet(steps) && Possible(s, steps) ensures !CaughtUp(Exec(s, steps)) {
        HoleNeverCloses(s, steps, q);
      }
    }
  }

  /** After the run-complete no step is a report: every possible run is quiet. */
  lemma {:induction false} CompletedRunsAreQuiet(s: System, steps: seq<Step>)
    requires Completed(s.log.issued) && Possible(s, steps)
    ensures Quiet(steps)
    decreases |steps|
  {
    if steps != [] {
      assert Completed(Apply(s, steps[0]).log.issued);
      CompletedRunsAreQuiet(Apply(s, steps[0]), steps[1..]);
      assert forall i :: 0 < i < |steps| ==> steps[i] == steps[1..][i - 1];
    }
  }

  /**
   * Once the run-complete is reported, a number out of reach blocks every run whatever, strays and
   * crashes included.
   */
  lemma HoleBlocksEveryRun(s: System, steps: seq<Step>, q: nat)
    requires Inv(s) && Completed(s.log.issued) && Hole(s, q) && Possible(s, steps)
    ensures Exec(s, steps).h.appliedSeq < q && !CaughtUp(Exec(s, steps))
  {
    CompletedRunsAreQuiet(s, steps);
    HoleNeverCloses(s, steps, q);
  }

  ghost predicate EverCatchesUp(s: System) {
    exists steps :: Possible(s, steps) && CaughtUp(Exec(s, steps))
  }

  /**
   * A live lease whose run-complete was reported can catch up, by any run whatever, exactly when no
   * number is out of reach.
   */
  lemma CompletedLeaseCatchesUpExactlyWhenRecoverable(s: System)
    requires Inv(s) && s.alive && s.h.held && Completed(s.log.issued)
    ensures Recoverable(s) <==> EverCatchesUp(s)
  {
    if Recoverable(s) {
      var steps := RecoverableLeaseCatchesUp(s);
    } else {
      var q :| 1 <= q <= s.w.lastSeq && !Reachable(s, q);
      forall steps | Possible(s, steps) ensures !CaughtUp(Exec(s, steps)) {
        HoleBlocksEveryRun(s, steps, q);
      }
    }
  }

  /**
   * Catching up on a lease whose run-complete was reported means its completion was applied and the
   * lease settled, but for a restart on a file that has the run-complete's own watermark.
   */
  lemma CaughtUpMeansCompleted(s: System)
    requires Inv(s) && CaughtUp(s) && Completed(s.log.issued)
    ensures s.log.finished && (s.h.held ==> s.log.overdue)
  {
  }

  /**
   * The two ways a number goes out of reach, excluded: nothing was dropped above the announced gap,
   * and the host's watermark is not behind what the worker trimmed.
   */
  lemma OrdinaryLeaseIsRecoverable(s: System)
    requires Inv(s) && s.alive
    requires forall n :: n in s.log.dropped ==> n <= s.w.gapThrough
    requires s.log.trimmed <= s.h.appliedSeq
    ensures Recoverable(s)
  {
    forall q | 1 <= q <= s.w.lastSeq ensures Reachable(s, q) {
      assert q <= s.log.trimmed || q in Nums(s.w.frames) || q in s.log.dropped;
    }
  }
}
