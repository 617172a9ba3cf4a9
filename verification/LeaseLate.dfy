/**
 * What disturbs the order, exactly. A lease's frames take effect as they were numbered until one
 * arrives that the host takes although it has taken a later one. A rejected write and a stray
 * message may set that up; whether they do is decided here step by step.
 */
module LeaseLate {
  import opened LeaseTypes
  import opened HostModel
  import opened LeaseSystem
  import opened LeaseInvariant
  import opened LeaseSafety
  import opened LeaseCatchUp
  import opened LeaseOrder

  /** The host would put the frame on the lease's chain. */
  predicate Chained(h: Host, f: Frame) {
    h.held && Admits(h, f.num) && !f.kind.RunComplete?
  }

  ghost predicate Overtaken(s: System, n: nat) {
    exists p: nat :: Passed(s, p) && n < p && !IsCompletion(s.log, p)
  }

  ghost predicate Late(s: System, m: UpMsg) {
    m.Report? && Chained(s.h, m.frame) && Overtaken(s, m.frame.num)
  }

  /** The step hands the host a frame it takes behind a later one. */
  ghost predicate ArrivesLate(s: System, step: Step)
    requires Enabled(s, step)
  {
    match step
    case DeliverUp => Late(s, s.w.wire[s.taken])
    case DeliverStale(m) => Late(s, m)
    case _ => false
  }

  // ---------------------------------------------------------------- step by step

  /** A message from the worker, on any socket, breaks the order exactly when it is a late frame. */
  lemma ReceiptDecidesOrder(s: System, m: UpMsg, t: System)
    requires Inv(s) && HandledInOrder(s) && GoodMessage(s.log, s.w.gapThrough, m)
    requires t.h == Receive(s.h, m) && t.log.life == s.log.life && t.log.issued == s.log.issued
    ensures HandledInOrder(t) <==> !Late(s, m)
  {
    if m.Report? && Chained(s.h, m.frame) {
      ChainedIsNoCompletion(s.h, s.log);
      PassedIsTaken(s);
      if Late(s, m) {
        LateBreaksOrder(s, m.frame, t);
      } else {
        NextGoesOnChain(s, m.frame, t);
      }
    } else {
      SameChainHandlesInOrder(s, t);
    }
  }

  lemma PassedIsTaken(s: System)
    requires Inv(s)
    ensures forall p: nat :: Passed(s, p) ==> HostHas(s.h, p)
  {
  }

  lemma LateBreaksOrder(s: System, f: Frame, t: System)
    requires t.h.chain == s.h.chain + [f] && t.h.headLanded == s.h.headLanded && (s.h.headLanded ==> s.h.chain != [])
    requires t.log.life == s.log.life && t.log.issued == s.log.issued && Overtaken(s, f.num)
    ensures !HandledInOrder(t)
  {
    var p: nat :| Passed(s, p) && f.num < p && !IsCompletion(s.log, p);
    if p in s.log.life {
      assert Unresolved(t.h)[|Unresolved(t.h)| - 1] == f;
      assert f in Unresolved(t.h) && !IsCompletion(t.log, p);
    } else {
      var k :| 0 <= k < |s.h.chain| && s.h.chain[k].num == p;
      assert t.h.chain[k].num == p && t.h.chain[|s.h.chain|] == f;
    }
  }

  /** Steps that bring the host nothing leave the order as it is. */
  lemma OtherStepsHandleInOrder(s: System, step: Step)
    requires Inv(s) && HandledInOrder(s) && Enabled(s, step) && !step.DeliverUp? && !step.DeliverStale?
    ensures HandledInOrder(Apply(s, step))
  {
    if WorkerStep(step) {
      WorkerStepHandlesInOrder(s, step);
    } else if CompletionStep(step) {
      CompletionStepHandlesInOrder(s, step);
    } else if WriteStep(step) {
      WriteStepHandlesInOrder(s, step);
    } else if !step.HostRestarts? {
      SameChainHandlesInOrder(s, Apply(s, step));
    }
  }

  lemma CompletionStepHandlesInOrder(s: System, step: Step)
    requires Inv(s) && HandledInOrder(s) && Enabled(s, step) && CompletionStep(step)
    ensures HandledInOrder(Apply(s, step))
  {
    RunCompleteIsLast(s.log, s.h.completion.frame);
    PassedIsNumbered(s.h, s.log);
    CompletionStepTouchesOnlyIt(s, step);
    CompletionHandledInOrder(s, Apply(s, step), s.h.completion.frame.num);
  }

  lemma WriteStepHandlesInOrder(s: System, step: Step)
    requires HandledInOrder(s) && Enabled(s, step) && WriteStep(step)
    ensures HandledInOrder(Apply(s, step))
  {
    if step.WriteLands? || step.WriteDiscarded? {
      ResolvingHandlesInOrder(s, Apply(s, step));
    } else {
      if step.WriteRecorded? { RecordingPops(s.h); }
      PoppingHandlesInOrder(s, Apply(s, step));
    }
  }

  lemma WorkerStepHandlesInOrder(s: System, step: Step)
    requires Inv(s) && HandledInOrder(s) && Enabled(s, step) && WorkerStep(step)
    ensures HandledInOrder(Apply(s, step))
  {
    var t := Apply(s, step);
    assert t.h == s.h && t.log.life == s.log.life;
    assert forall n :: IsCompletion(s.log, n) ==> IsCompletion(t.log, n);
  }

  /**
   * From a state in order, a step of the worker, a socket, the host or a crash keeps the order if and
   * only if it does not hand the host a late frame.
   */
  lemma StepKeepsOrderExactlyWhen(s: System, step: Step)
    requires Inv(s) && HandledInOrder(s) && Enabled(s, step)
    ensures HandledInOrder(Apply(s, step)) <==> !ArrivesLate(s, step)
  {
    if step.DeliverUp? {
      assert s.w.wire[s.taken] in s.w.wire;
      ReceiptDecidesOrder(s, s.w.wire[s.taken], Apply(s, step));
    } else if step.DeliverStale? {
      ReceiptDecidesOrder(s, step.up, Apply(s, step));
    } else {
      OtherStepsHandleInOrder(s, step);
    }
  }

  // ---------------------------------------------------------------- over runs

  ghost predicate NothingArrivesLate(s: System, steps: seq<Step>)
    requires Possible(s, steps)
    decreases |steps|
  {
    steps == [] || (!ArrivesLate(s, steps[0]) && NothingArrivesLate(Apply(s, steps[0]), steps[1..]))
  }

  ghost predicate InOrderThroughout(s: System, steps: seq<Step>)
    requires Possible(s, steps)
    decreases |steps|
  {
    HandledInOrder(s) && (steps == [] || InOrderThroughout(Apply(s, steps[0]), steps[1..]))
  }

  lemma {:induction false} RunKeepsOrderExactlyWhen(s: System, steps: seq<Step>)
    requires Inv(s) && HandledInOrder(s) && Possible(s, steps)
    ensures InOrderThroughout(s, steps) <==> NothingArrivesLate(s, steps)
    ensures InOrderThroughout(s, steps) ==> HandledInOrder(Exec(s, steps))
    decreases |steps|
  {
    if steps != [] {
      StepKeepsInv(s, steps[0]);
      StepKeepsOrderExactlyWhen(s, steps[0]);
      var t := Apply(s, steps[0]);
      if HandledInOrder(t) { RunKeepsOrderExactlyWhen(t, steps[1..]); }
    }
  }

  /** A landed head's number is in the life's record. */
  predicate HeadLogged(s: System) {
    s.h.headLanded && s.h.chain != [] ==> s.h.chain[0].num in s.log.life
  }

  lemma StepKeepsHeadLogged(s: System, step: Step)
    requires HeadLogged(s) && Enabled(s, step) && (s.h.headLanded ==> s.h.chain != [])
    ensures HeadLogged(Apply(s, step))
  {
    if WorkerStep(step) {
      assert Apply(s, step).h == s.h && Apply(s, step).log.life == s.log.life;
    } else if CompletionStep(step) {
      CompletionStepTouchesOnlyIt(s, step);
    } else if step.DeliverUp? {
      ReceiptKeepsHead(s.h, s.w.wire[s.taken]);
    } else if step.DeliverStale? {
      ReceiptKeepsHead(s.h, step.up);
    }
  }

  lemma ReceiptKeepsHead(h: Host, m: UpMsg)
    requires h.headLanded ==> h.chain != []
    ensures Receive(h, m).headLanded == h.headLanded
    ensures h.headLanded ==> Receive(h, m).chain != [] && Receive(h, m).chain[0] == h.chain[0]
  {
  }

  lemma {:induction false} ExecKeepsHeadLogged(s: System, steps: seq<Step>)
    requires Inv(s) && HeadLogged(s) && Possible(s, steps)
    ensures HeadLogged(Exec(s, steps))
    decreases |steps|
  {
    if steps != [] {
      StepKeepsInv(s, steps[0]);
      StepKeepsHeadLogged(s, steps[0]);
      ExecKeepsHeadLogged(Apply(s, steps[0]), steps[1..]);
    }
  }

  /** The handler of the chain's head resolves, or its landed write is recorded. */
  function ChainWork(h: Host): Step
    requires h.chain != []
  {
    if h.headLanded then WriteRecorded
    else if Refuses(h.chain[0]) then WriteDiscarded(true) else WriteLands
  }

  predicate IsChainWork(step: Step) {
    step.WriteLands? || step.WriteDiscarded? || step.WriteRecorded?
  }

  /** The handlers of what is on the chain resolve and are recorded; nothing else happens. */
  predicate OnlyChainWork(steps: seq<Step>) {
    forall i :: 0 <= i < |steps| ==> IsChainWork(steps[i])
  }

  /** Working at the chain puts nothing in order. */
  lemma ChainWorkKeepsDisorder(s: System)
    requires HeadLogged(s) && s.h.chain != [] && !HandledInOrder(s) && !IsCompletion(s.log, s.h.chain[0].num)
    ensures Enabled(s, ChainWork(s.h)) && !HandledInOrder(Apply(s, ChainWork(s.h)))
  {
    var t := Apply(s, ChainWork(s.h));
    if s.h.headLanded {
      RecordingPops(s.h);
      if HandledInOrder(t) { RecordedWasInOrder(s, t); }
    } else {
      if HandledInOrder(t) { ResolvedWasInOrder(s, t); }
    }
  }

  lemma RecordingPops(h: Host)
    requires h.chain != []
    ensures RecordHead(h).chain == h.chain[1..] && !RecordHead(h).headLanded
  {
  }

  lemma RecordedWasInOrder(s: System, t: System)
    requires s.h.headLanded && s.h.chain != [] && s.h.chain[0].num in s.log.life
    requires !IsCompletion(s.log, s.h.chain[0].num)
    requires t.log == s.log && t.h.chain == s.h.chain[1..] && !t.h.headLanded && HandledInOrder(t)
    ensures HandledInOrder(s)
  {
    assert Unresolved(s.h) == Unresolved(t.h) == t.h.chain;
    assert forall k :: 0 < k < |s.h.chain| ==> s.h.chain[k] == t.h.chain[k - 1];
    assert forall k :: 0 < k < |s.h.chain| ==> s.h.chain[k] in Unresolved(t.h);
  }

  lemma ResolvedWasInOrder(s: System, t: System)
    requires !s.h.headLanded && s.h.chain != [] && t.h == WriteLanded(s.h)
    requires t.log.issued == s.log.issued && t.log.life == s.log.life + [s.h.chain[0].num] && HandledInOrder(t)
    ensures HandledInOrder(s)
  {
    var l := |s.log.life|;
    assert forall i :: 0 <= i < l ==> t.log.life[i] == s.log.life[i] && t.log.life[i] in t.log.life;
    assert t.log.life[l] == s.h.chain[0].num;
    forall n, f | n in s.log.life && f in Unresolved(s.h) ensures n < f.num || IsCompletion(s.log, n) {
      var i :| 0 <= i < l && s.log.life[i] == n;
      assert t.log.life[i] == n;
      var k :| 0 <= k < |s.h.chain| && s.h.chain[k] == f;
      if k > 0 { assert Unresolved(t.h)[k - 1] == f; }
    }
  }

  function WorkLeft(h: Host): nat {
    2 * |h.chain| - (if h.headLanded && h.chain != [] then 1 else 0)
  }

  lemma ChainWorkShrinks(s: System)
    requires s.h.chain != [] && Enabled(s, ChainWork(s.h))
    ensures WorkLeft(Apply(s, ChainWork(s.h)).h) < WorkLeft(s.h)
  {
  }

  lemma EmptyChainIsAsTheLife(s: System)
    requires s.h.chain == [] && LifeInOrder(s.log)
    ensures HandledInOrder(s)
  {
  }

  lemma ChainWorkStep(s: System) returns (step: Step, t: System)
    requires Inv(s) && HeadLogged(s) && !HandledInOrder(s) && s.h.chain != []
    ensures IsChainWork(step) && Enabled(s, step) && t == Apply(s, step)
    ensures Inv(t) && HeadLogged(t) && !HandledInOrder(t) && WorkLeft(t.h) < WorkLeft(s.h)
  {
    step := ChainWork(s.h);
    ChainedIsNoCompletion(s.h, s.log);
    assert s.h.chain[0] in s.h.chain;
    ChainWorkKeepsDisorder(s);
    ChainWorkShrinks(s);
    StepKeepsInv(s, step);
    StepKeepsHeadLogged(s, step);
    t := Apply(s, step);
  }

  /** What is out of order on the chain takes effect out of order once its handlers resolve. */
  lemma {:induction false} DisorderTakesEffect(s: System) returns (steps: seq<Step>)
    requires Inv(s) && HeadLogged(s) && !HandledInOrder(s)
    ensures Possible(s, steps) && OnlyChainWork(steps) && !LifeInOrder(Exec(s, steps).log)
    decreases WorkLeft(s.h)
  {
    if !LifeInOrder(s.log) {
      return [];
    }
    if s.h.chain == [] { EmptyChainIsAsTheLife(s); }
    var step, t := ChainWorkStep(s);
    var rest := DisorderTakesEffect(t);
    steps := FirstThen(s, step, t, rest);
  }

  lemma FirstThen(s: System, step: Step, t: System, rest: seq<Step>) returns (steps: seq<Step>)
    requires Enabled(s, step) && t == Apply(s, step) && Possible(t, rest) && IsChainWork(step) && OnlyChainWork(rest)
    ensures Possible(s, steps) && OnlyChainWork(steps) && Exec(s, steps) == Exec(t, rest)
  {
    steps := [step] + rest;
    assert steps[1..] == rest;
    assert forall i :: 0 < i < |steps| ==> steps[i] == rest[i - 1];
  }

  /**
   * Over every run of every step, crashes, rejections and strays included: as long as no frame arrives
   * late, the frames of a host life take effect in the order they were numbered; and when one does
   * arrive late, the handlers on the chain need only resolve for it to take effect behind a later one.
   */
  lemma FramesTakeEffectInOrderExactlyWhen(steps: seq<Step>, step: Step) returns (rest: seq<Step>)
    requires Possible(INITIAL, steps) && NothingArrivesLate(INITIAL, steps) && Enabled(Exec(INITIAL, steps), step)
    ensures LifeInOrder(Exec(INITIAL, steps).log)
    ensures var s := Exec(INITIAL, steps);
            if ArrivesLate(s, step)
            then OnlyChainWork(rest) && Possible(Apply(s, step), rest)
                 && !LifeInOrder(Exec(Apply(s, step), rest).log)
            else HandledInOrder(Apply(s, step)) && LifeInOrder(Apply(s, step).log)
  {
    InitialInv();
    ReachableInv(steps);
    RunKeepsOrderExactlyWhen(INITIAL, steps);
    ExecKeepsHeadLogged(INITIAL, steps);
    var s := Exec(INITIAL, steps);
    StepKeepsOrderExactlyWhen(s, step);
    if ArrivesLate(s, step) {
      StepKeepsInv(s, step);
      StepKeepsHeadLogged(s, step);
      rest := DisorderTakesEffect(Apply(s, step));
    } else {
      rest := [];
    }
  }

  // ---------------------------------------------------------------- what sets a late frame up

  /**
   * A rejected write leaves its frame overtaken exactly when another is on the chain behind it, no
   * gap has passed it, and the worker holds it still or the socket brings it again.
   */
  lemma RejectionOvertakesExactlyWhen(s: System)
    requires Inv(s) && InOrder(s) && s.h.held && Enabled(s, WriteFails)
    ensures var n := s.h.chain[0].num;
            !NothingOvertaken(Apply(s, WriteFails)) <==> |s.h.chain| > 1 && n > s.h.appliedSeq && Sendable(s, n)
  {
    var t := Apply(s, WriteFails);
    var f := s.h.chain[0];
    ChainedIsNoCompletion(s.h, s.log);
    assert f in s.h.chain;
    RejectionFreesOne(s.h, s.log);
    SameSocketSameSendable(s, t);
    if |s.h.chain| > 1 && f.num > s.h.appliedSeq && Sendable(s, f.num) {
      var g := s.h.chain[1];
      assert t.h.chain[0] == g && Passed(t, g.num);
      assert g in s.h.chain;
      assert Wanted(t, f.num) && Sendable(t, f.num);
    } else {
      RejectionOvertakesNothing(s, t);
    }
  }

  lemma SameSocketSameSendable(s: System, t: System)
    requires t.w == s.w && t.taken == s.taken
    ensures forall n: nat :: Sendable(t, n) <==> Sendable(s, n)
  {
    assert Pending(t) == Pending(s);
  }

  lemma RejectionFreesOne(h: Host, log: History)
    requires HostInv(h, log) && h.chain != []
    ensures var n := h.chain[0].num;
            && (forall q: nat :: HostHas(WriteFailed(h), q) <==> HostHas(h, q) && (q != n || n <= h.appliedSeq))
            && (forall g :: g in h.chain[1..] ==> g in h.chain)
  {
    assert h.chain[0] in h.chain;
  }

  lemma RejectionOvertakesNothing(s: System, t: System)
    requires HandledInOrder(s) && NothingOvertaken(s) && HandlerRuns(s.h)
    requires t.w == s.w && t.taken == s.taken && t.log == s.log && t.h.chain == s.h.chain[1..]
    requires forall q: nat :: HostHas(s.h, q) && !HostHas(t.h, q) ==> q == s.h.chain[0].num
    requires HostHas(t.h, s.h.chain[0].num) || |s.h.chain| == 1 || !Sendable(s, s.h.chain[0].num)
    ensures NothingOvertaken(t)
  {
    var f := s.h.chain[0];
    SameSocketSameSendable(s, t);
    assert f in s.h.chain && f in Unresolved(s.h);
    forall n: nat, p: nat | Wanted(t, n) && Sendable(t, n) && Passed(t, p) ensures p < n || IsCompletion(t.log, p) {
      assert Passed(s, p);
      if n == f.num { assert t.h.chain == []; } else { assert Wanted(s, n); }
    }
  }

  /** A stray message overtakes exactly when the host takes it as a frame and still wants an earlier one. */
  lemma StrayOvertakesExactlyWhen(s: System, m: UpMsg)
    requires Inv(s) && InOrder(s) && s.h.held && Enabled(s, DeliverStale(m))
    ensures !NothingOvertaken(Apply(s, DeliverStale(m))) <==>
              m.Report? && Chained(s.h, m.frame)
              && exists n: nat :: Wanted(s, n) && Sendable(s, n) && n < m.frame.num
  {
    var t := Apply(s, DeliverStale(m));
    SameSocketSameSendable(s, t);
    if m.Report? && Chained(s.h, m.frame) {
      assert !IsCompletion(s.log, m.frame.num) by { assert Genuine(s.log.issued, m.frame); }
      TakenFrameOvertakes(s, m.frame, t);
    } else {
      forall n: nat | Wanted(t, n) ensures Wanted(s, n) {
        if HostHas(s.h, n) { ReceiptLosesNothing(s.h, m, n); }
      }
      SamePassedOvertakesNothing(s, t);
    }
  }

  lemma SamePassedOvertakesNothing(s: System, t: System)
    requires NothingOvertaken(s) && t.w == s.w && t.taken == s.taken && t.log.issued == s.log.issued
    requires t.log.life == s.log.life && t.h.chain == s.h.chain
    requires forall n: nat :: Wanted(t, n) ==> Wanted(s, n)
    ensures NothingOvertaken(t)
  {
    SameSocketSameSendable(s, t);
    forall n: nat, p: nat | Wanted(t, n) && Sendable(t, n) && Passed(t, p) ensures p < n || IsCompletion(t.log, p) {
      assert Passed(s, p);
    }
  }

  lemma TakenFrameOvertakes(s: System, f: Frame, t: System)
    requires NothingOvertaken(s) && Chained(s.h, f) && !IsCompletion(s.log, f.num)
    requires t == s.(h := Deliver(s.h, f))
    ensures !NothingOvertaken(t) <==> exists n: nat :: Wanted(s, n) && Sendable(s, n) && n < f.num
  {
    SameSocketSameSendable(s, t);
    assert t.h.chain == s.h.chain + [f];
    assert f == t.h.chain[|s.h.chain|] && Passed(t, f.num);
    assert forall n: nat :: Wanted(t, n) <==> Wanted(s, n) && n != f.num;
    assert forall p: nat :: Passed(t, p) <==> p == f.num || Passed(s, p);
    if n: nat :| Wanted(s, n) && Sendable(s, n) && n < f.num {
      assert Wanted(t, n) && Sendable(t, n);
    }
  }
}
