/** The host's record of one lease, updated in place as the registry's methods do. */
module HostRegistry {
  import opened LeaseTypes
  import M = HostModel

  /** The fields of a registry lease, with its write chain and its completion bookkeeping. */
  class Lease {
    var held: bool
    var appliedSeq: nat
    var appliedAhead: set<nat>
    var inFlightSeqs: set<nat>
    var chain: seq<Frame>
    var headLanded: bool
    var completion: M.Completion

    ghost function View(): M.Host
      reads this
    {
      M.Host(held, appliedSeq, appliedAhead, inFlightSeqs, chain, headLanded, completion)
    }

    /**
     * The watermark is as far as it can be: the number above it is not applied. A parked completion
     * has a number missing below it, one being applied has none.
     */
    ghost predicate WatermarkValid()
      reads this
    {
      && (forall s :: s in appliedAhead ==> s > appliedSeq)
      && appliedSeq + 1 !in appliedAhead
      && appliedAhead !! inFlightSeqs
      && (completion.Parked? ==> appliedSeq + 1 < completion.frame.num)
      && (completion.Writing? || completion.Landed? ==> appliedSeq + 1 >= completion.frame.num)
    }

    /** Every frame being written or completed is in flight, each in one place. */
    ghost predicate Valid()
      reads this
    {
      && WatermarkValid()
      && DistinctNums(chain) && (forall f :: f in chain ==> !f.kind.RunComplete?)
      && Nums(chain) <= inFlightSeqs && M.CompletionNums(completion) <= inFlightSeqs
      && Nums(chain) !! M.CompletionNums(completion)
      && (headLanded ==> chain != [])
    }

    /** Dispatch installs a lease at watermark 0, restore at the persisted one. */
    constructor (watermark: nat)
      ensures Valid() && View() == M.Installed(true, watermark)
    {
      held, appliedSeq, appliedAhead, inFlightSeqs := true, watermark, {}, {};
      chain, headLanded, completion := [], false, M.NoCompletion;
    }

    /** The exact replay gate: refuse only what is already accounted for, and note what is let in. */
    method AdmitFrame(n: nat) returns (admitted: bool)
      modifies this`inFlightSeqs
      ensures admitted == M.Admits(old(View()), n)
      ensures inFlightSeqs == if admitted then old(inFlightSeqs) + {n} else old(inFlightSeqs)
    {
      if n <= appliedSeq { return false; }
      if n in appliedAhead { return false; }
      if n in inFlightSeqs { return false; }
      inFlightSeqs := inFlightSeqs + {n};
      return true;
    }

    /** An admitted frame is in flight from here on, on the chain or as the completion; nothing is applied yet. */
    method HandleReport(f: Frame)
      requires Valid()
      modifies this`inFlightSeqs, this`chain, this`completion
      ensures Valid() && View() == M.Deliver(old(View()), f)
      ensures inFlightSeqs == old(inFlightSeqs) + (if held && M.Admits(old(View()), f.num) then {f.num} else {})
      ensures forall g :: g in chain <==>
                g in old(chain) || (g == f && !f.kind.RunComplete? && held && M.Admits(old(View()), f.num))
      ensures !M.Admits(View(), f.num) || !held
    {
      if !held { return; }
      var admitted := AdmitFrame(f.num);
      if !admitted { return; }
      if f.kind.RunComplete? {
        if !completion.NoCompletion? { return; }
        completion := M.Draining(f);
      } else {
        assert Nums(chain + [f]) == Nums(chain) + {f.num} by { OneMoreNum(chain, f); }
        assert f.num !in Nums(chain);
        chain := chain + [f];
      }
    }

    /** Step the watermark over every number just above it that is already applied. */
    method PullWatermark()
      requires forall s :: s in appliedAhead ==> s > appliedSeq
      modifies this`appliedSeq, this`appliedAhead
      ensures (forall s :: s in appliedAhead ==> s > appliedSeq) && appliedSeq + 1 !in appliedAhead
      ensures View() == M.PullUp(old(View()), old(appliedSeq), old(appliedAhead))
    {
      ghost var ahead := appliedAhead;
      while appliedSeq + 1 in appliedAhead
        invariant forall s :: s in appliedAhead ==> s > appliedSeq
        invariant M.Pulled(appliedSeq, appliedAhead) == M.Pulled(old(appliedSeq), ahead)
        invariant appliedSeq >= old(appliedSeq)
        invariant appliedAhead == M.AboveSeq(ahead, appliedSeq)
        decreases appliedAhead
      {
        appliedAhead := appliedAhead - {appliedSeq + 1};
        appliedSeq := appliedSeq + 1;
      }
    }

    method MaybeFinishPendingCompletion()
      modifies this`completion
      ensures View() == M.MaybeFinishPending(old(View()))
    {
      if completion.Parked? && appliedSeq + 1 >= completion.frame.num {
        completion := M.Writing(completion.frame);
      }
    }

    method MarkApplied(n: nat)
      requires WatermarkValid()
      modifies this`inFlightSeqs, this`appliedSeq, this`appliedAhead, this`completion
      ensures WatermarkValid()
      ensures View() == M.MarkApplied(old(View()), n)
      ensures inFlightSeqs == old(inFlightSeqs) - {n}
      ensures M.CompletionNums(completion) == old(M.CompletionNums(completion))
      ensures n <= appliedSeq || n in appliedAhead
    {
      inFlightSeqs := inFlightSeqs - {n};
      if n <= appliedSeq { return; }
      appliedAhead := appliedAhead + {n};
      var before := appliedSeq;
      PullWatermark();
      if appliedSeq == before { return; }
      MaybeFinishPendingCompletion();
    }

    /** The worker has given up on everything through a number: step over it. */
    method SkipLeaseGap(through: nat)
      requires Valid()
      modifies this`appliedSeq, this`appliedAhead, this`completion
      ensures Valid()
      ensures View() == M.SkipLeaseGap(old(View()), through)
      ensures held ==> appliedSeq >= through
    {
      if !held { return; }
      if through <= appliedSeq { return; }
      appliedSeq := through;
      var rest := appliedAhead;
      while rest != {}
        invariant rest <= old(appliedAhead) && appliedSeq == through && completion == old(completion)
        invariant forall s :: s in appliedAhead <==> s in old(appliedAhead) && (s > through || s in rest)
        decreases rest
      {
        var s :| s in rest;
        rest := rest - {s};
        if s <= through {
          appliedAhead := appliedAhead - {s};
        }
      }
      assert appliedAhead == M.AboveSeq(old(appliedAhead), through);
      PullWatermark();
      MaybeFinishPendingCompletion();
    }

    /**
     * The write at the head of the chain settled: record it, or make its number admissible again
     * unless a gap passed it.
     */
    method HeadSettled(ok: bool)
      requires Valid() && chain != [] && headLanded == ok
      modifies this
      ensures Valid()
      ensures View() == if ok then M.RecordHead(old(View())) else M.WriteFailed(old(View()))
      ensures var n := old(chain)[0].num;
              if ok then !M.Admits(View(), n) else M.Admits(View(), n) <==> n > appliedSeq
    {
      var n := chain[0].num;
      HeadIsApart(chain);
      chain := chain[1..];
      if ok {
        headLanded := false;
        MarkApplied(n);
      } else {
        inFlightSeqs := inFlightSeqs - {n};
      }
    }

    /**
     * The writes ahead of the completion are drained: it is parked exactly when the number above the
     * watermark, which is missing, lies below it.
     */
    method CompleteRun()
      requires Valid() && completion.Draining?
      modifies this`completion
      ensures Valid() && View() == M.CheckCompletion(old(View()))
      ensures completion.Parked? <==> appliedSeq + 1 < completion.frame.num
      ensures appliedSeq + 1 !in appliedAhead
      ensures completion.frame == old(completion).frame && (!completion.Parked? ==> completion.Writing?)
    {
      if appliedSeq + 1 >= completion.frame.num {
        completion := M.Writing(completion.frame);
      } else {
        completion := M.Parked(completion.frame);
      }
    }

    /** A completion under way is not parked, and goes on. */
    method SettleLease()
      modifies this`held, this`completion
      ensures View() == M.Settle(old(View()))
    {
      held := false;
      if completion.Parked? { completion := M.NoCompletion; }
    }

    /**
     * The completion's terminal state was written: record it, with everything below it applied or
     * skipped, then settle.
     */
    method FinishCompletion()
      requires Valid() && completion.Landed?
      modifies this
      ensures Valid() && View() == M.FinishCompletion(old(View()))
      ensures !held && appliedSeq >= old(completion).frame.num
    {
      MarkApplied(completion.frame.num);
      SettleLease();
      completion := M.NoCompletion;
    }

    /** The completion did not land: nothing is recorded, and its resend is admissible unless a gap passed it. */
    method CompletionRejected()
      requires Valid() && completion.Writing?
      modifies this`completion, this`inFlightSeqs
      ensures Valid() && View() == M.CompletionFailed(old(View()))
      ensures M.Admits(View(), old(completion).frame.num) <==> old(completion).frame.num > appliedSeq
    {
      inFlightSeqs := inFlightSeqs - {completion.frame.num};
      completion := M.NoCompletion;
    }
  }

  lemma OneMoreNum(frames: seq<Frame>, f: Frame)
    ensures Nums(frames + [f]) == Nums(frames) + {f.num}
  {
    assert forall g :: g in frames + [f] <==> g in frames || g == f;
  }

  lemma HeadIsApart(frames: seq<Frame>)
    requires frames != [] && DistinctNums(frames)
    ensures DistinctNums(frames[1..]) && Nums(frames[1..]) == Nums(frames) - {frames[0].num}
    ensures frames[0].num in Nums(frames)
  {
    assert frames == [frames[0]] + frames[1..];
    assert forall g :: g in frames <==> g == frames[0] || g in frames[1..];
    assert forall g :: g in frames[1..] ==> g.num != frames[0].num;
    assert frames[0] in frames;
  }
}
