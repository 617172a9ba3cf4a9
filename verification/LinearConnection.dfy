/**
 * The orchestrator's stored tracker credential and its refresh, updated in place. The object's
 * invariant says that what is stored is the credential last installed, or a refresh of it.
 */
module LinearConnection {
  import T = TokenRefresh

  /**
   * The snapshot's credential and the file's, the connection's generation and backoff, the refresh in
   * flight, the config chain.
   */
  class Orchestrator {
    var current: T.Credential
    var file: T.Credential
    var linearGeneration: nat
    var linearRefreshBackoff: T.Option<T.Backoff>
    var linearRefresh: T.Refresh
    var chain: seq<T.Op>
    var saving: bool
    var resetDue: nat
    var now: nat
    /**
     * The credential last installed, the last name given, and the transient failures since the last
     * success or reset.
     */
    ghost var installed: nat
    ghost var names: nat
    ghost var failures: nat

    ghost function View(): T.State
      reads this
    {
      T.State(now, current, file, linearGeneration, chain, saving, resetDue, linearRefresh, linearRefreshBackoff,
              installed, names, failures)
    }

    ghost predicate Valid()
      reads this
    {
      && T.Sound(View()) && T.Faithful(View())
      && current.lineage == installed
    }

    constructor (stored: T.Credential)
      ensures Valid() && View() == T.Started(stored)
    {
      now, current, file, linearGeneration, chain, saving, resetDue := 0, stored, stored, 0, [], false, 0;
      linearRefresh, linearRefreshBackoff := T.Idle, T.None;
      installed, names, failures := stored.lineage, stored.lineage, 0;
    }

    /** What every method relies on: a step of the model keeps the invariant. */
    twostate lemma Stepped(step: T.Step)
      requires old(Valid()) && old(T.Enabled(View(), step)) && (step.OpRuns? ==> old(resetDue) == 0)
      requires View() == T.Apply(old(View()), step)
      ensures Valid()
    {
      T.StepKeepsSound(old(View()), step);
      T.StepKeepsFaithful(old(View()), step);
    }

    /** A reset is due: run it. No refresh begun before can be stored any more. */
    method ResetLinearConnection()
      requires Valid() && resetDue > 0
      modifies this
      ensures Valid() && resetDue == 0 && current == old(current) && chain == old(chain)
      ensures View() == T.Apply(old(View()), T.ResetRuns)
      ensures forall op :: op in chain && op.StoreTokens? ==> !T.StillCurrent(View(), op)
      ensures linearRefresh.Fetching? ==> linearRefresh.generation != linearGeneration
    {
      resetDue := resetDue - 1;
      linearGeneration := linearGeneration + 1;
      linearRefreshBackoff, failures := T.None, 0;
      Stepped(T.ResetRuns);
    }

    /** Start a refresh, or join the one in flight, or decline: backing off, or nothing to refresh with. */
    method RefreshLinear() returns (started: bool)
      requires Valid()
      modifies this`linearRefresh
      ensures Valid()
      ensures started <==> old(T.Enabled(View(), T.RefreshStarts))
      ensures View() == if started then T.Apply(old(View()), T.RefreshStarts) else old(View())
      ensures started ==> T.StoreCount(chain) == 0
      ensures started ==> linearRefresh == T.Fetching(linearGeneration, current.refreshToken, installed)
    {
      if !linearRefresh.Idle? { return false; }
      if linearRefreshBackoff.Some? && now < linearRefreshBackoff.value.until { return false; }
      if current.refreshToken == 0 { return false; }
      linearRefresh := T.Fetching(linearGeneration, current.refreshToken, current.lineage);
      Stepped(T.RefreshStarts);
      return true;
    }

    /**
     * The provider refused: a later attempt waits if the failure is transient and this generation's,
     * and the credential stays.
     */
    method RequestFails(permanent: bool, retryAfter: nat)
      requires Valid() && linearRefresh.Fetching?
      modifies this`linearRefresh, this`linearRefreshBackoff, this`failures
      ensures Valid() && linearRefresh.Idle?
      ensures View() == T.Apply(old(View()), T.RequestFails(permanent, retryAfter))
      ensures permanent || old(linearRefresh.generation) != linearGeneration ==>
                linearRefreshBackoff == old(linearRefreshBackoff)
      ensures !permanent && old(linearRefresh.generation) == linearGeneration ==>
                && failures == old(failures) + 1
                && linearRefreshBackoff == T.Some(T.Backoff(failures, now + T.WaitAfter(failures, retryAfter)))
    {
      ArmBackoff(linearRefresh.generation, permanent, retryAfter);
      Stepped(T.RequestFails(permanent, retryAfter));
    }

    method ArmBackoff(generation: nat, permanent: bool, retryAfter: nat)
      modifies this`linearRefresh, this`linearRefreshBackoff, this`failures
      ensures View() == T.RefreshFailed(old(View()), generation, permanent, retryAfter)
    {
      linearRefresh := T.Idle;
      if generation != linearGeneration || permanent { return; }
      var attempts := (if linearRefreshBackoff.Some? then linearRefreshBackoff.value.attempts else 0) + 1;
      linearRefreshBackoff := T.Some(T.Backoff(attempts, now + T.WaitAfter(attempts, retryAfter)));
      failures := failures + 1;
    }

    /** The provider answered: queue the write that stores what it granted, behind everything queued already. */
    method TokensArrive(apiKey: nat, rotated: T.Option<nat>)
      requires Valid() && linearRefresh.Fetching?
      modifies this`chain, this`linearRefresh
      ensures Valid() && linearRefresh.Storing?
      ensures View() == T.Apply(old(View()), T.ResponseArrives(apiKey, rotated))
      ensures |chain| == |old(chain)| + 1 && chain[..|old(chain)|] == old(chain)
      ensures chain[|old(chain)|].StoreTokens? && T.Response(chain) == T.Some(chain[|old(chain)|])
      ensures chain[|old(chain)|].granted
              == T.Credential(apiKey, if rotated.Some? then rotated.value else old(linearRefresh).token,
                              old(linearRefresh).lineage)
    {
      var token := if rotated.Some? then rotated.value else linearRefresh.token;
      var op := T.StoreTokens(linearRefresh.generation, linearRefresh.token, T.Credential(apiKey, token,
          linearRefresh.lineage));
      T.NoStoreNoResponse(chain);
      T.ResponseAppended(chain, op);
      chain := chain + [op];
      linearRefresh := T.Storing;
      Stepped(T.ResponseArrives(apiKey, rotated));
    }

    /**
     * The chain reaches its next operation, no reset being due. The credential changes only by
     * adopting an edited file, which resets the connection; a response is written only if neither
     * token nor generation has moved, and only one that descends from what is installed.
     */
    method RunNextOp()
      requires Valid() && T.Enabled(View(), T.OpRuns) && resetDue == 0
      modifies this
      ensures Valid() && View() == T.Apply(old(View()), T.OpRuns)
      ensures current != old(current) ==>
                old(chain)[0].Reload? && current == file == old(file) && linearGeneration == old(linearGeneration) + 1
      ensures old(chain)[0].StoreTokens? ==>
                (saving <==>
                   old(chain)[0].generation == linearGeneration && old(chain)[0].token == current.refreshToken)
      ensures old(chain)[0].StoreTokens? && !saving ==> linearRefresh.Idle? && T.Response(chain).None?
      ensures saving ==> chain == old(chain) && (chain[0].StoreTokens? ==> chain[0].granted.lineage == installed)
    {
      T.TailFacts(View());
      BeginHead();
      Stepped(T.OpRuns);
      T.ResponseIsTheOnlyOne(chain);
    }

    method BeginHead()
      requires T.Enabled(View(), T.OpRuns)
      modifies this
      ensures View() == T.HeadRuns(old(View()))
    {
      match chain[0] {
        case UserWrite(_) => saving := true;
        case Reload =>
          chain := chain[1..];
          if file.apiKey != current.apiKey || file.refreshToken != current.refreshToken {
            current, installed := file, file.lineage;
            linearGeneration := linearGeneration + 1;
            linearRefreshBackoff, failures := T.None, 0;
          }
        case StoreTokens(generation, token, _) =>
          if generation != linearGeneration || current.refreshToken != token {
            chain, linearRefresh := chain[1..], T.Idle;
          } else {
            saving := true;
          }
      }
    }

    /** The write under way landed: the snapshot is swapped for what was written, and so is the file. */
    method SaveLanded()
      requires Valid() && T.Enabled(View(), T.SaveLands)
      modifies this
      ensures Valid() && current == file && !saving && chain == old(chain)[1..]
      ensures View() == T.Apply(old(View()), T.SaveLands)
      ensures old(chain)[0].StoreTokens? ==>
                installed == old(installed) && linearRefresh.Idle? && linearRefreshBackoff.None?
      ensures old(chain)[0].UserWrite? ==> current == old(chain)[0].installed && resetDue == 1
    {
      match chain[0] {
        case StoreTokens(_, _, granted) =>
          current, file, linearRefresh, linearRefreshBackoff, failures := granted, granted, T.Idle, T.None, 0;
        case UserWrite(c) =>
          current, file, installed, resetDue := c, c, c.lineage, resetDue + 1;
      }
      chain, saving := chain[1..], false;
      Stepped(T.SaveLands);
    }

    /** The write under way failed: the snapshot and the file stay, and a refresh counts it as a transient failure. */
    method SaveFailed()
      requires Valid() && T.Enabled(View(), T.SaveFails)
      modifies this
      ensures Valid() && current == old(current) && file == old(file) && !saving && chain == old(chain)[1..]
      ensures View() == T.Apply(old(View()), T.SaveFails)
      ensures old(chain)[0].UserWrite? ==>
                linearRefreshBackoff == old(linearRefreshBackoff) && linearRefresh == old(linearRefresh)
    {
      var op := chain[0];
      chain, saving := chain[1..], false;
      if op.StoreTokens? { ArmBackoff(op.generation, false, 0); }
      Stepped(T.SaveFails);
    }
  }
}
