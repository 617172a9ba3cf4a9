/** What a write of the tracker's credential stores, in full: the response's tokens, or what the user asked for. */
module TokenWrites {
  import opened TokenRefresh

  lemma {:induction false} RefreshStaysBegun(s: State, steps: seq<Step>, begun: Refresh)
    requires Possible(s, steps) && (s.refresh.Fetching? ==> s.refresh == begun)
    requires forall i :: 0 <= i < |steps| ==> !steps[i].RefreshStarts?
    ensures Exec(s, steps).refresh.Fetching? ==> Exec(s, steps).refresh == begun
    decreases |steps|
  {
    if steps != [] {
      assert !steps[0].RefreshStarts?;
      assert forall i :: 0 <= i < |steps[1..]| ==> steps[1..][i] == steps[i + 1];
      RefreshStaysBegun(Apply(s, steps[0]), steps[1..], begun);
    }
  }

  /** No response but this one waits to be stored. */
  ghost predicate OnlyResponse(s: State, op: Op) {
    forall o :: o in s.ops && o.StoreTokens? ==> o == op
  }

  lemma StepKeepsOnlyResponse(s: State, step: Step, op: Op)
    requires OnlyResponse(s, op) && Enabled(s, step) && !step.ResponseArrives?
    ensures OnlyResponse(Apply(s, step), op)
  {
    var t := Apply(s, step);
    forall o | o in t.ops && o.StoreTokens? ensures o in s.ops {
      if |t.ops| > |s.ops| { assert t.ops == s.ops + [t.ops[|s.ops|]]; }
    }
  }

  lemma {:induction false} StaysOnlyResponse(s: State, steps: seq<Step>, op: Op)
    requires OnlyResponse(s, op) && Possible(s, steps)
    requires forall i :: 0 <= i < |steps| ==> !steps[i].ResponseArrives?
    ensures OnlyResponse(Exec(s, steps), op)
    decreases |steps|
  {
    if steps != [] {
      assert !steps[0].ResponseArrives?;
      assert forall i :: 0 <= i < |steps[1..]| ==> steps[1..][i] == steps[i + 1];
      StepKeepsOnlyResponse(s, steps[0], op);
      StaysOnlyResponse(Apply(s, steps[0]), steps[1..], op);
    }
  }

  /**
   * A refresh starts, its response arrives, and sooner or later the save lands, whatever else happens
   * in between: then snapshot and file have the access key that was granted and the refresh token
   * that came with it, or, when none did, the one the refresh started from.
   */
  lemma RefreshStoresWhatWasGranted(start: Credential, before: seq<Step>, asked: seq<Step>, apiKey: nat,
      rotated: Option<nat>, after: seq<Step>)
    requires Possible(Started(start), before) && Enabled(Exec(Started(start), before), RefreshStarts)
    requires var t := Apply(Exec(Started(start), before), RefreshStarts);
             Possible(t, asked) && Enabled(Exec(t, asked), ResponseArrives(apiKey, rotated))
    requires forall i :: 0 <= i < |asked| ==> !asked[i].RefreshStarts?
    requires var t := Apply(Exec(Started(start), before), RefreshStarts);
             var v := Apply(Exec(t, asked), ResponseArrives(apiKey, rotated));
             Possible(v, after) && Enabled(Exec(v, after), SaveLands) && Exec(v, after).ops[0].StoreTokens?
    requires forall i :: 0 <= i < |after| ==> !after[i].ResponseArrives?
    ensures var s := Exec(Started(start), before);
            var v := Apply(Exec(Apply(s, RefreshStarts), asked), ResponseArrives(apiKey, rotated));
            var stored := Apply(Exec(v, after), SaveLands);
            stored.current == stored.file
            == Credential(apiKey, if rotated.Some? then rotated.value else s.current.refreshToken, s.current.lineage)
  {
    var s := Exec(Started(start), before);
    var t := Apply(s, RefreshStarts);
    RefreshStaysBegun(t, asked, t.refresh);
    ReachableSound(start, before);
    StepKeepsSound(s, RefreshStarts);
    ExecKeepsSound(t, asked);
    ResponseIsStored(Exec(t, asked), apiKey, rotated, after);
  }

  lemma ResponseIsStored(u: State, apiKey: nat, rotated: Option<nat>, after: seq<Step>)
    requires Sound(u) && Enabled(u, ResponseArrives(apiKey, rotated))
    requires var v := Apply(u, ResponseArrives(apiKey, rotated));
             Possible(v, after) && Enabled(Exec(v, after), SaveLands) && Exec(v, after).ops[0].StoreTokens?
    requires forall i :: 0 <= i < |after| ==> !after[i].ResponseArrives?
    ensures var w := Apply(Exec(Apply(u, ResponseArrives(apiKey, rotated)), after), SaveLands);
            w.current == w.file
            == Credential(apiKey, if rotated.Some? then rotated.value else u.refresh.token, u.refresh.lineage)
  {
    var v := Apply(u, ResponseArrives(apiKey, rotated));
    var op := v.ops[|u.ops|];
    assert v.ops == u.ops + [op];
    ResponseIsTheOnlyOne(u.ops);
    StaysOnlyResponse(v, after, op);
    assert Exec(v, after).ops[0] in Exec(v, after).ops;
  }

  // ---------------------------------------------------------------- what the user asked for

  /** A manual key and a disconnect leave no refresh token behind. */
  function AskedFor(step: Step, name: nat): Credential
    requires step.ManualKey? || step.Disconnect? || step.OauthGrant?
  {
    match step
    case ManualKey(apiKey) => Credential(apiKey, 0, name)
    case Disconnect => Credential(0, 0, name)
    case OauthGrant(apiKey, token) => Credential(apiKey, token, name)
  }

  /** The queued write of this name is this credential's. */
  ghost predicate OnlyWrite(s: State, c: Credential) {
    && c.lineage <= s.names
    && (forall o :: o in s.ops && o.UserWrite? && o.installed.lineage == c.lineage ==> o.installed == c)
  }

  lemma StepKeepsOnlyWrite(s: State, step: Step, c: Credential)
    requires OnlyWrite(s, c) && Enabled(s, step)
    ensures OnlyWrite(Apply(s, step), c)
  {
    var t := Apply(s, step);
    forall o | o in t.ops && o.UserWrite? && o.installed.lineage == c.lineage ensures o in s.ops {
      if |t.ops| > |s.ops| { assert t.ops == s.ops + [t.ops[|s.ops|]]; }
    }
  }

  lemma {:induction false} StaysOnlyWrite(s: State, steps: seq<Step>, c: Credential)
    requires OnlyWrite(s, c) && Possible(s, steps)
    ensures OnlyWrite(Exec(s, steps), c)
    decreases |steps|
  {
    if steps != [] {
      StepKeepsOnlyWrite(s, steps[0], c);
      StaysOnlyWrite(Apply(s, steps[0]), steps[1..], c);
    }
  }

  /** Whatever happens meanwhile, once a user's change lands, snapshot and file are what was asked for. */
  lemma ChangeStoresWhatWasAsked(start: Credential, before: seq<Step>, step: Step, after: seq<Step>)
    requires step.ManualKey? || step.Disconnect? || step.OauthGrant?
    requires Possible(Started(start), before) && Possible(Apply(Exec(Started(start), before), step), after)
    requires var u := Exec(Apply(Exec(Started(start), before), step), after);
             Enabled(u, SaveLands) && u.ops[0].UserWrite?
             && u.ops[0].installed.lineage == Exec(Started(start), before).names + 1
    ensures var s := Exec(Started(start), before); var t := Apply(Exec(Apply(s, step), after), SaveLands);
            t.current == t.file == AskedFor(step, s.names + 1)
  {
    var s := Exec(Started(start), before);
    var t := Apply(s, step);
    ReachableSound(start, before);
    assert t.ops == s.ops + [t.ops[|s.ops|]];
    assert OnlyWrite(t, AskedFor(step, s.names + 1));
    StaysOnlyWrite(t, after, AskedFor(step, s.names + 1));
    var u := Exec(t, after);
    assert u.ops[0] in u.ops;
  }

  /**
   * The snapshot's credential changes only when a write lands or an edited file is looked at, and the
   * look leaves it with the file's content; the file changes only when a write lands or by an edit.
   */
  lemma OnlyLandingsAndEditsChangeIt(s: State, step: Step)
    requires Enabled(s, step)
    ensures var t := Apply(s, step);
            && (t.current != s.current ==> step.SaveLands? || (step.OpRuns? && s.ops[0].Reload?))
            && (t.file != s.file ==> step.SaveLands? || step.FileChanges?)
            && (step.OpRuns? && s.ops[0].Reload? ==>
                  t.current.apiKey == s.file.apiKey && t.current.refreshToken == s.file.refreshToken)
  {
  }

  /** An edit of the file, looked at with nothing queued ahead, is adopted as it was written. */
  lemma EditIsAdopted(s: State, apiKey: nat, refreshToken: nat) returns (t: State)
    requires s.ops == [] && !s.saving
    ensures var looked := Apply(Apply(s, FileChanges(apiKey, refreshToken)), WatcherFires);
            Enabled(looked, OpRuns) && t == Apply(looked, OpRuns)
    ensures t.current.apiKey == t.file.apiKey == apiKey && t.current.refreshToken == t.file.refreshToken == refreshToken
    ensures t.ops == []
  {
    t := Apply(Apply(Apply(s, FileChanges(apiKey, refreshToken)), WatcherFires), OpRuns);
  }

  // ---------------------------------------------------------------- when there is nothing to wait for

  /** The connection is reset: a user's change is followed up, or an edit adopted; or a response was stored. */
  predicate StartsAfresh(s: State, step: Step)
    requires Enabled(s, step)
  {
    match step
    case ResetRuns => true
    case OpRuns =>
      s.ops[0].Reload? && (s.file.apiKey != s.current.apiKey || s.file.refreshToken != s.current.refreshToken)
    case SaveLands => s.ops[0].StoreTokens?
    case _ => false
  }

  /**
   * After a reset or a success no attempt waits. A refusal that is final, or that is of a refresh begun
   * before the last reset, makes none wait longer.
   */
  lemma NothingToWaitFor(start: Credential, steps: seq<Step>, step: Step)
    requires Possible(Started(start), steps) && Enabled(Exec(Started(start), steps), step)
    ensures var s := Exec(Started(start), steps); var t := Apply(s, step);
            && (StartsAfresh(s, step) ==>
                  t.failures == 0 && (Enabled(t, RefreshStarts) <==> t.refresh.Idle? && t.current.refreshToken != 0))
            && (step.RequestFails? && (step.permanent || s.refresh.generation != s.generation) ==>
                  t.backoff == s.backoff && t.refresh.Idle?)
  {
    ReachableSound(start, steps);
  }
}
