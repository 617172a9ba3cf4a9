/**
 * The token refresh of the issue tracker's connection against serialized config writes. A refresh
 * is in the air while users paste keys, disconnect, grant access and edit the file. What may become
 * of a credential somebody installed is decided when it lands: manual keys, disconnects and adopted
 * edits are never overwritten; a grant can be exactly when it carries the very token an unfinished
 * refresh of this generation started from and the next operation runs before the reset.
 */
module TokenRefresh {

  const BACKOFF_BASE_MS: nat := 60000
  const BACKOFF_MAX_MS: nat := 900000

  /** Token 0 is "none stored". `lineage` names the installed credential this one is, or is a refresh of. */
  datatype Credential = Credential(apiKey: nat, refreshToken: nat, lineage: nat)

  /** An entry of the serialized config chain: a user's write, a look at the file, or a refresh response to store. */
  datatype Op =
    | UserWrite(installed: Credential)
    | Reload
    | StoreTokens(generation: nat, token: nat, granted: Credential)

  /** The one refresh in flight: waiting for the provider, or for its place in the chain. */
  datatype Refresh = Idle | Fetching(generation: nat, token: nat, lineage: nat) | Storing

  datatype Option<T> = None | Some(value: T)

  datatype Backoff = Backoff(attempts: nat, until: nat)

  /**
   * `current` is the live snapshot's credential and `file` the one on disk, `saving` is set while
   * the chain's head is being written, `pendingResets` counts user writes that landed and whose
   * connection reset has not run yet, `installed` names the last credential installed, `names` is
   * the last name given, and `failures` counts transient failures since the last success or reset.
   */
  datatype State = State(
    now: nat,
    current: Credential,
    file: Credential,
    generation: nat,
    ops: seq<Op>,
    saving: bool,
    pendingResets: nat,
    refresh: Refresh,
    backoff: Option<Backoff>,
    installed: nat,
    names: nat,
    failures: nat)

  datatype Step =
    | TimePasses(ms: nat)
    | ManualKey(apiKey: nat)
    | Disconnect
    | OauthGrant(apiKey: nat, refreshToken: nat)
    | FileChanges(apiKey: nat, refreshToken: nat)
    | WatcherFires
    | RefreshStarts
    | ResponseArrives(apiKey: nat, rotated: Option<nat>)
    | RequestFails(permanent: bool, retryAfter: nat)
    | OpRuns
    | SaveLands
    | SaveFails
    | ResetRuns

  function Pow2(k: nat): nat {
    if k == 0 then 1 else 2 * Pow2(k - 1)
  }

  function Min(a: nat, b: nat): nat { if a < b then a else b }
  function Max(a: nat, b: nat): nat { if a < b then b else a }

  /** How long the attempt after the k-th consecutive transient failure waits. */
  function WaitAfter(k: nat, retryAfter: nat): nat
    requires k > 0
  {
    Max(Min(BACKOFF_BASE_MS * Pow2(k - 1), BACKOFF_MAX_MS), retryAfter)
  }

  function ResetConnection(s: State): State {
    s.(generation := s.generation + 1, backoff := None, failures := 0)
  }

  /** A refresh ended in an error it may retry: discard it when stale, give up when permanent, else back off. */
  function RefreshFailed(s: State, generation: nat, permanent: bool, retryAfter: nat): State {
    if generation != s.generation || permanent then s.(refresh := Idle)
    else
      var attempts := (match s.backoff case Some(b) => b.attempts case None => 0) + 1;
      s.(refresh := Idle, backoff := Some(Backoff(attempts, s.now + WaitAfter(attempts, retryAfter))),
         failures := s.failures + 1)
  }

  predicate SameContent(a: Credential, b: Credential) {
    a.apiKey == b.apiKey && a.refreshToken == b.refreshToken
  }

  predicate Enabled(s: State, step: Step) {
    match step
    case RefreshStarts =>
      s.refresh.Idle? && s.current.refreshToken != 0 && (s.backoff.Some? ==> s.now >= s.backoff.value.until)
    case ResponseArrives(_, _) => s.refresh.Fetching?
    case RequestFails(_, _) => s.refresh.Fetching?
    case OpRuns => s.ops != [] && !s.saving
    case SaveLands => s.ops != [] && s.saving && !s.ops[0].Reload?
    case SaveFails => s.ops != [] && s.saving && !s.ops[0].Reload?
    case ResetRuns => s.pendingResets > 0
    case _ => true
  }

  /** The check made inside the chain: the credential is still the one the refresh started from. */
  predicate StillCurrent(s: State, op: Op)
    requires op.StoreTokens?
  {
    op.generation == s.generation && op.token == s.current.refreshToken
  }

  /** A user's change is queued under a new name. A manual key or a disconnect drops the refresh token. */
  function UserInstalls(s: State, apiKey: nat, refreshToken: nat): State {
    s.(names := s.names + 1, ops := s.ops + [UserWrite(Credential(apiKey, refreshToken, s.names + 1))])
  }

  /** The chain's head begins: a write starts, the file is read, a stale response is discarded. */
  function HeadRuns(s: State): State
    requires Enabled(s, OpRuns)
  {
    match s.ops[0]
    case UserWrite(_) => s.(saving := true)
    case Reload =>
      var s1 := s.(ops := s.ops[1..]);
      if SameContent(s.file, s.current) then s1
      else ResetConnection(s1.(current := s.file, installed := s.file.lineage))
    case StoreTokens(_, _, _) =>
      if StillCurrent(s, s.ops[0]) then s.(saving := true) else s.(ops := s.ops[1..], refresh := Idle)
  }

  function HeadSaved(s: State): State
    requires Enabled(s, SaveLands)
  {
    match s.ops[0]
    case StoreTokens(_, _, granted) =>
      s.(ops := s.ops[1..], saving := false, current := granted, file := granted, refresh := Idle, backoff := None,
          failures := 0)
    case UserWrite(c) =>
      s.(ops := s.ops[1..], saving := false, current := c, file := c, installed := c.lineage,
          pendingResets := s.pendingResets + 1)
  }

  function HeadFails(s: State): State
    requires Enabled(s, SaveFails)
  {
    var s1 := s.(ops := s.ops[1..], saving := false);
    if s.ops[0].StoreTokens? then RefreshFailed(s1, s.ops[0].generation, false, 0) else s1
  }

  function Apply(s: State, step: Step): State
    requires Enabled(s, step)
  {
    match step
    case TimePasses(ms) => s.(now := s.now + ms)
    case ManualKey(key) => UserInstalls(s, key, 0)
    case Disconnect => UserInstalls(s, 0, 0)
    case OauthGrant(key, token) => UserInstalls(s, key, token)
    case FileChanges(key, token) => s.(names := s.names + 1, file := Credential(key, token, s.names + 1))
    case WatcherFires => s.(ops := s.ops + [Reload])
    case RefreshStarts => s.(refresh := Fetching(s.generation, s.current.refreshToken, s.current.lineage))
    case ResponseArrives(key, rotated) =>
      // The token stays when the provider sends no new one.
      var token := match rotated case Some(t) => t case None => s.refresh.token;
      s.(refresh := Storing,
         ops := s.ops + [StoreTokens(s.refresh.generation, s.refresh.token, Credential(key, token, s.refresh.lineage))])
    case RequestFails(permanent, retryAfter) => RefreshFailed(s, s.refresh.generation, permanent, retryAfter)
    case OpRuns => HeadRuns(s)
    case SaveLands => HeadSaved(s)
    case SaveFails => HeadFails(s)
    case ResetRuns => ResetConnection(s.(pendingResets := s.pendingResets - 1))
  }

  /** A host starting with some stored credential. */
  function Started(current: Credential): State {
    State(0, current, current, 0, [], false, 0, Idle, None, current.lineage, current.lineage, 0)
  }

  predicate Possible(s: State, steps: seq<Step>)
    decreases |steps|
  {
    steps == [] || (Enabled(s, steps[0]) && Possible(Apply(s, steps[0]), steps[1..]))
  }

  function Exec(s: State, steps: seq<Step>): State
    requires Possible(s, steps)
    decreases |steps|
  {
    if steps == [] then s else Exec(Apply(s, steps[0]), steps[1..])
  }

  // ---------------------------------------------------------------- what holds of every run

  function StoreCount(ops: seq<Op>): nat {
    if ops == [] then 0 else (if ops[0].StoreTokens? then 1 else 0) + StoreCount(ops[1..])
  }

  /** One refresh at a time: an entry to store its response is queued exactly while it waits for that. */
  predicate SingleFlight(s: State) {
    StoreCount(s.ops) == (if s.refresh.Storing? then 1 else 0)
  }

  /** Refreshes start from a token and in a generation no later than now. */
  ghost predicate Stamped(s: State) {
    && (s.refresh.Fetching? ==> s.refresh.token != 0 && s.refresh.generation <= s.generation)
    && (forall op :: op in s.ops && op.StoreTokens? ==> op.token != 0 && op.generation <= s.generation)
    && (s.saving ==> s.ops != [] && !s.ops[0].Reload?)
  }

  /** The names of everything but the queued user writes. */
  predicate Taken(s: State, name: nat) {
    || name == s.installed || name == s.current.lineage || name == s.file.lineage
    || (s.refresh.Fetching? && name == s.refresh.lineage)
    || (exists op :: op in s.ops && op.StoreTokens? && name == op.granted.lineage)
  }

  /** Every name was given out, and a queued user write's is its own. */
  ghost predicate Named(s: State) {
    && (forall name: nat :: Taken(s, name) ==> name <= s.names)
    && (forall op :: op in s.ops && op.UserWrite? ==>
        op.installed.lineage <= s.names && !Taken(s, op.installed.lineage))
    && (forall i, j :: 0 <= i < j < |s.ops| && s.ops[i].UserWrite? && s.ops[j].UserWrite? ==>
          s.ops[i].installed.lineage != s.ops[j].installed.lineage)
  }

  /** The backoff counts the transient failures in a row. */
  predicate Counted(s: State) {
    match s.backoff case None => s.failures == 0 case Some(b) => b.attempts == s.failures > 0
  }

  ghost predicate Sound(s: State) {
    SingleFlight(s) && Stamped(s) && Named(s) && Counted(s)
  }

  lemma {:induction false} StoreCountAppend(ops: seq<Op>, op: Op)
    ensures StoreCount(ops + [op]) == StoreCount(ops) + (if op.StoreTokens? then 1 else 0)
  {
    if ops == [] {
      assert [op][1..] == [];
    } else {
      assert (ops + [op])[1..] == ops[1..] + [op];
      StoreCountAppend(ops[1..], op);
    }
  }

  /** The entry that stores the refresh's response, if one is queued. */
  function Response(ops: seq<Op>): Option<Op> {
    if ops == [] then None else if ops[0].StoreTokens? then Some(ops[0]) else Response(ops[1..])
  }

  lemma {:induction false} ResponseIsTheOnlyOne(ops: seq<Op>)
    ensures StoreCount(ops) == 0 ==> forall op :: op in ops ==> !op.StoreTokens?
    ensures StoreCount(ops) <= 1 ==> forall op :: op in ops && op.StoreTokens? ==> Response(ops) == Some(op)
    ensures Response(ops).Some? ==> Response(ops).value in ops && Response(ops).value.StoreTokens?
    decreases |ops|
  {
    if ops != [] {
      assert ops == [ops[0]] + ops[1..];
      ResponseIsTheOnlyOne(ops[1..]);
    }
  }

  /** Queuing one more entry. */
  lemma AppendKeepsSound(s: State, t: State, op: Op)
    requires Sound(s) && t.ops == s.ops + [op] && t == s.(ops := t.ops, names := t.names, refresh := t.refresh)
    requires op.UserWrite? ==> t.refresh == s.refresh && t.names == s.names + 1 == op.installed.lineage
    requires op.Reload? ==> t.refresh == s.refresh && t.names == s.names
    requires op.StoreTokens? ==> s.refresh.Fetching? && t.refresh.Storing? && t.names == s.names
    requires op.StoreTokens? && s.refresh.Fetching? ==>
              op.generation == s.refresh.generation && op.token == s.refresh.token
    requires op.StoreTokens? && s.refresh.Fetching? ==> op.granted.lineage == s.refresh.lineage
    ensures Sound(t)
  {
    StoreCountAppend(s.ops, op);
    assert forall o :: o in t.ops <==> o in s.ops || o == op;
    assert forall name: nat :: Taken(t, name) <==> Taken(s, name);
    assert forall i :: 0 <= i < |s.ops| ==> s.ops[i] in s.ops;
    if s.saving { assert t.ops[0] == s.ops[0]; }
  }

  /** Taking the head off, whatever else follows from it. */
  lemma PopKeepsSound(s: State, t: State)
    requires Sound(s) && s.ops != [] && t.ops == s.ops[1..] && !t.saving && Counted(t)
    requires t.names == s.names && t.generation >= s.generation
    requires s.ops[0].StoreTokens? ==> t.refresh.Idle?
    requires !s.ops[0].StoreTokens? ==> t.refresh == s.refresh
    requires forall name :: name in {t.installed, t.current.lineage, t.file.lineage} ==>
               Taken(s, name) || (s.ops[0].UserWrite? && name == s.ops[0].installed.lineage)
    ensures Sound(t)
  {
    assert s.ops == [s.ops[0]] + t.ops;
    assert forall o :: o in t.ops ==> o in s.ops;
    assert s.ops[0] in s.ops;
    ResponseIsTheOnlyOne(t.ops);
    forall name: nat | Taken(t, name)
      ensures Taken(s, name) || (s.ops[0].UserWrite? && name == s.ops[0].installed.lineage) {
      assert name in {t.installed, t.current.lineage, t.file.lineage} || Taken(s, name);
    }
    forall o | o in t.ops && o.UserWrite? ensures !Taken(t, o.installed.lineage) {
      var j :| 0 <= j < |t.ops| && t.ops[j] == o;
      assert s.ops[j + 1] == o;
    }
    assert forall i :: 0 <= i < |t.ops| ==> t.ops[i] == s.ops[i + 1];
  }

  lemma HeadRunsKeepsSound(s: State)
    requires Sound(s) && Enabled(s, OpRuns)
    ensures Sound(HeadRuns(s))
  {
    var t := HeadRuns(s);
    if t.ops == s.ops {
      assert forall name: nat :: Taken(t, name) <==> Taken(s, name);
    } else {
      PopKeepsSound(s, t);
    }
  }

  lemma HeadSettlesKeepsSound(s: State)
    requires Sound(s) && Enabled(s, SaveLands)
    ensures Sound(HeadSaved(s)) && Sound(HeadFails(s))
  {
    assert s.ops[0] in s.ops;
    PopKeepsSound(s, HeadSaved(s));
    PopKeepsSound(s, HeadFails(s));
  }

  /** Steps that leave the chain alone. */
  lemma QuietStepKeepsSound(s: State, t: State)
    requires Sound(s) && t.ops == s.ops && t.saving == s.saving && t.names >= s.names && t.generation >= s.generation
    requires t.installed == s.installed && t.current == s.current && Counted(t)
    requires t.file == s.file || (t.file.lineage == t.names > s.names)
    requires t.refresh.Storing? <==> s.refresh.Storing?
    requires t.refresh.Fetching? && t.refresh != s.refresh ==>
               t.refresh.token != 0 && t.refresh.generation <= t.generation && t.refresh.lineage == s.current.lineage
    ensures Sound(t)
  {
    assert forall name: nat :: Taken(t, name) ==> Taken(s, name) || name == t.names > s.names;
  }

  lemma StepKeepsSound(s: State, step: Step)
    requires Sound(s) && Enabled(s, step)
    ensures Sound(Apply(s, step))
  {
    var t := Apply(s, step);
    match step
    case ManualKey(_) => AppendKeepsSound(s, t, t.ops[|s.ops|]);
    case Disconnect => AppendKeepsSound(s, t, t.ops[|s.ops|]);
    case OauthGrant(_, _) => AppendKeepsSound(s, t, t.ops[|s.ops|]);
    case WatcherFires => AppendKeepsSound(s, t, t.ops[|s.ops|]);
    case ResponseArrives(_, _) => AppendKeepsSound(s, t, t.ops[|s.ops|]);
    case OpRuns => HeadRunsKeepsSound(s);
    case SaveLands => HeadSettlesKeepsSound(s);
    case SaveFails => HeadSettlesKeepsSound(s);
    case _ => QuietStepKeepsSound(s, t);
  }

  lemma {:induction false} ExecKeepsSound(s: State, steps: seq<Step>)
    requires Sound(s) && Possible(s, steps)
    ensures Sound(Exec(s, steps))
    decreases |steps|
  {
    if steps != [] {
      StepKeepsSound(s, steps[0]);
      ExecKeepsSound(Apply(s, steps[0]), steps[1..]);
    }
  }

  /** After every run there is at most one refresh, begun in no later generation, and names are unambiguous. */
  lemma ReachableSound(start: Credential, steps: seq<Step>)
    requires Possible(Started(start), steps)
    ensures Sound(Exec(Started(start), steps))
  {
    ExecKeepsSound(Started(start), steps);
  }

  // ---------------------------------------------------------------- a credential that stays

  /** A refresh that could still be stored descends from the credential last installed. */
  ghost predicate CarrierIsCurrent(s: State) {
    && (s.refresh.Fetching? && s.refresh.token == s.current.refreshToken && s.refresh.generation == s.generation ==>
          s.refresh.lineage == s.installed)
    && (forall op :: op in s.ops && op.StoreTokens? && StillCurrent(s, op) ==> op.granted.lineage == s.installed)
    && (s.saving && s.ops != [] && s.ops[0].StoreTokens? ==> s.ops[0].granted.lineage == s.installed)
  }

  /** Nothing on its way installs the name again. */
  ghost predicate Spent(s: State, name: nat) {
    && name <= s.names
    && (forall op :: op in s.ops && op.UserWrite? ==> op.installed.lineage != name)
    && (s.file.lineage != name || SameContent(s.file, s.current))
  }

  /** The named credential is the one installed, and stored or refreshed. */
  ghost predicate Held(s: State, name: nat) {
    s.installed == name == s.current.lineage && CarrierIsCurrent(s) && Spent(s, name)
  }

  /** Another credential was installed since. */
  ghost predicate Replaced(s: State, name: nat) {
    s.installed != name && Spent(s, name)
  }

  /** What remains of the chain, and that no second response is in it. */
  lemma TailFacts(s: State)
    requires SingleFlight(s) && s.ops != []
    ensures s.ops[0] in s.ops && (forall o :: o in s.ops[1..] ==> o in s.ops)
    ensures s.ops[0].StoreTokens? ==> forall o :: o in s.ops[1..] ==> !o.StoreTokens?
  {
    ResponseIsTheOnlyOne(s.ops[1..]);
  }

  lemma RunKeepsHeld(s: State, name: nat)
    requires Sound(s) && Enabled(s, OpRuns)
    ensures Held(s, name) ==> Held(HeadRuns(s), name) || Replaced(HeadRuns(s), name)
    ensures Replaced(s, name) ==> Replaced(HeadRuns(s), name)
  {
    TailFacts(s);
  }

  lemma SaveKeepsHeld(s: State, name: nat)
    requires Sound(s) && Enabled(s, SaveLands)
    ensures Held(s, name) ==> Held(HeadSaved(s), name) || Replaced(HeadSaved(s), name)
    ensures Replaced(s, name) ==> Replaced(HeadSaved(s), name)
  {
    TailFacts(s);
  }

  lemma FailureKeepsHeld(s: State, name: nat)
    requires Sound(s) && Enabled(s, SaveFails)
    ensures Held(s, name) ==> Held(HeadFails(s), name)
    ensures Replaced(s, name) ==> Replaced(HeadFails(s), name)
  {
    TailFacts(s);
  }

  lemma OtherStepKeepsHeld(s: State, step: Step, name: nat)
    requires Sound(s) && Enabled(s, step) && !step.OpRuns? && !step.SaveLands? && !step.SaveFails?
    ensures Held(s, name) ==> Held(Apply(s, step), name)
    ensures Replaced(s, name) ==> Replaced(Apply(s, step), name)
  {
    var t := Apply(s, step);
    if t.ops != s.ops {
      var op := t.ops[|s.ops|];
      assert t.ops == s.ops + [op];
      assert forall o :: o in t.ops <==> o in s.ops || o == op;
      if s.saving { assert t.ops[0] == s.ops[0]; }
    }
  }

  lemma {:induction false} HeldForGood(s: State, steps: seq<Step>, name: nat)
    requires Sound(s) && (Held(s, name) || Replaced(s, name)) && Possible(s, steps)
    ensures Held(Exec(s, steps), name) || Replaced(Exec(s, steps), name)
    decreases |steps|
  {
    if steps != [] {
      StepKeepsSound(s, steps[0]);
      match steps[0] {
        case OpRuns => RunKeepsHeld(s, name);
        case SaveLands => SaveKeepsHeld(s, name);
        case SaveFails => FailureKeepsHeld(s, name);
        case _ => OtherStepKeepsHeld(s, steps[0], name);
      }
      HeldForGood(Apply(s, steps[0]), steps[1..], name);
    }
  }

  // ---------------------------------------------------------------- a credential that is overwritten

  /** Some run from here ends with the named credential the last one installed, and another's tokens stored. */
  ghost predicate Overwritable(s: State, name: nat) {
    exists steps :: Possible(s, steps) && Exec(s, steps).installed == name && Exec(s, steps).current.lineage != name
  }

  /** An unfinished refresh of this generation started from the very token the credential carries. */
  ghost predicate Threatens(s: State, c: Credential) {
    || (s.refresh.Fetching? && s.refresh.token == c.refreshToken && s.refresh.generation == s.generation)
    || (exists op :: op in s.ops && op.StoreTokens? && op.token == c.refreshToken && op.generation == s.generation)
  }

  /** A queued response is about to replace the installed credential. */
  ghost predicate Exposed(s: State) {
    && !s.saving && SameContent(s.file, s.current)
    && Response(s.ops).Some? && Response(s.ops).value.StoreTokens?
    && StillCurrent(s, Response(s.ops).value) && Response(s.ops).value.granted.lineage != s.installed
  }

  lemma Unroll(s: State, step: Step, steps: seq<Step>)
    requires Enabled(s, step) && Possible(Apply(s, step), steps)
    ensures Possible(s, [step] + steps) && Exec(s, [step] + steps) == Exec(Apply(s, step), steps)
  {
    assert ([step] + steps)[1..] == steps;
  }

  /** Every write queued ahead of the response fails, the file has nothing new, and the response is stored. */
  lemma {:induction false} ResponseOverwrites(s: State) returns (steps: seq<Step>)
    requires Exposed(s)
    ensures Possible(s, steps)
    ensures Exec(s, steps).installed == s.installed && Exec(s, steps).current.lineage != s.installed
    decreases |s.ops|
  {
    var s1 := Apply(s, OpRuns);
    match s.ops[0] {
      case Reload =>
        var rest := ResponseOverwrites(s1);
        Unroll(s, OpRuns, rest);
        steps := [OpRuns] + rest;
      case UserWrite(_) =>
        var s2 := Apply(s1, SaveFails);
        var rest := ResponseOverwrites(s2);
        Unroll(s1, SaveFails, rest);
        Unroll(s, OpRuns, [SaveFails] + rest);
        steps := [OpRuns] + ([SaveFails] + rest);
      case StoreTokens(_, _, _) =>
        assert Possible(Apply(s1, SaveLands), []);
        Unroll(s1, SaveLands, []);
        Unroll(s, OpRuns, [SaveLands] + []);
        steps := [OpRuns] + ([SaveLands] + []);
    }
  }

  /** A response queued now goes behind everything else. */
  lemma {:induction false} ResponseAppended(ops: seq<Op>, op: Op)
    requires op.StoreTokens? && Response(ops).None?
    ensures Response(ops + [op]) == Some(op)
    decreases |ops|
  {
    if ops != [] {
      assert (ops + [op])[1..] == ops[1..] + [op];
      ResponseAppended(ops[1..], op);
    }
  }

  lemma {:induction false} NoStoreNoResponse(ops: seq<Op>)
    requires StoreCount(ops) == 0
    ensures Response(ops).None?
    decreases |ops|
  {
    if ops != [] { NoStoreNoResponse(ops[1..]); }
  }

  /** A landed credential an unfinished refresh threatens is overwritten on some run. */
  lemma ThreatenedIsOverwritable(s: State)
    requires Sound(s) && Enabled(s, SaveLands) && s.ops[0].UserWrite? && Threatens(s, s.ops[0].installed)
    ensures Overwritable(HeadSaved(s), s.ops[0].installed.lineage)
  {
    var t := HeadSaved(s);
    assert s.ops[0] in s.ops && s.ops == [s.ops[0]] + t.ops;
    HeadSettlesKeepsSound(s);
    if s.refresh.Fetching? && s.refresh.token == t.current.refreshToken && s.refresh.generation == s.generation {
      var u := Apply(t, ResponseArrives(0, None));
      NoStoreNoResponse(t.ops);
      ResponseAppended(t.ops, u.ops[|t.ops|]);
      var steps := ResponseOverwrites(u);
      Unroll(t, ResponseArrives(0, None), steps);
    } else {
      ResponseIsTheOnlyOne(t.ops);
      var op :| op in s.ops && op.StoreTokens? && op.token == t.current.refreshToken && op.generation == s.generation;
      assert op in t.ops;
      var steps := ResponseOverwrites(t);
    }
  }

  lemma UnthreatenedIsHeld(s: State)
    requires Sound(s) && Enabled(s, SaveLands) && s.ops[0].UserWrite? && !Threatens(s, s.ops[0].installed)
    ensures Held(HeadSaved(s), s.ops[0].installed.lineage)
  {
    var t := HeadSaved(s);
    assert s.ops[0] in s.ops && forall o :: o in t.ops ==> o in s.ops;
    forall o | o in t.ops && o.UserWrite? ensures o.installed.lineage != s.ops[0].installed.lineage {
      var j :| 0 <= j < |t.ops| && t.ops[j] == o;
      assert s.ops[j + 1] == o;
    }
  }

  /** Adopting an edit resets at once: every unfinished refresh is of an earlier generation. */
  lemma AdoptionIsHeld(s: State)
    requires Sound(s) && Enabled(s, OpRuns) && s.ops[0].Reload? && !SameContent(s.file, s.current)
    ensures Held(HeadRuns(s), s.file.lineage)
  {
    var t := HeadRuns(s);
    TailFacts(s);
    assert t.current == t.file == s.file && Taken(s, s.file.lineage);
  }

  lemma HeldIsNotOverwritable(s: State, name: nat)
    requires Sound(s) && Held(s, name)
    ensures !Overwritable(s, name)
  {
    forall steps | Possible(s, steps) ensures Exec(s, steps).installed == name ==>
        Exec(s, steps).current.lineage == name {
      HeldForGood(s, steps, name);
    }
  }

  // ---------------------------------------------------------------- the promises

  /**
   * In any reachable state, a user's write that lands, whatever wrote it and in whatever order resets
   * and operations run, can be overwritten by the unfinished refresh if and only if it carries the
   * very token that refresh started from and no reset has run since the refresh started.
   */
  lemma LandingIsOverwritableExactlyWhen(start: Credential, steps: seq<Step>)
    requires Possible(Started(start), steps)
    requires var s := Exec(Started(start), steps); Enabled(s, SaveLands) && s.ops[0].UserWrite?
    ensures var s := Exec(Started(start), steps);
            Overwritable(Apply(s, SaveLands), s.ops[0].installed.lineage) <==> Threatens(s, s.ops[0].installed)
  {
    ReachableSound(start, steps);
    var s := Exec(Started(start), steps);
    if Threatens(s, s.ops[0].installed) {
      ThreatenedIsOverwritable(s);
    } else {
      StepKeepsSound(s, SaveLands);
      UnthreatenedIsHeld(s);
      HeldIsNotOverwritable(Apply(s, SaveLands), s.ops[0].installed.lineage);
    }
  }

  /** A manual key or a disconnect, having dropped the refresh token, is never overwritten once it lands. */
  lemma ManualKeysAndDisconnectsSurvive(start: Credential, steps: seq<Step>)
    requires Possible(Started(start), steps)
    requires var s := Exec(Started(start), steps);
             Enabled(s, SaveLands) && s.ops[0].UserWrite? && s.ops[0].installed.refreshToken == 0
    ensures var s := Exec(Started(start), steps); !Overwritable(Apply(s, SaveLands), s.ops[0].installed.lineage)
  {
    ReachableSound(start, steps);
    LandingIsOverwritableExactlyWhen(start, steps);
  }

  /** A hand edit that is adopted is never overwritten: it resets the connection at once. */
  lemma AdoptedEditsSurvive(start: Credential, steps: seq<Step>)
    requires Possible(Started(start), steps)
    requires var s := Exec(Started(start), steps);
             Enabled(s, OpRuns) && s.ops[0].Reload? && !SameContent(s.file, s.current)
    ensures var s := Exec(Started(start), steps); !Overwritable(Apply(s, OpRuns), s.file.lineage)
  {
    ReachableSound(start, steps);
    var s := Exec(Started(start), steps);
    var t := Apply(s, OpRuns);
    StepKeepsSound(s, OpRuns);
    AdoptionIsHeld(s);
    HeldIsNotOverwritable(t, s.file.lineage);
  }

  /** The threat is no empty case: a grant that repeats the token being refreshed gets there in three steps. */
  lemma ThreatIsReachable() returns (steps: seq<Step>)
    ensures Possible(Started(Credential(1, 7, 0)), steps)
    ensures var s := Exec(Started(Credential(1, 7, 0)), steps);
            Enabled(s, SaveLands) && s.ops[0] == UserWrite(Credential(2, 7, 1)) && Threatens(s, s.ops[0].installed)
  {
    var s := Started(Credential(1, 7, 0));
    var s1 := Apply(s, RefreshStarts);
    var s2 := Apply(s1, OauthGrant(2, 7));
    assert s2.ops == [UserWrite(Credential(2, 7, 1))];
    assert Possible(Apply(s2, OpRuns), []);
    Unroll(s2, OpRuns, []);
    Unroll(s1, OauthGrant(2, 7), [OpRuns] + []);
    Unroll(s, RefreshStarts, [OauthGrant(2, 7)] + ([OpRuns] + []));
    steps := [RefreshStarts] + ([OauthGrant(2, 7)] + ([OpRuns] + []));
  }

  // ---------------------------------------------------------------- resets that run before the next operation

  /**
   * A write's caller resets the connection in the continuation of the write itself, ahead of the
   * chain's next operation; so no operation begins while a reset is due.
   */
  predicate Prompt(s: State, steps: seq<Step>)
    requires Possible(s, steps)
    decreases |steps|
  {
    steps == [] || ((steps[0].OpRuns? ==> s.pendingResets == 0) && Prompt(Apply(s, steps[0]), steps[1..]))
  }

  /** What is stored descends from what was installed; while a reset is due, nothing is being written. */
  ghost predicate Faithful(s: State) {
    && s.current.lineage == s.installed
    && (if s.pendingResets == 0 then CarrierIsCurrent(s) else !s.saving && s.pendingResets == 1)
  }

  lemma HeadKeepsFaithful(s: State, step: Step)
    requires Sound(s) && Faithful(s) && Enabled(s, step) && (step.OpRuns? || step.SaveLands? || step.SaveFails?)
    requires s.pendingResets == 0
    ensures Faithful(Apply(s, step))
  {
    TailFacts(s);
  }

  lemma StepKeepsFaithful(s: State, step: Step)
    requires Sound(s) && Faithful(s) && Enabled(s, step) && (step.OpRuns? ==> s.pendingResets == 0)
    ensures Faithful(Apply(s, step))
  {
    var t := Apply(s, step);
    if step.OpRuns? || step.SaveLands? || step.SaveFails? {
      HeadKeepsFaithful(s, step);
    } else if t.ops != s.ops {
      var op := t.ops[|s.ops|];
      assert t.ops == s.ops + [op];
      assert forall o :: o in t.ops <==> o in s.ops || o == op;
      if s.saving { assert t.ops[0] == s.ops[0]; }
    }
  }

  lemma {:induction false} ExecKeepsFaithful(s: State, steps: seq<Step>)
    requires Sound(s) && Faithful(s) && Possible(s, steps) && Prompt(s, steps)
    ensures Faithful(Exec(s, steps))
    decreases |steps|
  {
    if steps != [] {
      StepKeepsSound(s, steps[0]);
      StepKeepsFaithful(s, steps[0]);
      ExecKeepsFaithful(Apply(s, steps[0]), steps[1..]);
    }
  }

  /**
   * When resets run before the chain's next operation, every change survives: after every run the
   * stored credential is the one last installed or a refresh of it, whatever keys, disconnects,
   * grants, edits and failed writes came in between.
   */
  lemma InstalledCredentialSurvives(start: Credential, steps: seq<Step>)
    requires Possible(Started(start), steps) && Prompt(Started(start), steps)
    ensures var s := Exec(Started(start), steps); s.current.lineage == s.installed
  {
    ExecKeepsFaithful(Started(start), steps);
  }

  // ---------------------------------------------------------------- backing off

  /** Doubling from the base, the wait reaches its cap at the fifth consecutive failure and stays there. */
  lemma {:induction false} WaitDoublesUpToTheCap(k: nat)
    requires k > 0
    ensures WaitAfter(1, 0) == 60000 && (k <= 3 ==> WaitAfter(k + 1, 0) == 2 * WaitAfter(k, 0))
    ensures k >= 5 ==> WaitAfter(k, 0) == 900000
    ensures 60000 <= WaitAfter(k, 0) <= WaitAfter(k + 1, 0)
    ensures forall after: nat :: WaitAfter(k, after) == if after > WaitAfter(k, 0) then after else WaitAfter(k, 0)
    decreases k
  {
    assert Pow2(0) == 1 && Pow2(1) == 2 && Pow2(2) == 4 && Pow2(3) == 8 && Pow2(4) == 16;
    if k > 5 {
      WaitDoublesUpToTheCap(k - 1);
      PowersGrow(k - 1);
    }
  }

  lemma {:induction false} PowersGrow(k: nat)
    requires k >= 4
    ensures Pow2(k) >= 16
    decreases k
  {
    if k > 4 { PowersGrow(k - 1); } else { assert Pow2(1) == 2 && Pow2(2) == 4 && Pow2(3) == 8; }
  }

  /**
   * After the k-th transient failure in a row, no attempt reaches the network for exactly the wait
   * that k calls for, unless the connection is reset in between.
   */
  lemma FailureArmsTheBackoff(start: Credential, steps: seq<Step>, retryAfter: nat)
    requires Possible(Started(start), steps)
    requires var s := Exec(Started(start), steps); s.refresh.Fetching? && s.refresh.generation == s.generation
    ensures var s := Exec(Started(start), steps); var t := Apply(s, RequestFails(false, retryAfter));
            && t.failures == s.failures + 1
            && forall ms: nat :: Enabled(Apply(t, TimePasses(ms)), RefreshStarts) <==>
                 t.current.refreshToken != 0 && ms >= WaitAfter(t.failures, retryAfter)
  {
    ReachableSound(start, steps);
  }

  /** A failed save of granted tokens counts as one more transient failure, and is waited out alike. */
  lemma FailedSaveArmsTheBackoff(start: Credential, steps: seq<Step>)
    requires Possible(Started(start), steps)
    requires var s := Exec(Started(start), steps);
             Enabled(s, SaveFails) && s.ops[0].StoreTokens? && s.ops[0].generation == s.generation
    ensures var s := Exec(Started(start), steps); var t := Apply(s, SaveFails);
            && t.failures == s.failures + 1 && t.current == s.current
            && forall ms: nat :: Enabled(Apply(t, TimePasses(ms)), RefreshStarts) <==>
                 t.current.refreshToken != 0 && ms >= WaitAfter(t.failures, 0)
  {
    ReachableSound(start, steps);
  }
}
