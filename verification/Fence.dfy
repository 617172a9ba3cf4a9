/**
 * The deadline fence around a lease, in time. The host writes a lease off at its own deadline and
 * may give the run away; the worker stops by itself at the last deadline it was told. Because a
 * disconnect pulls the host's deadline in without the worker knowing, the two may overlap; what
 * holds over every run is that the overlap is bounded, and the bound is exact. When a pull-in lets
 * them overlap at all is decided at the pull-in.
 *
 * Time is in milliseconds on a clock both sides share; the fleet's two intervals do not change.
 */
module Fence {

  /** How often each side looks at its deadlines. */
  const LEASE_DEADLINE_SWEEP_MS: nat := 5000

  /** `config.fleet`: the heartbeat timeout and the reconnect grace. */
  datatype Fleet = Fleet(heartbeatTimeout: nat, reconnectGrace: nat)

  datatype Option<T> = None | Some(value: T)

  /**
   * `told` is every deadline the host ever put in a dispatch or a lease-ack; any of them may reach
   * the worker at any later time. `deadline` is the host's, `workerDeadline` the worker's own while
   * it claims the lease, `grace` the pending disconnect timer, `expired` when the host gave the
   * lease up, `nextSweep` when the worker next compares its deadline with the clock.
   */
  datatype State = State(
    now: nat,
    held: bool,
    connected: bool,
    deadline: nat,
    grace: Option<nat>,
    expired: Option<nat>,
    told: set<nat>,
    workerDeadline: Option<nat>,
    nextSweep: nat)

  datatype Step =
    | TimePasses(ms: nat)
    | FrameRenews
    | HostTells
    | WorkerHears(deadline: nat)
    | Disconnects
    | Reconnects
    | HostRestarts
    | HostSweeps
    | GraceEnds
    | WorkerSweeps

  function FullBudget(f: Fleet, now: nat): nat {
    now + f.heartbeatTimeout + f.reconnectGrace
  }

  /**
   * The worker has just been handed the dispatch over a live connection, with the deadline the
   * lease was created at; frames since may have renewed the host's own.
   */
  ghost predicate JustDispatched(f: Fleet, s: State) {
    && s.held && s.connected && s.grace.None? && s.expired.None?
    && s.workerDeadline.Some? && s.told == {s.workerDeadline.value}
    && s.workerDeadline.value <= s.deadline <= FullBudget(f, s.now)
    && s.now <= s.nextSweep <= s.now + LEASE_DEADLINE_SWEEP_MS
  }

  predicate Enabled(s: State, step: Step) {
    match step
    case TimePasses(ms) => s.now + ms <= s.nextSweep
    case FrameRenews => s.held && s.connected
    case HostTells => s.held && s.connected
    case WorkerHears(d) => d in s.told && s.workerDeadline.Some?
    case Disconnects => s.connected
    case Reconnects => !s.connected
    case HostRestarts => true
    case HostSweeps => s.held && s.deadline <= s.now
    case GraceEnds => s.grace.Some? && s.grace.value <= s.now
    case WorkerSweeps => true
  }

  function Expire(s: State): State {
    if s.held then s.(held := false, expired := Some(s.now)) else s
  }

  function Apply(f: Fleet, s: State, step: Step): State
    requires Enabled(s, step)
  {
    match step
    case TimePasses(ms) => s.(now := s.now + ms)
    case FrameRenews => s.(deadline := FullBudget(f, s.now))
    case HostTells => s.(deadline := FullBudget(f, s.now), told := s.told + {FullBudget(f, s.now)})
    case WorkerHears(d) => s.(workerDeadline := Some(d))
    case Disconnects =>
      if s.held then s.(connected := false, deadline := s.now + f.reconnectGrace,
          grace := Some(s.now + f.reconnectGrace))
      else s.(connected := false)
    case Reconnects => s.(connected := true, grace := None)
    case HostRestarts =>
      if s.held then s.(connected := false, grace := None, deadline := s.now + f.reconnectGrace)
      else s.(connected := false, grace := None)
    case HostSweeps => Expire(s)
    case GraceEnds => Expire(s.(grace := None))
    case WorkerSweeps =>
      s.(nextSweep := s.now + LEASE_DEADLINE_SWEEP_MS,
         workerDeadline := if s.workerDeadline.Some? && s.workerDeadline.value <= s.now then None else s.workerDeadline)
  }

  predicate Possible(f: Fleet, s: State, steps: seq<Step>)
    decreases |steps|
  {
    steps == [] || (Enabled(s, steps[0]) && Possible(f, Apply(f, s, steps[0]), steps[1..]))
  }

  function Exec(f: Fleet, s: State, steps: seq<Step>): State
    requires Possible(f, s, steps)
    decreases |steps|
  {
    if steps == [] then s else Exec(f, Apply(f, s, steps[0]), steps[1..])
  }

  /**
   * No deadline the host ever told lies further ahead than a full budget from now, nor than the host's
   * own plus a heartbeat timeout.
   */
  ghost predicate Inv(f: Fleet, s: State) {
    && (forall d :: d in s.told ==> d <= FullBudget(f, s.now))
    && (s.held ==> forall d :: d in s.told ==> d <= s.deadline + f.heartbeatTimeout)
    && (s.held <==> s.expired.None?)
    && (s.grace.Some? && s.held ==> !s.connected && s.deadline == s.grace.value)
    && (s.expired.Some? ==> s.expired.value <= s.now && forall d :: d in s.told ==>
        d <= s.expired.value + f.heartbeatTimeout)
    && (s.workerDeadline.Some? ==> s.workerDeadline.value in s.told)
    && s.nextSweep <= s.now + LEASE_DEADLINE_SWEEP_MS && s.now <= s.nextSweep
    && (s.workerDeadline.Some? && s.expired.Some? ==>
          s.nextSweep <= s.expired.value + f.heartbeatTimeout + LEASE_DEADLINE_SWEEP_MS)
  }

  lemma StepKeepsInv(f: Fleet, s: State, step: Step)
    requires Inv(f, s) && Enabled(s, step)
    ensures Inv(f, Apply(f, s, step))
  {
  }

  lemma {:induction false} ExecKeepsInv(f: Fleet, s: State, steps: seq<Step>)
    requires Inv(f, s) && Possible(f, s, steps)
    ensures Inv(f, Exec(f, s, steps))
    decreases |steps|
  {
    if steps != [] {
      StepKeepsInv(f, s, steps[0]);
      ExecKeepsInv(f, Apply(f, s, steps[0]), steps[1..]);
    }
  }

  /**
   * Bounded overlap, over every sequence of renewals, acks, disconnects, reconnects and restarts:
   * once the host has given the lease up at time E, the worker's own deadline is at most a
   * heartbeat timeout later, and past that plus one sweep the worker has abandoned the run.
   */
  lemma OverlapIsBounded(f: Fleet, start: State, steps: seq<Step>)
    requires JustDispatched(f, start) && Possible(f, start, steps)
    ensures var s := Exec(f, start, steps);
            s.expired.Some? && s.workerDeadline.Some? ==>
              && s.workerDeadline.value <= s.expired.value + f.heartbeatTimeout
              && s.now <= s.expired.value + f.heartbeatTimeout + 5000
  {
    ExecKeepsInv(f, start, steps);
  }

  // ---------------------------------------------------------------- the overlap is real

  /** Time passes, the worker sweeping whenever it must, while its deadline is still ahead. */
  lemma {:induction false} Wait(f: Fleet, s: State, ms: nat) returns (steps: seq<Step>)
    requires s.now <= s.nextSweep && s.workerDeadline.Some? && s.workerDeadline.value > s.now + ms
    ensures Possible(f, s, steps)
    ensures var t := Exec(f, s, steps);
            t == s.(now := s.now + ms, nextSweep := t.nextSweep) && t.now <= t.nextSweep
    ensures NoPullIn(steps)
    decreases ms, s.now == s.nextSweep
  {
    if ms == 0 {
      return [];
    }
    var step := if s.now < s.nextSweep then TimePasses(1) else WorkerSweeps;
    var t := Apply(f, s, step);
    var rest := Wait(f, t, if s.now < s.nextSweep then ms - 1 else ms);
    steps := [step] + rest;
    assert steps[0] == step && steps[1..] == rest;
  }

  lemma {:induction false} ExecConcat(f: Fleet, s: State, a: seq<Step>, b: seq<Step>)
    requires Possible(f, s, a) && Possible(f, Exec(f, s, a), b)
    ensures Possible(f, s, a + b) && Exec(f, s, a + b) == Exec(f, Exec(f, s, a), b)
    decreases |a|
  {
    if a == [] {
      assert a + b == b;
    } else {
      assert (a + b)[0] == a[0] && (a + b)[1..] == a[1..] + b;
      ExecConcat(f, Apply(f, s, a[0]), a[1..], b);
    }
  }

  lemma Then(f: Fleet, s: State, steps: seq<Step>, step: Step) returns (all: seq<Step>)
    requires Possible(f, s, steps) && Enabled(Exec(f, s, steps), step)
    ensures Possible(f, s, all) && Exec(f, s, all) == Apply(f, Exec(f, s, steps), step)
    ensures all == steps + [step]
  {
    var t := Apply(f, Exec(f, s, steps), step);
    assert [step][1..] == [];
    assert Possible(f, t, []) && Exec(f, t, []) == t;
    ExecConcat(f, s, steps, [step]);
    all := steps + [step];
  }

  /**
   * Strict exclusion is false and the bound is exact: if the socket drops right after the host told
   * the worker a full budget, the host gives the lease up when the grace ends, and a heartbeat
   * timeout less one millisecond later the worker still claims it.
   */
  lemma OverlapIsReal(f: Fleet, start: State) returns (steps: seq<Step>)
    requires JustDispatched(f, start) && f.heartbeatTimeout > 0
    requires start.workerDeadline == Some(FullBudget(f, start.now))
    ensures Possible(f, start, steps)
    ensures var s := Exec(f, start, steps);
            && s.expired == Some(start.now + f.reconnectGrace)
            && s.now == s.expired.value + f.heartbeatTimeout - 1
            && s.workerDeadline == Some(s.expired.value + f.heartbeatTimeout)
  {
    steps := Then(f, start, [], Disconnects);
    var s1 := Apply(f, start, Disconnects);
    var wait := Wait(f, s1, f.reconnectGrace);
    ExecConcat(f, start, steps, wait);
    steps := steps + wait;
    var s2 := Exec(f, start, steps);
    steps := Then(f, start, steps, GraceEnds);
    var s3 := Apply(f, s2, GraceEnds);
    wait := Wait(f, s3, f.heartbeatTimeout - 1);
    ExecConcat(f, start, steps, wait);
    steps := steps + wait;
  }

  // ---------------------------------------------------------------- when a pull-in lets them overlap

  /** The host gave the lease up and the worker holds a later deadline. */
  predicate Overlap(s: State) {
    s.expired.Some? && s.workerDeadline.Some? && s.workerDeadline.value > s.expired.value
  }

  /** A disconnect or a restart pulls in the deadline of a lease the host holds. */
  predicate PullsIn(s: State, step: Step) {
    s.held && (step.Disconnects? || step.HostRestarts?)
  }

  /** The guard of a pull-in: no deadline ever told lies beyond the reconnect grace from now. */
  ghost predicate Safe(f: Fleet, s: State, step: Step) {
    PullsIn(s, step) ==> forall d :: d in s.told ==> d <= s.now + f.reconnectGrace
  }

  ghost predicate AllSafe(f: Fleet, s: State, steps: seq<Step>)
    requires Possible(f, s, steps)
    decreases |steps|
  {
    steps == [] || (Safe(f, s, steps[0]) && AllSafe(f, Apply(f, s, steps[0]), steps[1..]))
  }

  /** The host's deadline, or the moment it gave up, is behind nothing it ever told. */
  ghost predicate Exclusive(s: State) {
    && (s.held ==> forall d :: d in s.told ==> d <= s.deadline)
    && (s.expired.Some? ==> forall d :: d in s.told ==> d <= s.expired.value)
  }

  /** A pull-in alone decides exclusion, whatever came before it; no other step can break it. */
  lemma StepDecidesExclusion(f: Fleet, s: State, step: Step)
    requires Inv(f, s) && Enabled(s, step)
    ensures PullsIn(s, step) ==> (Exclusive(Apply(f, s, step)) <==> Safe(f, s, step))
    ensures !PullsIn(s, step) && Exclusive(s) ==> Exclusive(Apply(f, s, step))
  {
  }

  lemma {:induction false} StaysExclusive(f: Fleet, s: State, steps: seq<Step>)
    requires Inv(f, s) && Exclusive(s) && Possible(f, s, steps) && AllSafe(f, s, steps)
    ensures Exclusive(Exec(f, s, steps)) && !Overlap(Exec(f, s, steps))
    decreases |steps|
  {
    if steps != [] {
      StepKeepsInv(f, s, steps[0]);
      StepDecidesExclusion(f, s, steps[0]);
      StaysExclusive(f, Apply(f, s, steps[0]), steps[1..]);
    }
  }

  /** If every pull-in along the way is safe, the host gives the lease up only at or after the worker's deadline. */
  lemma SafePullInsNeverOverlap(f: Fleet, start: State, steps: seq<Step>)
    requires JustDispatched(f, start) && Possible(f, start, steps) && AllSafe(f, start, steps)
    ensures !Overlap(Exec(f, start, steps))
  {
    StaysExclusive(f, start, steps);
  }

  /** Some continuation with no further unsafe pull-in ends in an overlap. */
  ghost predicate CanOverlap(f: Fleet, s: State) {
    exists steps :: Possible(f, s, steps) && AllSafe(f, s, steps) && Overlap(Exec(f, s, steps))
  }

  predicate NoPullIn(steps: seq<Step>) {
    forall i :: 0 <= i < |steps| ==> !steps[i].Disconnects? && !steps[i].HostRestarts?
  }

  lemma {:induction false} NoPullInIsSafe(f: Fleet, s: State, steps: seq<Step>)
    requires Possible(f, s, steps) && NoPullIn(steps)
    ensures AllSafe(f, s, steps)
    decreases |steps|
  {
    if steps != [] {
      assert !steps[0].Disconnects? && !steps[0].HostRestarts?;
      NoPullInIsSafe(f, Apply(f, s, steps[0]), steps[1..]);
    }
  }

  /**
   * The worker hears a deadline beyond the grace, nobody renews, and the host's sweep finds its own
   * deadline passed.
   */
  lemma UnsafePullInOverlaps(f: Fleet, t: State, d: nat) returns (steps: seq<Step>)
    requires t.held && t.workerDeadline.Some? && t.now <= t.nextSweep
    requires t.deadline == t.now + f.reconnectGrace && d in t.told && d > t.deadline
    ensures Possible(f, t, steps) && NoPullIn(steps)
    ensures Exec(f, t, steps).expired == Some(t.deadline) && Exec(f, t, steps).workerDeadline == Some(d)
  {
    steps := Then(f, t, [], WorkerHears(d));
    var t1 := Apply(f, t, WorkerHears(d));
    assert NoPullIn(steps);
    var wait := Wait(f, t1, f.reconnectGrace);
    ExecConcat(f, t, steps, wait);
    steps := steps + wait;
    steps := Then(f, t, steps, HostSweeps);
  }

  lemma PullInDecides(f: Fleet, s: State, step: Step)
    requires Inv(f, s) && Enabled(s, step) && PullsIn(s, step) && s.workerDeadline.Some?
    ensures CanOverlap(f, Apply(f, s, step)) <==> exists d :: d in s.told && d > s.now + f.reconnectGrace
  {
    var t := Apply(f, s, step);
    StepKeepsInv(f, s, step);
    StepDecidesExclusion(f, s, step);
    if d :| d in s.told && d > s.now + f.reconnectGrace {
      var steps := UnsafePullInOverlaps(f, t, d);
      NoPullInIsSafe(f, t, steps);
    } else {
      forall steps | Possible(f, t, steps) && AllSafe(f, t, steps) ensures !Overlap(Exec(f, t, steps)) {
        StaysExclusive(f, t, steps);
      }
    }
  }

  /**
   * After any run, while a worker claims the lease: once a disconnect or a restart pulls the host's
   * deadline in, the two can overlap without another unsafe pull-in if and only if some deadline
   * the host ever told lies beyond the reconnect grace from now.
   */
  lemma PullInOverlapsExactlyWhen(f: Fleet, start: State, steps: seq<Step>, step: Step)
    requires JustDispatched(f, start) && Possible(f, start, steps)
    requires var s := Exec(f, start, steps); Enabled(s, step) && PullsIn(s, step) && s.workerDeadline.Some?
    ensures var s := Exec(f, start, steps);
            CanOverlap(f, Apply(f, s, step)) <==> exists d :: d in s.told && d > s.now + f.reconnectGrace
  {
    ExecKeepsInv(f, start, steps);
    PullInDecides(f, Exec(f, start, steps), step);
  }

  /**
   * If no disconnect and no restart pulled the host's deadline in, it gives the lease up only after
   * the worker's deadline.
   */
  lemma NoOverlapWithoutPullIn(f: Fleet, start: State, steps: seq<Step>)
    requires JustDispatched(f, start) && NoPullIn(steps) && Possible(f, start, steps)
    ensures var s := Exec(f, start, steps);
            s.expired.Some? && s.workerDeadline.Some? ==> s.workerDeadline.value <= s.expired.value
  {
    NoPullInIsSafe(f, start, steps);
    SafePullInsNeverOverlap(f, start, steps);
  }

  // ---------------------------------------------------------------- neither side gives up early

  /** The host hears from the worker: a frame, or a heartbeat or registration it answers with the deadline. */
  predicate Renews(step: Step) {
    step.FrameRenews? || step.HostTells?
  }

  /** Nobody renews, and nobody drops or comes back. */
  predicate Silent(steps: seq<Step>) {
    NoPullIn(steps) && forall i :: 0 <= i < |steps| ==> !Renews(steps[i]) && !steps[i].Reconnects?
  }

  /** The host does not give the lease up before `due`. */
  ghost predicate KeptUntil(f: Fleet, s: State, due: nat) {
    && (s.held ==> s.deadline >= due)
    && (s.held && s.grace.Some? ==> s.grace.value >= due)
    && (s.expired.Some? ==> s.expired.value >= due)
    && due <= FullBudget(f, s.now)
  }

  lemma {:induction false} StaysKept(f: Fleet, s: State, steps: seq<Step>, due: nat)
    requires Inv(f, s) && KeptUntil(f, s, due) && Possible(f, s, steps) && NoPullIn(steps)
    ensures KeptUntil(f, Exec(f, s, steps), due) && Inv(f, Exec(f, s, steps))
    decreases |steps|
  {
    if steps != [] {
      assert !steps[0].Disconnects? && !steps[0].HostRestarts?;
      StepKeepsInv(f, s, steps[0]);
      StaysKept(f, Apply(f, s, steps[0]), steps[1..], due);
    }
  }

  /**
   * A lease in active use never comes due: after a frame, a heartbeat or a registration, no run without
   * a disconnect or restart takes the lease from the worker for a heartbeat timeout and a grace.
   */
  lemma RenewedLeaseIsKept(f: Fleet, start: State, before: seq<Step>, step: Step, after: seq<Step>)
    requires JustDispatched(f, start) && Possible(f, start, before) && Renews(step)
    requires Enabled(Exec(f, start, before), step)
    requires Possible(f, Apply(f, Exec(f, start, before), step), after) && NoPullIn(after)
    ensures var s := Exec(f, start, before); var u := Exec(f, Apply(f, s, step), after);
            var due := s.now + f.heartbeatTimeout + f.reconnectGrace;
            (u.now < due ==> u.held) && (u.expired.Some? ==> u.expired.value >= due)
  {
    ExecKeepsInv(f, start, before);
    var s := Exec(f, start, before);
    StepKeepsInv(f, s, step);
    StaysKept(f, Apply(f, s, step), after, FullBudget(f, s.now));
  }

  lemma {:induction false} DeadlineStands(f: Fleet, s: State, steps: seq<Step>)
    requires Possible(f, s, steps) && Silent(steps)
    ensures var u := Exec(f, s, steps); u.held ==> s.held && u.deadline == s.deadline && u.grace == s.grace
    decreases |steps|
  {
    if steps != [] {
      assert !steps[0].Disconnects? && !steps[0].HostRestarts? && !Renews(steps[0]) && !steps[0].Reconnects?;
      assert forall i :: 0 <= i < |steps[1..]| ==> steps[1..][i] == steps[i + 1];
      DeadlineStands(f, Apply(f, s, steps[0]), steps[1..]);
    }
  }

  /**
   * In silence the host gives a lease up exactly when it is due: a full budget after it last heard
   * from the worker, and only the reconnect grace after a disconnect or a restart; after a disconnect
   * the grace's own timer and the sweep come due together.
   */
  lemma SilentLeaseComesDueExactly(f: Fleet, start: State, before: seq<Step>, step: Step, after: seq<Step>)
    requires JustDispatched(f, start) && Possible(f, start, before)
    requires var s := Exec(f, start, before); Enabled(s, step) && (Renews(step) || PullsIn(s, step))
    requires Possible(f, Apply(f, Exec(f, start, before), step), after) && Silent(after)
    ensures var s := Exec(f, start, before); var u := Exec(f, Apply(f, s, step), after);
            var due := s.now + (if Renews(step) then f.heartbeatTimeout else 0) + f.reconnectGrace;
            && (u.held ==> (Enabled(u, HostSweeps) <==> u.now >= due) && (Enabled(u, GraceEnds) ==> u.now >= due))
            && (u.held && u.now >= due ==> Apply(f, u, HostSweeps).expired == Some(u.now))
            && (u.held && step.Disconnects? ==> (Enabled(u, GraceEnds) <==> u.now >= due))
            && (u.held && Enabled(u, GraceEnds) ==> Apply(f, u, GraceEnds).expired == Some(u.now))
            && (u.expired.Some? ==> u.expired.value >= due)
  {
    ExecKeepsInv(f, start, before);
    var s := Exec(f, start, before);
    var t := Apply(f, s, step);
    StepKeepsInv(f, s, step);
    StaysKept(f, t, after, t.deadline);
    DeadlineStands(f, t, after);
  }

  /** No earlier deadline is heard. */
  predicate HearsNothingBefore(steps: seq<Step>, due: nat) {
    forall i :: 0 <= i < |steps| && steps[i].WorkerHears? ==> steps[i].deadline >= due
  }

  lemma {:induction false} WorkerStays(f: Fleet, s: State, steps: seq<Step>, due: nat)
    requires Possible(f, s, steps) && HearsNothingBefore(steps, due)
    requires s.workerDeadline.Some? && s.workerDeadline.value >= due
    ensures var u := Exec(f, s, steps);
            u.now < due ==> u.workerDeadline.Some? && u.workerDeadline.value >= due
    decreases |steps|
  {
    if steps != [] {
      assert steps[0].WorkerHears? ==> steps[0].deadline >= due;
      assert forall i :: 0 <= i < |steps[1..]| ==> steps[1..][i] == steps[i + 1];
      var t := Apply(f, s, steps[0]);
      if t.workerDeadline.Some? {
        WorkerStays(f, t, steps[1..], due);
      } else {
        ClockGoesOn(f, t, steps[1..]);
      }
    }
  }

  lemma {:induction false} ClockGoesOn(f: Fleet, s: State, steps: seq<Step>)
    requires Possible(f, s, steps)
    ensures Exec(f, s, steps).now >= s.now && s.told <= Exec(f, s, steps).told
    decreases |steps|
  {
    if steps != [] { ClockGoesOn(f, Apply(f, s, steps[0]), steps[1..]); }
  }

  /**
   * The worker's twin: a deadline the host tells is a full budget away, and may be heard at any later
   * time while the worker claims the lease.
   */
  lemma ToldDeadlineCanBeHeard(f: Fleet, start: State, before: seq<Step>, after: seq<Step>)
    requires JustDispatched(f, start) && Possible(f, start, before) && Enabled(Exec(f, start, before), HostTells)
    requires var t := Apply(f, Exec(f, start, before), HostTells);
             Possible(f, t, after) && Exec(f, t, after).workerDeadline.Some?
    ensures var s := Exec(f, start, before);
            Enabled(Exec(f, Apply(f, s, HostTells), after), WorkerHears(s.now + f.heartbeatTimeout + f.reconnectGrace))
  {
    ClockGoesOn(f, Apply(f, Exec(f, start, before), HostTells), after);
  }

  /**
   * Having heard a deadline, the worker does not abandon the run before it, whatever else comes, unless
   * told an earlier one; and at a sweep it abandons exactly when due.
   */
  lemma WorkerKeepsTheDeadlineItHeard(f: Fleet, s: State, due: nat, after: seq<Step>)
    requires Enabled(s, WorkerHears(due)) && Possible(f, Apply(f, s, WorkerHears(due)), after)
    requires HearsNothingBefore(after, due)
    ensures var u := Exec(f, Apply(f, s, WorkerHears(due)), after);
            && (u.now < due ==> u.workerDeadline.Some?)
            && (u.workerDeadline.Some? ==>
                  (Apply(f, u, WorkerSweeps).workerDeadline.None? <==> u.workerDeadline.value <= u.now))
  {
    WorkerStays(f, Apply(f, s, WorkerHears(due)), after, due);
  }

  /**
   * The bound on when the worker has stopped is exact too: if it looked just before its deadline, it
   * is at the run until one sweep later.
   */
  lemma LateSweepIsReal(f: Fleet, start: State) returns (steps: seq<Step>)
    requires JustDispatched(f, start) && f.heartbeatTimeout > 0
    requires start.workerDeadline == Some(FullBudget(f, start.now))
    ensures Possible(f, start, steps)
    ensures var s := Exec(f, start, steps);
            && s.expired == Some(start.now + f.reconnectGrace) && s.workerDeadline.Some?
            && s.now == s.expired.value + f.heartbeatTimeout + 5000 - 1
  {
    steps := OverlapIsReal(f, start);
    var s1 := Exec(f, start, steps);
    steps := Then(f, start, steps, WorkerSweeps);
    var s2 := Apply(f, s1, WorkerSweeps);
    steps := Then(f, start, steps, TimePasses(LEASE_DEADLINE_SWEEP_MS));
  }
}
