/** The provider circuit breaker: a mutex-guarded state machine with generations
    for its half-open probes, on an explicit clock that only moves forward. */
module Breaker {
  import opened Common

  /** Nanoseconds of the monotone clock. */
  type Instant = nat

  const SECOND: nat := 1_000_000_000

  /** A claimed probe is never reclaimed sooner than this: 50 ms. */
  const MIN_PROBE_RECLAIM: nat := 50_000_000

  datatype Policy = Policy(threshold: nat, cooldown: nat)

  datatype BreakerState =
    | Closed(consecutiveFailures: nat)
    | Open(since: Instant)
    | HalfOpen(probing: bool, since: Instant, generation: nat)

  /** What an attempt is granted: a plain call, or the probe, numbered by its claim. */
  datatype Admission = Normal | Probe(generation: nat)

  /** What a refused caller is told: the failures that opened the circuit and the
      seconds until the next probe, or that a probe is in flight. */
  datatype Refusal = CircuitOpen(failures: nat, seconds: nat) | ProbeBusy

  /** Everything the lock and the counters hold. */
  datatype Inner = Inner(
    state: BreakerState,
    openedTotal: nat,
    shortCircuitsTotal: nat,
    nextGeneration: nat,
    latestGeneration: nat)

  function ReclaimAfter(p: Policy): nat { Max(p.cooldown, MIN_PROBE_RECLAIM) }

  /** Time since an instant; zero for one that is still to come. */
  function Elapsed(since: Instant, now: Instant): nat {
    if since <= now then now - since else 0
  }

  const INITIAL := Inner(Closed(0), 0, 0, 0, 0)

  // ------------------------------------------------------------------- one call

  /** An open circuit's message for a wait: whole seconds, at least one. */
  function OpenRefusal(p: Policy, wait: nat): Refusal {
    CircuitOpen(p.threshold, Max(wait / SECOND, 1))
  }

  /** Why an attempt at `now` is turned away, if it is. */
  function Refuses(p: Policy, s: BreakerState, now: Instant): Option<Refusal> {
    match s
    case Closed(_) => None
    case Open(since) =>
      if Elapsed(since, now) < p.cooldown then Some(OpenRefusal(p, p.cooldown - Elapsed(since, now))) else None
    case HalfOpen(probing, since, _) =>
      if probing && Elapsed(since, now) < ReclaimAfter(p) then Some(ProbeBusy) else None
  }

  /** What an attempt is granted, and the state it leaves; a claim carries the
      clock reading `stamp` taken after the decision. */
  function AdmitStep(p: Policy, i: Inner, now: Instant, stamp: Instant): (Option<Admission>, Inner) {
    if Refuses(p, i.state, now).Some? then
      (None, i.(shortCircuitsTotal := i.shortCircuitsTotal + 1))
    else if i.state.Closed? then
      (Some(Normal), i)
    else
      (Some(Probe(i.nextGeneration)),
       i.(state := HalfOpen(true, stamp, i.nextGeneration),
          nextGeneration := i.nextGeneration + 1, latestGeneration := i.nextGeneration))
  }

  /** A probe a fresher claim has replaced. */
  predicate Superseded(i: Inner, a: Admission) {
    a.Probe? && a.generation != i.latestGeneration
  }

  function RecordStep(p: Policy, i: Inner, a: Admission, ok: bool, now: Instant): Inner {
    if Superseded(i, a) then i
    else if ok then i.(state := Closed(0))
    else if a.Probe? then i.(state := Open(now), openedTotal := i.openedTotal + 1)
    else
      match i.state
      case Closed(n) =>
        if n + 1 >= p.threshold then i.(state := Open(now), openedTotal := i.openedTotal + 1)
        else i.(state := Closed(n + 1))
      case _ => i
  }

  function AbandonStep(i: Inner, a: Admission): Inner {
    if a.Probe? && i.state.HalfOpen? && i.state.generation == a.generation then
      i.(state := i.state.(probing := false))
    else i
  }

  // -------------------------------------------------------------------- the class

  class ProviderBreaker {
    const policy: Policy
    var state: BreakerState
    var openedTotal: nat
    var shortCircuitsTotal: nat
    var nextProbeGeneration: nat
    var latestProbeGeneration: nat

    function View(): Inner
      reads this
    {
      Inner(state, openedTotal, shortCircuitsTotal, nextProbeGeneration, latestProbeGeneration)
    }

    constructor WithPolicy(threshold: nat, cooldown: nat)
      ensures policy == Policy(Max(threshold, 1), cooldown) && View() == INITIAL
    {
      policy := Policy(Max(threshold, 1), cooldown);
      state := Closed(0);
      openedTotal, shortCircuitsTotal := 0, 0;
      nextProbeGeneration, latestProbeGeneration := 0, 0;
    }

    /** A fresh generation for a probe claim. */
    method NextProbeGeneration() returns (generation: nat)
      modifies this`nextProbeGeneration, this`latestProbeGeneration
      ensures generation == old(nextProbeGeneration) == latestProbeGeneration
      ensures nextProbeGeneration == generation + 1
    {
      generation := nextProbeGeneration;
      nextProbeGeneration := nextProbeGeneration + 1;
      latestProbeGeneration := generation;
    }

    /** Gates one attempt; `stamp` is the clock read again once a probe is due. */
    method Admit(now: Instant, stamp: Instant) returns (granted: Option<Admission>, refusal: Option<Refusal>)
      modifies this
      ensures (granted, View()) == AdmitStep(policy, old(View()), now, stamp)
      ensures refusal == Refuses(policy, old(state), now)
    {
      granted, refusal := None, None;
      match state {
        case Closed(_) =>
          granted := Some(Normal);
        case Open(since) =>
          var elapsed := Elapsed(since, now);
          if elapsed >= policy.cooldown {
            var generation := NextProbeGeneration();
            state := HalfOpen(true, stamp, generation);
            granted := Some(Probe(generation));
          } else {
            shortCircuitsTotal := shortCircuitsTotal + 1;
            refusal := Some(OpenRefusal(policy, policy.cooldown - elapsed));
          }
        case HalfOpen(probing, since, _) =>
          if probing && Elapsed(since, now) < ReclaimAfter(policy) {
            shortCircuitsTotal := shortCircuitsTotal + 1;
            refusal := Some(ProbeBusy);
          } else {
            var generation := NextProbeGeneration();
            state := HalfOpen(true, stamp, generation);
            granted := Some(Probe(generation));
          }
      }
    }

    /** The pre-flight gate: the same refusals, claiming nothing. */
    method RefusalAt(now: Instant) returns (refusal: Option<Refusal>)
      modifies this
      ensures refusal == Refuses(policy, old(state), now)
      ensures View() == old(View()).(shortCircuitsTotal := old(shortCircuitsTotal) + if refusal.Some? then 1 else 0)
    {
      match state {
        case Closed(_) =>
          refusal := None;
        case Open(since) =>
          var elapsed := Elapsed(since, now);
          refusal := if elapsed < policy.cooldown then Some(OpenRefusal(policy, policy.cooldown - elapsed)) else None;
        case HalfOpen(probing, since, _) =>
          refusal := if probing && Elapsed(since, now) < ReclaimAfter(policy) then Some(ProbeBusy) else None;
      }
      if refusal.Some? {
        shortCircuitsTotal := shortCircuitsTotal + 1;
      }
    }

    /** One admitted attempt's outcome. */
    method Record(admission: Admission, ok: bool, now: Instant)
      modifies this
      ensures View() == RecordStep(policy, old(View()), admission, ok, now)
    {
      if admission.Probe? && admission.generation != latestProbeGeneration {
        return;
      }
      if ok {
        state := Closed(0);
        return;
      }
      if admission.Probe? {
        state := Open(now);
        openedTotal := openedTotal + 1;
      } else if state.Closed? {
        state := Closed(state.consecutiveFailures + 1);
        if state.consecutiveFailures >= policy.threshold {
          state := Open(now);
          openedTotal := openedTotal + 1;
        }
      }
    }

    /** Releases an attempt that came to no outcome. */
    method Abandon(admission: Admission)
      modifies this
      ensures View() == AbandonStep(old(View()), admission)
    {
      if admission.Probe? && state.HalfOpen? && state.generation == admission.generation {
        state := state.(probing := false);
      }
    }
  }

  // ------------------------------------------------------------------------- runs

  datatype Event =
    | Attempt(now: Instant, stamp: Instant)
    | Preflight(now: Instant)
    | Outcome(admission: Admission, ok: bool, now: Instant)
    | Release(admission: Admission)

  function Apply(p: Policy, i: Inner, e: Event): Inner {
    match e
    case Attempt(now, stamp) => AdmitStep(p, i, now, stamp).1
    case Preflight(now) =>
      if Refuses(p, i.state, now).Some? then i.(shortCircuitsTotal := i.shortCircuitsTotal + 1) else i
    case Outcome(a, ok, now) => RecordStep(p, i, a, ok, now)
    case Release(a) => AbandonStep(i, a)
  }

  /** The breaker after a run. */
  function After(p: Policy, run: seq<Event>): Inner {
    if run == [] then INITIAL else Apply(p, After(p, run[..|run| - 1]), run[|run| - 1])
  }

  /** What the attempt at position `k` was granted. */
  function Granted(p: Policy, run: seq<Event>, k: nat): Option<Admission>
    requires k < |run|
  {
    match run[k]
    case Attempt(now, stamp) => AdmitStep(p, After(p, run[..k]), now, stamp).0
    case _ => None
  }

  /** A run the program can have: the clock moves forward, a claim is stamped no
      earlier than it was decided, and only granted attempts report. */
  ghost predicate Feasible(p: Policy, run: seq<Event>) {
    && p.threshold >= 1
    && (forall j, k | 0 <= j < k < |run| && Clock(run[j]).Some? && Clock(run[k]).Some? ::
          Clock(run[j]).value <= Start(run[k]))
    && (forall k | 0 <= k < |run| && run[k].Attempt? :: run[k].now <= run[k].stamp)
    && (forall k | 0 <= k < |run| && Reporter(run[k]).Some? :: WasGranted(p, run, k, Reporter(run[k]).value))
  }

  ghost predicate WasGranted(p: Policy, run: seq<Event>, k: nat, a: Admission)
    requires k <= |run|
  {
    exists j :: 0 <= j < k && Granted(p, run, j) == Some(a)
  }

  /** The last clock reading of an event, and its first. */
  function Clock(e: Event): Option<Instant> {
    match e
    case Attempt(_, stamp) => Some(stamp)
    case Preflight(now) => Some(now)
    case Outcome(_, _, now) => Some(now)
    case Release(_) => None
  }

  function Start(e: Event): Instant {
    match e
    case Attempt(now, _) => now
    case Preflight(now) => now
    case Outcome(_, _, now) => now
    case Release(_) => 0
  }

  function Reporter(e: Event): Option<Admission> {
    match e
    case Outcome(a, _, _) => Some(a)
    case Release(a) => Some(a)
    case _ => None
  }

  lemma {:induction false} AfterStep(p: Policy, run: seq<Event>, k: nat)
    requires k < |run|
    ensures After(p, run[..k + 1]) == Apply(p, After(p, run[..k]), run[k])
  {
    assert run[..k + 1][..k] == run[..k];
  }

  // ----------------------------------------------------------------- invariants

  /** A closed breaker is below its threshold, and a half-open one is in the hands
      of the claim minted last. */
  ghost predicate Consistent(p: Policy, i: Inner) {
    && (i.state.Closed? ==> i.state.consecutiveFailures < p.threshold)
    && (i.state.HalfOpen? ==> i.nextGeneration > 0 && i.state.generation == i.latestGeneration)
    && (if i.nextGeneration == 0 then i.latestGeneration == 0 else i.latestGeneration == i.nextGeneration - 1)
  }

  lemma {:induction false} StepConsistent(p: Policy, i: Inner, e: Event)
    requires p.threshold >= 1 && Consistent(p, i)
    ensures Consistent(p, Apply(p, i, e))
    ensures i.nextGeneration <= Apply(p, i, e).nextGeneration
  {
  }

  /** Every reachable breaker is consistent, whatever order outcomes come in. */
  lemma {:induction false} RunConsistent(p: Policy, run: seq<Event>)
    requires p.threshold >= 1
    ensures Consistent(p, After(p, run))
  {
    if run != [] {
      RunConsistent(p, run[..|run| - 1]);
      StepConsistent(p, After(p, run[..|run| - 1]), run[|run| - 1]);
    }
  }

  lemma {:induction false} GenerationsGrow(p: Policy, run: seq<Event>, j: nat, k: nat)
    requires p.threshold >= 1 && j <= k <= |run|
    ensures After(p, run[..j]).nextGeneration <= After(p, run[..k]).nextGeneration
  {
    if j < k {
      GenerationsGrow(p, run, j, k - 1);
      AfterStep(p, run, k - 1);
      RunConsistent(p, run[..k - 1]);
      StepConsistent(p, After(p, run[..k - 1]), run[k - 1]);
    }
  }

  /** Probe generations are handed out once each and upwards. */
  lemma {:induction false} GenerationsFresh(p: Policy, run: seq<Event>, j: nat, k: nat)
    requires p.threshold >= 1 && j < k < |run|
    requires Granted(p, run, j).Some? && Granted(p, run, j).value.Probe?
    requires Granted(p, run, k).Some? && Granted(p, run, k).value.Probe?
    ensures Granted(p, run, j).value.generation < Granted(p, run, k).value.generation
  {
    AfterStep(p, run, j);
    GenerationsGrow(p, run, j + 1, k);
  }

  // --------------------------------------------------------- one probe at a time

  /** Between two claims, what lets go of the first: its outcome or release, or a
      normal attempt's success closing the breaker. */
  predicate Frees(e: Event, generation: nat) {
    || (e.Outcome? && e.admission == Probe(generation))
    || (e.Release? && e.admission == Probe(generation))
    || (e.Outcome? && e.admission == Normal && e.ok)
  }

  /** An undisturbed claim stays exactly as it was made. */
  lemma {:induction false} ClaimStands(p: Policy, run: seq<Event>, m: nat, n: nat)
    requires p.threshold >= 1 && m < n <= |run|
    requires Granted(p, run, m).Some? && Granted(p, run, m).value.Probe?
    requires forall k | m < k < n :: !Frees(run[k], Granted(p, run, m).value.generation)
    requires forall k | m < k < n :: !(Granted(p, run, k).Some? && Granted(p, run, k).value.Probe?)
    requires forall k | m < k < n && Reporter(run[k]).Some? && Reporter(run[k]).value.Probe? ::
               Reporter(run[k]).value.generation <= Granted(p, run, m).value.generation
    ensures var i := After(p, run[..n]);
      i.state == HalfOpen(true, run[m].stamp, Granted(p, run, m).value.generation)
      && i.latestGeneration == Granted(p, run, m).value.generation
  {
    var g := Granted(p, run, m).value.generation;
    AfterStep(p, run, n - 1);
    if n > m + 1 {
      var e := run[n - 1];
      assert !Frees(e, g);
      assert !(Granted(p, run, n - 1).Some? && Granted(p, run, n - 1).value.Probe?);
      ClaimStands(p, run, m, n - 1);
      assert Reporter(e).Some? && Reporter(e).value.Probe? ==> Reporter(e).value.generation <= g;
    }
  }

  lemma {:induction false} ClaimOf(p: Policy, run: seq<Event>, n: nat, g: nat) returns (m: nat)
    requires p.threshold >= 1 && n <= |run| && g < After(p, run[..n]).nextGeneration
    ensures m < n && Granted(p, run, m) == Some(Probe(g))
  {
    AfterStep(p, run, n - 1);
    if g < After(p, run[..n - 1]).nextGeneration {
      m := ClaimOf(p, run, n - 1, g);
    } else {
      m := n - 1;
    }
  }

  lemma {:induction false} ReportersAreOld(p: Policy, run: seq<Event>, k: nat, a: Admission)
    requires p.threshold >= 1 && k <= |run| && WasGranted(p, run, k, a) && a.Probe?
    ensures a.generation < After(p, run[..k]).nextGeneration
  {
    var j :| 0 <= j < k && Granted(p, run, j) == Some(a);
    AfterStep(p, run, j);
    GenerationsGrow(p, run, j + 1, k);
  }

  /** The attempt at `m` claimed probe `g`, and by `n` it was freed or overdue. */
  ghost predicate Succeeds(p: Policy, run: seq<Event>, m: nat, n: nat, g: nat)
    requires m < n < |run| && run[n].Attempt?
  {
    && run[m].Attempt? && Granted(p, run, m) == Some(Probe(g))
    && (run[n].now >= run[m].stamp + ReclaimAfter(p) || exists k :: m < k < n && Frees(run[k], g))
  }

  /** A new probe is granted only when the one before it was settled or released,
      or a normal success closed the breaker meanwhile, or it sat unsettled for the
      longer of the cooldown and the floor. */
  lemma {:induction false} ProbeGrant(p: Policy, run: seq<Event>, n: nat) returns (m: nat)
    requires Feasible(p, run) && n < |run|
    requires Granted(p, run, n).Some? && Granted(p, run, n).value.Probe? && Granted(p, run, n).value.generation > 0
    ensures m < n && Succeeds(p, run, m, n, Granted(p, run, n).value.generation - 1)
  {
    var g := Granted(p, run, n).value.generation - 1;
    m := ClaimOf(p, run, n, g);
    if forall k | m < k < n :: !Frees(run[k], g) {
      NoOtherClaim(p, run, m, n, g);
      forall k | m < k < n && Reporter(run[k]).Some? && Reporter(run[k]).value.Probe?
        ensures Reporter(run[k]).value.generation <= g
      {
        ReportersAreOld(p, run, k, Reporter(run[k]).value);
        GenerationsGrow(p, run, k, n);
      }
      ClaimStands(p, run, m, n);
      assert Refuses(p, After(p, run[..n]).state, run[n].now).None?;
    }
  }

  lemma {:induction false} NoOtherClaim(p: Policy, run: seq<Event>, m: nat, n: nat, g: nat)
    requires p.threshold >= 1 && m < n < |run|
    requires Granted(p, run, m) == Some(Probe(g)) && Granted(p, run, n) == Some(Probe(g + 1))
    ensures forall k | m < k < n :: !(Granted(p, run, k).Some? && Granted(p, run, k).value.Probe?)
  {
    forall k | m < k < n && Granted(p, run, k).Some? && Granted(p, run, k).value.Probe? ensures false {
      GenerationsFresh(p, run, m, k);
      GenerationsFresh(p, run, k, n);
    }
  }

  // ------------------------------------------------------------------- stragglers

  /** A superseded probe's report changes nothing at all. */
  lemma {:induction false} StragglerIgnored(p: Policy, i: Inner, e: Event)
    requires Consistent(p, i) && Reporter(e).Some? && Superseded(i, Reporter(e).value)
    ensures Apply(p, i, e) == i
  {
  }

  /** The run without the reports of probes superseded when they came in. */
  function WithoutStragglers(p: Policy, run: seq<Event>): seq<Event> {
    if run == [] then []
    else
      var init, e := run[..|run| - 1], run[|run| - 1];
      if Reporter(e).Some? && Superseded(After(p, init), Reporter(e).value) then WithoutStragglers(p, init)
      else WithoutStragglers(p, init) + [e]
  }

  /** Deleting them leaves the same breaker, counters included. */
  lemma {:induction false} StragglersInvisible(p: Policy, run: seq<Event>)
    requires p.threshold >= 1
    ensures After(p, WithoutStragglers(p, run)) == After(p, run)
  {
    if run != [] {
      var init, e := run[..|run| - 1], run[|run| - 1];
      StragglersInvisible(p, init);
      RunConsistent(p, init);
      if Reporter(e).Some? && Superseded(After(p, init), Reporter(e).value) {
        StragglerIgnored(p, After(p, init), e);
      } else {
        assert (WithoutStragglers(p, init) + [e])[..|WithoutStragglers(p, init)|] == WithoutStragglers(p, init);
      }
    }
  }

  // ------------------------------------------------------------- what opens and closes

  /** The failures of ordinary attempts since the last success that counted. */
  function FailuresSince(p: Policy, run: seq<Event>): nat {
    if run == [] then 0
    else
      var init, e := run[..|run| - 1], run[|run| - 1];
      if !e.Outcome? || Superseded(After(p, init), e.admission) then FailuresSince(p, init)
      else if e.ok then 0
      else if e.admission.Normal? then FailuresSince(p, init) + 1
      else FailuresSince(p, init)
  }

  /** A closed breaker has counted every one of them. */
  lemma {:induction false} ClosedCounts(p: Policy, run: seq<Event>)
    requires p.threshold >= 1
    ensures After(p, run).state.Closed? ==> After(p, run).state.consecutiveFailures == FailuresSince(p, run) < p.threshold
  {
    if run != [] {
      ClosedCounts(p, run[..|run| - 1]);
    }
  }

  /** A failure opens a closed breaker when it is the threshold's in a row, or a
      current probe's. */
  predicate Trips(p: Policy, run: seq<Event>, e: Event) {
    && e.Outcome? && !e.ok && !Superseded(After(p, run), e.admission)
    && (e.admission.Probe? || FailuresSince(p, run) + 1 >= p.threshold)
  }

  /** A closed breaker opens at exactly those, at their moment, and nothing else. */
  lemma {:induction false} OpensExactly(p: Policy, run: seq<Event>, e: Event)
    requires p.threshold >= 1 && After(p, run).state.Closed?
    ensures var i, next := After(p, run), After(p, run + [e]);
      && (Trips(p, run, e) ==> next.state == Open(e.now) && next.openedTotal == i.openedTotal + 1)
      && (!Trips(p, run, e) ==> next.state.Closed? && next.openedTotal == i.openedTotal)
  {
    ClosedCounts(p, run);
    assert (run + [e])[..|run|] == run;
  }

  /** From whatever state, a success that is not superseded closes the breaker with
      nothing counted, and the failure of the current probe opens it from its moment. */
  lemma {:induction false} ReportsDecide(p: Policy, run: seq<Event>, a: Admission, now: Instant)
    requires !Superseded(After(p, run), a)
    ensures After(p, run + [Outcome(a, true, now)]).state == Closed(0)
    ensures a.Probe? ==> After(p, run + [Outcome(a, false, now)]).state == Open(now)
    ensures a.Normal? && !After(p, run).state.Closed? ==> After(p, run + [Outcome(a, false, now)]) == After(p, run)
  {
    assert (run + [Outcome(a, true, now)])[..|run|] == run && (run + [Outcome(a, false, now)])[..|run|] == run;
  }

  /** A closed breaker grants an ordinary attempt at any moment, and a released probe
      makes room for the next at once. */
  lemma {:induction false} Granting(p: Policy, run: seq<Event>, now: Instant, stamp: Instant)
    ensures After(p, run).state.Closed? ==> AdmitStep(p, After(p, run), now, stamp) == (Some(Normal), After(p, run))
    ensures var i := After(p, run);
      i.state.HalfOpen? ==>
        AdmitStep(p, After(p, run + [Release(Probe(i.state.generation))]), now, stamp).0 == Some(Probe(i.nextGeneration))
  {
    var i := After(p, run);
    if i.state.HalfOpen? {
      var e := Release(Probe(i.state.generation));
      assert (run + [e])[..|run|] == run;
    }
  }

  /** Ordinary attempts that failed at these moments, one after the other. */
  function FailuresAt(times: seq<Instant>): (r: seq<Event>)
    ensures |r| == |times|
  {
    seq(|times|, i requires 0 <= i < |times| => Outcome(Normal, false, times[i]))
  }

  /** Failures and nothing else: each is counted, and the one that makes the threshold
      opens the breaker from its moment on, however many follow. */
  lemma {:induction false} FailuresTrip(p: Policy, times: seq<Instant>)
    requires p.threshold >= 1
    ensures After(p, FailuresAt(times)).state
         == if |times| < p.threshold then Closed(|times|) else Open(times[p.threshold - 1])
  {
    if times != [] {
      var n := |times| - 1;
      FailuresTrip(p, times[..n]);
      assert FailuresAt(times)[..n] == FailuresAt(times[..n]);
    }
  }

  // --------------------------------------------------------------------- recovery

  /** The run without its preflights. */
  function WithoutPreflights(run: seq<Event>): seq<Event> {
    if run == [] then []
    else
      var init, e := WithoutPreflights(run[..|run| - 1]), run[|run| - 1];
      if e.Preflight? then init else init + [e]
  }

  /** Preflights claim nothing: deleting them from any run changes only the count of
      refusals, so no later attempt is answered otherwise. */
  lemma {:induction false} PreflightsClaimNothing(p: Policy, run: seq<Event>)
    ensures After(p, WithoutPreflights(run)).(shortCircuitsTotal := 0) == After(p, run).(shortCircuitsTotal := 0)
  {
    if run != [] {
      var init, e := run[..|run| - 1], run[|run| - 1];
      PreflightsClaimNothing(p, init);
      if !e.Preflight? {
        assert (WithoutPreflights(init) + [e])[..|WithoutPreflights(init)|] == WithoutPreflights(init);
        CountDecidesNothing(p, After(p, WithoutPreflights(init)), After(p, init), e);
      }
    }
  }

  /** Preflights, however many and wherever, decide nothing: an attempt at any moment
      is answered, and claims, as it would had none been made. */
  lemma {:induction false} RefusalAgrees(p: Policy, run: seq<Event>, now: Instant, stamp: Instant)
    ensures var gated, plain := After(p, run + [Preflight(now)]), After(p, WithoutPreflights(run));
      && Refuses(p, After(p, run).state, now) == Refuses(p, plain.state, now)
      && AdmitStep(p, gated, now, stamp).0 == AdmitStep(p, plain, now, stamp).0
      && (AdmitStep(p, plain, now, stamp).0.Some? <==> Refuses(p, After(p, run).state, now).None?)
  {
    hide After;
    var more := run + [Preflight(now)];
    assert more[..|run|] == run;
    PreflightsClaimNothing(p, run);
    PreflightsClaimNothing(p, more);
    assert WithoutPreflights(more) == WithoutPreflights(run);
  }

  /** When a state stops refusing. */
  function Until(p: Policy, s: BreakerState): Instant {
    match s
    case Closed(_) => 0
    case Open(since) => since + p.cooldown
    case HalfOpen(_, since, _) => since + ReclaimAfter(p)
  }

  /** Attempts and preflights before that moment. */
  predicate Knocks(tail: seq<Event>, until: Instant) {
    forall e | e in tail :: (e.Attempt? || e.Preflight?) && Start(e) < until
  }

  /** A refusal stands: attempts and preflights that follow it are refused and counted
      until the state's own time is up, and from then on an attempt is granted. */
  lemma {:induction false} RefusalStands(p: Policy, run: seq<Event>, now: Instant, tail: seq<Event>, later: Instant, stamp: Instant)
    requires ClockAtMost(run, now) && now <= later && Refuses(p, After(p, run).state, now).Some?
    requires var until := Until(p, After(p, run).state);
      Knocks(tail, until) && forall e | e in tail :: now <= Start(e)
    ensures var s, t := After(p, run), After(p, run + tail);
      && t == s.(shortCircuitsTotal := s.shortCircuitsTotal + |tail|)
      && (AdmitStep(p, t, later, stamp).0.Some? <==> later >= Until(p, s.state))
  {
    StampsArePast(p, run, now);
    if tail == [] {
      assert run + tail == run;
    } else {
      var n := |tail| - 1;
      assert tail[n] in tail;
      forall e | e in tail[..n] ensures e in tail { }
      RefusalStands(p, run, now, tail[..n], later, stamp);
      assert (run + tail)[..|run + tail| - 1] == run + tail[..n];
    }
  }

  /** No step depends on the count of refusals. */
  lemma CountDecidesNothing(p: Policy, i: Inner, j: Inner, e: Event)
    requires i.(shortCircuitsTotal := 0) == j.(shortCircuitsTotal := 0)
    ensures Apply(p, i, e).(shortCircuitsTotal := 0) == Apply(p, j, e).(shortCircuitsTotal := 0)
  {
    assert i.state == j.state && i.openedTotal == j.openedTotal;
    assert i.nextGeneration == j.nextGeneration && i.latestGeneration == j.latestGeneration;
  }

  /** No instant a breaker holds is later than the clock of its run. */
  function Stamp(s: BreakerState): Instant {
    match s
    case Closed(_) => 0
    case Open(since) => since
    case HalfOpen(_, since, _) => since
  }

  ghost predicate ClockAtMost(run: seq<Event>, t: Instant) {
    forall k | 0 <= k < |run| && Clock(run[k]).Some? :: Clock(run[k]).value <= t
  }

  lemma {:induction false} StampsArePast(p: Policy, run: seq<Event>, t: Instant)
    requires ClockAtMost(run, t)
    ensures Stamp(After(p, run).state) <= t
  {
    if run != [] {
      var init, e := run[..|run| - 1], run[|run| - 1];
      StampsArePast(p, init, t);
      assert Clock(e).Some? ==> Clock(run[|run| - 1]).value <= t;
    }
  }

  /** From every reachable state, a wait of the longer of the cooldown and the
      floor makes the next attempt succeed: the breaker never wedges. */
  lemma {:induction false} WaitRecovers(p: Policy, run: seq<Event>, t: Instant, stamp: Instant)
    requires ClockAtMost(run, t)
    ensures AdmitStep(p, After(p, run), t + ReclaimAfter(p), stamp).0.Some?
  {
    StampsArePast(p, run, t);
  }

  /** How long an open breaker still refuses. */
  function Wait(p: Policy, s: BreakerState, now: Instant): nat
    requires s.Open?
  {
    if Elapsed(s.since, now) < p.cooldown then p.cooldown - Elapsed(s.since, now) else 0
  }

  /** The wait itself is exact: after it, and no sooner, an attempt is the probe. */
  lemma {:induction false} WaitIsExact(p: Policy, run: seq<Event>, now: Instant, later: Instant, stamp: Instant)
    requires ClockAtMost(run, now) && now <= later && After(p, run).state.Open?
    ensures AdmitStep(p, After(p, run), later, stamp).0.Some? <==> later >= now + Wait(p, After(p, run).state, now)
  {
    StampsArePast(p, run, now);
  }

  /** The message cuts the wait to whole seconds, at least one. An attempt that many
      seconds after the refusal is granted exactly when the wait is at most a second
      or a whole number of them; a second later it is always granted. */
  lemma {:induction false} RetryHint(p: Policy, run: seq<Event>, now: Instant, stamp: Instant)
    requires ClockAtMost(run, now) && After(p, run).state.Open?
    requires Refuses(p, After(p, run).state, now).Some?
    ensures var wait := Wait(p, After(p, run).state, now);
      var shown := Refuses(p, After(p, run).state, now).value.seconds * SECOND;
      && (AdmitStep(p, After(p, run), now + shown, stamp).0.Some? <==> wait <= SECOND || wait % SECOND == 0)
      && AdmitStep(p, After(p, run), now + shown + SECOND, stamp).0.Some?
  {
    hide After, AdmitStep;
    var shown := Refuses(p, After(p, run).state, now).value.seconds * SECOND;
    WaitIsExact(p, run, now, now + shown, stamp);
    WaitIsExact(p, run, now, now + shown + SECOND, stamp);
  }

  /** The message can be early: a thirty-second cooldown refused 300 ms in says 29
      seconds, and an attempt 29 seconds later is refused again. */
  lemma RetryHintEarly()
    ensures var p := Policy(1, 30 * SECOND);
      var i := After(p, [Attempt(0, 0), Outcome(Normal, false, 0)]);
      && Refuses(p, i.state, 300_000_000) == Some(CircuitOpen(1, 29))
      && AdmitStep(p, i, 300_000_000 + 29 * SECOND, 0).0.None?
  {
    var p, a, b := Policy(1, 30 * SECOND), Attempt(0, 0), Outcome(Normal, false, 0);
    assert [a, b][..1] == [a] && [a][..0] == [];
    assert After(p, [a]) == INITIAL;
    assert After(p, [a, b]) == INITIAL.(state := Open(0), openedTotal := 1);
  }

  /** Right after a claim others are refused, until both the cooldown and 50 ms have
      gone by since it was stamped. */
  lemma {:induction false} ClaimHolds(p: Policy, run: seq<Event>, now: Instant, stamp: Instant, later: Instant, next: Instant)
    requires AdmitStep(p, After(p, run), now, stamp).0 == Some(Probe(After(p, run).nextGeneration)) && stamp <= later
    ensures var t := After(p, run + [Attempt(now, stamp)]);
      AdmitStep(p, t, later, next).0.None? <==> later < stamp + p.cooldown || later < stamp + 50_000_000
  {
    assert (run + [Attempt(now, stamp)])[..|run|] == run;
  }
}
