/** The life of one shed edge under pkg/shield/recovery.go, as a value: what one
    control tick does to it, and what follows for every run of ticks. */
module EdgeTrack {
  import opened Common
  import opened Strategy

  /** The part of an edge's state that changes from tick to tick. */
  datatype Track = Track(shed: real, lowCount: nat)

  ghost predicate Proper(cfg: ShieldConfig) {
    cfg.rampUp >= 0.0 && cfg.rampDown >= 0.0 && cfg.maxShed >= 0.0
  }

  /** Shed value after a tick with a decision for the given target. */
  function RampTo(cfg: ShieldConfig, current: real, target: real): real {
    if current < target then
      var up := current + cfg.rampUp;
      var capped := if up > target then target else up;
      if capped > cfg.maxShed then cfg.maxShed else capped
    else if current > target then
      var down := current - cfg.rampDown;
      if down < target then target else down
    else current
  }

  function AfterDecision(cfg: ShieldConfig, t: Option<Track>, target: real): Track {
    Track(RampTo(cfg, if t.Some? then t.value.shed else 0.0, target), 0)
  }

  /** A tick without a decision: None when the edge is removed. */
  function AfterLow(cfg: ShieldConfig, t: Track): Option<Track> {
    var shed := if t.shed - cfg.rampDown < 0.0 then 0.0 else t.shed - cfg.rampDown;
    if t.lowCount + 1 >= cfg.lowIntervals then None
    else if shed > 0.0 then Some(Track(shed, t.lowCount + 1))
    else None
  }

  /** One tick of one edge; target is its decision in this tick, if any. */
  function Tick(cfg: ShieldConfig, t: Option<Track>, target: Option<real>): Option<Track> {
    if target.Some? then Some(AfterDecision(cfg, t, target.value))
    else if t.Some? then AfterLow(cfg, t.value)
    else None
  }

  function Run(cfg: ShieldConfig, start: Option<Track>, targets: seq<Option<real>>): Option<Track> {
    if |targets| == 0 then start
    else Tick(cfg, Run(cfg, start, targets[..|targets| - 1]), targets[|targets| - 1])
  }

  function ShedOf(t: Option<Track>): real {
    if t.Some? then t.value.shed else 0.0
  }

  /** n ramp-down steps. */
  ghost function Steps(cfg: ShieldConfig, n: nat): real {
    Multiple(n, cfg.rampDown)
  }

  lemma {:induction false} StepsMonotone(cfg: ShieldConfig, m: nat, n: nat)
    requires Proper(cfg) && m <= n
    ensures 0.0 <= Steps(cfg, m) <= Steps(cfg, n)
    decreases n
  {
    if m < n {
      StepsMonotone(cfg, m, n - 1);
    } else if m > 0 {
      StepsMonotone(cfg, m - 1, n - 1);
    }
  }

  /** How many low ticks an edge can be tracked through, counting the last. */
  function Patience(cfg: ShieldConfig): nat {
    if cfg.lowIntervals < 1 then 1 else cfg.lowIntervals
  }

  /** The safety invariant of a tracked edge. */
  ghost predicate Safe(cfg: ShieldConfig, t: Track) {
    && 0.0 <= t.shed
    && t.shed + Steps(cfg, t.lowCount) <= cfg.maxShed
    && t.lowCount < Patience(cfg)
  }

  ghost predicate SafeIfTracked(cfg: ShieldConfig, t: Option<Track>) {
    t.Some? ==> Safe(cfg, t.value)
  }

  ghost predicate ProperTarget(target: Option<real>) {
    target.Some? ==> target.value >= 0.0
  }

  lemma TickSafe(cfg: ShieldConfig, t: Option<Track>, target: Option<real>)
    requires Proper(cfg) && SafeIfTracked(cfg, t) && ProperTarget(target)
    ensures SafeIfTracked(cfg, Tick(cfg, t, target))
  {
    if t.Some? {
      StepsMonotone(cfg, 0, t.value.lowCount);
    }
  }

  lemma {:induction false} RunKeepsSafe(cfg: ShieldConfig, start: Option<Track>, targets: seq<Option<real>>)
    requires Proper(cfg) && SafeIfTracked(cfg, start)
    requires forall i :: 0 <= i < |targets| ==> ProperTarget(targets[i])
    ensures SafeIfTracked(cfg, Run(cfg, start, targets))
  {
    if |targets| > 0 {
      RunKeepsSafe(cfg, start, targets[..|targets| - 1]);
      TickSafe(cfg, Run(cfg, start, targets[..|targets| - 1]), targets[|targets| - 1]);
    }
  }

  /** Shield safety over every run: 0 <= shed, shed + lowCount * rampDown <= maxShed
      and the low count stays below the number of intervals for removal. */
  lemma {:induction false} RunSafe(cfg: ShieldConfig, targets: seq<Option<real>>)
    requires Proper(cfg)
    requires forall i :: 0 <= i < |targets| ==> ProperTarget(targets[i])
    requires Run(cfg, None, targets).Some?
    ensures var t := Run(cfg, None, targets).value;
      && 0.0 <= t.shed && t.shed + t.lowCount as real * cfg.rampDown <= cfg.maxShed
      && t.lowCount < Patience(cfg)
  {
    RunKeepsSafe(cfg, None, targets);
    MultipleIsProduct(Run(cfg, None, targets).value.lowCount, cfg.rampDown);
  }

  /** Rate limits of one tick: up by at most rampUp; down by at most rampDown when
      the edge stays tracked; a removal drops at most the larger of rampDown and
      what is left of maxShed after all but the last low interval. */
  ghost predicate RateLimited(cfg: ShieldConfig, before: Option<Track>, after: Option<Track>) {
    && ShedOf(after) <= ShedOf(before) + cfg.rampUp
    && (after.Some? ==> ShedOf(before) - cfg.rampDown <= ShedOf(after))
    && (after.None? ==>
          ShedOf(before) <= MaxReal(cfg.rampDown, cfg.maxShed - Steps(cfg, Patience(cfg) - 1)))
  }

  lemma TickRateLimited(cfg: ShieldConfig, t: Option<Track>, target: Option<real>)
    requires Proper(cfg) && SafeIfTracked(cfg, t) && ProperTarget(target)
    ensures RateLimited(cfg, t, Tick(cfg, t, target))
  {
    if t.Some? {
      StepsMonotone(cfg, 0, t.value.lowCount);
      if target.None? && t.value.lowCount + 1 >= cfg.lowIntervals {
        StepsMonotone(cfg, Patience(cfg) - 1, t.value.lowCount);
      }
    }
  }

  /** k ticks in a row with the same decision, or with none. */
  function Repeat(target: Option<real>, k: nat): seq<Option<real>> {
    seq(k, _ => target)
  }

  lemma RepeatLast(target: Option<real>, k: nat)
    requires k > 0
    ensures Repeat(target, k)[..k - 1] == Repeat(target, k - 1) && Repeat(target, k)[k - 1] == target
  {
  }

  /** n ramp-up steps. */
  ghost function Climb(cfg: ShieldConfig, n: nat): real {
    Multiple(n, cfg.rampUp)
  }

  lemma StepsIsProduct(cfg: ShieldConfig, n: nat)
    ensures Steps(cfg, n) == n as real * cfg.rampDown
  {
    hide Multiple;
    MultipleIsProduct(n, cfg.rampDown);
  }

  lemma ClimbIsProduct(cfg: ShieldConfig, n: nat)
    ensures Climb(cfg, n) == n as real * cfg.rampUp
  {
    hide Multiple;
    MultipleIsProduct(n, cfg.rampUp);
  }

  lemma {:induction false} RampClosedForm(cfg: ShieldConfig, target: real, n: nat)
    requires Proper(cfg) && target >= 0.0 && n >= 1
    ensures Run(cfg, None, Repeat(Some(target), n)) ==
            Some(Track(MinReal(MinReal(Climb(cfg, n), target), cfg.maxShed), 0))
  {
    RepeatLast(Some(target), n);
    if n > 1 {
      RampClosedForm(cfg, target, n - 1);
      ClimbNonNegative(cfg, n - 1);
    } else {
      assert Run(cfg, None, Repeat(Some(target), 0)) == None;
      assert Climb(cfg, 0) == 0.0;
    }
  }

  lemma {:induction false} ClimbNonNegative(cfg: ShieldConfig, n: nat)
    requires Proper(cfg)
    ensures Climb(cfg, n) >= 0.0
  {
    if n > 0 {
      ClimbNonNegative(cfg, n - 1);
    }
  }

  /** Ramp convergence: a new edge under a constant target has shed
      min(n * rampUp, target, maxShed) after n ticks. */
  lemma RampConvergence(cfg: ShieldConfig, target: real, n: nat)
    requires Proper(cfg) && target >= 0.0 && n >= 1
    ensures Run(cfg, None, Repeat(Some(target), n)) ==
            Some(Track(MinReal(MinReal(n as real * cfg.rampUp, target), cfg.maxShed), 0))
  {
    hide Run, MinReal;
    RampClosedForm(cfg, target, n);
    ClimbIsProduct(cfg, n);
  }

  /** Where n ticks with the same target take a shed value: down to the target by
      rampDown a tick, or up to it and to maxShed by rampUp a tick. */
  ghost function Led(cfg: ShieldConfig, s: real, target: real, down: real, up: real): real {
    if s >= target then MaxReal(s - down, target) else MinReal(MinReal(s + up, target), cfg.maxShed)
  }

  lemma LedOn(cfg: ShieldConfig, s: real, target: real, down: real, up: real)
    requires Proper(cfg) && 0.0 <= s <= cfg.maxShed && target >= 0.0 && down >= 0.0 && up >= 0.0
    ensures RampTo(cfg, Led(cfg, s, target, down, up), target) ==
            Led(cfg, s, target, down + cfg.rampDown, up + cfg.rampUp)
  {
  }

  lemma {:induction false} RampFromClosed(cfg: ShieldConfig, t: Track, target: real, n: nat)
    requires Proper(cfg) && Safe(cfg, t) && target >= 0.0 && n >= 1
    ensures Run(cfg, Some(t), Repeat(Some(target), n)) ==
            Some(Track(Led(cfg, t.shed, target, Steps(cfg, n), Climb(cfg, n)), 0))
  {
    RepeatLast(Some(target), n);
    ClimbNonNegative(cfg, n - 1);
    StepsMonotone(cfg, 0, n - 1);
    StepsMonotone(cfg, 0, t.lowCount);
    LedOn(cfg, t.shed, target, Steps(cfg, n - 1), Climb(cfg, n - 1));
    hide Led, RampTo;
    if n > 1 {
      RampFromClosed(cfg, t, target, n - 1);
    } else {
      assert Run(cfg, Some(t), Repeat(Some(target), 0)) == Some(t);
      LedNowhere(cfg, t, target);
    }
  }

  lemma LedNowhere(cfg: ShieldConfig, t: Track, target: real)
    requires Proper(cfg) && Safe(cfg, t)
    ensures Led(cfg, t.shed, target, 0.0, 0.0) == t.shed
  {
    StepsMonotone(cfg, 0, t.lowCount);
  }

  /** n ticks with target T take a shed s at or above T to max(s - n * rampDown, T), and
      one at or below it to min(s + n * rampUp, T, maxShed). */
  ghost predicate Converged(cfg: ShieldConfig, s: real, target: real, n: nat, after: real) {
    && (s >= target ==> after == MaxReal(s - n as real * cfg.rampDown, target))
    && (s <= target ==> after == MinReal(MinReal(s + n as real * cfg.rampUp, target), cfg.maxShed))
  }

  /** Convergence from any safe tracked edge; the low count is cleared. */
  lemma RampFrom(cfg: ShieldConfig, t: Track, target: real, n: nat)
    requires Proper(cfg) && Safe(cfg, t) && target >= 0.0 && n >= 1
    ensures var after := Run(cfg, Some(t), Repeat(Some(target), n));
      after.Some? && after.value.lowCount == 0 && Converged(cfg, t.shed, target, n, after.value.shed)
  {
    hide Run, MinReal, MaxReal;
    RampFromClosed(cfg, t, target, n);
    ClimbIsProduct(cfg, n);
    StepsIsProduct(cfg, n);
    LedAtTarget(cfg, t, target, Steps(cfg, n), Climb(cfg, n));
    ClimbNonNegative(cfg, n);
    StepsMonotone(cfg, 0, n);
  }

  /** An untracked edge ramps like a tracked one at zero. */
  lemma {:induction false} FirstDecisions(cfg: ShieldConfig, target: real, n: nat)
    requires Proper(cfg) && n >= 1
    ensures Safe(cfg, Track(0.0, 0))
    ensures Run(cfg, None, Repeat(Some(target), n)) == Run(cfg, Some(Track(0.0, 0)), Repeat(Some(target), n))
  {
    RepeatLast(Some(target), n);
    if n > 1 {
      FirstDecisions(cfg, target, n - 1);
    } else {
      assert Repeat(Some(target), 0) == [];
    }
  }

  lemma LedAtTarget(cfg: ShieldConfig, t: Track, target: real, down: real, up: real)
    requires Proper(cfg) && Safe(cfg, t)
    ensures t.shed == target && down >= 0.0 && up >= 0.0 ==>
            MaxReal(t.shed - down, target) == MinReal(MinReal(t.shed + up, target), cfg.maxShed)
  {
    StepsMonotone(cfg, 0, t.lowCount);
  }

  /** Recovery in closed form: k >= 1 low ticks after a decision left shed s, the
      edge is still tracked exactly when k is below the removal limit and s is
      more than k ramp-down steps, and then holds s minus these steps. So it is
      gone at the latest after Patience low ticks, and earlier when its shed runs
      out first. */
  lemma {:induction false} RecoveryClosedForm(cfg: ShieldConfig, s: real, k: nat)
    requires Proper(cfg) && s >= 0.0 && k >= 1
    ensures Run(cfg, Some(Track(s, 0)), Repeat(None, k)) ==
            if k < Patience(cfg) && s > Steps(cfg, k) then Some(Track(s - Steps(cfg, k), k)) else None
  {
    RepeatLast(None, k);
    if k > 1 {
      RecoveryClosedForm(cfg, s, k - 1);
    } else {
      assert Run(cfg, Some(Track(s, 0)), Repeat(None, 1)[..0]) == Some(Track(s, 0));
      assert Steps(cfg, 0) == 0.0;
    }
  }

  /** Any tracked edge is gone after Patience ticks in a row without a decision. */
  lemma {:induction false} GoneAfterPatience(cfg: ShieldConfig, t: Option<Track>, k: nat)
    requires k >= 1
    ensures var after := Run(cfg, t, Repeat(None, k));
      after.Some? ==> after.value.lowCount >= k && after.value.lowCount < cfg.lowIntervals
    ensures k >= Patience(cfg) ==> Run(cfg, t, Repeat(None, k)).None?
  {
    RepeatLast(None, k);
    if k > 1 {
      GoneAfterPatience(cfg, t, k - 1);
    }
  }

  // ---------------------------------------------------------------------
  // The promise that shedding never falls by more than RampDownStep
  // ---------------------------------------------------------------------

  /** After any run from an untracked edge, the next tick lowers the shed value by
      at most rampDown. */
  ghost predicate GentleAlways(cfg: ShieldConfig) {
    forall targets: seq<Option<real>>, next: Option<real> ::
      (forall i :: 0 <= i < |targets| ==> ProperTarget(targets[i])) && ProperTarget(next) ==>
      GentleStep(cfg, targets, next)
  }

  ghost predicate GentleStep(cfg: ShieldConfig, targets: seq<Option<real>>, next: Option<real>) {
    ShedOf(Run(cfg, None, targets)) - cfg.rampDown <= ShedOf(Tick(cfg, Run(cfg, None, targets), next))
  }

  /** The documentation promises this gentleness without condition. The code keeps
      it exactly when all of maxShed can be walked down within the low intervals,
      or when nothing is ever shed. */
  lemma GentleIff(cfg: ShieldConfig)
    requires Proper(cfg)
    ensures GentleAlways(cfg) <==> cfg.rampUp == 0.0 || cfg.maxShed <= Steps(cfg, Patience(cfg))
  {
    if cfg.rampUp == 0.0 || cfg.maxShed <= Steps(cfg, Patience(cfg)) {
      forall targets: seq<Option<real>>, next: Option<real> |
        (forall i :: 0 <= i < |targets| ==> ProperTarget(targets[i])) && ProperTarget(next)
        ensures GentleStep(cfg, targets, next)
      {
        RunKeepsSafe(cfg, None, targets);
        TickRateLimited(cfg, Run(cfg, None, targets), next);
        if cfg.rampUp == 0.0 {
          NothingShed(cfg, targets);
        }
      }
    } else {
      var n := (cfg.maxShed / cfg.rampUp).Floor + 1;
      EnoughTicks(cfg.maxShed, cfg.rampUp, n);
      ClimbIsProduct(cfg, n);
      NotGentle(cfg, n);
    }
  }

  lemma {:induction false} NothingShed(cfg: ShieldConfig, targets: seq<Option<real>>)
    requires Proper(cfg) && cfg.rampUp == 0.0
    requires forall i :: 0 <= i < |targets| ==> ProperTarget(targets[i])
    ensures ShedOf(Run(cfg, None, targets)) == 0.0
  {
    if |targets| > 0 {
      NothingShed(cfg, targets[..|targets| - 1]);
    }
  }

  lemma {:induction false} RunConcat(cfg: ShieldConfig, t: Option<Track>, a: seq<Option<real>>, b: seq<Option<real>>)
    ensures Run(cfg, t, a + b) == Run(cfg, Run(cfg, t, a), b)
  {
    if |b| == 0 {
      assert a + b == a;
    } else {
      RunConcat(cfg, t, a, b[..|b| - 1]);
      assert (a + b)[..|a + b| - 1] == a + b[..|b| - 1];
    }
  }

  /** Ramp all the way up, then let Patience - 1 low ticks pass. */
  lemma SteepRun(cfg: ShieldConfig, n: nat)
    requires Proper(cfg) && cfg.rampUp > 0.0 && cfg.maxShed > Steps(cfg, Patience(cfg))
    requires n >= 1 && Climb(cfg, n) >= cfg.maxShed
    ensures Run(cfg, None, Repeat(Some(cfg.maxShed), n) + Repeat(None, Patience(cfg) - 1)) ==
            Some(Track(cfg.maxShed - Steps(cfg, Patience(cfg) - 1), Patience(cfg) - 1))
  {
    var up := Repeat(Some(cfg.maxShed), n);
    var low := Repeat(None, Patience(cfg) - 1);
    RampClosedForm(cfg, cfg.maxShed, n);
    RunConcat(cfg, None, up, low);
    StepsMonotone(cfg, Patience(cfg) - 1, Patience(cfg));
    if Patience(cfg) > 1 {
      RecoveryClosedForm(cfg, cfg.maxShed, Patience(cfg) - 1);
    } else {
      assert low == [];
    }
  }

  /** The next low tick then removes what is left at once. */
  lemma NotGentle(cfg: ShieldConfig, n: nat)
    requires Proper(cfg) && cfg.rampUp > 0.0 && cfg.maxShed > Steps(cfg, Patience(cfg))
    requires n >= 1 && Climb(cfg, n) >= cfg.maxShed
    ensures !GentleAlways(cfg)
  {
    var targets := Repeat(Some(cfg.maxShed), n) + Repeat(None, Patience(cfg) - 1);
    SteepRun(cfg, n);
    assert !GentleStep(cfg, targets, None);
    assert forall i :: 0 <= i < |targets| ==> ProperTarget(targets[i]);
  }

  lemma EnoughTicks(top: real, step: real, n: int)
    requires step > 0.0 && top >= 0.0 && n == (top / step).Floor + 1
    ensures n >= 1 && n as real * step >= top
  {
    var q := top / step;
    assert q * step == top;
    ProductMonotone(step, q, n as real);
  }

  /** With the default configuration the promise fails. */
  lemma DefaultsAreNotGentle()
    ensures !GentleAlways(DEFAULTS)
  {
    GentleIff(DEFAULTS);
    MultipleIsProduct(3, DEFAULTS.rampDown);
  }

  // ---------------------------------------------------------------------
  // The promise that an edge is removed only after all low intervals
  // ---------------------------------------------------------------------

  /** Ticks without a decision since the last decision. */
  function TrailingLow(targets: seq<Option<real>>): (n: nat)
    ensures n <= |targets|
  {
    if |targets| == 0 || targets[|targets| - 1].Some? then 0 else 1 + TrailingLow(targets[..|targets| - 1])
  }

  /** Targets as the strategy decides them, never below its floor. */
  ghost predicate AtFloor(targets: seq<Option<real>>) {
    forall i :: 0 <= i < |targets| && targets[i].Some? ==> targets[i].value >= MIN_SHED
  }

  /** Once decided, the edge is tracked until the low intervals have all passed. */
  ghost predicate KeptFor(cfg: ShieldConfig, targets: seq<Option<real>>) {
    TrailingLow(targets) < |targets| && TrailingLow(targets) < Patience(cfg) ==> Run(cfg, None, targets).Some?
  }

  ghost predicate PatientAlways(cfg: ShieldConfig) {
    forall targets: seq<Option<real>> :: AtFloor(targets) ==> KeptFor(cfg, targets)
  }

  /** The least a decided edge can shed. */
  function LeastShed(cfg: ShieldConfig): real {
    MinReal(MinReal(cfg.rampUp, MIN_SHED), cfg.maxShed)
  }

  /** Even the least shed outlasts all but the last low interval. */
  ghost predicate Outlasts(cfg: ShieldConfig) {
    Patience(cfg) == 1 || LeastShed(cfg) > Steps(cfg, Patience(cfg) - 1)
  }

  lemma {:induction false} OutlastingIsKept(cfg: ShieldConfig, targets: seq<Option<real>>)
    requires Proper(cfg) && Outlasts(cfg) && AtFloor(targets)
    requires TrailingLow(targets) < |targets| && TrailingLow(targets) < Patience(cfg)
    ensures var t := Run(cfg, None, targets);
      && t.Some? && t.value.lowCount == TrailingLow(targets)
      && t.value.shed + Steps(cfg, t.value.lowCount) >= LeastShed(cfg)
  {
    var before := targets[..|targets| - 1];
    var last := targets[|targets| - 1];
    if last.Some? {
      forall i | 0 <= i < |before|
        ensures ProperTarget(before[i])
      {
      }
      RunKeepsSafe(cfg, None, before);
      DecidedAtLeast(cfg, Run(cfg, None, before), last.value);
    } else {
      OutlastingIsKept(cfg, before);
      StepsMonotone(cfg, TrailingLow(targets), Patience(cfg) - 1);
    }
  }

  lemma DecidedAtLeast(cfg: ShieldConfig, t: Option<Track>, target: real)
    requires Proper(cfg) && SafeIfTracked(cfg, t) && target >= MIN_SHED
    ensures AfterDecision(cfg, t, target).shed >= LeastShed(cfg)
  {
  }

  /** The promise of pkg/shield/recovery.go that removal waits for all low intervals.
      The code removes an edge as soon as its shed reaches zero, so it keeps the
      promise exactly when even the least shed outlasts the intervals. */
  lemma PatientIff(cfg: ShieldConfig)
    requires Proper(cfg)
    ensures PatientAlways(cfg) <==> Outlasts(cfg)
  {
    if Outlasts(cfg) {
      forall targets: seq<Option<real>> | AtFloor(targets)
        ensures KeptFor(cfg, targets)
      {
        if TrailingLow(targets) < |targets| && TrailingLow(targets) < Patience(cfg) {
          OutlastingIsKept(cfg, targets);
        }
      }
    } else {
      var targets := OneDecision(MIN_SHED, Patience(cfg) - 1);
      OneDecisionLow(MIN_SHED, Patience(cfg) - 1);
      OneDecisionGone(cfg, Patience(cfg) - 1);
      assert !KeptFor(cfg, targets);
    }
  }

  /** One decision, then k ticks without. */
  function OneDecision(target: real, k: nat): seq<Option<real>> {
    [Some(target)] + Repeat(None, k)
  }

  lemma {:induction false} OneDecisionLow(target: real, k: nat)
    ensures TrailingLow(OneDecision(target, k)) == k
  {
    var all := OneDecision(target, k);
    if k > 0 {
      OneDecisionLow(target, k - 1);
      assert all[..|all| - 1] == OneDecision(target, k - 1);
    }
  }

  /** A floor decision is walked down to nothing in k low ticks when the least shed
      is at most k steps. */
  lemma OneDecisionGone(cfg: ShieldConfig, k: nat)
    requires Proper(cfg) && k >= 1 && LeastShed(cfg) <= Steps(cfg, k)
    ensures Run(cfg, None, OneDecision(MIN_SHED, k)).None?
  {
    var first := [Some(MIN_SHED)];
    assert first[..0] == [];
    RunConcat(cfg, None, first, Repeat(None, k));
    RecoveryClosedForm(cfg, LeastShed(cfg), k);
  }

  /** With the defaults a floor decision is gone after one low tick instead of
      three. */
  lemma DefaultsRemoveEarly()
    ensures Run(DEFAULTS, None, [Some(MIN_SHED), None]).None? && Patience(DEFAULTS) == 3
    ensures !PatientAlways(DEFAULTS)
  {
    assert OneDecision(MIN_SHED, 1) == [Some(MIN_SHED), None];
    MultipleIsProduct(1, DEFAULTS.rampDown);
    MultipleIsProduct(2, DEFAULTS.rampDown);
    OneDecisionGone(DEFAULTS, 1);
    PatientIff(DEFAULTS);
  }
}
