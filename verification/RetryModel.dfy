/** pkg/simulator/models/retry.go: the retry amplification fixed point. */
module RetryModel {
  import opened Common
  import opened FailureModels

  /** The inputs that stay fixed during one analysis. */
  datatype Setting = Setting(rate: real, base: real, retries: real, capacity: real)

  ghost predicate Proper(s: Setting) {
    s.rate > 0.0 && s.retries > 0.0 && 0.0 <= s.base <= 1.0
  }

  /** Attempts per request when a fraction err of attempts fails. */
  function Amplified(retries: real, err: real): real {
    1.0 + err * retries
  }

  /** Load when a fraction err of requests fails and is retried. */
  function Load(s: Setting, err: real): real {
    s.rate * Amplified(s.retries, err)
  }

  predicate Overloaded(s: Setting, load: real) {
    s.capacity > 0.0 && load > s.capacity
  }

  /** How far the load is over capacity, as a share of it, at most 1. */
  function Overload(s: Setting, load: real): real
    requires Overloaded(s, load)
  {
    Clamp((load - s.capacity) / s.capacity, 0.0, 1.0)
  }

  /** Error rate the model expects under a given load. */
  function ErrorUnder(s: Setting, load: real): real {
    if Overloaded(s, load) then s.base + (1.0 - s.base) * Overload(s, load) else s.base
  }

  /** One round of the feedback loop, from error rate to error rate. */
  function Feedback(s: Setting, err: real): real {
    ErrorUnder(s, Load(s, err))
  }

  datatype Round = Round(load: real, err: real)

  /** The state after k rounds. */
  function Iterate(s: Setting, k: nat): Round {
    if k == 0 then Round(s.rate, s.base)
    else
      var prev := Iterate(s, k - 1);
      Round(Load(s, prev.err), Clamp(Feedback(s, prev.err), 0.0, 1.0))
  }

  function Abs(x: real): real {
    if x < 0.0 then -x else x
  }

  /** The convergence test after round k. */
  predicate Settled(s: Setting, k: nat)
    requires k >= 1
  {
    var prev := Iterate(s, k - 1);
    && Abs(Load(s, prev.err) - prev.load) < 0.01 * s.rate
    && Abs(Feedback(s, prev.err) - prev.err) < 0.001
  }

  /** The loop leaves after round k: k is the first settled round, or the limit. */
  ghost predicate StopsAt(s: Setting, limit: nat, k: nat) {
    && 1 <= k <= limit
    && (k == limit || Settled(s, k))
    && forall j :: 1 <= j < k ==> !Settled(s, j)
  }

  function Classify(s: Setting, r: Round): ModelResult
    requires s.rate > 0.0
  {
    var amplification := r.load / s.rate;
    if r.err > 0.9 || (s.capacity > 0.0 && r.load > s.capacity * 2.0) then
      ModelResult(Exhausted, -1, amplification, 0)
    else if amplification > 1.5 || r.err > 0.5 then ModelResult(Degraded, -1, amplification, 0)
    else ModelResult(Healthy, -1, amplification, 0)
  }

  function RetrySetting(rate: real, base: real, params: EdgeParams, capacity: real): Setting {
    Setting(rate, base, params.maxRetries as real, capacity)
  }

  function Limit(maxIterations: int): nat {
    if maxIterations <= 0 then 10 else maxIterations
  }

  /** The round at which the loop leaves, searching from round k on. */
  function StopRound(s: Setting, limit: nat, k: nat): (r: nat)
    requires 1 <= k <= limit
    ensures k <= r <= limit
    decreases limit - k
  {
    if k == limit || Settled(s, k) then k else StopRound(s, limit, k + 1)
  }

  lemma {:induction false} StopRoundIsFirst(s: Setting, limit: nat, k: nat)
    requires 1 <= k <= limit
    requires forall j :: 1 <= j < k ==> !Settled(s, j)
    ensures StopsAt(s, limit, StopRound(s, limit, k))
    decreases limit - k
  {
    if k < limit && !Settled(s, k) {
      StopRoundIsFirst(s, limit, k + 1);
    }
  }

  lemma {:induction false} StopRoundFrom(s: Setting, limit: nat, i: nat, k: nat)
    requires 1 <= i <= k && StopsAt(s, limit, k)
    ensures StopRound(s, limit, i) == k
    decreases k - i
  {
    if i < k {
      StopRoundFrom(s, limit, i + 1, k);
    }
  }

  /** What RetryAmplification computes. */
  function RetryVerdict(rate: real, base: real, params: EdgeParams, capacity: real, maxIterations: int): ModelResult {
    if params.maxRetries <= 0 || rate <= 0.0 then ModelResult(Healthy, -1, 1.0, 0)
    else
      Settle(RetrySetting(rate, base, params, capacity), Limit(maxIterations))
  }

  /** The verdict once the loop has left. */
  function Settle(s: Setting, limit: nat): ModelResult
    requires s.rate > 0.0 && limit >= 1
  {
    Classify(s, Iterate(s, StopRound(s, limit, 1)))
  }

  /** One pass through the body of the loop. */
  method RunRound(s: Setting, currentErrorRate: real) returns (newRate: real, newErrorRate: real)
    ensures newRate == Load(s, currentErrorRate)
    ensures newErrorRate == Feedback(s, currentErrorRate)
  {
    var amplification := 1.0 + currentErrorRate * s.retries;
    newRate := s.rate * amplification;
    newErrorRate := s.base;
    if s.capacity > 0.0 && newRate > s.capacity {
      var overloadFactor := (newRate - s.capacity) / s.capacity;
      newErrorRate := s.base + (1.0 - s.base) * Clamp(overloadFactor, 0.0, 1.0);
    }
  }

  /** The fixed-point loop computes exactly the first settled iterate. */
  method RetryAmplification(baseRequestRate: real, baseErrorRate: real, params: EdgeParams, capacity: real,
                            maxIterations: int) returns (result: ModelResult)
    ensures result == RetryVerdict(baseRequestRate, baseErrorRate, params, capacity, maxIterations)
  {
    if params.maxRetries <= 0 || baseRequestRate <= 0.0 {
      return ModelResult(Healthy, -1, 1.0, 0);
    }
    var limit := maxIterations;
    if limit <= 0 {
      limit := 10;
    }
    var currentRate := baseRequestRate;
    var currentErrorRate := baseErrorRate;
    var s := RetrySetting(baseRequestRate, baseErrorRate, params, capacity);
    var i := 0;
    var converged := false;
    while i < limit && !converged
      invariant 0 <= i <= limit
      invariant Round(currentRate, currentErrorRate) == Iterate(s, i)
      invariant converged ==> i >= 1 && Settled(s, i)
      invariant forall j :: 1 <= j < i || (j == i >= 1 && !converged) ==> !Settled(s, j)
      decreases limit - i
    {
      var newRate, newErrorRate := RunRound(s, currentErrorRate);
      var rateDelta := Abs(newRate - currentRate);
      var errorDelta := Abs(newErrorRate - currentErrorRate);
      if rateDelta < 0.01 * baseRequestRate && errorDelta < 0.001 {
        converged := true;
      }
      currentRate := newRate;
      currentErrorRate := Clamp(newErrorRate, 0.0, 1.0);
      i := i + 1;
      assert converged <==> Settled(s, i);
    }
    StopRoundFrom(s, limit, 1, i);
    result := Classify(s, Round(currentRate, currentErrorRate));
  }

  lemma AmplifiedMonotone(retries: real, e: real, e': real)
    requires retries >= 0.0 && e <= e'
    ensures Amplified(retries, e) <= Amplified(retries, e')
  {
    ProductMonotone(retries, e, e');
  }

  lemma LoadMonotone(s: Setting, e: real, e': real)
    requires Proper(s) && e <= e'
    ensures Load(s, e) <= Load(s, e')
  {
    AmplifiedMonotone(s.retries, e, e');
    ProductMonotone(s.rate, Amplified(s.retries, e), Amplified(s.retries, e'));
  }

  /** Moving part of the way from base to 1. */
  lemma Blend(base: real, p: real, q: real)
    requires 0.0 <= base <= 1.0 && 0.0 <= p <= q <= 1.0
    ensures base <= base + (1.0 - base) * p <= base + (1.0 - base) * q <= 1.0
  {
    ProductMonotone(1.0 - base, 0.0, p);
    ProductMonotone(1.0 - base, p, q);
    ProductMonotone(1.0 - base, q, 1.0);
  }

  lemma OverloadMonotone(s: Setting, x: real, y: real)
    requires Overloaded(s, x) && x <= y
    ensures 0.0 <= Overload(s, x) <= Overload(s, y) <= 1.0
  {
    QuotientMonotone(s.capacity, x - s.capacity, y - s.capacity);
  }

  lemma ErrorUnderBounds(s: Setting, x: real)
    requires Proper(s)
    ensures s.base <= ErrorUnder(s, x) <= 1.0
  {
    if Overloaded(s, x) {
      OverloadMonotone(s, x, x);
      Blend(s.base, Overload(s, x), Overload(s, x));
    }
  }

  lemma ErrorUnderMonotone(s: Setting, x: real, y: real)
    requires Proper(s) && x <= y
    ensures s.base <= ErrorUnder(s, x) <= ErrorUnder(s, y) <= 1.0
  {
    ErrorUnderBounds(s, x);
    ErrorUnderBounds(s, y);
    if Overloaded(s, x) {
      OverloadMonotone(s, x, y);
      Blend(s.base, Overload(s, x), Overload(s, y));
    }
  }

  /** The error rate that the documentation of the model gives for an overload. */
  function DocumentedError(s: Setting, load: real): real
    requires load > 0.0
  {
    s.base + (1.0 - s.base) * (1.0 - s.capacity / load)
  }

  /** The code measures the overload against the capacity, the documentation against
      the load. For a base below 1 the code's rate is strictly higher; the two agree
      exactly for a base of 1. */
  lemma DocumentedErrorIff(s: Setting, load: real)
    requires Overloaded(s, load) && s.base <= 1.0
    ensures DocumentedError(s, load) <= ErrorUnder(s, load)
    ensures DocumentedError(s, load) == ErrorUnder(s, load) <==> s.base == 1.0
  {
    OverloadAboveDocumented(s, load);
    var p, q := 1.0 - s.capacity / load, Overload(s, load);
    BlendStrict(s.base, p, q);
  }

  lemma OverloadAboveDocumented(s: Setting, load: real)
    requires Overloaded(s, load)
    ensures 1.0 - s.capacity / load < Overload(s, load)
  {
    var r := s.capacity / load;
    var w := 1.0 - r;
    var x := (load - s.capacity) / s.capacity;
    SharesOf(s.capacity, load, r);
    SharesOf(load - s.capacity, s.capacity, x);
    StrictShare(r, w, load, s.capacity);
    CancelRealFactor(s.capacity, w, x);
    PositiveShare(s.capacity, load);
  }

  lemma PositiveShare(a: real, b: real)
    requires a > 0.0 && b > 0.0
    ensures a / b > 0.0
  {
  }

  lemma StrictShare(r: real, w: real, load: real, capacity: real)
    requires 0.0 < capacity < load && r * load == capacity && w == 1.0 - r
    ensures capacity * w < load - capacity
  {
    assert w * load == load - r * load;
    if w <= 0.0 {
      ProductMonotone(load, w, 0.0);
    }
    StrictProduct(w, capacity, load);
  }

  lemma BlendStrict(base: real, p: real, q: real)
    requires base <= 1.0 && p < q
    ensures base + (1.0 - base) * p <= base + (1.0 - base) * q
    ensures base + (1.0 - base) * p == base + (1.0 - base) * q <==> base == 1.0
  {
    if base < 1.0 {
      StrictProduct(1.0 - base, p, q);
    }
  }

  lemma FeedbackMonotone(s: Setting, e: real, e': real)
    requires Proper(s) && e <= e'
    ensures s.base <= Feedback(s, e) <= Feedback(s, e') <= 1.0
  {
    LoadMonotone(s, e, e');
    ErrorUnderMonotone(s, Load(s, e), Load(s, e'));
  }

  /** Monotone ascent: error iterates never fall and stay within [base, 1]. */
  lemma {:induction false} Ascent(s: Setting, k: nat)
    requires Proper(s)
    ensures s.base <= Iterate(s, k).err <= Iterate(s, k + 1).err <= 1.0
  {
    if k == 0 {
      FeedbackMonotone(s, s.base, s.base);
    } else {
      Ascent(s, k - 1);
      FeedbackMonotone(s, Iterate(s, k - 1).err, Iterate(s, k).err);
    }
  }

  /** The iterates stay below every error rate the feedback does not raise, in
      particular below the least fixed point. */
  lemma {:induction false} BelowFixedPoint(s: Setting, top: real, k: nat)
    requires Proper(s) && s.base <= top <= 1.0 && Feedback(s, top) <= top
    ensures Iterate(s, k).err <= top
  {
    if k > 0 {
      BelowFixedPoint(s, top, k - 1);
      FeedbackMonotone(s, Iterate(s, k - 1).err, top);
    }
  }

  lemma QuotientOfProduct(r: real, x: real, y: real)
    requires r > 0.0 && y == r * x
    ensures y / r == x
  {
  }

  lemma IterateAmplification(s: Setting, k: nat)
    requires s.rate > 0.0
    ensures Iterate(s, k + 1).load / s.rate == Amplified(s.retries, Iterate(s, k).err)
  {
    var a := Amplified(s.retries, Iterate(s, k).err);
    var y := Iterate(s, k + 1).load;
    assert y == s.rate * a;
    QuotientOfProduct(s.rate, a, y);
  }

  /** The amplification reported is that of the error rate one round earlier. */
  lemma SettledLoad(s: Setting, limit: nat) returns (k: nat)
    requires s.rate > 0.0 && limit >= 1
    ensures k + 1 == StopRound(s, limit, 1)
    ensures Settle(s, limit).additionalLoad == Amplified(s.retries, Iterate(s, k).err)
  {
    k := StopRound(s, limit, 1) - 1;
    IterateAmplification(s, k);
  }

  /** Retries per request. */
  ghost function Retried(s: Setting, err: real): real {
    err * s.retries
  }

  /** The load written out: the retries on top of each request. */
  lemma LoadIs(s: Setting, err: real, r: real, load: real)
    requires r == err * s.retries && load == s.rate * (1.0 + r)
    ensures Load(s, err) == load && Amplified(s.retries, err) == 1.0 + r && Retried(s, err) == r
  {
  }

  /** Amplification bounds: for a base error rate in [0, 1] the reported load lies
      between one round of retries and what any non-raising error rate gives. */
  lemma AmplificationBounds(rate: real, base: real, params: EdgeParams, capacity: real, maxIterations: int, top: real)
    requires rate > 0.0 && params.maxRetries > 0 && 0.0 <= base <= top <= 1.0
    requires Feedback(RetrySetting(rate, base, params, capacity), top) <= top
    ensures 1.0 + base * params.maxRetries as real <=
            RetryVerdict(rate, base, params, capacity, maxIterations).additionalLoad <=
            1.0 + top * params.maxRetries as real
  {
    var s := RetrySetting(rate, base, params, capacity);
    hide Feedback, Settle;
    SettingBounds(s, Limit(maxIterations), top, base * params.maxRetries as real, top * params.maxRetries as real);
  }

  lemma SettingBounds(s: Setting, limit: nat, top: real, r: real, r': real)
    requires Proper(s) && limit >= 1 && s.base <= top <= 1.0 && Feedback(s, top) <= top
    requires r == s.base * s.retries && r' == top * s.retries
    ensures 1.0 + r <= Settle(s, limit).additionalLoad <= 1.0 + r'
  {
    var k := SettledLoad(s, limit);
    LoadIs(s, s.base, r, s.rate * (1.0 + r));
    LoadIs(s, top, r', s.rate * (1.0 + r'));
    hide Amplified, Feedback, Iterate, StopRound, Settle;
    Ascent(s, k);
    BelowFixedPoint(s, top, k);
    AmplifiedMonotone(s.retries, s.base, Iterate(s, k).err);
    AmplifiedMonotone(s.retries, Iterate(s, k).err, top);
  }

  /** When the once-amplified load fits the capacity there is no feedback: every
      iterate keeps the base error and the load is exactly 1 + base * retries. */
  lemma {:induction false} NoFeedback(s: Setting, k: nat)
    requires Proper(s)
    requires s.capacity <= 0.0 || Load(s, s.base) <= s.capacity
    ensures Iterate(s, k).err == s.base
    ensures k >= 1 ==> Iterate(s, k).load == Load(s, s.base)
  {
    if k > 0 {
      NoFeedback(s, k - 1);
    }
  }

  lemma AmplificationWithinCapacity(rate: real, base: real, params: EdgeParams, capacity: real, maxIterations: int)
    requires rate > 0.0 && params.maxRetries > 0 && 0.0 <= base <= 1.0
    requires capacity <= 0.0 || rate * (1.0 + base * params.maxRetries as real) <= capacity
    ensures RetryVerdict(rate, base, params, capacity, maxIterations).additionalLoad ==
            1.0 + base * params.maxRetries as real
  {
    VerdictWithinCapacity(rate, base, params, capacity, maxIterations);
  }

  // ---------------------------------------------------------------------
  // The verdict
  // ---------------------------------------------------------------------

  /** Between capacity and twice the capacity the error rate rises linearly from the
      base to 1; up to capacity it is the base, beyond twice the capacity 1. */
  lemma ErrorByLoad(s: Setting, load: real)
    ensures s.capacity <= 0.0 || load <= s.capacity ==> ErrorUnder(s, load) == s.base
    ensures 0.0 < s.capacity < load <= 2.0 * s.capacity ==>
            (ErrorUnder(s, load) - s.base) * s.capacity == (1.0 - s.base) * (load - s.capacity)
    ensures 0.0 < s.capacity && load >= 2.0 * s.capacity ==> ErrorUnder(s, load) == 1.0
  {
    if Overloaded(s, load) {
      var x := (load - s.capacity) / s.capacity;
      SharesOf(load - s.capacity, s.capacity, x);
      OverloadShare(load, s.capacity, x);
      if load <= 2.0 * s.capacity {
        ScaledShare(1.0 - s.base, x, s.capacity, load - s.capacity);
      }
    }
  }

  /** A round sends each request again for the errors of the round before, and meets
      the error rate of that load. */
  lemma IterateStep(s: Setting, k: nat)
    requires Proper(s) && k >= 1
    ensures Iterate(s, 0) == Round(s.rate, s.base)
    ensures var before, after := Iterate(s, k - 1), Iterate(s, k);
      && after.load == s.rate * (1.0 + Retried(s, before.err))
      && (s.capacity <= 0.0 || after.load <= s.capacity ==> after.err == s.base)
      && (0.0 < s.capacity < after.load <= 2.0 * s.capacity ==>
            (after.err - s.base) * s.capacity == (1.0 - s.base) * (after.load - s.capacity))
      && (0.0 < s.capacity && after.load >= 2.0 * s.capacity ==> after.err == 1.0)
  {
    hide ErrorUnder, Load, Iterate, Retried;
    IterateIsRound(s, k);
    LoadWritten(s, Iterate(s, k - 1).err);
    ErrorByLoad(s, Iterate(s, k).load);
  }

  lemma LoadWritten(s: Setting, err: real)
    ensures Load(s, err) == s.rate * (1.0 + Retried(s, err))
  {
    var r := err * s.retries;
    LoadIs(s, err, r, s.rate * (1.0 + r));
  }

  lemma IterateIsRound(s: Setting, k: nat)
    requires Proper(s) && k >= 1
    ensures Iterate(s, 0) == Round(s.rate, s.base)
    ensures Iterate(s, k).load == Load(s, Iterate(s, k - 1).err)
    ensures Iterate(s, k).err == ErrorUnder(s, Iterate(s, k).load)
  {
    var load := Load(s, Iterate(s, k - 1).err);
    ErrorUnderBounds(s, load);
    assert Iterate(s, k) == Round(load, Clamp(ErrorUnder(s, load), 0.0, 1.0));
    hide ErrorUnder, Load, Iterate;
  }

  lemma OverloadShare(load: real, capacity: real, x: real)
    requires capacity > 0.0 && capacity * x == load - capacity
    ensures load >= capacity ==> x >= 0.0
    ensures x <= 1.0 <==> load <= 2.0 * capacity
  {
    if x < 0.0 {
      StrictProduct(capacity, x, 0.0);
    }
    if x > 1.0 {
      StrictProduct(capacity, 1.0, x);
    } else {
      ProductMonotone(capacity, x, 1.0);
    }
  }

  lemma ScaledShare(w: real, x: real, c: real, d: real)
    requires c * x == d
    ensures (w * x) * c == w * d
  {
  }

  /** Rounds k - 1 and k agree: loads within 1% of the rate, errors within 0.001. */
  ghost predicate Near(s: Setting, k: nat)
    requires k >= 1
  {
    var before, after := Iterate(s, k - 1), Iterate(s, k);
    && -0.01 * s.rate < after.load - before.load < 0.01 * s.rate
    && -0.001 < after.err - before.err < 0.001
  }

  lemma SettledIsNear(s: Setting, k: nat)
    requires Proper(s) && k >= 1
    ensures Settled(s, k) <==> Near(s, k)
  {
    Ascent(s, k - 1);
    FeedbackMonotone(s, Iterate(s, k - 1).err, Iterate(s, k - 1).err);
    hide Load, Feedback;
  }

  lemma SettleRound(s: Setting, limit: nat) returns (k: nat)
    requires Proper(s) && limit >= 1
    ensures 1 <= k <= limit && (k == limit || Near(s, k)) && (forall j: nat :: 1 <= j < k ==> !Near(s, j))
    ensures Settle(s, limit) == Classify(s, Iterate(s, k))
  {
    k := StopRound(s, limit, 1);
    StopRoundIsFirst(s, limit, 1);
    SettledIsNear(s, k);
    forall j: nat | 1 <= j < k
      ensures !Near(s, j)
    {
      SettledIsNear(s, j);
    }
  }

  /** The verdict is that of the first round that agrees with the one before, or of the
      last round, the tenth when no limit is given. */
  lemma VerdictRound(rate: real, base: real, params: EdgeParams, capacity: real, maxIterations: int) returns (k: nat)
    requires rate > 0.0 && params.maxRetries > 0 && 0.0 <= base <= 1.0
    ensures var s := RetrySetting(rate, base, params, capacity);
      var limit := if maxIterations <= 0 then 10 else maxIterations;
      && 1 <= k <= limit && (k == limit || Near(s, k)) && (forall j: nat :: 1 <= j < k ==> !Near(s, j))
      && RetryVerdict(rate, base, params, capacity, maxIterations) == Classify(s, Iterate(s, k))
  {
    k := SettleRound(RetrySetting(rate, base, params, capacity), Limit(maxIterations));
  }

  /** Amplification above 1.5 is more than half a retry per request. */
  lemma ClassifiedBy(s: Setting, r: Round, err: real)
    requires s.rate > 0.0 && r.load == Load(s, err)
    ensures var state, a := Classify(s, r).targetState, Retried(s, err);
      && (state == Exhausted <==> r.err > 0.9 || (s.capacity > 0.0 && r.load > 2.0 * s.capacity))
      && (state == Healthy <==>
            r.err <= 0.5 && a <= 0.5 && !(s.capacity > 0.0 && r.load > 2.0 * s.capacity))
      && Classify(s, r).additionalLoad == 1.0 + a
  {
    QuotientOfProduct(s.rate, 1.0 + Retried(s, err), r.load);
  }

  /** When the once-amplified load fits the capacity, or there is none, the verdict
      follows from base error rate and retries alone. */
  lemma VerdictWithinCapacity(rate: real, base: real, params: EdgeParams, capacity: real, maxIterations: int)
    requires rate > 0.0 && params.maxRetries > 0 && 0.0 <= base <= 1.0
    requires capacity <= 0.0 || rate * (1.0 + base * params.maxRetries as real) <= capacity
    ensures var v := RetryVerdict(rate, base, params, capacity, maxIterations);
      var retried := base * params.maxRetries as real;
      && (v.targetState == Exhausted <==> base > 0.9)
      && (v.targetState == Healthy <==> base <= 0.5 && retried <= 0.5)
      && v.additionalLoad == 1.0 + retried
  {
    var s := RetrySetting(rate, base, params, capacity);
    LoadIs(s, base, base * params.maxRetries as real, rate * (1.0 + base * params.maxRetries as real));
    hide Settle, Load, Retried;
    SettingWithinCapacity(s, Limit(maxIterations));
  }

  lemma SettingWithinCapacity(s: Setting, limit: nat)
    requires Proper(s) && limit >= 1
    requires s.capacity <= 0.0 || Load(s, s.base) <= s.capacity
    ensures var v := Settle(s, limit);
      && (v.targetState == Exhausted <==> s.base > 0.9)
      && (v.targetState == Healthy <==> s.base <= 0.5 && Retried(s, s.base) <= 0.5)
      && v.additionalLoad == 1.0 + Retried(s, s.base)
  {
    hide Load, Iterate, Classify, Settle, Near, Retried;
    var k := SettleRound(s, limit);
    NoFeedback(s, k);
    ClassifiedBy(s, Iterate(s, k), s.base);
  }

  /** When it is more than twice the capacity the callee is exhausted. */
  lemma VerdictBeyondCapacity(rate: real, base: real, params: EdgeParams, capacity: real, maxIterations: int)
    requires rate > 0.0 && params.maxRetries > 0 && 0.0 <= base <= 1.0
    requires capacity > 0.0 && rate * (1.0 + base * params.maxRetries as real) > 2.0 * capacity
    ensures RetryVerdict(rate, base, params, capacity, maxIterations).targetState == Exhausted
  {
    var s := RetrySetting(rate, base, params, capacity);
    LoadIs(s, base, base * params.maxRetries as real, rate * (1.0 + base * params.maxRetries as real));
    hide Settle, Load, Retried;
    SettingBeyondCapacity(s, Limit(maxIterations));
  }

  lemma SettingBeyondCapacity(s: Setting, limit: nat)
    requires Proper(s) && limit >= 1
    requires s.capacity > 0.0 && Load(s, s.base) > 2.0 * s.capacity
    ensures Settle(s, limit).targetState == Exhausted
  {
    hide Load, Classify, Settle, Near, Retried, Feedback;
    var k := SettleRound(s, limit);
    var err := Iterate(s, k - 1).err;
    assert Iterate(s, k).load == Load(s, err);
    hide Iterate;
    Ascent(s, k - 1);
    LoadMonotone(s, s.base, err);
    ClassifiedBy(s, Iterate(s, k), err);
  }

  /** So is it for any base above 1; and without retries or requests it is healthy. */
  lemma VerdictAtExtremes(rate: real, base: real, params: EdgeParams, capacity: real, maxIterations: int)
    ensures rate > 0.0 && params.maxRetries > 0 && base > 1.0 ==>
            RetryVerdict(rate, base, params, capacity, maxIterations).targetState == Exhausted
    ensures rate <= 0.0 || params.maxRetries <= 0 ==>
            RetryVerdict(rate, base, params, capacity, maxIterations) == ModelResult(Healthy, -1, 1.0, 0)
  {
    if rate > 0.0 && params.maxRetries > 0 && base > 1.0 {
      var s := RetrySetting(rate, base, params, capacity);
      AboveOneCollapses(s, StopRound(s, Limit(maxIterations), 1));
    }
  }

  /** Above 1 every iterate from the first round on is exactly 1. */
  lemma {:induction false} AboveOneCollapses(s: Setting, k: nat)
    requires s.base > 1.0 && k >= 1
    ensures Iterate(s, k).err == 1.0
  {
    var load := Load(s, Iterate(s, k - 1).err);
    assert Iterate(s, k).err == Clamp(ErrorUnder(s, load), 0.0, 1.0);
    hide Load, Iterate;
    ErrorAboveOne(s, load);
  }

  lemma ErrorAboveOne(s: Setting, load: real)
    requires s.base > 1.0
    ensures ErrorUnder(s, load) >= 1.0
  {
    if Overloaded(s, load) {
      BlendAboveOne(s.base, Overload(s, load));
    }
  }

  lemma BlendAboveOne(base: real, p: real)
    requires base > 1.0 && p <= 1.0
    ensures base + (1.0 - base) * p >= 1.0
  {
    ProductMonotone(base - 1.0, p, 1.0);
  }

  /** Ascent is exactly the case of a base error rate no larger than one. The
      propagator adds an edge's own error rate to a propagated one, so it can
      pass a larger base; the very first round then lowers the error rate. */
  lemma AscentIffProperBase(s: Setting)
    requires s.rate > 0.0 && s.retries > 0.0 && s.base >= 0.0
    ensures (forall k: nat :: Iterate(s, k).err <= Iterate(s, k + 1).err) <==> s.base <= 1.0
  {
    if s.base <= 1.0 {
      forall k: nat
        ensures Iterate(s, k).err <= Iterate(s, k + 1).err
      {
        Ascent(s, k);
      }
    } else {
      assert Iterate(s, 0).err > 1.0 >= Iterate(s, 0 + 1).err;
    }
  }
}
