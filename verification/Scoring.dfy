/** The confidential scoring function on values: model validity, the capped and
    dust-floored drought ramp, and how the payout moves with each parameter.
    The heap version that the enclave runs is in Extension.dfy. */
module Scoring {
  import opened Wrappers
  import opened Bytes

  type uint64 = x: int | 0 <= x < 0x1_0000_0000_0000_0000

  const BPS: int := 10_000

  /** A risk model as decoded; the two big integers may be missing. */
  datatype Model = Model(
    trigger: uint64, exit: uint64, sumInsured: Option<int>, factorBps: uint64, minPayout: Option<int>)

  datatype Rejection =
    | SumInsuredNotPositive
    | SumInsuredTooLarge
    | MinPayoutMissing
    | MinPayoutNegative
    | ExitNotBelowTrigger
    | FactorZero

  /** The first check a model fails, in the order they are made. */
  function Validate(m: Model): Option<Rejection> {
    if m.sumInsured.None? || m.sumInsured.value <= 0 then Some(SumInsuredNotPositive)
    else if m.sumInsured.value >= UINT256_LIMIT then Some(SumInsuredTooLarge)
    else if m.minPayout.None? then Some(MinPayoutMissing)
    else if m.minPayout.value < 0 then Some(MinPayoutNegative)
    else if m.exit >= m.trigger then Some(ExitNotBelowTrigger)
    else if m.factorBps == 0 then Some(FactorZero)
    else None
  }

  predicate Valid(m: Model) {
    Validate(m).None?
  }

  datatype ScoreError = RainfallNegative | ModelRejected(reason: Rejection)

  function Min(a: int, b: int): int {
    if a <= b then a else b
  }

  /** How far the reading falls short of the trigger, limited to the width of the ramp. */
  function Shortfall(m: Model, rainfall: int): int {
    Min(m.trigger - rainfall, m.trigger - m.exit)
  }

  /** The truncated ramp, before the cap and the dust floor. */
  function Ramp(m: Model, rainfall: int): int
    requires Valid(m)
  {
    (m.sumInsured.value * Shortfall(m, rainfall) * m.factorBps) / ((m.trigger - m.exit) * BPS)
  }

  function Payout(m: Model, rainfall: int): int
    requires Valid(m)
  {
    if rainfall >= m.trigger then 0
    else
      var capped := Min(Ramp(m, rainfall), m.sumInsured.value);
      if capped < m.minPayout.value then 0 else capped
  }

  /** Scoring with its error cases; a missing reading counts as a bad one. */
  function Score(m: Model, rainfall: Option<int>): Result<int, ScoreError> {
    if rainfall.None? || rainfall.value < 0 then Err(RainfallNegative)
    else if !Valid(m) then Err(ModelRejected(Validate(m).value))
    else Ok(Payout(m, rainfall.value))
  }

  /** Model `b` read at `dry` is at least as generous as model `a` read at `wet`,
      parameter by parameter. */
  predicate AtLeastAsGenerous(b: Model, dry: int, a: Model, wet: int)
    requires Valid(a) && Valid(b)
  {
    && dry <= wet
    && a.trigger <= b.trigger
    && a.exit <= b.exit
    && a.sumInsured.value <= b.sumInsured.value
    && a.factorBps <= b.factorBps
    && b.minPayout.value <= a.minPayout.value
  }

  /** The payout never falls when the reading gets drier, the trigger, the exit level, the
      sum insured or the factor is raised, or the dust floor is lowered: one at a time or
      all together, through truncation, cap and floor. */
  lemma PayoutIsMonotone(a: Model, wet: int, b: Model, dry: int)
    requires Valid(a) && Valid(b) && AtLeastAsGenerous(b, dry, a, wet)
    ensures Payout(a, wet) <= Payout(b, dry)
  {
    PayoutBounds(b, dry);
    if wet < a.trigger {
      RampIsMonotone(a, wet, b, dry);
    }
  }

  lemma RampIsMonotone(a: Model, wet: int, b: Model, dry: int)
    requires Valid(a) && Valid(b) && AtLeastAsGenerous(b, dry, a, wet)
    requires wet < a.trigger
    ensures 0 <= Ramp(a, wet) <= Ramp(b, dry)
  {
    var spanA, spanB := a.trigger - a.exit, b.trigger - b.exit;
    var shortA, shortB := Shortfall(a, wet), Shortfall(b, dry);
    var scaleA, scaleB := a.sumInsured.value * a.factorBps, b.sumInsured.value * b.factorBps;
    ShortfallShare(a, wet, b, dry);
    ProductMonotone(a.sumInsured.value, b.sumInsured.value, a.factorBps, b.factorBps);
    ProductMonotone(scaleA, scaleB, shortA * spanB, shortB * spanA);
    Regroup(a.sumInsured.value, shortA, a.factorBps, spanB);
    Regroup(b.sumInsured.value, shortB, b.factorBps, spanA);
    ProductMonotone(0, a.sumInsured.value, 0, shortA);
    ProductMonotone(0, a.sumInsured.value * shortA, 0, a.factorBps);
    QuotientMonotone(a.sumInsured.value * shortA * a.factorBps, spanA,
                     b.sumInsured.value * shortB * b.factorBps, spanB);
  }

  /** The share of the ramp that is used, compared across two models without dividing. */
  lemma ShortfallShare(a: Model, wet: int, b: Model, dry: int)
    requires Valid(a) && Valid(b) && AtLeastAsGenerous(b, dry, a, wet)
    requires wet < a.trigger
    ensures 0 < Shortfall(a, wet) && 0 < Shortfall(b, dry)
    ensures Shortfall(a, wet) * (b.trigger - b.exit) <= Shortfall(b, dry) * (a.trigger - a.exit)
  {
    var spanA, spanB := a.trigger - a.exit, b.trigger - b.exit;
    if dry <= b.exit {
      ProductMonotone(Shortfall(a, wet), spanA, spanB, spanB);
    } else {
      // Here wet >= dry > b.exit >= a.exit, so neither shortfall is limited.
      ShareAboveExit(a.trigger, b.trigger, a.exit, b.exit, wet, dry);
    }
  }

  lemma ShareAboveExit(triggerA: int, triggerB: int, exitA: int, exitB: int, wet: int, dry: int)
    requires exitA <= exitB < dry <= wet < triggerA <= triggerB
    ensures (triggerA - wet) * (triggerB - exitB) <= (triggerB - dry) * (triggerA - exitA)
  {
    // With x = triggerA - wet and d = triggerB - triggerA, the gap is what the exits, the
    // readings and the triggers contribute, each of them non-negative.
    var x, d := triggerA - wet, triggerB - triggerA;
    ProductMonotone(0, x, 0, exitB - exitA);
    ProductMonotone(0, d, 0, wet - exitA);
    ProductMonotone(0, wet - dry, 0, triggerA - exitA);
    assert triggerB - dry == x + d + (wet - dry);
    assert triggerA - exitA == x + (wet - exitA);
    assert triggerB - exitB == x + (wet - exitA) + d - (exitB - exitA);
    Expand(x, d, wet - dry, wet - exitA, exitB - exitA);
  }

  lemma Expand(x: int, d: int, r: int, y: int, e: int)
    ensures (x + d + r) * (x + y) - x * (x + y + d - e) == d * y + r * (x + y) + x * e
  {
  }

  lemma ProductMonotone(a: int, b: int, c: int, d: int)
    requires 0 <= a <= b && 0 <= c <= d
    ensures 0 <= a * c <= b * d
  {
    assert b * d == a * c + (b - a) * c + b * (d - c);
  }

  lemma Regroup(s: int, short: int, f: int, span: int)
    ensures s * short * f * span == (s * f) * (short * span)
  {
    assert s * short * f * span == s * f * short * span;
  }

  lemma QuotientMonotone(x: int, spanX: int, y: int, spanY: int)
    requires 0 <= x && 0 <= y && 0 < spanX && 0 < spanY
    requires x * spanY <= y * spanX
    ensures 0 <= x / (spanX * BPS) <= y / (spanY * BPS)
  {
    var p, q := spanX * BPS, spanY * BPS;
    var u, v := x / p, y / q;
    DivisionBounds(x, p);
    DivisionBounds(y, q);
    if v + 1 <= u {
      // u * p <= x and y < (v + 1) * q give x * spanY >= u * p * spanY > y * spanX.
      ProductMonotone(u * p, x, spanY, spanY);
      ProductMonotone((v + 1) * q * spanX, u * q * spanX, 1, 1) by {
        ProductMonotone(v + 1, u, q * spanX, q * spanX);
        Associate(v + 1, q, spanX);
        Associate(u, q, spanX);
      }
      StrictProduct(y, (v + 1) * q, spanX);
      SwapSpans(u, spanX, spanY);
      assert false;
    }
  }

  lemma Associate(a: int, b: int, c: int)
    ensures a * (b * c) == a * b * c
  {
  }

  lemma SwapSpans(u: int, spanX: int, spanY: int)
    ensures u * (spanX * BPS) * spanY == u * (spanY * BPS) * spanX
  {
    assert (spanX * BPS) * spanY == (spanY * BPS) * spanX;
    Associate(u, spanX * BPS, spanY);
    Associate(u, spanY * BPS, spanX);
  }

  lemma StrictProduct(a: int, b: int, c: int)
    requires a < b && 0 < c
    ensures a * c < b * c
  {
    assert b * c == a * c + (b - a) * c;
  }

  lemma DivisionBounds(x: int, d: int)
    requires 0 <= x && 0 < d
    ensures 0 <= x / d
    ensures (x / d) * d <= x < (x / d + 1) * d
  {
    assert x == d * (x / d) + x % d;
  }

  /** Below the trigger the ramp is the exact rational ramp rounded down by less than one unit. */
  lemma RampIsExactWithinOneUnit(m: Model, rainfall: int)
    requires Valid(m) && 0 <= rainfall < m.trigger
    ensures var exact := m.sumInsured.value * Shortfall(m, rainfall) * m.factorBps;
            var unit := (m.trigger - m.exit) * BPS;
            Ramp(m, rainfall) * unit <= exact < (Ramp(m, rainfall) + 1) * unit
  {
    ProductMonotone(0, m.sumInsured.value, 0, Shortfall(m, rainfall));
    ProductMonotone(0, m.sumInsured.value * Shortfall(m, rainfall), 0, m.factorBps);
    DivisionBounds(m.sumInsured.value * Shortfall(m, rainfall) * m.factorBps, (m.trigger - m.exit) * BPS);
  }

  /** What a decision can ever be: never above the sum insured (so it fits a uint256), and
      nothing between zero and the dust floor. */
  lemma PayoutBounds(m: Model, rainfall: int)
    requires Valid(m)
    ensures 0 <= Payout(m, rainfall) <= m.sumInsured.value < UINT256_LIMIT
    ensures Payout(m, rainfall) == 0 || Payout(m, rainfall) >= m.minPayout.value
    ensures rainfall >= m.trigger ==> Payout(m, rainfall) == 0
  {
    if rainfall < m.trigger {
      RampIsMonotone(m, rainfall, m, rainfall);
    }
  }

  /** At or below the exit level the whole sum insured is paid, times the factor, truncated,
      whatever the reading: the ramp has no hidden dependence left. */
  lemma FullPayoutAtExit(m: Model, rainfall: int)
    requires Valid(m) && rainfall <= m.exit
    ensures Ramp(m, rainfall) == (m.sumInsured.value * m.factorBps) / BPS
  {
    var span := m.trigger - m.exit;
    Regroup(m.sumInsured.value, span, m.factorBps, 1);
    ProductMonotone(0, m.sumInsured.value, 0, m.factorBps);
    CancelFactor(m.sumInsured.value * m.factorBps, span);
  }

  lemma CancelFactor(x: int, span: int)
    requires 0 <= x && 0 < span
    ensures (x * span) / (span * BPS) == x / BPS
  {
    var q := x / BPS;
    DivisionBounds(x, BPS);
    ProductMonotone(0, x, 0, span);
    ProductMonotone(q * BPS, x, span, span);
    StrictProduct(x, (q + 1) * BPS, span);
    Associate(q, BPS, span);
    Associate(q + 1, BPS, span);
    QuotientEqual(x * span, span * BPS, q);
  }

  lemma QuotientEqual(x: int, d: int, q: int)
    requires 0 <= x && 0 < d && 0 <= q
    requires q * d <= x < (q + 1) * d
    ensures x / d == q
  {
    DivisionBounds(x, d);
    if x / d < q {
      ProductMonotone(x / d + 1, q, d, d);
      assert false;
    } else if x / d > q {
      ProductMonotone(q + 1, x / d, d, d);
      assert false;
    }
  }

  // ---- validity and payout in the model's own numbers

  /** What makes a model scoreable. */
  lemma ValidIff(m: Model)
    ensures Valid(m) <==>
              && m.sumInsured.Some? && 0 < m.sumInsured.value < UINT256_LIMIT
              && m.minPayout.Some? && 0 <= m.minPayout.value
              && m.exit < m.trigger && 0 < m.factorBps
  {
  }

  /** Which rejection a model gets: the reason holds, and no reason listed before it does. */
  lemma RejectionIsTheFirst(m: Model)
    ensures !Valid(m) ==>
              match Validate(m).value
              case SumInsuredNotPositive => m.sumInsured.None? || m.sumInsured.value <= 0
              case SumInsuredTooLarge => m.sumInsured.Some? && m.sumInsured.value >= UINT256_LIMIT
              case MinPayoutMissing => m.sumInsured.Some? && 0 < m.sumInsured.value < UINT256_LIMIT && m.minPayout.None?
              case MinPayoutNegative =>
                m.sumInsured.Some? && 0 < m.sumInsured.value < UINT256_LIMIT && m.minPayout.Some? && m.minPayout.value < 0
              case ExitNotBelowTrigger =>
                && m.sumInsured.Some? && 0 < m.sumInsured.value < UINT256_LIMIT && m.minPayout.Some? && m.minPayout.value >= 0
                && m.trigger <= m.exit
              case FactorZero =>
                && m.sumInsured.Some? && 0 < m.sumInsured.value < UINT256_LIMIT && m.minPayout.Some? && m.minPayout.value >= 0
                && m.exit < m.trigger && m.factorBps == 0
  {
  }

  /** Between the exit level and the trigger the ramp is pro rata in the missing rain. */
  lemma ProRataBetweenExitAndTrigger(m: Model, rainfall: int)
    requires Valid(m) && 0 <= rainfall && m.exit < rainfall < m.trigger
    ensures var exact := m.sumInsured.value * (m.trigger - rainfall) * m.factorBps;
            var unit := (m.trigger - m.exit) * 10_000;
            Ramp(m, rainfall) * unit <= exact < (Ramp(m, rainfall) + 1) * unit
  {
    RampIsExactWithinOneUnit(m, rainfall);
  }

  /** An amount is what the cover owes on a reading below the trigger, before the dust floor: the
      exact rational amount rounded down, or the sum insured when the exact amount reaches it. Missing
      rain counts from the trigger down to the exit level and no further; 10000 is a factor of one. */
  ghost predicate Owed(m: Model, rainfall: int, amount: int)
    requires Valid(m)
  {
    var missing := if rainfall <= m.exit then m.trigger - m.exit else m.trigger - rainfall;
    var exact := m.sumInsured.value * missing * m.factorBps;
    var unit := (m.trigger - m.exit) * 10_000;
    && 0 <= amount <= m.sumInsured.value
    && amount * unit <= exact
    && (amount == m.sumInsured.value || exact < (amount + 1) * unit)
  }

  /** One amount is owed. */
  lemma OwedIsUnique(m: Model, rainfall: int, a: int, b: int)
    requires Valid(m) && Owed(m, rainfall, a) && Owed(m, rainfall, b)
    ensures a == b
  {
    var missing := if rainfall <= m.exit then m.trigger - m.exit else m.trigger - rainfall;
    var exact := m.sumInsured.value * missing * m.factorBps;
    var unit := (m.trigger - m.exit) * 10_000;
    if a < b {
      ProductMonotone(a + 1, b, unit, unit);
    } else if b < a {
      ProductMonotone(b + 1, a, unit, unit);
    }
  }

  /** The payout is what is owed, unless the reading is at or above the trigger or what is owed is
      below the dust floor; then it is nothing. */
  lemma PayoutIsWhatIsOwed(m: Model, rainfall: int) returns (owed: int)
    requires Valid(m) && 0 <= rainfall
    ensures rainfall < m.trigger ==> Owed(m, rainfall, owed)
    ensures Payout(m, rainfall) == if rainfall >= m.trigger || owed < m.minPayout.value then 0 else owed
  {
    owed := 0;
    if rainfall < m.trigger {
      RampIsExactWithinOneUnit(m, rainfall);
      RampIsMonotone(m, rainfall, m, rainfall);
      var unit := (m.trigger - m.exit) * 10_000;
      owed := Min(Ramp(m, rainfall), m.sumInsured.value);
      ProductMonotone(owed, Ramp(m, rainfall), unit, unit);
    }
  }

  /** Scoring succeeds exactly on a reading that is not negative and a valid model. */
  lemma ScoreIff(m: Model, rainfall: Option<int>)
    ensures Score(m, rainfall).Ok? <==> rainfall.Some? && rainfall.value >= 0 && Valid(m)
    ensures Score(m, rainfall).Ok? ==> Score(m, rainfall).value == Payout(m, rainfall.value)
    ensures Score(m, rainfall) == Err(RainfallNegative) <==> rainfall.None? || rainfall.value < 0
  {
  }
}
