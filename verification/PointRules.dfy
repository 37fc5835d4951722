/** Points earned under a rule (src/points/points.service.ts:73-98), with exact rational arithmetic. */
module PointRules {
  import opened Wrappers

  datatype PointRule = PointRule(
    basePoints: int,
    perUnit: bool,
    unitAmount: Option<int>,
    tierMultipliers: map<string, real>)

  /** `rule.unitAmount || 100`: a missing or zero unit means one dollar. */
  function UnitAmount(rule: PointRule): (unit: int)
    ensures unit != 0
  {
    if rule.unitAmount.None? || rule.unitAmount.value == 0 then 100 else rule.unitAmount.value
  }

  /** A missing tier, an empty name, an unlisted tier and a zero multiplier all count as 1. */
  function Multiplier(rule: PointRule, tier: Option<string>): real {
    if tier.Some? && tier.value != "" && tier.value in rule.tierMultipliers && rule.tierMultipliers[tier.value] != 0.0
    then rule.tierMultipliers[tier.value]
    else 1.0
  }

  function Units(rule: PointRule, amountCents: int): int {
    (amountCents as real / UnitAmount(rule) as real).Floor
  }

  function CalcPoints(rule: PointRule, tier: Option<string>, amountCents: Option<int>): int {
    var points := if rule.perUnit then Units(rule, amountCents.GetOr(0)) * rule.basePoints else rule.basePoints;
    (points as real * Multiplier(rule, tier)).Floor
  }

  /** A rule an administrator would configure: nothing negative, a positive unit. */
  predicate Sensible(rule: PointRule, tier: Option<string>) {
    rule.basePoints >= 0 && UnitAmount(rule) > 0 && Multiplier(rule, tier) >= 0.0
  }

  // ---------------------------------------------------------------- Plain numbers

  /** Whole points for `units` units worth `worth` each. */
  function Paid(units: int, worth: real): int {
    (units as real * worth).Floor
  }

  lemma ScaleMonotone(x: real, y: real, k: real)
    requires x <= y && k >= 0.0
    ensures x * k <= y * k
  {
  }

  lemma PaidMonotone(u: int, v: int, worth: real)
    requires u <= v && worth >= 0.0
    ensures Paid(u, worth) <= Paid(v, worth)
  {
    ScaleMonotone(u as real, v as real, worth);
  }

  lemma PaidSuperadditive(u: int, v: int, worth: real)
    ensures Paid(u, worth) + Paid(v, worth) <= Paid(u + v, worth)
  {
    assert (u + v) as real * worth == u as real * worth + v as real * worth;
  }

  /** `x` and `y` are `low * worth` and `ratio * worth`. */
  lemma LossBelowOneUnit(low: real, ratio: real, worth: real, x: real, y: real)
    requires 0.0 <= ratio - low < 1.0 && worth >= 0.0
    requires x == low * worth && y == ratio * worth
    ensures x <= y <= x + worth
  {
    var part := ratio - low;
    assert y - x == part * worth;
    ScaleMonotone(0.0, part, worth);
    ScaleMonotone(part, 1.0, worth);
  }

  lemma FloorWithinOne(x: real, n: int)
    requires n == x.Floor
    ensures n as real <= x < n as real + 1.0
  {
  }

  lemma PaidLoss(units: int, ratio: real, worth: real, paid: int, exact: real)
    requires 0.0 <= ratio - units as real < 1.0 && worth >= 0.0
    requires paid == Paid(units, worth) && exact == ratio * worth
    ensures paid as real <= exact < paid as real + worth + 1.0
  {
    var x := units as real * worth;
    LossBelowOneUnit(units as real, ratio, worth, x, exact);
    FloorWithinOne(x, paid);
  }

  lemma QuotientMonotone(a: int, b: int, unit: int)
    requires a <= b && unit > 0
    ensures (a as real / unit as real).Floor <= (b as real / unit as real).Floor
  {
    var k := 1.0 / unit as real;
    assert a as real / unit as real == a as real * k && b as real / unit as real == b as real * k;
    ScaleMonotone(a as real, b as real, k);
  }

  lemma QuotientSuperadditive(a: int, b: int, unit: int)
    requires unit > 0
    ensures (a as real / unit as real).Floor + (b as real / unit as real).Floor
            <= ((a + b) as real / unit as real).Floor
  {
    var x, y := a as real / unit as real, b as real / unit as real;
    assert (a + b) as real / unit as real == x + y;
  }

  // ---------------------------------------------------------------- Awards

  /** What one unit is worth: base points times multiplier. */
  function UnitWorth(rule: PointRule, tier: Option<string>): real {
    rule.basePoints as real * Multiplier(rule, tier)
  }

  lemma PerUnitForm(rule: PointRule, tier: Option<string>, amount: int)
    requires rule.perUnit
    ensures CalcPoints(rule, tier, Some(amount)) == Paid(Units(rule, amount), UnitWorth(rule, tier))
  {
    Regroup(Units(rule, amount), rule.basePoints, Multiplier(rule, tier));
  }

  lemma Regroup(u: int, base: int, mult: real)
    ensures (u * base) as real * mult == u as real * (base as real * mult)
  {
    assert (u * base) as real == u as real * base as real;
  }

  lemma WorthNonNegative(rule: PointRule, tier: Option<string>)
    requires Sensible(rule, tier)
    ensures UnitWorth(rule, tier) >= 0.0
  {
  }

  /** Spending more never earns less. */
  lemma EarningMonotone(rule: PointRule, tier: Option<string>, a: int, b: int)
    requires Sensible(rule, tier) && a <= b
    ensures CalcPoints(rule, tier, Some(a)) <= CalcPoints(rule, tier, Some(b))
  {
    if rule.perUnit {
      PerUnitForm(rule, tier, a);
      PerUnitForm(rule, tier, b);
      WorthNonNegative(rule, tier);
      QuotientMonotone(a, b, UnitAmount(rule));
      PaidMonotone(Units(rule, a), Units(rule, b), UnitWorth(rule, tier));
    }
  }

  lemma PerUnitSplit(rule: PointRule, tier: Option<string>, a: nat, b: nat)
    requires Sensible(rule, tier) && rule.perUnit
    ensures CalcPoints(rule, tier, Some(a)) + CalcPoints(rule, tier, Some(b)) <= CalcPoints(rule, tier, Some(a + b))
  {
    var ua, ub, uab, worth := Units(rule, a), Units(rule, b), Units(rule, a + b), UnitWorth(rule, tier);
    PerUnitForm(rule, tier, a);
    PerUnitForm(rule, tier, b);
    PerUnitForm(rule, tier, a + b);
    WorthNonNegative(rule, tier);
    QuotientSuperadditive(a, b, UnitAmount(rule));
    PaidSuperadditive(ua, ub, worth);
    PaidMonotone(ua + ub, uab, worth);
  }

  /**
   Splitting a purchase never earns more under a per-unit rule. A flat rule pays per purchase, so
   there it holds exactly when the flat award is zero.
   */
  lemma SplittingNeverEarnsMore(rule: PointRule, tier: Option<string>, a: nat, b: nat)
    requires Sensible(rule, tier)
    ensures CalcPoints(rule, tier, Some(a)) + CalcPoints(rule, tier, Some(b)) <= CalcPoints(rule, tier, Some(a + b))
            <==> rule.perUnit || UnitWorth(rule, tier) < 1.0
  {
    if rule.perUnit {
      PerUnitSplit(rule, tier, a, b);
    } else {
      WorthNonNegative(rule, tier);
      var flat := UnitWorth(rule, tier).Floor;
      assert forall c: nat :: CalcPoints(rule, tier, Some(c)) == flat;
    }
  }

  /**
   The award is at most amount * base * multiplier / unit, and the two roundings lose less than
   one unit's worth plus one point.
   */
  lemma RoundingLoss(rule: PointRule, tier: Option<string>, amount: nat)
    requires Sensible(rule, tier) && rule.perUnit
    ensures var exact := (amount as real / UnitAmount(rule) as real) * UnitWorth(rule, tier);
            var points := CalcPoints(rule, tier, Some(amount)) as real;
            points <= exact < points + UnitWorth(rule, tier) + 1.0
  {
    PerUnitForm(rule, tier, amount);
    WorthNonNegative(rule, tier);
    var ratio, worth := amount as real / UnitAmount(rule) as real, UnitWorth(rule, tier);
    PaidLoss(Units(rule, amount), ratio, worth, CalcPoints(rule, tier, Some(amount)), ratio * worth);
  }

  // ---------------------------------------------------------------- The number itself

  ghost predicate IsFloor(x: real, n: int) {
    n as real <= x < n as real + 1.0
  }

  /** `units` whole units of `unit` cents fit into `cents`; with a negative unit the quotient is rounded down too. */
  ghost predicate IsUnits(cents: int, unit: int, units: int) {
    if unit > 0 then units * unit <= cents < units * unit + unit else units * unit >= cents > units * unit + unit
  }

  lemma FloorQuotient(cents: int, unit: int, units: int)
    requires unit != 0 && units == (cents as real / unit as real).Floor
    ensures IsUnits(cents, unit, units)
  {
    var q := cents as real / unit as real;
    if unit > 0 {
      PositiveQuotient(cents, unit, units, q);
    } else {
      assert q == (-cents) as real / (-unit) as real;
      PositiveQuotient(-cents, -unit, units, q);
      assert units * -unit == -(units * unit);
    }
  }

  lemma PositiveQuotient(cents: int, unit: int, units: int, q: real)
    requires unit > 0 && q == cents as real / unit as real && units as real <= q < units as real + 1.0
    ensures units * unit <= cents < units * unit + unit
  {
    var k := unit as real;
    var low, x := units as real * k, q * k;
    LessThanOneMore(units as real, q, k, low, x);
    QuotientTimes(cents as real, k, q, x);
    IntProduct(units, unit, low);
    ProductsBracket(cents, units * unit, unit, low, x);
  }

  lemma LessThanOneMore(u: real, q: real, k: real, low: real, x: real)
    requires u <= q < u + 1.0 && k > 0.0 && low == u * k && x == q * k
    ensures low <= x < low + k
  {
    var p := (q - u) * k;
    assert p == x - low;
    PartOfUnit(q - u, k, p);
  }

  lemma PartOfUnit(part: real, k: real, p: real)
    requires 0.0 <= part < 1.0 && k > 0.0 && p == part * k
    ensures 0.0 <= p < k
  {
  }

  lemma QuotientTimes(x: real, k: real, q: real, product: real)
    requires k != 0.0 && q == x / k && product == q * k
    ensures product == x
  {
  }

  lemma IntProduct(a: int, b: int, product: real)
    requires product == a as real * b as real
    ensures (a * b) as real == product
  {
  }

  lemma ProductsBracket(cents: int, product: int, unit: int, low: real, x: real)
    requires low == product as real && x == cents as real && low <= x < low + unit as real
    ensures product <= cents < product + unit
  {
  }

  /**
   The points themselves: for a per-unit rule the whole units in the amount times the base points,
   for a flat rule the base points, times the tier's listed multiplier, rounded down. A missing or
   zero unit is 100 cents, a missing amount nothing, and a tier without a non-zero entry counts once.
   */
  lemma PointsExactly(rule: PointRule, tier: Option<string>, amountCents: Option<int>)
    ensures var points := CalcPoints(rule, tier, amountCents);
            var cents := if amountCents.Some? then amountCents.value else 0;
            var unit := if rule.unitAmount.Some? && rule.unitAmount.value != 0 then rule.unitAmount.value else 100;
            var listed := tier.Some? && tier.value != "" && tier.value in rule.tierMultipliers
                          && rule.tierMultipliers[tier.value] != 0.0;
            var mult := if listed then rule.tierMultipliers[tier.value] else 1.0;
            && (rule.perUnit ==>
                  exists units ::
                    IsUnits(cents, unit, units) && IsFloor((units * rule.basePoints) as real * mult, points))
            && (!rule.perUnit ==> IsFloor(rule.basePoints as real * mult, points))
  {
    if rule.perUnit {
      FloorQuotient(amountCents.GetOr(0), UnitAmount(rule), Units(rule, amountCents.GetOr(0)));
    }
  }
}
