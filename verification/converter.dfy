/**
 * Unit conversion to metric and quantity formatting
 * (src/services/converter.py).
 *
 * Quantities are real numbers. Python's `round(x, 0)` and `round(x, 2)` are
 * modelled as exact round-half-to-even on reals; the text Python's `str()`
 * gives a non-integral float is supplied by the caller as `floatRepr`.
 */
module Converter {
  import opened Wrappers
  import opened Text

  /** Grams per unit (WEIGHT_TO_GRAMS). */
  const WeightToGrams: map<string, real> := map["oz" := 28.3495, "lb" := 453.592, "g" := 1.0, "kg" := 1000.0]

  /** Millilitres per unit (VOLUME_TO_ML). */
  const VolumeToMl: map<string, real> :=
    map["cup" := 236.588, "tbsp" := 14.787, "tsp" := 4.929, "fl oz" := 29.574, "ml" := 1.0, "l" := 1000.0]

  /** Units that are counted or imprecise and are never converted (NON_CONVERTIBLE). */
  const NonConvertible: set<string> := {"clove", "bunch", "pinch", "to taste", "can", "package"}

  /** Units that are already metric and pass through lower-cased. */
  const MetricUnits: set<string> := {"g", "kg", "ml", "l"}

  const WeightThreshold: real := 1000.0
  const VolumeThreshold: real := 1000.0

  /** A (quantity, unit) pair, either part possibly missing. */
  datatype Measure = Measure(quantity: Option<real>, unit: Option<string>)

  /**
   * Round half to even, as Python's `round` does: the nearest integer, and of
   * two equally near integers the even one.
   */
  function RoundHalfEven(x: real): (n: int)
    ensures -0.5 <= n as real - x <= 0.5
    ensures x - x.Floor as real < 0.5 ==> n == x.Floor
    ensures x - x.Floor as real > 0.5 ==> n == x.Floor + 1
    ensures n as real - x == 0.5 || x - n as real == 0.5 ==> n % 2 == 0
  {
    var f := x.Floor;
    var d := x - f as real;
    if d < 0.5 then f
    else if d > 0.5 then f + 1
    else if f % 2 == 0 then f
    else f + 1
  }

  /** `round(x, 0)`: the nearest whole number, ties to the even one. */
  function Round0(x: real): (r: real)
    ensures r == r.Floor as real
    ensures -0.5 <= r - x <= 0.5
    ensures r - x == 0.5 || x - r == 0.5 ==> r.Floor % 2 == 0
  {
    RoundHalfEven(x) as real
  }

  /** `round(x, 2)`: the nearest number with two decimals, ties to an even last digit. */
  function Round2(x: real): (r: real)
    ensures IsIntegral(r * 100.0)
    ensures -0.005 <= r - x <= 0.005
    ensures r - x == 0.005 || x - r == 0.005 ==> (r * 100.0).Floor % 2 == 0
  {
    var n := RoundHalfEven(x * 100.0);
    assert n as real / 100.0 * 100.0 == n as real;
    n as real / 100.0
  }

  /**
   * An amount in a base unit (g or ml): at or above the threshold it is
   * re-expressed in thousands with two decimals, within 5 base units of the
   * amount; below it, it is a whole number of base units within half a unit.
   */
  function Promote(amount: real, threshold: real, large: string, base: string): (r: Measure)
    ensures r.quantity.Some? && r.unit.Some?
    ensures amount >= threshold ==>
              && r.unit.value == large && IsIntegral(r.quantity.value * 100.0)
              && -5.0 <= r.quantity.value * 1000.0 - amount <= 5.0
    ensures amount < threshold ==>
              && r.unit.value == base && IsIntegral(r.quantity.value)
              && -0.5 <= r.quantity.value - amount <= 0.5
  {
    if amount >= threshold then
      ThousandthsRounding(amount);
      Measure(Some(Round2(amount / 1000.0)), Some(large))
    else Measure(Some(Round0(amount)), Some(base))
  }

  /** The unit spelling the converter looks up: `unit.lower().strip()`. */
  function UnitKey(unit: string): string {
    Strip(Lower(unit))
  }

  /** `convert_to_metric(quantity, unit)` */
  function ConvertToMetric(quantity: Option<real>, unit: Option<string>): (r: Measure)
    ensures quantity.None? || unit.None? ==> r == Measure(quantity, unit)
    ensures r.quantity.None? <==> quantity.None?
    ensures r.unit.None? <==> unit.None?
    ensures r.unit.Some? ==> r.unit == unit || r.unit.value in MetricUnits
  {
    if quantity.None? || unit.None? then Measure(quantity, unit)
    else ConvertKeyed(quantity.value, unit.value, UnitKey(unit.value))
  }

  /** The table lookups of `convert_to_metric`, once `key` is the normalised unit. */
  function ConvertKeyed(q: real, unit: string, key: string): (r: Measure)
    ensures r.quantity.Some? && r.unit.Some?
    ensures r.unit.value == unit || r.unit.value in MetricUnits
  {
    if key in NonConvertible then Measure(Some(q), Some(unit))
    else if key in MetricUnits then Measure(Some(q), Some(key))
    else if key in WeightToGrams then Promote(q * WeightToGrams[key], WeightThreshold, "kg", "g")
    else if key in VolumeToMl then Promote(q * VolumeToMl[key], VolumeThreshold, "l", "ml")
    else Measure(Some(q), Some(unit))
  }

  lemma MetricUnitKey(u: string)
    requires u in MetricUnits
    ensures UnitKey(u) == u
  {
    assert Lower(u) == u;
    StripStripped(u);
  }

  /** Converting a converted measure again changes nothing. */
  lemma ConvertIdempotent(quantity: Option<real>, unit: Option<string>)
    ensures var m := ConvertToMetric(quantity, unit);
            ConvertToMetric(m.quantity, m.unit) == m
  {
    var m := ConvertToMetric(quantity, unit);
    if quantity.Some? && unit.Some? {
      if m.unit.value in MetricUnits {
        MetricUnitKey(m.unit.value);
        MetricKey(m.quantity.value, m.unit.value, m.unit.value);
      } else {
        assert m == Measure(quantity, unit);
      }
    }
  }

  /** g, kg, ml and l in any case keep their quantity (no promotion to kg or l); the unit is lower-cased. */
  lemma MetricPassesThrough(q: real, unit: string)
    requires UnitKey(unit) in MetricUnits
    ensures ConvertToMetric(Some(q), Some(unit)) == Measure(Some(q), Some(UnitKey(unit)))
  {
    MetricKey(q, unit, UnitKey(unit));
  }

  lemma MetricKey(q: real, unit: string, key: string)
    requires key in MetricUnits
    ensures ConvertKeyed(q, unit, key) == Measure(Some(q), Some(key))
  {
    assert key == "g" || key == "kg" || key == "ml" || key == "l";
    assert key !in NonConvertible;
  }

  /** The boundary cases: 999 g and 1000 g both stay in grams, unchanged. */
  lemma GramsAreNotPromoted()
    ensures ConvertToMetric(Some(999.0), Some("g")) == Measure(Some(999.0), Some("g"))
    ensures ConvertToMetric(Some(1000.0), Some("g")) == Measure(Some(1000.0), Some("g"))
  {
    MetricUnitKey("g");
  }

  /** Counted and imprecise units keep both the quantity and the original spelling of the unit. */
  lemma NonConvertiblePassesThrough(q: real, unit: string)
    requires UnitKey(unit) in NonConvertible
    ensures ConvertToMetric(Some(q), Some(unit)) == Measure(Some(q), Some(unit))
  {
  }

  /**
   * oz and lb become grams by their fixed factor; at 1000 g or more (inclusive)
   * the result is in kg within 0.005 kg of the exact value, otherwise a whole
   * number of grams within half a gram.
   */
  lemma WeightConversion(q: real, unit: string, grams: real)
    requires UnitKey(unit) == "oz" || UnitKey(unit) == "lb"
    requires grams == q * WeightToGrams[UnitKey(unit)]
    ensures var r := ConvertToMetric(Some(q), Some(unit));
            && r.quantity.Some?
            && (grams >= 1000.0 ==> r.unit == Some("kg") && -5.0 <= r.quantity.value * 1000.0 - grams <= 5.0)
            && (grams < 1000.0 ==> r.unit == Some("g") && IsIntegral(r.quantity.value)
                                   && -0.5 <= r.quantity.value - grams <= 0.5)
  {
    WeightBranch(q, unit);
  }

  lemma WeightBranch(q: real, unit: string)
    requires UnitKey(unit) == "oz" || UnitKey(unit) == "lb"
    ensures ConvertToMetric(Some(q), Some(unit)) == Promote(q * WeightToGrams[UnitKey(unit)], WeightThreshold, "kg", "g")
  {
    WeightKey(q, unit, UnitKey(unit));
  }

  lemma WeightKey(q: real, unit: string, key: string)
    requires key == "oz" || key == "lb"
    ensures ConvertKeyed(q, unit, key) == Promote(q * WeightToGrams[key], WeightThreshold, "kg", "g")
  {
    assert key !in NonConvertible && key !in MetricUnits && key in WeightToGrams;
  }

  /**
   * cup, tbsp, tsp and fl oz become millilitres by their fixed factor; at 1000 ml
   * or more (inclusive) the result is in litres within 0.005 l, otherwise a whole
   * number of millilitres within half a millilitre.
   */
  lemma VolumeConversion(q: real, unit: string, ml: real)
    requires UnitKey(unit) == "cup" || UnitKey(unit) == "tbsp" || UnitKey(unit) == "tsp" || UnitKey(unit) == "fl oz"
    requires ml == q * VolumeToMl[UnitKey(unit)]
    ensures var r := ConvertToMetric(Some(q), Some(unit));
            && r.quantity.Some?
            && (ml >= 1000.0 ==> r.unit == Some("l") && -5.0 <= r.quantity.value * 1000.0 - ml <= 5.0)
            && (ml < 1000.0 ==> r.unit == Some("ml") && IsIntegral(r.quantity.value)
                                && -0.5 <= r.quantity.value - ml <= 0.5)
  {
    VolumeBranch(q, unit);
  }

  lemma VolumeBranch(q: real, unit: string)
    requires UnitKey(unit) == "cup" || UnitKey(unit) == "tbsp" || UnitKey(unit) == "tsp" || UnitKey(unit) == "fl oz"
    ensures ConvertToMetric(Some(q), Some(unit)) == Promote(q * VolumeToMl[UnitKey(unit)], VolumeThreshold, "l", "ml")
  {
    VolumeKey(q, unit, UnitKey(unit));
  }

  lemma VolumeKey(q: real, unit: string, key: string)
    requires key == "cup" || key == "tbsp" || key == "tsp" || key == "fl oz"
    ensures ConvertKeyed(q, unit, key) == Promote(q * VolumeToMl[key], VolumeThreshold, "l", "ml")
  {
    assert key !in NonConvertible && key !in MetricUnits && key !in WeightToGrams && key in VolumeToMl;
  }

  /** Re-expressing `v` in thousands, rounded to 2 places, is off by at most 5 units of `v`. */
  lemma ThousandthsRounding(v: real)
    ensures -5.0 <= Round2(v / 1000.0) * 1000.0 - v <= 5.0
  {
    var x := v / 1000.0;
    assert x * 1000.0 == v;
    var k := Round2(x);
    assert (k - x) * 1000.0 == k * 1000.0 - v;
  }

  /** A unit in none of the tables comes back unchanged. */
  lemma UnknownUnitPassesThrough(q: real, unit: string)
    requires UnitKey(unit) !in NonConvertible && UnitKey(unit) !in WeightToGrams && UnitKey(unit) !in VolumeToMl
    ensures ConvertToMetric(Some(q), Some(unit)) == Measure(Some(q), Some(unit))
  {
  }

  predicate IsIntegral(q: real) {
    q == q.Floor as real
  }

  /** `int(q)` for a real that Python would compare equal to it. */
  function Truncate(q: real): int {
    if q >= 0.0 then q.Floor else -((-q).Floor)
  }

  /** `format_quantity(quantity, unit)` */
  function FormatQuantity(quantity: Option<real>, unit: Option<string>, floatRepr: real -> string): (r: string)
    ensures quantity.None? && unit.None? ==> r == ""
    ensures quantity.None? && unit.Some? ==> r == unit.value
  {
    if quantity.None? && unit.None? then ""
    else if quantity.None? then unit.value
    else
      var q := quantity.value;
      var number := if q == Truncate(q) as real then IntToString(Truncate(q)) else floatRepr(q);
      if unit.None? then number else number + unit.value
  }

  /**
   * An integer-valued quantity prints as a whole number with no decimal point,
   * directly followed by the unit; for a non-negative quantity the printed number
   * reads back as the quantity.
   */
  lemma FormatIntegral(q: real, unit: Option<string>, floatRepr: real -> string)
    requires IsIntegral(q)
    ensures var r := FormatQuantity(Some(q), unit, floatRepr);
            var number := IntToString(q.Floor);
            && '.' !in number
            && r == number + unit.GetOr("")
            && (q >= 0.0 ==> DigitsValue(number) as real == q)
  {
    assert Truncate(q) == q.Floor;
    if q >= 0.0 {
      NatToStringRoundTrip(q.Floor);
    }
  }

  /** A quantity that is not a whole number is printed by Python's float rendering. */
  lemma FormatFractional(q: real, unit: Option<string>, floatRepr: real -> string)
    requires !IsIntegral(q)
    ensures FormatQuantity(Some(q), unit, floatRepr) == floatRepr(q) + unit.GetOr("")
  {
  }
}
