/** Metric / imperial conversion of height and weight (`to_metric_from_imperial`, `to_imperial_from_metric`). */
module Units {
  import opened Numerics

  const CmPerIn: real := 2.54
  const KgPerLb: real := 0.45359237

  datatype Metric = Metric(cm: real, kg: real)
  datatype Imperial = Imperial(ft: int, inch: real, lb: real)

  /** Feet and inches to centimetres, pounds to kilograms. */
  function ToMetricFromImperial(ft: int, inch: real, lb: real): (m: Metric)
    ensures m.cm / CmPerIn == 12.0 * ft as real + inch
    ensures m.kg / KgPerLb == lb
  {
    Metric((ft as real * 12.0 + inch) * CmPerIn, lb * KgPerLb)
  }

  /**
   * Centimetres to whole feet (floor of a twelfth of the inches) and the remaining inches rounded
   * to one decimal; kilograms to pounds rounded to one decimal. The inch remainder before rounding
   * lies in [0, 12) for every input, so after rounding it lies in [0, 12.05].
   */
  function ToImperialFromMetric(cm: real, kg: real): (i: Imperial)
    ensures 12.0 * i.ft as real <= cm / CmPerIn < 12.0 * i.ft as real + 12.0
    ensures -0.05 <= i.inch - (cm / CmPerIn - 12.0 * i.ft as real) <= 0.05
    ensures 0.0 <= i.inch <= 12.05
    ensures -0.05 <= i.lb - kg / KgPerLb <= 0.05
  {
    var totalIn := cm / CmPerIn;
    var ft := (totalIn / 12.0).Floor;
    Imperial(ft, Round1(totalIn - ft as real * 12.0), Round1(kg / KgPerLb))
  }

  /**
   * What the profile form does in imperial mode: show the stored metric values in imperial units
   * and convert them back. Height comes back within 0.05 inch and weight within 0.05 pound.
   */
  lemma MetricRoundTrip(cm: real, kg: real)
    ensures var i := ToImperialFromMetric(cm, kg);
            var m := ToMetricFromImperial(i.ft, i.inch, i.lb);
            -0.05 * CmPerIn <= m.cm - cm <= 0.05 * CmPerIn &&
            -0.05 * KgPerLb <= m.kg - kg <= 0.05 * KgPerLb
  {
    var i := ToImperialFromMetric(cm, kg);
    var m := ToMetricFromImperial(i.ft, i.inch, i.lb);
    var rem := cm / CmPerIn - 12.0 * i.ft as real;
    assert m.cm - cm == (i.inch - rem) * CmPerIn;
    assert m.kg - kg == (i.lb - kg / KgPerLb) * KgPerLb;
  }

  /**
   * The other direction: an imperial height with 0 <= inch < 12 keeps its feet exactly, and inches
   * and pounds come back within their one-decimal rounding.
   */
  lemma ImperialRoundTrip(ft: int, inch: real, lb: real)
    requires 0.0 <= inch < 12.0
    ensures var m := ToMetricFromImperial(ft, inch, lb);
            var i := ToImperialFromMetric(m.cm, m.kg);
            i.ft == ft && -0.05 <= i.inch - inch <= 0.05 && -0.05 <= i.lb - lb <= 0.05
  {
    var m := ToMetricFromImperial(ft, inch, lb);
    var i := ToImperialFromMetric(m.cm, m.kg);
    assert m.cm / CmPerIn == 12.0 * ft as real + inch;
    assert 12.0 * i.ft as real <= 12.0 * ft as real + inch < 12.0 * i.ft as real + 12.0;
    assert i.ft == ft;
  }

  /** Rounding to one decimal can report a remainder of 12.0 inches: 30.3784 cm is 11.96 in. */
  lemma TwelveInchesAfterRounding()
    ensures ToImperialFromMetric(30.3784, 0.0).ft == 0
    ensures ToImperialFromMetric(30.3784, 0.0).inch == 12.0
  {
    assert 30.3784 / CmPerIn == 11.96;
    assert RoundHalfEven(119.6) == 120;
  }
}
