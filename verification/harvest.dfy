/**
 The two calculations of the harvest tool: the loss ratio of a harvest
 (`calcular_perda`) and the efficiency class of a loss ratio
 (`avaliar_eficiencia`). Quantities are exact reals: area in hectares,
 volume in tonnes.
 */
module Harvest {
  import opened Rounding

  /** Reference productivity, in tonnes per hectare, against which a harvest is measured. */
  const ReferenceProductivity: real := 100.0

  /** Loss ratios from here up are classed medium efficiency. */
  const MediumFrom: real := 0.05

  /** Loss ratios from here up are classed low efficiency. */
  const LowFrom: real := 0.10

  /** The exact, unrounded and unclamped shortfall of the achieved
      productivity against the reference. */
  function Shortfall(area: real, volume: real): real
    requires area > 0.0
  {
    1.0 - (volume / area) / ReferenceProductivity
  }

  function Max(a: real, b: real): real {
    if a >= b then a else b
  }

  /** The loss ratio stored with a harvest record: zero for a non-positive
      area, otherwise the shortfall rounded to three decimals and clamped
      at zero. */
  function Loss(area: real, volume: real): (r: real)
    ensures area <= 0.0 ==> r == 0.0
    ensures r >= 0.0
    ensures OnGrid(r)
  {
    if area <= 0.0 then 0.0
    else Max(0.0, Round3(Shortfall(area, volume)))
  }

  /** On the validated input domain the loss never exceeds one. */
  lemma LossAtMostOne(area: real, volume: real)
    requires area > 0.0 && volume >= 0.0
    ensures Loss(area, volume) <= 1.0
  {
    assert volume / area >= 0.0;
    Round3Monotone(Shortfall(area, volume), 1.0);
    Round3OnGrid(1.0);
  }

  /** The loss is zero exactly when the productivity reaches 99.95 t/ha: at
      or above the reference of 100 t/ha it is always zero, and the last
      half thousandth below it rounds away. */
  lemma LossZeroIff(area: real, volume: real)
    requires area > 0.0
    ensures Loss(area, volume) == 0.0 <==> volume / area >= 99.95
    ensures volume / area >= ReferenceProductivity ==> Loss(area, volume) == 0.0
  {
    var s := Shortfall(area, volume);
    RoundAtLeast(s * 1000.0, 1);
  }

  /** The loss is the exact shortfall to within half a thousandth whenever
      the shortfall is not below minus half a thousandth. */
  lemma LossNearShortfall(area: real, volume: real)
    requires area > 0.0
    requires Shortfall(area, volume) >= -HalfStep
    ensures Shortfall(area, volume) - HalfStep <= Loss(area, volume) <= Shortfall(area, volume) + HalfStep
  {
  }

  /** For a fixed area, harvesting more never increases the loss. */
  lemma LossMonotoneInVolume(area: real, v1: real, v2: real)
    requires area > 0.0 && v1 <= v2
    ensures Loss(area, v2) <= Loss(area, v1)
  {
    assert v1 / area <= v2 / area;
    Round3Monotone(Shortfall(area, v2), Shortfall(area, v1));
  }

  /** For a fixed non-negative volume, spreading it over more area never
      decreases the loss. */
  lemma LossMonotoneInArea(a1: real, a2: real, volume: real)
    requires 0.0 < a1 <= a2 && volume >= 0.0
    ensures Loss(a1, volume) <= Loss(a2, volume)
  {
    var q1, q2 := volume / a1, volume / a2;
    assert q2 <= q1 by {
      assert q2 * a2 == volume;
      assert q1 * a1 == volume;
      assert q2 >= 0.0;
      assert q2 * a1 <= q2 * a2;
      assert q2 * a1 <= volume;
      CancelPositive(q2, q1, a1);
    }
    Round3Monotone(Shortfall(a1, volume), Shortfall(a2, volume));
  }

  /** Cancelling a positive factor keeps an inequality. */
  lemma CancelPositive(x: real, y: real, c: real)
    requires c > 0.0 && x * c <= y * c
    ensures x <= y
  {
    assert (y - x) * c == y * c - x * c;
  }

  /** The three efficiency classes, best first. */
  datatype Efficiency = High | Medium | Low

  /** The text stored for each class. */
  function Label(e: Efficiency): string {
    match e
    case High => "Alta eficiência"
    case Medium => "Eficiência média"
    case Low => "Baixa eficiência"
  }

  /** Position of a class from best (0) to worst (2). */
  function Severity(e: Efficiency): nat {
    match e
    case High => 0
    case Medium => 1
    case Low => 2
  }

  /** The efficiency class of a loss ratio; the thresholds split every real
      into exactly one class, each threshold belonging to the worse side. */
  function Classify(loss: real): (e: Efficiency)
    ensures e == High <==> loss < MediumFrom
    ensures e == Medium <==> MediumFrom <= loss < LowFrom
    ensures e == Low <==> LowFrom <= loss
  {
    if loss < MediumFrom then High
    else if loss < LowFrom then Medium
    else Low
  }

  /** A larger loss never gets a better class. */
  lemma ClassifyMonotone(l1: real, l2: real)
    requires l1 <= l2
    ensures Severity(Classify(l1)) <= Severity(Classify(l2))
  {
  }

  /** Distinct classes are stored as distinct texts. */
  lemma LabelInjective(e1: Efficiency, e2: Efficiency)
    ensures Label(e1) == Label(e2) <==> e1 == e2
  {
  }

  /** The class of a harvest in terms of its productivity (t/ha): high above
      95.05, low at or below 90.05, medium in between. The bounds are where
      the rounded loss meets the thresholds 0.05 and 0.10. */
  lemma ClassifyByProductivity(area: real, volume: real)
    requires area > 0.0
    ensures Classify(Loss(area, volume)) == High <==> volume / area > 95.05
    ensures Classify(Loss(area, volume)) == Medium <==> 90.05 < volume / area <= 95.05
    ensures Classify(Loss(area, volume)) == Low <==> volume / area <= 90.05
  {
    var s := Shortfall(area, volume);
    RoundAtLeast(s * 1000.0, 50);
    RoundAtLeast(s * 1000.0, 100);
  }

  /** Worked values of the loss and its class. */
  lemma LossExamples()
    ensures Loss(100.0, 100.0) == 0.99 && Classify(Loss(100.0, 100.0)) == Low
    ensures Loss(100.0, 8500.0) == 0.15 && Classify(Loss(100.0, 8500.0)) == Low
    ensures Loss(50.0, 4750.0) == 0.05 && Classify(Loss(50.0, 4750.0)) == Medium
    ensures Loss(100.0, 10000.0) == 0.0 && Classify(Loss(100.0, 10000.0)) == High
    ensures Loss(0.0, 500.0) == 0.0 && Loss(-3.0, 500.0) == 0.0
  {
    Round3OnGrid(0.99);
    Round3OnGrid(0.15);
    Round3OnGrid(0.05);
    Round3OnGrid(0.0);
  }
}
