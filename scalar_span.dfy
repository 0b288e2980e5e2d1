/**
  The dashboard's scalar span: how a delta value is classed as an
  improvement or a regression from its unit's improvement direction, and
  the guard that renders nothing without a unit.
*/
module ScalarSpan {
  import opened Wrappers

  datatype ImprovementDirection = DontCare | BiggerIsBetter | SmallerIsBetter

  /** The parts of a unit the span looks at. */
  datatype Unit = Unit(isDelta: bool, improvementDirection: ImprovementDirection)

  /**
    A JavaScript number as compared here: a real value, or a value for
    which every comparison is false (NaN, or `undefined`).
  */
  datatype Number = Finite(r: real) | Incomparable

  const Improvement := "improvement"
  const Regression := "regression"

  /** The value moves the way the direction calls better. */
  predicate MovesBetter(d: ImprovementDirection, value: real) {
    (d == BiggerIsBetter && value > 0.0) || (d == SmallerIsBetter && value < 0.0)
  }

  /** The unit is present, a delta, and has a direction that matters. */
  predicate Classifiable(unit: Option<Unit>) {
    unit.Some? && unit.value.isDelta && unit.value.improvementDirection != DontCare
  }

  /** `ScalarSpan.getChange`: the change class of a delta value. */
  function GetChange(unit: Option<Unit>, value: Number): (r: string)
  {
    if unit.None? then ""
    else if !unit.value.isDelta then ""
    else if unit.value.improvementDirection == DontCare then ""
    else if value == Finite(0.0) then ""
    else if unit.value.improvementDirection == BiggerIsBetter then
      (if value.Finite? && value.r > 0.0 then Improvement else Regression)
    else
      (if value.Finite? && value.r < 0.0 then Improvement else Regression)
  }

  /**
    The class is empty exactly without a classifiable unit or for a zero
    value; otherwise it is an improvement exactly when the value moves the
    better way, and a regression otherwise (including every incomparable
    value).
  */
  lemma GetChangeClasses(unit: Option<Unit>, value: Number)
    ensures GetChange(unit, value) in {"", Improvement, Regression}
    ensures GetChange(unit, value) == "" <==> !Classifiable(unit) || value == Finite(0.0)
    ensures GetChange(unit, value) == Improvement <==>
      Classifiable(unit) && value.Finite? && MovesBetter(unit.value.improvementDirection, value.r)
    ensures Classifiable(unit) && value.Incomparable? ==> GetChange(unit, value) == Regression
  {
  }

  /** Negating a nonzero value swaps improvement and regression. */
  lemma NegationSwaps(unit: Option<Unit>, v: real)
    requires Classifiable(unit) && v != 0.0
    ensures GetChange(unit, Finite(v)) == Improvement <==> GetChange(unit, Finite(-v)) == Regression
    ensures GetChange(unit, Finite(v)) == Regression <==> GetChange(unit, Finite(-v)) == Improvement
  {
  }

  /**
    `format_`: nothing without a unit, else the unit's own rendering of the
    value. The guard on a missing unit is all this function decides; the
    rendering itself is the telemetry unit's and comes in as `render`.
  */
  function Format(unit: Option<Unit>, render: Unit -> string): (s: string)
    ensures unit.None? ==> s == ""
    ensures unit.Some? ==> s == render(unit.value)
  {
    if unit.None? then "" else render(unit.value)
  }
}
