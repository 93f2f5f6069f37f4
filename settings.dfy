/**
 * The application settings store's list of selectable years: the current
 * year and the configured number of years before it, newest first. The
 * current year, which the store reads from the wall clock, is a parameter.
 */
module Settings {

  /** A setting that may be absent from the configuration. */
  datatype Option<T> = None | Some(value: T)

  /** A computed value, or the `RangeError` JavaScript throws for an impossible array length. */
  datatype Result<T> = Ok(value: T) | RangeError

  /** How many years back the list reaches when the setting is missing or zero. */
  const DefaultYearsBack: nat := 3

  /** The largest length a JavaScript array can have, 2^32 - 1. */
  const MaxArrayLength: nat := 0xFFFF_FFFF

  /**
   * `yearsBack || 3`: zero is falsy in JavaScript, so both a missing
   * setting and an explicit 0 fall back to the default.
   */
  function EffectiveYearsBack(yearsBack: Option<nat>): (n: nat)
    ensures n > 0
    ensures yearsBack.Some? && yearsBack.value > 0 ==> n == yearsBack.value
    ensures yearsBack == None || yearsBack == Some(0) ==> n == DefaultYearsBack
  {
    match yearsBack
    case None => DefaultYearsBack
    case Some(k) => if k == 0 then DefaultYearsBack else k
  }

  /**
   * The selectable years: `currentYear`, `currentYear - 1`, ..., back
   * `EffectiveYearsBack` years. `Array.from` creates an array of that many
   * entries plus one, which throws once the length passes `MaxArrayLength`.
   */
  function AvailableYears(currentYear: int, yearsBack: Option<nat>): (r: Result<seq<int>>)
    ensures r.RangeError? <==> EffectiveYearsBack(yearsBack) + 1 > MaxArrayLength
    ensures r.Ok? ==> |r.value| == EffectiveYearsBack(yearsBack) + 1
    ensures r.Ok? ==> r.value[0] == currentYear
    ensures r.Ok? ==> r.value[|r.value| - 1] == currentYear - EffectiveYearsBack(yearsBack)
    ensures r.Ok? ==> forall i :: 0 <= i < |r.value| - 1 ==> r.value[i + 1] == r.value[i] - 1
  {
    var n := EffectiveYearsBack(yearsBack);
    if n + 1 > MaxArrayLength then RangeError
    else Ok(seq(n + 1, i requires 0 <= i <= n => currentYear - i))
  }

  /** The i-th year is `i` years before the current one. */
  lemma AvailableYearsAt(currentYear: int, yearsBack: Option<nat>, i: nat)
    requires AvailableYears(currentYear, yearsBack).Ok?
    requires i < |AvailableYears(currentYear, yearsBack).value|
    ensures AvailableYears(currentYear, yearsBack).value[i] == currentYear - i
  {
  }

  /** Newest first: an earlier position always holds a later year. */
  lemma AvailableYearsDecreasing(currentYear: int, yearsBack: Option<nat>, i: nat, j: nat)
    requires AvailableYears(currentYear, yearsBack).Ok?
    requires i < j < |AvailableYears(currentYear, yearsBack).value|
    ensures AvailableYears(currentYear, yearsBack).value[i] > AvailableYears(currentYear, yearsBack).value[j]
  {
  }

  /**
   * A year is selectable exactly when it lies between `EffectiveYearsBack`
   * years ago and the current year; in particular none is in the future.
   */
  lemma AvailableYearsMembers(currentYear: int, yearsBack: Option<nat>, y: int)
    requires AvailableYears(currentYear, yearsBack).Ok?
    ensures y in AvailableYears(currentYear, yearsBack).value
            <==> currentYear - EffectiveYearsBack(yearsBack) <= y <= currentYear
  {
    var years := AvailableYears(currentYear, yearsBack).value;
    if y in years {
      var i :| 0 <= i < |years| && years[i] == y;
      AvailableYearsAt(currentYear, yearsBack, i);
    }
    if currentYear - EffectiveYearsBack(yearsBack) <= y <= currentYear {
      AvailableYearsAt(currentYear, yearsBack, currentYear - y);
    }
  }

  /** A missing setting, an explicit 0 and an explicit 3 all give the same four years. */
  lemma FalsyYearsBackFallsBack(currentYear: int)
    ensures AvailableYears(currentYear, None) == AvailableYears(currentYear, Some(0))
    ensures AvailableYears(currentYear, None) == AvailableYears(currentYear, Some(DefaultYearsBack))
    ensures AvailableYears(currentYear, None).Ok? && |AvailableYears(currentYear, None).value| == 4
  {
  }
}
