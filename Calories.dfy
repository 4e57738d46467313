/** `fetchCalories`: the lookup followed by the per-100-grams calculation. */
module Calories {
  import opened Wrappers
  import opened Text
  import opened Dataset

  /** The source label every result carries. */
  const SourceLabel: string := "MB"

  /** The record `fetchCalories` returns, and that the history stores. */
  datatype CalcResult = CalcResult(food: string, grams: real, calories: real, source: string)

  /** The error thrown when the table has no such food. */
  datatype FetchError = NotFoundLocally

  /** `calPer100 * grams / 100`: the calories of `grams` grams of a food. */
  function CaloriesOf(calPer100: Per100, grams: real): real {
    (calPer100 as real * grams) / 100.0
  }

  /**
   * `fetchCalories(foodName, grams)`: fails exactly when `findFoodEntry`
   * finds nothing; otherwise the result copies the name and the grams, takes
   * its calories from the matched record's figure, and is labelled "MB".
   */
  function FetchCalories(foodName: string, grams: real): (r: Result<CalcResult, FetchError>)
    ensures r.Failure? <==> FindFoodEntry(foodName).None?
    ensures r.Success? ==>
      r.value.food == foodName && r.value.grams == grams && r.value.source == SourceLabel &&
      r.value.calories == CaloriesOf(FindFoodEntry(foodName).value.calPer100, grams)
  {
    match FindFoodEntry(foodName)
    case None => Failure(NotFoundLocally)
    case Some(entry) => Success(CalcResult(foodName, grams, CaloriesOf(entry.calPer100, grams), SourceLabel))
  }

  /**
   * What a result that reaches the history looks like: a non-empty trimmed
   * name, grams in (0, 1000], positive calories and the "MB" label.
   */
  predicate IsAcceptedResult(e: CalcResult) {
    e.food != [] && Trim(e.food) == e.food &&
    0.0 < e.grams <= 1000.0 && 0.0 < e.calories && e.source == SourceLabel
  }

  /** For a quantity in (0, 1000] the calories are positive and at most ten times the figure per 100 grams. */
  lemma CaloriesOfBounded(calPer100: Per100, grams: real)
    requires 0.0 < grams <= 1000.0
    ensures 0.0 < CaloriesOf(calPer100, grams) <= 10.0 * calPer100 as real
  {
    var p := calPer100 as real;
    assert 0.0 < p * grams by { assert 0.0 < p; }
    assert p * grams <= p * 1000.0 by { assert p * (1000.0 - grams) >= 0.0; }
  }

  /** An accepted quantity of a food the table has gives positive calories, at most ten times its figure. */
  lemma FetchedCaloriesBounded(foodName: string, grams: real)
    requires 0.0 < grams <= 1000.0
    requires FetchCalories(foodName, grams).Success?
    ensures var c := FetchCalories(foodName, grams).value.calories;
      0.0 < c <= 10.0 * FindFoodEntry(foodName).value.calPer100 as real
  {
    CaloriesOfBounded(FindFoodEntry(foodName).value.calPer100, grams);
  }

  /**
   * Names that differ only in surrounding whitespace and ASCII letter case
   * give the same calories, or both fail; only the copied name differs.
   */
  lemma FetchIgnoresCaseAndPadding(pre: string, a: string, post: string, b: string, grams: real)
    requires AllWhite(pre) && AllWhite(post)
    requires ToLower(a) == ToLower(b)
    ensures FetchCalories(pre + a + post, grams).Success? == FetchCalories(b, grams).Success?
    ensures FetchCalories(b, grams).Success? ==>
      FetchCalories(pre + a + post, grams).value.calories == FetchCalories(b, grams).value.calories
  {
    FindIgnoresCaseAndPadding(pre, a, post, b);
  }

  /** 150 grams of "تفاح" (apple, 52 per 100 grams) give 78 calories. */
  lemma AppleScenario()
    ensures FetchCalories("تفاح", 150.0) == Success(CalcResult("تفاح", 150.0, 78.0, "MB"))
  {
    var name := "تفاح";
    assert !IsWhite(name[0]) && !IsWhite(name[|name| - 1]);
    assert TrimStart(name) == name;
    assert TrimEnd(name) == name;
    assert ToLower(name) == name;
    assert LocalDataset[0].keys[0] == name;
    assert HasKey(LocalDataset[0], Normalize(name));
  }

  /** `"unknown-food-xyz"` gives the not-found error whatever the quantity. */
  lemma UnknownFoodFails(grams: real)
    ensures FetchCalories("unknown-food-xyz", grams) == Failure(NotFoundLocally)
  {
    UnknownFoodNotFound();
  }
}
