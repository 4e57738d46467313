/**
 * The page controller: the submit handler with its ordered validation and
 * its loading state, the history actions, and the state of the page they
 * update (the form's error line, the result box, the calculate button, the
 * history list with its total, and the storage slot).
 */
module Form {
  import opened Wrappers
  import opened Text
  import opened Calories
  import opened History

  /** The gram field after `parseNumber`: a finite number, or `NaN` for anything else. */
  datatype Quantity = Finite(value: real) | NotFinite

  /** The largest accepted quantity, in grams. */
  const MaxGrams: real := 1000.0

  /** The line of text under the form; `NoError` is the empty string. */
  datatype FormError = NoError | MissingName | InvalidQuantity | OverMaximum | FoodNotFound | FetchProblem {
    function Message(): string {
      match this
      case NoError => ""
      case MissingName => "رجاءً اكتب اسم الأكلة"
      case InvalidQuantity => "رجاءً أدخل كمية (غرام) صالحة"
      case OverMaximum => "الحد الأقصى 1000 غرام (1 كيلو)"
      case FoodNotFound => "الأكلة غير موجودة. جرّب اسم آخر أو صيغة مختلفة."
      case FetchProblem => "صار مشكل في الجلب. راجع المعطيات أو الاتصال."
    }
  }

  /** The calculate button's label while idle and while working. */
  const IdleLabel: string := "احسب"
  const BusyLabel: string := "... جاري الحساب"

  /**
   * The submit handler's checks, in their order: an empty (trimmed) name
   * first, then a non-finite or non-positive quantity, then one over the
   * maximum; `None` when the input passes all three.
   */
  function Validate(foodName: string, grams: Quantity): (r: Option<FormError>)
    ensures r.None? <==> foodName != [] && grams.Finite? && 0.0 < grams.value <= MaxGrams
    ensures r == Some(MissingName) <==> foodName == []
    ensures r == Some(InvalidQuantity) <==>
      foodName != [] && (grams.NotFinite? || grams.value <= 0.0)
    ensures r == Some(OverMaximum) <==>
      foodName != [] && grams.Finite? && grams.value > MaxGrams
  {
    if foodName == [] then Some(MissingName)
    else if grams.NotFinite? || grams.value <= 0.0 then Some(InvalidQuantity)
    else if grams.value > MaxGrams then Some(OverMaximum)
    else None
  }

  /**
   * Whatever passes validation and is found in the table yields a result the
   * history may hold: a non-empty trimmed name and grams in (0, 1000].
   */
  lemma ValidatedResultAccepted(foodInput: string, grams: Quantity)
    requires Validate(Trim(foodInput), grams).None?
    requires FetchCalories(Trim(foodInput), grams.value).Success?
    ensures IsAcceptedResult(FetchCalories(Trim(foodInput), grams.value).value)
  {
    TrimIdempotent(foodInput);
    FetchedCaloriesBounded(Trim(foodInput), grams.value);
  }

  /** A history in which every entry is one the submit handler could have added. */
  ghost predicate AllAccepted(items: seq<Entry>) {
    forall i | 0 <= i < |items| :: IsAcceptedResult(items[i])
  }

  /** Prepending an accepted result to an accepted history keeps it accepted. */
  lemma AcceptedPrepend(r: Entry, items: seq<Entry>)
    requires IsAcceptedResult(r) && AllAccepted(items)
    ensures AllAccepted([r] + items)
  {
    forall i | 0 <= i < |[r] + items| ensures IsAcceptedResult(([r] + items)[i]) {
      if i > 0 {
        assert ([r] + items)[i] == items[i - 1];
      }
    }
  }

  /** The state the script's closure keeps in the page and in storage. */
  class CalorieBuddy {
    /** `localStorage['calorie-buddy-history-v1']`. */
    var slot: Slot
    /** `calcBtn.disabled`. */
    var loading: bool
    /** `calcBtn.textContent`. */
    var buttonLabel: string
    /** `formError.textContent`. */
    var error: FormError
    /** The result box: hidden (`None`) or showing a result. */
    var shown: Option<CalcResult>
    /** The entries listed under the history, and the total shown beside them (before `toFixed(0)`). */
    var historyView: seq<Entry>
    var totalView: real
    /** Every value `setLoading` has been called with, in order. */
    ghost var loadingTrace: seq<bool>

    /** The history shown is the stored one, and its total is the sum of its calories. */
    ghost predicate Valid()
      reads this
    {
      historyView == Load(slot) && totalView == Total(historyView)
    }

    /** The page as loaded: `renderHistory(loadHistory())` over whatever the slot holds. */
    constructor (stored: Slot)
      ensures Valid()
      ensures slot == stored && historyView == Load(stored)
      ensures !loading && error == NoError && shown == None && loadingTrace == []
    {
      slot := stored;
      loading := false;
      buttonLabel := IdleLabel;
      error := NoError;
      shown := None;
      historyView := [];
      totalView := 0.0;
      loadingTrace := [];
      new;
      RenderHistory(Load(slot));
    }

    /** `setLoading(isLoading)`: disables or enables the button and sets its label. */
    method SetLoading(isLoading: bool)
      modifies this`loading, this`buttonLabel, this`loadingTrace
      ensures loading == isLoading
      ensures buttonLabel == if isLoading then BusyLabel else IdleLabel
      ensures loadingTrace == old(loadingTrace) + [isLoading]
    {
      loading := isLoading;
      buttonLabel := if isLoading then BusyLabel else IdleLabel;
      loadingTrace := loadingTrace + [isLoading];
    }

    /** `setError(message)`. */
    method SetError(e: FormError)
      modifies this`error
      ensures error == e
    {
      error := e;
    }

    /** `resetResult()`: hides the result box. */
    method ResetResult()
      modifies this`shown
      ensures shown == None
    {
      shown := None;
    }

    /** `renderResult(result)`: shows the result box with the result's fields. */
    method RenderResult(result: CalcResult)
      modifies this`shown
      ensures shown == Some(result)
    {
      shown := Some(result);
    }

    /** `renderHistory(items)`: lists the entries and shows the running total of their calories. */
    method RenderHistory(items: seq<Entry>)
      modifies this`historyView, this`totalView
      ensures historyView == items && totalView == Total(items)
    {
      var total := 0.0;
      var i := 0;
      while i < |items|
        invariant 0 <= i <= |items|
        invariant total == Total(items[..i])
      {
        assert items[..i + 1][..i] == items[..i];
        total := total + items[i].calories;
        i := i + 1;
      }
      assert items[..i] == items;
      historyView := items;
      totalView := total;
    }

    /**
     * `saveHistory(items)`: overwrites the slot when storage accepts the write
     * (`accepted`); otherwise `setItem` throws and the slot keeps its value.
     * After a write, loading gives back exactly what was saved.
     */
    method SaveHistory(items: seq<Entry>, accepted: bool) returns (ok: bool)
      modifies this`slot
      ensures ok == accepted
      ensures ok ==> slot == Stored(items) && Load(slot) == items
      ensures !ok ==> slot == old(slot)
    {
      ok := accepted;
      if ok {
        slot := Stored(items);
      }
    }

    /**
     * `addHistoryItem(item)`: the stored history becomes the item followed by
     * the old entries in their order, and the list and total are re-rendered,
     * the total rising by exactly the item's calories. When the write throws,
     * nothing changes and the error goes to the caller (`ok` is false).
     */
    method AddHistoryItem(item: Entry, accepted: bool) returns (ok: bool)
      requires Valid()
      modifies this`slot, this`historyView, this`totalView
      ensures Valid()
      ensures ok == accepted
      ensures ok ==> Load(slot) == [item] + old(Load(slot))
      ensures ok ==> |Load(slot)| == |old(Load(slot))| + 1
      ensures ok ==> totalView == old(totalView) + item.calories
      ensures !ok ==> slot == old(slot) && historyView == old(historyView) && totalView == old(totalView)
    {
      var items := Load(slot);
      items := [item] + items;
      ok := SaveHistory(items, accepted);
      if ok {
        RenderHistory(items);
        TotalPrepend(item, old(Load(slot)));
      }
    }

    /**
     * `clearHistory()`: saves the empty history and renders it, so that
     * loading gives the empty sequence and the total shown is 0. When the
     * write throws, nothing changes.
     */
    method ClearHistory(accepted: bool) returns (ok: bool)
      requires Valid()
      modifies this`slot, this`historyView, this`totalView
      ensures Valid()
      ensures ok == accepted
      ensures ok ==> Load(slot) == [] && historyView == [] && totalView == 0.0
      ensures !ok ==> slot == old(slot) && historyView == old(historyView) && totalView == old(totalView)
    {
      ok := SaveHistory([], accepted);
      if ok {
        RenderHistory([]);
      }
    }

    /**
     * The success path of the `try` block: `renderResult(result)` and then
     * `addHistoryItem(result)`. When the history write throws, the `catch`
     * shows the generic error (the message does not mention "not found").
     */
    method ShowAndRecord(result: CalcResult, accepted: bool)
      requires Valid() && IsAcceptedResult(result) && error == NoError
      modifies this`shown, this`error, this`slot, this`historyView, this`totalView
      ensures Valid()
      ensures shown == Some(result)
      ensures AllAccepted(old(Load(slot))) ==> AllAccepted(Load(slot))
      ensures accepted ==>
        error == NoError && Load(slot) == [result] + old(Load(slot)) &&
        totalView == old(totalView) + result.calories
      ensures !accepted ==>
        error == FetchProblem && slot == old(slot) &&
        historyView == old(historyView) && totalView == old(totalView)
    {
      RenderResult(result);
      var ok := AddHistoryItem(result, accepted);
      if !ok {
        SetError(FetchProblem);
      }
      if ok && AllAccepted(old(Load(slot))) {
        AcceptedPrepend(result, old(Load(slot)));
      }
    }

    /**
     * The `try`/`catch`/`finally` part of the submit handler, reached with a
     * validated name and quantity: the button is set loading once and reset
     * once, whatever happens. A name the table does not have shows the
     * not-found error and leaves the history alone; a found one is shown and
     * recorded by `ShowAndRecord`.
     */
    method Calculate(foodName: string, grams: real, accepted: bool)
      requires Valid()
      requires foodName != [] && Trim(foodName) == foodName && 0.0 < grams <= MaxGrams
      requires shown == None && error == NoError
      modifies this
      ensures Valid()
      ensures AllAccepted(old(Load(slot))) ==> AllAccepted(Load(slot))
      ensures loadingTrace == old(loadingTrace) + [true, false] && !loading && buttonLabel == IdleLabel
      ensures FetchCalories(foodName, grams).Failure? ==>
        error == FoodNotFound && shown == None &&
        slot == old(slot) && historyView == old(historyView) && totalView == old(totalView)
      ensures FetchCalories(foodName, grams).Success? ==>
        var r := FetchCalories(foodName, grams).value;
        shown == Some(r) && IsAcceptedResult(r) &&
        (accepted ==>
          error == NoError && Load(slot) == [r] + old(Load(slot)) &&
          totalView == old(totalView) + r.calories) &&
        (!accepted ==>
          error == FetchProblem && slot == old(slot) &&
          historyView == old(historyView) && totalView == old(totalView))
    {
      SetLoading(true);
      var fetched := FetchCalories(foodName, grams);
      if fetched.Failure? {
        SetError(FoodNotFound);
      } else {
        FetchedCaloriesBounded(foodName, grams);
        ShowAndRecord(fetched.value, accepted);
      }
      SetLoading(false);
    }

    /**
     * The form's submit handler, for the raw name field `foodInput`, the
     * parsed gram field `grams`, and whether storage accepts the history
     * write (`accepted`). It clears the error and hides the result; then
     * the first failing check of `Validate` shows its error and returns
     * before the button is touched and before anything is computed or
     * stored; otherwise `Calculate` runs on the trimmed name.
     */
    method Submit(foodInput: string, grams: Quantity, accepted: bool)
      requires Valid()
      modifies this
      ensures Valid()
      ensures AllAccepted(old(Load(slot))) ==> AllAccepted(Load(slot))
      ensures Validate(Trim(foodInput), grams).Some? ==>
        error == Validate(Trim(foodInput), grams).value && shown == None &&
        slot == old(slot) && historyView == old(historyView) && totalView == old(totalView) &&
        loading == old(loading) && buttonLabel == old(buttonLabel) &&
        loadingTrace == old(loadingTrace)
      ensures Validate(Trim(foodInput), grams).None? ==>
        loadingTrace == old(loadingTrace) + [true, false] && !loading && buttonLabel == IdleLabel
      ensures Validate(Trim(foodInput), grams).None? ==>
        (FetchCalories(Trim(foodInput), grams.value).Failure? ==>
          error == FoodNotFound && shown == None &&
          slot == old(slot) && historyView == old(historyView) && totalView == old(totalView))
      ensures Validate(Trim(foodInput), grams).None? ==>
        (FetchCalories(Trim(foodInput), grams.value).Success? ==>
          var r := FetchCalories(Trim(foodInput), grams.value).value;
          shown == Some(r) && IsAcceptedResult(r) &&
          (accepted ==>
            error == NoError && Load(slot) == [r] + old(Load(slot)) &&
            totalView == old(totalView) + r.calories) &&
          (!accepted ==> error == FetchProblem && slot == old(slot)))
    {
      SetError(NoError);
      ResetResult();
      var foodName := Trim(foodInput);
      if foodName == [] {
        SetError(MissingName);
        return;
      }
      if grams.NotFinite? || grams.value <= 0.0 {
        SetError(InvalidQuantity);
        return;
      }
      if grams.value > MaxGrams {
        SetError(OverMaximum);
        return;
      }
      TrimIdempotent(foodInput);
      Calculate(foodName, grams.value, accepted);
    }
  }

  /** 150 grams of apple on a fresh page: the history holds one entry of 78 calories. */
  method AppleSession() {
    var page := new CalorieBuddy(Missing);
    var name := "تفاح";
    AppleScenario();
    assert Trim(name) == name by {
      assert !IsWhite(name[0]) && !IsWhite(name[|name| - 1]);
      assert TrimStart(name) == name;
    }
    assert Validate(name, Finite(150.0)) == None;
    page.Submit(name, Finite(150.0), true);
    assert Load(page.slot) == [CalcResult(name, 150.0, 78.0, "MB")];
    assert page.totalView == 78.0;
    assert page.error == NoError && !page.loading;
  }

  /** An empty name and 1500 grams are rejected and leave the history alone; clearing empties it. */
  method RejectedSession(stored: seq<Entry>) {
    var page := new CalorieBuddy(Stored(stored));
    assert Trim("") == "";
    page.Submit("", Finite(150.0), true);
    assert page.error == MissingName && Load(page.slot) == stored;
    page.Submit("apple", Finite(1500.0), true);
    assert page.error == OverMaximum && Load(page.slot) == stored;
    var cleared := page.ClearHistory(true);
    assert Load(page.slot) == [] && page.totalView == 0.0;
  }
}
