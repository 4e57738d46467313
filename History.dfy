/**
 * The history kept under the one storage key `calorie-buddy-history-v1`:
 * what the slot may hold, what `loadHistory` makes of it, and the running
 * total `renderHistory` shows.
 */
module History {
  import opened Wrappers
  import opened Calories

  /** A history entry is a stored `fetchCalories` result; newest first. */
  type Entry = CalcResult

  /**
   * The storage slot, abstracted from its JSON text: nothing stored; text
   * that is empty or does not parse; JSON that parses to something other
   * than an array (such as `null` or `{}`); or a stored array of entries.
   */
  datatype Slot = Missing | Unparseable | NotAList | Stored(items: seq<Entry>)

  /**
   * `loadHistory()`: the stored entries, and the empty history whenever the
   * slot is missing or holds anything that is not a list of entries.
   */
  function Load(slot: Slot): (items: seq<Entry>)
    ensures slot.Stored? ==> items == slot.items
    ensures !slot.Stored? ==> items == []
  {
    match slot
    case Stored(items) => items
    case _ => []
  }

  /** The running total of `renderHistory`: calories summed in list order. */
  function Total(items: seq<Entry>): real {
    if items == [] then 0.0 else Total(items[..|items| - 1]) + items[|items| - 1].calories
  }

  /** Putting an entry in front raises the total by exactly that entry's calories. */
  lemma {:induction false} TotalPrepend(item: Entry, items: seq<Entry>)
    ensures Total([item] + items) == item.calories + Total(items)
  {
    if items != [] {
      var all := [item] + items;
      assert all[..|all| - 1] == [item] + items[..|items| - 1];
      TotalPrepend(item, items[..|items| - 1]);
    }
  }

  /** The total is additive over concatenation: the sum of the two parts. */
  lemma {:induction false} TotalConcat(xs: seq<Entry>, ys: seq<Entry>)
    ensures Total(xs + ys) == Total(xs) + Total(ys)
  {
    if ys == [] {
      assert xs + ys == xs;
    } else {
      var all := xs + ys;
      assert all[..|all| - 1] == xs + ys[..|ys| - 1];
      TotalConcat(xs, ys[..|ys| - 1]);
    }
  }

  /** A history of entries with non-negative calories has a non-negative total. */
  lemma {:induction false} TotalNonNegative(items: seq<Entry>)
    requires forall i | 0 <= i < |items| :: items[i].calories >= 0.0
    ensures Total(items) >= 0.0
  {
    if items != [] {
      TotalNonNegative(items[..|items| - 1]);
    }
  }

  /** What `JSON.parse` hands back to `loadHistory`'s caller, as written: a list or some other value. */
  datatype Parsed = List(items: seq<Entry>) | NonList

  /**
   * `loadHistory()` as written: `raw ? JSON.parse(raw) : []`, with `[]` on a
   * parse error; JSON that parses to a non-array value is passed on as it is.
   */
  function LoadAsWritten(slot: Slot): (r: Parsed)
    ensures slot == NotAList <==> r == NonList
    ensures slot.Stored? ==> r == List(slot.items)
  {
    match slot
    case Missing => List([])
    case Unparseable => List([])
    case NotAList => NonList
    case Stored(items) => List(items)
  }

  /**
   * `addHistoryItem(item)` as written, on the slot: `None` when `unshift` is
   * called on a non-array and throws a TypeError before anything is saved.
   */
  function AddAsWritten(slot: Slot, item: Entry): (r: Option<Slot>)
    ensures r.Some? ==> r.value == Stored([item] + Load(slot))
  {
    match LoadAsWritten(slot)
    case NonList => None
    case List(items) => Some(Stored([item] + items))
  }

  /**
   * With a slot holding JSON `null` (or any non-array), the code as written
   * can never add to the history, although the history it would show is
   * meant to be empty; `Load` instead treats that slot as the empty history,
   * so adding leaves exactly the new entry.
   */
  lemma NonListSlotBlocksAdd(item: Entry)
    ensures AddAsWritten(NotAList, item) == None
    ensures Load(NotAList) == []
  {
  }

  /** On every other slot the code as written and `Load` agree. */
  lemma AsWrittenAgreesElsewhere(slot: Slot, item: Entry)
    requires slot != NotAList
    ensures LoadAsWritten(slot) == List(Load(slot))
    ensures AddAsWritten(slot, item) == Some(Stored([item] + Load(slot)))
  {
  }
}
