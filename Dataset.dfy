/**
 * The static food table (`LOCAL_DATASET`) and the first-match lookup over it
 * (`findFoodEntry`).
 */
module Dataset {
  import opened Wrappers
  import opened Text

  /** A calorie figure per 100 grams; every figure in the table is positive. */
  type Per100 = n: nat | n > 0 witness 1

  /** One row of the table: its accepted spellings and its calories per 100 grams. */
  datatype FoodRecord = FoodRecord(keys: seq<string>, calPer100: Per100)

  /** `LOCAL_DATASET`, in table order. */
  const LocalDataset: seq<FoodRecord> := [
    FoodRecord(["تفاح", "تفاحة", "apple"], 52),
    FoodRecord(["موز", "banana"], 89),
    FoodRecord(["برتقال", "orange"], 47),
    FoodRecord(["خبز", "bread"], 265),
    FoodRecord(["أرز", "أرز أبيض", "رز", "rice"], 130),
    FoodRecord(["مكرونة", "باستا", "pasta"], 131),
    FoodRecord(["دجاج", "دجاج مشوي", "chicken"], 239),
    FoodRecord(["سمك", "سمك مشوي", "fish"], 206),
    FoodRecord(["كسكسي", "couscous"], 112),
    FoodRecord(["سلطة تونسية", "سلطة", "salad"], 35),
    FoodRecord(["زبادي", "لبن", "yogurt"], 59),
    FoodRecord(["بيض مسلوق", "بيض", "egg"], 155),
    FoodRecord(["لبلابي", "hummus soup"], 95)
  ]

  /** `entry.key.some(k => k.toLowerCase() === normalized)`. */
  predicate HasKey(rec: FoodRecord, normalized: string) {
    exists k | k in rec.keys :: ToLower(k) == normalized
  }

  /** The `find` scan over `table` from position `i` on; its contract is `FindFromIsFirstMatch`. */
  function FindFrom(table: seq<FoodRecord>, normalized: string, i: nat): Option<nat>
    requires i <= |table|
    decreases |table| - i
  {
    if i == |table| then None
    else if HasKey(table[i], normalized) then Some(i)
    else FindFrom(table, normalized, i + 1)
  }

  /**
   * The scan from `i` gives the index of the first record at or after `i`
   * that has the key, and `None` exactly when none has it.
   */
  lemma {:induction false} FindFromIsFirstMatch(table: seq<FoodRecord>, normalized: string, i: nat)
    requires i <= |table|
    decreases |table| - i
    ensures var r := FindFrom(table, normalized, i);
      r.Some? ==>
        i <= r.value < |table| && HasKey(table[r.value], normalized) &&
        forall j | i <= j < r.value :: !HasKey(table[j], normalized)
    ensures FindFrom(table, normalized, i).None? <==>
      forall j | i <= j < |table| :: !HasKey(table[j], normalized)
  {
    if i < |table| && !HasKey(table[i], normalized) {
      FindFromIsFirstMatch(table, normalized, i + 1);
    }
  }

  /** `findFoodEntry(name)`; its contract is `FindFoodEntryIsFirstMatch`. */
  function FindFoodEntry(name: string): Option<FoodRecord> {
    FindFromIsFirstMatch(LocalDataset, Normalize(name), 0);
    match FindFrom(LocalDataset, Normalize(name), 0)
    case None => None
    case Some(i) => Some(LocalDataset[i])
  }

  /**
   * `findFoodEntry(name)` gives the first record, in table order, with a key
   * whose lower-case form equals `name.trim().toLowerCase()`, and `None`
   * (the script's `null`) exactly when no record has such a key.
   */
  lemma FindFoodEntryIsFirstMatch(name: string)
    ensures FindFoodEntry(name).None? <==>
      forall i | 0 <= i < |LocalDataset| :: !HasKey(LocalDataset[i], Normalize(name))
    ensures FindFoodEntry(name).Some? ==> exists i | 0 <= i < |LocalDataset| ::
      LocalDataset[i] == FindFoodEntry(name).value && HasKey(LocalDataset[i], Normalize(name)) &&
      forall j | 0 <= j < i :: !HasKey(LocalDataset[j], Normalize(name))
  {
    FindFromIsFirstMatch(LocalDataset, Normalize(name), 0);
    var found := FindFrom(LocalDataset, Normalize(name), 0);
    if found.Some? {
      var i := found.value;
      assert LocalDataset[i] == FindFoodEntry(name).value;
    }
  }

  /**
   * Names that differ only in surrounding whitespace and ASCII letter case
   * resolve to the same record, or both to `None`.
   */
  lemma FindIgnoresCaseAndPadding(pre: string, a: string, post: string, b: string)
    requires AllWhite(pre) && AllWhite(post)
    requires ToLower(a) == ToLower(b)
    ensures FindFoodEntry(pre + a + post) == FindFoodEntry(b)
  {
    NormalizeIgnoresCaseAndPadding(pre, a, post, b);
  }

  /** Trimming a name before the lookup, as the submit handler does, changes nothing. */
  lemma FindAfterTrim(name: string)
    ensures FindFoodEntry(Trim(name)) == FindFoodEntry(name)
  {
    TrimIdempotent(name);
  }

  /** The plain spelling `"apple"` finds the first record. */
  lemma AppleKey()
    ensures FindFoodEntry("apple") == Some(LocalDataset[0])
  {
    var apple := "apple";
    assert TrimStart(apple) == apple;
    assert TrimEnd(apple) == apple;
    assert ToLower(apple) == apple;
    assert Normalize(apple) == apple;
    assert LocalDataset[0].keys[2] == apple;
    assert HasKey(LocalDataset[0], apple);
  }

  /** No key of the table is longer than `"hummus soup"`, eleven characters. */
  lemma KeysAreShort(i: nat, k: string)
    requires i < |LocalDataset| && k in LocalDataset[i].keys
    ensures |k| <= 11
  {
  }

  /** A name longer than every key, once normalised, finds nothing. */
  lemma LongNameNotFound(name: string)
    requires |Normalize(name)| > 11
    ensures FindFoodEntry(name) == None
  {
    forall i | 0 <= i < |LocalDataset|
      ensures !HasKey(LocalDataset[i], Normalize(name))
    {
      forall k | k in LocalDataset[i].keys ensures ToLower(k) != Normalize(name) {
        KeysAreShort(i, k);
      }
    }
    FindFoodEntryIsFirstMatch(name);
  }

  /** `"unknown-food-xyz"` is not in the table. */
  lemma UnknownFoodNotFound()
    ensures FindFoodEntry("unknown-food-xyz") == None
  {
    var name := "unknown-food-xyz";
    assert !IsWhite(name[0]) && !IsWhite(name[|name| - 1]);
    assert TrimStart(name) == name;
    assert TrimEnd(name) == name;
    LongNameNotFound(name);
  }
}
