# Calorie Buddy, modelled in Dafny

Calorie Buddy is a one-page browser form: the user types a food name and a
quantity in grams. The page looks the name up in a static table of calories
per 100 grams, shows the result, and prepends it to a history kept in one
browser-storage slot. The history is listed with a running total. This
project models the logic inside `js/script.js`:

- `Text.dfy` covers the two string operations the lookup uses. One is
  JavaScript's `trim`, with ECMAScript's whitespace and line-terminator
  characters. The other is `toLowerCase`, on ASCII letters.
- `Dataset.dfy` holds `LOCAL_DATASET` as a constant sequence of records,
  and `findFoodEntry`, which returns the first record with a matching
  key.
- `Calories.dfy` models `fetchCalories`. It fails when the lookup finds
  nothing; otherwise it gives `calPer100 * grams / 100`. Arithmetic is
  on reals.
- `History.dfy` models the storage slot. A slot is missing, unparseable,
  JSON that is not a list, or a stored list. The file also has
  `loadHistory` and the running total of `renderHistory`.
- `Form.dfy` holds the page state the script's closure updates, as the
  class `CalorieBuddy`: the slot, the button's disabled flag and label,
  the error line, the result box, and the history list with its total.
  Its methods are `setLoading`, `setError`, `resetResult`,
  `renderResult`, `renderHistory`, `saveHistory`, `addHistoryItem`,
  `clearHistory` and the submit handler. The submit handler validates in
  a fixed order, then calculates, with the `finally` reset of the loading
  state.

The invariant `CalorieBuddy.Valid()` says that the listed history is the
stored one and that the total shown is the sum of its calories. The
constructor establishes it. `AddHistoryItem` and `ClearHistory` restore it
by rendering the loaded history again; `SaveHistory` alone does not, and
neither does `RenderHistory`, which lists whatever entries it is given.
Each result that reaches the history has:

- a non-empty trimmed name;
- grams in (0, 1000];
- positive calories;
- the "MB" label.

`Submit` keeps that as an invariant of the stored history.

Two points of `js/script.js` worth noting:

- The stored `food` is the trimmed name (`foodInput.value.trim()`,
  js/script.js:169).
- A stored history that parses to something other than a list is returned
  by `loadHistory` as it is, and `addHistoryItem` then throws. This is
  modelled as written by `History.LoadAsWritten` and `History.AddAsWritten`
  (see Findings). `CalorieBuddy` runs on the corrected `History.Load`,
  which reads such a slot as the empty history.

## Model

| member | source | states |
|---|---|---|
| Text.LowerChar | js/script.js:128-129 | `toLowerCase` of one character: an ASCII capital becomes its small letter, any other character is unchanged, and whitespace stays whitespace |
| Text.ToLower | js/script.js:128-129 | `toLowerCase` keeps the length and lower-cases each character in place |
| Text.TrimStartSpec | js/script.js:128 | removing leading whitespace leaves a suffix of the input that is empty or starts with a non-whitespace character, and everything removed is whitespace |
| Text.TrimEndSpec | js/script.js:128 | removing trailing whitespace leaves a prefix that is empty or ends with a non-whitespace character, and everything removed is whitespace |
| Text.TrimSpec | js/script.js:128 | `trim` gives the slice of the input between two all-whitespace margins, and the slice neither starts nor ends with whitespace |
| Text.TrimIdempotent | js/script.js:169 | trimming an already trimmed name (the handler trims, then `findFoodEntry` trims again) changes nothing |
| Text.ToLowerIdempotent | js/script.js:128-129 | lower-casing twice is lower-casing once |
| Text.TrimStartOfPadded | js/script.js:128 | leading whitespace added in front is removed by the leading trim |
| Text.TrimEndOfPadded | js/script.js:128 | trailing whitespace added at the end is removed by the trailing trim |
| Text.TrimStartKeepsTail | js/script.js:128 | the leading trim keeps trailing whitespace unless the whole string is whitespace |
| Text.TrimIgnoresPadding | js/script.js:128 | whitespace added on either side of a name does not change its trimmed form |
| Text.LowerCommutesWithTrimStart | js/script.js:128 | lower-casing and removing leading whitespace commute |
| Text.LowerCommutesWithTrimEnd | js/script.js:128 | lower-casing and removing trailing whitespace commute |
| Text.LowerCommutesWithTrim | js/script.js:128 | `name.trim().toLowerCase()` equals trimming the lower-cased name |
| Text.NormalizeIgnoresCaseAndPadding | js/script.js:128 | names that differ only in ASCII case and surrounding whitespace normalise to the same key |
| Text.NormalizeIdempotent | js/script.js:128 | a normalised name normalises to itself |
| Dataset.FindFromIsFirstMatch | js/script.js:129 | the `find` scan from position i returns the first index at or after i whose record has a key (lower-cased) equal to the normalised name; it returns none exactly when no record from i on has one |
| Dataset.FindFoodEntryIsFirstMatch | js/script.js:127-130 | `findFoodEntry` returns the first record in table order having a key whose lower-case form equals `name.trim().toLowerCase()`; it returns `null` exactly when no record has such a key |
| Dataset.FindIgnoresCaseAndPadding | js/script.js:128-129 | two names differing only in surrounding whitespace and ASCII case resolve to the same record, or both to `null` |
| Dataset.FindAfterTrim | js/script.js:169 | looking up the trimmed name, as the submit handler does, finds the same as looking up the raw name |
| Dataset.AppleKey | js/script.js:28 | `"apple"` finds the first record of `LOCAL_DATASET` (52 per 100 g) |
| Dataset.KeysAreShort | js/script.js:27-41 | no key in `LOCAL_DATASET` is longer than 11 characters |
| Dataset.LongNameNotFound | js/script.js:127-130 | a name whose normalised form is longer than every key finds nothing |
| Dataset.UnknownFoodNotFound | js/script.js:127-130 | `"unknown-food-xyz"` finds nothing |
| Calories.FetchCalories | js/script.js:132-144 | fails exactly when `findFoodEntry` returns `null`; on success `food` and `grams` are copied unchanged, `source` is "MB" and `calories` is the matched record's `calPer100 * grams / 100` |
| Calories.CaloriesOfBounded | js/script.js:137 | for grams in (0, 1000], `calPer100 * grams / 100` is positive and at most ten times `calPer100` |
| Calories.FetchedCaloriesBounded | js/script.js:132-144 | an accepted quantity of a found food yields positive calories, at most ten times its figure per 100 g |
| Calories.FetchIgnoresCaseAndPadding | js/script.js:133-137 | names differing only in surrounding whitespace and ASCII case both fail or both give the same calories |
| Calories.AppleScenario | js/script.js:132-144 | `fetchCalories("تفاح", 150)` gives `{food: "تفاح", grams: 150, calories: 78, source: "MB"}` |
| Calories.UnknownFoodFails | js/script.js:133-136 | `fetchCalories("unknown-food-xyz", g)` throws the not-found error |
| History.Load | js/script.js:83-91 | `loadHistory` gives the stored list, and the empty list when the slot is missing, unparseable or not a list |
| History.TotalPrepend | js/script.js:97-101 | prepending an entry raises the total by exactly that entry's calories |
| History.TotalConcat | js/script.js:111-113 | the total of a concatenation is the sum of the totals |
| History.TotalNonNegative | js/script.js:111-113 | entries with non-negative calories have a non-negative total |
| History.LoadAsWritten | js/script.js:83-91 | `loadHistory` as written: a value other than a list comes back exactly when the slot holds non-list JSON |
| History.AddAsWritten | js/script.js:97-100 | `addHistoryItem` as written: when it does not throw, the slot becomes the item followed by the loaded history |
| History.NonListSlotBlocksAdd | js/script.js:86 | on a slot holding non-list JSON, `addHistoryItem` as written always throws, while the corrected load gives the empty history |
| History.AsWrittenAgreesElsewhere | js/script.js:83-100 | on every other slot, the code as written and the corrected load agree |
| Form.Validate | js/script.js:172-183 | the checks in order: empty trimmed name, then non-finite or non-positive grams, then grams over 1000; it passes exactly when the name is non-empty and grams are in (0, 1000] |
| Form.ValidatedResultAccepted | js/script.js:169-187 | a result computed from validated input has a non-empty trimmed name, grams in (0, 1000], positive calories and the "MB" label |
| Form.AcceptedPrepend | js/script.js:97-99 | prepending such a result keeps every history entry of that form |
| Form.CalorieBuddy.constructor | js/script.js:213 | the page starts by rendering the history loaded from the given slot (by the corrected `History.Load`, so a non-list slot shows as empty) and its total, with the button enabled; the empty error line and hidden result box are the page's initial HTML state |
| Form.CalorieBuddy.SetLoading | js/script.js:73-76 | sets `disabled` to the flag and the label to the busy or idle text; records the call |
| Form.CalorieBuddy.SetError | js/script.js:69-71 | sets the error line |
| Form.CalorieBuddy.ResetResult | js/script.js:155-161 | hides the result box |
| Form.CalorieBuddy.RenderResult | js/script.js:147-153 | shows the result box with the result |
| Form.CalorieBuddy.RenderHistory | js/script.js:109-124 | lists exactly the given entries, and the `forEach` loop's total equals the sum of their calories (0 for none) |
| Form.CalorieBuddy.SaveHistory | js/script.js:93-95 | a write that storage accepts overwrites the slot, and loading then gives back exactly what was saved; a write that throws changes nothing |
| Form.CalorieBuddy.AddHistoryItem | js/script.js:97-102 | the stored history, read by the corrected `History.Load`, becomes `[item] + old`: one entry longer, older entries in their order; the total shown rises by the item's calories; nothing changes if the write throws |
| Form.CalorieBuddy.ClearHistory | js/script.js:104-107 | after clearing, loading gives the empty history and the total shown is 0 |
| Form.CalorieBuddy.ShowAndRecord | js/script.js:188-195 | shows the result, then records it in the history; a failed history write shows the generic error and leaves the history as it was |
| Form.CalorieBuddy.Calculate | js/script.js:185-198 | the loading flag is set true once and false once on every path; a failed lookup shows the not-found error with the result hidden and the history unchanged; a found food is shown and prepended, and the total rises by its calories |
| Form.CalorieBuddy.Submit | js/script.js:164-199 | the first failing check shows its error and returns before the loading flag, the lookup or the history are touched; otherwise it behaves as `Calculate`, over the history read by the corrected `History.Load`; every stored entry keeps a non-empty trimmed name and grams in (0, 1000] |

## Left out

- DOM reads and writes, and event registration (js/script.js:8-23,
  147-161, 201-210). They are reduced to the fields of `CalorieBuddy`
  that they show: the error line, the result box, the button, and the
  history list and total.
- The suggest button, `pickRandom` and `SUGGESTIONS` (js/script.js:43-58,
  78-80, 201-206). They depend on randomness and only fill in the form
  fields.
- `parseNumber` and JavaScript number parsing (js/script.js:64-67). The
  gram field arrives already parsed, as a finite real or "not finite".
- Floating-point arithmetic and `toFixed(0)` rounding for display. Calories
  and totals are exact reals.
- JSON text and `localStorage` itself. The slot is an abstract value.
  Stored entries are taken to be well-formed result records. An entry
  whose `calories` is not a number (missing, `null`, a string) makes
  `renderHistory` throw at `entry.calories.toFixed(0)` (js/script.js:118),
  and a `null` entry throws earlier at `entry.calories` (line 113). At
  start-up (line 213) the list is then left half-drawn. Inside
  `addHistoryItem` the slot has already been written (line 100) when
  `renderHistory` throws (line 101), so the `catch` (lines 190-195) shows
  the generic message although the entry was stored. None of this is
  modelled.
- A storage write that throws (quota exceeded, storage disabled) is the
  `accepted` parameter. Other tabs writing the same slot are not modelled.
- `console.warn` and `console.error` logging. The regular expression that
  classifies errors (js/script.js:192-194) is reduced to its outcome. The
  not-found error gives the not-found message. Any other error reaching
  the `catch` gives the generic message. In the model that is a failed
  history write. In the code as written it is also the TypeError from a
  non-list slot (see Findings and the `Form.CalorieBuddy` line below).
- `async`/`await`. The single suspension point is modelled as one step.
- The page's state before the script runs comes from the HTML page, which
  is not part of this model. This covers the button's label, the empty
  error line and the hidden result box. The constructor takes them to be
  the idle label, no error and no result.
- Form.CalorieBuddy: every method reads the history through the corrected
  `History.Load`, so the throw on a slot holding non-list JSON is not
  modelled there. In the code that throw happens at `items.unshift`
  (js/script.js:99) and at the initial `renderHistory` (js/script.js:213).
  It makes `Submit` show the generic message and leaves the slot
  unchanged, whereas the class records the result in an empty history.
  That as-written behaviour is stated by `History.AddAsWritten` and
  `History.NonListSlotBlocksAdd`.
- Text.LowerChar: lower-cases ASCII letters only. JavaScript's
  `toLowerCase` also maps other cased letters, such as Latin-1 or Greek,
  and some map to an ASCII letter. For example, U+212A KELVIN SIGN becomes
  `k`, so `findFoodEntry("chic\u212Aen")` finds the chicken record in
  JavaScript, while the model's `FindFoodEntry` returns none. For a name
  without such characters, Arabic included (it has no case), the model and
  the code agree.

## Findings

| source | as written | input that shows it | evidently intended | confidence | as-written member | corrected member |
|---|---|---|---|---|---|---|
| js/script.js:83-91 | `raw ? JSON.parse(raw) : []` passes on any JSON value; only a parse error gives `[]` | the slot `calorie-buddy-history-v1` holds `null` (or `{}`): `items.unshift` (line 99) throws, so every found food ends in the generic error and nothing is added until the history is cleared; the initial `renderHistory` (line 213) throws too | a slot that does not hold a list reads as the empty history, like a missing or unparseable one | medium, not executed | History.NonListSlotBlocksAdd | History.Load |
