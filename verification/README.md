# Menu collection model

A Dafny model of the menu-collection core of MastApp, a small React Native
restaurant-menu application written in TypeScript. The collection is an
immutable list of `MenuItem` records: an id, name, description, course and
price, all strings. The core consists of three utility files:

- `src/utils/arrayHelpers.ts`: validating an item, finding and removing
  items by id, a checked append that rejects invalid items and duplicate
  ids, and a statistics snapshot (per-course counts and the average price).
- `src/utils/calculations.ts`: the average price, optionally restricted to
  one course, and the course filter.
- `src/utils/menuUtils.ts`: a second average that parses prices with
  `parseFloat`, a second course filter and the predefined starting menu.

Prices are strings and are converted at the point of use. The model
therefore includes the two JavaScript conversions the code relies on:

- `Number(s)`, which ECMAScript calls StringToNumber (section 7.1.4.1.1 of
  ECMA-262);
- the global `parseFloat(s)`, in section 19.2.4 of ECMA-262.

Both work over exact reals, and `None` stands for NaN. Because NaN
propagates through a sum, one unparsable price makes an average NaN.

Modules:

- `Results` holds the `Option` and `Result` types.
- `Seqs` holds `Array.prototype.filter` as `Filter`, plus a longest-prefix
  search.
- `JsStrings` holds the whitespace class, `trim` and the leading-whitespace
  skip.
- `JsNumbers` holds `Number` and `parseFloat`.
- `Menu` holds the record, the course list and the filter callbacks.
- `Prices` holds the price sum and mean shared by every average.
- `ArrayHelpers`, `Calculations` and `MenuUtils` hold the three core files.
- `TestData` holds the fixed test menu and its expected filter counts.

Three behaviours of the code that a reader might not expect, and that the
model keeps as written:

- **Invalid prices in averages.** An invalid price is not treated as 0.
  `calculateAverage` and `calculateAveragePrice` add `Number(price)` or
  `parseFloat(price)` directly, so one invalid price makes the average NaN
  (`None`).
- **Removal by id.** `removeItemById` is a `filter`, so it removes every
  item carrying the id, not only the first one.
- **Course validation.** `validateMenuItem` only requires a non-empty
  course; it does not check it against `COURSES`.
  `ArrayHelpers.UnknownCourseIsValid` shows an item of course "Brunch"
  passing.

## Model

| member | source | states |
|---|---|---|
| ArrayHelpers.ValidateMenuItem | src/utils/arrayHelpers.ts:3-13 | An item is valid exactly when its id and course are non-empty, its name and description are not blank, and its price converts under `Number` to a positive number. The separate non-empty price test is implied, because `Number("")` is 0. |
| ArrayHelpers.FindItemById | src/utils/arrayHelpers.ts:19-21 | The result is absent exactly when no item carries the id. Otherwise it is an item of the list carrying the id, and no earlier item carries it. |
| ArrayHelpers.RemoveItemById | src/utils/arrayHelpers.ts:23-25 | Every item of the result is in the input and has another id. Every item with another id keeps its full multiplicity. The result is an ordered subsequence of the input. |
| ArrayHelpers.RemoveAbsentId | src/utils/arrayHelpers.ts:19-25 | Removing an id that `findItemById` does not find leaves the list unchanged. |
| ArrayHelpers.RemoveIdempotent | src/utils/arrayHelpers.ts:23-25 | Removing the same id twice is the same as removing it once. |
| ArrayHelpers.AddItemToArray | src/utils/arrayHelpers.ts:27-38 | The first error is "invalid" exactly when the item fails validation. The duplicate-id error happens exactly when the item is valid and its id is already present. On success the list is the old list with the item appended at the end. Distinct ids stay distinct. |
| ArrayHelpers.AddThenRemove | src/utils/arrayHelpers.ts:23-38 | Removing the id of a successfully added item gives back the original list. |
| ArrayHelpers.AppendThenRemove | src/utils/arrayHelpers.ts:23-25 | Appending an item with a fresh id and then removing that id gives back the original list. |
| ArrayHelpers.GetArrayStats | src/utils/arrayHelpers.ts:40-50 | `total` is the length. Each course count is the number of positions whose item has exactly that course, and the three together are at most the length. The average is 0 for an empty list, NaN exactly when some price is not a number, and otherwise the `Number`-parsed mean. |
| ArrayHelpers.CourseCount | src/utils/arrayHelpers.ts:43-45 | The count of one course is the number of positions whose item has exactly that course, so it is at most the length. It is 0 exactly when no item has that course, and equals the length exactly when every item has it. |
| ArrayHelpers.CourseCountsBounded | src/utils/arrayHelpers.ts:43-45 | The Starters, Mains and Desserts counts never add up to more than the number of items. |
| ArrayHelpers.UnknownCourseIsValid | src/utils/arrayHelpers.ts:8 | An item whose course is not in `COURSES` can still pass validation. |
| Calculations.FilterByCourse | src/utils/calculations.ts:11-12 | The result holds exactly the items of the given course, each with its full multiplicity, in their original order. |
| Calculations.SelectByCourse | src/utils/calculations.ts:4 | A missing or empty course filter is falsy and selects the whole list. A non-empty filter selects exactly the items of that course, each with its full multiplicity, in their original order. The same selection appears at src/utils/menuUtils.ts:4. |
| Calculations.CalculateAverage | src/utils/calculations.ts:3-9 | An empty selection averages to 0. A non-empty selection is NaN exactly when one of its prices is not a number. Otherwise the result is the mean of the `Number`-parsed prices. A missing or empty course filter selects every item. |
| Calculations.AverageOfCourseIsAverageOfFilter | src/utils/calculations.ts:3-12 | Averaging with a non-empty course filter is the same as averaging the output of `filterByCourse` with no filter. |
| Calculations.AverageOfValidItems | src/utils/calculations.ts:3-9 | Over items that all pass validation, any non-empty selection has an average that is a positive number. |
| Calculations.StatsAverageIsOverallAverage | src/utils/arrayHelpers.ts:46-48 | The average in the statistics snapshot is `calculateAverage` with no course filter. |
| Calculations.StatsCountsAreFilterLengths | src/utils/arrayHelpers.ts:43-45 | Each count in the statistics snapshot is the length of `filterByCourse` for that course. |
| Calculations.FilterByCourseIdempotent | src/utils/calculations.ts:11-12 | Filtering by the same course twice is the same as filtering once. |
| Calculations.FilterByCourseOfRun | src/utils/calculations.ts:11-12 | When a course's items form one contiguous run, filtering by that course returns exactly that run. |
| MenuUtils.CalculateAveragePrice | src/utils/menuUtils.ts:3-9 | An empty selection averages to 0. A non-empty selection is NaN exactly when one of its prices has no numeric prefix. Otherwise the result is the mean of the `parseFloat`-parsed prices. |
| MenuUtils.GetItemsByCourse | src/utils/menuUtils.ts:11-13 | The result holds exactly the items of the given course, each with its full multiplicity, in their original order. |
| MenuUtils.GetItemsByCourseIsFilterByCourse | src/utils/menuUtils.ts:11-13 | `getItemsByCourse` and `filterByCourse` return the same list for every input. |
| MenuUtils.AveragesAgreeOnDecimalPrices | src/utils/menuUtils.ts:3-9 | When every price is one decimal literal, possibly with surrounding whitespace, the two averages agree for every course filter. |
| MenuUtils.AveragesDivergeOnTrailingText | src/utils/menuUtils.ts:7 | A price of "12abc" makes `calculateAverage` NaN, while `calculateAveragePrice` gives 12. |
| ArrayHelpers.ValidWithPointPrice | src/utils/arrayHelpers.ts:3-13 | An item with non-empty id and course, a name and description that start with a visible character, and a price of the form digits-point-digits without a leading zero is valid. |
| MenuUtils.PredefinedItemsDistinct | src/utils/menuUtils.ts:15-22 | The starting menu has six items, and their ids are distinct. |
| MenuUtils.PredefinedItemsPerCourse | src/utils/menuUtils.ts:15-22 | The starting menu has exactly two items of each course. |
| MenuUtils.PredefinedItemsValid | src/utils/menuUtils.ts:15-22 | Every item of the starting menu passes `validateMenuItem`. |
| TestData.TestItemsFilter | src/utils/testData.ts:4-16 | Filtering the test menu by a course returns that course's contiguous run of items. |
| TestData.TestItemsMatchExpected | src/utils/testData.ts:4-24 | The test menu has 6 items, and filtering it by course gives the expected 2 starters, 3 mains and 1 dessert. |
| TestData.TestStartersAverage | src/utils/testData.ts:6-7 | The average over the test starters, priced 100.00 and 120.00, is 110. |
| Prices.SumPrices | src/utils/calculations.ts:7 | The fold of the parsed prices is NaN exactly when some price parses to NaN. |
| Prices.MeanPrice | src/utils/calculations.ts:5-8 | The mean is 0 for no items and NaN exactly when some price is NaN. Otherwise the mean times the count equals the sum. |
| Prices.SumOfPositive | src/utils/calculations.ts:7 | Prices that all parse to positive numbers have a positive sum. |
| Prices.MeanPointwise | src/utils/menuUtils.ts:7 | Two parsers that agree on every price give the same mean. |
| JsStrings.TrimStart | src/utils/menuUtils.ts:7 | `parseFloat` first drops leading whitespace: the result is a suffix of the input, everything before it is whitespace, and it does not start with whitespace. |
| JsStrings.Trim | src/utils/arrayHelpers.ts:6-7 | `trim` returns a slice of the input that starts after the leading whitespace and has only whitespace after it. The slice neither starts nor ends with whitespace. |
| JsStrings.TrimEmptyIffBlank | src/utils/arrayHelpers.ts:6-7 | `x.trim()` is falsy exactly when `x` consists of whitespace only. |
| JsNumbers.ToNumber | src/utils/arrayHelpers.ts:10-11 | `Number` of a blank string is 0. Any other number it returns is the decimal or the 0x/0o/0b value of the whole trimmed string. |
| JsNumbers.ParseFloat | src/utils/menuUtils.ts:7 | `parseFloat` is a number exactly when some prefix of the string, after its leading whitespace, is a decimal literal. The number is the value of the longest such prefix. |
| JsNumbers.ParseFloatAgreesOnDecimal | src/utils/menuUtils.ts:7 | On a string whose trimmed form is a decimal literal, `parseFloat` and `Number` give the same value. |
| JsNumbers.TrailingGarbageDiverges | src/utils/menuUtils.ts:7 | On "12abc", `Number` is NaN and `parseFloat` is 12. |
| JsNumbers.HexLiteralDiverges | src/utils/menuUtils.ts:7 | On "0x10", `Number` is 16 and `parseFloat` is 0. |
| JsNumbers.BlankDiverges | src/utils/menuUtils.ts:7 | On a blank string, `Number` is 0 and `parseFloat` is NaN. |
| Seqs.Filter | src/utils/calculations.ts:12 | `filter` keeps only elements of the input that satisfy the callback, and never lengthens it. |
| Seqs.FilterLengthCountsIndices | src/utils/arrayHelpers.ts:43-45 | The length of a filtered list is the number of positions whose element the callback accepts. |
| Seqs.FilterSelects | src/utils/calculations.ts:12 | `filter` keeps every occurrence of a kept element, in the original order. |

## Left out

- `generateUniqueId` is left out. It reads the clock and a random source, so the model takes ids as given.
- The screens, components, `App` and the styling files are left out. They hold UI state and rendering, which the core does not depend on.
- The `menuData.ts` constants are left out because no core operation uses them.
- `COURSES` is modelled as `Menu.Courses`, but only the lemmas use it: no core operation checks a course against it.
- Exceptions are modelled as values. `addItemToArray` throws, and the model returns `Failure(InvalidItem)` or `Failure(DuplicateId)` instead.
- JsNumbers.ToNumber: prices are exact reals, so IEEE-754 rounding, overflow to Infinity and the `Infinity` spelling are not modelled. A price that JavaScript rounds or overflows gets its exact value here. This changes the verdict of `validateMenuItem` at the edges: a price of "Infinity" passes in JavaScript but is rejected here, and a price such as "1e-400", which underflows to 0 and is rejected in JavaScript, is positive here and passes.
- JsNumbers.ParseFloat: for the same reason, the `Infinity` prefix is not accepted.
- Prices.MeanPrice: Infinity and -0 do not arise, because values are exact reals.
- Averages are not rounded or formatted for display, for example with `toFixed`, since that happens in the screens.
- JsStrings.IsWhitespace covers the fixed list of ECMAScript WhiteSpace and LineTerminator code points. Dafny's `char` is a Unicode scalar value, while a JavaScript string is a sequence of UTF-16 code units. So lone surrogates cannot be represented, and a character outside the Basic Multilingual Plane is one element here instead of two. Neither affects `trim`, `Number` or `parseFloat`, because every whitespace character and every digit lies inside the Basic Multilingual Plane.
