/** The collection operations of src/utils/arrayHelpers.ts: validation,
    lookup, removal and checked append by id, and a statistics snapshot.
    Every operation returns a new sequence; none changes its input. */
module ArrayHelpers {
  import opened Results
  import opened Seqs
  import opened JsStrings
  import opened JsNumbers
  import opened Menu
  import opened Prices

  /** `validateMenuItem`: the truthiness chain over the fields. A blank name
      or description trims to "" and is rejected; the price must be a
      positive number under `Number`. The course is only required to be
      non-empty, not to be one of `Courses`. The separate test that the
      price string is non-empty adds nothing: `Number("")` is 0. */
  function ValidateMenuItem(item: MenuItem): (r: bool)
    ensures r <==> item.id != "" && !AllWhitespace(item.name) && !AllWhitespace(item.description) &&
                   item.course != "" && ToNumber(item.price).Some? && ToNumber(item.price).value > 0.0
  {
    TrimEmptyIffBlank(item.name);
    TrimEmptyIffBlank(item.description);
    item.id != "" &&
    Trim(item.name) != "" &&
    Trim(item.description) != "" &&
    item.course != "" &&
    item.price != "" &&
    ToNumber(item.price).Some? &&
    ToNumber(item.price).value > 0.0
  }

  /** `findItemById`: the first item carrying `id`, if any. */
  function FindItemById(items: seq<MenuItem>, id: string): (r: Option<MenuItem>)
    ensures r.None? <==> forall i :: 0 <= i < |items| ==> items[i].id != id
    ensures r.Some? ==> exists i :: 0 <= i < |items| && items[i] == r.value && r.value.id == id &&
                                    forall j :: 0 <= j < i ==> items[j].id != id
  {
    if |items| == 0 then None
    else if items[0].id == id then Some(items[0])
    else FindItemById(items[1..], id)
  }

  /** `removeItemById`: every item carrying `id` is dropped, every other
      item is kept (as often as it occurred), in the original order. */
  function RemoveItemById(items: seq<MenuItem>, id: string): (r: seq<MenuItem>)
    ensures forall x :: x in r ==> x in items && x.id != id
    ensures forall i :: 0 <= i < |items| && items[i].id != id ==> multiset(r)[items[i]] == multiset(items)[items[i]]
    ensures IsSubsequence(r, items)
  {
    FilterSelects(items, IdIsNot(id));
    Filter(items, IdIsNot(id))
  }

  /** Removing an id nobody carries returns the collection unchanged. */
  lemma RemoveAbsentId(items: seq<MenuItem>, id: string)
    requires FindItemById(items, id).None?
    ensures RemoveItemById(items, id) == items
  {
    FilterKeepsAll(items, IdIsNot(id));
  }

  /** Removing the same id twice is removing it once. */
  lemma RemoveIdempotent(items: seq<MenuItem>, id: string)
    ensures RemoveItemById(RemoveItemById(items, id), id) == RemoveItemById(items, id)
  {
    FilterIdempotent(items, IdIsNot(id));
  }

  /** Why `addItemToArray` refuses an item. */
  datatype AddError = InvalidItem | DuplicateId

  /** `addItemToArray`: validity is checked first, then id uniqueness; on
      success the item is appended at the end. */
  function AddItemToArray(items: seq<MenuItem>, newItem: MenuItem): (r: Result<seq<MenuItem>, AddError>)
    ensures r == Failure(InvalidItem) <==> !ValidateMenuItem(newItem)
    ensures r == Failure(DuplicateId) <==>
              ValidateMenuItem(newItem) && exists i :: 0 <= i < |items| && items[i].id == newItem.id
    ensures r.Success? ==> |r.value| == |items| + 1 && r.value[..|items|] == items && r.value[|items|] == newItem
    ensures r.Success? && DistinctIds(items) ==> DistinctIds(r.value)
  {
    if !ValidateMenuItem(newItem) then Failure(InvalidItem)
    else if FindItemById(items, newItem.id).Some? then Failure(DuplicateId)
    else Success(items + [newItem])
  }

  /** Appending an item and then removing its id restores the collection. */
  lemma AddThenRemove(items: seq<MenuItem>, newItem: MenuItem)
    requires AddItemToArray(items, newItem).Success?
    ensures RemoveItemById(AddItemToArray(items, newItem).value, newItem.id) == items
  {
    assert AddItemToArray(items, newItem).value == items + [newItem];
    assert forall i :: 0 <= i < |items| ==> items[i].id != newItem.id;
    AppendThenRemove(items, newItem);
  }

  /** Appending an item with a fresh id and removing that id restores the collection. */
  lemma AppendThenRemove(items: seq<MenuItem>, newItem: MenuItem)
    requires forall i :: 0 <= i < |items| ==> items[i].id != newItem.id
    ensures RemoveItemById(items + [newItem], newItem.id) == items
  {
    var keep := IdIsNot(newItem.id);
    FilterConcat(items, [newItem], keep);
    FilterKeepsAll(items, keep);
    FilterDropsAll([newItem], keep);
  }

  /** The snapshot `getArrayStats` returns; `averagePrice` is `None` when NaN. */
  datatype Stats = Stats(total: nat, starters: nat, mains: nat, desserts: nat, averagePrice: Option<real>)

  /** The number of items whose course is exactly `course`. */
  function CourseCount(items: seq<MenuItem>, course: string): (c: nat)
    ensures c == |set i | 0 <= i < |items| && items[i].course == course|
    ensures c <= |items|
    ensures c == 0 <==> forall i :: 0 <= i < |items| ==> items[i].course != course
    ensures c == |items| <==> forall i :: 0 <= i < |items| ==> items[i].course == course
  {
    FilterLengthExtremes(items, CourseIs(course));
    FilterLengthCountsIndices(items, CourseIs(course));
    assert KeptIndices(items, CourseIs(course)) == set i | 0 <= i < |items| && items[i].course == course;
    |Filter(items, CourseIs(course))|
  }

  /** `getArrayStats`: the length, the three per-course counts of exact
      matches (which can together fall short of the length when an item has
      another course) and
      the `Number`-parsed mean price, 0 for an empty collection. */
  function GetArrayStats(items: seq<MenuItem>): (r: Stats)
    ensures r.total == |items|
    ensures r.starters == |set i | 0 <= i < |items| && items[i].course == "Starters"|
    ensures r.mains == |set i | 0 <= i < |items| && items[i].course == "Mains"|
    ensures r.desserts == |set i | 0 <= i < |items| && items[i].course == "Desserts"|
    ensures r.starters + r.mains + r.desserts <= r.total
    ensures |items| == 0 ==> r.averagePrice == Some(0.0)
    ensures |items| > 0 ==> (r.averagePrice.None? <==> exists i :: 0 <= i < |items| && ToNumber(items[i].price).None?)
    ensures r.averagePrice == MeanPrice(items, ToNumber)
  {
    CourseCountsBounded(items);
    var average := if |items| > 0 then MeanPrice(items, ToNumber) else Some(0.0);
    Stats(|items|, CourseCount(items, "Starters"), CourseCount(items, "Mains"), CourseCount(items, "Desserts"), average)
  }

  /** An item has at most one course, so the three counts never exceed the length. */
  lemma CourseCountsBounded(items: seq<MenuItem>)
    ensures CourseCount(items, "Starters") + CourseCount(items, "Mains") + CourseCount(items, "Desserts") <= |items|
  {
    var either := (x: MenuItem) => x.course == "Starters" || x.course == "Mains";
    var any := (x: MenuItem) => either(x) || x.course == "Desserts";
    FilterDisjointLengths(items, CourseIs("Starters"), CourseIs("Mains"), either);
    FilterDisjointLengths(items, either, CourseIs("Desserts"), any);
  }

  /** An item with non-empty id and course, a name and description that do
      not start with whitespace, and a price `w.f` with a non-zero leading
      digit is valid. */
  lemma ValidWithPointPrice(item: MenuItem, w: string, f: string)
    requires item.id != "" && item.course != ""
    requires |item.name| > 0 && !IsWhitespace(item.name[0])
    requires |item.description| > 0 && !IsWhitespace(item.description[0])
    requires |w| > 0 && |f| > 0 && AllDigitsIn(w, 10) && AllDigitsIn(f, 10) && w[0] != '0'
    requires item.price == w + "." + f
    ensures ValidateMenuItem(item)
  {
    PositivePointNumber(w, f);
  }

  /** The course is not checked against the closed list: an item of an
      unknown course passes validation. */
  lemma UnknownCourseIsValid()
    ensures "Brunch" !in Courses
    ensures ValidateMenuItem(MenuItem("x", "Eggs", "Poached", "Brunch", "5"))
  {
    IntegerLiteral("5");
    assert MantissaValue("5", "") == 5.0;
    BareLiteral("5");
    assert !IsWhitespace("Eggs"[0]);
    assert !IsWhitespace("Poached"[0]);
  }
}
