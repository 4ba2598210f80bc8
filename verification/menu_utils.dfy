/** src/utils/menuUtils.ts: a second average-price function that parses
    prices with `parseFloat` instead of `Number`, a second course filter,
    and the menu the application starts with. */
module MenuUtils {
  import opened Results
  import opened Seqs
  import opened JsStrings
  import opened JsNumbers
  import opened Menu
  import opened Prices
  import opened ArrayHelpers
  import opened Calculations

  /** `calculateAveragePrice`: the same selection as `calculateAverage` and
      0 for an empty one; otherwise the mean of the `parseFloat`-parsed
      prices, NaN as soon as one price has no numeric prefix. */
  function CalculateAveragePrice(items: seq<MenuItem>, course: Option<string>): (r: Option<real>)
    ensures |SelectByCourse(items, course)| == 0 ==> r == Some(0.0)
    ensures var sel := SelectByCourse(items, course);
            |sel| > 0 ==> (r.None? <==> exists i :: 0 <= i < |sel| && ParseFloat(sel[i].price).None?)
    ensures r == MeanPrice(SelectByCourse(items, course), ParseFloat)
  {
    var filtered := SelectByCourse(items, course);
    if |filtered| == 0 then Some(0.0) else MeanPrice(filtered, ParseFloat)
  }

  /** `getItemsByCourse`, written with its own filter callback. */
  function GetItemsByCourse(items: seq<MenuItem>, course: string): (r: seq<MenuItem>)
    ensures forall x :: x in r ==> x in items && x.course == course
    ensures forall i :: 0 <= i < |items| && items[i].course == course ==>
              multiset(r)[items[i]] == multiset(items)[items[i]]
    ensures IsSubsequence(r, items)
  {
    FilterSelects(items, (item: MenuItem) => item.course == course);
    Filter(items, (item: MenuItem) => item.course == course)
  }

  /** The two course filters are the same function. */
  lemma GetItemsByCourseIsFilterByCourse(items: seq<MenuItem>, course: string)
    ensures GetItemsByCourse(items, course) == FilterByCourse(items, course)
  {
    FilterExtensional(items, (item: MenuItem) => item.course == course, CourseIs(course));
  }

  /** When every price is a single decimal literal, possibly surrounded by
      whitespace, the two average functions agree. */
  lemma AveragesAgreeOnDecimalPrices(items: seq<MenuItem>, course: Option<string>)
    requires forall i :: 0 <= i < |items| ==> IsDecimalLiteral(Trim(items[i].price))
    ensures CalculateAveragePrice(items, course) == CalculateAverage(items, course)
  {
    var sel := SelectByCourse(items, course);
    forall i | 0 <= i < |sel|
      ensures ParseFloat(sel[i].price) == ToNumber(sel[i].price)
    {
      assert sel[i] in items;
      ParseFloatAgreesOnDecimal(sel[i].price);
    }
    MeanPointwise(sel, ParseFloat, ToNumber);
  }

  /** A price with trailing text makes `calculateAverage` NaN, while
      `calculateAveragePrice` reads its numeric prefix. */
  lemma AveragesDivergeOnTrailingText()
    ensures CalculateAverage([MenuItem("1", "Soup", "Hot", "Starters", "12abc")], None) == None
    ensures CalculateAveragePrice([MenuItem("1", "Soup", "Hot", "Starters", "12abc")], None) == Some(12.0)
  {
    var item := MenuItem("1", "Soup", "Hot", "Starters", "12abc");
    TrailingGarbageDiverges();
    MeanOfOne(item, ToNumber);
    MeanOfOne(item, ParseFloat);
  }

  /** `PREDEFINED_ITEMS`, the menu the application starts with. */
  const PredefinedItems: seq<MenuItem> := [
    MenuItem("1", "Bruschetta", "Toasted bread with tomatoes and basil", "Starters", "129.99"),
    MenuItem("2", "Caesar Salad", "Fresh romaine with parmesan and croutons", "Starters", "145.00"),
    MenuItem("3", "Grilled Salmon", "Atlantic salmon with lemon herbs", "Mains", "289.99"),
    MenuItem("4", "Beef Tenderloin", "Premium cut with red wine reduction", "Mains", "350.00"),
    MenuItem("5", "Chocolate Lava Cake", "Warm chocolate cake with molten center", "Desserts", "99.99"),
    MenuItem("6", "Tiramisu", "Classic Italian coffee-flavored dessert", "Desserts", "85.00")
  ]

  /** The starting menu has six items with distinct ids. */
  lemma PredefinedItemsDistinct()
    ensures |PredefinedItems| == 6
    ensures DistinctIds(PredefinedItems)
  {
    var m := PredefinedItems;
    forall i, j | 0 <= i < j < |m|
      ensures m[i].id != m[j].id
    {
    }
  }

  /** The starting menu has two items of each course. */
  lemma PredefinedItemsPerCourse(course: string)
    requires course in Courses
    ensures |FilterByCourse(PredefinedItems, course)| == 2
  {
    var m := PredefinedItems;
    var lo := if course == "Starters" then 0 else if course == "Mains" then 2 else 4;
    forall i | 0 <= i < |m|
      ensures m[i].course == course <==> lo <= i < lo + 2
    {
    }
    FilterByCourseOfRun(m, course, lo, lo + 2);
  }

  /** Every item of the starting menu passes validation. */
  lemma PredefinedItemsValid()
    ensures forall i :: 0 <= i < |PredefinedItems| ==> ValidateMenuItem(PredefinedItems[i])
  {
    forall i | 0 <= i < |PredefinedItems|
      ensures ValidateMenuItem(PredefinedItems[i])
    {
      PredefinedItemValid(i);
    }
  }

  /** The `i`-th item of the starting menu passes validation. */
  lemma PredefinedItemValid(i: nat)
    requires i < |PredefinedItems|
    ensures ValidateMenuItem(PredefinedItems[i])
  {
    var m := PredefinedItems;
    if i == 0 {
      ValidWithPointPrice(m[0], "129", "99");
    } else if i == 1 {
      ValidWithPointPrice(m[1], "145", "00");
    } else if i == 2 {
      ValidWithPointPrice(m[2], "289", "99");
    } else if i == 3 {
      ValidWithPointPrice(m[3], "350", "00");
    } else if i == 4 {
      ValidWithPointPrice(m[4], "99", "99");
    } else {
      ValidWithPointPrice(m[5], "85", "00");
    }
  }
}
