/** The derived queries of src/utils/calculations.ts: the `Number`-based
    average price, optionally restricted to one course, and the course filter. */
module Calculations {
  import opened Results
  import opened Seqs
  import opened JsNumbers
  import opened Menu
  import opened Prices
  import opened ArrayHelpers

  /** `filterByCourse`: exactly the items whose course is `course`, each as
      often as it occurs, in their original order. */
  function FilterByCourse(items: seq<MenuItem>, course: string): (r: seq<MenuItem>)
    ensures forall x :: x in r ==> x in items && x.course == course
    ensures forall i :: 0 <= i < |items| && items[i].course == course ==>
              multiset(r)[items[i]] == multiset(items)[items[i]]
    ensures IsSubsequence(r, items)
  {
    FilterSelects(items, CourseIs(course));
    Filter(items, CourseIs(course))
  }

  /** `courseFilter ? items.filter(...) : items`: an absent or empty course
      filter is falsy and selects every item. */
  function SelectByCourse(items: seq<MenuItem>, courseFilter: Option<string>): (r: seq<MenuItem>)
    ensures courseFilter.None? || courseFilter.value == "" ==> r == items
    ensures courseFilter.Some? && courseFilter.value != "" ==>
              (forall x :: x in r ==> x in items && x.course == courseFilter.value) &&
              (forall i :: 0 <= i < |items| && items[i].course == courseFilter.value ==>
                 multiset(r)[items[i]] == multiset(items)[items[i]]) &&
              IsSubsequence(r, items)
  {
    if courseFilter.None? || courseFilter.value == "" then items
    else FilterByCourse(items, courseFilter.value)
  }

  /** `calculateAverage`: 0 for an empty selection; otherwise the selection's
      `Number`-parsed prices summed and divided by its length, NaN as soon
      as one price is not a number. */
  function CalculateAverage(items: seq<MenuItem>, courseFilter: Option<string>): (r: Option<real>)
    ensures |SelectByCourse(items, courseFilter)| == 0 ==> r == Some(0.0)
    ensures var sel := SelectByCourse(items, courseFilter);
            |sel| > 0 ==> (r.None? <==> exists i :: 0 <= i < |sel| && ToNumber(sel[i].price).None?)
    ensures r == MeanPrice(SelectByCourse(items, courseFilter), ToNumber)
  {
    var sel := SelectByCourse(items, courseFilter);
    if |sel| == 0 then Some(0.0) else MeanPrice(sel, ToNumber)
  }

  /** Averaging over one course is averaging over that course's items. */
  lemma AverageOfCourseIsAverageOfFilter(items: seq<MenuItem>, course: string)
    requires course != ""
    ensures CalculateAverage(items, Some(course)) == CalculateAverage(FilterByCourse(items, course), None)
  {
  }

  /** Valid items have positive prices, so a non-empty valid selection has a
      positive average that is a number. */
  lemma AverageOfValidItems(items: seq<MenuItem>, courseFilter: Option<string>)
    requires forall i :: 0 <= i < |items| ==> ValidateMenuItem(items[i])
    requires |SelectByCourse(items, courseFilter)| > 0
    ensures CalculateAverage(items, courseFilter).Some? && CalculateAverage(items, courseFilter).value > 0.0
  {
    var sel := SelectByCourse(items, courseFilter);
    forall i | 0 <= i < |sel|
      ensures ToNumber(sel[i].price).Some? && ToNumber(sel[i].price).value > 0.0
    {
      assert sel[i] in items;
    }
    MeanOfPositive(sel, ToNumber);
  }

  /** The statistics snapshot's average is the unfiltered `calculateAverage`. */
  lemma StatsAverageIsOverallAverage(items: seq<MenuItem>)
    ensures GetArrayStats(items).averagePrice == CalculateAverage(items, None)
  {
  }

  /** The per-course counts of the statistics snapshot are the lengths of
      the course filters. */
  lemma StatsCountsAreFilterLengths(items: seq<MenuItem>)
    ensures GetArrayStats(items).starters == |FilterByCourse(items, "Starters")|
    ensures GetArrayStats(items).mains == |FilterByCourse(items, "Mains")|
    ensures GetArrayStats(items).desserts == |FilterByCourse(items, "Desserts")|
  {
  }

  /** Filtering by the same course twice is filtering once. */
  lemma FilterByCourseIdempotent(items: seq<MenuItem>, course: string)
    ensures FilterByCourse(FilterByCourse(items, course), course) == FilterByCourse(items, course)
  {
    FilterIdempotent(items, CourseIs(course));
  }

  /** When the items of `course` are exactly those at positions `lo` to
      `hi`, filtering by `course` yields that run. */
  lemma FilterByCourseOfRun(items: seq<MenuItem>, course: string, lo: nat, hi: nat)
    requires lo <= hi <= |items|
    requires forall i :: 0 <= i < |items| ==> (items[i].course == course <==> lo <= i < hi)
    ensures FilterByCourse(items, course) == items[lo..hi]
    ensures |FilterByCourse(items, course)| == hi - lo
  {
    FilterOfRun(items, CourseIs(course), lo, hi);
  }
}
