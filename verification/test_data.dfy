/** The fixed data of src/utils/testData.ts used to check the course filter,
    and the counts it is expected to produce. */
module TestData {
  import opened Results
  import opened JsNumbers
  import opened Menu
  import opened Prices
  import opened ArrayHelpers
  import opened Calculations

  /** `TEST_MENU_ITEMS`: two starters, three mains and one dessert. */
  const TestMenuItems: seq<MenuItem> := [
    MenuItem("test1", "Test Bruschetta", "Test starter 1", "Starters", "100.00"),
    MenuItem("test2", "Test Salad", "Test starter 2", "Starters", "120.00"),
    MenuItem("test3", "Test Salmon", "Test main 1", "Mains", "250.00"),
    MenuItem("test4", "Test Beef", "Test main 2", "Mains", "300.00"),
    MenuItem("test5", "Test Chicken", "Test main 3", "Mains", "200.00"),
    MenuItem("test6", "Test Cake", "Test dessert 1", "Desserts", "80.00")
  ]

  /** The shape of `EXPECTED_FILTER_RESULTS`. */
  datatype FilterCounts = FilterCounts(all: nat, starters: nat, mains: nat, desserts: nat)

  /** `EXPECTED_FILTER_RESULTS`. */
  const ExpectedFilterResults := FilterCounts(6, 2, 3, 1)

  /** Where each course's run starts and ends in the test data. */
  function CourseRun(course: string): (nat, nat) {
    if course == "Starters" then (0, 2) else if course == "Mains" then (2, 5) else (5, 6)
  }

  /** Filtering the test data by a course yields that course's run of items. */
  lemma TestItemsFilter(course: string)
    requires course in Courses
    ensures FilterByCourse(TestMenuItems, course) == TestMenuItems[CourseRun(course).0..CourseRun(course).1]
  {
    var m := TestMenuItems;
    var (lo, hi) := CourseRun(course);
    forall i | 0 <= i < |m|
      ensures m[i].course == course <==> lo <= i < hi
    {
    }
    FilterByCourseOfRun(m, course, lo, hi);
  }

  /** The expected count for one course. */
  function ExpectedCount(course: string): nat {
    if course == "Starters" then ExpectedFilterResults.starters
    else if course == "Mains" then ExpectedFilterResults.mains
    else ExpectedFilterResults.desserts
  }

  /** The course filter produces the expected counts on the test data. */
  lemma TestItemsMatchExpected(course: string)
    requires course in Courses
    ensures |TestMenuItems| == ExpectedFilterResults.all
    ensures |FilterByCourse(TestMenuItems, course)| == ExpectedCount(course)
  {
    TestItemsFilter(course);
  }

  /** The two test starters cost 100.00 and 120.00, so their average is 110. */
  lemma TestStartersAverage()
    ensures CalculateAverage(TestMenuItems, Some("Starters")) == Some(110.0)
  {
    TestStartersFilter();
    TestStartersMean();
  }

  /** The starters of the test data are its first two items. */
  lemma TestStartersFilter()
    ensures FilterByCourse(TestMenuItems, "Starters") == [TestMenuItems[0], TestMenuItems[1]]
  {
    var m := TestMenuItems;
    TestItemsFilter("Starters");
    assert m[0..2] == [m[0], m[1]];
  }

  /** The mean of the two starter prices is 110. */
  lemma TestStartersMean()
    ensures MeanPrice([TestMenuItems[0], TestMenuItems[1]], ToNumber) == Some(110.0)
  {
    FirstStarterPrice();
    SecondStarterPrice();
    MeanOfTwo(TestMenuItems[0], TestMenuItems[1], ToNumber, 100.0, 120.0);
  }

  /** `Number("100.00")` is 100. */
  lemma FirstStarterPrice()
    ensures ToNumber(TestMenuItems[0].price) == Some(100.0)
  {
    assert DigitsValue("00", 10) == 0 by {
      assert "00"[..1] == "0";
    }
    assert DigitsValue("100", 10) == 100 by {
      assert "100"[..2] == "10";
      assert "10"[..1] == "1";
    }
    assert MantissaValue("100", "00") == 100.0;
    PointPrice(TestMenuItems[0].price, "100", "00", 100.0);
  }

  /** `Number("120.00")` is 120. */
  lemma SecondStarterPrice()
    ensures ToNumber(TestMenuItems[1].price) == Some(120.0)
  {
    assert DigitsValue("00", 10) == 0 by {
      assert "00"[..1] == "0";
    }
    assert DigitsValue("120", 10) == 120 by {
      assert "120"[..2] == "12";
      assert "12"[..1] == "1";
    }
    assert MantissaValue("120", "00") == 120.0;
    PointPrice(TestMenuItems[1].price, "120", "00", 120.0);
  }

  /** `Number` reads a price `w.f` as the value `v` it denotes. */
  lemma PointPrice(s: string, w: string, f: string, v: real)
    requires |w| > 0 && |f| > 0 && AllDigitsIn(w, 10) && AllDigitsIn(f, 10) && w[0] != '0'
    requires s == w + "." + f
    requires v == MantissaValue(w, f)
    ensures ToNumber(s) == Some(v)
  {
    PositivePointNumber(w, f);
  }
}
