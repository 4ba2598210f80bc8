/** The price reduction shared by the statistics and average functions:
    `items.reduce((sum, item) => sum + parse(item.price), 0)` and the mean
    built on it. `parse` is `Number` or `parseFloat`; a NaN (`None`) price
    makes the whole sum NaN, as IEEE addition does. */
module Prices {
  import opened Results
  import opened Menu

  /** Left fold of the parsed prices, starting from 0. */
  function SumPrices(items: seq<MenuItem>, parse: string -> Option<real>): (r: Option<real>)
    ensures r.None? <==> exists i :: 0 <= i < |items| && parse(items[i].price).None?
  {
    if |items| == 0 then Some(0.0)
    else
      var acc := SumPrices(items[..|items| - 1], parse);
      var p := parse(items[|items| - 1].price);
      if acc.None? || p.None? then None else Some(acc.value + p.value)
  }

  /** The mean price; exactly 0 for no items, so there is no division by zero. */
  function MeanPrice(items: seq<MenuItem>, parse: string -> Option<real>): (r: Option<real>)
    ensures |items| == 0 ==> r == Some(0.0)
    ensures |items| > 0 ==> (r.None? <==> exists i :: 0 <= i < |items| && parse(items[i].price).None?)
    ensures |items| > 0 && r.Some? ==> r.value * |items| as real == SumPrices(items, parse).value
  {
    if |items| == 0 then Some(0.0)
    else
      var total := SumPrices(items, parse);
      if total.None? then None else Some(total.value / |items| as real)
  }

  /** Prices that all parse to positive numbers sum to a positive number. */
  lemma {:induction false} SumOfPositive(items: seq<MenuItem>, parse: string -> Option<real>)
    requires |items| > 0
    requires forall i :: 0 <= i < |items| ==> parse(items[i].price).Some? && parse(items[i].price).value > 0.0
    ensures SumPrices(items, parse).Some? && SumPrices(items, parse).value > 0.0
  {
    var init := items[..|items| - 1];
    if |init| > 0 {
      assert forall i :: 0 <= i < |init| ==> init[i] == items[i];
      SumOfPositive(init, parse);
    } else {
      assert SumPrices(init, parse) == Some(0.0);
    }
  }

  /** The mean of positive prices is positive. */
  lemma MeanOfPositive(items: seq<MenuItem>, parse: string -> Option<real>)
    requires |items| > 0
    requires forall i :: 0 <= i < |items| ==> parse(items[i].price).Some? && parse(items[i].price).value > 0.0
    ensures MeanPrice(items, parse).Some? && MeanPrice(items, parse).value > 0.0
  {
    SumOfPositive(items, parse);
  }

  /** Two parsers that agree on every price give the same sum. */
  lemma {:induction false} SumPointwise(items: seq<MenuItem>, p: string -> Option<real>, q: string -> Option<real>)
    requires forall i :: 0 <= i < |items| ==> p(items[i].price) == q(items[i].price)
    ensures SumPrices(items, p) == SumPrices(items, q)
  {
    if |items| > 0 {
      var init := items[..|items| - 1];
      assert forall i :: 0 <= i < |init| ==> init[i] == items[i];
      SumPointwise(init, p, q);
    }
  }

  /** Two parsers that agree on every price give the same mean. */
  lemma MeanPointwise(items: seq<MenuItem>, p: string -> Option<real>, q: string -> Option<real>)
    requires forall i :: 0 <= i < |items| ==> p(items[i].price) == q(items[i].price)
    ensures MeanPrice(items, p) == MeanPrice(items, q)
  {
    SumPointwise(items, p, q);
  }

  /** The mean price of a single item is its own parsed price. */
  lemma MeanOfOne(item: MenuItem, parse: string -> Option<real>)
    ensures MeanPrice([item], parse) == parse(item.price)
  {
    assert [item][..0] == [];
    assert SumPrices([], parse) == Some(0.0);
    var p := parse(item.price);
    if p.Some? {
      assert SumPrices([item], parse) == Some(0.0 + p.value);
    }
  }

  /** The mean price of two items is the midpoint of their parsed prices. */
  lemma MeanOfTwo(a: MenuItem, b: MenuItem, parse: string -> Option<real>, x: real, y: real)
    requires parse(a.price) == Some(x) && parse(b.price) == Some(y)
    ensures MeanPrice([a, b], parse) == Some((x + y) / 2.0)
  {
    var items := [a, b];
    assert items[..1] == [a];
    assert [a][..0] == [];
    assert SumPrices([], parse) == Some(0.0);
    assert SumPrices([a], parse) == Some(0.0 + x);
    assert SumPrices(items, parse) == Some(0.0 + x + y);
  }
}
