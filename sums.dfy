/** Sums and means over the values of a rating map (rater or title -> rating).
    The source iterates `HashMap`s in an unspecified order, so the sum is defined by
    picking keys arbitrarily and `SumOverRemove` shows the choice does not matter. */
module Sums {
  import opened Wrappers

  /** The sum of `values[k]` over the keys `k` in `keys`, taken in an arbitrary order. */
  ghost function SumOver(values: map<string, real>, keys: set<string>): real
    requires keys <= values.Keys
    decreases keys
  {
    if keys == {} then 0.0
    else
      var k :| k in keys;
      values[k] + SumOver(values, keys - {k})
  }

  /** Any key may be taken first: the sum does not depend on iteration order. */
  lemma {:induction false} SumOverRemove(values: map<string, real>, keys: set<string>, k: string)
    requires keys <= values.Keys
    requires k in keys
    ensures SumOver(values, keys) == values[k] + SumOver(values, keys - {k})
    decreases keys
  {
    var j :| j in keys && SumOver(values, keys) == values[j] + SumOver(values, keys - {j});
    if j != k {
      SumOverRemove(values, keys - {j}, k);
      SumOverRemove(values, keys - {k}, j);
      assert keys - {j} - {k} == keys - {k} - {j};
    }
  }

  /** `x` added up `n` times. */
  function Repeat(x: real, n: nat): real
  {
    if n == 0 then 0.0 else x + Repeat(x, n - 1)
  }

  lemma {:induction false} RepeatIsProduct(x: real, n: nat)
    ensures Repeat(x, n) == x * n as real
  {
    if n > 0 {
      RepeatIsProduct(x, n - 1);
      assert x * n as real == x * (n - 1) as real + x;
    }
  }

  /** A sum of values that are all at least `lo` is at least `lo` added up once per key. */
  lemma {:induction false} SumOverAtLeast(values: map<string, real>, keys: set<string>, lo: real)
    requires keys <= values.Keys
    requires forall k :: k in keys ==> lo <= values[k]
    ensures Repeat(lo, |keys|) <= SumOver(values, keys)
    decreases keys
  {
    if keys != {} {
      var k :| k in keys;
      SumOverRemove(values, keys, k);
      SumOverAtLeast(values, keys - {k}, lo);
    }
  }

  /** A sum of values that are all at most `hi` is at most `hi` added up once per key. */
  lemma {:induction false} SumOverAtMost(values: map<string, real>, keys: set<string>, hi: real)
    requires keys <= values.Keys
    requires forall k :: k in keys ==> values[k] <= hi
    ensures SumOver(values, keys) <= Repeat(hi, |keys|)
    decreases keys
  {
    if keys != {} {
      var k :| k in keys;
      SumOverRemove(values, keys, k);
      SumOverAtMost(values, keys - {k}, hi);
    }
  }

  /** The arithmetic mean of the values of a map; `None` for an empty map, where the
      source divides 0.0 by 0 and obtains NaN. */
  ghost function Mean(values: map<string, real>): Option<real>
  {
    if |values| == 0 then None else Some(SumOver(values, values.Keys) / |values| as real)
  }

  /** The mean is defined exactly for non-empty maps and lies within the values' bounds. */
  lemma MeanWithin(values: map<string, real>, lo: real, hi: real)
    requires forall k :: k in values ==> lo <= values[k] <= hi
    ensures Mean(values).Some? <==> |values| > 0
    ensures Mean(values).Some? ==> lo <= Mean(values).value <= hi
  {
    var n := |values|;
    if n > 0 {
      assert |values.Keys| == n;
      var s := SumOver(values, values.Keys);
      SumOverAtLeast(values, values.Keys, lo);
      SumOverAtMost(values, values.Keys, hi);
      RepeatIsProduct(lo, n);
      RepeatIsProduct(hi, n);
      DivideAtLeast(lo, s, n);
      DivideAtMost(hi, s, n);
    }
  }

  /** A mean of non-negative values is non-negative. */
  lemma MeanNonNegative(values: map<string, real>)
    requires forall k :: k in values ==> 0.0 <= values[k]
    ensures Mean(values).Some? ==> 0.0 <= Mean(values).value
  {
    var n := |values|;
    if n > 0 {
      assert |values.Keys| == n;
      SumOverAtLeast(values, values.Keys, 0.0);
      RepeatIsProduct(0.0, n);
      DivideAtLeast(0.0, SumOver(values, values.Keys), n);
    }
  }

  /** Dividing a total of at least `lo` per term by the number of terms gives at least `lo`. */
  lemma DivideAtLeast(lo: real, total: real, n: nat)
    requires n > 0 && lo * n as real <= total
    ensures lo <= total / n as real
  {
    var d := n as real;
    var q := total / d;
    assert q * d == total;
    assert (q - lo) * d >= 0.0;
  }

  /** Dividing a total of at most `hi` per term by the number of terms gives at most `hi`. */
  lemma DivideAtMost(hi: real, total: real, n: nat)
    requires n > 0 && total <= hi * n as real
    ensures total / n as real <= hi
  {
    var d := n as real;
    var q := total / d;
    assert q * d == total;
    assert (hi - q) * d >= 0.0;
  }

  /** The mean of a single rating is that rating. */
  lemma MeanOfOne(k: string, v: real)
    ensures Mean(map[k := v]) == Some(v)
  {
    var values := map[k := v];
    assert values.Keys == {k};
    SumOverRemove(values, values.Keys, k);
    assert values.Keys - {k} == {};
    assert |values| == |values.Keys| == 1;
    assert SumOver(values, values.Keys) / 1.0 == v;
  }

  /** The sum over three distinct keys is the sum of their three values. */
  lemma SumOfThree(values: map<string, real>, a: string, b: string, c: string)
    requires values.Keys == {a, b, c}
    requires a != b && a != c && b != c
    ensures SumOver(values, values.Keys) == values[a] + values[b] + values[c]
  {
    assert SumOver(values, {a, b, c}) == values[a] + SumOver(values, {b, c}) by {
      SumOverRemove(values, {a, b, c}, a);
      assert {a, b, c} - {a} == {b, c};
    }
    assert SumOver(values, {b, c}) == values[b] + SumOver(values, {c}) by {
      SumOverRemove(values, {b, c}, b);
      assert {b, c} - {b} == {c};
    }
    assert SumOver(values, {c}) == values[c] by {
      SumOverRemove(values, {c}, c);
      assert {c} - {c} == {};
    }
  }

  /** The mean of three raters' ratings is their sum divided by three. */
  lemma MeanOfThree(a: string, b: string, c: string, x: real, y: real, z: real)
    requires a != b && a != c && b != c
    ensures Mean(map[a := x, b := y, c := z]) == Some((x + y + z) / 3.0)
  {
    var values := map[a := x, b := y, c := z];
    assert values.Keys == {a, b, c};
    assert |values| == |{a, b, c}| == 3;
    assert values[a] == x && values[b] == y && values[c] == z;
    SumOfThree(values, a, b, c);
  }

  /** Three raters giving 3.0, 4.0 and 5.0 average 4.0. */
  lemma MeanOfThreeRatings()
    ensures Mean(map["ann" := 3.0, "bob" := 4.0, "cyd" := 5.0]) == Some(4.0)
  {
    assert "ann"[0] != "bob"[0] && "ann"[0] != "cyd"[0] && "bob"[0] != "cyd"[0];
    MeanOfThree("ann", "bob", "cyd", 3.0, 4.0, 5.0);
  }
}
