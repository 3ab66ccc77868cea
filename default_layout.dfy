// The default thumb layout: `n_categories - 1` evenly spaced integer thumbs.
//
// The source computes `int((i + 1) * (100 / n_categories))` in floating point;
// here it is the exact integer quotient `((i + 1) * 100) / n_categories`, which
// is what `int(...)` (truncation toward zero) gives on these positive values
// when no rounding error intervenes.
module DefaultLayout {

  /** The exception raised when there are no category labels to divide by. */
  datatype Error = ZeroDivisionError

  datatype Result<T> = Ok(value: T) | Err(error: Error)

  /** Thumb i of `n` evenly spaced categories: the axis length times (i+1)/n, truncated. */
  function EvenThumb(n: nat, i: nat): (r: int)
    requires n >= 1
  {
    ((i + 1) * 100) / n
  }

  /**
   * The default thumbs for the given category labels. Despite its name nothing
   * here is random; with no labels the division by the label count fails.
   */
  function GetRandomValues(categoryLabels: seq<string>): (r: Result<seq<int>>)
    ensures r.Err? <==> |categoryLabels| == 0
    ensures r.Ok? ==> |r.value| == |categoryLabels| - 1
  {
    var n := |categoryLabels|;
    if n == 0 then
      Err(ZeroDivisionError)
    else
      Ok(seq(n - 1, i requires 0 <= i < n - 1 => EvenThumb(n, i)))
  }

  lemma MulCancel(n: int, x: int, y: int)
    requires n >= 1 && n * x < n * y
    ensures x < y
  {
    assert n * y - n * x == n * (y - x);
  }

  lemma DivMonotone(a: int, b: int, n: int)
    requires 0 <= a <= b && n >= 1
    ensures a / n <= b / n
  {
    var q, p := a / n, b / n;
    assert n * q <= a;
    assert b < n * p + n;
    assert n * q < n * (p + 1);
    MulCancel(n, q, p + 1);
  }

  lemma DivBelow(a: int, n: int, c: int)
    requires 0 <= a < n * c && n >= 1
    ensures a / n < c
  {
    var q := a / n;
    assert n * q <= a;
    MulCancel(n, q, c);
  }

  lemma DivStep(a: int, n: int)
    requires a >= 0 && n >= 1
    ensures (a + n) / n == a / n + 1
  {
    var q, p := a / n, (a + n) / n;
    assert n * q <= a < n * q + n;
    assert n * p <= a + n < n * p + n;
    assert n * (q + 1) == n * q + n && n * (p + 1) == n * p + n;
    MulCancel(n, p, q + 2);
    MulCancel(n, q, p);
  }

  /** Every default thumb lies in [0, 100). */
  lemma EvenThumbBounds(n: nat, i: nat)
    requires n >= 1 && i < n - 1
    ensures 0 <= EvenThumb(n, i) < 100
  {
    DivBelow((i + 1) * 100, n, 100);
  }

  /** The default thumbs never decrease. */
  lemma EvenThumbMonotone(n: nat, i: nat, j: nat)
    requires n >= 1 && i <= j
    ensures EvenThumb(n, i) <= EvenThumb(n, j)
  {
    DivMonotone((i + 1) * 100, (j + 1) * 100, n);
  }

  /** With at most 100 categories consecutive thumbs are at least one apart. */
  lemma EvenThumbStrict(n: nat, i: nat, j: nat)
    requires 1 <= n <= 100 && i < j
    ensures EvenThumb(n, i) < EvenThumb(n, j)
  {
    var a := (i + 1) * 100;
    DivStep(a, n);
    DivMonotone(a + n, (j + 1) * 100, n);
  }

  /**
   * The default layout has one thumb fewer than there are labels; thumb i is
   * `((i + 1) * 100) / n`, it lies in [0, 100), and the thumbs are in
   * ascending order, strictly so when there are at most 101 labels.
   */
  lemma GetRandomValuesLayout(categoryLabels: seq<string>)
    requires |categoryLabels| >= 1
    ensures GetRandomValues(categoryLabels).Ok?
    ensures var t, n := GetRandomValues(categoryLabels).value, |categoryLabels|;
      |t| == n - 1 &&
      (forall i :: 0 <= i < |t| ==> t[i] == ((i + 1) * 100) / n && 0 <= t[i] < 100) &&
      (forall i, j :: 0 <= i < j < |t| ==> t[i] <= t[j]) &&
      (n <= 101 ==> forall i, j :: 0 <= i < j < |t| ==> t[i] < t[j])
  {
    var t, n := GetRandomValues(categoryLabels).value, |categoryLabels|;
    forall i | 0 <= i < |t|
      ensures 0 <= t[i] < 100
    {
      EvenThumbBounds(n, i);
    }
    if n == 101 {
      GetRandomValuesHundredOne(categoryLabels);
    }
    forall i, j | 0 <= i < j < |t|
      ensures t[i] <= t[j] && (n <= 101 ==> t[i] < t[j])
    {
      EvenThumbMonotone(n, i, j);
      if n <= 100 {
        EvenThumbStrict(n, i, j);
      }
    }
  }

  /** One label: a single category and no thumbs. */
  lemma GetRandomValuesOneCategory()
    ensures GetRandomValues(["a"]) == Ok([])
  {
  }

  /** Three labels give [33, 66]: thumbs are truncated, not rounded. */
  lemma GetRandomValuesTruncates()
    ensures GetRandomValues(["a", "b", "c"]) == Ok([33, 66])
  {
    var t := GetRandomValues(["a", "b", "c"]).value;
    assert t[0] == 100 / 3 == 33;
    assert t[1] == 200 / 3 == 66;
    assert t == [33, 66];
  }

  /** Four labels give [25, 50, 75]. */
  lemma GetRandomValuesFourCategories()
    ensures GetRandomValues(["a", "b", "c", "d"]) == Ok([25, 50, 75])
  {
    var t := GetRandomValues(["a", "b", "c", "d"]).value;
    assert t[0] == 25 && t[1] == 50 && t[2] == 75;
    assert t == [25, 50, 75];
  }

  /** From 201 labels on, the first two thumbs are both 0. */
  lemma GetRandomValuesDuplicates(categoryLabels: seq<string>)
    requires |categoryLabels| >= 201
    ensures GetRandomValues(categoryLabels).Ok?
    ensures GetRandomValues(categoryLabels).value[0] == 0 == GetRandomValues(categoryLabels).value[1]
  {
    DivBelow(100, |categoryLabels|, 1);
    DivBelow(200, |categoryLabels|, 1);
  }

  /** With 101 labels the thumbs are 0, 1, ..., 99: still strictly increasing. */
  lemma GetRandomValuesHundredOne(categoryLabels: seq<string>)
    requires |categoryLabels| == 101
    ensures GetRandomValues(categoryLabels).Ok?
    ensures GetRandomValues(categoryLabels).value == seq(100, i => i)
  {
    var t := GetRandomValues(categoryLabels).value;
    forall i | 0 <= i < 100
      ensures t[i] == i
    {
      var a := (i + 1) * 100;
      assert a == 101 * i + (100 - i) && 0 <= 100 - i < 101;
      assert 101 * i <= a < 101 * (i + 1);
      DivBelow(a, 101, i + 1);
      MulCancel(101, i - 1, a / 101);
    }
  }

  /** With 102 labels thumbs 50 and 51 are both 50: from 102 labels on, thumbs can repeat. */
  lemma GetRandomValuesHundredTwo(categoryLabels: seq<string>)
    requires |categoryLabels| == 102
    ensures GetRandomValues(categoryLabels).Ok?
    ensures GetRandomValues(categoryLabels).value[50] == 50 == GetRandomValues(categoryLabels).value[51]
  {
    var t := GetRandomValues(categoryLabels).value;
    assert t[50] == 5100 / 102 == 50;
    assert t[51] == 5200 / 102 == 50;
  }
}
