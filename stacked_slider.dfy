// The StackedSlider component: a slider over the axis 0-100 whose thumbs split
// it into contiguous labelled categories.
//
// The caller's list of thumb positions is an `array<real>`, so that the sort
// the component performs on it, and the component keeping a reference to it,
// are visible to the caller as they are in the source.
module StackedSliderComponent {
  import opened ThumbOrder
  import opened RangePartition
  import opened DefaultLayout

  class StackedSlider {
    /** The category ranges computed from the initial thumbs. */
    var values: seq<Range>
    /** The thumbs the slider is reset to. */
    var clearedValue: seq<real>
    /** The caller's own list of initial thumbs (the same object, not a copy). */
    var testInput: array<real>

    /**
     * Builds the component from the caller's list of initial thumbs: the
     * ranges are computed from it (sorting it on the way), the reset value is
     * [0, 10], and the list itself is kept.
     */
    constructor (values: array<real>)
      modifies values
      ensures this.values == Partition(SortedOf(old(values[..])))
      ensures clearedValue == [0.0, 10.0]
      ensures testInput == values
      ensures testInput[..] == SortedOf(old(values[..]))
      ensures Sorted(testInput[..]) && multiset(testInput[..]) == multiset(old(values[..]))
    {
      var ranges := Postprocess(values);
      this.values := ranges;
      clearedValue := [0.0, 10.0];
      testInput := values;
    }

    /**
     * Turns thumb positions into category ranges. The caller's list is sorted
     * ascending in place; the ranges pair each of 0, the sorted thumbs and 100
     * with the next one.
     */
    static method Postprocess(thumbPositions: array<real>) returns (ranges: seq<Range>)
      modifies thumbPositions
      ensures thumbPositions[..] == SortedOf(old(thumbPositions[..]))
      ensures Sorted(thumbPositions[..])
      ensures multiset(thumbPositions[..]) == multiset(old(thumbPositions[..]))
      ensures ranges == Partition(thumbPositions[..])
      ensures |ranges| == thumbPositions.Length + 1
      ensures ranges[0].start == AxisStart && ranges[|ranges| - 1].end == AxisEnd
      ensures forall i :: 0 <= i < |ranges| - 1 ==> ranges[i].end == ranges[i + 1].start
    {
      SortInPlace(thumbPositions);
      ghost var sorted := thumbPositions[..];
      var positions := [AxisStart] + thumbPositions[..] + [AxisEnd];
      assert positions == Framed(sorted);
      ranges := PairNeighbours(positions);
      PartitionCoversAxis(sorted);
      PartitionContiguous(sorted);
    }

    /** One range per pair of neighbouring positions, built front to back. */
    static method PairNeighbours(positions: seq<real>) returns (ranges: seq<Range>)
      ensures ranges == Adjacent(positions)
    {
      ranges := [];
      var i := 0;
      while i < |positions| - 1
        invariant 0 <= i <= if |positions| == 0 then 0 else |positions| - 1
        invariant |ranges| == i
        invariant forall k :: 0 <= k < i ==> ranges[k] == Range(positions[k], positions[k + 1])
      {
        var rangeStart := positions[i];
        var rangeEnd := positions[i + 1];
        ranges := ranges + [Range(rangeStart, rangeEnd)];
        i := i + 1;
      }
      if |positions| >= 1 {
        AdjacentAt(positions);
        assert |ranges| == |Adjacent(positions)|;
        forall k | 0 <= k < |ranges|
          ensures ranges[k] == Adjacent(positions)[k]
        {
          assert ranges[k] == Range(positions[k], positions[k + 1]);
        }
      }
    }
  }

  /** The ranges depend only on which thumbs there are, not on their order. */
  lemma PostprocessOrderInsensitive(s: seq<real>, t: seq<real>)
    requires multiset(s) == multiset(t)
    ensures Partition(SortedOf(s)) == Partition(SortedOf(t))
  {
    SortedOfPermutation(s, t);
  }

  /**
   * When every thumb is on the axis, whatever their order, every range lies
   * on the axis with start <= end, and the ranges are ordered by start.
   */
  lemma PostprocessWellFormed(thumbs: seq<real>)
    requires OnAxis(thumbs)
    ensures |Partition(SortedOf(thumbs))| == |thumbs| + 1
    ensures forall i :: 0 <= i <= |thumbs| ==>
      AxisStart <= Partition(SortedOf(thumbs))[i].start <= Partition(SortedOf(thumbs))[i].end <= AxisEnd
    ensures forall i, j :: 0 <= i < j <= |thumbs| ==>
      Partition(SortedOf(thumbs))[i].start <= Partition(SortedOf(thumbs))[j].start
  {
    var sorted := SortedOf(thumbs);
    assert |sorted| == |multiset(sorted)| == |multiset(thumbs)| == |thumbs|;
    forall k | 0 <= k < |sorted|
      ensures AxisStart <= sorted[k] <= AxisEnd
    {
      assert sorted[k] in multiset(thumbs);
    }
    PartitionWellFormed(sorted);
  }

  /** Integer thumbs as positions on the axis. */
  function AsPositions(thumbs: seq<int>): (r: seq<real>)
    ensures |r| == |thumbs|
    ensures forall i :: 0 <= i < |r| ==> r[i] == thumbs[i] as real
  {
    seq(|thumbs|, i requires 0 <= i < |thumbs| => thumbs[i] as real)
  }

  /**
   * The default layout is already in order, so postprocessing leaves it as it
   * is, and it yields exactly one well-formed range per category label.
   */
  lemma DefaultLayoutPartition(categoryLabels: seq<string>)
    requires |categoryLabels| >= 1
    ensures GetRandomValues(categoryLabels).Ok?
    ensures var thumbs := AsPositions(GetRandomValues(categoryLabels).value);
      SortedOf(thumbs) == thumbs &&
      |Partition(thumbs)| == |categoryLabels| &&
      forall i :: 0 <= i < |categoryLabels| ==> Partition(thumbs)[i].start <= Partition(thumbs)[i].end
  {
    GetRandomValuesLayout(categoryLabels);
    var thumbs := AsPositions(GetRandomValues(categoryLabels).value);
    assert Sorted(thumbs);
    assert OnAxis(thumbs);
    SortedOfSorted(thumbs);
    PartitionWellFormed(thumbs);
  }

  lemma SortMiddleFirst(a: real, b: real, c: real)
    requires a <= b <= c
    ensures SortedOf([b, a, c]) == [a, b, c]
  {
    assert [b, a, c][1..] == [a, c] && [a, c][1..] == [c] && [c][1..] == [];
    assert SortedOf([c]) == [c];
    assert SortedOf([a, c]) == Insert(a, [c]) == [a, c];
    if b > a {
      assert Insert(b, [c]) == [b, c];
    }
  }

  lemma PartitionOfThree(a: real, b: real, c: real)
    ensures Partition([a, b, c]) == [Range(0.0, a), Range(a, b), Range(b, c), Range(c, 100.0)]
  {
    PartitionAt([a, b, c]);
    FramedAt([a, b, c]);
    var p := Partition([a, b, c]);
    assert p[0] == Range(0.0, a) && p[1] == Range(a, b) && p[2] == Range(b, c) && p[3] == Range(c, 100.0);
  }

  /**
   * Three thumbs given out of order, such as [30, 10, 70], give the ranges of
   * their ascending arrangement: [(0, 10), (10, 30), (30, 70), (70, 100)].
   */
  lemma PostprocessUnorderedExample(a: real, b: real, c: real)
    requires a <= b <= c
    ensures Partition(SortedOf([b, a, c])) == [Range(0.0, a), Range(a, b), Range(b, c), Range(c, 100.0)]
  {
    SortMiddleFirst(a, b, c);
    PartitionOfThree(a, b, c);
  }

  /** A single thumb, such as [50], splits the axis in two: [(0, 50), (50, 100)]. */
  lemma PostprocessSingleThumbExample(x: real)
    ensures Partition(SortedOf([x])) == [Range(0.0, x), Range(x, 100.0)]
  {
    assert [x][1..] == [];
    assert SortedOf([x]) == [x];
    PartitionAt([x]);
    FramedAt([x]);
    var p := Partition([x]);
    assert p[0] == Range(0.0, x) && p[1] == Range(x, 100.0);
  }
}
