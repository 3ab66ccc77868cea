// The category ranges induced by a list of thumb positions on the 0-100 axis.
//
// `Partition(thumbs)` is the reference meaning of the slider's postprocessing
// step once the thumbs are in order: put the axis ends 0 and 100 around the
// thumbs and pair every position with the next one.
module RangePartition {
  import opened ThumbOrder

  /** One category: the pair `(range_start, range_end)`. */
  datatype Range = Range(start: real, end: real)

  const AxisStart: real := 0.0
  const AxisEnd: real := 100.0

  /** Every thumb lies on the axis. */
  predicate OnAxis(thumbs: seq<real>)
  {
    forall i :: 0 <= i < |thumbs| ==> AxisStart <= thumbs[i] <= AxisEnd
  }

  /** The thumbs with the two axis ends put around them. */
  function Framed(thumbs: seq<real>): (r: seq<real>)
  {
    [AxisStart] + thumbs + [AxisEnd]
  }

  /** One range per pair of neighbouring positions, in order. */
  function Adjacent(p: seq<real>): (r: seq<Range>)
  {
    if |p| < 2 then [] else [Range(p[0], p[1])] + Adjacent(p[1..])
  }

  /** The ranges the (already ordered) thumbs split the axis into. */
  function Partition(thumbs: seq<real>): (r: seq<Range>)
  {
    Adjacent(Framed(thumbs))
  }

  /** `Adjacent(p)` has one range fewer than `p` has positions, the k-th from p[k] to p[k+1]. */
  lemma {:induction false} AdjacentAt(p: seq<real>)
    requires |p| >= 1
    ensures |Adjacent(p)| == |p| - 1
    ensures forall k :: 0 <= k < |p| - 1 ==> Adjacent(p)[k] == Range(p[k], p[k + 1])
  {
    if |p| >= 2 {
      AdjacentAt(p[1..]);
    }
  }

  lemma FramedAt(thumbs: seq<real>)
    ensures |Framed(thumbs)| == |thumbs| + 2
    ensures Framed(thumbs)[0] == AxisStart && Framed(thumbs)[|thumbs| + 1] == AxisEnd
    ensures forall i :: 0 <= i < |thumbs| ==> Framed(thumbs)[i + 1] == thumbs[i]
  {
  }

  /** Range i of the partition runs from the i-th to the (i+1)-th framed position. */
  lemma PartitionAt(thumbs: seq<real>)
    ensures |Partition(thumbs)| == |thumbs| + 1
    ensures forall i :: 0 <= i <= |thumbs| ==>
      Partition(thumbs)[i] == Range(Framed(thumbs)[i], Framed(thumbs)[i + 1])
  {
    AdjacentAt(Framed(thumbs));
    FramedAt(thumbs);
  }

  /** k thumbs make k + 1 categories. */
  lemma PartitionCount(thumbs: seq<real>)
    ensures |Partition(thumbs)| == |thumbs| + 1
  {
    PartitionAt(thumbs);
  }

  /** With no thumbs there is one category covering the whole axis. */
  lemma PartitionOfNoThumbs()
    ensures Partition([]) == [Range(AxisStart, AxisEnd)]
  {
    PartitionAt([]);
  }

  /** The first category starts at 0 and the last ends at 100, whatever the thumbs are. */
  lemma PartitionCoversAxis(thumbs: seq<real>)
    ensures |Partition(thumbs)| == |thumbs| + 1
    ensures Partition(thumbs)[0].start == AxisStart
    ensures Partition(thumbs)[|thumbs|].end == AxisEnd
  {
    PartitionAt(thumbs);
    FramedAt(thumbs);
  }

  /** Each category ends where the next one starts, and the inner boundaries are the thumbs. */
  lemma PartitionContiguous(thumbs: seq<real>)
    ensures |Partition(thumbs)| == |thumbs| + 1
    ensures forall i :: 0 <= i < |thumbs| ==> Partition(thumbs)[i].end == Partition(thumbs)[i + 1].start
    ensures forall i :: 0 <= i < |thumbs| ==> Partition(thumbs)[i].end == thumbs[i]
  {
    PartitionAt(thumbs);
    FramedAt(thumbs);
    forall i | 0 <= i < |thumbs|
      ensures Partition(thumbs)[i].end == thumbs[i] == Partition(thumbs)[i + 1].start
    {
      assert Partition(thumbs)[i + 1] == Range(Framed(thumbs)[i + 1], Framed(thumbs)[i + 2]);
    }
  }

  /**
   * For ordered thumbs on the axis, every category is a proper interval of the
   * axis (start <= end) and categories are ordered by start.
   */
  lemma PartitionWellFormed(thumbs: seq<real>)
    requires Sorted(thumbs) && OnAxis(thumbs)
    ensures |Partition(thumbs)| == |thumbs| + 1
    ensures forall i :: 0 <= i <= |thumbs| ==>
      AxisStart <= Partition(thumbs)[i].start <= Partition(thumbs)[i].end <= AxisEnd
    ensures forall i, j :: 0 <= i < j <= |thumbs| ==> Partition(thumbs)[i].start <= Partition(thumbs)[j].start
  {
    PartitionAt(thumbs);
    FramedAt(thumbs);
    var f, p := Framed(thumbs), Partition(thumbs);
    assert OnAxis(f);
    assert Sorted(f) by {
      forall i, j | 0 <= i < j < |f| ensures f[i] <= f[j] {
        if 0 < i && j <= |thumbs| {
          assert f[i] == thumbs[i - 1] && f[j] == thumbs[j - 1];
        }
      }
    }
    forall i | 0 <= i <= |thumbs|
      ensures AxisStart <= p[i].start <= p[i].end <= AxisEnd
    {
      assert p[i] == Range(f[i], f[i + 1]);
    }
    forall i, j | 0 <= i < j <= |thumbs|
      ensures p[i].start <= p[j].start
    {
      assert p[i] == Range(f[i], f[i + 1]) && p[j] == Range(f[j], f[j + 1]);
    }
  }

  /**
   * Nothing keeps a thumb on the axis: a thumb past 100 yields a last category
   * that ends before it starts.
   */
  lemma PartitionDoesNotClamp()
    ensures Partition([150.0]) == [Range(0.0, 150.0), Range(150.0, 100.0)]
    ensures Partition([150.0])[1].start > Partition([150.0])[1].end
  {
    PartitionAt([150.0]);
  }
}
