/** The pixels that are labelled are those of the lower class that the threshold was chosen for. */
module DarkWeight {
  import opened Raster
  import opened PixelClasses
  import opened Components

  ghost function DarkBelow(data: seq<Byte>, threshold: int, k: nat): set<int>
    requires k <= |data|
  {
    set i | 0 <= i < k && IsDark(data, threshold, i)
  }

  lemma {:induction false} WeightCountsDark(data: seq<Byte>, threshold: int, k: nat)
    requires k <= |data|
    ensures Sum(data, AtMost(data, threshold), ONE, k) == |DarkBelow(data, threshold, k)| as real
  {
    if k == 0 {
      assert DarkBelow(data, threshold, 0) == {};
    } else {
      WeightCountsDark(data, threshold, k - 1);
      var before, now := DarkBelow(data, threshold, k - 1), DarkBelow(data, threshold, k);
      assert now == if IsDark(data, threshold, k - 1) then before + {k - 1} else before;
    }
  }

  /** The sizes of the components add up to the weight of the lower class at the threshold. */
  lemma SizesAreLowerWeight(source: PreparedLayoutSource, threshold: int)
    requires source.Valid()
    ensures TotalSize(Survey(source, threshold, |source.data|)) as real == Size(source.data, AtMost(source.data, threshold))
  {
    ComponentsPartitionDarkPixels(source, threshold);
    WeightCountsDark(source.data, threshold, |source.data|);
    assert DarkPixels(source.data, threshold) == DarkBelow(source.data, threshold, |source.data|);
  }
}
