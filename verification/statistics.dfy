/** ComputeStats, as the detector runs it. */
module Statistics {
  import opened Stats

  /** The Stats record; the population standard deviation is left out. */
  datatype Summary = Summary(median: real, mean: real, mad: real, min: real, max: real, count: nat)

  lemma {:induction false} SumInsert(s: seq<real>, x: real)
    requires Sorted(s)
    ensures Sum(Insert(s, x)) == Sum(s) + x
  {
    if s == [] || s[|s| - 1] <= x {
      assert (s + [x])[..|s|] == s;
    } else {
      var front := s[..|s| - 1];
      SumInsert(front, x);
      var r := Insert(front, x) + [s[|s| - 1]];
      assert r[..|r| - 1] == Insert(front, x);
    }
  }

  lemma {:induction false} SumSort(s: seq<real>)
    ensures Sum(Sort(s)) == Sum(s)
  {
    if s != [] {
      SumSort(s[..|s| - 1]);
      SumInsert(Sort(s[..|s| - 1]), s[|s| - 1]);
    }
  }

  /** Zero for empty input; otherwise the order statistics and the mean of the values. */
  method ComputeStats(values: seq<real>) returns (st: Summary)
    ensures st.median == Median(values) && st.mean == Mean(values) && st.mad == Mad(values)
    ensures st.count == |values|
    ensures values != [] ==> st.min in values && st.max in values
    ensures forall x :: x in values ==> st.min <= x <= st.max
  {
    hide Sort, Sum, Deviations, MedianOfSorted, Insert, Sorted;
    var n := |values|;
    if n == 0 {
      return Summary(0.0, 0.0, 0.0, 0.0, 0.0, 0);
    }
    var sorted := Sort(values);
    Extremes(values);
    var median := MedianOfSorted(sorted);
    var sum := Total(sorted);
    SumSort(values);
    var dev := Distances(sorted, median);
    st := Summary(median, sum / n as real, MedianOfSorted(Sort(dev)), sorted[0], sorted[n - 1], n);
  }

  method Total(s: seq<real>) returns (sum: real)
    ensures sum == Sum(s)
  {
    sum := 0.0;
    for i := 0 to |s|
      invariant sum == Sum(s[..i])
    {
      assert s[..i + 1][..i] == s[..i];
      sum := sum + s[i];
    }
    assert s[..|s|] == s;
  }

  method Distances(s: seq<real>, c: real) returns (dev: seq<real>)
    ensures dev == Deviations(s, c)
  {
    dev := [];
    for i := 0 to |s|
      invariant dev == Deviations(s[..i], c)
    {
      assert s[..i + 1][..i] == s[..i];
      dev := dev + [Abs(s[i] - c)];
    }
    assert s[..|s|] == s;
  }

  lemma {:induction false} Extremes(s: seq<real>)
    requires s != []
    ensures Sort(s)[0] in s && Sort(s)[|s| - 1] in s
    ensures forall x :: x in s ==> Sort(s)[0] <= x <= Sort(s)[|s| - 1]
  {
    var t := Sort(s);
    SortKeeps(s, t[0]);
    SortKeeps(s, t[|s| - 1]);
    forall x | x in s ensures t[0] <= x <= t[|s| - 1] {
      SortKeeps(s, x);
      var i :| 0 <= i < |t| && t[i] == x;
    }
  }
}
