/** The point selection of `get_fuel_stations_along_route`: an empty decoded
    path means no query; a path of more than 50 points is thinned to every
    `len // 50`-th point (`points[::step]`) before the query is built. */
module FuelQuery {
  import opened Wrappers

  const MaxQueryPoints: nat := 50

  /** `s[::step]`: the elements at indices 0, step, 2 * step, ... */
  function Stride<T>(s: seq<T>, step: nat): seq<T>
    requires step > 0
    decreases |s|
  {
    if s == [] then []
    else if |s| <= step then [s[0]]
    else [s[0]] + Stride(s[step..], step)
  }

  /** The points that go into the query. */
  function Downsample<T>(points: seq<T>): seq<T> {
    if |points| > MaxQueryPoints then Stride(points, |points| / MaxQueryPoints) else points
  }

  /** None when the decoded path is empty: then no query is sent and no
      station is returned. */
  function QueryPoints<T>(points: seq<T>): (r: Option<seq<T>>)
    ensures r.None? <==> points == []
    ensures r.Some? ==> 1 <= |r.value| <= |points| && r.value[0] == points[0]
  {
    if points == [] then None
    else
      DownsampleKeepsFirst(points);
      Some(Downsample(points))
  }

  lemma DownsampleKeepsFirst<T>(points: seq<T>)
    requires points != []
    ensures var r := Downsample(points); 1 <= |r| <= |points| && r[0] == points[0]
  {
    if |points| > MaxQueryPoints {
      LongPathStrided(points);
    }
  }

  lemma MulSucc(i: int, step: int)
    ensures (i + 1) * step == i * step + step
  {
  }

  /** `s[::step]` keeps exactly the elements at the multiples of `step`, in
      order, and as many of them as there are multiples below |s|. */
  lemma {:induction false} StrideIndices<T>(s: seq<T>, step: nat)
    requires step > 0 && s != []
    ensures var r := Stride(s, step);
      && (|r| - 1) * step < |s| <= |r| * step
      && forall i :: 0 <= i < |r| ==> i * step < |s| && r[i] == s[i * step]
    decreases |s|
  {
    var r := Stride(s, step);
    if |s| > step {
      var rest := s[step..];
      StrideIndices(rest, step);
      var r' := Stride(rest, step);
      assert r == [s[0]] + r';
      MulSucc(|r'| - 1, step);
      MulSucc(|r'|, step);
      forall i | 0 <= i < |r| ensures i * step < |s| && r[i] == s[i * step] {
        if i > 0 {
          MulSucc(i - 1, step);
          assert r[i] == r'[i - 1] == rest[(i - 1) * step];
        }
      }
    }
  }

  /** The count is the ceiling of |s| / step. */
  lemma StrideLength<T>(s: seq<T>, step: nat)
    requires step > 0 && s != []
    ensures |Stride(s, step)| == (|s| + step - 1) / step
  {
    var q := |Stride(s, step)|;
    StrideIndices(s, step);
    var x := |s| + step - 1;
    MulSucc(q - 1, step);
    assert q * step <= x < (q + 1) * step by { MulSucc(q, step); }
    DivBetween(x, step, q);
  }

  lemma DivBetween(x: int, step: int, q: int)
    requires step > 0 && q * step <= x < (q + 1) * step
    ensures x / step == q
  {
    var d := x / step;
    assert x == d * step + x % step;
    MulSucc(d, step);
    MulLess(q, d + 1, step);
    MulLess(d, q + 1, step);
  }

  lemma MulLess(a: int, b: int, step: int)
    requires step > 0 && a * step < b * step
    ensures a < b
  {
    assert (b - a) * step == b * step - a * step;
  }

  /** A path of at most 50 points is queried as it is. */
  lemma ShortPathUnchanged<T>(points: seq<T>)
    requires |points| <= MaxQueryPoints
    ensures Downsample(points) == points
  {
  }

  /** A longer path keeps the points at multiples of `len // 50`, in their
      order, the first point among them; the ceiling count lies between 50
      and 99, so it can exceed the cap. */
  lemma LongPathStrided<T>(points: seq<T>)
    requires |points| > MaxQueryPoints
    ensures var step := |points| / MaxQueryPoints; var r := Downsample(points);
      && step >= 1
      && |r| == (|points| + step - 1) / step
      && (forall i :: 0 <= i < |r| ==> i * step < |points| && r[i] == points[i * step])
      && r[0] == points[0]
      && MaxQueryPoints <= |r| <= 99
  {
    var n := |points|;
    var step := n / MaxQueryPoints;
    var r := Stride(points, step);
    StrideIndices(points, step);
    StrideLength(points, step);
    assert 50 * step <= n < 50 * step + 50;
    StrideCountBound(n, step, |r|);
  }

  /** A ceiling count of a stride of n // 50 lies between 50 and 99. */
  lemma StrideCountBound(n: int, step: int, q: int)
    requires step >= 1 && 50 * step <= n < 50 * step + 50
    requires (q - 1) * step < n <= q * step
    ensures 50 <= q <= 99
  {
    MulLess(49, q, step);
    if step == 1 {
      assert q - 1 < n < 100;
    } else {
      assert n < 75 * step;
      MulLess(q - 1, 75, step);
    }
  }

  /** 120 points: every second point, 60 in all, and the last point is dropped. */
  lemma Example120<T>(points: seq<T>)
    requires |points| == 120
    ensures var r := Downsample(points);
      |r| == 60 && r[0] == points[0] && r[59] == points[118]
  {
    LongPathStrided(points);
  }

  /** 99 points: the stride is 1, so all 99 are kept. */
  lemma Example99<T>(points: seq<T>)
    requires |points| == 99
    ensures Downsample(points) == points
  {
    var r := Downsample(points);
    LongPathStrided(points);
    assert |r| == 99;
  }
}
