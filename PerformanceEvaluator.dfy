/** `check_performance(up_id, subs)`: from the videos of a channel's uploads
    playlist, keep the first ten long-form ones, average their view counts
    and compare that average, and its ratio to the subscriber count, with the
    two thresholds. The two fetches (playlist items, then video statistics)
    are one input: the returned videos, or `None` when either call or any
    lookup on the answer raises. */
module PerformanceEvaluator {
  import opened Wrappers

  /** The `viewCount` statistic of one video: missing (read as 0), an
      integer, or something `int()` rejects (or no `statistics` block). */
  datatype ViewCount = Absent | Count(n: int) | Malformed

  /** One video as returned by the statistics call: its ISO 8601 duration
      string and its view count. */
  datatype Video = Video(duration: string, views: ViewCount)

  /** `(is_valid, avg_v, eff)`; the two numbers exact instead of floats. */
  datatype Performance = Performance(qualifies: bool, averageViews: real, efficiency: real)

  /** `(False, 0, 0)`. */
  const NotQualifying := Performance(false, 0.0, 0.0)

  /** The slice `[:10]` on the long-form videos. */
  const MaxLongForms: nat := 10

  /** A duration that mentions minutes or hours (`'M' in d or 'H' in d`). */
  predicate IsLongForm(v: Video) {
    'M' in v.duration || 'H' in v.duration
  }

  /** The list comprehension's filter: the long-form videos, in order. */
  function LongFormFilter(vs: seq<Video>): (r: seq<Video>)
    ensures |r| <= |vs|
    ensures forall v :: v in r ==> IsLongForm(v)
  {
    if vs == [] then []
    else (if IsLongForm(vs[0]) then [vs[0]] else []) + LongFormFilter(vs[1..])
  }

  /** The filter keeps every long-form video as often as it occurs, and
      nothing else. */
  lemma {:induction false} LongFormFilterCounts(vs: seq<Video>)
    ensures forall v :: multiset(LongFormFilter(vs))[v] == if IsLongForm(v) then multiset(vs)[v] else 0
  {
    if vs != [] {
      LongFormFilterCounts(vs[1..]);
      assert vs == [vs[0]] + vs[1..];
    }
  }

  /** Filtering commutes with concatenation, so the relative order of the
      kept videos is their order in the answer. */
  lemma {:induction false} LongFormFilterAppend(a: seq<Video>, b: seq<Video>)
    ensures LongFormFilter(a + b) == LongFormFilter(a) + LongFormFilter(b)
  {
    if a == [] {
      assert a + b == b;
    } else {
      assert (a + b)[1..] == a[1..] + b;
      LongFormFilterAppend(a[1..], b);
    }
  }

  /** The videos the average is taken over: the first ten long-form ones. */
  function LongForms(vs: seq<Video>): (r: seq<Video>)
    ensures |r| <= MaxLongForms
    ensures r <= LongFormFilter(vs)
    ensures |r| == if |LongFormFilter(vs)| < MaxLongForms then |LongFormFilter(vs)| else MaxLongForms
  {
    var f := LongFormFilter(vs);
    if |f| <= MaxLongForms then f else f[..MaxLongForms]
  }

  /** `int(v['statistics'].get('viewCount', 0))`, where it does not raise. */
  function ViewsOf(v: Video): int
    requires !v.views.Malformed?
  {
    if v.views.Count? then v.views.n else 0
  }

  /** Every selected video has a readable view count. */
  predicate AllReadable(vs: seq<Video>) {
    forall v :: v in vs ==> !v.views.Malformed?
  }

  /** `sum(...)` over the selected videos. */
  function TotalViews(vs: seq<Video>): int
    requires AllReadable(vs)
  {
    if vs == [] then 0 else ViewsOf(vs[0]) + TotalViews(vs[1..])
  }

  /** `sum(...) / len(longforms)`: the mean view count. */
  function MeanViews(vs: seq<Video>): (r: real)
    requires vs != [] && AllReadable(vs)
    ensures r * (|vs| as real) == TotalViews(vs) as real
  {
    TotalViews(vs) as real / (|vs| as real)
  }

  /** The smallest view count among the videos. */
  function MinViews(vs: seq<Video>): (r: int)
    requires vs != [] && AllReadable(vs)
    ensures forall v :: v in vs ==> r <= ViewsOf(v)
    ensures exists v :: v in vs && r == ViewsOf(v)
  {
    if |vs| == 1 then ViewsOf(vs[0])
    else
      var m := MinViews(vs[1..]);
      assert forall v :: v in vs ==> v == vs[0] || v in vs[1..];
      if ViewsOf(vs[0]) <= m then ViewsOf(vs[0]) else m
  }

  /** The largest view count among the videos. */
  function MaxViews(vs: seq<Video>): (r: int)
    requires vs != [] && AllReadable(vs)
    ensures forall v :: v in vs ==> ViewsOf(v) <= r
    ensures exists v :: v in vs && r == ViewsOf(v)
  {
    if |vs| == 1 then ViewsOf(vs[0])
    else
      var m := MaxViews(vs[1..]);
      assert forall v :: v in vs ==> v == vs[0] || v in vs[1..];
      if ViewsOf(vs[0]) >= m then ViewsOf(vs[0]) else m
  }

  /** A sum of counts that each lie in `[lo, hi]` lies in `[n * lo, n * hi]`. */
  lemma {:induction false} TotalViewsBounds(vs: seq<Video>, lo: int, hi: int)
    requires AllReadable(vs)
    requires forall v :: v in vs ==> lo <= ViewsOf(v) <= hi
    ensures |vs| * lo <= TotalViews(vs) <= |vs| * hi
  {
    if vs != [] {
      var rest := vs[1..];
      assert forall v :: v in rest ==> v in vs;
      TotalViewsBounds(rest, lo, hi);
      assert vs[0] in vs;
      MulSucc(|rest|, lo);
      MulSucc(|rest|, hi);
    }
  }

  lemma MulSucc(n: int, x: int)
    ensures (n + 1) * x == n * x + x
  {
  }

  /** The average lies between the smallest and the largest view count. */
  lemma MeanWithinRange(vs: seq<Video>)
    requires vs != [] && AllReadable(vs)
    ensures MinViews(vs) as real <= MeanViews(vs) <= MaxViews(vs) as real
  {
    TotalViewsBounds(vs, MinViews(vs), MaxViews(vs));
    MeanAbove(TotalViews(vs), |vs|, MinViews(vs));
    MeanBelow(TotalViews(vs), |vs|, MaxViews(vs));
  }

  lemma MeanAbove(total: int, count: int, lo: int)
    requires count > 0 && count * lo <= total
    ensures lo as real <= total as real / count as real
  {
    var n := count as real;
    var m := total as real / n;
    assert m * n == total as real;
    assert (count * lo) as real == (lo as real) * n;
    ScaleDown(lo as real, m, n);
  }

  lemma MeanBelow(total: int, count: int, hi: int)
    requires count > 0 && total <= count * hi
    ensures total as real / count as real <= hi as real
  {
    var n := count as real;
    var m := total as real / n;
    assert m * n == total as real;
    assert (count * hi) as real == (hi as real) * n;
    ScaleDown(m, hi as real, n);
  }

  /** Dividing both sides of `a * n <= b * n` by a positive `n`. */
  lemma ScaleDown(a: real, b: real, n: real)
    requires n > 0.0 && a * n <= b * n
    ensures a <= b
  {
    assert (b - a) * n >= 0.0;
  }

  /** Multiplying both sides by a positive factor keeps the comparison. */
  lemma ScaleBoth(a: real, b: real, f: real)
    requires f > 0.0
    ensures a >= b <==> a * f >= b * f
  {
    if a >= b {
      assert (a - b) * f >= 0.0;
    } else {
      assert (b - a) * f > 0.0;
    }
  }

  /** `a / b`, the quotient as the number that multiplied by `b` gives `a`. */
  function Ratio(a: real, b: real): (r: real)
    requires b != 0.0
    ensures r * b == a
  {
    a / b
  }

  /** The videos `check_performance` averages over, when it gets that far:
      the first ten long-form ones, all with readable view counts. */
  predicate Measurable(subs: int, fetched: Option<seq<Video>>) {
    subs != 0 && fetched.Some? && LongForms(fetched.value) != [] && AllReadable(LongForms(fetched.value))
  }

  /** `check_performance(up_id, subs)` with the thresholds
      `efficiency_target = efficiency_val / 100` and `min_view_floor`.
      `fetched` is the answer of the two calls, or `None` when they raise. */
  function CheckPerformance(subs: int, fetched: Option<seq<Video>>, efficiencyPercent: int, minViewFloor: int): (r: Performance)
    ensures subs == 0 || fetched.None? ==> r == NotQualifying
    ensures !Measurable(subs, fetched) ==> r == NotQualifying
    ensures Measurable(subs, fetched) ==>
      && r.averageViews * (|LongForms(fetched.value)| as real) == TotalViews(LongForms(fetched.value)) as real
      && r.efficiency * (subs as real) == r.averageViews
      && (r.qualifies <==> r.efficiency >= (efficiencyPercent as real) / 100.0 && r.averageViews >= minViewFloor as real)
  {
    if !Measurable(subs, fetched) then NotQualifying
    else
      var avg := MeanViews(LongForms(fetched.value));
      var eff := Ratio(avg, subs as real);
      Performance(eff >= (efficiencyPercent as real) / 100.0 && avg >= minViewFloor as real, avg, eff)
  }

  /** A qualifying channel has subscribers, at least one selected video,
      and meets both thresholds. */
  lemma QualifyingMeetsThresholds(subs: int, fetched: Option<seq<Video>>, efficiencyPercent: int, minViewFloor: int)
    requires CheckPerformance(subs, fetched, efficiencyPercent, minViewFloor).qualifies
    ensures
      var r := CheckPerformance(subs, fetched, efficiencyPercent, minViewFloor);
      && subs != 0 && fetched.Some? && LongForms(fetched.value) != []
      && r.efficiency * (subs as real) == r.averageViews
      && r.efficiency >= (efficiencyPercent as real) / 100.0
      && r.averageViews >= minViewFloor as real
  {
    assert Measurable(subs, fetched);
  }

  /** For a channel with subscribers, the decision in whole numbers: with `n`
      selected videos totalling `total` views, it qualifies exactly when
      `total * 100 >= efficiency_val * n * subs` and `total >= min_view_floor * n`;
      both thresholds are inclusive. */
  lemma QualifiesCrossMultiplied(subs: int, videos: seq<Video>, efficiencyPercent: int, minViewFloor: int)
    requires subs > 0
    requires LongForms(videos) != [] && AllReadable(LongForms(videos))
    ensures
      var n := |LongForms(videos)|;
      var total := TotalViews(LongForms(videos));
      var r := CheckPerformance(subs, Some(videos), efficiencyPercent, minViewFloor);
      r.qualifies <==> total * 100 >= efficiencyPercent * n * subs && total >= minViewFloor * n
  {
    var n := |LongForms(videos)|;
    var total := TotalViews(LongForms(videos));
    var r := CheckPerformance(subs, Some(videos), efficiencyPercent, minViewFloor);
    assert Measurable(subs, Some(videos));
    EfficiencyCross(total, n, subs, efficiencyPercent, r.averageViews, r.efficiency);
    FloorCross(total, n, minViewFloor, r.averageViews);
  }

  lemma EfficiencyCross(total: int, n: int, subs: int, pct: int, avg: real, eff: real)
    requires n > 0 && subs > 0
    requires avg * (n as real) == total as real && eff * (subs as real) == avg
    ensures eff >= (pct as real) / 100.0 <==> total * 100 >= pct * n * subs
  {
    var f := (subs as real) * (n as real) * 100.0;
    assert f > 0.0;
    assert eff * f == avg * (n as real) * 100.0;
    assert eff * f == (total * 100) as real;
    assert (pct as real) / 100.0 * f == (pct as real) * (subs as real) * (n as real);
    assert (pct * n * subs) as real == (pct as real) * (n as real) * (subs as real);
    ScaleBoth(eff, (pct as real) / 100.0, f);
  }

  lemma FloorCross(total: int, n: int, floor: int, avg: real)
    requires n > 0 && avg * (n as real) == total as real
    ensures avg >= floor as real <==> total >= floor * n
  {
    assert (floor * n) as real == (floor as real) * (n as real);
    ScaleBoth(avg, floor as real, n as real);
  }

  /** A long-form video (ten minutes) with the given view count. */
  function TenMinutes(views: int): Video {
    Video("PT10M", Count(views))
  }

  /** The ten videos of the worked example: 100, 200, ..., 1000 views. */
  function ExampleVideos(): seq<Video> {
    seq(10, t => TenMinutes(100 * (t + 1)))
  }

  /** The worked example: ten long-form videos with 100, 200, ..., 1000 views
      on a channel of 1000 subscribers average 550 views, an efficiency of
      0.55, and qualify exactly when 55 >= efficiency_val and 550 >= the floor. */
  lemma ExampleTenVideos(efficiencyPercent: int, minViewFloor: int)
    ensures
      var r := CheckPerformance(1000, Some(ExampleVideos()), efficiencyPercent, minViewFloor);
      && r.averageViews == 550.0
      && r.efficiency == 0.55
      && (r.qualifies <==> 55 >= efficiencyPercent && 550 >= minViewFloor)
  {
    var vs := ExampleVideos();
    assert 'M' in "PT10M";
    assert forall t :: 0 <= t < |vs| ==> IsLongForm(vs[t]);
    LongFormFilterAll(vs);
    assert LongForms(vs) == vs;
    ExampleSuffix(vs, 0);
    assert vs[0..] == vs;
    var r := CheckPerformance(1000, Some(vs), efficiencyPercent, minViewFloor);
    assert Measurable(1000, Some(vs));
    assert r.averageViews * 10.0 == 5500.0;
    assert r.efficiency * 1000.0 == r.averageViews;
    QualifiesCrossMultiplied(1000, vs, efficiencyPercent, minViewFloor);
  }

  /** When every video is long-form the filter keeps them all. */
  lemma {:induction false} LongFormFilterAll(vs: seq<Video>)
    requires forall t :: 0 <= t < |vs| ==> IsLongForm(vs[t])
    ensures LongFormFilter(vs) == vs
  {
    if vs != [] {
      LongFormFilterAll(vs[1..]);
    }
  }

  /** The example's views from the `k`-th video on add up to
      `100 * ((k + 1) + ... + 10)`. */
  lemma {:induction false} ExampleSuffix(vs: seq<Video>, k: nat)
    requires vs == ExampleVideos() && k <= 10
    ensures AllReadable(vs[k..]) && TotalViews(vs[k..]) * 2 == 100 * (110 - k * (k + 1))
    decreases 10 - k
  {
    if k < 10 {
      ExampleSuffix(vs, k + 1);
      assert vs[k..][1..] == vs[k + 1..];
      assert vs[k..][0] == TenMinutes(100 * (k + 1));
    }
  }
}
