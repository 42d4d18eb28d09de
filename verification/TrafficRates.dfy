/** What TrafficByKey returns, sample by sample: the rates in bytes a second between neighbouring reports of a key. */
module TrafficRates {
  import opened Basics
  import opened Status
  import opened Throughput

  /** Whole bytes a second over an interval; nothing when the counter was reset. */
  function PerSecond(from: int, to: int, dt: int): int
    requires dt > 0
  {
    if to < from then 0 else (to - from) / dt
  }

  lemma RateIs(from: int, to: int, dt: int)
    requires dt > 0
    ensures Rate(from, to, dt) == PerSecond(from, to, dt)
    ensures PerSecond(from, to, dt) >= 0
    ensures from <= to ==> to - from - dt < PerSecond(from, to, dt) * dt <= to - from
    ensures from > to ==> PerSecond(from, to, dt) == 0
  {
    if from > to {
      Truncated(from - to, dt);
    } else {
      RateBounds(from, to, dt);
    }
  }

  lemma Truncated(d: int, dt: int)
    requires d >= 0 && dt > 0
    ensures d / dt >= 0
  {
  }

  ghost predicate Increasing(a: seq<Sample>) {
    forall i, j :: 0 <= i < j < |a| ==> a[i].at < a[j].at
  }

  /** The samples of a key in the window, oldest first. */
  ghost predicate AreSamplesOf(samples: seq<Sample>, all: seq<Sample>, times: seq<int>, key: Key) {
    Increasing(samples) && forall s :: s in samples <==> s in all && s.key == key && s.at in times
  }

  /** The last sample is the latest one, and without it the rest are the others. */
  lemma LastOf(a: seq<Sample>)
    requires Increasing(a) && a != []
    ensures var x := a[|a| - 1];
            && a == a[..|a| - 1] + [x] && x in a && Increasing(a[..|a| - 1])
            && (forall s :: s in a && s != x ==> s.at < x.at)
            && forall s :: s in a[..|a| - 1] <==> s in a && s != x
  {
    assert a == a[..|a| - 1] + [a[|a| - 1]];
  }

  /** Lists with the same members, both increasing in time, are equal. */
  lemma {:induction false} SameList(a: seq<Sample>, b: seq<Sample>)
    requires Increasing(a) && Increasing(b) && forall s :: s in a <==> s in b
    ensures a == b
    decreases |a|
  {
    hide Increasing;
    assert a != [] ==> a[|a| - 1] in b;
    assert b != [] ==> b[|b| - 1] in a;
    if a != [] {
      LastOf(a);
      LastOf(b);
      var front, back := a[..|a| - 1], b[..|b| - 1];
      assert a[|a| - 1] == b[|b| - 1];
      forall s ensures s in front <==> s in back {
        assert s in a <==> s in b;
      }
      SameList(front, back);
    }
  }

  lemma {:induction false} IntervalsAre(samples: seq<Sample>)
    requires Increasing(samples)
    ensures var intervals := Intervals(samples);
            && |intervals| == (if samples == [] then 0 else |samples| - 1)
            && forall k :: 0 <= k < |intervals| ==>
                 var a, b := samples[k], samples[k + 1];
                 intervals[k] == Interval(b.at - a.at, Rate(a.rx, b.rx, b.at - a.at), Rate(a.tx, b.tx, b.at - a.at))
  {
    hide Rate;
    if |samples| > 1 {
      IntervalsAre(samples[..|samples| - 1]);
    }
  }

  /**
    For every key: there is a rate exactly when it has two samples in the window, the series has one entry for each
    pair of neighbouring samples, oldest first, and the rates are those of the latest pair.
  */
  lemma TrafficIsPerSecond(all: seq<Sample>, n: int, times: seq<int>, rows: seq<Sample>, out: map<Key, Traffic>,
                           key: Key, samples: seq<Sample>)
    requires IsLatest(all, Max(n, 1) + 1, times) && IsWindow(rows, all, times) && OneSampleEach(all)
    requires IsTraffic(out, rows) && AreSamplesOf(samples, all, times, key)
    ensures key in out <==> |samples| >= 2
    ensures key in out ==>
              var last := |samples| - 1;
              var t, a, b := out[key], samples[last - 1], samples[last];
              && t.rxRate == PerSecond(a.rx, b.rx, b.at - a.at) && t.txRate == PerSecond(a.tx, b.tx, b.at - a.at)
              && |t.series| == last
    ensures key in out ==>
              forall k :: 0 <= k < |out[key].series| ==>
                var a, b := samples[k], samples[k + 1];
                out[key].series[k] == PerSecond(a.rx, b.rx, b.at - a.at) + PerSecond(a.tx, b.tx, b.at - a.at)
  {
    hide Rate, Intervals, Of, IsWindow, IsLatest, OneSampleEach, PerSecond;
    WindowMembers(rows, all, times, Max(n, 1) + 1);
    RowsOrdered(rows, all, times);
    OfMembers(rows, key);
    SameList(Of(rows, key), samples);
    IntervalsAre(samples);
    forall k | 0 <= k < |samples| - 1
      ensures var a, b := samples[k], samples[k + 1];
              && Rate(a.rx, b.rx, b.at - a.at) == PerSecond(a.rx, b.rx, b.at - a.at)
              && Rate(a.tx, b.tx, b.at - a.at) == PerSecond(a.tx, b.tx, b.at - a.at)
    {
      RateIs(samples[k].rx, samples[k + 1].rx, samples[k + 1].at - samples[k].at);
      RateIs(samples[k].tx, samples[k + 1].tx, samples[k + 1].at - samples[k].at);
    }
  }

  lemma RowsOrdered(rows: seq<Sample>, all: seq<Sample>, times: seq<int>)
    requires IsWindow(rows, all, times)
    ensures OrderedByTime(rows)
  {
  }

  /** The bytes a series of combined rates stands for. */
  function SeriesVolume(series: seq<int>, samples: seq<Sample>): int
    requires |samples| == |series| + 1
  {
    if series == [] then 0
    else
      var n := |series|;
      SeriesVolume(series[..n - 1], samples[..n]) + series[n - 1] * (samples[n].at - samples[n - 1].at)
  }

  /**
    The series returned for a key whose counters never decrease accounts for the growth of its samples: it never claims
    more, and falls short by less than a byte a second each way.
  */
  lemma SeriesAccountsForGrowth(all: seq<Sample>, n: int, times: seq<int>, rows: seq<Sample>, out: map<Key, Traffic>,
                                key: Key, samples: seq<Sample>)
    requires IsLatest(all, Max(n, 1) + 1, times) && IsWindow(rows, all, times) && OneSampleEach(all)
    requires IsTraffic(out, rows) && AreSamplesOf(samples, all, times, key) && NeverReset(all, key) && key in out
    ensures |samples| == |out[key].series| + 1
    ensures var first, last := samples[0], samples[|samples| - 1];
            var growth := (last.rx - first.rx) + (last.tx - first.tx);
            growth - 2 * (last.at - first.at) <= SeriesVolume(out[key].series, samples) <= growth
  {
    hide IsLatest, IsWindow, OneSampleEach, IsTraffic, SeriesVolume, PerSecond;
    TrafficIsPerSecond(all, n, times, rows, out, key, samples);
    forall i, j | 0 <= i < j < |samples| ensures samples[i].rx <= samples[j].rx && samples[i].tx <= samples[j].tx {
      assert samples[i] in samples && samples[j] in samples;
    }
    GrowthOfSeries(out[key].series, samples);
  }

  lemma {:induction false} GrowthOfSeries(series: seq<int>, samples: seq<Sample>)
    requires |samples| == |series| + 1 && Increasing(samples)
    requires forall i, j :: 0 <= i < j < |samples| ==> samples[i].rx <= samples[j].rx && samples[i].tx <= samples[j].tx
    requires forall k :: 0 <= k < |series| ==>
               var a, b := samples[k], samples[k + 1];
               series[k] == PerSecond(a.rx, b.rx, b.at - a.at) + PerSecond(a.tx, b.tx, b.at - a.at)
    ensures var first, last := samples[0], samples[|samples| - 1];
            var growth := (last.rx - first.rx) + (last.tx - first.tx);
            growth - 2 * (last.at - first.at) <= SeriesVolume(series, samples) <= growth
    decreases |series|
  {
    hide PerSecond, SeriesVolume, Increasing;
    if series == [] {
      NoVolume(samples);
    } else {
      var n := |series|;
      FrontIncreasing(samples);
      GrowthOfSeries(series[..n - 1], samples[..n]);
      VolumeOfLast(series, samples);
      VolumeOfOne(samples[n - 1], samples[n]);
    }
  }

  lemma NoVolume(samples: seq<Sample>)
    requires |samples| == 1
    ensures SeriesVolume([], samples) == 0
  {
  }

  lemma FrontIncreasing(samples: seq<Sample>)
    requires Increasing(samples) && |samples| > 1
    ensures Increasing(samples[..|samples| - 1]) && samples[|samples| - 2].at < samples[|samples| - 1].at
  {
  }

  lemma VolumeOfLast(series: seq<int>, samples: seq<Sample>)
    requires |samples| == |series| + 1 && series != []
    ensures var n := |series|;
            SeriesVolume(series, samples) == SeriesVolume(series[..n - 1], samples[..n])
                                             + series[n - 1] * (samples[n].at - samples[n - 1].at)
  {
  }

  lemma VolumeOfOne(a: Sample, b: Sample)
    requires a.at < b.at && a.rx <= b.rx && a.tx <= b.tx
    ensures var dt := b.at - a.at;
            (b.rx - a.rx) + (b.tx - a.tx) - 2 * dt
            <= (PerSecond(a.rx, b.rx, dt) + PerSecond(a.tx, b.tx, dt)) * dt
            <= (b.rx - a.rx) + (b.tx - a.tx)
  {
    hide PerSecond;
    RateIs(a.rx, b.rx, b.at - a.at);
    RateIs(a.tx, b.tx, b.at - a.at);
    BothWays(PerSecond(a.rx, b.rx, b.at - a.at), PerSecond(a.tx, b.tx, b.at - a.at), b.at - a.at);
  }

  lemma BothWays(rx: int, tx: int, dt: int)
    ensures (rx + tx) * dt == rx * dt + tx * dt
  {
  }
}
