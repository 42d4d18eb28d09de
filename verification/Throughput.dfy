/**
  Transfer rates from the stored history: EndpointThroughput over the two latest reports, and
  TrafficByKey over a window. The query results are inputs; what SQL promises of them is a precondition.
  Counters are unbounded integers.
*/
module Throughput {
  import opened Basics
  import opened Status

  /** Go's integer division, which truncates towards zero. */
  function GoDiv(a: int, b: int): int
    requires b > 0
  {
    if a >= 0 then a / b else -((-a) / b)
  }

  /** Bytes a second; a counter that went backwards was reset. */
  function Rate(from: int, to: int, dt: int): int
    requires dt > 0
  {
    Max(0, GoDiv(to - from, dt))
  }

  // ---- what the queries return

  /** `SELECT DISTINCT report_ts ... ORDER BY report_ts DESC LIMIT n` */
  ghost predicate IsLatest(all: seq<Sample>, n: nat, times: seq<int>) {
    && |times| <= n
    && (forall i, j :: 0 <= i < j < |times| ==> times[i] > times[j])
    && (forall i :: 0 <= i < |times| ==> exists s :: s in all && s.at == times[i])
    && (forall s :: s in all ==> s.at in times || (|times| == n && forall i :: 0 <= i < |times| ==> s.at < times[i]))
  }

  function Since(all: seq<Sample>, cutoff: int): seq<Sample> {
    if all == [] then []
    else
      var rest, last := Since(all[..|all| - 1], cutoff), all[|all| - 1];
      if last.at >= cutoff then rest + [last] else rest
  }

  ghost predicate OrderedByTime(rows: seq<Sample>) {
    forall i, j :: 0 <= i < j < |rows| && rows[i].key == rows[j].key ==> rows[i].at <= rows[j].at
  }

  /** The rows of the window, in the order of the query. Without any timestamp there are none. */
  ghost predicate IsWindow(rows: seq<Sample>, all: seq<Sample>, times: seq<int>) {
    && OrderedByTime(rows)
    && multiset(rows) == multiset(if times == [] then [] else Since(all, times[|times| - 1]))
  }

  // ---- EndpointThroughput

  /** The sample of a key at a time; the last one read wins. */
  function SampleAt(all: seq<Sample>, key: Key, at: int): Option<Sample> {
    if all == [] then None
    else if all[|all| - 1].key == key && all[|all| - 1].at == at then Some(all[|all| - 1])
    else SampleAt(all[..|all| - 1], key, at)
  }

  ghost predicate IsThroughput(out: map<Key, (int, int)>, all: seq<Sample>, times: seq<int>) {
    forall k ::
      if |times| < 2 then k !in out
      else
        var from, to := SampleAt(all, k, times[1]), SampleAt(all, k, times[0]);
        if from.None? || to.None? || times[0] <= times[1] then k !in out
        else k in out && out[k] == (Rate(from.value.rx, to.value.rx, times[0] - times[1]),
                                    Rate(from.value.tx, to.value.tx, times[0] - times[1]))
  }

  method SamplesAt(all: seq<Sample>, at: int) returns (m: map<Key, Sample>)
    ensures forall k :: if k in m then SampleAt(all, k, at) == Some(m[k]) else SampleAt(all, k, at) == None
  {
    m := map[];
    for i := 0 to |all|
      invariant forall k :: if k in m then SampleAt(all[..i], k, at) == Some(m[k])
                            else SampleAt(all[..i], k, at) == None
    {
      assert all[..i + 1][..i] == all[..i];
      if all[i].at == at {
        m := m[all[i].key := all[i]];
      }
    }
    assert all[..|all|] == all;
  }

  method ClampedRate(from: int, to: int, dt: int) returns (rate: int)
    requires dt > 0
    ensures rate == Rate(from, to, dt)
  {
    rate := GoDiv(to - from, dt);
    if rate < 0 {
      rate := 0;
    }
  }

  method EndpointThroughput(all: seq<Sample>, times: seq<int>) returns (out: map<Key, (int, int)>)
    requires IsLatest(all, 2, times)
    ensures IsThroughput(out, all, times)
  {
    out := map[];
    if |times| < 2 {
      return;
    }
    var dt := times[0] - times[1];
    if dt <= 0 {
      return;
    }
    var prev := SamplesAt(all, times[1]);
    var cur := SamplesAt(all, times[0]);
    var keys := cur.Keys;
    while keys != {}
      invariant keys <= cur.Keys
      invariant forall k :: k in out <==> k in cur && k in prev && k !in keys
      invariant forall k :: k in out ==>
                  out[k] == (Rate(prev[k].rx, cur[k].rx, dt), Rate(prev[k].tx, cur[k].tx, dt))
      decreases keys
    {
      var k :| k in keys;
      keys := keys - {k};
      if k in prev {
        var rx := ClampedRate(prev[k].rx, cur[k].rx, dt);
        var tx := ClampedRate(prev[k].tx, cur[k].tx, dt);
        out := out[k := (rx, tx)];
      }
    }
  }

  // ---- TrafficByKey

  /** The samples of one key, in order. */
  function Of(rows: seq<Sample>, key: Key): seq<Sample> {
    if rows == [] then []
    else
      var rest, last := Of(rows[..|rows| - 1], key), rows[|rows| - 1];
      if last.key == key then rest + [last] else rest
  }

  datatype Interval = Interval(dt: int, rx: int, tx: int)

  /** The rate over each interval between neighbouring samples; without time between them there is none. */
  function Intervals(samples: seq<Sample>): seq<Interval> {
    if |samples| < 2 then []
    else
      var rest := Intervals(samples[..|samples| - 1]);
      var prev, cur := samples[|samples| - 2], samples[|samples| - 1];
      if cur.at - prev.at <= 0 then rest
      else
        var dt := cur.at - prev.at;
        rest + [Interval(dt, Rate(prev.rx, cur.rx, dt), Rate(prev.tx, cur.tx, dt))]
  }

  datatype Traffic = Traffic(rxRate: int, txRate: int, series: seq<int>)

  function Summary(intervals: seq<Interval>): Traffic {
    Traffic(if intervals == [] then 0 else intervals[|intervals| - 1].rx,
            if intervals == [] then 0 else intervals[|intervals| - 1].tx,
            seq(|intervals|, i requires 0 <= i < |intervals| => intervals[i].rx + intervals[i].tx))
  }

  ghost predicate IsTraffic(out: map<Key, Traffic>, rows: seq<Sample>) {
    forall k ::
      if Intervals(Of(rows, k)) == [] then k !in out
      else k in out && out[k] == Summary(Intervals(Of(rows, k)))
  }

  method GroupByKey(rows: seq<Sample>) returns (byKey: map<Key, seq<Sample>>)
    ensures forall k :: Of(rows, k) == if k in byKey then byKey[k] else []
  {
    byKey := map[];
    for i := 0 to |rows|
      invariant forall k :: Of(rows[..i], k) == if k in byKey then byKey[k] else []
    {
      assert rows[..i + 1][..i] == rows[..i];
      var k := rows[i].key;
      byKey := byKey[k := (if k in byKey then byKey[k] else []) + [rows[i]]];
    }
    assert rows[..|rows|] == rows;
  }

  method Rates(samples: seq<Sample>) returns (t: Traffic)
    ensures t == Summary(Intervals(samples))
  {
    t := Traffic(0, 0, []);
    var i := 1;
    while i < |samples|
      invariant 1 <= i && (samples != [] ==> i <= |samples|)
      invariant t == Summary(Intervals(samples[..Min(i, |samples|)]))
    {
      var prev, cur := samples[i - 1], samples[i];
      var dt := cur.at - prev.at;
      assert samples[..i + 1][..i] == samples[..i];
      if dt > 0 {
        var rx := ClampedRate(prev.rx, cur.rx, dt);
        var tx := ClampedRate(prev.tx, cur.tx, dt);
        t := Traffic(rx, tx, t.series + [rx + tx]);
      }
      i := i + 1;
    }
    assert samples[..|samples|] == samples;
  }

  /** The window covers n intervals, and at least one. */
  method TrafficByKey(rows: seq<Sample>, ghost all: seq<Sample>, n: int, ghost times: seq<int>)
    returns (out: map<Key, Traffic>)
    requires IsLatest(all, Max(n, 1) + 1, times) && IsWindow(rows, all, times)
    ensures IsTraffic(out, rows)
  {
    var byKey := GroupByKey(rows);
    out := map[];
    var keys := byKey.Keys;
    while keys != {}
      invariant keys <= byKey.Keys
      invariant forall k :: k in out ==> k in byKey && k !in keys
      invariant forall k :: k in byKey && k !in keys ==>
                  if Intervals(byKey[k]) == [] then k !in out else k in out && out[k] == Summary(Intervals(byKey[k]))
      decreases keys
    {
      var k :| k in keys;
      keys := keys - {k};
      var t := Rates(byKey[k]);
      if |t.series| > 0 {
        out := out[k := t];
      }
    }
    forall k
      ensures if Intervals(Of(rows, k)) == [] then k !in out
              else k in out && out[k] == Summary(Intervals(Of(rows, k)))
    {
      assert k !in byKey ==> Of(rows, k) == [];
    }
  }

  // ---- over one interval both agree

  /** No report was stored twice with the same timestamp. */
  ghost predicate OneSampleEach(all: seq<Sample>) {
    forall i, j :: 0 <= i < j < |all| ==> all[i].key != all[j].key || all[i].at != all[j].at
  }

  function ForEndpoint(history: seq<Sample>, endpoint: int): seq<Sample> {
    if history == [] then []
    else
      var rest, last := ForEndpoint(history[..|history| - 1], endpoint), history[|history| - 1];
      if last.endpoint == endpoint then rest + [last] else rest
  }

  lemma {:induction false} ForEndpointAppend(a: seq<Sample>, b: seq<Sample>, endpoint: int)
    ensures ForEndpoint(a + b, endpoint) == ForEndpoint(a, endpoint) + ForEndpoint(b, endpoint)
  {
    if b == [] {
      assert a + b == a;
    } else {
      assert (a + b)[..|a + b| - 1] == a + b[..|b| - 1];
      ForEndpointAppend(a, b[..|b| - 1], endpoint);
    }
  }

  lemma {:induction false} ForOneEndpoint(samples: seq<Sample>, endpoint: int)
    requires forall i, j :: 0 <= i < |samples| && 0 <= j < |samples| ==> samples[i].endpoint == samples[j].endpoint
    ensures ForEndpoint(samples, endpoint) == if samples != [] && samples[0].endpoint == endpoint then samples else []
  {
    if samples != [] {
      ForOneEndpoint(samples[..|samples| - 1], endpoint);
    }
  }

  /** No two reports of an endpoint carry the same second. */
  ghost predicate ReportsApart(run: seq<Report>) {
    forall i, j :: 0 <= i < j < |run| && run[i].endpoint == run[j].endpoint ==> run[i].at < run[j].at
  }

  lemma SamplesOfReport(start: Tables, r: Report, endpoint: int)
    ensures var samples := SamplesOf(r.endpoint, r.peers, r.at);
            && ForEndpoint(samples, endpoint) == (if r.endpoint == endpoint then samples else [])
            && (Accepts(start, r.endpoint, r.peers) ==> OneSampleEach(samples))
            && forall i :: 0 <= i < |samples| ==> samples[i].at == r.at
  {
    ForOneEndpoint(SamplesOf(r.endpoint, r.peers, r.at), endpoint);
  }

  lemma NoSamples()
    ensures OneSampleEach([]) && ForEndpoint([], 0) == []
  {
  }

  lemma OneSampleConcat(a: seq<Sample>, b: seq<Sample>, at: int)
    requires forall i :: 0 <= i < |b| ==> b[i].at == at
    ensures OneSampleEach(a) && OneSampleEach(b) && (forall i :: 0 <= i < |a| ==> a[i].at < at) ==> OneSampleEach(a + b)
  {
  }

  lemma {:induction false} SamplesOfRun(start: Tables, run: seq<Report>, cutoff: int, endpoint: int, bound: int)
    requires ReportsApart(run)
    requires forall i :: 0 <= i < |run| && run[i].endpoint == endpoint ==> run[i].at < bound
    ensures var samples := ForEndpoint(SamplesSince(start, run, cutoff), endpoint);
            OneSampleEach(samples) && forall i :: 0 <= i < |samples| ==> samples[i].at < bound
  {
    hide SamplesOf, Accepts, OneSampleEach;
    if run == [] {
      NoSamples();
    } else {
      var front, r := run[..|run| - 1], run[|run| - 1];
      var samples := SamplesOf(r.endpoint, r.peers, r.at);
      SamplesOfRun(start, front, cutoff, endpoint, if r.endpoint == endpoint then r.at else bound);
      ForEndpointAppend(SamplesSince(start, front, cutoff), samples, endpoint);
      SamplesOfReport(start, r, endpoint);
      var before := ForEndpoint(SamplesSince(start, front, cutoff), endpoint);
      OneSampleConcat(before, samples, r.at);
      assert before + [] == before;
    }
  }

  /** The history that uploads leave behind holds one sample for each key and time of an endpoint. */
  lemma HistoryHasOneSampleEach(start: Tables, run: seq<Report>, endpoint: int)
    requires Fresh(start) && Clocked(run) && ReportsApart(run)
    ensures OneSampleEach(ForEndpoint(After(start, run).history, endpoint))
  {
    HistoryIsWindow(start, run);
    if LastAcceptedAt(start, run).Some? && run != [] {
      SamplesOfRun(start, run, LastAcceptedAt(start, run).value - RETENTION, endpoint, run[|run| - 1].at + 1);
    }
  }

  lemma {:induction false} OneSampleCount(all: seq<Sample>, s: Sample)
    requires OneSampleEach(all)
    ensures multiset(all)[s] <= 1
  {
    if all != [] {
      var front, last := all[..|all| - 1], all[|all| - 1];
      OneSampleCount(front, s);
      assert all == front + [last];
      forall i | 0 <= i < |front| ensures front[i] != last {
        assert all[i] == front[i] && all[|front|] == last;
      }
    }
  }

  lemma {:induction false} SinceMembers(all: seq<Sample>, cutoff: int, s: Sample)
    ensures multiset(Since(all, cutoff))[s] == if s.at >= cutoff then multiset(all)[s] else 0
  {
    if all != [] {
      var front, last := all[..|all| - 1], all[|all| - 1];
      SinceMembers(front, cutoff, s);
      assert all == front + [last];
    }
  }

  lemma TwiceInSeq(rows: seq<Sample>, i: nat, j: nat)
    requires i < j < |rows| && rows[i] == rows[j]
    ensures multiset(rows)[rows[i]] >= 2
  {
    assert rows == rows[..j] + [rows[j]] + rows[j + 1..];
    assert rows[i] in rows[..j];
  }

  /** The window holds each sample of the covered times once. */
  lemma WindowMembers(rows: seq<Sample>, all: seq<Sample>, times: seq<int>, n: nat)
    requires IsLatest(all, n, times) && IsWindow(rows, all, times) && OneSampleEach(all)
    ensures forall s :: s in rows <==> s in all && s.at in times
    ensures OneSampleEach(rows)
  {
    hide Since;
    forall s ensures s in rows <==> s in all && s.at in times {
      assert s in rows <==> multiset(rows)[s] > 0;
      assert s in all <==> multiset(all)[s] > 0;
      if times != [] {
        SinceMembers(all, times[|times| - 1], s);
      }
    }
    forall i, j | 0 <= i < j < |rows| ensures rows[i].key != rows[j].key || rows[i].at != rows[j].at {
      SameSample(all, rows[i], rows[j]);
      if rows[i] == rows[j] {
        TwiceInSeq(rows, i, j);
        OneSampleCount(all, rows[i]);
        SinceMembers(all, times[|times| - 1], rows[i]);
      }
    }
  }

  lemma SameSample(all: seq<Sample>, s: Sample, t: Sample)
    requires OneSampleEach(all)
    ensures s in all && t in all && s.key == t.key && s.at == t.at ==> s == t
  {
  }

  lemma {:induction false} OfAre(rows: seq<Sample>, key: Key)
    ensures forall s :: s in Of(rows, key) <==> s in rows && s.key == key
  {
    if rows != [] {
      OfAre(rows[..|rows| - 1], key);
      assert rows == rows[..|rows| - 1] + [rows[|rows| - 1]];
    }
  }

  lemma LaterThanFront(rows: seq<Sample>, s: Sample)
    requires OrderedByTime(rows) && OneSampleEach(rows) && rows != []
    ensures s in rows[..|rows| - 1] && s.key == rows[|rows| - 1].key ==> s.at < rows[|rows| - 1].at
    ensures OrderedByTime(rows[..|rows| - 1]) && OneSampleEach(rows[..|rows| - 1])
  {
  }

  lemma {:induction false} OfMembers(rows: seq<Sample>, key: Key)
    requires OrderedByTime(rows) && OneSampleEach(rows)
    ensures forall s :: s in Of(rows, key) <==> s in rows && s.key == key
    ensures forall i, j :: 0 <= i < j < |Of(rows, key)| ==> Of(rows, key)[i].at < Of(rows, key)[j].at
  {
    hide OrderedByTime, OneSampleEach;
    OfAre(rows, key);
    if rows != [] {
      var front, last := rows[..|rows| - 1], rows[|rows| - 1];
      LaterThanFront(rows, last);
      OfMembers(front, key);
      if last.key == key {
        forall s | s in Of(front, key) ensures s.at < last.at {
          LaterThanFront(rows, s);
        }
      }
    }
  }

  lemma {:induction false} SampleAtIs(all: seq<Sample>, key: Key, at: int)
    requires OneSampleEach(all)
    ensures forall s :: s in all && s.key == key && s.at == at ==> SampleAt(all, key, at) == Some(s)
    ensures SampleAt(all, key, at).Some? ==>
              var s := SampleAt(all, key, at).value; s in all && s.key == key && s.at == at
  {
    if all != [] {
      var front, last := all[..|all| - 1], all[|all| - 1];
      SampleAtIs(front, key, at);
      assert all == front + [last];
      if last.key == key && last.at == at {
        forall s | s in all && s.key == key && s.at == at ensures s == last {
          SameSample(all, s, last);
        }
      }
    }
  }

  /** An increasing list of samples from two times at most. */
  lemma AtMostTwo(samples: seq<Sample>, times: seq<int>)
    requires forall i, j :: 0 <= i < j < |samples| ==> samples[i].at < samples[j].at
    requires |times| <= 2 && forall i, j :: 0 <= i < j < |times| ==> times[i] > times[j]
    ensures (forall i :: 0 <= i < |samples| ==> samples[i].at in times) ==>
              |samples| <= |times| && (|samples| == 2 ==> samples[0].at == times[1] && samples[1].at == times[0])
  {
    if |samples| > 2 {
      assert samples[0].at < samples[1].at < samples[2].at;
      assert samples[0].at !in times || samples[1].at !in times || samples[2].at !in times;
    } else if |samples| == 2 {
      assert samples[0].at < samples[1].at;
    }
  }

  lemma PairOfSamples(samples: seq<Sample>, s1: Sample, s2: Sample)
    requires |samples| <= 2 && s1 in samples && s2 in samples && s1.at < s2.at
    requires |samples| == 2 ==> samples[0].at < samples[1].at
    ensures samples == [s1, s2]
  {
    var i :| 0 <= i < |samples| && samples[i] == s1;
    var j :| 0 <= j < |samples| && samples[j] == s2;
  }

  /** Over the two latest reports TrafficByKey gives exactly the rates of EndpointThroughput. */
  lemma OneIntervalAgrees(all: seq<Sample>, times: seq<int>, rows: seq<Sample>,
                          traffic: map<Key, Traffic>, rates: map<Key, (int, int)>)
    requires IsLatest(all, 2, times) && IsWindow(rows, all, times) && OneSampleEach(all)
    requires IsTraffic(traffic, rows) && IsThroughput(rates, all, times)
    ensures traffic.Keys == rates.Keys
    ensures forall k :: k in rates ==> rates[k] == (traffic[k].rxRate, traffic[k].txRate)
    ensures forall k :: k in rates ==> traffic[k].series == [rates[k].0 + rates[k].1]
  {
    hide Rate, Intervals, Of, SampleAt, IsWindow, IsLatest, OneSampleEach;
    WindowMembers(rows, all, times, 2);
    WindowOrdered(rows, all, times);
    forall k
      ensures k in traffic <==> k in rates
      ensures k in rates ==>
                rates[k] == (traffic[k].rxRate, traffic[k].txRate) && traffic[k].series == [rates[k].0 + rates[k].1]
    {
      KeyAgrees(all, times, rows, k);
    }
  }

  lemma WindowOrdered(rows: seq<Sample>, all: seq<Sample>, times: seq<int>)
    ensures IsWindow(rows, all, times) ==> OrderedByTime(rows)
    ensures IsLatest(all, 2, times) ==> |times| <= 2 && (|times| == 2 ==> times[0] > times[1])
  {
  }

  lemma OneInterval(s1: Sample, s2: Sample)
    requires s1.at < s2.at
    ensures var dt := s2.at - s1.at;
            Intervals([s1, s2]) == [Interval(dt, Rate(s1.rx, s2.rx, dt), Rate(s1.tx, s2.tx, dt))]
  {
    assert [s1, s2][..1] == [s1];
  }

  lemma KeyAgrees(all: seq<Sample>, times: seq<int>, rows: seq<Sample>, k: Key)
    requires IsLatest(all, 2, times) && OneSampleEach(all) && OneSampleEach(rows) && OrderedByTime(rows)
    requires forall s :: s in rows <==> s in all && s.at in times
    ensures var samples := Of(rows, k);
            if |times| == 2 && SampleAt(all, k, times[1]).Some? && SampleAt(all, k, times[0]).Some?
            then samples == [SampleAt(all, k, times[1]).value, SampleAt(all, k, times[0]).value]
                 && Intervals(samples)
                    == [Interval(times[0] - times[1], Rate(samples[0].rx, samples[1].rx, times[0] - times[1]),
                                 Rate(samples[0].tx, samples[1].tx, times[0] - times[1]))]
            else Intervals(samples) == []
  {
    hide Rate, SampleAt, Of, OneSampleEach;
    var samples := Of(rows, k);
    OfMembers(rows, k);
    AtMostTwo(samples, times);
    if |times| == 2 {
      SampleAtIs(all, k, times[0]);
      SampleAtIs(all, k, times[1]);
      if SampleAt(all, k, times[1]).Some? && SampleAt(all, k, times[0]).Some? {
        PairOfSamples(samples, SampleAt(all, k, times[1]).value, SampleAt(all, k, times[0]).value);
        OneInterval(samples[0], samples[1]);
      }
    }
  }

  // ---- rates against growth

  /** The bytes the rates account for. */
  function Volume(intervals: seq<Interval>): int {
    if intervals == [] then 0
    else
      var last := intervals[|intervals| - 1];
      Volume(intervals[..|intervals| - 1]) + last.rx * last.dt + last.tx * last.dt
  }

  lemma RateBounds(from: int, to: int, dt: int)
    requires dt > 0 && from <= to
    ensures to - from - (dt - 1) <= Rate(from, to, dt) * dt <= to - from
  {
    var d := to - from;
    assert d == (d / dt) * dt + d % dt;
  }

  /**
    For counters that never decrease the rates never claim more than was transferred, and each direction
    falls short by less than one byte a second.
  */
  lemma {:induction false} RatesAccountForGrowth(samples: seq<Sample>)
    requires samples != []
    requires forall i, j :: 0 <= i < j < |samples| ==> samples[i].at < samples[j].at
    requires forall i, j :: 0 <= i < j < |samples| ==> samples[i].rx <= samples[j].rx && samples[i].tx <= samples[j].tx
    ensures var first, last := samples[0], samples[|samples| - 1];
            var growth := (last.rx - first.rx) + (last.tx - first.tx);
            && |Intervals(samples)| == |samples| - 1
            && growth - 2 * (last.at - first.at - (|samples| - 1)) <= Volume(Intervals(samples)) <= growth
    decreases |samples|
  {
    hide Rate, Volume, Intervals;
    OneMoreInterval(samples);
    if |samples| > 1 {
      var front, n := samples[..|samples| - 1], |samples|;
      var prev, cur := samples[n - 2], samples[n - 1];
      var dt := cur.at - prev.at;
      RatesAccountForGrowth(front);
      RateBounds(prev.rx, cur.rx, dt);
      RateBounds(prev.tx, cur.tx, dt);
      VolumeSnoc(Intervals(front), Interval(dt, Rate(prev.rx, cur.rx, dt), Rate(prev.tx, cur.tx, dt)));
    }
  }

  lemma OneMoreInterval(samples: seq<Sample>)
    requires samples != [] && forall i, j :: 0 <= i < j < |samples| ==> samples[i].at < samples[j].at
    ensures |samples| == 1 ==> Intervals(samples) == [] && Volume([]) == 0
    ensures |samples| > 1 ==>
              var prev, cur := samples[|samples| - 2], samples[|samples| - 1];
              var dt := cur.at - prev.at;
              Intervals(samples) == Intervals(samples[..|samples| - 1])
                                    + [Interval(dt, Rate(prev.rx, cur.rx, dt), Rate(prev.tx, cur.tx, dt))]
  {
    hide Rate;
  }

  /** The counters of a key never decrease from one sample to a later one. */
  ghost predicate NeverReset(all: seq<Sample>, key: Key) {
    forall s, t :: s in all && t in all && s.key == t.key == key && s.at <= t.at ==> s.rx <= t.rx && s.tx <= t.tx
  }

  /** So over a window of any number of reports the rates of a key account for its growth in the same way. */
  lemma WindowAccountsForGrowth(all: seq<Sample>, n: int, times: seq<int>, rows: seq<Sample>, key: Key)
    requires IsLatest(all, Max(n, 1) + 1, times) && IsWindow(rows, all, times) && OneSampleEach(all)
    requires NeverReset(all, key)
    ensures var samples := Of(rows, key);
            samples != [] ==>
              var first, last := samples[0], samples[|samples| - 1];
              var growth := (last.rx - first.rx) + (last.tx - first.tx);
              && |Intervals(samples)| == |samples| - 1
              && growth - 2 * (last.at - first.at - (|samples| - 1)) <= Volume(Intervals(samples)) <= growth
  {
    hide IsLatest, OneSampleEach, Of, Intervals, Volume;
    var samples := Of(rows, key);
    WindowMembers(rows, all, times, Max(n, 1) + 1);
    OfMembers(rows, key);
    forall i, j | 0 <= i < j < |samples| ensures samples[i].rx <= samples[j].rx && samples[i].tx <= samples[j].tx {
      assert samples[i] in samples && samples[j] in samples;
    }
    if samples != [] {
      RatesAccountForGrowth(samples);
    }
  }

  lemma VolumeSnoc(intervals: seq<Interval>, last: Interval)
    ensures Volume(intervals + [last]) == Volume(intervals) + last.rx * last.dt + last.tx * last.dt
  {
    assert (intervals + [last])[..|intervals|] == intervals;
  }
}
