/** What uploads leave in the history and in the report times, report by report. */
module StatusHistory {
  import opened Basics
  import opened Status

  /** The endpoint is registered, and no key comes twice: the report goes through. */
  ghost predicate Stored(start: Tables, r: Report) {
    r.endpoint in start.endpoints && forall j, k :: 0 <= j < k < |r.peers| ==> r.peers[j].key != r.peers[k].key
  }

  /** The i-th report of the run goes through, and no later one does. */
  ghost predicate IsLast(start: Tables, run: seq<Report>, i: int) {
    0 <= i < |run| && Stored(start, run[i]) && forall k :: i < k < |run| ==> !Stored(start, run[k])
  }

  /** The same among the reports of one endpoint. */
  ghost predicate IsLastOf(start: Tables, run: seq<Report>, endpoint: int, i: int) {
    && 0 <= i < |run| && Stored(start, run[i]) && run[i].endpoint == endpoint
    && forall k :: i < k < |run| ==> !(Stored(start, run[k]) && run[k].endpoint == endpoint)
  }

  /** The report time of an endpoint is that of its last report that went through; without one there is none. */
  lemma {:induction false} ReportTimeIsLast(start: Tables, run: seq<Report>, endpoint: int)
    requires Fresh(start)
    ensures var received := After(start, run).received;
            && (endpoint in received <==> exists i :: IsLastOf(start, run, endpoint, i))
            && forall i :: IsLastOf(start, run, endpoint, i) ==> endpoint in received && received[endpoint] == run[i].at
  {
    hide Rows, Seen, Trim, SamplesOf;
    if run != [] {
      var n := |run| - 1;
      var front, r := run[..n], run[n];
      ReportTimeIsLast(start, front, endpoint);
      AcceptsStay(start, front, r.endpoint, r.peers);
      if Stored(start, r) && r.endpoint == endpoint {
        assert IsLastOf(start, run, endpoint, n);
      } else {
        assert forall i :: IsLastOf(start, front, endpoint, i) <==> IsLastOf(start, run, endpoint, i);
      }
    }
  }

  /** The sample that the j-th entry of the i-th report leaves, if the report goes through and is not too old. */
  ghost predicate IsEntry(start: Tables, run: seq<Report>, cutoff: int, s: Sample, i: int, j: int) {
    && 0 <= i < |run| && Stored(start, run[i]) && run[i].at >= cutoff && 0 <= j < |run[i].peers|
    && s.endpoint == run[i].endpoint && s.at == run[i].at && s.key == run[i].peers[j].key
    && s.rx == run[i].peers[j].rx && s.tx == run[i].peers[j].tx
  }

  lemma EntryOfOne(start: Tables, run: seq<Report>, cutoff: int, s: Sample, n: int)
    requires 0 <= n < |run| && Stored(start, run[n]) && run[n].at >= cutoff
    ensures var r := run[n];
            s in SamplesOf(r.endpoint, r.peers, r.at) <==> exists j :: IsEntry(start, run, cutoff, s, n, j)
  {
    var r := run[n];
    var samples := SamplesOf(r.endpoint, r.peers, r.at);
    if s in samples {
      var j :| 0 <= j < |samples| && samples[j] == s;
      assert IsEntry(start, run, cutoff, s, n, j);
    }
    if exists j :: IsEntry(start, run, cutoff, s, n, j) {
      var j :| IsEntry(start, run, cutoff, s, n, j);
      assert samples[j] == s;
    }
  }

  lemma {:induction false} SamplesAre(start: Tables, run: seq<Report>, cutoff: int, s: Sample)
    ensures s in SamplesSince(start, run, cutoff) <==> exists i, j :: IsEntry(start, run, cutoff, s, i, j)
  {
    hide SamplesOf, Stored;
    if run != [] {
      var n := |run| - 1;
      var front, r := run[..n], run[n];
      SamplesAre(start, front, cutoff, s);
      assert forall i, j :: 0 <= i < n ==>
               (IsEntry(start, run, cutoff, s, i, j) <==> IsEntry(start, front, cutoff, s, i, j));
      AcceptsIs(start, r);
      if Stored(start, r) && r.at >= cutoff {
        EntryOfOne(start, run, cutoff, s, n);
      }
    }
  }

  lemma AcceptsIs(start: Tables, r: Report)
    ensures Accepts(start, r.endpoint, r.peers) <==> Stored(start, r)
  {
  }

  lemma {:induction false} LastTimeIs(start: Tables, run: seq<Report>)
    ensures LastAcceptedAt(start, run).Some? <==> exists i :: IsLast(start, run, i)
    ensures forall i :: IsLast(start, run, i) ==> LastAcceptedAt(start, run) == Some(run[i].at)
  {
    hide Accepts, Stored;
    if run != [] {
      var n := |run| - 1;
      AcceptsIs(start, run[n]);
      if Stored(start, run[n]) {
        assert IsLast(start, run, n);
      } else {
        LastTimeIs(start, run[..n]);
        assert forall i :: IsLast(start, run, i) <==> IsLast(start, run[..n], i);
      }
    }
  }

  /**
    With a clock that does not run backwards: every entry of every report that went through within fourteen days of
    the last one has left a sample with its own counters, and there are no other samples.
  */
  lemma EveryEntryLeavesASample(start: Tables, run: seq<Report>, last: int, s: Sample)
    requires Fresh(start) && Clocked(run) && IsLast(start, run, last)
    ensures var cutoff := run[last].at - 14 * 24 * 3600;
            s in After(start, run).history <==> exists i, j :: IsEntry(start, run, cutoff, s, i, j)
  {
    hide After, SamplesSince, LastAcceptedAt, IsEntry;
    HistoryIsWindow(start, run);
    LastTimeIs(start, run);
    SamplesAre(start, run, run[last].at - RETENTION, s);
  }
}
