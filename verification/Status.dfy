/**
  The status upload: ReplaceStatus swaps the stored peers of an endpoint for those of a report, inside
  one transaction. Times are whole seconds since the epoch; the handshake of a peer that never
  completed one is the zero time's second count, a large negative number.
*/
module Status {
  import opened Basics

  /** Samples older than fourteen days are trimmed. */
  const RETENTION: int := 14 * 24 * 3600

  type Key = string

  datatype Peer = Peer(key: Key, handshake: int, rx: int, tx: int, remote: string, allowedIPs: string)

  /** A row of status_peer. */
  datatype Row = Row(handshake: int, rx: int, tx: int, remote: string, allowedIPs: string)

  datatype Sample = Sample(endpoint: int, key: Key, at: int, rx: int, tx: int)

  /**
    The tables an upload touches. seen is the last_seen column of the machines, by public key; the
    peers of an endpoint are absent until its first report.
  */
  datatype Tables = Tables(endpoints: set<int>, peers: map<int, map<Key, Row>>, seen: map<Key, int>,
                           received: map<int, int>, history: seq<Sample>)

  function PeersOf(t: Tables, endpoint: int): map<Key, Row> {
    if endpoint in t.peers then t.peers[endpoint] else map[]
  }

  // ---- one upload

  /** The row written for a peer: what a fresh report lacks is kept from the row before. */
  function Kept(prev: map<Key, Row>, p: Peer): Row {
    if p.key in prev then
      Row(Max(p.handshake, prev[p.key].handshake), p.rx, p.tx,
          if p.remote == "" then prev[p.key].remote else p.remote, p.allowedIPs)
    else Row(p.handshake, p.rx, p.tx, p.remote, p.allowedIPs)
  }

  function Rows(prev: map<Key, Row>, peers: seq<Peer>): map<Key, Row> {
    if peers == [] then map[]
    else
      var last := peers[|peers| - 1];
      Rows(prev, peers[..|peers| - 1])[last.key := Kept(prev, last)]
  }

  /** The machine with this key, if any, has been seen at `handshake`. */
  function Witnessed(seen: map<Key, int>, key: Key, handshake: int): map<Key, int> {
    if handshake > 0 && key in seen && seen[key] < handshake then seen[key := handshake] else seen
  }

  function Seen(seen: map<Key, int>, prev: map<Key, Row>, peers: seq<Peer>): map<Key, int> {
    if peers == [] then seen
    else
      var last := peers[|peers| - 1];
      Witnessed(Seen(seen, prev, peers[..|peers| - 1]), last.key, Kept(prev, last).handshake)
  }

  function SamplesOf(endpoint: int, peers: seq<Peer>, at: int): seq<Sample> {
    seq(|peers|, i requires 0 <= i < |peers| => Sample(endpoint, peers[i].key, at, peers[i].rx, peers[i].tx))
  }

  function Trim(history: seq<Sample>, cutoff: int): seq<Sample> {
    if history == [] then []
    else
      var rest := Trim(history[..|history| - 1], cutoff);
      var last := history[|history| - 1];
      if last.at < cutoff then rest else rest + [last]
  }

  predicate Carries(peers: seq<Peer>, key: Key) {
    exists i :: 0 <= i < |peers| && peers[i].key == key
  }

  predicate NoKeyTwice(peers: seq<Peer>) {
    forall i, j :: 0 <= i < j < |peers| ==> peers[i].key != peers[j].key
  }

  /** The inserts pass the foreign keys and the primary key of status_peer. */
  predicate Accepts(t: Tables, endpoint: int, peers: seq<Peer>) {
    endpoint in t.endpoints && NoKeyTwice(peers)
  }

  function Replace(t: Tables, endpoint: int, peers: seq<Peer>, at: int): Tables {
    if !Accepts(t, endpoint, peers) then t
    else
      var prev := PeersOf(t, endpoint);
      Tables(t.endpoints, t.peers[endpoint := Rows(prev, peers)], Seen(t.seen, prev, peers),
             t.received[endpoint := at], Trim(t.history + SamplesOf(endpoint, peers, at), at - RETENTION))
  }

  lemma {:induction false} RowsKeys(prev: map<Key, Row>, peers: seq<Peer>)
    ensures forall k :: k in Rows(prev, peers) <==> Carries(peers, k)
  {
    if peers != [] {
      var front, n := peers[..|peers| - 1], |peers| - 1;
      RowsKeys(prev, front);
      forall k | Carries(peers, k) ensures k in Rows(prev, peers) {
        var i :| 0 <= i < |peers| && peers[i].key == k;
        assert i < n ==> front[i].key == k;
      }
      assert peers[n].key in Rows(prev, peers);
    }
  }

  /** Each reported peer finds the row computed from it. */
  lemma {:induction false} RowOf(prev: map<Key, Row>, peers: seq<Peer>, i: nat)
    requires NoKeyTwice(peers) && i < |peers|
    ensures peers[i].key in Rows(prev, peers) && Rows(prev, peers)[peers[i].key] == Kept(prev, peers[i])
  {
    if i < |peers| - 1 {
      RowOf(prev, peers[..|peers| - 1], i);
    }
  }

  class Store {
    var endpoints: set<int>
    var peers: map<int, map<Key, Row>>
    var seen: map<Key, int>
    var received: map<int, int>
    var history: seq<Sample>

    constructor (endpoints: set<int>, seen: map<Key, int>)
      ensures State() == Tables(endpoints, map[], seen, map[], [])
    {
      this.endpoints, this.peers, this.seen, this.received, this.history := endpoints, map[], seen, map[], [];
    }

    function State(): Tables
      reads this
    {
      Tables(endpoints, peers, seen, received, history)
    }

    /** Nothing is stored before the commit, so returning early is the rollback. */
    method ReplaceStatus(endpoint: int, report: seq<Peer>, receivedAt: int) returns (ok: bool)
      modifies this
      ensures State() == Replace(old(State()), endpoint, report, receivedAt)
      ensures ok == Accepts(old(State()), endpoint, report)
    {
      hide Rows, Seen, Trim, NoKeyTwice, Kept;
      var prev := if endpoint in peers then peers[endpoint] else map[];
      var rows, lastSeen;
      ok, rows, lastSeen := InsertPeers(prev, seen, report, endpoint in endpoints);
      if !ok || endpoint !in endpoints {
        return false;
      }
      var samples := AppendSamples(history, endpoint, report, receivedAt);
      peers := peers[endpoint := rows];
      seen := lastSeen;
      received := received[endpoint := receivedAt];
      history := Trim(samples, receivedAt - RETENTION);
    }
  }

  /** The row of one peer. */
  method KeepLastKnown(prev: map<Key, Row>, p: Peer) returns (row: Row)
    ensures row == Kept(prev, p)
  {
    var handshake, remote := p.handshake, p.remote;
    if p.key in prev {
      if prev[p.key].handshake > handshake {
        handshake := prev[p.key].handshake;
      }
      if remote == "" {
        remote := prev[p.key].remote;
      }
    }
    row := Row(handshake, p.rx, p.tx, remote, p.allowedIPs);
  }

  /** The inserts, and what they carry over to the machines; false on the first constraint violated. */
  method InsertPeers(prev: map<Key, Row>, seen: map<Key, int>, report: seq<Peer>, known: bool)
    returns (ok: bool, rows: map<Key, Row>, lastSeen: map<Key, int>)
    ensures ok == ((report == [] || known) && NoKeyTwice(report))
    ensures ok ==> rows == Rows(prev, report) && lastSeen == Seen(seen, prev, report)
  {
    hide Kept;
    rows, lastSeen := map[], seen;
    for i := 0 to |report|
      invariant rows == Rows(prev, report[..i]) && lastSeen == Seen(seen, prev, report[..i])
      invariant NoKeyTwice(report[..i]) && (i > 0 ==> known)
    {
      var p := report[i];
      var row := KeepLastKnown(prev, p);
      FirstOccurrence(prev, report, i);
      if !known || p.key in rows {
        return false, rows, lastSeen;
      }
      rows := rows[p.key := row];
      if row.handshake > 0 && p.key in lastSeen && lastSeen[p.key] < row.handshake {
        lastSeen := lastSeen[p.key := row.handshake];
      }
    }
    assert report[..|report|] == report;
    ok := true;
  }

  lemma FirstOccurrence(prev: map<Key, Row>, report: seq<Peer>, i: nat)
    requires i < |report| && NoKeyTwice(report[..i])
    ensures report[..i + 1][..i] == report[..i]
    ensures report[i].key in Rows(prev, report[..i]) ==> !NoKeyTwice(report)
    ensures report[i].key !in Rows(prev, report[..i]) ==> NoKeyTwice(report[..i + 1])
  {
    var front := report[..i];
    RowsKeys(prev, front);
    if Carries(front, report[i].key) {
      var j :| 0 <= j < i && front[j].key == report[i].key;
      assert report[j].key == report[i].key;
    } else {
      forall j | 0 <= j < i ensures report[j].key != report[i].key {
        assert front[j].key == report[j].key;
      }
    }
  }

  method AppendSamples(history: seq<Sample>, endpoint: int, report: seq<Peer>, at: int) returns (samples: seq<Sample>)
    ensures samples == history + SamplesOf(endpoint, report, at)
  {
    samples := history;
    for i := 0 to |report|
      invariant samples == history + SamplesOf(endpoint, report, at)[..i]
    {
      samples := samples + [Sample(endpoint, report[i].key, at, report[i].rx, report[i].tx)];
    }
  }

  // ---- runs of uploads

  datatype Report = Report(endpoint: int, peers: seq<Peer>, at: int)

  function After(start: Tables, run: seq<Report>): Tables {
    if run == [] then start
    else var r := run[|run| - 1]; Replace(After(start, run[..|run| - 1]), r.endpoint, r.peers, r.at)
  }

  /** No endpoint has reported yet. */
  predicate Fresh(t: Tables) {
    t.peers == map[] && t.received == map[] && t.history == []
  }

  lemma {:induction false} EndpointsStay(start: Tables, run: seq<Report>)
    ensures After(start, run).endpoints == start.endpoints
  {
    if run != [] {
      EndpointsStay(start, run[..|run| - 1]);
    }
  }

  /** The accepted reports of one endpoint. */
  function Accepted(start: Tables, run: seq<Report>, endpoint: int): seq<seq<Peer>> {
    if run == [] then []
    else
      var rest, r := Accepted(start, run[..|run| - 1], endpoint), run[|run| - 1];
      if r.endpoint == endpoint && Accepts(start, endpoint, r.peers) then rest + [r.peers] else rest
  }

  /** The entry of a key in a report. */
  function Entry(peers: seq<Peer>, key: Key): Option<Peer> {
    if peers == [] then None
    else if peers[|peers| - 1].key == key then Some(peers[|peers| - 1])
    else Entry(peers[..|peers| - 1], key)
  }

  /** What the latest reports, as far back as each of them carries the key, say about it. */
  function Unbroken(reports: seq<seq<Peer>>, key: Key): seq<Peer> {
    if reports == [] then []
    else
      match Entry(reports[|reports| - 1], key)
      case None => []
      case Some(p) => Unbroken(reports[..|reports| - 1], key) + [p]
  }

  /** The largest handshake of the run. */
  ghost predicate IsLatestHandshake(run: seq<Peer>, handshake: int) {
    && (exists i :: 0 <= i < |run| && run[i].handshake == handshake)
    && (forall i :: 0 <= i < |run| ==> run[i].handshake <= handshake)
  }

  /** The last remote endpoint of the run that is not empty, or the empty one if there is none. */
  ghost predicate IsLastRemote(run: seq<Peer>, remote: string) {
    if remote == "" then forall i :: 0 <= i < |run| ==> run[i].remote == ""
    else exists i :: 0 <= i < |run| && run[i].remote == remote && forall j :: i < j < |run| ==> run[j].remote == ""
  }

  ghost predicate RowSums(row: Row, run: seq<Peer>) {
    && run != [] && IsLatestHandshake(run, row.handshake) && IsLastRemote(run, row.remote)
    && var last := run[|run| - 1];
       row.rx == last.rx && row.tx == last.tx && row.allowedIPs == last.allowedIPs
  }

  lemma {:induction false} EntryIs(peers: seq<Peer>, key: Key)
    ensures Entry(peers, key).Some? <==> Carries(peers, key)
    ensures Entry(peers, key).Some? ==>
              exists i :: 0 <= i < |peers| && peers[i] == Entry(peers, key).value && peers[i].key == key
  {
    if peers != [] {
      var front, n := peers[..|peers| - 1], |peers| - 1;
      EntryIs(front, key);
      if peers[n].key == key {
        assert peers[n] == Entry(peers, key).value;
      } else if Entry(front, key).Some? {
        var i :| 0 <= i < |front| && front[i] == Entry(front, key).value && front[i].key == key;
        assert peers[i] == Entry(peers, key).value;
      } else {
        forall i | 0 <= i < |peers| ensures peers[i].key != key {
          assert i < n ==> front[i].key != key;
        }
      }
    }
  }

  lemma RowSumsStep(run: seq<Peer>, before: Row, p: Peer, row: Row)
    requires RowSums(before, run)
    requires row == Row(Max(p.handshake, before.handshake), p.rx, p.tx,
                        if p.remote == "" then before.remote else p.remote, p.allowedIPs)
    ensures RowSums(row, run + [p])
  {
    var longer := run + [p];
    var i :| 0 <= i < |run| && run[i].handshake == before.handshake;
    assert longer[i].handshake == before.handshake && longer[|run|] == p;
    if p.remote == "" && before.remote != "" {
      var j :| 0 <= j < |run| && run[j].remote == before.remote && forall k :: j < k < |run| ==> run[k].remote == "";
      assert longer[j].remote == row.remote && forall k :: j < k < |longer| ==> longer[k].remote == "";
    }
  }

  lemma RowSumsOne(prev: map<Key, Row>, p: Peer)
    requires p.key !in prev
    ensures RowSums(Kept(prev, p), [p])
  {
    assert [p][0] == p;
  }

  /**
    After any run of uploads the rows of an endpoint are exactly the keys of its last accepted report,
    and each row sums up the unbroken run of reports that carry its key.
  */
  lemma {:induction false} RowsSumUpReports(start: Tables, run: seq<Report>, endpoint: int, key: Key)
    requires Fresh(start)
    ensures var rows := PeersOf(After(start, run), endpoint);
            var reports := Accepted(start, run, endpoint);
            && (key in rows <==> reports != [] && Carries(reports[|reports| - 1], key))
            && (key in rows ==> RowSums(rows[key], Unbroken(reports, key)))
            && (key !in rows ==> Unbroken(reports, key) == [])
  {
    if run != [] {
      var front, r := run[..|run| - 1], run[|run| - 1];
      var before := After(start, front);
      RowsSumUpReports(start, front, endpoint, key);
      EndpointsStay(start, front);
      if r.endpoint == endpoint && Accepts(before, endpoint, r.peers) {
        ReportSummedUp(PeersOf(before, endpoint), Accepted(start, front, endpoint), r.peers, key);
      }
    }
  }

  lemma ReportSummedUp(prev: map<Key, Row>, reports: seq<seq<Peer>>, peers: seq<Peer>, key: Key)
    requires NoKeyTwice(peers)
    requires key in prev ==> RowSums(prev[key], Unbroken(reports, key))
    requires key !in prev ==> Unbroken(reports, key) == []
    ensures key in Rows(prev, peers) <==> Carries(peers, key)
    ensures key in Rows(prev, peers) ==> RowSums(Rows(prev, peers)[key], Unbroken(reports + [peers], key))
    ensures key !in Rows(prev, peers) ==> Unbroken(reports + [peers], key) == []
  {
    RowsKeys(prev, peers);
    EntryIs(peers, key);
    assert (reports + [peers])[..|reports|] == reports;
    if key in Rows(prev, peers) {
      var i :| 0 <= i < |peers| && peers[i] == Entry(peers, key).value && peers[i].key == key;
      RowOf(prev, peers, i);
      if key in prev {
        RowSumsStep(Unbroken(reports, key), prev[key], peers[i], Rows(prev, peers)[key]);
      } else {
        RowSumsOne(prev, peers[i]);
        assert [] + [peers[i]] == [peers[i]];
      }
    }
  }

  // ---- last_seen

  /** The largest positive handshake any accepted report of any endpoint has ever carried for a key. */
  function EverSeen(start: Tables, run: seq<Report>, key: Key): int {
    if run == [] then 0
    else
      var rest, r := EverSeen(start, run[..|run| - 1], key), run[|run| - 1];
      if !Accepts(start, r.endpoint, r.peers) then rest
      else match Entry(r.peers, key)
           case None => rest
           case Some(p) => Max(rest, p.handshake)
  }

  lemma {:induction false} SeenOf(seen: map<Key, int>, prev: map<Key, Row>, peers: seq<Peer>, key: Key)
    requires NoKeyTwice(peers) && key in seen
    ensures Seen(seen, prev, peers).Keys == seen.Keys
    ensures var e := Entry(peers, key);
            Seen(seen, prev, peers)[key]
            == if e.Some? && Kept(prev, e.value).handshake > 0 then Max(seen[key], Kept(prev, e.value).handshake)
               else seen[key]
  {
    if peers != [] {
      var front, last := peers[..|peers| - 1], peers[|peers| - 1];
      SeenOf(seen, prev, front, key);
      EntryIs(front, key);
      if last.key == key {
        forall i | 0 <= i < |front| ensures front[i].key != key {
          assert peers[i].key != peers[|peers| - 1].key;
        }
      }
    }
  }

  /** Every stored handshake is one that the machine's last_seen already covers. */
  ghost predicate Covered(t: Tables, key: Key) {
    key in t.seen &&
    forall e :: e in t.peers && key in t.peers[e] ==> t.peers[e][key].handshake <= Max(0, t.seen[key])
  }

  lemma UploadSees(t: Tables, endpoint: int, peers: seq<Peer>, at: int, key: Key)
    requires Accepts(t, endpoint, peers) && Covered(t, key)
    ensures var t' := Replace(t, endpoint, peers, at);
            && Covered(t', key)
            && t'.seen[key] == match Entry(peers, key)
                               case None => t.seen[key]
                               case Some(p) => if p.handshake > 0 then Max(t.seen[key], p.handshake) else t.seen[key]
  {
    var prev := PeersOf(t, endpoint);
    SeenOf(t.seen, prev, peers, key);
    RowsKeys(prev, peers);
    EntryIs(peers, key);
    if key in Rows(prev, peers) {
      var i :| 0 <= i < |peers| && peers[i] == Entry(peers, key).value && peers[i].key == key;
      RowOf(prev, peers, i);
    }
  }

  /**
    A machine's last_seen is, after any run, the larger of what it was and the latest handshake ever
    reported for its key; handshakes kept in rows, and rows that are gone, make no difference.
  */
  lemma {:induction false} LastSeenIsLatestEver(start: Tables, run: seq<Report>, key: Key)
    requires Fresh(start) && key in start.seen && start.seen[key] >= 0
    ensures Covered(After(start, run), key)
    ensures After(start, run).seen[key] == Max(start.seen[key], EverSeen(start, run, key))
  {
    if run != [] {
      var front, r := run[..|run| - 1], run[|run| - 1];
      LastSeenIsLatestEver(start, front, key);
      EndpointsStay(start, front);
      if Accepts(After(start, front), r.endpoint, r.peers) {
        UploadSees(After(start, front), r.endpoint, r.peers, r.at, key);
      }
    }
  }

  /** So last_seen never decreases, and covers every positive handshake of every row. */
  lemma LastSeenGrows(start: Tables, run: seq<Report>, more: seq<Report>, key: Key)
    requires Fresh(start) && key in start.seen && start.seen[key] >= 0
    ensures key in After(start, run).seen && key in After(start, run + more).seen
    ensures After(start, run).seen[key] <= After(start, run + more).seen[key]
    ensures forall e :: key in PeersOf(After(start, run), e) ==>
              PeersOf(After(start, run), e)[key].handshake <= After(start, run).seen[key]
  {
    LastSeenIsLatestEver(start, run, key);
    LastSeenIsLatestEver(start, run + more, key);
    EverSeenGrows(start, run, more, key);
  }

  lemma {:induction false} EverSeenGrows(start: Tables, run: seq<Report>, more: seq<Report>, key: Key)
    ensures EverSeen(start, run, key) <= EverSeen(start, run + more, key)
  {
    if more == [] {
      assert run + more == run;
    } else {
      assert (run + more)[..|run + more| - 1] == run + more[..|more| - 1];
      EverSeenGrows(start, run, more[..|more| - 1], key);
    }
  }

  // ---- history

  ghost predicate Clocked(run: seq<Report>) {
    forall i, j :: 0 <= i <= j < |run| ==> run[i].at <= run[j].at
  }

  /** The samples of all accepted reports from `cutoff` on. */
  function SamplesSince(start: Tables, run: seq<Report>, cutoff: int): seq<Sample> {
    if run == [] then []
    else
      var rest, r := SamplesSince(start, run[..|run| - 1], cutoff), run[|run| - 1];
      if Accepts(start, r.endpoint, r.peers) && r.at >= cutoff then rest + SamplesOf(r.endpoint, r.peers, r.at)
      else rest
  }

  function LastAcceptedAt(start: Tables, run: seq<Report>): Option<int> {
    if run == [] then None
    else
      var r := run[|run| - 1];
      if Accepts(start, r.endpoint, r.peers) then Some(r.at) else LastAcceptedAt(start, run[..|run| - 1])
  }

  lemma {:induction false} TrimSamples(samples: seq<Sample>, at: int, cutoff: int)
    requires forall i :: 0 <= i < |samples| ==> samples[i].at == at
    ensures Trim(samples, cutoff) == if at < cutoff then [] else samples
  {
    if samples != [] {
      TrimSamples(samples[..|samples| - 1], at, cutoff);
    }
  }

  lemma {:induction false} TrimAppend(a: seq<Sample>, b: seq<Sample>, cutoff: int)
    ensures Trim(a + b, cutoff) == Trim(a, cutoff) + Trim(b, cutoff)
  {
    if b == [] {
      assert a + b == a;
    } else {
      assert (a + b)[..|a + b| - 1] == a + b[..|b| - 1];
      TrimAppend(a, b[..|b| - 1], cutoff);
    }
  }

  lemma {:induction false} TrimSince(start: Tables, run: seq<Report>, earlier: int, cutoff: int)
    requires earlier <= cutoff
    ensures Trim(SamplesSince(start, run, earlier), cutoff) == SamplesSince(start, run, cutoff)
  {
    if run != [] {
      var front, r := run[..|run| - 1], run[|run| - 1];
      var samples := SamplesOf(r.endpoint, r.peers, r.at);
      TrimSince(start, front, earlier, cutoff);
      TrimAppend(SamplesSince(start, front, earlier), samples, cutoff);
      TrimSamples(samples, r.at, cutoff);
    }
  }

  lemma {:induction false} NoneAccepted(start: Tables, run: seq<Report>, cutoff: int)
    requires LastAcceptedAt(start, run).None?
    ensures SamplesSince(start, run, cutoff) == [] && After(start, run) == start
  {
    if run != [] {
      NoneAccepted(start, run[..|run| - 1], cutoff);
    }
  }

  lemma {:induction false} LastAcceptedBefore(start: Tables, run: seq<Report>, at: int)
    requires Clocked(run) && (run != [] ==> run[|run| - 1].at <= at)
    ensures LastAcceptedAt(start, run).Some? ==> LastAcceptedAt(start, run).value <= at
  {
    if run != [] {
      LastAcceptedBefore(start, run[..|run| - 1], at);
    }
  }

  lemma UploadHistory(t: Tables, endpoint: int, peers: seq<Peer>, at: int)
    ensures Replace(t, endpoint, peers, at).history
            == if Accepts(t, endpoint, peers) then Trim(t.history, at - RETENTION) + SamplesOf(endpoint, peers, at)
               else t.history
  {
    TrimAppend(t.history, SamplesOf(endpoint, peers, at), at - RETENTION);
    TrimSamples(SamplesOf(endpoint, peers, at), at, at - RETENTION);
  }

  lemma AcceptsStay(start: Tables, run: seq<Report>, endpoint: int, peers: seq<Peer>)
    ensures Accepts(After(start, run), endpoint, peers) == Accepts(start, endpoint, peers)
  {
    EndpointsStay(start, run);
  }

  /** With a clock that does not run backwards, the history is the samples of the last fourteen days. */
  lemma {:induction false} HistoryIsWindow(start: Tables, run: seq<Report>)
    requires Fresh(start) && Clocked(run)
    ensures After(start, run).history
            == match LastAcceptedAt(start, run)
               case None => []
               case Some(at) => SamplesSince(start, run, at - RETENTION)
  {
    hide Replace, SamplesOf, NoKeyTwice, Accepts;
    if run != [] {
      var front, r := run[..|run| - 1], run[|run| - 1];
      HistoryIsWindow(start, front);
      AcceptsStay(start, front, r.endpoint, r.peers);
      UploadHistory(After(start, front), r.endpoint, r.peers, r.at);
      if Accepts(start, r.endpoint, r.peers) {
        var cutoff := r.at - RETENTION;
        LastAcceptedBefore(start, front, r.at);
        if LastAcceptedAt(start, front).None? {
          NoneAccepted(start, front, cutoff);
        } else {
          TrimSince(start, front, LastAcceptedAt(start, front).value - RETENTION, cutoff);
        }
      }
    }
  }
}
