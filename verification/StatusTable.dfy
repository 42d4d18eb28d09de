/**
  The status table of an endpoint (buildStatus) and the drawer of one peer (handlePeerDetail): each
  classifies a key in its own way, and both agree with what the roster and the report say of it.
*/
module StatusTable {
  import opened Basics
  import opened MachineStatus
  import opened Routes
  import opened Roster

  /** A peer of the last report; a handshake that is not positive is none, and an empty list is None. */
  datatype Reported = Reported(key: Key, handshake: int, allowed: Option<Parts>)

  datatype PeerState = Online | Offline | Missing | Unlinked | Extra

  datatype PeerRow = PeerRow(key: Key, state: PeerState, mismatch: bool)

  datatype Table = Table(peers: seq<PeerRow>, onlineN: nat, missing: nat, unlinked: nat, extra: nat)

  /** A handshake younger than three minutes. */
  predicate IsOnline(handshake: int, now: int) {
    handshake > 0 && now - handshake < 180
  }

  // ---- what the roster and the report say

  ghost predicate IsReport(reported: seq<Reported>) {
    && (forall i, j :: 0 <= i < j < |reported| ==> reported[i].key != reported[j].key)
    && (forall i :: 0 <= i < |reported| && reported[i].allowed.Some? ==> ValidParts(reported[i].allowed.value))
  }

  predicate ExpectedHere(machines: map<Key, Machine>, endpointId: int, key: Key) {
    key in machines && machines[key].status == Active && endpointId in machines[key].links
  }

  /** ActiveMachinesForEndpoint */
  ghost predicate AreExpected(expected: seq<Machine>, machines: map<Key, Machine>, endpointId: int) {
    && (forall i, j :: 0 <= i < j < |expected| ==> expected[i].key != expected[j].key)
    && (forall i :: 0 <= i < |expected| ==>
          ExpectedHere(machines, endpointId, expected[i].key) && machines[expected[i].key] == expected[i])
    && (forall k :: ExpectedHere(machines, endpointId, k) ==> exists i :: 0 <= i < |expected| && expected[i].key == k)
  }

  predicate Has(reported: seq<Reported>, key: Key) {
    exists i :: 0 <= i < |reported| && reported[i].key == key
  }

  function Find(reported: seq<Reported>, key: Key): Option<Reported> {
    if reported == [] then None
    else if reported[|reported| - 1].key == key then Some(reported[|reported| - 1])
    else Find(reported[..|reported| - 1], key)
  }

  /** The hub's list does not cover the address the portal assigned. */
  ghost predicate Mismatch(address: Option<nat>, p: Reported)
    requires p.allowed.Some? ==> ValidParts(p.allowed.value)
  {
    address.Some? && p.allowed.Some? && !Written(p.allowed.value, Address(false, address.value))
  }

  /** What to show for a key, if it is expected or reported. */
  ghost function Classified(machines: map<Key, Machine>, endpointId: int, reported: seq<Reported>, key: Key, now: int)
    : Option<PeerRow>
    requires IsReport(reported)
  {
    FindIs(reported, key);
    var p := Find(reported, key);
    if ExpectedHere(machines, endpointId, key) then
      if p.None? then Some(PeerRow(key, Missing, false))
      else Some(PeerRow(key, if IsOnline(p.value.handshake, now) then Online else Offline,
                        Mismatch(machines[key].address, p.value)))
    else if p.None? then None
    else if key in machines then Some(PeerRow(key, Unlinked, Mismatch(machines[key].address, p.value)))
    else Some(PeerRow(key, Extra, false))
  }

  lemma {:induction false} FindIs(reported: seq<Reported>, key: Key)
    requires IsReport(reported)
    ensures Find(reported, key).Some? <==> Has(reported, key)
    ensures Find(reported, key).Some? ==>
              var p := Find(reported, key).value;
              p.key == key && p in reported && (p.allowed.Some? ==> ValidParts(p.allowed.value))
    ensures forall i :: 0 <= i < |reported| && reported[i].key == key ==> Find(reported, key) == Some(reported[i])
  {
    hide ValidParts;
    if reported != [] {
      var front, n := reported[..|reported| - 1], |reported| - 1;
      FindIs(front, key);
      assert reported[..n + 1] == reported;
      HasSnoc(reported, n);
      forall i | 0 <= i < |reported| && reported[i].key == key ensures Find(reported, key) == Some(reported[i]) {
        if i < n {
          assert front[i] == reported[i];
        }
      }
    }
  }

  // ---- the helper

  /** allowedCovers: exactly when some part of the list contains the address as written. */
  method AllowedCovers(list: Parts, a: Address) returns (covers: bool)
    requires ValidParts(list)
    ensures covers == Written(list, a)
  {
    for i := 0 to |list|
      invariant !Written(list[..i], a)
    {
      assert list[..i + 1] == list[..i] + [list[i]];
      WrittenSnoc(list[..i], list[i], a);
      match list[i] {
        case Network(p) =>
          if Covers(p, a) {
            return true;
          }
        case Host(h) =>
          if h == a {
            return true;
          }
        case _ =>
      }
    }
    assert list[..|list|] == list;
    covers := false;
  }

  method AddrMismatch(address: Option<nat>, p: Reported) returns (mismatch: bool)
    requires p.allowed.Some? ==> ValidParts(p.allowed.value)
    ensures mismatch == Mismatch(address, p)
  {
    mismatch := false;
    if address.Some? && p.allowed.Some? {
      var covers := AllowedCovers(p.allowed.value, Address(false, address.value));
      mismatch := !covers;
    }
  }

  // ---- the table

  function Count(peers: seq<PeerRow>, state: PeerState): nat {
    if peers == [] then 0
    else Count(peers[..|peers| - 1], state) + if peers[|peers| - 1].state == state then 1 else 0
  }

  lemma CountSnoc(peers: seq<PeerRow>, row: PeerRow)
    ensures forall state :: Count(peers + [row], state) == Count(peers, state) + if row.state == state then 1 else 0
  {
    assert (peers + [row])[..|peers|] == peers;
  }

  /** The reported keys that are not expected. */
  function Unexpected(machines: map<Key, Machine>, endpointId: int, reported: seq<Reported>): seq<Key> {
    if reported == [] then []
    else
      var rest, key := Unexpected(machines, endpointId, reported[..|reported| - 1]), reported[|reported| - 1].key;
      if ExpectedHere(machines, endpointId, key) then rest else rest + [key]
  }

  ghost predicate CountsMatch(t: Table) {
    && t.onlineN == Count(t.peers, Online) && t.missing == Count(t.peers, Missing)
    && t.unlinked == Count(t.peers, Unlinked) && t.extra == Count(t.peers, Extra)
  }

  ghost predicate Listed(peers: seq<PeerRow>, key: Key) {
    exists i :: 0 <= i < |peers| && peers[i].key == key
  }

  /** One row a key, each the classification of its key. */
  ghost predicate RowsRight(peers: seq<PeerRow>, machines: map<Key, Machine>, endpointId: int,
                            reported: seq<Reported>, now: int)
    requires IsReport(reported)
  {
    && (forall i, j :: 0 <= i < j < |peers| ==> peers[i].key != peers[j].key)
    && (forall i :: 0 <= i < |peers| ==>
          Classified(machines, endpointId, reported, peers[i].key, now) == Some(peers[i]))
  }

  lemma AddRow(peers: seq<PeerRow>, row: PeerRow, machines: map<Key, Machine>, endpointId: int,
               reported: seq<Reported>, now: int)
    requires IsReport(reported) && RowsRight(peers, machines, endpointId, reported, now)
    requires Classified(machines, endpointId, reported, row.key, now) == Some(row) && !Listed(peers, row.key)
    ensures RowsRight(peers + [row], machines, endpointId, reported, now)
    ensures forall k :: Listed(peers + [row], k) <==> Listed(peers, k) || k == row.key
  {
    hide Classified;
    var longer := peers + [row];
    assert longer[|peers|] == row && forall i :: 0 <= i < |peers| ==> longer[i] == peers[i];
    forall k | Listed(peers, k) ensures Listed(longer, k) {
      var i :| 0 <= i < |peers| && peers[i].key == k;
      assert longer[i].key == k;
    }
  }

  /** The rows of the expected machines. */
  method ExpectedRows(expected: seq<Machine>, machines: map<Key, Machine>, endpointId: int,
                      reported: seq<Reported>, now: int)
    returns (t: Table)
    requires IsReport(reported) && AreExpected(expected, machines, endpointId)
    ensures RowsRight(t.peers, machines, endpointId, reported, now) && CountsMatch(t)
    ensures forall k :: Listed(t.peers, k) <==> ExpectedHere(machines, endpointId, k)
    ensures Count(t.peers, Online) + Count(t.peers, Offline) + Count(t.peers, Missing) == |expected|
    ensures Count(t.peers, Unlinked) == Count(t.peers, Extra) == 0
  {
    hide Classified, ValidParts, Listed, RowsRight, Count;
    t := Table([], 0, 0, 0, 0);
    EmptyTable(machines, endpointId, reported, now);
    for n := 0 to |expected|
      invariant RowsRight(t.peers, machines, endpointId, reported, now) && CountsMatch(t)
      invariant forall k :: Listed(t.peers, k) <==> exists i :: 0 <= i < n && expected[i].key == k
      invariant Count(t.peers, Online) + Count(t.peers, Offline) + Count(t.peers, Missing) == n
      invariant Count(t.peers, Unlinked) == Count(t.peers, Extra) == 0
    {
      var m := expected[n];
      var row := ExpectedRow(m, machines, endpointId, reported, now);
      CountSnoc(t.peers, row);
      AddRow(t.peers, row, machines, endpointId, reported, now);
      t := Table(t.peers + [row], t.onlineN + (if row.state == Online then 1 else 0),
                 t.missing + (if row.state == Missing then 1 else 0), t.unlinked, t.extra);
    }
  }

  method ExpectedRow(m: Machine, machines: map<Key, Machine>, endpointId: int, reported: seq<Reported>, now: int)
    returns (row: PeerRow)
    requires IsReport(reported) && ExpectedHere(machines, endpointId, m.key) && machines[m.key] == m
    ensures row.key == m.key && Classified(machines, endpointId, reported, m.key, now) == Some(row)
    ensures row.state in {Online, Offline, Missing}
  {
    FindIs(reported, m.key);
    var p := Find(reported, m.key);
    if p.Some? {
      var mismatch := AddrMismatch(m.address, p.value);
      row := PeerRow(m.key, if IsOnline(p.value.handshake, now) then Online else Offline, mismatch);
    } else {
      row := PeerRow(m.key, Missing, false);
    }
  }

  method UnexpectedRow(p: Reported, machines: map<Key, Machine>, endpointId: int, reported: seq<Reported>, now: int)
    returns (row: PeerRow)
    requires IsReport(reported) && p in reported && !ExpectedHere(machines, endpointId, p.key)
    ensures row.key == p.key && Classified(machines, endpointId, reported, p.key, now) == Some(row)
    ensures row.state in {Unlinked, Extra}
  {
    FindIs(reported, p.key);
    if p.key in machines {
      var mismatch := AddrMismatch(machines[p.key].address, p);
      row := PeerRow(p.key, Unlinked, mismatch);
    } else {
      row := PeerRow(p.key, Extra, false);
    }
  }

  /**
    One row for each key that is expected or reported, and no other; the counts partition the expected
    machines and the unexpected peers.
  */
  method BuildStatus(expected: seq<Machine>, machines: map<Key, Machine>, endpointId: int, reported: seq<Reported>,
                     now: int)
    returns (t: Table)
    requires IsReport(reported) && AreExpected(expected, machines, endpointId)
    ensures RowsRight(t.peers, machines, endpointId, reported, now) && CountsMatch(t)
    ensures forall k :: Listed(t.peers, k) <==> ExpectedHere(machines, endpointId, k) || Has(reported, k)
    ensures t.onlineN + Count(t.peers, Offline) + t.missing == |expected|
    ensures t.unlinked + t.extra == |Unexpected(machines, endpointId, reported)|
  {
    hide Classified, ValidParts, Listed, RowsRight, Count, Has, AreExpected;
    t := ExpectedRows(expected, machines, endpointId, reported, now);
    NoneReported();
    for n := 0 to |reported|
      invariant RowsRight(t.peers, machines, endpointId, reported, now) && CountsMatch(t)
      invariant forall k :: Listed(t.peers, k) <==> ExpectedHere(machines, endpointId, k) || Has(reported[..n], k)
      invariant t.onlineN + Count(t.peers, Offline) + t.missing == |expected|
      invariant t.unlinked + t.extra == |Unexpected(machines, endpointId, reported[..n])|
    {
      var p := reported[n];
      assert reported[..n + 1][..n] == reported[..n];
      HasSnoc(reported, n);
      if !ExpectedHere(machines, endpointId, p.key) {
        var row := UnexpectedRow(p, machines, endpointId, reported, now);
        CountSnoc(t.peers, row);
        AddRow(t.peers, row, machines, endpointId, reported, now);
        t := Table(t.peers + [row], t.onlineN, t.missing, t.unlinked + (if row.state == Unlinked then 1 else 0),
                   t.extra + (if row.state == Extra then 1 else 0));
      }
    }
    assert reported[..|reported|] == reported;
  }

  lemma NoneReported()
    ensures forall k :: !Has([], k)
  {
  }

  lemma EmptyTable(machines: map<Key, Machine>, endpointId: int, reported: seq<Reported>, now: int)
    requires IsReport(reported)
    ensures RowsRight([], machines, endpointId, reported, now)
    ensures forall k :: !Listed([], k)
    ensures forall state :: Count([], state) == 0
  {
  }

  lemma HasSnoc(reported: seq<Reported>, n: nat)
    requires IsReport(reported) && n < |reported|
    ensures forall k :: Has(reported[..n + 1], k) <==> Has(reported[..n], k) || k == reported[n].key
    ensures !Has(reported[..n], reported[n].key)
  {
    var longer := reported[..n + 1];
    assert longer[n] == reported[n] && forall i :: 0 <= i < n ==> longer[i] == reported[..n][i];
    forall k | Has(reported[..n], k) ensures Has(longer, k) {
      var i :| 0 <= i < n && reported[..n][i].key == k;
      assert longer[i].key == k;
    }
  }

  // ---- the drawer

  /** The drawer's own classification: a 404 is None. */
  method PeerDetail(machines: map<Key, Machine>, endpointId: int, reported: seq<Reported>, key: Key, now: int)
    returns (d: Option<PeerRow>)
    requires IsReport(reported)
    ensures d == Classified(machines, endpointId, reported, key, now)
  {
    FindIs(reported, key);
    var found := FindReported(reported, key);
    var known, pending, disabled, linkedHere := false, false, false, false;
    var address: Option<nat> := None;
    var state := Missing;
    if key in machines {
      var m := machines[key];
      known, pending, disabled, address := true, m.status == Pending, m.status == Disabled, m.address;
      linkedHere := endpointId in m.links;
      if found.None? {
        if pending || disabled || !linkedHere {
          return None;
        }
        state := Missing;
      }
    } else if found.None? {
      return None;
    }
    var mismatch := false;
    if found.Some? {
      if !known {
        state := Extra;
      } else if pending || disabled || !linkedHere {
        state := Unlinked;
      } else if IsOnline(found.value.handshake, now) {
        state := Online;
      } else {
        state := Offline;
      }
      mismatch := AddrMismatch(address, found.value);
    }
    d := Some(PeerRow(key, state, mismatch));
  }

  method FindReported(reported: seq<Reported>, key: Key) returns (found: Option<Reported>)
    requires IsReport(reported)
    ensures found == Find(reported, key)
  {
    FindIs(reported, key);
    for i := 0 to |reported|
      invariant forall j :: 0 <= j < i ==> reported[j].key != key
    {
      if reported[i].key == key {
        return Some(reported[i]);
      }
    }
    found := None;
  }

  /** The drawer answers exactly for the keys of the table, with the row the table shows. */
  lemma DrawerAgreesWithTable(t: Table, d: Option<PeerRow>, machines: map<Key, Machine>, endpointId: int,
                              reported: seq<Reported>, key: Key, now: int)
    requires IsReport(reported) && RowsRight(t.peers, machines, endpointId, reported, now)
    requires forall k :: Listed(t.peers, k) <==> ExpectedHere(machines, endpointId, k) || Has(reported, k)
    requires d == Classified(machines, endpointId, reported, key, now)
    ensures d.Some? <==> Listed(t.peers, key)
    ensures forall i :: 0 <= i < |t.peers| && t.peers[i].key == key ==> d == Some(t.peers[i])
  {
    FindIs(reported, key);
  }

  // ---- what a row says

  ghost predicate ReportedOnline(reported: seq<Reported>, key: Key, now: int) {
    exists p :: p in reported && p.key == key && p.handshake > 0 && now - p.handshake < 3 * 60
  }

  ghost predicate ReportedElsewhere(reported: seq<Reported>, key: Key, address: nat)
    requires IsReport(reported)
  {
    exists p :: p in reported && p.key == key && p.allowed.Some? && !Written(p.allowed.value, Address(false, address))
  }

  /**
    The state of a row: an active machine linked here is online with a handshake within three minutes, offline if it is
    reported without one, and missing if it is not reported; a key reported besides is unlinked if a machine has it, and
    extra otherwise. The flag says that the hub's list leaves the machine's address out.
  */
  lemma RowSays(t: Table, machines: map<Key, Machine>, endpointId: int, reported: seq<Reported>, now: int, i: nat)
    requires IsReport(reported) && RowsRight(t.peers, machines, endpointId, reported, now) && i < |t.peers|
    ensures var row := t.peers[i];
            var here := row.key in machines && machines[row.key].status == Active
                        && endpointId in machines[row.key].links;
            && (row.state == Online <==> here && ReportedOnline(reported, row.key, now))
            && (row.state == Offline <==> here && Has(reported, row.key) && !ReportedOnline(reported, row.key, now))
            && (row.state == Missing <==> here && !Has(reported, row.key))
            && (row.state == Unlinked <==> !here && row.key in machines)
            && (row.state == Extra <==> row.key !in machines)
            && (row.mismatch <==> row.key in machines && machines[row.key].address.Some?
                                  && ReportedElsewhere(reported, row.key, machines[row.key].address.value))
  {
    hide Written, ValidParts;
    var row := t.peers[i];
    FindIs(reported, row.key);
    forall p | p in reported && p.key == row.key ensures Find(reported, row.key) == Some(p) {
      var k :| 0 <= k < |reported| && reported[k] == p;
    }
  }

  function RowsIn(peers: seq<PeerRow>, state: PeerState): set<int> {
    set i | 0 <= i < |peers| && peers[i].state == state
  }

  lemma RowsInSnoc(peers: seq<PeerRow>, row: PeerRow, state: PeerState)
    ensures RowsIn(peers + [row], state) == RowsIn(peers, state) + if row.state == state then {|peers|} else {}
  {
  }

  /** A count is the number of rows in that state. */
  lemma {:induction false} CountIs(peers: seq<PeerRow>, state: PeerState)
    ensures Count(peers, state) == |RowsIn(peers, state)|
  {
    if peers != [] {
      var front, last := peers[..|peers| - 1], peers[|peers| - 1];
      CountIs(front, state);
      RowsInSnoc(front, last, state);
      assert peers == front + [last];
    }
  }
}
