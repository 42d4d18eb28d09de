/**
  What a concentrator is told to route, in any reachable state of the roster: the peers read back from its own config
  and from both text forms of the expected peers. The text of an address and the parser of a list are parameters.
*/
module HubRoutes {
  import opened Ipam
  import opened Routes
  import opened Roster
  import Basics
  import ClientRoutes
  import Configs

  /** The text of an IPv4 address followed by a length is the prefix of that length. */
  ghost predicate ReadsPrefix(parse: string -> Parts, show: nat -> string, a: nat, bits: nat) {
    parse(show(a) + "/" + Configs.Decimal(bits)) == [Network(Prefix(false, a, bits))]
  }

  ghost predicate ShowsAddresses(parse: string -> Parts, show: nat -> string) {
    forall a: nat :: a < ADDRESS_SPACE ==>
      && show(a) != "" && '/' !in show(a) && Configs.NoNewline(show(a))
      && forall bits: nat :: bits <= 32 ==> ReadsPrefix(parse, show, a, bits)
  }

  /** ActiveMachinesForEndpoint: each machine the endpoint expects once, with its key and the text of its address. */
  ghost predicate AreExpected(s: State, endpointId: int, show: nat -> string, ids: seq<int>,
                              rows: seq<Configs.Machine>) {
    && NoRepeats(ids) && |rows| == |ids|
    && (forall id :: id in ids <==> Expected(s, endpointId, id))
    && forall i :: 0 <= i < |ids| ==>
         && ids[i] in s.machines && rows[i].publicKey == s.machines[ids[i]].key
         && s.machines[ids[i]].address.Some? && rows[i].address == show(s.machines[ids[i]].address.value)
  }

  /** The list names the address and nothing else. */
  ghost predicate OnlyAddress(parts: Parts, value: nat)
    requires ValidParts(parts)
  {
    forall a: Address :: ValidAddress(a) ==> (Written(parts, a) <==> a == Address(false, value))
  }

  lemma HostRoute(parse: string -> Parts, show: nat -> string, value: nat)
    requires ClientRoutes.IsParser(parse) && ShowsAddresses(parse, show) && value < ADDRESS_SPACE
    ensures OnlyAddress(parse(Configs.AllowedOf(show(value))), value)
  {
    assert ReadsPrefix(parse, show, value, 32);
    ThirtyTwo();
    assert show(value) + "/" + "32" == show(value) + "/32";
    var parts := parse(Configs.AllowedOf(show(value)));
    assert parts == [Network(Prefix(false, value, 32))];
    forall a: Address | ValidAddress(a) ensures Written(parts, a) <==> a == Address(false, value) {
      assert parts[0].Network?;
    }
  }

  lemma ThirtyTwo()
    ensures Configs.Decimal(32) == "32"
  {
    assert Configs.Decimal(3) == "3";
  }

  /**
    The peers a reader gets: one for each expected machine, with its key, and with its own address in the AllowedIPs
    and no other; so no address is in those of two peers.
  */
  ghost predicate RoutesEachOnce(s: State, parse: string -> Parts, ids: seq<int>, peers: seq<(string, string)>) {
    && |peers| == |ids|
    && (forall i :: 0 <= i < |ids| ==>
          && ids[i] in s.machines && s.machines[ids[i]].address.Some? && ValidParts(parse(peers[i].1))
          && peers[i].0 == s.machines[ids[i]].key
          && OnlyAddress(parse(peers[i].1), s.machines[ids[i]].address.value))
    && (forall i, j, a: Address :: 0 <= i < j < |ids| && ValidAddress(a) ==>
          !(Written(parse(peers[i].1), a) && Written(parse(peers[j].1), a)))
  }

  lemma PeersRouteOnce(cfg: Config, run: seq<Action>, parse: string -> Parts, show: nat -> string, endpointId: int,
                       ids: seq<int>, rows: seq<Configs.Machine>)
    requires cfg.pool.Valid() && forall k :: 0 <= k < |run| ==> ValidAction(run[k])
    requires ClientRoutes.IsParser(parse) && ShowsAddresses(parse, show)
    requires AreExpected(After(cfg, run), endpointId, show, ids, rows)
    ensures RoutesEachOnce(After(cfg, run), parse, ids, Configs.PeersOf(rows))
    ensures forall i :: 0 <= i < |rows| ==> Configs.NoNewline(rows[i].address)
  {
    hide Inv, After, Written, Configs.AllowedOf;
    var s, peers := After(cfg, run), Configs.PeersOf(rows);
    forall i | 0 <= i < |ids|
      ensures s.machines[ids[i]].address.value < ADDRESS_SPACE
      ensures OnlyAddress(parse(peers[i].1), s.machines[ids[i]].address.value)
    {
      assert ids[i] in ids;
      ExpectedPeersAreVetted(cfg, run, endpointId, ids[i]);
      UsableIff(cfg.pool, s.machines[ids[i]].address.value, []);
      HostRoute(parse, show, s.machines[ids[i]].address.value);
    }
    forall i, j, a: Address | 0 <= i < j < |ids| && ValidAddress(a)
      ensures !(Written(parse(peers[i].1), a) && Written(parse(peers[j].1), a))
    {
      assert ids[i] in ids && ids[i] != ids[j];
      ExpectedPeersAreVetted(cfg, run, endpointId, ids[i]);
    }
  }

  /** In every reachable state the config of a concentrator routes each expected machine's address to it alone. */
  lemma ConcentratorRoutesEachOnce(cfg: Config, run: seq<Action>, parse: string -> Parts, show: nat -> string,
                                   endpointId: int, ids: seq<int>, rows: seq<Configs.Machine>, e: Configs.Endpoint,
                                   port: Basics.Option<string>)
    requires cfg.pool.Valid() && forall k :: 0 <= k < |run| ==> ValidAction(run[k])
    requires ClientRoutes.IsParser(parse) && ShowsAddresses(parse, show)
    requires AreExpected(After(cfg, run), endpointId, show, ids, rows)
    requires Configs.CleanHub(e, port) && forall i :: 0 <= i < |rows| ==> Configs.NoNewline(rows[i].publicKey)
    ensures var text := Configs.Unlines(Configs.HubLines(e, port) + Configs.Joined(Configs.ConcentratorSections(rows)));
            RoutesEachOnce(After(cfg, run), parse, ids, Configs.ReadConfig(text))
  {
    hide RoutesEachOnce, After, Configs.ReadConfig, Configs.Unlines, Configs.HubLines, Configs.Joined, AreExpected;
    PeersRouteOnce(cfg, run, parse, show, endpointId, ids, rows);
    Configs.ConcentratorConfigReads(e, port, rows);
  }

  /** The same of the peer sections of expected-peers. */
  lemma WgRoutesEachOnce(cfg: Config, run: seq<Action>, parse: string -> Parts, show: nat -> string, endpointId: int,
                         ids: seq<int>, rows: seq<Configs.Machine>)
    requires cfg.pool.Valid() && forall k :: 0 <= k < |run| ==> ValidAction(run[k])
    requires ClientRoutes.IsParser(parse) && ShowsAddresses(parse, show)
    requires AreExpected(After(cfg, run), endpointId, show, ids, rows)
    requires forall i :: 0 <= i < |rows| ==> Configs.NoNewline(rows[i].publicKey)
    ensures RoutesEachOnce(After(cfg, run), parse, ids,
                           Configs.ReadConfig(Configs.Unlines(Configs.Joined(Configs.WgSections(rows)))))
  {
    hide RoutesEachOnce, After, Configs.ReadConfig, Configs.Unlines, Configs.Joined, AreExpected;
    PeersRouteOnce(cfg, run, parse, show, endpointId, ids, rows);
    Configs.ExpectedPeersWgReads(rows);
  }

  /** The same of the tab-separated form. */
  lemma TsvRoutesEachOnce(cfg: Config, run: seq<Action>, parse: string -> Parts, show: nat -> string, endpointId: int,
                          ids: seq<int>, rows: seq<Configs.Machine>)
    requires cfg.pool.Valid() && forall k :: 0 <= k < |run| ==> ValidAction(run[k])
    requires ClientRoutes.IsParser(parse) && ShowsAddresses(parse, show)
    requires AreExpected(After(cfg, run), endpointId, show, ids, rows)
    requires forall i :: 0 <= i < |rows| ==> Configs.NoNewline(rows[i].publicKey) && '\t' !in rows[i].publicKey
    ensures RoutesEachOnce(After(cfg, run), parse, ids, Configs.ReadTsv(Configs.Unlines(Configs.TsvLines(rows))))
  {
    hide RoutesEachOnce, After, Configs.ReadTsv, Configs.Unlines, Configs.TsvLines, AreExpected;
    PeersRouteOnce(cfg, run, parse, show, endpointId, ids, rows);
    Configs.ExpectedPeersTsvReads(rows);
  }
}
