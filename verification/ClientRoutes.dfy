/**
  What a client is told to route: the text of its config, read back line by line, in any reachable state of the
  roster. Parsing one AllowedIPs text into parts is a parameter.
*/
module ClientRoutes {
  import opened Routes
  import opened Roster
  import Configs

  /** strings.Split, strings.TrimSpace and netip on the texts the two packages share. */
  ghost predicate IsParser(parse: string -> Parts) {
    && parse("") == [Blank] && parse(Configs.DEFAULT_ALLOWED) == DEFAULT_ALLOWED_IPS
    && forall text :: ValidParts(parse(text))
  }

  /** The endpoints of a machine as EndpointsForMachine lists them, in some order: ids, and rows with their texts. */
  ghost predicate AreEndpointsOf(s: State, id: int, parse: string -> Parts, ids: seq<int>,
                                 rows: seq<Configs.Endpoint>) {
    && id in s.machines && NoRepeats(ids) && |rows| == |ids|
    && forall i :: 0 <= i < |ids| ==>
         && ids[i] in s.machines[id].links && ids[i] in s.endpoints
         && rows[i].publicKey == s.endpoints[ids[i]].key && parse(rows[i].allowedIPs) == s.endpoints[ids[i]].allowed
  }

  /** What is printed for an endpoint covers no more than the list the checks look at. */
  lemma PrintedIsAllowed(parse: string -> Parts, text: string, e: Endpoint, a: Address)
    requires IsParser(parse) && ValidEndpoint(e) && parse(text) == e.allowed && ValidAddress(a)
    ensures Written(parse(Configs.OrDefault(text)), a) ==> InList(AllowedOf(e), a)
  {
    hide Written, InList;
    ParsedCovers(OrDefault(e.allowed), a);
    BlankCovers(a);
  }

  lemma BlankCovers(a: Address)
    ensures !Written([Blank], a)
  {
  }

  /**
    In every reachable state the config of a machine, as printed, names each of its endpoints with its key, and no
    address is in the AllowedIPs of two of its peers.
  */
  lemma NoAddressRoutedTwice(cfg: Config, run: seq<Action>, parse: string -> Parts, id: int, m: Configs.Machine,
                             ids: seq<int>, rows: seq<Configs.Endpoint>, a: Address)
    requires cfg.pool.Valid() && forall k :: 0 <= k < |run| ==> ValidAction(run[k])
    requires IsParser(parse) && AreEndpointsOf(After(cfg, run), id, parse, ids, rows) && ValidAddress(a)
    requires Configs.NoNewline(m.address) && Configs.CleanEndpoints(rows)
    ensures var peers := Configs.ReadConfig(Configs.ClientText(m, rows));
            && |peers| == |ids|
            && (forall i :: 0 <= i < |ids| ==> peers[i].0 == After(cfg, run).endpoints[ids[i]].key)
            && (forall i, j :: 0 <= i < j < |ids| ==> !(Written(parse(peers[i].1), a) && Written(parse(peers[j].1), a)))
  {
    hide Configs.ClientText, Configs.CleanEndpoints, Written, InList, Configs.OrDefault;
    Configs.ClientConfigReads(m, rows);
    var s := After(cfg, run);
    var peers := Configs.ReadConfig(Configs.ClientText(m, rows));
    forall i, j | 0 <= i < j < |ids| ensures !(Written(parse(peers[i].1), a) && Written(parse(peers[j].1), a)) {
      LinksShareNoAddress(cfg, run, id, ids[i], ids[j], a);
      PrintedIsAllowed(parse, rows[i].allowedIPs, s.endpoints[ids[i]], a);
      PrintedIsAllowed(parse, rows[j].allowedIPs, s.endpoints[ids[j]], a);
    }
  }
}
