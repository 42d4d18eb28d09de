/**
  The generated WireGuard texts, and readers that recover the peers from them line by line. Splitting
  host and port is a parameter; keys, addresses and the other validated fields hold no newline, while
  names and owners are arbitrary.
*/
module Configs {
  import opened Basics

  datatype Machine = Machine(name: string, owner: string, publicKey: string, address: string)

  datatype Endpoint = Endpoint(name: string, publicKey: string, hostPort: string, allowedIPs: string, dns: string,
                               mtu: int, keepalive: int, tunnelIP: string)

  // ---- text

  predicate NoNewline(s: string) {
    forall i :: 0 <= i < |s| ==> s[i] != '\n'
  }

  predicate IsControl(c: char) {
    c < ' ' || '\U{7f}' <= c <= '\U{9f}'
  }

  function SanitizeComment(s: string): (r: string)
    ensures |r| == |s| && forall i :: 0 <= i < |s| ==> !IsControl(r[i]) && (!IsControl(s[i]) ==> r[i] == s[i])
  {
    if s == "" then ""
    else SanitizeComment(s[..|s| - 1]) + [if IsControl(s[|s| - 1]) then ' ' else s[|s| - 1]]
  }

  function Decimal(n: nat): (r: string)
    ensures NoNewline(r)
  {
    if n < 10 then [DIGITS[n]] else Decimal(n / 10) + [DIGITS[n % 10]]
  }

  const DIGITS := "0123456789"

  function Unlines(lines: seq<string>): string {
    if lines == [] then "" else Unlines(lines[..|lines| - 1]) + lines[|lines| - 1] + "\n"
  }

  /** The lines of a text; what follows the last newline is a line as well. */
  function Lines(text: string): (lines: seq<string>)
    ensures lines != []
  {
    if text == "" then [""]
    else
      var front, c := Lines(text[..|text| - 1]), text[|text| - 1];
      if c == '\n' then front + [""] else front[|front| - 1 := front[|front| - 1] + [c]]
  }

  predicate AllClean(lines: seq<string>) {
    forall i :: 0 <= i < |lines| ==> NoNewline(lines[i])
  }

  lemma {:induction false} LinesAppend(text: string, line: string)
    requires NoNewline(line)
    ensures var lines := Lines(text);
            Lines(text + line) == lines[|lines| - 1 := lines[|lines| - 1] + line]
  {
    var lines := Lines(text);
    if line == "" {
      assert text + line == text && lines[|lines| - 1] + line == lines[|lines| - 1];
    } else {
      var front, c := line[..|line| - 1], line[|line| - 1];
      LinesAppend(text, front);
      assert (text + line)[..|text + line| - 1] == text + front;
      assert line == front + [c] && line[|line| - 1] == c;
      assert lines[|lines| - 1] + line == (lines[|lines| - 1] + front) + [c];
    }
  }

  lemma LinesEnd(text: string)
    ensures Lines(text + "\n") == Lines(text) + [""]
  {
    assert (text + "\n")[..|text|] == text;
  }

  /** Lines without newlines come back from the text. */
  lemma {:induction false} LinesOfUnlines(lines: seq<string>)
    requires AllClean(lines)
    ensures Lines(Unlines(lines)) == lines + [""]
  {
    if lines != [] {
      var front, last := lines[..|lines| - 1], lines[|lines| - 1];
      LinesOfUnlines(front);
      LinesAppend(Unlines(front), last);
      LinesEnd(Unlines(front) + last);
      assert "" + last == last;
      assert (front + [""])[|front| := last] == front + [last];
      assert front + [last] == lines;
    }
  }

  lemma {:induction false} UnlinesAppend(a: seq<string>, b: seq<string>)
    ensures Unlines(a + b) == Unlines(a) + Unlines(b)
  {
    if b == [] {
      assert a + b == a;
    } else {
      var front, last := b[..|b| - 1], b[|b| - 1];
      UnlinesAppend(a, front);
      assert (a + b)[..|a + b| - 1] == a + front;
      assert Unlines(a) + (Unlines(front) + last + "\n") == (Unlines(a) + Unlines(front)) + last + "\n";
    }
  }

  // ---- a reader of configs

  const COMMENT := "# "
  const PEER := "[Peer]"
  const PUBLIC_KEY := "PublicKey = "
  const ALLOWED_IPS := "AllowedIPs = "

  datatype Line = Comment | PeerHeader | OtherHeader | KeyLine(value: string) | AllowedLine(value: string) | Other

  function Kind(line: string): Line {
    if line == "" then Other
    else if line[0] == '#' then Comment
    else if line[0] == '[' then (if line == PEER then PeerHeader else OtherHeader)
    else if PUBLIC_KEY <= line then KeyLine(line[|PUBLIC_KEY|..])
    else if ALLOWED_IPS <= line then AllowedLine(line[|ALLOWED_IPS|..])
    else Other
  }

  /** Inside a peer section the key and the addresses read so far; `done` are the peers before. */
  datatype Reader = Reader(inPeer: bool, key: string, allowed: string, done: seq<(string, string)>) {
    function Peers(): seq<(string, string)> {
      if inPeer then done + [(key, allowed)] else done
    }

    function Step(line: Line): Reader {
      match line
      case PeerHeader => Reader(true, "", "", Peers())
      case OtherHeader => Reader(false, "", "", Peers())
      case KeyLine(value) => if inPeer then this.(key := value) else this
      case AllowedLine(value) => if inPeer then this.(allowed := value) else this
      case _ => this
    }
  }

  function Steps(r: Reader, lines: seq<string>): Reader {
    if lines == [] then r else Steps(r, lines[..|lines| - 1]).Step(Kind(lines[|lines| - 1]))
  }

  /** The peers of a config: their keys and allowed addresses, in order. */
  function ReadConfig(text: string): seq<(string, string)> {
    Steps(Reader(false, "", "", []), Lines(text)).Peers()
  }

  lemma {:induction false} StepsAppend(r: Reader, a: seq<string>, b: seq<string>)
    ensures Steps(r, a + b) == Steps(Steps(r, a), b)
  {
    if b == [] {
      assert a + b == a;
    } else {
      assert (a + b)[..|a + b| - 1] == a + b[..|b| - 1];
      StepsAppend(r, a, b[..|b| - 1]);
    }
  }

  lemma NoSteps(r: Reader)
    ensures Steps(r, []) == r
  {
  }

  lemma StepsOne(r: Reader, line: string)
    ensures Steps(r, [line]) == r.Step(Kind(line))
  {
    assert [line][..0] == [];
  }

  lemma KindOfKey(value: string)
    ensures Kind(PUBLIC_KEY + value) == KeyLine(value)
  {
    assert (PUBLIC_KEY + value)[0] == 'P';
  }

  lemma KindOfAllowed(value: string)
    ensures Kind(ALLOWED_IPS + value) == AllowedLine(value)
  {
    assert (ALLOWED_IPS + value)[0] == 'A' && (ALLOWED_IPS + value)[1] == 'l';
    assert PUBLIC_KEY[0] == 'P';
  }

  lemma KindOfComment(text: string)
    ensures Kind(COMMENT + text) == Comment
  {
    assert (COMMENT + text)[0] == '#';
  }

  /** Any other setting: its second letter tells it from both kinds a reader looks for. */
  lemma KindOfSetting(line: string)
    requires |line| > 1 && line[0] != '#' && line[0] != '[' && line[1] != 'u' && line[1] != 'l'
    ensures Kind(line) == Other
  {
    assert PUBLIC_KEY[1] == 'u' && ALLOWED_IPS[1] == 'l';
  }

  /** A peer section: its header, a comment, the key and the addresses, and settings of no concern. */
  predicate IsSection(section: seq<string>, key: string, allowed: string) {
    && |section| >= 4 && Kind(section[0]) == PeerHeader && Kind(section[1]) == Comment
    && (exists i, j :: 2 <= i < |section| && 2 <= j < |section| && i != j
                       && Kind(section[i]) == KeyLine(key) && Kind(section[j]) == AllowedLine(allowed)
                       && forall k :: 2 <= k < |section| && k != i && k != j ==> Kind(section[k]) == Other)
  }

  lemma {:induction false} StepsInSection(r: Reader, section: seq<string>, key: string, allowed: string, n: nat,
                                          i: nat, j: nat)
    requires 2 <= n <= |section| && Kind(section[0]) == PeerHeader && Kind(section[1]) == Comment
    requires 2 <= i < |section| && 2 <= j < |section| && i != j
    requires Kind(section[i]) == KeyLine(key) && Kind(section[j]) == AllowedLine(allowed)
    requires forall k :: 2 <= k < |section| && k != i && k != j ==> Kind(section[k]) == Other
    ensures Steps(r, section[..n]) == Reader(true, if i < n then key else "", if j < n then allowed else "", r.Peers())
  {
    hide Kind;
    assert section[..n][..n - 1] == section[..n - 1];
    if n == 2 {
      assert section[..1] == [section[0]];
      StepsOne(r, section[0]);
    } else {
      StepsInSection(r, section, key, allowed, n - 1, i, j);
    }
  }

  lemma SectionRead(r: Reader, section: seq<string>, key: string, allowed: string)
    requires IsSection(section, key, allowed)
    ensures Steps(r, section).Peers() == r.Peers() + [(key, allowed)]
  {
    hide Kind;
    var i, j :| 2 <= i < |section| && 2 <= j < |section| && i != j
                && Kind(section[i]) == KeyLine(key) && Kind(section[j]) == AllowedLine(allowed)
                && forall k :: 2 <= k < |section| && k != i && k != j ==> Kind(section[k]) == Other;
    assert section[..|section|] == section;
    StepsInSection(r, section, key, allowed, |section|, i, j);
  }

  function Joined(sections: seq<seq<string>>): seq<string> {
    if sections == [] then [] else Joined(sections[..|sections| - 1]) + sections[|sections| - 1]
  }

  /** Sections, blank lines between them allowed, read as one peer each. */
  lemma {:induction false} SectionsRead(r: Reader, sections: seq<seq<string>>, peers: seq<(string, string)>)
    requires |sections| == |peers|
    requires forall i :: 0 <= i < |sections| ==> IsSection(Trimmed(sections[i]), peers[i].0, peers[i].1)
    ensures Steps(r, Joined(sections)).Peers() == r.Peers() + peers
  {
    hide IsSection, Steps, Trimmed, Kind;
    if sections == [] {
      NoSteps(r);
      assert r.Peers() + peers == r.Peers();
    } else {
      var n := |sections| - 1;
      var before := Steps(r, Joined(sections[..n]));
      SectionsRead(r, sections[..n], peers[..n]);
      StepsAppend(r, Joined(sections[..n]), sections[n]);
      TrimmedReads(before, sections[n]);
      SectionRead(before, Trimmed(sections[n]), peers[n].0, peers[n].1);
      assert peers == peers[..n] + [(peers[n].0, peers[n].1)];
    }
  }

  /** Without a blank line at either end. */
  function Trimmed(section: seq<string>): seq<string> {
    if section != [] && section[0] == "" then section[1..]
    else if section != [] && section[|section| - 1] == "" then section[..|section| - 1]
    else section
  }

  lemma TrimmedReads(r: Reader, section: seq<string>)
    ensures Steps(r, Trimmed(section)) == Steps(r, section)
  {
    if section != [] && section[0] == "" {
      StepsAppend(r, [""], section[1..]);
      StepsOne(r, "");
      assert [""] + section[1..] == section;
    }
  }

  // ---- the concentrator's config

  /** A bare address gets the length of a host route. */
  function AllowedOf(address: string): string {
    if address != "" && '/' !in address then address + "/32" else address
  }

  function PeerLines(m: Machine): seq<string> {
    [PEER, COMMENT + (SanitizeComment(m.name) + " (" + SanitizeComment(m.owner) + ")"),
     PUBLIC_KEY + m.publicKey, ALLOWED_IPS + AllowedOf(m.address)]
  }

  const INTERFACE := "[Interface]"
  const HUB_HINT := "Replace with the concentrator's private key"
  const PRIVATE_KEY := "PrivateKey = "
  const HUB_KEY := "<CONCENTRATOR_PRIVATE_KEY>"
  const ADDRESS := "Address = "
  const LISTEN_PORT := "ListenPort = "
  const MTU := "MTU = "

  function HubLines(e: Endpoint, port: Option<string>): seq<string> {
    [INTERFACE, COMMENT + (SanitizeComment(e.name) + " concentrator"), COMMENT + HUB_HINT,
     PRIVATE_KEY + HUB_KEY]
    + (if e.tunnelIP != "" then [ADDRESS + AllowedOf(e.tunnelIP)] else [])
    + (if port.Some? && port.value != "" then [LISTEN_PORT + port.value] else [])
    + (if e.mtu > 0 then [MTU + Decimal(e.mtu)] else [])
  }

  function PeersOf(machines: seq<Machine>): seq<(string, string)> {
    seq(|machines|, i requires 0 <= i < |machines| => (machines[i].publicKey, AllowedOf(machines[i].address)))
  }

  function ConcentratorSections(machines: seq<Machine>): seq<seq<string>> {
    seq(|machines|, i requires 0 <= i < |machines| => [""] + PeerLines(machines[i]))
  }

  method WithPrefix(address: string) returns (r: string)
    ensures r == AllowedOf(address)
  {
    r := address;
    if address != "" && '/' !in address {
      r := r + "/32";
    }
  }

  /** Writes one line to the builder. */
  method WriteLine(start: string, line: string, ghost lines: seq<string>) returns (b: string, ghost lines': seq<string>)
    requires start == Unlines(lines)
    ensures lines' == lines + [line] && b == Unlines(lines + [line])
  {
    b, lines' := start + line + "\n", lines + [line];
    assert lines'[..|lines|] == lines;
  }

  lemma NoLines()
    ensures Unlines([]) == ""
  {
  }

  /** The line that is only there when something is set. */
  method WriteIf(start: string, present: bool, line: string, ghost lines: seq<string>) returns (b: string,
                 ghost lines': seq<string>)
    requires start == Unlines(lines)
    ensures lines' == lines + (if present then [line] else []) && b == Unlines(lines')
    ensures b == Unlines(lines + (if present then [line] else []))
  {
    b, lines' := start, lines;
    assert lines + [] == lines;
    if present {
      b, lines' := WriteLine(start, line, lines);
    }
  }

  method EmitPeer(start: string, m: Machine, ghost lines: seq<string>) returns (b: string)
    requires start == Unlines(lines)
    ensures b == Unlines(lines + PeerLines(m))
  {
    hide Unlines, SanitizeComment, AllowedOf;
    b := start;
    ghost var l := lines;
    b, l := WriteLine(b, PEER, l);
    b, l := WriteLine(b, COMMENT + (SanitizeComment(m.name) + " (" + SanitizeComment(m.owner) + ")"), l);
    b, l := WriteLine(b, PUBLIC_KEY + m.publicKey, l);
    var addr := WithPrefix(m.address);
    b, l := WriteLine(b, ALLOWED_IPS + addr, l);
    assert l == lines + PeerLines(m);
  }

  method EmitHub(e: Endpoint, port: Option<string>) returns (b: string)
    ensures b == Unlines(HubLines(e, port))
  {
    hide SanitizeComment, Decimal, AllowedOf, Unlines;
    b := "";
    ghost var l := [];
    NoLines();
    b, l := WriteLine(b, INTERFACE, l);
    b, l := WriteLine(b, COMMENT + (SanitizeComment(e.name) + " concentrator"), l);
    b, l := WriteLine(b, COMMENT + HUB_HINT, l);
    b, l := WriteLine(b, PRIVATE_KEY + HUB_KEY, l);
    var addr := WithPrefix(e.tunnelIP);
    b, l := WriteIf(b, e.tunnelIP != "", ADDRESS + addr, l);
    b, l := WriteIf(b, port.Some? && port.value != "", LISTEN_PORT + port.GetOr(""), l);
    b, l := WriteIf(b, e.mtu > 0, MTU + Decimal(if e.mtu > 0 then e.mtu else 0), l);
    assert l == HubLines(e, port);
  }

  lemma JoinedOneMore(head: seq<string>, sections: seq<seq<string>>, n: nat)
    requires n < |sections|
    ensures head + Joined(sections[..n + 1]) == head + Joined(sections[..n]) + sections[n]
  {
    assert sections[..n + 1][..n] == sections[..n];
  }

  method ConcentratorConfig(e: Endpoint, port: Option<string>, machines: seq<Machine>) returns (b: string)
    ensures b == Unlines(HubLines(e, port) + Joined(ConcentratorSections(machines)))
  {
    hide Unlines, PeerLines, HubLines;
    b := EmitHub(e, port);
    ghost var lines, sections := HubLines(e, port), ConcentratorSections(machines);
    assert lines + Joined(sections[..0]) == lines;
    for i := 0 to |machines|
      invariant b == Unlines(lines + Joined(sections[..i]))
    {
      ghost var before := lines + Joined(sections[..i]);
      ghost var l;
      b, l := WriteLine(b, "", before);
      b := EmitPeer(b, machines[i], l);
      JoinedOneMore(lines, sections, i);
      assert l + PeerLines(machines[i]) == before + sections[i];
    }
    assert sections[..|machines|] == sections;
  }

  /** What is emitted holds no newline of its own; the labels are sanitised. */
  ghost predicate CleanMachines(machines: seq<Machine>) {
    forall i :: 0 <= i < |machines| ==> NoNewline(machines[i].publicKey) && NoNewline(machines[i].address)
  }

  ghost predicate CleanHub(e: Endpoint, port: Option<string>) {
    NoNewline(e.tunnelIP) && (port.Some? ==> NoNewline(port.value))
  }

  lemma Sanitised(s: string)
    ensures NoNewline(SanitizeComment(s))
  {
    assert IsControl('\n');
  }

  lemma CleanConcat(a: string, b: string)
    requires NoNewline(a) && NoNewline(b)
    ensures NoNewline(a + b)
  {
  }

  lemma CleanAllowed(address: string)
    requires NoNewline(address)
    ensures NoNewline(AllowedOf(address))
  {
  }

  lemma CleanComment(name: string, owner: string)
    ensures NoNewline(SanitizeComment(name) + " (" + SanitizeComment(owner) + ")")
  {
    Sanitised(name);
    Sanitised(owner);
  }

  lemma PeerSection(m: Machine)
    requires NoNewline(m.publicKey) && NoNewline(m.address)
    ensures AllClean(PeerLines(m)) && IsSection(PeerLines(m), m.publicKey, AllowedOf(m.address))
  {
    hide Kind, SanitizeComment, AllowedOf;
    var lines := PeerLines(m);
    CleanComment(m.name, m.owner);
    CleanAllowed(m.address);
    CleanConcat(COMMENT, SanitizeComment(m.name) + " (" + SanitizeComment(m.owner) + ")");
    CleanConcat(PUBLIC_KEY, m.publicKey);
    CleanConcat(ALLOWED_IPS, AllowedOf(m.address));
    PeerIsHeader();
    KindOfComment(SanitizeComment(m.name) + " (" + SanitizeComment(m.owner) + ")");
    KindOfKey(m.publicKey);
    KindOfAllowed(AllowedOf(m.address));
    assert Kind(lines[2]) == KeyLine(m.publicKey) && Kind(lines[3]) == AllowedLine(AllowedOf(m.address));
  }

  lemma PeerIsHeader()
    ensures Kind(PEER) == PeerHeader && NoNewline(PEER)
  {
  }

  lemma {:induction false} CleanJoined(sections: seq<seq<string>>)
    requires forall i :: 0 <= i < |sections| ==> AllClean(sections[i])
    ensures AllClean(Joined(sections))
  {
    if sections != [] {
      CleanJoined(sections[..|sections| - 1]);
    }
  }

  lemma TextReads(head: seq<string>, sections: seq<seq<string>>, peers: seq<(string, string)>)
    requires AllClean(head) && Steps(Reader(false, "", "", []), head).Peers() == []
    requires |sections| == |peers|
    requires forall i :: 0 <= i < |sections| ==>
               AllClean(sections[i]) && IsSection(Trimmed(sections[i]), peers[i].0, peers[i].1)
    ensures ReadConfig(Unlines(head + Joined(sections))) == peers
  {
    hide IsSection, Kind;
    var start := Reader(false, "", "", []);
    CleanJoined(sections);
    LinesOfUnlines(head + Joined(sections));
    StepsAppend(start, head + Joined(sections), [""]);
    StepsOne(Steps(start, head + Joined(sections)), "");
    BlankLine();
    StepsAppend(start, head, Joined(sections));
    SectionsRead(Steps(start, head), sections, peers);
  }

  lemma BlankLine()
    ensures Kind("") == Other
  {
  }

  /** A line that neither opens a section nor breaks into another line. */
  predicate Quiet(line: string) {
    line != "" && line[0] != '[' && NoNewline(line)
  }

  lemma QuietSetting(prefix: string, value: string)
    requires Quiet(prefix) && NoNewline(value)
    ensures Quiet(prefix + value)
  {
    CleanConcat(prefix, value);
  }

  lemma HubIsQuiet(e: Endpoint, port: Option<string>, i: nat)
    requires CleanHub(e, port) && i < |HubLines(e, port)|
    ensures NoNewline(HubLines(e, port)[i]) && (i > 0 ==> Quiet(HubLines(e, port)[i]))
  {
    hide SanitizeComment, Decimal, AllowedOf, Quiet;
    Sanitised(e.name);
    CleanConcat(SanitizeComment(e.name), " concentrator");
    FixedLines();
    QuietSetting(COMMENT, SanitizeComment(e.name) + " concentrator");
    CleanAllowed(e.tunnelIP);
    QuietSetting(ADDRESS, AllowedOf(e.tunnelIP));
    QuietSetting(LISTEN_PORT, if port.Some? then port.value else "");
    QuietSetting(MTU, Decimal(if e.mtu > 0 then e.mtu else 0));
    QuietIsClean(HubLines(e, port)[i]);
  }

  lemma HubHintIsClean()
    ensures NoNewline(HUB_HINT)
  {
  }

  lemma HubKeyIsClean()
    ensures NoNewline(HUB_KEY)
  {
  }

  lemma PrivateKeyIsQuiet()
    ensures Quiet(PRIVATE_KEY)
  {
  }

  lemma SettingsAreQuiet()
    ensures Quiet(COMMENT) && Quiet(ADDRESS) && Quiet(MTU)
  {
  }

  lemma PortIsQuiet()
    ensures Quiet(LISTEN_PORT) && NoNewline(INTERFACE) && NoNewline(" concentrator")
  {
  }

  lemma FixedLines()
    ensures Quiet(COMMENT + HUB_HINT) && Quiet(PRIVATE_KEY + HUB_KEY)
    ensures NoNewline(INTERFACE) && NoNewline(" concentrator")
    ensures Quiet(COMMENT) && Quiet(ADDRESS) && Quiet(LISTEN_PORT) && Quiet(MTU)
  {
    hide Quiet, NoNewline;
    SettingsAreQuiet();
    PortIsQuiet();
    PrivateKeyIsQuiet();
    HubHintIsClean();
    HubKeyIsClean();
    QuietSetting(COMMENT, HUB_HINT);
    QuietSetting(PRIVATE_KEY, HUB_KEY);
  }

  lemma QuietIsClean(line: string)
    ensures Quiet(line) ==> NoNewline(line) && !Kind(line).PeerHeader?
  {
  }

  lemma HubReads(e: Endpoint, port: Option<string>)
    requires CleanHub(e, port)
    ensures AllClean(HubLines(e, port)) && Steps(Reader(false, "", "", []), HubLines(e, port)).Peers() == []
  {
    hide Kind, Steps, Quiet;
    var lines := HubLines(e, port);
    forall i | 0 <= i < |lines| ensures NoNewline(lines[i]) && (i > 0 ==> !Kind(lines[i]).PeerHeader?) {
      HubIsQuiet(e, port, i);
      QuietIsClean(lines[i]);
    }
    HubSteps(lines, |lines|);
  }

  /** Outside a peer section nothing is read. */
  lemma {:induction false} HubSteps(lines: seq<string>, n: nat)
    requires 1 <= n <= |lines| && lines[0] == INTERFACE && forall i :: 1 <= i < |lines| ==> !Kind(lines[i]).PeerHeader?
    ensures var r := Steps(Reader(false, "", "", []), lines[..n]); !r.inPeer && r.done == []
    ensures lines[..|lines|] == lines
  {
    assert lines[..n][..n - 1] == lines[..n - 1];
    if n > 1 {
      HubSteps(lines, n - 1);
    }
  }

  /** A reader of the concentrator's config gets the machines' keys and addresses back, one a machine, in order. */
  lemma ConcentratorConfigReads(e: Endpoint, port: Option<string>, machines: seq<Machine>)
    requires CleanMachines(machines) && CleanHub(e, port)
    ensures ReadConfig(Unlines(HubLines(e, port) + Joined(ConcentratorSections(machines)))) == PeersOf(machines)
  {
    hide HubLines, Unlines, Joined, ReadConfig, PeerLines, IsSection;
    var sections := ConcentratorSections(machines);
    HubReads(e, port);
    forall i | 0 <= i < |sections|
      ensures AllClean(sections[i]) && IsSection(Trimmed(sections[i]), PeersOf(machines)[i].0, PeersOf(machines)[i].1)
    {
      PeerSection(machines[i]);
      assert Trimmed(sections[i]) == PeerLines(machines[i]);
    }
    TextReads(HubLines(e, port), sections, PeersOf(machines));
  }

  // ---- expected-peers

  function WgSections(machines: seq<Machine>): seq<seq<string>> {
    seq(|machines|, i requires 0 <= i < |machines| => PeerLines(machines[i]) + [""])
  }

  method ExpectedPeersWg(machines: seq<Machine>) returns (b: string)
    ensures b == Unlines(Joined(WgSections(machines)))
  {
    hide PeerLines, Unlines;
    b := "";
    NoLines();
    ghost var sections := WgSections(machines);
    for i := 0 to |machines|
      invariant b == Unlines(Joined(sections[..i]))
    {
      ghost var before := Joined(sections[..i]);
      b := EmitPeer(b, machines[i], before);
      ghost var l;
      b, l := WriteLine(b, "", before + PeerLines(machines[i]));
      JoinedOneMore([], sections, i);
      assert [] + Joined(sections[..i + 1]) == Joined(sections[..i + 1]);
      assert l == [] + before + sections[i];
    }
    assert sections[..|machines|] == sections;
  }

  lemma ExpectedPeersWgReads(machines: seq<Machine>)
    requires CleanMachines(machines)
    ensures ReadConfig(Unlines(Joined(WgSections(machines)))) == PeersOf(machines)
  {
    var sections := WgSections(machines);
    forall i | 0 <= i < |sections|
      ensures AllClean(sections[i]) && IsSection(Trimmed(sections[i]), PeersOf(machines)[i].0, PeersOf(machines)[i].1)
    {
      PeerSection(machines[i]);
      assert Trimmed(sections[i]) == PeerLines(machines[i]);
    }
    TextReads([], sections, PeersOf(machines));
    assert [] + Joined(sections) == Joined(sections);
  }

  function TsvLine(m: Machine): string {
    m.publicKey + "\t" + AllowedOf(m.address)
  }

  function TsvLines(machines: seq<Machine>): seq<string> {
    seq(|machines|, i requires 0 <= i < |machines| => TsvLine(machines[i]))
  }

  lemma TsvLineIs(m: Machine)
    ensures TsvLine(m) == m.publicKey + "\t" + AllowedOf(m.address)
  {
  }

  method ExpectedPeersTsv(machines: seq<Machine>) returns (b: string)
    ensures b == Unlines(TsvLines(machines))
  {
    hide Unlines, TsvLine;
    b := "";
    NoLines();
    assert TsvLines(machines[..0]) == [];
    for i := 0 to |machines|
      invariant b == Unlines(TsvLines(machines[..i]))
    {
      var addr := WithPrefix(machines[i].address);
      assert TsvLines(machines[..i + 1]) == TsvLines(machines[..i]) + [TsvLine(machines[i])];
      ghost var l;
      TsvLineIs(machines[i]);
      b, l := WriteLine(b, machines[i].publicKey + "\t" + addr, TsvLines(machines[..i]));
    }
    assert machines[..|machines|] == machines;
  }

  /** Everything before the first tab, and everything after it. */
  function SplitAtTab(line: string, n: nat): (string, string)
    requires n <= |line|
    decreases |line| - n
  {
    if n == |line| then (line, "") else if line[n] == '\t' then (line[..n], line[n + 1..]) else SplitAtTab(line, n + 1)
  }

  function ReadTsv(text: string): seq<(string, string)> {
    var lines := Lines(text);
    seq(|lines| - 1, i requires 0 <= i < |lines| - 1 => SplitAtTab(lines[i], 0))
  }

  lemma {:induction false} SplitsAtFirstTab(key: string, rest: string, n: nat)
    requires '\t' !in key && n <= |key|
    ensures SplitAtTab(key + "\t" + rest, n) == (key, rest)
    decreases |key| - n
  {
    var line := key + "\t" + rest;
    if n < |key| {
      assert line[n] == key[n] && key[n] in key;
      SplitsAtFirstTab(key, rest, n + 1);
    } else {
      assert line[n] == '\t' && line[..n] == key && line[n + 1..] == rest;
    }
  }

  lemma CleanTsv(machines: seq<Machine>)
    requires CleanMachines(machines)
    ensures AllClean(TsvLines(machines))
  {
    hide AllowedOf;
    forall i | 0 <= i < |machines| ensures NoNewline(TsvLines(machines)[i]) {
      CleanAllowed(machines[i].address);
      CleanConcat(machines[i].publicKey, "\t");
      CleanConcat(machines[i].publicKey + "\t", AllowedOf(machines[i].address));
    }
  }

  /** A shell loop over the lines gets the same list. */
  lemma ExpectedPeersTsvReads(machines: seq<Machine>)
    requires CleanMachines(machines) && forall i :: 0 <= i < |machines| ==> '\t' !in machines[i].publicKey
    ensures ReadTsv(Unlines(TsvLines(machines))) == PeersOf(machines)
  {
    hide AllowedOf, Lines, Unlines, SplitAtTab;
    CleanTsv(machines);
    LinesOfUnlines(TsvLines(machines));
    forall i | 0 <= i < |machines| ensures SplitAtTab(TsvLine(machines[i]), 0) == PeersOf(machines)[i] {
      SplitsAtFirstTab(machines[i].publicKey, AllowedOf(machines[i].address), 0);
    }
  }

  // ---- the client's config

  const DEFAULT_ALLOWED := "0.0.0.0/0"
  const CLIENT_HINT := "Replace with the private key" + " generated on this machine"
  const CLIENT_KEY := "<YOUR_PRIVATE_KEY>"
  const DNS := "DNS = "
  const ENDPOINT := "Endpoint = "
  const KEEPALIVE := "PersistentKeepalive = "

  /** The DNS setting of the first endpoint that has one. */
  function FirstDns(endpoints: seq<Endpoint>): string {
    if endpoints == [] then "" else if endpoints[0].dns != "" then endpoints[0].dns else FirstDns(endpoints[1..])
  }

  function FirstMtu(endpoints: seq<Endpoint>): nat {
    if endpoints == [] then 0 else if endpoints[0].mtu > 0 then endpoints[0].mtu else FirstMtu(endpoints[1..])
  }

  function ClientLines(m: Machine, endpoints: seq<Endpoint>): seq<string> {
    [INTERFACE, COMMENT + CLIENT_HINT, PRIVATE_KEY + CLIENT_KEY, ADDRESS + AllowedOf(m.address)]
    + (if FirstDns(endpoints) != "" then [DNS + FirstDns(endpoints)] else [])
    + (if FirstMtu(endpoints) > 0 then [MTU + Decimal(FirstMtu(endpoints))] else [])
  }

  function OrDefault(allowed: string): string {
    if allowed == "" then DEFAULT_ALLOWED else allowed
  }

  function EndpointLines(e: Endpoint): seq<string> {
    [PEER, COMMENT + SanitizeComment(e.name), PUBLIC_KEY + e.publicKey, ENDPOINT + e.hostPort,
     ALLOWED_IPS + OrDefault(e.allowedIPs)]
    + (if e.keepalive > 0 then [KEEPALIVE + Decimal(e.keepalive)] else [])
  }

  function ClientSections(endpoints: seq<Endpoint>): seq<seq<string>> {
    seq(|endpoints|, i requires 0 <= i < |endpoints| => [""] + EndpointLines(endpoints[i]))
  }

  function RoutesOf(endpoints: seq<Endpoint>): seq<(string, string)> {
    seq(|endpoints|, i requires 0 <= i < |endpoints| => (endpoints[i].publicKey, OrDefault(endpoints[i].allowedIPs)))
  }

  method PickDns(endpoints: seq<Endpoint>) returns (dns: string)
    ensures dns == FirstDns(endpoints)
  {
    for i := 0 to |endpoints|
      invariant FirstDns(endpoints) == FirstDns(endpoints[i..])
    {
      if endpoints[i].dns != "" {
        return endpoints[i].dns;
      }
    }
    dns := "";
  }

  method PickMtu(endpoints: seq<Endpoint>) returns (mtu: nat)
    ensures mtu == FirstMtu(endpoints)
  {
    for i := 0 to |endpoints|
      invariant FirstMtu(endpoints) == FirstMtu(endpoints[i..])
    {
      if endpoints[i].mtu > 0 {
        return endpoints[i].mtu;
      }
    }
    mtu := 0;
  }

  method EmitEndpoint(start: string, e: Endpoint, ghost lines: seq<string>) returns (b: string)
    requires start == Unlines(lines)
    ensures b == Unlines(lines + ([""] + EndpointLines(e)))
  {
    hide Unlines, SanitizeComment, Decimal;
    b := start;
    ghost var l := lines;
    b, l := WriteLine(b, "", l);
    b, l := WriteLine(b, PEER, l);
    b, l := WriteLine(b, COMMENT + SanitizeComment(e.name), l);
    b, l := WriteLine(b, PUBLIC_KEY + e.publicKey, l);
    b, l := WriteLine(b, ENDPOINT + e.hostPort, l);
    var allowed := e.allowedIPs;
    if allowed == "" {
      allowed := DEFAULT_ALLOWED;
    }
    b, l := WriteLine(b, ALLOWED_IPS + allowed, l);
    b, l := WriteIf(b, e.keepalive > 0, KEEPALIVE + Decimal(if e.keepalive > 0 then e.keepalive else 0), l);
    assert l == lines + ([""] + EndpointLines(e));
  }

  method EmitInterface(m: Machine, endpoints: seq<Endpoint>) returns (b: string)
    ensures b == Unlines(ClientLines(m, endpoints))
  {
    hide Decimal, AllowedOf, Unlines, FirstDns, FirstMtu;
    b := "";
    ghost var l := [];
    NoLines();
    b, l := WriteLine(b, INTERFACE, l);
    b, l := WriteLine(b, COMMENT + CLIENT_HINT, l);
    b, l := WriteLine(b, PRIVATE_KEY + CLIENT_KEY, l);
    var address := WithPrefix(m.address);
    b, l := WriteLine(b, ADDRESS + address, l);
    var dns := PickDns(endpoints);
    b, l := WriteIf(b, dns != "", DNS + dns, l);
    var mtu := PickMtu(endpoints);
    b, l := WriteIf(b, mtu > 0, MTU + Decimal(mtu), l);
    assert l == ClientLines(m, endpoints);
  }

  function ClientText(m: Machine, endpoints: seq<Endpoint>): string {
    Unlines(ClientLines(m, endpoints) + Joined(ClientSections(endpoints)))
  }

  method ClientConfig(m: Machine, endpoints: seq<Endpoint>) returns (b: string)
    ensures b == ClientText(m, endpoints)
  {
    hide Unlines, ClientLines, EndpointLines;
    b := EmitInterface(m, endpoints);
    ghost var lines, sections := ClientLines(m, endpoints), ClientSections(endpoints);
    assert lines + Joined(sections[..0]) == lines;
    for i := 0 to |endpoints|
      invariant b == Unlines(lines + Joined(sections[..i]))
    {
      b := EmitEndpoint(b, endpoints[i], lines + Joined(sections[..i]));
      JoinedOneMore(lines, sections, i);
    }
    assert sections[..|endpoints|] == sections;
  }

  ghost predicate CleanEndpoints(endpoints: seq<Endpoint>) {
    forall i :: 0 <= i < |endpoints| ==>
      && NoNewline(endpoints[i].publicKey) && NoNewline(endpoints[i].hostPort)
      && NoNewline(endpoints[i].allowedIPs) && NoNewline(endpoints[i].dns)
  }

  lemma {:induction false} CleanDns(endpoints: seq<Endpoint>)
    requires CleanEndpoints(endpoints)
    ensures NoNewline(FirstDns(endpoints))
  {
    if endpoints != [] {
      CleanDns(endpoints[1..]);
    }
  }

  lemma ClientHintStart()
    ensures NoNewline("Replace with the private key")
  {
  }

  lemma ClientHintEnd()
    ensures NoNewline(" generated on this machine")
  {
  }

  lemma ClientKeyIsClean()
    ensures NoNewline(CLIENT_KEY)
  {
  }

  lemma ClientSettings()
    ensures Quiet(DNS) && Quiet(ENDPOINT) && NoNewline(DEFAULT_ALLOWED)
  {
  }

  lemma KeepaliveIsQuiet()
    ensures Quiet(KEEPALIVE)
  {
  }

  lemma ClientFixedLines()
    ensures Quiet(COMMENT + CLIENT_HINT) && Quiet(PRIVATE_KEY + CLIENT_KEY)
  {
    hide Quiet, NoNewline;
    SettingsAreQuiet();
    PrivateKeyIsQuiet();
    ClientHintStart();
    ClientHintEnd();
    ClientKeyIsClean();
    CleanConcat("Replace with the private key", " generated on this machine");
    QuietSetting(COMMENT, CLIENT_HINT);
    QuietSetting(PRIVATE_KEY, CLIENT_KEY);
  }

  lemma ClientIsQuiet(m: Machine, endpoints: seq<Endpoint>, i: nat)
    requires NoNewline(m.address) && CleanEndpoints(endpoints) && i < |ClientLines(m, endpoints)|
    ensures NoNewline(ClientLines(m, endpoints)[i]) && (i > 0 ==> Quiet(ClientLines(m, endpoints)[i]))
  {
    hide Decimal, AllowedOf, Quiet, FirstDns, FirstMtu;
    FixedLines();
    ClientFixedLines();
    ClientSettings();
    CleanAllowed(m.address);
    QuietSetting(ADDRESS, AllowedOf(m.address));
    CleanDns(endpoints);
    QuietSetting(DNS, FirstDns(endpoints));
    QuietSetting(MTU, Decimal(FirstMtu(endpoints)));
    QuietIsClean(ClientLines(m, endpoints)[i]);
  }

  lemma ClientReads(m: Machine, endpoints: seq<Endpoint>)
    requires NoNewline(m.address) && CleanEndpoints(endpoints)
    ensures AllClean(ClientLines(m, endpoints))
    ensures Steps(Reader(false, "", "", []), ClientLines(m, endpoints)).Peers() == []
  {
    hide Kind, Steps, Quiet;
    var lines := ClientLines(m, endpoints);
    forall i | 0 <= i < |lines| ensures NoNewline(lines[i]) && (i > 0 ==> !Kind(lines[i]).PeerHeader?) {
      ClientIsQuiet(m, endpoints, i);
      QuietIsClean(lines[i]);
    }
    HubSteps(lines, |lines|);
  }

  lemma SettingKinds(e: Endpoint)
    ensures Kind(ENDPOINT + e.hostPort) == Other
    ensures e.keepalive > 0 ==> Kind(KEEPALIVE + Decimal(e.keepalive)) == Other
  {
    hide Kind, Decimal;
    assert (ENDPOINT + e.hostPort)[0] == 'E' && (ENDPOINT + e.hostPort)[1] == 'n';
    KindOfSetting(ENDPOINT + e.hostPort);
    if e.keepalive > 0 {
      var line := KEEPALIVE + Decimal(e.keepalive);
      assert line[0] == 'P' && line[1] == 'e';
      KindOfSetting(line);
    }
  }

  lemma EndpointSection(e: Endpoint)
    requires NoNewline(e.publicKey) && NoNewline(e.hostPort) && NoNewline(e.allowedIPs)
    ensures AllClean(EndpointLines(e)) && IsSection(EndpointLines(e), e.publicKey, OrDefault(e.allowedIPs))
    ensures EndpointLines(e)[|EndpointLines(e)| - 1] != ""
  {
    hide Kind, SanitizeComment, Decimal;
    var lines := EndpointLines(e);
    Sanitised(e.name);
    CleanConcat(COMMENT, SanitizeComment(e.name));
    CleanConcat(PUBLIC_KEY, e.publicKey);
    ClientSettings();
    KeepaliveIsQuiet();
    CleanConcat(ENDPOINT, e.hostPort);
    CleanConcat(ALLOWED_IPS, OrDefault(e.allowedIPs));
    CleanConcat(KEEPALIVE, Decimal(if e.keepalive > 0 then e.keepalive else 0));
    PeerIsHeader();
    KindOfComment(SanitizeComment(e.name));
    KindOfKey(e.publicKey);
    KindOfAllowed(OrDefault(e.allowedIPs));
    SettingKinds(e);
    assert Kind(lines[2]) == KeyLine(e.publicKey) && Kind(lines[4]) == AllowedLine(OrDefault(e.allowedIPs));
  }

  /** A reader of a client's config gets the endpoints' keys and AllowedIPs, with the default for an empty list. */
  lemma ClientConfigReads(m: Machine, endpoints: seq<Endpoint>)
    requires NoNewline(m.address) && CleanEndpoints(endpoints)
    ensures ReadConfig(ClientText(m, endpoints)) == RoutesOf(endpoints)
  {
    hide ClientLines, IsSection, OrDefault;
    var sections := ClientSections(endpoints);
    ClientReads(m, endpoints);
    forall i | 0 <= i < |sections|
      ensures AllClean(sections[i])
      ensures IsSection(Trimmed(sections[i]), RoutesOf(endpoints)[i].0, RoutesOf(endpoints)[i].1)
    {
      EndpointSection(endpoints[i]);
      assert Trimmed(sections[i]) == EndpointLines(endpoints[i]);
    }
    TextReads(ClientLines(m, endpoints), sections, RoutesOf(endpoints));
  }
}
