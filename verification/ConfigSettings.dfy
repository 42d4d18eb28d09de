/**
  The settings of the generated configs: a second reader splits a text at its headers and looks each setting up by
  name, and every value the program was given comes back, the first DNS and MTU of the endpoints included.
*/
module ConfigSettings {
  import opened Basics
  import opened Configs

  /** The blocks of a text: each a header with the lines up to the next one, blank lines left out. */
  function Blocks(lines: seq<string>): seq<seq<string>> {
    if lines == [] then []
    else
      var front, last := Blocks(lines[..|lines| - 1]), lines[|lines| - 1];
      if last == "" then front
      else if last[0] == '[' then front + [[last]]
      else if front == [] then []
      else front[|front| - 1 := front[|front| - 1] + [last]]
  }

  /** What follows the prefix in the first line that starts with it. */
  function Setting(block: seq<string>, prefix: string): Option<string> {
    if block == [] then None
    else if prefix <= block[0] then Some(block[0][|prefix|..])
    else Setting(block[1..], prefix)
  }

  function DigitValue(c: char): nat {
    if '0' <= c <= '9' then c as int - '0' as int else 0
  }

  function ReadDecimal(text: string): nat {
    if text == "" then 0 else 10 * ReadDecimal(text[..|text| - 1]) + DigitValue(text[|text| - 1])
  }

  lemma {:induction false} DecimalReads(n: nat)
    ensures ReadDecimal(Decimal(n)) == n
  {
    DigitReads(n % 10);
    if n < 10 {
      assert [DIGITS[n]][..0] == "";
    } else {
      DecimalReads(n / 10);
      var front, last := Decimal(n / 10), DIGITS[n % 10];
      assert (front + [last])[..|front|] == front;
    }
  }

  lemma DigitReads(d: nat)
    requires d < 10
    ensures DigitValue(DIGITS[d]) == d
  {
    assert DIGITS[0] == '0' && DIGITS[1] == '1' && DIGITS[2] == '2' && DIGITS[3] == '3' && DIGITS[4] == '4';
    assert DIGITS[5] == '5' && DIGITS[6] == '6' && DIGITS[7] == '7' && DIGITS[8] == '8' && DIGITS[9] == '9';
  }

  /** A label keeps its length; codes below 32 and from 127 to 159 become spaces, and no other changes. */
  lemma LabelIsPrintable(s: string, i: nat)
    requires i < |s|
    ensures |SanitizeComment(s)| == |s|
    ensures var from, to := s[i] as int, SanitizeComment(s)[i] as int;
            to == if from < 32 || (127 <= from && from < 160) then 32 else from
  {
    SanitizedAt(s, i);
    assert ' ' as int == 32 && '\U{7f}' as int == 127 && '\U{9f}' as int == 159;
  }

  lemma {:induction false} SanitizedAt(s: string, i: nat)
    requires i < |s|
    ensures SanitizeComment(s)[i] == if IsControl(s[i]) then ' ' else s[i]
  {
    hide IsControl;
    if i < |s| - 1 {
      SanitizedAt(s[..|s| - 1], i);
    }
  }

  // ---- splitting at the headers

  /** A header, and lines that are none. */
  predicate IsBlock(block: seq<string>) {
    && block != [] && block[0] != "" && block[0][0] == '['
    && forall i :: 1 <= i < |block| ==> block[i] != "" && block[i][0] != '['
  }

  lemma BlocksSnoc(lines: seq<string>, last: string)
    ensures Blocks(lines + [last]) ==
            if last == "" then Blocks(lines)
            else if last[0] == '[' then Blocks(lines) + [[last]]
            else if Blocks(lines) == [] then []
            else Blocks(lines)[|Blocks(lines)| - 1 := Blocks(lines)[|Blocks(lines)| - 1] + [last]]
  {
    assert (lines + [last])[..|lines|] == lines;
  }

  lemma {:induction false} BlockRead(lines: seq<string>, block: seq<string>, n: nat)
    requires IsBlock(block) && 1 <= n <= |block|
    ensures Blocks(lines + block[..n]) == Blocks(lines) + [block[..n]]
  {
    hide Blocks;
    if n == 1 {
      assert block[..1] == [block[0]];
      BlocksSnoc(lines, block[0]);
    } else {
      BlockRead(lines, block, n - 1);
      assert lines + block[..n] == lines + block[..n - 1] + [block[n - 1]];
      assert block[..n] == block[..n - 1] + [block[n - 1]];
      BlocksSnoc(lines + block[..n - 1], block[n - 1]);
    }
  }

  /** A block with a blank line before it. */
  lemma BlockAppended(before: seq<string>, block: seq<string>)
    requires IsBlock(block)
    ensures Blocks(before + ([""] + block)) == Blocks(before) + [block]
  {
    hide Blocks, IsBlock;
    OneHeader(block);
    BlocksSnoc(before, "");
    BlockRead(before + [""], block, |block|);
    assert block[..|block|] == block;
    assert before + ([""] + block) == before + [""] + block;
  }

  lemma {:induction false} BlocksOfSections(head: seq<string>, sections: seq<seq<string>>, blocks: seq<seq<string>>)
    requires IsBlock(head) && |sections| == |blocks|
    requires forall i :: 0 <= i < |blocks| ==> IsBlock(blocks[i]) && sections[i] == [""] + blocks[i]
    ensures Blocks(head + Joined(sections)) == [head] + blocks
  {
    hide Blocks, IsBlock, Joined;
    if sections == [] {
      HeadAlone(head);
      assert [head] + blocks == [head];
    } else {
      var n := |sections| - 1;
      BlocksOfSections(head, sections[..n], blocks[..n]);
      JoinedOneMore(head, sections, n);
      assert sections[..n + 1] == sections;
      BlockAppended(head + Joined(sections[..n]), blocks[n]);
      SnocBlocks(head, blocks);
    }
  }

  lemma SnocBlocks(head: seq<string>, blocks: seq<seq<string>>)
    requires blocks != []
    ensures [head] + blocks[..|blocks| - 1] + [blocks[|blocks| - 1]] == [head] + blocks
  {
  }

  lemma HeadAlone(head: seq<string>)
    requires IsBlock(head)
    ensures Blocks(head + Joined([])) == [head]
  {
    hide Blocks, IsBlock;
    OneHeader(head);
    BlockRead([], head, |head|);
    assert [] + head[..|head|] == head && head + Joined([]) == head;
  }

  lemma OneHeader(block: seq<string>)
    requires IsBlock(block)
    ensures 1 <= |block| && Blocks([]) == []
  {
  }

  lemma TextBlocks(head: seq<string>, sections: seq<seq<string>>, blocks: seq<seq<string>>)
    requires AllClean(head) && IsBlock(head) && |sections| == |blocks|
    requires forall i :: 0 <= i < |blocks| ==>
               AllClean(blocks[i]) && IsBlock(blocks[i]) && sections[i] == [""] + blocks[i]
    ensures Blocks(Lines(Unlines(head + Joined(sections)))) == [head] + blocks
  {
    hide Blocks, IsBlock, Lines, Unlines;
    CleanSections(sections, blocks);
    CleanJoined(sections);
    LinesOfUnlines(head + Joined(sections));
    BlocksSnoc(head + Joined(sections), "");
    BlocksOfSections(head, sections, blocks);
  }

  lemma CleanSections(sections: seq<seq<string>>, blocks: seq<seq<string>>)
    requires |sections| == |blocks|
    requires forall i :: 0 <= i < |blocks| ==> AllClean(blocks[i]) && sections[i] == [""] + blocks[i]
    ensures forall i :: 0 <= i < |sections| ==> AllClean(sections[i])
  {
    assert NoNewline("");
  }

  // ---- looking a setting up

  /** The line differs from the prefix in its first or second letter. */
  predicate Unlike(line: string, prefix: string) {
    |line| > 1 && |prefix| > 1 && (line[0] != prefix[0] || line[1] != prefix[1])
  }

  lemma {:induction false} SettingAt(block: seq<string>, prefix: string, value: string, i: nat)
    requires i < |block| && block[i] == prefix + value
    requires forall k :: 0 <= k < i ==> Unlike(block[k], prefix)
    ensures Setting(block, prefix) == Some(value)
  {
    if i == 0 {
      assert prefix <= block[0] && block[0][|prefix|..] == value;
    } else {
      assert Unlike(block[0], prefix);
      SettingAt(block[1..], prefix, value, i - 1);
    }
  }

  lemma {:induction false} SettingNowhere(block: seq<string>, prefix: string)
    requires forall k :: 0 <= k < |block| ==> Unlike(block[k], prefix)
    ensures Setting(block, prefix) == None
  {
    if block != [] {
      assert Unlike(block[0], prefix);
      SettingNowhere(block[1..], prefix);
    }
  }

  lemma TwoLetters(prefix: string, value: string)
    requires |prefix| > 1
    ensures |prefix + value| > 1 && (prefix + value)[0] == prefix[0] && (prefix + value)[1] == prefix[1]
  {
  }

  /** A bare address gets the length of a host route; an address with a length stays as it is. */
  ghost predicate IsRouteTo(text: string, address: string) {
    && (address != "" && '/' !in address ==> text == address + "/32")
    && (address == "" || '/' in address ==> text == address)
  }

  /** The text is the decimal of the number, and there is none when it is not positive. */
  ghost predicate IsPositive(text: Option<string>, n: int) {
    (n > 0 <==> text.Some?) && (n > 0 ==> ReadDecimal(text.value) == n)
  }

  /** The endpoint is the first with a DNS setting. */
  predicate HasFirstDns(endpoints: seq<Endpoint>, i: int) {
    0 <= i < |endpoints| && endpoints[i].dns != "" && forall k :: 0 <= k < i ==> endpoints[k].dns == ""
  }

  predicate HasFirstMtu(endpoints: seq<Endpoint>, i: int) {
    0 <= i < |endpoints| && endpoints[i].mtu > 0 && forall k :: 0 <= k < i ==> endpoints[k].mtu <= 0
  }

  ghost predicate IsFirstDns(text: Option<string>, endpoints: seq<Endpoint>) {
    && (text.None? <==> forall i :: 0 <= i < |endpoints| ==> endpoints[i].dns == "")
    && forall i :: HasFirstDns(endpoints, i) ==> text == Some(endpoints[i].dns)
  }

  ghost predicate IsFirstMtu(text: Option<string>, endpoints: seq<Endpoint>) {
    && (text.None? <==> forall i :: 0 <= i < |endpoints| ==> endpoints[i].mtu <= 0)
    && forall i :: HasFirstMtu(endpoints, i) ==> IsPositive(text, endpoints[i].mtu)
  }

  lemma {:induction false} FirstDnsAt(endpoints: seq<Endpoint>, i: nat)
    requires HasFirstDns(endpoints, i)
    ensures FirstDns(endpoints) == endpoints[i].dns
  {
    if i > 0 {
      assert forall k :: 0 <= k < i ==> endpoints[1..][k] == endpoints[k + 1];
      FirstDnsAt(endpoints[1..], i - 1);
    }
  }

  lemma {:induction false} NoDns(endpoints: seq<Endpoint>)
    ensures FirstDns(endpoints) == "" <==> forall i :: 0 <= i < |endpoints| ==> endpoints[i].dns == ""
  {
    if endpoints != [] {
      NoDns(endpoints[1..]);
      assert forall i :: 0 <= i < |endpoints[1..]| ==> endpoints[1..][i] == endpoints[i + 1];
      assert forall i :: 0 < i < |endpoints| ==> endpoints[i] == endpoints[1..][i - 1];
    }
  }

  lemma {:induction false} FirstMtuAt(endpoints: seq<Endpoint>, i: nat)
    requires HasFirstMtu(endpoints, i)
    ensures FirstMtu(endpoints) == endpoints[i].mtu
  {
    if i > 0 {
      assert forall k :: 0 <= k < i ==> endpoints[1..][k] == endpoints[k + 1];
      FirstMtuAt(endpoints[1..], i - 1);
    }
  }

  lemma {:induction false} NoMtu(endpoints: seq<Endpoint>)
    ensures FirstMtu(endpoints) == 0 <==> forall i :: 0 <= i < |endpoints| ==> endpoints[i].mtu <= 0
  {
    if endpoints != [] {
      NoMtu(endpoints[1..]);
      assert forall i :: 0 <= i < |endpoints[1..]| ==> endpoints[1..][i] == endpoints[i + 1];
      assert forall i :: 0 < i < |endpoints| ==> endpoints[i] == endpoints[1..][i - 1];
    }
  }

  lemma FirstSettings(endpoints: seq<Endpoint>)
    ensures IsFirstDns(if FirstDns(endpoints) != "" then Some(FirstDns(endpoints)) else None, endpoints)
    ensures IsFirstMtu(if FirstMtu(endpoints) > 0 then Some(Decimal(FirstMtu(endpoints))) else None, endpoints)
  {
    hide FirstDns, FirstMtu, Decimal, ReadDecimal, HasFirstDns, HasFirstMtu;
    NoDns(endpoints);
    NoMtu(endpoints);
    DecimalReads(FirstMtu(endpoints));
    forall i: int | HasFirstDns(endpoints, i)
      ensures 0 <= i < |endpoints| && endpoints[i].dns != "" && FirstDns(endpoints) == endpoints[i].dns
    {
      HasInRange(endpoints, i);
      FirstDnsAt(endpoints, i);
    }
    forall i: int | HasFirstMtu(endpoints, i)
      ensures 0 <= i < |endpoints| && endpoints[i].mtu > 0 && FirstMtu(endpoints) == endpoints[i].mtu
    {
      HasInRange(endpoints, i);
      FirstMtuAt(endpoints, i);
    }
  }

  lemma HasInRange(endpoints: seq<Endpoint>, i: int)
    ensures HasFirstDns(endpoints, i) ==> 0 <= i < |endpoints| && endpoints[i].dns != ""
    ensures HasFirstMtu(endpoints, i) ==> 0 <= i < |endpoints| && endpoints[i].mtu > 0
  {
  }

  // ---- the client's config

  predicate Begins(line: string, a: char, b: char) {
    |line| > 1 && line[0] == a && line[1] == b
  }

  lemma InterfaceBegins(v: string)
    ensures Begins(COMMENT + v, '#', ' ') && Begins(PRIVATE_KEY + v, 'P', 'r') && Begins(ADDRESS + v, 'A', 'd')
    ensures Begins(DNS + v, 'D', 'N') && Begins(MTU + v, 'M', 'T') && Begins(LISTEN_PORT + v, 'L', 'i')
    ensures Begins(INTERFACE, '[', 'I')
  {
    TwoLetters(COMMENT, v);
    TwoLetters(PRIVATE_KEY, v);
    TwoLetters(ADDRESS, v);
    TwoLetters(DNS, v);
    TwoLetters(MTU, v);
    TwoLetters(LISTEN_PORT, v);
  }

  lemma PeerBegins(v: string)
    ensures Begins(PEER, '[', 'P') && Begins(COMMENT + v, '#', ' ') && Begins(PUBLIC_KEY + v, 'P', 'u')
    ensures Begins(ENDPOINT + v, 'E', 'n') && Begins(ALLOWED_IPS + v, 'A', 'l') && Begins(KEEPALIVE + v, 'P', 'e')
  {
    TwoLetters(COMMENT, v);
    TwoLetters(PUBLIC_KEY, v);
    TwoLetters(ENDPOINT, v);
    TwoLetters(ALLOWED_IPS, v);
    TwoLetters(KEEPALIVE, v);
  }

  lemma BeginsUnlike(line: string, a: char, b: char)
    requires Begins(line, a, b)
    ensures a != 'P' || b != 'r' ==> Unlike(line, "PrivateKey = ")
    ensures a != 'A' || b != 'd' ==> Unlike(line, "Address = ")
    ensures a != 'D' || b != 'N' ==> Unlike(line, "DNS = ")
    ensures a != 'M' || b != 'T' ==> Unlike(line, "MTU = ")
    ensures a != 'L' || b != 'i' ==> Unlike(line, "ListenPort = ")
    ensures a != 'P' || b != 'u' ==> Unlike(line, "PublicKey = ")
    ensures a != 'E' || b != 'n' ==> Unlike(line, "Endpoint = ")
    ensures a != 'A' || b != 'l' ==> Unlike(line, "AllowedIPs = ")
    ensures a != 'P' || b != 'e' ==> Unlike(line, "PersistentKeepalive = ")
  {
  }

  /** The lines but the one with the setting are of no concern to a reader that looks for it. */
  lemma FoundOrNot(block: seq<string>, prefix: string, value: Option<string>, i: nat)
    requires value.Some? ==> i < |block| && block[i] == prefix + value.value
    requires forall k :: 0 <= k < |block| && (value.Some? ==> k != i) ==> Unlike(block[k], prefix)
    ensures Setting(block, prefix) == value
  {
    if value.Some? {
      SettingAt(block, prefix, value.value, i);
    } else {
      SettingNowhere(block, prefix);
    }
  }

  /** The letters every line of the client's interface begins with. */
  lemma ClientLetters(m: Machine, endpoints: seq<Endpoint>)
    ensures var lines := ClientLines(m, endpoints);
            var dns, mtu := FirstDns(endpoints) != "", FirstMtu(endpoints) > 0;
            && |lines| == 4 + (if dns then 1 else 0) + (if mtu then 1 else 0)
            && Begins(lines[0], '[', 'I') && Begins(lines[1], '#', ' ') && Begins(lines[2], 'P', 'r')
            && lines[0] == "[Interface]" && lines[2] == "PrivateKey = " + "<YOUR_PRIVATE_KEY>"
            && Begins(lines[3], 'A', 'd') && lines[3] == "Address = " + AllowedOf(m.address)
            && (dns ==> Begins(lines[4], 'D', 'N') && lines[4] == "DNS = " + FirstDns(endpoints))
            && (mtu ==> Begins(lines[|lines| - 1], 'M', 'T')
                        && lines[|lines| - 1] == "MTU = " + Decimal(FirstMtu(endpoints)))
  {
    hide AllowedOf, FirstDns, FirstMtu, Decimal, Begins;
    InterfaceBegins(CLIENT_HINT);
    InterfaceBegins(CLIENT_KEY);
    InterfaceBegins(AllowedOf(m.address));
    InterfaceBegins(FirstDns(endpoints));
    InterfaceBegins(Decimal(FirstMtu(endpoints)));
  }

  lemma AllowedRoutes(address: string)
    ensures IsRouteTo(AllowedOf(address), address)
  {
  }

  lemma ClientHead(m: Machine, endpoints: seq<Endpoint>)
    ensures var lines := ClientLines(m, endpoints);
            && IsBlock(lines)
            && lines[0] == "[Interface]" && Setting(lines, "PrivateKey = ") == Some("<YOUR_PRIVATE_KEY>")
            && Setting(lines, "Address = ") == Some(AllowedOf(m.address))
            && Setting(lines, "DNS = ") == (if FirstDns(endpoints) != "" then Some(FirstDns(endpoints)) else None)
            && Setting(lines, "MTU = ")
               == if FirstMtu(endpoints) > 0 then Some(Decimal(FirstMtu(endpoints))) else None
  {
    hide AllowedOf, FirstDns, FirstMtu, Decimal, ClientLines, Setting, Unlike;
    var lines := ClientLines(m, endpoints);
    ClientLetters(m, endpoints);
    BeginsUnlike(lines[0], '[', 'I');
    BeginsUnlike(lines[1], '#', ' ');
    BeginsUnlike(lines[2], 'P', 'r');
    BeginsUnlike(lines[3], 'A', 'd');
    if FirstDns(endpoints) != "" {
      BeginsUnlike(lines[4], 'D', 'N');
    }
    if FirstMtu(endpoints) > 0 {
      BeginsUnlike(lines[|lines| - 1], 'M', 'T');
    }
    FoundOrNot(lines, "PrivateKey = ", Some("<YOUR_PRIVATE_KEY>"), 2);
    FoundOrNot(lines, "Address = ", Some(AllowedOf(m.address)), 3);
    FoundOrNot(lines, "DNS = ", if FirstDns(endpoints) != "" then Some(FirstDns(endpoints)) else None, 4);
    FoundOrNot(lines, "MTU = ", if FirstMtu(endpoints) > 0 then Some(Decimal(FirstMtu(endpoints))) else None,
               |lines| - 1);
  }

  lemma EndpointLetters(e: Endpoint)
    ensures var lines := EndpointLines(e);
            && |lines| == 5 + (if e.keepalive > 0 then 1 else 0) && lines[0] == "[Peer]"
            && Begins(lines[0], '[', 'P') && Begins(lines[1], '#', ' ') && Begins(lines[2], 'P', 'u')
            && Begins(lines[3], 'E', 'n') && Begins(lines[4], 'A', 'l')
            && lines[1] == "# " + SanitizeComment(e.name) && lines[2] == "PublicKey = " + e.publicKey
            && lines[3] == "Endpoint = " + e.hostPort && lines[4] == "AllowedIPs = " + OrDefault(e.allowedIPs)
            && (e.keepalive > 0 ==> Begins(lines[5], 'P', 'e')
                                    && lines[5] == "PersistentKeepalive = " + Decimal(e.keepalive))
  {
    hide SanitizeComment, OrDefault, Decimal, Begins;
    PeerBegins(SanitizeComment(e.name));
    PeerBegins(e.publicKey);
    PeerBegins(e.hostPort);
    PeerBegins(OrDefault(e.allowedIPs));
    PeerBegins(Decimal(if e.keepalive > 0 then e.keepalive else 0));
  }

  /** What is looked up in the section of an endpoint. */
  ghost predicate HasEndpoint(block: seq<string>, e: Endpoint) {
    && |block| >= 2 && block[0] == "[Peer]" && block[1] == "# " + SanitizeComment(e.name)
    && Setting(block, "PublicKey = ") == Some(e.publicKey)
    && Setting(block, "Endpoint = ") == Some(e.hostPort)
    && Setting(block, "AllowedIPs = ") == Some(if e.allowedIPs == "" then "0.0.0.0/0" else e.allowedIPs)
    && IsPositive(Setting(block, "PersistentKeepalive = "), e.keepalive)
  }

  lemma EndpointBlock(e: Endpoint)
    ensures IsBlock(EndpointLines(e)) && HasEndpoint(EndpointLines(e), e)
  {
    hide SanitizeComment, Decimal, EndpointLines, Setting, Unlike, ReadDecimal;
    var lines := EndpointLines(e);
    EndpointLetters(e);
    BeginsUnlike(lines[0], '[', 'P');
    BeginsUnlike(lines[1], '#', ' ');
    BeginsUnlike(lines[2], 'P', 'u');
    BeginsUnlike(lines[3], 'E', 'n');
    BeginsUnlike(lines[4], 'A', 'l');
    if e.keepalive > 0 {
      BeginsUnlike(lines[5], 'P', 'e');
      DecimalReads(e.keepalive);
    }
    FoundOrNot(lines, "PublicKey = ", Some(e.publicKey), 2);
    FoundOrNot(lines, "Endpoint = ", Some(e.hostPort), 3);
    FoundOrNot(lines, "AllowedIPs = ", Some(OrDefault(e.allowedIPs)), 4);
    FoundOrNot(lines, "PersistentKeepalive = ", if e.keepalive > 0 then Some(Decimal(e.keepalive)) else None, 5);
  }

  lemma EndpointFits(endpoints: seq<Endpoint>, i: nat)
    requires CleanEndpoints(endpoints) && i < |endpoints|
    ensures var lines := EndpointLines(endpoints[i]);
            IsBlock(lines) && HasEndpoint(lines, endpoints[i]) && AllClean(lines)
  {
    hide IsBlock, HasEndpoint, EndpointLines, NoNewline;
    EndpointBlock(endpoints[i]);
    EndpointSection(endpoints[i]);
  }

  /** What is looked up in the interface of a client. */
  ghost predicate HasInterface(block: seq<string>, m: Machine, endpoints: seq<Endpoint>) {
    && |block| >= 1 && block[0] == "[Interface]" && Setting(block, "PrivateKey = ") == Some("<YOUR_PRIVATE_KEY>")
    && Setting(block, "Address = ").Some? && IsRouteTo(Setting(block, "Address = ").value, m.address)
    && IsFirstDns(Setting(block, "DNS = "), endpoints) && IsFirstMtu(Setting(block, "MTU = "), endpoints)
  }

  lemma SomeLine(lines: seq<string>)
    requires IsBlock(lines)
    ensures |lines| >= 1
  {
  }

  lemma InterfaceFits(m: Machine, endpoints: seq<Endpoint>)
    requires NoNewline(m.address) && CleanEndpoints(endpoints)
    ensures var lines := ClientLines(m, endpoints);
            IsBlock(lines) && HasInterface(lines, m, endpoints) && AllClean(lines)
  {
    hide Setting, ClientLines, IsBlock, IsFirstDns, IsFirstMtu, FirstDns, FirstMtu, Decimal, AllClean, CleanEndpoints,
         AllowedOf, IsRouteTo, Steps;
    AllowedRoutes(m.address);
    ClientHead(m, endpoints);
    SomeLine(ClientLines(m, endpoints));
    FirstSettings(endpoints);
    ClientReads(m, endpoints);
  }

  /** Every setting of a client's config reads back: the interface's, and in order those of the endpoints. */
  lemma ClientSettingsRead(m: Machine, endpoints: seq<Endpoint>)
    requires NoNewline(m.address) && CleanEndpoints(endpoints)
    ensures var blocks := Blocks(Lines(ClientText(m, endpoints)));
            && |blocks| == |endpoints| + 1 && HasInterface(blocks[0], m, endpoints)
            && forall i :: 0 <= i < |endpoints| ==> HasEndpoint(blocks[i + 1], endpoints[i])
  {
    hide Blocks, Lines, Unlines, Joined, Setting, ClientLines, EndpointLines, IsBlock, HasEndpoint, HasInterface,
         AllClean, CleanEndpoints;
    InterfaceFits(m, endpoints);
    var blocks := seq(|endpoints|, i requires 0 <= i < |endpoints| => EndpointLines(endpoints[i]));
    forall i | 0 <= i < |endpoints|
      ensures IsBlock(blocks[i]) && HasEndpoint(blocks[i], endpoints[i]) && AllClean(blocks[i])
    {
      EndpointFits(endpoints, i);
    }
    TextBlocks(ClientLines(m, endpoints), ClientSections(endpoints), blocks);
  }

  // ---- the concentrator's config

  lemma HubLetters(e: Endpoint, port: Option<string>)
    ensures var lines := HubLines(e, port);
            var tunnel, listen, mtu := e.tunnelIP != "", port.Some? && port.value != "", e.mtu > 0;
            var at := if tunnel then 5 else 4;
            && |lines| == at + (if listen then 1 else 0) + (if mtu then 1 else 0)
            && Begins(lines[0], '[', 'I') && Begins(lines[1], '#', ' ') && Begins(lines[2], '#', ' ')
            && Begins(lines[3], 'P', 'r') && lines[1] == "# " + (SanitizeComment(e.name) + " concentrator")
            && lines[0] == "[Interface]" && lines[3] == "PrivateKey = " + "<CONCENTRATOR_PRIVATE_KEY>"
            && (tunnel ==> Begins(lines[4], 'A', 'd') && lines[4] == "Address = " + AllowedOf(e.tunnelIP))
            && (listen ==> Begins(lines[at], 'L', 'i') && lines[at] == "ListenPort = " + port.value)
            && (mtu ==> Begins(lines[|lines| - 1], 'M', 'T') && lines[|lines| - 1] == "MTU = " + Decimal(e.mtu))
  {
    hide AllowedOf, Decimal, SanitizeComment, Begins;
    InterfaceBegins(SanitizeComment(e.name) + " concentrator");
    InterfaceBegins(HUB_HINT);
    InterfaceBegins(HUB_KEY);
    InterfaceBegins(AllowedOf(e.tunnelIP));
    InterfaceBegins(port.GetOr(""));
    InterfaceBegins(Decimal(if e.mtu > 0 then e.mtu else 0));
  }

  /** What is looked up in the interface of a concentrator: an address, a port and an MTU if they are set. */
  ghost predicate HasHub(block: seq<string>, e: Endpoint, port: Option<string>) {
    && |block| >= 2 && block[0] == "[Interface]" && block[1] == "# " + (SanitizeComment(e.name) + " concentrator")
    && Setting(block, "PrivateKey = ") == Some("<CONCENTRATOR_PRIVATE_KEY>")
    && (Setting(block, "Address = ").Some? <==> e.tunnelIP != "")
    && (e.tunnelIP != "" ==> IsRouteTo(Setting(block, "Address = ").value, e.tunnelIP))
    && Setting(block, "ListenPort = ") == (if port == Some("") then None else port)
    && IsPositive(Setting(block, "MTU = "), e.mtu)
  }

  lemma HubHead(e: Endpoint, port: Option<string>)
    ensures IsBlock(HubLines(e, port)) && HasHub(HubLines(e, port), e, port)
  {
    hide AllowedOf, Decimal, SanitizeComment, HubLines, Setting, Unlike, ReadDecimal, IsRouteTo;
    var lines := HubLines(e, port);
    var at := if e.tunnelIP != "" then 5 else 4;
    HubLetters(e, port);
    BeginsUnlike(lines[0], '[', 'I');
    BeginsUnlike(lines[1], '#', ' ');
    BeginsUnlike(lines[2], '#', ' ');
    BeginsUnlike(lines[3], 'P', 'r');
    AllowedRoutes(e.tunnelIP);
    if e.tunnelIP != "" {
      BeginsUnlike(lines[4], 'A', 'd');
    }
    if port.Some? && port.value != "" {
      BeginsUnlike(lines[at], 'L', 'i');
    }
    if e.mtu > 0 {
      BeginsUnlike(lines[|lines| - 1], 'M', 'T');
      DecimalReads(e.mtu);
    }
    FoundOrNot(lines, "PrivateKey = ", Some("<CONCENTRATOR_PRIVATE_KEY>"), 3);
    FoundOrNot(lines, "Address = ", if e.tunnelIP != "" then Some(AllowedOf(e.tunnelIP)) else None, 4);
    FoundOrNot(lines, "ListenPort = ", if port == Some("") then None else port, at);
    FoundOrNot(lines, "MTU = ", if e.mtu > 0 then Some(Decimal(e.mtu)) else None, |lines| - 1);
  }

  /** What is looked up in the section of a machine. */
  ghost predicate HasMachine(block: seq<string>, m: Machine) {
    && |block| >= 2 && block[0] == "[Peer]"
    && block[1] == "# " + (SanitizeComment(m.name) + " (" + SanitizeComment(m.owner) + ")")
    && Setting(block, "PublicKey = ") == Some(m.publicKey)
    && Setting(block, "AllowedIPs = ").Some? && IsRouteTo(Setting(block, "AllowedIPs = ").value, m.address)
  }

  lemma MachineLetters(m: Machine)
    ensures var lines := PeerLines(m);
            && |lines| == 4 && lines[0] == "[Peer]"
            && Begins(lines[0], '[', 'P') && Begins(lines[1], '#', ' ') && Begins(lines[2], 'P', 'u')
            && Begins(lines[3], 'A', 'l')
            && lines[1] == "# " + (SanitizeComment(m.name) + " (" + SanitizeComment(m.owner) + ")")
            && lines[2] == "PublicKey = " + m.publicKey && lines[3] == "AllowedIPs = " + AllowedOf(m.address)
  {
    hide AllowedOf, SanitizeComment, Begins;
    PeerBegins(SanitizeComment(m.name) + " (" + SanitizeComment(m.owner) + ")");
    PeerBegins(m.publicKey);
    PeerBegins(AllowedOf(m.address));
  }

  lemma MachineBlock(m: Machine)
    ensures IsBlock(PeerLines(m)) && HasMachine(PeerLines(m), m)
  {
    hide AllowedOf, SanitizeComment, PeerLines, Setting, Unlike, IsRouteTo;
    var lines := PeerLines(m);
    MachineLetters(m);
    BeginsUnlike(lines[0], '[', 'P');
    BeginsUnlike(lines[1], '#', ' ');
    BeginsUnlike(lines[2], 'P', 'u');
    BeginsUnlike(lines[3], 'A', 'l');
    AllowedRoutes(m.address);
    FoundOrNot(lines, "PublicKey = ", Some(m.publicKey), 2);
    FoundOrNot(lines, "AllowedIPs = ", Some(AllowedOf(m.address)), 3);
  }

  /** Every setting of a concentrator's config reads back: the interface's, and in order those of the machines. */
  lemma HubSettingsRead(e: Endpoint, port: Option<string>, machines: seq<Machine>)
    requires CleanMachines(machines) && CleanHub(e, port)
    ensures var blocks := Blocks(Lines(Unlines(HubLines(e, port) + Joined(ConcentratorSections(machines)))));
            && |blocks| == |machines| + 1 && HasHub(blocks[0], e, port)
            && forall i :: 0 <= i < |machines| ==> HasMachine(blocks[i + 1], machines[i])
  {
    hide Blocks, Lines, Unlines, Joined, Setting, HubLines, PeerLines, IsBlock, HasHub, HasMachine, AllClean, CleanHub,
         AllowedOf, NoNewline;
    HubHead(e, port);
    HubReads(e, port);
    var blocks := seq(|machines|, i requires 0 <= i < |machines| => PeerLines(machines[i]));
    forall i | 0 <= i < |machines|
      ensures IsBlock(blocks[i]) && HasMachine(blocks[i], machines[i]) && AllClean(blocks[i])
    {
      MachineBlock(machines[i]);
      PeerSection(machines[i]);
    }
    TextBlocks(HubLines(e, port), ConcentratorSections(machines), blocks);
  }
}
