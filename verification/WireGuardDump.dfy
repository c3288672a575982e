/** Printing dumps in the documented format and reading them back; fields that never get out; and
    the addresses joined in afterwards. */
module WireGuardDump {
  import opened Strings
  import opened Decimal
  import opened WireGuard

  // ---------------------------------------------------------------- ignored fields

  /** The texts of a dump whose lines have these fields. */
  function LineTexts(rows: seq<seq<Text>>): (texts: seq<Text>)
    requires forall i | 0 <= i < |rows| :: |rows[i]| >= 1
    ensures |texts| == |rows|
  {
    seq(|rows|, i requires 0 <= i < |rows| => Join(rows[i], '\t'))
  }

  function Dump(rows: seq<seq<Text>>): Text
    requires |rows| >= 1 && forall i | 0 <= i < |rows| :: |rows[i]| >= 1
  {
    Join(LineTexts(rows), '\n')
  }

  /** Fields that hold neither a tab nor a newline. */
  predicate IsRow(fields: seq<Text>) {
    |fields| >= 1 && NoneContains(fields, '\t') && NoneContains(fields, '\n')
  }

  predicate IsTable(rows: seq<seq<Text>>) {
    |rows| >= 1 && forall i | 0 <= i < |rows| :: IsRow(rows[i])
  }

  lemma {:induction false} JoinKeepsOut(fields: seq<Text>, sep: Byte, c: Byte)
    requires |fields| >= 1 && NoneContains(fields, c) && c != sep
    ensures c !in Join(fields, sep)
  {
    if |fields| > 1 {
      assert NoneContains(fields[1..], c);
      JoinKeepsOut(fields[1..], sep, c);
    }
  }

  lemma SplitDump(rows: seq<seq<Text>>)
    requires IsTable(rows)
    ensures Split(Dump(rows), '\n') == LineTexts(rows)
  {
    forall i | 0 <= i < |rows| ensures '\n' !in LineTexts(rows)[i] {
      assert IsRow(rows[i]);
      JoinKeepsOut(rows[i], '\t', '\n');
    }
    SplitJoin(LineTexts(rows), '\n');
  }

  lemma ClassifyRow(prefix: Text, fields: seq<Text>)
    requires IsRow(fields)
    ensures Classify(prefix, Join(fields, '\t')) == ClassifyFields(prefix, fields)
  {
    SplitJoin(fields, '\t');
    if Join(fields, '\t') == "" {
      SplitWhole("", '\t');
    }
  }

  /** The field at `i` of a line is read only to get past it: a private key or anything from the
      firewall mark on, or a peer's preshared key, endpoint, allowed addresses or keepalive. */
  predicate IsIgnoredField(fields: seq<Text>, i: nat)
    requires i < |fields| && |fields| >= 2
  {
    if fields[1] == "peer" then 3 <= i <= 5 || i >= 9 else i == 1 || i >= 4
  }

  /** Two lines that differ in ignored fields only, and agree on being a peer line. */
  predicate SamePublicFields(f: seq<Text>, g: seq<Text>) {
    && |f| == |g|
    && (|f| >= 2 ==>
          && (f[1] == "peer" <==> g[1] == "peer")
          && forall i | 0 <= i < |f| :: f[i] == g[i] || IsIgnoredField(f, i))
  }

  /** Changing private keys, preshared keys, endpoints and the other ignored fields of a dump, line
      by line and in any of them, leaves the parse unchanged. */
  lemma IgnoredFieldsStayIn(prefix: Text, rows1: seq<seq<Text>>, rows2: seq<seq<Text>>)
    requires IsTable(rows1) && IsTable(rows2) && |rows1| == |rows2|
    requires forall i | 0 <= i < |rows1| :: SamePublicFields(rows1[i], rows2[i])
    ensures Reported(LinesOf(prefix, Split(Dump(rows1), '\n'))) == Reported(LinesOf(prefix, Split(Dump(rows2), '\n')))
  {
    SplitDump(rows1);
    SplitDump(rows2);
    var lines1, lines2 := LinesOf(prefix, LineTexts(rows1)), LinesOf(prefix, LineTexts(rows2));
    forall i | 0 <= i < |rows1| ensures lines1[i] == lines2[i] {
      assert IsRow(rows1[i]) && IsRow(rows2[i]);
      ClassifyRow(prefix, rows1[i]);
      ClassifyRow(prefix, rows2[i]);
      SamePublicFieldsClassify(prefix, rows1[i], rows2[i]);
    }
    assert lines1 == lines2;
  }

  lemma SamePublicFieldsClassify(prefix: Text, f: seq<Text>, g: seq<Text>)
    requires |f| >= 1 && SamePublicFields(f, g)
    ensures ClassifyFields(prefix, f) == ClassifyFields(prefix, g)
  {
    if |f| >= 2 {
      assert f[0] == g[0];
    }
  }

  // ---------------------------------------------------------------- printing

  /** One line of the documented format. */
  datatype Record =
    | InterfaceRecord(name: Text, privateKey: Text, publicKey: Text, listenPort: int, fwmark: Text)
    | PeerRecord(name: Text, publicKey: Text, presharedKey: Text, endpoint: Text, allowedIps: Text,
                 handshake: int, rx: int, tx: int, keepalive: Text)

  function FieldsOf(r: Record): (fields: seq<Text>)
    ensures |fields| >= 5
  {
    match r
    case InterfaceRecord(name, priv, pub, port, mark) => [name, priv, pub, FormatInt(port), mark]
    case PeerRecord(name, pub, psk, endpoint, ips, handshake, rx, tx, keepalive) =>
      [name, "peer", pub, psk, endpoint, ips, FormatInt(handshake), FormatInt(rx), FormatInt(tx), keepalive]
  }

  predicate IsPlain(s: Text) {
    '\t' !in s && '\n' !in s
  }

  /** Values the format can carry: no tabs or newlines, 64-bit numbers, and no private key that
      reads "peer". */
  predicate IsPrintable(r: Record) {
    match r
    case InterfaceRecord(name, priv, pub, port, mark) =>
      IsPlain(name) && IsPlain(priv) && IsPlain(pub) && IsPlain(mark) && IsInt64(port) && priv != "peer"
    case PeerRecord(name, pub, psk, endpoint, ips, handshake, rx, tx, keepalive) =>
      && IsPlain(name) && IsPlain(pub) && IsPlain(psk) && IsPlain(endpoint) && IsPlain(ips) && IsPlain(keepalive)
      && IsInt64(handshake) && IsInt64(rx) && IsInt64(tx)
  }

  /** Lines, each ended by a newline. */
  function Terminated(texts: seq<Text>): Text {
    if texts == [] then [] else texts[0] + ['\n'] + Terminated(texts[1..])
  }

  /** The dump of these records. */
  function Print(records: seq<Record>): Text {
    Terminated(PrintedTexts(records))
  }

  /** What a record says in public, when its name is managed. */
  function PublicLine(prefix: Text, r: Record): Line {
    if !(prefix <= r.name) then Ignored
    else match r
      case InterfaceRecord(name, _, pub, port, _) => InterfaceLine(name, pub, port)
      case PeerRecord(name, pub, _, _, _, handshake, rx, tx, _) =>
        PeerLine(name, Peer(pub, HandshakeTime(handshake), rx, tx))
  }

  function PublicLines(prefix: Text, records: seq<Record>): (lines: seq<Line>)
    ensures |lines| == |records|
    ensures forall i | 0 <= i < |records| :: lines[i] == PublicLine(prefix, records[i])
  {
    seq(|records|, i requires 0 <= i < |records| => PublicLine(prefix, records[i]))
  }

  lemma {:induction false} FormatIsPlain(n: int)
    ensures IsPlain(FormatInt(n))
  {
  }

  lemma FieldsArePlain(r: Record)
    requires IsPrintable(r)
    ensures IsRow(FieldsOf(r))
  {
    match r
    case InterfaceRecord(name, priv, pub, port, mark) =>
      FormatIsPlain(port);
    case PeerRecord(name, pub, psk, endpoint, ips, handshake, rx, tx, keepalive) =>
      FormatIsPlain(handshake);
      FormatIsPlain(rx);
      FormatIsPlain(tx);
  }

  lemma ClassifyPrinted(prefix: Text, r: Record)
    requires IsPrintable(r)
    ensures Classify(prefix, Join(FieldsOf(r), '\t')) == PublicLine(prefix, r)
  {
    FieldsArePlain(r);
    ClassifyRow(prefix, FieldsOf(r));
    match r
    case InterfaceRecord(_, _, _, port, _) =>
      FormatIntParses(port);
    case PeerRecord(_, _, _, _, _, handshake, rx, tx, _) =>
      FormatIntParses(handshake);
      FormatIntParses(rx);
      FormatIntParses(tx);
  }

  function PrintedTexts(records: seq<Record>): (texts: seq<Text>)
    ensures |texts| == |records|
    ensures forall i | 0 <= i < |records| :: texts[i] == Join(FieldsOf(records[i]), '\t')
  {
    seq(|records|, i requires 0 <= i < |records| => Join(FieldsOf(records[i]), '\t'))
  }

  lemma PrintedTextIsOneLine(r: Record)
    requires IsPrintable(r)
    ensures '\n' !in Join(FieldsOf(r), '\t')
  {
    FieldsArePlain(r);
    JoinKeepsOut(FieldsOf(r), '\t', '\n');
  }

  lemma {:induction false} SplitTerminated(texts: seq<Text>)
    requires NoneContains(texts, '\n')
    ensures Split(Terminated(texts), '\n') == texts + [[]]
  {
    if texts != [] {
      SplitFirst(texts[0], Terminated(texts[1..]), '\n');
      SplitTerminated(texts[1..]);
      assert [texts[0]] + (texts[1..] + [[]]) == texts + [[]];
    }
  }

  lemma SplitPrinted(records: seq<Record>)
    requires forall i | 0 <= i < |records| :: IsPrintable(records[i])
    ensures Split(Print(records), '\n') == PrintedTexts(records) + [[]]
  {
    forall i | 0 <= i < |records| ensures '\n' !in PrintedTexts(records)[i] {
      PrintedTextIsOneLine(records[i]);
    }
    SplitTerminated(PrintedTexts(records));
  }

  /** A printed dump reads back line by line, with one empty text at the end. */
  lemma LinesOfPrinted(prefix: Text, records: seq<Record>)
    requires forall i | 0 <= i < |records| :: IsPrintable(records[i])
    ensures LinesOf(prefix, Split(Print(records), '\n')) == PublicLines(prefix, records) + [Ignored]
  {
    SplitPrinted(records);
    var lines := LinesOf(prefix, PrintedTexts(records) + [[]]);
    var expected := PublicLines(prefix, records) + [Ignored];
    forall i | 0 <= i <= |records| ensures lines[i] == expected[i] {
      if i < |records| {
        assert (PrintedTexts(records) + [[]])[i] == PrintedTexts(records)[i];
        ClassifyPrinted(prefix, records[i]);
      }
    }
    assert lines == expected;
  }

  // ---------------------------------------------------------------- interleaving

  datatype PeerConfig = PeerConfig(
    publicKey: Text, presharedKey: Text, endpoint: Text, allowedIps: Text,
    handshake: int, rx: int, tx: int, keepalive: Text)

  datatype InterfaceConfig = InterfaceConfig(
    privateKey: Text, publicKey: Text, listenPort: int, fwmark: Text, peers: seq<PeerConfig>)

  function PeerRecordOf(name: Text, p: PeerConfig): Record {
    PeerRecord(name, p.publicKey, p.presharedKey, p.endpoint, p.allowedIps, p.handshake, p.rx, p.tx, p.keepalive)
  }

  function PeerRecords(name: Text, peers: seq<PeerConfig>): seq<Record> {
    if peers == [] then []
    else PeerRecords(name, peers[..|peers| - 1]) + [PeerRecordOf(name, peers[|peers| - 1])]
  }

  /** The lines of one interface, in order: its own, then its peers'. */
  function RecordsFor(config: map<Text, InterfaceConfig>, name: Text): seq<Record> {
    if name !in config then []
    else
      var c := config[name];
      [InterfaceRecord(name, c.privateKey, c.publicKey, c.listenPort, c.fwmark)] + PeerRecords(name, c.peers)
  }

  /** The records about one name, in order. */
  function Project(records: seq<Record>, name: Text): seq<Record> {
    if records == [] then []
    else
      var last := records[|records| - 1];
      Project(records[..|records| - 1], name) + (if last.name == name then [last] else [])
  }

  /** The records are some interleaving of the interfaces' own sequences. */
  ghost predicate Interleaves(records: seq<Record>, config: map<Text, InterfaceConfig>) {
    forall name :: Project(records, name) == RecordsFor(config, name)
  }

  function PublicPeers(peers: seq<PeerConfig>): seq<Peer> {
    if peers == [] then []
    else
      var p := peers[|peers| - 1];
      PublicPeers(peers[..|peers| - 1]) + [Peer(p.publicKey, HandshakeTime(p.handshake), p.rx, p.tx)]
  }

  /** The public part of an interface. */
  function PublicInterface(name: Text, c: InterfaceConfig): ManagedInterface {
    ManagedInterface(name, "", c.publicKey, c.listenPort, [], PublicPeers(c.peers))
  }

  /** What a report may say of a peer, read off its configuration; a handshake that never happened,
      printed as 0 or less, is no time at all. */
  predicate IsPublicPeer(peer: Peer, c: PeerConfig) {
    && peer.publicKey == c.publicKey && peer.rxBytes == c.rx && peer.txBytes == c.tx
    && (c.handshake > 0 ==> peer.latestHandshakeAt == Some(c.handshake))
    && (c.handshake <= 0 ==> peer.latestHandshakeAt == None)
  }

  /** What a report may say of an interface, field by field and peer by peer. */
  ghost predicate IsPublicPart(iface: ManagedInterface, name: Text, c: InterfaceConfig) {
    && iface.name == name && iface.status == [] && iface.addresses == []
    && iface.publicKey == c.publicKey && iface.listenPort == c.listenPort
    && |iface.peers| == |c.peers|
    && forall k | 0 <= k < |c.peers| :: IsPublicPeer(iface.peers[k], c.peers[k])
  }

  lemma {:induction false} PublicPeersMeaning(peers: seq<PeerConfig>)
    ensures |PublicPeers(peers)| == |peers|
    ensures forall k | 0 <= k < |peers| :: IsPublicPeer(PublicPeers(peers)[k], peers[k])
  {
    if peers != [] {
      var n := |peers| - 1;
      PublicPeersMeaning(peers[..n]);
      assert forall k | 0 <= k < n :: peers[..n][k] == peers[k];
      assert IsPublicPeer(PublicPeers(peers)[n], peers[n]);
    }
  }

  lemma PublicPartMeaning(name: Text, c: InterfaceConfig)
    ensures IsPublicPart(PublicInterface(name, c), name, c)
  {
    PublicPeersMeaning(c.peers);
  }

  lemma PublicLinesSnoc(prefix: Text, records: seq<Record>, r: Record)
    ensures PublicLines(prefix, records + [r]) == PublicLines(prefix, records) + [PublicLine(prefix, r)]
  {
  }

  /** Only a name's own records matter for what is reported about it. */
  lemma {:induction false} OnlyOwnRecordsMatter(prefix: Text, records: seq<Record>, name: Text)
    requires prefix <= name
    ensures InterfaceFor(PublicLines(prefix, records), name)
              == InterfaceFor(PublicLines(prefix, Project(records, name)), name)
  {
    if records != [] {
      var n := |records| - 1;
      var init, last := records[..n], records[n];
      OnlyOwnRecordsMatter(prefix, init, name);
      assert records == init + [last];
      PublicLinesSnoc(prefix, init, last);
      InterfaceForSnoc(PublicLines(prefix, init), PublicLine(prefix, last), name);
      if last.name == name {
        PublicLinesSnoc(prefix, Project(init, name), last);
        InterfaceForSnoc(PublicLines(prefix, Project(init, name)), PublicLine(prefix, last), name);
      } else {
        assert Project(records, name) == Project(init, name);
      }
    }
  }

  lemma {:induction false} NamedIfRecorded(prefix: Text, records: seq<Record>, name: Text)
    requires prefix <= name
    ensures name in Names(PublicLines(prefix, records)) <==> Project(records, name) != []
  {
    if records != [] {
      var n := |records| - 1;
      NamedIfRecorded(prefix, records[..n], name);
      assert records == records[..n] + [records[n]];
      PublicLinesSnoc(prefix, records[..n], records[n]);
      NamesSnoc(PublicLines(prefix, records[..n]), PublicLine(prefix, records[n]));
    }
  }

  lemma {:induction false} OwnRecordsReport(prefix: Text, name: Text, c: InterfaceConfig, peers: seq<PeerConfig>)
    requires prefix <= name
    ensures var own := [InterfaceRecord(name, c.privateKey, c.publicKey, c.listenPort, c.fwmark)]
              + PeerRecords(name, peers);
            InterfaceFor(PublicLines(prefix, own), name)
            == ManagedInterface(name, "", c.publicKey, c.listenPort, [], PublicPeers(peers))
    decreases |peers|
  {
    var first := InterfaceRecord(name, c.privateKey, c.publicKey, c.listenPort, c.fwmark);
    if peers == [] {
      assert [first] + PeerRecords(name, peers) == [] + [first];
      PublicLinesSnoc(prefix, [], first);
      InterfaceForSnoc(PublicLines(prefix, []), PublicLine(prefix, first), name);
    } else {
      var n := |peers| - 1;
      OwnRecordsReport(prefix, name, c, peers[..n]);
      var own := [first] + PeerRecords(name, peers[..n]);
      var last := PeerRecordOf(name, peers[n]);
      assert [first] + PeerRecords(name, peers) == own + [last];
      PublicLinesSnoc(prefix, own, last);
      InterfaceForSnoc(PublicLines(prefix, own), PublicLine(prefix, last), name);
    }
  }

  lemma IgnoredAtEnd(lines: seq<Line>)
    ensures Reported(lines + [Ignored]) == Reported(lines)
  {
    NamesSnoc(lines, Ignored);
    forall name ensures InterfaceFor(lines + [Ignored], name) == InterfaceFor(lines, name) {
      InterfaceForSnoc(lines, Ignored, name);
    }
  }

  /** Every managed name with a line is configured, and is reported with its public part. */
  lemma ReportedAsConfigured(prefix: Text, config: map<Text, InterfaceConfig>, records: seq<Record>, name: Text)
    requires Interleaves(records, config)
    requires prefix <= name && name in Names(PublicLines(prefix, records))
    ensures name in config && InterfaceFor(PublicLines(prefix, records), name) == PublicInterface(name, config[name])
  {
    NamedIfRecorded(prefix, records, name);
    OnlyOwnRecordsMatter(prefix, records, name);
    assert Project(records, name) == RecordsFor(config, name);
    OwnRecordsReport(prefix, name, config[name], config[name].peers);
  }

  /** Only managed names get a line, and every configured managed name does. */
  lemma NamedIffConfigured(prefix: Text, config: map<Text, InterfaceConfig>, records: seq<Record>, name: Text)
    requires Interleaves(records, config)
    ensures name in Names(PublicLines(prefix, records)) <==> prefix <= name && name in config
  {
    var lines := PublicLines(prefix, records);
    if name in Names(lines) {
      NamesMeaning(lines);
      var k: nat :| IsFirstAbout(lines, k, name);
      assert lines[k] == PublicLine(prefix, records[k]);
      ReportedAsConfigured(prefix, config, records, name);
    }
    if prefix <= name && name in config {
      NamedIfRecorded(prefix, records, name);
      assert Project(records, name) == RecordsFor(config, name);
    }
  }

  lemma PrintedReport(prefix: Text, records: seq<Record>)
    requires forall k | 0 <= k < |records| :: IsPrintable(records[k])
    ensures Reported(LinesOf(prefix, Split(Print(records), '\n'))) == Reported(PublicLines(prefix, records))
  {
    LinesOfPrinted(prefix, records);
    IgnoredAtEnd(PublicLines(prefix, records));
  }

  /** The first record about `name`. */
  ghost predicate IsFirstRecord(records: seq<Record>, a: nat, name: Text) {
    a < |records| && records[a].name == name && forall k | 0 <= k < a :: records[k].name != name
  }

  lemma FirstRecordIsFirstLine(prefix: Text, records: seq<Record>, a: nat, name: Text)
    requires prefix <= name && IsFirstRecord(records, a, name)
    ensures IsFirstAbout(PublicLines(prefix, records), a, name)
  {
  }

  /** Printing any set of interfaces, with the lines of different interfaces interleaved in any way
      that keeps each one's own order, and parsing the text gives exactly the public part of the
      managed ones, each once and in order of first record. */
  lemma PrintThenParse(prefix: Text, config: map<Text, InterfaceConfig>, records: seq<Record>)
    requires Interleaves(records, config)
    requires forall i | 0 <= i < |records| :: IsPrintable(records[i])
    ensures var report := Reported(LinesOf(prefix, Split(Print(records), '\n')));
            && (forall i | 0 <= i < |report| ::
                  && prefix <= report[i].name && report[i].name in config
                  && IsPublicPart(report[i], report[i].name, config[report[i].name]))
            && (forall name | name in config && prefix <= name :: exists i ::
                0 <= i < |report| && report[i].name == name)
            && (forall i, j | 0 <= i < j < |report| :: report[i].name != report[j].name)
            && (forall i, j, a, b | 0 <= i < j < |report| && IsFirstRecord(records, a, report[i].name)
                                    && IsFirstRecord(records, b, report[j].name) :: a < b)
  {
    var lines := PublicLines(prefix, records);
    PrintedReport(prefix, records);
    NamesMeaning(lines);
    var names := Names(lines);
    forall i, j, a, b | 0 <= i < j < |names| && IsFirstRecord(records, a, names[i])
        && IsFirstRecord(records, b, names[j])
      ensures a < b
    {
      assert names[i] in names && names[j] in names;
      NamedIffConfigured(prefix, config, records, names[i]);
      NamedIffConfigured(prefix, config, records, names[j]);
      FirstRecordIsFirstLine(prefix, records, a, names[i]);
      FirstRecordIsFirstLine(prefix, records, b, names[j]);
    }
    forall i | 0 <= i < |names|
      ensures && prefix <= names[i] && names[i] in config
              && IsPublicPart(InterfaceFor(lines, names[i]), names[i], config[names[i]])
    {
      var name := names[i];
      assert name in names;
      NamedIffConfigured(prefix, config, records, name);
      ReportedAsConfigured(prefix, config, records, name);
      PublicPartMeaning(name, config[name]);
    }
    forall name | name in config && prefix <= name
      ensures exists i :: 0 <= i < |names| && Reported(lines)[i].name == name
    {
      NamedIffConfigured(prefix, config, records, name);
      var i :| 0 <= i < |names| && names[i] == name;
      assert Reported(lines)[i].name == name;
    }
  }

  /** The peer records about one interface. */
  function PeersAbout(records: seq<Record>, name: Text): seq<Record> {
    if records == [] then []
    else
      var last := records[|records| - 1];
      PeersAbout(records[..|records| - 1], name) + (if last.PeerRecord? && last.name == name then [last] else [])
  }

  lemma {:induction false} PeersAboutCount(prefix: Text, records: seq<Record>, name: Text)
    requires prefix <= name
    ensures |PeersFrom(PublicLines(prefix, records), name, 0)| == |PeersAbout(records, name)|
  {
    if records != [] {
      var n := |records| - 1;
      PeersAboutCount(prefix, records[..n], name);
      assert records == records[..n] + [records[n]];
      PublicLinesSnoc(prefix, records[..n], records[n]);
      var lines := PublicLines(prefix, records);
      assert lines[..n] == PublicLines(prefix, records[..n]);
    }
  }

  lemma FewerPeers(lines: seq<Line>, name: Text, i: nat, j: nat)
    requires i < j < |lines| && lines[i].PeerLine? && lines[i].name == name
    requires lines[j].InterfaceLine? && lines[j].name == name
    ensures exists q :: && 0 <= q < |Reported(lines)| && Reported(lines)[q].name == name
                        && |Reported(lines)[q].peers| < |PeersFrom(lines, name, 0)|
  {
    if name !in Names(lines) {
      NotNamed(lines, name);
      assert IsAbout(lines[i], name);
    }
    AllPeersKeptIff(lines, name);
    PeersFromSplit(lines, name, LastInterface(lines, name) + 1);
    var q :| 0 <= q < |Names(lines)| && Names(lines)[q] == name;
    assert Reported(lines)[q] == InterfaceFor(lines, name);
  }

  /** Whenever an interface line comes after a peer line of the same interface, the interface is
      reported with fewer peers than the dump has lines for. */
  lemma EarlyPeerIsLost(prefix: Text, records: seq<Record>, i: nat, j: nat)
    requires forall k | 0 <= k < |records| :: IsPrintable(records[k])
    requires i < j < |records| && records[i].PeerRecord? && records[j].InterfaceRecord?
    requires records[i].name == records[j].name && prefix <= records[i].name
    ensures var report := Reported(LinesOf(prefix, Split(Print(records), '\n')));
            exists q :: && 0 <= q < |report| && report[q].name == records[i].name
                        && |report[q].peers| < |PeersAbout(records, records[i].name)|
  {
    var lines, name := PublicLines(prefix, records), records[i].name;
    PrintedReport(prefix, records);
    FewerPeers(lines, name, i, j);
    PeersAboutCount(prefix, records, name);
  }

  /** A dump of two lines, the peer's before its interface's: the peer is gone. */
  lemma EarlyPeerExample()
    ensures var peer := PeerRecord("wg0", "P", "S", "E", "A", 1, 2, 3, "off");
            var own := InterfaceRecord("wg0", "K", "Q", 5, "off");
            Reported(LinesOf("wg", Split(Print([peer, own]), '\n'))) == [ManagedInterface("wg0", "", "Q", 5, [], [])]
  {
    var peer := PeerRecord("wg0", "P", "S", "E", "A", 1, 2, 3, "off");
    var own := InterfaceRecord("wg0", "K", "Q", 5, "off");
    TwoLinesReported("wg", peer, own);
  }

  lemma TwoLinesReported(prefix: Text, peer: Record, own: Record)
    requires peer.PeerRecord? && own.InterfaceRecord? && peer.name == own.name && prefix <= own.name
    requires IsPrintable(peer) && IsPrintable(own)
    ensures Reported(LinesOf(prefix, Split(Print([peer, own]), '\n'))) ==
            [ManagedInterface(own.name, "", own.publicKey, own.listenPort, [], [])]
  {
    var first, second := PublicLine(prefix, peer), PublicLine(prefix, own);
    PrintedReport(prefix, [peer, own]);
    assert PublicLines(prefix, [peer, own]) == [first] + [second];
    NamesSnoc([], first);
    assert [] + [first] == [first];
    NamesSnoc([first], second);
    InterfaceForSnoc([first], second, own.name);
  }

  // ---------------------------------------------------------------- addresses

  datatype AddressEntry = AddressEntry(status: Text, addresses: seq<Text>)

  /** One entry of the decoded address list. */
  datatype LinkEntry = LinkEntry(ifName: Text, operState: Text, addresses: seq<(Text, int)>)

  function AddressTexts(addresses: seq<(Text, int)>): (texts: seq<Text>)
    ensures |texts| == |addresses|
    ensures forall i | 0 <= i < |addresses| :: texts[i] == addresses[i].0 + "/" + FormatInt(addresses[i].1)
  {
    seq(|addresses|, i requires 0 <= i < |addresses| => addresses[i].0 + "/" + FormatInt(addresses[i].1))
  }

  function StatusText(upper: Text -> Text, operState: Text): Text {
    if upper(operState) == "" then "UNKNOWN" else upper(operState)
  }

  /** The last entry for `name` decides. */
  function LastEntry(entries: seq<LinkEntry>, name: Text): Option<LinkEntry> {
    if entries == [] then None
    else if entries[|entries| - 1].ifName == name then Some(entries[|entries| - 1])
    else LastEntry(entries[..|entries| - 1], name)
  }

  /** The managed interfaces, each with its last entry: the state in upper case, UNKNOWN when it is
      empty, and every address with its prefix length. */
  ghost predicate IsTableOf(table: map<Text, AddressEntry>, upper: Text -> Text, prefix: Text,
                            entries: seq<LinkEntry>) {
    && (forall name :: name in table <==> prefix <= name && LastEntry(entries, name).Some?)
    && (forall name | name in table :: IsEntryOf(table[name], upper, LastEntry(entries, name).value))
  }

  predicate IsEntryOf(entry: AddressEntry, upper: Text -> Text, e: LinkEntry) {
    && entry.status == (if upper(e.operState) == [] then "UNKNOWN" else upper(e.operState))
    && |entry.addresses| == |e.addresses|
    && forall k | 0 <= k < |e.addresses| ::
         entry.addresses[k] == e.addresses[k].0 + ['/'] + FormatInt(e.addresses[k].1)
  }

  lemma EntryMeaning(upper: Text -> Text, e: LinkEntry)
    ensures IsEntryOf(AddressEntry(StatusText(upper, e.operState), AddressTexts(e.addresses)), upper, e)
  {
  }

  /** ParseIPAddrJSON after decoding; `upper` is strings.ToUpper. */
  method ParseAddresses(upper: Text -> Text, entries: seq<LinkEntry>, prefix: Text)
    returns (table: map<Text, AddressEntry>)
    ensures IsTableOf(table, upper, prefix, entries)
  {
    table := map[];
    var i := 0;
    while i < |entries|
      invariant 0 <= i <= |entries|
      invariant forall name :: name in table <==> prefix <= name && LastEntry(entries[..i], name).Some?
      invariant forall name | name in table ::
                  IsEntryOf(table[name], upper, LastEntry(entries[..i], name).value)
    {
      var entry := entries[i];
      EntryMeaning(upper, entry);
      assert entries[..i + 1][..i] == entries[..i];
      if prefix <= entry.ifName {
        table := table[entry.ifName := AddressEntry(StatusText(upper, entry.operState), AddressTexts(entry.addresses))];
      }
      i := i + 1;
    }
    assert entries[..i] == entries;
  }

  function Enrich(iface: ManagedInterface, table: map<Text, AddressEntry>): ManagedInterface {
    if iface.name !in table then iface
    else
      var entry := table[iface.name];
      iface.(addresses := entry.addresses, status := if iface.status == "" then entry.status else iface.status)
  }

  /** listManagedInterfaces' loop over the parsed interfaces, in place. */
  method EnrichInPlace(interfaces: array<ManagedInterface>, table: map<Text, AddressEntry>)
    modifies interfaces
    ensures forall i | 0 <= i < interfaces.Length :: interfaces[i] == Enrich(old(interfaces[i]), table)
  {
    var i := 0;
    while i < interfaces.Length
      invariant 0 <= i <= interfaces.Length
      invariant forall j | 0 <= j < i :: interfaces[j] == Enrich(old(interfaces[j]), table)
      invariant forall j | i <= j < interfaces.Length :: interfaces[j] == old(interfaces[j])
    {
      var iface := interfaces[i];
      if iface.name in table {
        var entry := table[iface.name];
        interfaces[i] := iface.(addresses := entry.addresses);
        if interfaces[i].status == "" {
          interfaces[i] := interfaces[i].(status := entry.status);
        }
      }
      i := i + 1;
    }
  }

  /** The interfaces of a state report: parsed, then joined with the address table if there is one. */
  function ListedInterfaces(prefix: Text, dump: Text, table: Option<map<Text, AddressEntry>>): seq<ManagedInterface> {
    var parsed := Reported(LinesOf(prefix, Split(dump, '\n')));
    if table.None? then parsed
    else seq(|parsed|, i requires 0 <= i < |parsed| => Enrich(parsed[i], table.value))
  }

  /** listManagedInterfaces: `dump` is None when wg fails, `entries` when ip or its decoding does. */
  method ListManagedInterfaces(prefix: Text, dump: Option<Text>, upper: Text -> Text, entries: Option<seq<LinkEntry>>)
    returns (listed: seq<ManagedInterface>)
    ensures dump.None? ==> listed == []
    ensures dump.Some? && entries.None? ==> listed == ListedInterfaces(prefix, dump.value, None)
    ensures dump.Some? && entries.Some? ==> exists table ::
              && listed == ListedInterfaces(prefix, dump.value, Some(table))
              && IsTableOf(table, upper, prefix, entries.value)
  {
    if dump.None? {
      return [];
    }
    var parsed := ParseWireGuardDump(prefix, dump.value);
    if entries.None? {
      return parsed;
    }
    var table := ParseAddresses(upper, entries.value, prefix);
    var interfaces := new ManagedInterface[|parsed|](i requires 0 <= i < |parsed| => parsed[i]);
    EnrichInPlace(interfaces, table);
    listed := interfaces[..];
    assert listed == ListedInterfaces(prefix, dump.value, Some(table));
  }

  /** The address-enriched report hides the ignored fields too. */
  lemma IgnoredFieldsStayInListed(prefix: Text, rows1: seq<seq<Text>>, rows2: seq<seq<Text>>,
                                  table: Option<map<Text, AddressEntry>>)
    requires IsTable(rows1) && IsTable(rows2) && |rows1| == |rows2|
    requires forall i | 0 <= i < |rows1| :: SamePublicFields(rows1[i], rows2[i])
    ensures ListedInterfaces(prefix, Dump(rows1), table) == ListedInterfaces(prefix, Dump(rows2), table)
  {
    IgnoredFieldsStayIn(prefix, rows1, rows2);
  }
}
