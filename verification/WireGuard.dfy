/** Parsing of a WireGuard dump: a loop over lines that fills a map of mutable interfaces. */
module WireGuard {
  import opened Strings
  import opened Decimal

  /** A peer's public summary; the handshake time is in seconds. */
  datatype Peer = Peer(publicKey: Text, latestHandshakeAt: Option<int>, rxBytes: int, txBytes: int)

  datatype ManagedInterface = ManagedInterface(
    name: Text, status: Text, publicKey: Text, listenPort: int, addresses: seq<Text>, peers: seq<Peer>)

  // ---------------------------------------------------------------- one line

  /** What the parser makes of one line. */
  datatype Line =
    | Ignored
    | InterfaceLine(name: Text, publicKey: Text, listenPort: int)
    | PeerLine(name: Text, peer: Peer)

  function HandshakeTime(seconds: int): Option<int> {
    if seconds > 0 then Some(seconds) else None
  }

  function ParsePeer(fields: seq<Text>): Peer
    requires |fields| >= 9
  {
    Peer(fields[2], HandshakeTime(ParseInt64OrZero(fields[6])), ParseInt64OrZero(fields[7]),
         ParseInt64OrZero(fields[8]))
  }

  function ClassifyFields(prefix: Text, fields: seq<Text>): Line
    requires |fields| >= 1
  {
    if |fields| < 2 || !(prefix <= fields[0]) then Ignored
    else if |fields| >= 5 && fields[1] != "peer" then
      InterfaceLine(fields[0], fields[2], ParseInt64OrZero(fields[3]))
    else if |fields| >= 10 && fields[1] == "peer" then PeerLine(fields[0], ParsePeer(fields))
    else Ignored
  }

  function Classify(prefix: Text, line: Text): Line {
    if line == "" then Ignored else ClassifyFields(prefix, Split(line, '\t'))
  }

  /** What each line of a dump is, on arbitrary fields. */
  lemma ClassifyMeaning(prefix: Text, fields: seq<Text>)
    requires |fields| >= 1
    ensures var line := ClassifyFields(prefix, fields);
            if |fields| >= 5 && prefix <= fields[0] && fields[1] != "peer" then
              line == InterfaceLine(fields[0], fields[2], ParseInt64OrZero(fields[3]))
            else if |fields| >= 10 && prefix <= fields[0] && fields[1] == "peer" then
              && line.PeerLine? && line.name == fields[0]
              && line.peer.publicKey == fields[2]
              && (var t := ParseInt64OrZero(fields[6]);
                  line.peer.latestHandshakeAt == if t > 0 then Some(t) else None)
              && line.peer.rxBytes == ParseInt64OrZero(fields[7])
              && line.peer.txBytes == ParseInt64OrZero(fields[8])
            else line == Ignored
  {
  }

  function LinesOf(prefix: Text, texts: seq<Text>): (lines: seq<Line>)
    ensures |lines| == |texts|
    ensures forall i | 0 <= i < |texts| :: lines[i] == Classify(prefix, texts[i])
  {
    seq(|texts|, i requires 0 <= i < |texts| => Classify(prefix, texts[i]))
  }

  // ---------------------------------------------------------------- what a dump means

  predicate IsAbout(line: Line, name: Text) {
    !line.Ignored? && line.name == name
  }

  /** The names of the recognised lines, in order of first appearance. */
  function Names(lines: seq<Line>): seq<Text> {
    if lines == [] then []
    else
      var names, last := Names(lines[..|lines| - 1]), lines[|lines| - 1];
      if last.Ignored? || last.name in names then names else names + [last.name]
  }

  /** The index of the last interface line for `name`, or -1. */
  function LastInterface(lines: seq<Line>, name: Text): (k: int)
    ensures -1 <= k < |lines|
    ensures k >= 0 ==> lines[k].InterfaceLine? && lines[k].name == name
    ensures forall i | k < i < |lines| :: !(lines[i].InterfaceLine? && lines[i].name == name)
  {
    if lines == [] then -1
    else
      var last := lines[|lines| - 1];
      if last.InterfaceLine? && last.name == name then |lines| - 1
      else
        var k := LastInterface(lines[..|lines| - 1], name);
        assert forall i | 0 <= i < |lines| - 1 :: lines[i] == lines[..|lines| - 1][i];
        k
  }

  /** The peers of the peer lines for `name` at index `from` and later, in order. */
  function PeersFrom(lines: seq<Line>, name: Text, from: int): seq<Peer> {
    if lines == [] || |lines| <= from then []
    else
      var last := lines[|lines| - 1];
      PeersFrom(lines[..|lines| - 1], name, from) + (if last.PeerLine? && last.name == name then [last.peer] else [])
  }

  /** The interface a dump reports for a name: the fields of its last interface line, with exactly
      the later peers; without an interface line a placeholder with all its peers. */
  function InterfaceFor(lines: seq<Line>, name: Text): ManagedInterface {
    var k := LastInterface(lines, name);
    var peers := PeersFrom(lines, name, k + 1);
    if k < 0 then ManagedInterface(name, "", "", 0, [], peers)
    else ManagedInterface(name, "", lines[k].publicKey, lines[k].listenPort, [], peers)
  }

  function Reported(lines: seq<Line>): seq<ManagedInterface> {
    var names := Names(lines);
    seq(|names|, i requires 0 <= i < |names| => InterfaceFor(lines, names[i]))
  }

  // ---------------------------------------------------------------- laws of the meaning

  /** How one more line changes the interface reported for a name. */
  lemma InterfaceForSnoc(lines: seq<Line>, line: Line, name: Text)
    ensures InterfaceFor(lines + [line], name) ==
            if !IsAbout(line, name) then InterfaceFor(lines, name)
            else match line
              case InterfaceLine(_, key, port) => ManagedInterface(name, "", key, port, [], [])
              case PeerLine(_, peer) => InterfaceFor(lines, name).(peers := InterfaceFor(lines, name).peers + [peer])
  {
    var more := lines + [line];
    assert more[..|more| - 1] == lines;
    var k := LastInterface(lines, name);
    assert PeersFrom(more, name, k + 1) == PeersFrom(lines, name, k + 1) +
                                           (if line.PeerLine? && line.name == name then [line.peer] else []);
    if k >= 0 { assert more[k] == lines[k]; }
  }

  lemma NamesSnoc(lines: seq<Line>, line: Line)
    ensures Names(lines + [line]) ==
            if line.Ignored? || line.name in Names(lines) then Names(lines) else Names(lines) + [line.name]
  {
    assert (lines + [line])[..|lines|] == lines;
  }

  /** The first line about `name`. */
  ghost predicate IsFirstAbout(lines: seq<Line>, i: nat, name: Text) {
    i < |lines| && IsAbout(lines[i], name) && forall j | 0 <= j < i :: !IsAbout(lines[j], name)
  }

  /** Names are distinct, are those of the recognised lines, and come in order of first line. */
  lemma {:induction false} NamesMeaning(lines: seq<Line>)
    ensures forall i, j | 0 <= i < j < |Names(lines)| :: Names(lines)[i] != Names(lines)[j]
    ensures forall name :: name in Names(lines) <==> exists i :: IsFirstAbout(lines, i, name)
    ensures forall i, j, a, b | 0 <= i < j < |Names(lines)| ::
              IsFirstAbout(lines, a, Names(lines)[i]) && IsFirstAbout(lines, b, Names(lines)[j]) ==> a < b
  {
    if lines != [] {
      var n := |lines| - 1;
      var init, last := lines[..n], lines[n];
      NamesMeaning(init);
      assert forall i | 0 <= i < n :: init[i] == lines[i];
      assert forall i: nat, name | i < n :: IsFirstAbout(init, i, name) <==> IsFirstAbout(lines, i, name);
      forall name ensures name in Names(lines) <==> exists i :: IsFirstAbout(lines, i, name) {
        if name in Names(init) {
          var i :| IsFirstAbout(init, i, name);
          assert IsFirstAbout(lines, i, name);
        } else if name in Names(lines) {
          assert forall j | 0 <= j < n :: !IsAbout(lines[j], name) by { NotNamed(init, name); }
          assert IsFirstAbout(lines, n, name);
        } else {
          NotNamed(lines, name);
        }
      }
    }
  }

  lemma {:induction false} NotNamed(lines: seq<Line>, name: Text)
    requires name !in Names(lines)
    ensures forall j | 0 <= j < |lines| :: !IsAbout(lines[j], name)
  {
    if lines != [] {
      NotNamed(lines[..|lines| - 1], name);
      assert forall j | 0 <= j < |lines| - 1 :: lines[j] == lines[..|lines| - 1][j];
    }
  }

  /** Only names with the managed prefix are reported. */
  lemma ReportedHavePrefix(prefix: Text, texts: seq<Text>)
    ensures forall i | 0 <= i < |Reported(LinesOf(prefix, texts))| :: prefix <= Reported(LinesOf(prefix, texts))[i].name
  {
    var lines := LinesOf(prefix, texts);
    NamesMeaning(lines);
    forall i | 0 <= i < |Reported(lines)| ensures prefix <= Reported(lines)[i].name {
      assert Names(lines)[i] in Names(lines);
      var k: nat :| IsFirstAbout(lines, k, Names(lines)[i]);
      assert lines[k] == Classify(prefix, texts[k]);
    }
  }

  // ---------------------------------------------------------------- peers that come too early

  lemma {:induction false} PeersFromSplit(lines: seq<Line>, name: Text, from: nat)
    requires from <= |lines|
    ensures PeersFrom(lines, name, 0) == PeersFrom(lines[..from], name, 0) + PeersFrom(lines, name, from)
  {
    if from == |lines| {
      assert lines[..from] == lines;
    } else {
      var init := lines[..|lines| - 1];
      PeersFromSplit(init, name, from);
      assert init[..from] == lines[..from];
    }
  }

  lemma {:induction false} NoPeersIff(lines: seq<Line>, name: Text)
    ensures PeersFrom(lines, name, 0) == [] <==>
            forall i | 0 <= i < |lines| :: !(lines[i].PeerLine? && lines[i].name == name)
  {
    if lines != [] {
      var init := lines[..|lines| - 1];
      NoPeersIff(init, name);
      assert forall i | 0 <= i < |init| :: init[i] == lines[i];
    }
  }

  /** Every peer line of an interface is reported exactly when none of its interface lines comes
      after one of them: an early peer is kept in a placeholder, and lost with it. */
  lemma AllPeersKeptIff(lines: seq<Line>, name: Text)
    ensures InterfaceFor(lines, name).peers == PeersFrom(lines, name, 0) <==>
            forall i, j | 0 <= i < j < |lines| && lines[i].PeerLine? && lines[i].name == name ::
              !(lines[j].InterfaceLine? && lines[j].name == name)
  {
    var k := LastInterface(lines, name);
    var early := lines[..k + 1];
    PeersFromSplit(lines, name, k + 1);
    NoPeersIff(early, name);
    assert forall i | 0 <= i < |early| :: early[i] == lines[i];
    assert InterfaceFor(lines, name).peers == PeersFrom(lines, name, k + 1);
    if PeersFrom(early, name, 0) != [] {
      var i :| 0 <= i < |early| && early[i].PeerLine? && early[i].name == name;
      assert i < k && lines[k].InterfaceLine?;
      assert |PeersFrom(lines, name, 0)| > |PeersFrom(lines, name, k + 1)|;
    }
  }

  // ---------------------------------------------------------------- the parser

  /** An entry of the parser's map, updated through its pointer. */
  class Entry {
    var name: Text
    var publicKey: Text
    var listenPort: int
    var peers: seq<Peer>

    constructor (name: Text, publicKey: Text, listenPort: int)
      ensures View() == ManagedInterface(name, "", publicKey, listenPort, [], [])
    {
      this.name, this.publicKey, this.listenPort, this.peers := name, publicKey, listenPort, [];
    }

    function View(): ManagedInterface
      reads this
    {
      ManagedInterface(name, "", publicKey, listenPort, [], peers)
    }

    method AppendPeer(peer: Peer)
      modifies this
      ensures View() == old(View()).(peers := old(View()).peers + [peer])
    {
      peers := peers + [peer];
    }
  }

  /** The map and the order list hold what the lines read so far mean. */
  ghost predicate Holds(interfaces: map<Text, Entry>, order: seq<Text>, lines: seq<Line>)
    reads interfaces.Values
  {
    && order == Names(lines)
    && (forall name :: name in interfaces <==> name in order)
    && (forall name | name in interfaces :: interfaces[name].View() == InterfaceFor(lines, name))
    && (forall a, b | a in interfaces && b in interfaces && a != b :: interfaces[a] != interfaces[b])
  }

  lemma HoldsUnchanged(interfaces: map<Text, Entry>, order: seq<Text>, lines: seq<Line>)
    requires Holds(interfaces, order, lines)
    ensures Holds(interfaces, order, lines + [Ignored])
  {
    NamesSnoc(lines, Ignored);
    forall name ensures InterfaceFor(lines + [Ignored], name) == InterfaceFor(lines, name) {
      InterfaceForSnoc(lines, Ignored, name);
    }
  }

  lemma UnnamedInterface(lines: seq<Line>, name: Text)
    requires name !in Names(lines)
    ensures InterfaceFor(lines, name) == ManagedInterface(name, "", "", 0, [], [])
  {
    NotNamed(lines, name);
    UnnamedPeers(lines, name, 0);
  }

  lemma {:induction false} UnnamedPeers(lines: seq<Line>, name: Text, from: int)
    requires forall j | 0 <= j < |lines| :: !IsAbout(lines[j], name)
    ensures PeersFrom(lines, name, from) == []
  {
    if lines != [] {
      assert forall j | 0 <= j < |lines| - 1 :: lines[j] == lines[..|lines| - 1][j];
      UnnamedPeers(lines[..|lines| - 1], name, from);
    }
  }

  /** How a line changes the meaning: only for the name it is about. */
  lemma MeaningStep(lines: seq<Line>, line: Line)
    ensures Names(lines + [line]) ==
            if line.Ignored? || line.name in Names(lines) then Names(lines) else Names(lines) + [line.name]
    ensures forall name | !IsAbout(line, name) :: InterfaceFor(lines + [line], name) == InterfaceFor(lines, name)
  {
    NamesSnoc(lines, line);
    forall name | !IsAbout(line, name) ensures InterfaceFor(lines + [line], name) == InterfaceFor(lines, name) {
      InterfaceForSnoc(lines, line, name);
    }
  }

  method TakeInterfaceLine(interfaces: map<Text, Entry>, order: seq<Text>, line: Line, ghost before: seq<Line>)
    returns (interfaces': map<Text, Entry>, order': seq<Text>)
    requires line.InterfaceLine? && Holds(interfaces, order, before)
    ensures Holds(interfaces', order', before + [line])
    ensures forall name | name in interfaces' ::
              fresh(interfaces'[name]) || (name in interfaces && interfaces'[name] == interfaces[name])
  {
    var name := line.name;
    MeaningStep(before, line);
    InterfaceForSnoc(before, line, name);
    var entry := new Entry(name, line.publicKey, line.listenPort);
    order' := if name in interfaces then order else order + [name];
    interfaces' := interfaces[name := entry];
  }

  method TakePeerLine(interfaces: map<Text, Entry>, order: seq<Text>, line: Line, ghost before: seq<Line>)
    returns (interfaces': map<Text, Entry>, order': seq<Text>)
    requires line.PeerLine? && Holds(interfaces, order, before)
    modifies interfaces.Values
    ensures Holds(interfaces', order', before + [line])
    ensures forall name | name in interfaces' ::
              fresh(interfaces'[name]) || (name in interfaces && interfaces'[name] == interfaces[name])
  {
    var name := line.name;
    MeaningStep(before, line);
    InterfaceForSnoc(before, line, name);
    interfaces', order' := interfaces, order;
    if name !in interfaces {
      UnnamedInterface(before, name);
      var placeholder := new Entry(name, "", 0);
      interfaces', order' := interfaces[name := placeholder], order + [name];
    }
    assert interfaces'[name].View() == InterfaceFor(before, name);
    assert name in interfaces ==> interfaces[name] in interfaces.Values;
    interfaces'[name].AppendPeer(line.peer);
  }

  method TakeLine(interfaces: map<Text, Entry>, order: seq<Text>, line: Line, ghost before: seq<Line>)
    returns (interfaces': map<Text, Entry>, order': seq<Text>)
    requires Holds(interfaces, order, before)
    modifies interfaces.Values
    ensures Holds(interfaces', order', before + [line])
    ensures forall name | name in interfaces' ::
              fresh(interfaces'[name]) || (name in interfaces && interfaces'[name] == interfaces[name])
  {
    match line
    case Ignored =>
      HoldsUnchanged(interfaces, order, before);
      interfaces', order' := interfaces, order;
    case InterfaceLine(_, _, _) =>
      interfaces', order' := TakeInterfaceLine(interfaces, order, line, before);
    case PeerLine(_, _) =>
      interfaces', order' := TakePeerLine(interfaces, order, line, before);
  }

  method ParseWireGuardDump(prefix: Text, data: Text) returns (result: seq<ManagedInterface>)
    ensures result == Reported(LinesOf(prefix, Split(data, '\n')))
  {
    var interfaces: map<Text, Entry> := map[];
    var order: seq<Text> := [];
    var texts := Split(data, '\n');
    ghost var lines := LinesOf(prefix, texts);
    var i := 0;
    while i < |texts|
      invariant 0 <= i <= |texts|
      invariant forall name | name in interfaces :: fresh(interfaces[name])
      invariant Holds(interfaces, order, lines[..i])
    {
      var line := Classify(prefix, texts[i]);
      assert lines[..i + 1] == lines[..i] + [line];
      interfaces, order := TakeLine(interfaces, order, line, lines[..i]);
      i := i + 1;
    }
    assert lines[..i] == lines;
    result := CopyOut(interfaces, order, lines);
  }

  method CopyOut(interfaces: map<Text, Entry>, order: seq<Text>, ghost lines: seq<Line>)
    returns (result: seq<ManagedInterface>)
    requires Holds(interfaces, order, lines)
    ensures result == Reported(lines)
  {
    result := [];
    var k := 0;
    while k < |order|
      invariant 0 <= k <= |order| && |result| == k
      invariant forall j | 0 <= j < k :: result[j] == InterfaceFor(lines, order[j])
    {
      assert order[k] in order;
      result := result + [interfaces[order[k]].View()];
      k := k + 1;
    }
  }
}
