/** via.go: the entries of Via headers, and where a response to them goes. */
module Vias {
  import opened Wrappers
  import opened Text
  import opened KeyValues

  datatype ViaEntry = ViaEntry(
    protocolName: string, protocolVersion: string, transport: string,
    host: string, port: int, params: seq<KeyValue>)

  const BRANCH := "branch"
  const RECEIVED := "received"
  const RPORT := "rport"

  function GetPort(v: ViaEntry): int {
    if v.port != 0 then v.port else if v.transport == "TLS" then 5061 else 5060
  }

  function GetSentBy(v: ViaEntry): string {
    v.host + ":" + Itoa(GetPort(v))
  }

  function GetBranch(v: ViaEntry): Option<string> {
    Lookup(v.params, BRANCH)
  }

  /** Absent when there is no `rport` or when its value is no number, as for the bare request flag. */
  function GetRPort(v: ViaEntry): Option<int> {
    var text :- Lookup(v.params, RPORT);
    Atoi(text)
  }

  // ---- reading and printing ----

  function ParsePairs(items: seq<string>): (r: seq<KeyValue>)
    ensures |r| == |items|
    ensures forall i :: 0 <= i < |items| ==> r[i] == ParsePair(items[i])
  {
    seq(|items|, i requires 0 <= i < |items| => ParsePair(items[i]))
  }

  function ParsePort(sentBy: seq<string>): Option<int> {
    if |sentBy| == 2 then Atoi(sentBy[1]) else Some(0)
  }

  function ParseViaParam(s: string): Option<ViaEntry> {
    var t := Split(s, ';');
    var sent := Fields(t[0]);
    if |sent| != 2 then None
    else
      var protocol, address := Split(sent[0], '/'), Split(sent[1], ':');
      if |protocol| != 3 || |address| > 2 then None
      else
        var port :- ParsePort(address);
        Some(ViaEntry(protocol[0], protocol[1], protocol[2], address[0], port, ParsePairs(t[1..])))
  }

  function ParseViaParams(items: seq<string>): Option<seq<ViaEntry>> {
    if items == [] then Some([])
    else
      var v :- ParseViaParam(items[0]);
      var rest :- ParseViaParams(items[1..]);
      Some([v] + rest)
  }

  function ParseVia(s: string): Option<seq<ViaEntry>> {
    ParseViaParams(Split(s, ','))
  }

  function SentProtocol(v: ViaEntry): string {
    v.protocolName + "/" + (v.protocolVersion + "/" + v.transport)
  }

  function PrintViaParam(v: ViaEntry): string {
    SentProtocol(v) + " " + GetSentBy(v) + PrintParams(v.params)
  }

  function PrintViaItems(vs: seq<ViaEntry>): (r: seq<string>)
    ensures |r| == |vs|
    ensures forall i :: 0 <= i < |vs| ==> r[i] == PrintViaParam(vs[i])
  {
    seq(|vs|, i requires 0 <= i < |vs| => PrintViaParam(vs[i]))
  }

  function PrintVia(vs: seq<ViaEntry>): string {
    Join(PrintViaItems(vs), ',')
  }

  predicate Word(s: string) {
    ',' !in s && ';' !in s && NoSpace(s)
  }

  predicate PrintableViaParam(p: KeyValue) {
    ',' !in p.key && ';' !in p.key && '=' !in p.key && ',' !in p.value && ';' !in p.value
  }

  /** What every parsed entry satisfies (ParsedViaIsPrintable). */
  predicate PrintableVia(v: ViaEntry) {
    && Word(v.protocolName) && '/' !in v.protocolName
    && Word(v.protocolVersion) && '/' !in v.protocolVersion
    && Word(v.transport) && '/' !in v.transport
    && Word(v.host) && ':' !in v.host
    && IsInt64(v.port)
    && forall p :: p in v.params ==> PrintableViaParam(p)
  }

  /** A printed entry always names its port. */
  function Defaulted(v: ViaEntry): ViaEntry {
    v.(port := GetPort(v))
  }

  function DefaultedAll(vs: seq<ViaEntry>): (r: seq<ViaEntry>)
    ensures |r| == |vs|
    ensures forall i :: 0 <= i < |vs| ==> r[i] == Defaulted(vs[i])
  {
    seq(|vs|, i requires 0 <= i < |vs| => Defaulted(vs[i]))
  }

  lemma {:induction false} PairsReadBack(ps: seq<KeyValue>)
    requires forall p :: p in ps ==> PrintableViaParam(p)
    ensures ParsePairs(PrintPairs(ps)) == ps
  {
    hide ParsePair, PrintPair;
    forall i | 0 <= i < |ps|
      ensures ParsePair(PrintPairs(ps)[i]) == ps[i]
    {
      assert PrintableViaParam(ps[i]) by { assert ps[i] in ps; }
      PairRoundTrip(ps[i]);
    }
  }

  /** The text before the first `;` and the printed parameters split apart again. */
  lemma HeadAndParamsSplit(head: string, ps: seq<KeyValue>)
    requires ';' !in head
    requires forall p :: p in ps ==> PrintableViaParam(p)
    ensures Split(head + PrintParams(ps), ';') == [head] + PrintPairs(ps)
  {
    hide Split, PrintParams, PrintPair;
    var items := [head] + PrintPairs(ps);
    PrintParamsJoins(ps);
    assert items[1..] == PrintPairs(ps);
    assert head + PrintParams(ps) == Join(items, ';') by {
      if ps == [] {
        assert PrintPairs(ps) == [];
        assert head + "" == head;
      } else {
        assert head + PrintParams(ps) == head + [';'] + Join(PrintPairs(ps), ';');
      }
    }
    forall t | t in items
      ensures ';' !in t
    {
      if t != head {
        var i :| 0 <= i < |ps| && t == PrintPairs(ps)[i];
        assert PrintableViaParam(ps[i]) by { assert ps[i] in ps; }
        PrintPairLacks(ps[i], ';');
      }
    }
    SplitJoin(items, ';');
  }

  lemma PrintPairLacks(p: KeyValue, c: char)
    requires c != '=' && c !in p.key && c !in p.value
    ensures c !in PrintPair(p)
  {
  }

  lemma SentProtocolSplits(v: ViaEntry)
    requires PrintableVia(v)
    ensures Split(SentProtocol(v), '/') == [v.protocolName, v.protocolVersion, v.transport]
  {
    hide Split;
    var parts := [v.protocolName, v.protocolVersion, v.transport];
    assert parts[1..] == [v.protocolVersion, v.transport] && parts[1..][1..] == [v.transport];
    assert Join(parts[1..][1..], '/') == v.transport;
    assert Join(parts[1..], '/') == v.protocolVersion + "/" + v.transport;
    assert Join(parts, '/') == SentProtocol(v);
    SplitJoin(parts, '/');
  }

  lemma SentBySplits(v: ViaEntry)
    requires PrintableVia(v)
    ensures Split(GetSentBy(v), ':') == [v.host, Itoa(GetPort(v))]
    ensures Atoi(Itoa(GetPort(v))) == Some(GetPort(v))
  {
    hide Split, Itoa;
    var parts := [v.host, Itoa(GetPort(v))];
    assert parts[1..] == [Itoa(GetPort(v))];
    assert Join(parts, ':') == GetSentBy(v);
    ItoaLacks(GetPort(v), ':');
    SplitJoin(parts, ':');
    AtoiItoa(GetPort(v));
  }

  lemma SentTokens(v: ViaEntry)
    requires PrintableVia(v)
    ensures NoSpace(SentProtocol(v)) && SentProtocol(v) != ""
    ensures NoSpace(GetSentBy(v)) && GetSentBy(v) != ""
    ensures ';' !in SentProtocol(v) + " " + GetSentBy(v) && ',' !in SentProtocol(v) + " " + GetSentBy(v)
  {
    hide Itoa;
    ItoaHasNoSpace(GetPort(v));
    ItoaLacks(GetPort(v), ';');
    ItoaLacks(GetPort(v), ',');
  }

  lemma SentFields(v: ViaEntry)
    requires PrintableVia(v)
    ensures Fields(SentProtocol(v) + " " + GetSentBy(v)) == [SentProtocol(v), GetSentBy(v)]
  {
    hide Fields, SentProtocol, GetSentBy, PrintableVia;
    SentTokens(v);
    var ts := [SentProtocol(v), GetSentBy(v)];
    assert ts[1..] == [GetSentBy(v)];
    assert Join(ts, ' ') == SentProtocol(v) + " " + GetSentBy(v);
    FieldsJoin(ts);
  }

  lemma ViaTextSplits(v: ViaEntry)
    requires PrintableVia(v)
    ensures Split(PrintViaParam(v), ';') == [SentProtocol(v) + " " + GetSentBy(v)] + PrintPairs(v.params)
    ensures ParsePairs(PrintPairs(v.params)) == v.params
    ensures ',' !in PrintViaParam(v)
  {
    hide Split, SentProtocol, GetSentBy, PrintParams, Word, PrintPairs, ParsePairs;
    SentTokens(v);
    HeadAndParamsSplit(SentProtocol(v) + " " + GetSentBy(v), v.params);
    PairsReadBack(v.params);
    assert forall p :: p in v.params ==> PrintableViaParam(p) && ',' !in p.key && ',' !in p.value;
    PrintParamsAvoids(v.params, ',');
  }

  lemma ViaParamRoundTrip(v: ViaEntry)
    requires PrintableVia(v)
    ensures ParseViaParam(PrintViaParam(v)) == Some(Defaulted(v))
    ensures ',' !in PrintViaParam(v)
  {
    hide Split, Fields, SentProtocol, GetSentBy, PrintPairs, ParsePairs, PrintableVia, PrintViaParam, GetPort, Itoa, Atoi;
    ViaTextSplits(v);
    SentFields(v);
    SentProtocolSplits(v);
    SentBySplits(v);
    var t := Split(PrintViaParam(v), ';');
    assert t[0] == SentProtocol(v) + " " + GetSentBy(v) && t[1..] == PrintPairs(v.params);
  }

  lemma {:induction false} ViaItemsReadBack(vs: seq<ViaEntry>)
    requires forall v :: v in vs ==> PrintableVia(v)
    ensures ParseViaParams(PrintViaItems(vs)) == Some(DefaultedAll(vs))
  {
    hide ParseViaParam, PrintViaParam, PrintableVia, Defaulted;
    if vs != [] {
      assert vs[0] in vs;
      ViaParamRoundTrip(vs[0]);
      assert forall v :: v in vs[1..] ==> v in vs;
      ViaItemsReadBack(vs[1..]);
      assert PrintViaItems(vs)[1..] == PrintViaItems(vs[1..]);
      assert DefaultedAll(vs) == [Defaulted(vs[0])] + DefaultedAll(vs[1..]);
    }
  }

  /** A printed Via list reads back with every absent port replaced by its default. */
  lemma ViaRoundTrip(vs: seq<ViaEntry>)
    requires vs != [] && forall v :: v in vs ==> PrintableVia(v)
    ensures ParseVia(PrintVia(vs)) == Some(DefaultedAll(vs))
  {
    hide Split, PrintViaParam, PrintableVia, Defaulted;
    forall t | t in PrintViaItems(vs)
      ensures ',' !in t
    {
      var i :| 0 <= i < |vs| && t == PrintViaItems(vs)[i];
      assert vs[i] in vs;
      ViaParamRoundTrip(vs[i]);
    }
    SplitJoin(PrintViaItems(vs), ',');
    ViaItemsReadBack(vs);
  }

  /** Filling in the port changes neither the printed text nor anything a proxy reads from an entry. */
  lemma DefaultedIsSame(v: ViaEntry)
    ensures PrintViaParam(Defaulted(v)) == PrintViaParam(v)
    ensures GetSentBy(Defaulted(v)) == GetSentBy(v) && GetBranch(Defaulted(v)) == GetBranch(v)
    ensures GetRPort(Defaulted(v)) == GetRPort(v) && ResponseHop(Defaulted(v)) == ResponseHop(v)
  {
    hide PrintParams, Lookup, Itoa, Atoi;
  }

  lemma PrintedOnceIsFixed(vs: seq<ViaEntry>)
    requires vs != [] && forall v :: v in vs ==> PrintableVia(v)
    ensures ParseVia(PrintVia(vs)).Some? && PrintVia(ParseVia(PrintVia(vs)).value) == PrintVia(vs)
  {
    hide ParseVia, PrintViaParam, PrintableVia, Defaulted;
    ViaRoundTrip(vs);
    forall i | 0 <= i < |vs|
      ensures PrintViaItems(DefaultedAll(vs))[i] == PrintViaItems(vs)[i]
    {
      DefaultedIsSame(vs[i]);
    }
    assert PrintViaItems(DefaultedAll(vs)) == PrintViaItems(vs);
  }

  lemma ParsedEntryIsPrintable(s: string)
    requires ',' !in s && ParseViaParam(s).Some?
    ensures PrintableVia(ParseViaParam(s).value)
  {
    hide Split, Fields, Atoi;
    var t := Split(s, ';');
    var v := ParseViaParam(s).value;
    var sent := Fields(t[0]);
    var protocol, address := Split(sent[0], '/'), Split(sent[1], ':');
    SplitLacks(s, ';', ';');
    SplitLacks(s, ';', ',');
    FieldsLack(t[0], ';');
    FieldsLack(t[0], ',');
    FieldsAreTokens(t[0]);
    SplitLacks(sent[0], '/', '/');
    SplitLacks(sent[0], '/', ';');
    SplitLacks(sent[0], '/', ',');
    SplitTokens(sent[0], '/');
    SplitLacks(sent[1], ':', ':');
    SplitLacks(sent[1], ':', ';');
    SplitLacks(sent[1], ':', ',');
    SplitTokens(sent[1], ':');
    AtoiIsInt64(if |address| == 2 then address[1] else "0");
    forall p | p in v.params
      ensures PrintableViaParam(p)
    {
      var i :| 0 <= i < |v.params| && p == v.params[i];
      assert t[1..][i] in t;
      ParsePairLacks(t[1..][i], ';');
      ParsePairLacks(t[1..][i], ',');
    }
  }

  lemma AtoiIsInt64(s: string)
    ensures Atoi(s).Some? ==> IsInt64(Atoi(s).value)
  {
  }

  lemma {:induction false} SplitTokens(s: string, sep: char)
    requires NoSpace(s)
    ensures forall p :: p in Split(s, sep) ==> NoSpace(p)
    decreases |s|
  {
    var p := IndexByte(s, sep);
    if p >= 0 {
      SplitTokens(s[p + 1..], sep);
    }
  }

  lemma {:induction false} ParsedItemsArePrintable(items: seq<string>)
    requires forall t :: t in items ==> ',' !in t
    requires ParseViaParams(items).Some?
    ensures |ParseViaParams(items).value| == |items|
    ensures forall v :: v in ParseViaParams(items).value ==> PrintableVia(v)
  {
    hide ParseViaParam, PrintableVia;
    if items != [] {
      assert items[0] in items;
      ParsedEntryIsPrintable(items[0]);
      assert forall t :: t in items[1..] ==> t in items;
      ParsedItemsArePrintable(items[1..]);
    }
  }

  /** Every Via text that can be read at all is in the domain of ViaRoundTrip afterwards. */
  lemma ParsedViaIsPrintable(s: string)
    requires ParseVia(s).Some?
    ensures ParseVia(s).value != []
    ensures forall v :: v in ParseVia(s).value ==> PrintableVia(v)
  {
    hide Split, ParseViaParams, PrintableVia;
    SplitLacks(s, ',', ',');
    ParsedItemsArePrintable(Split(s, ','));
  }

  // ---- where a response goes (sections 18.2.1 and 18.2.2 of RFC 3261, section 4 of RFC 3581) ----

  datatype Hop = Hop(host: string, port: int, transport: string)

  /** getNextReponseHop on the top entry. */
  function ResponseHop(v: ViaEntry): Hop {
    match Lookup(v.params, RECEIVED)
    case None => Hop(v.host, GetPort(v), v.transport)
    case Some(host) => Hop(host, if GetRPort(v).Some? then GetRPort(v).value else GetPort(v), v.transport)
  }

  /** The sent-by text of an entry, with the port written as it comes. */
  function SentByText(host: string, port: Option<string>): string {
    match port case None => host case Some(d) => host + ":" + d
  }

  function ProtocolText(protocolName: string, protocolVersion: string, transport: string): string {
    protocolName + "/" + (protocolVersion + "/" + transport)
  }

  lemma ProtocolSplits(protocolName: string, protocolVersion: string, transport: string)
    requires '/' !in protocolName && '/' !in protocolVersion && '/' !in transport
    ensures Split(ProtocolText(protocolName, protocolVersion, transport), '/') == [protocolName, protocolVersion, transport]
  {
    hide Split;
    var parts := [protocolName, protocolVersion, transport];
    assert parts[1..] == [protocolVersion, transport] && parts[1..][1..] == [transport];
    assert Join(parts[1..][1..], '/') == transport;
    assert Join(parts[1..], '/') == protocolVersion + "/" + transport;
    SplitJoin(parts, '/');
  }

  lemma SentByTextSplits(host: string, port: Option<string>)
    requires ':' !in host && (port.Some? ==> ':' !in port.value)
    ensures Split(SentByText(host, port), ':') == match port case None => [host] case Some(d) => [host, d]
  {
    hide Split;
    match port {
      case None => SplitFirst(host, ':', "");
      case Some(d) =>
        SplitFirst(host, ':', d);
        SplitFirst(d, ':', "");
        assert host + ":" + d == host + [':'] + d;
    }
  }

  /** White space in front, between and behind the two fields of an entry's head does not matter. */
  lemma HeadFields(a: string, x: string, mid: string, y: string, b: string)
    requires AllSpace(a) && AllSpace(mid) && mid != "" && AllSpace(b)
    requires x != "" && NoSpace(x) && y != "" && NoSpace(y)
    ensures Fields(a + x + (mid + y + b)) == [x, y]
  {
    hide Fields;
    assert (mid + y + b)[0] == mid[0];
    FieldsSpaced(a, x, mid + y + b);
    FieldsSpaced(mid, y, b);
    FieldsSpaced(b, x, "");
  }

  /** Any entry is read field by field: the sent protocol, the host, and the port if one is written; a port that is
      no number is an error. */
  lemma EntryReads(a: string, v: ViaEntry, mid: string, port: Option<string>, b: string)
    requires AllSpace(a) && AllSpace(mid) && mid != "" && AllSpace(b) && ';' !in a + mid + b
    requires PrintableVia(v) && v.host != "" && (port.Some? ==> Word(port.value) && ':' !in port.value)
    ensures ParseViaParam(a + ProtocolText(v.protocolName, v.protocolVersion, v.transport)
                          + (mid + SentByText(v.host, port) + b) + PrintParams(v.params))
         == match port
            case None => Some(v.(port := 0))
            case Some(d) => (match Atoi(d) case None => None case Some(n) => Some(v.(port := n)))
  {
    hide Split, Fields, PrintParams, Word, Atoi, IsSpace, PrintPairs, ParsePairs, ProtocolText, SentByText;
    var x, y := ProtocolText(v.protocolName, v.protocolVersion, v.transport), SentByText(v.host, port);
    var head := a + x + (mid + y + b);
    HeadTokens(v, port);
    HeadFields(a, x, mid, y, b);
    assert ';' !in head;
    HeadAndParamsSplit(head, v.params);
    PairsReadBack(v.params);
    ProtocolSplits(v.protocolName, v.protocolVersion, v.transport);
    SentByTextSplits(v.host, port);
    var t := Split(head + PrintParams(v.params), ';');
    assert t[0] == head && t[1..] == PrintPairs(v.params);
  }

  /** A head of one field or three is an error, and so is a protocol of two parts or four, and a sent-by with two
      colons. */
  lemma EntryRefused(x: string, y: string, z: string, u: string)
    requires forall t :: t in [x, y, z, u] ==> t != "" && NoSpace(t) && ';' !in t && '/' !in t && ':' !in t
    ensures ParseViaParam(x) == None && ParseViaParam(x + " " + (y + " " + z)) == None
    ensures ParseViaParam(x + "/" + y + " " + z) == None
    ensures ParseViaParam(x + "/" + (y + "/" + (z + "/" + u)) + " " + x) == None
    ensures ParseViaParam(x + "/" + (y + "/" + z) + " " + (x + ":" + (y + ":" + z))) == None
  {
    hide Split, Fields, Atoi, IsSpace;
    assert x in [x, y, z, u] && y in [x, y, z, u] && z in [x, y, z, u] && u in [x, y, z, u];
    SeparatorsAreNoSpace();
    HeadRefused(x, y, z);
    PartsJoin(x, y, z, u, '/');
    PartsJoin(x, y, z, u, ':');
    ProtocolRefused(x + "/" + y, z, [x, y]);
    ProtocolRefused(x + "/" + (y + "/" + (z + "/" + u)), x, [x, y, z, u]);
    SentByRefused(x + "/" + (y + "/" + z), x + ":" + (y + ":" + z), [x, y, z]);
  }

  lemma SeparatorsAreNoSpace()
    ensures !IsSpace('/') && !IsSpace(':')
  {
  }

  lemma HeadRefused(x: string, y: string, z: string)
    requires forall t :: t in [x, y, z] ==> t != "" && NoSpace(t) && ';' !in t
    ensures ParseViaParam(x) == None && ParseViaParam(x + " " + (y + " " + z)) == None
  {
    hide Split, Fields, IsSpace;
    assert x in [x, y, z] && y in [x, y, z] && z in [x, y, z];
    SplitFirst(x, ';', "");
    var s := x + " " + (y + " " + z);
    assert ';' !in s;
    SplitFirst(s, ';', "");
    assert [x, y, z][1..] == [y, z] && [y, z][1..] == [z];
    assert Join([z], ' ') == z && Join([x], ' ') == x && Join([y, z], ' ') == y + " " + z;
    FieldsJoin([x]);
    FieldsJoin([x, y, z]);
  }

  lemma PartsJoin(x: string, y: string, z: string, u: string, c: char)
    requires forall t :: t in [x, y, z, u] ==> c !in t
    ensures Split(x + [c] + y, c) == [x, y] && Split(x + [c] + (y + [c] + z), c) == [x, y, z]
    ensures Split(x + [c] + (y + [c] + (z + [c] + u)), c) == [x, y, z, u]
  {
    hide Split;
    assert x in [x, y, z, u] && y in [x, y, z, u] && z in [x, y, z, u] && u in [x, y, z, u];
    SplitFirst(u, c, "");
    SplitFirst(z, c, u);
    SplitFirst(y, c, z);
    SplitFirst(y, c, z + [c] + u);
    SplitFirst(x, c, y);
    SplitFirst(x, c, y + [c] + z);
    SplitFirst(x, c, y + [c] + (z + [c] + u));
  }

  lemma TwoFields(p: string, q: string)
    requires p != "" && NoSpace(p) && ';' !in p && q != "" && NoSpace(q) && ';' !in q
    ensures Split(p + " " + q, ';')[0] == p + " " + q && Fields(p + " " + q) == [p, q]
  {
    hide Split, Fields, IsSpace;
    assert ';' !in p + " " + q;
    SplitFirst(p + " " + q, ';', "");
    assert [p, q][1..] == [q] && Join([q], ' ') == q;
    FieldsJoin([p, q]);
  }

  lemma ProtocolRefused(p: string, q: string, parts: seq<string>)
    requires p != "" && NoSpace(p) && ';' !in p && q != "" && NoSpace(q) && ';' !in q
    requires Split(p, '/') == parts && |parts| != 3
    ensures ParseViaParam(p + " " + q) == None
  {
    hide Split, Fields, Atoi, IsSpace;
    TwoFields(p, q);
  }

  lemma SentByRefused(p: string, q: string, parts: seq<string>)
    requires p != "" && NoSpace(p) && ';' !in p && q != "" && NoSpace(q) && ';' !in q
    requires Split(q, ':') == parts && |parts| > 2
    ensures ParseViaParam(p + " " + q) == None
  {
    hide Split, Fields, Atoi, IsSpace;
    TwoFields(p, q);
  }

  lemma HeadTokens(v: ViaEntry, port: Option<string>)
    requires PrintableVia(v) && v.host != "" && (port.Some? ==> Word(port.value))
    ensures var x := ProtocolText(v.protocolName, v.protocolVersion, v.transport);
      x != "" && NoSpace(x) && ';' !in x
    ensures var y := SentByText(v.host, port);
      y != "" && NoSpace(y) && ';' !in y
  {
    hide PrintParams;
  }

  /** Without `received` a response goes to the sent-by host, and to the port written there, or the default when none
      is written. */
  lemma HopOfText(a: string, v: ViaEntry, mid: string, port: Option<int>, b: string)
    requires AllSpace(a) && AllSpace(mid) && mid != "" && AllSpace(b) && ';' !in a + mid + b
    requires PrintableVia(v) && v.host != "" && Lookup(v.params, "received").None?
    requires port.Some? ==> IsInt64(port.value) && port.value != 0
    ensures var written := match port case None => None case Some(n) => Some(Itoa(n));
      var e := ParseViaParam(a + ProtocolText(v.protocolName, v.protocolVersion, v.transport)
                             + (mid + SentByText(v.host, written) + b) + PrintParams(v.params));
      e.Some? && ResponseHop(e.value)
        == Hop(v.host, if port.Some? then port.value else if v.transport == "TLS" then 5061 else 5060, v.transport)
  {
    hide Split, Fields, PrintParams, Itoa, Atoi, IsSpace, ProtocolText, SentByText, ParseViaParam, Lookup;
    var written := match port case None => None case Some(n) => Some(Itoa(n));
    if port.Some? {
      AtoiItoa(port.value);
      ItoaLacks(port.value, ':');
      NumberIsWord(port.value);
    }
    EntryReads(a, v, mid, written, b);
  }

  lemma NumberIsWord(n: int)
    ensures Word(Itoa(n))
  {
    hide Itoa;
    ItoaHasNoSpace(n);
    ItoaLacks(n, ',');
    ItoaLacks(n, ';');
  }

  /** With `received` it goes there, and to the port in `rport` if that is a number, else to the sent-by port. */
  lemma HopOfReceived(v: ViaEntry, host: string)
    requires Lookup(v.params, "received") == Some(host)
    ensures ResponseHop(v).host == host && ResponseHop(v).transport == v.transport
    ensures forall n :: IsInt64(n) && Lookup(v.params, "rport") == Some(Itoa(n)) ==> ResponseHop(v).port == n
    ensures Lookup(v.params, "rport") == None || Lookup(v.params, "rport") == Some("") ==>
      ResponseHop(v).port == if v.port != 0 then v.port else if v.transport == "TLS" then 5061 else 5060
  {
    hide Lookup, Itoa;
    forall n | IsInt64(n) && Lookup(v.params, "rport") == Some(Itoa(n))
      ensures ResponseHop(v).port == n
    {
      AtoiItoa(n);
    }
  }

  /** A written port is printed and read as it is; only an absent one is filled in. */
  lemma OnlyAbsentPortsChange(v: ViaEntry)
    ensures v.port != 0 ==> Defaulted(v) == v && GetSentBy(v) == v.host + ":" + Itoa(v.port)
    ensures v.port == 0 ==> Defaulted(v) == v.(port := if v.transport == "TLS" then 5061 else 5060)
  {
    hide Itoa;
  }

  /** SetReceived on the top entry: the peer's address, and its port where the sender asked for it. */
  function Recorded(v: ViaEntry, peerAddr: string, peerPort: int): ViaEntry {
    var withReceived := Store(v.params, RECEIVED, peerAddr);
    v.(params := if Lookup(withReceived, RPORT).Some? then Store(withReceived, RPORT, Itoa(peerPort)) else withReceived)
  }

  /** After recording, a response is addressed to the peer: to the port it used if it asked for that,
      to the port it advertises otherwise. */
  lemma RecordedHop(v: ViaEntry, peerAddr: string, peerPort: int)
    requires IsInt64(peerPort)
    ensures ResponseHop(Recorded(v, peerAddr, peerPort))
         == Hop(peerAddr, if Lookup(v.params, RPORT).Some? then peerPort else GetPort(v), v.transport)
    ensures GetBranch(Recorded(v, peerAddr, peerPort)) == GetBranch(v)
    ensures Recorded(v, peerAddr, peerPort).(params := v.params) == v
    ensures Lookup(Recorded(v, peerAddr, peerPort).params, RPORT)
         == if Lookup(v.params, RPORT).Some? then Some(Itoa(peerPort)) else None
  {
    hide Lookup, Store, Itoa, Atoi;
    assert RECEIVED != RPORT && RECEIVED != BRANCH && RPORT != BRANCH by {
      assert |RECEIVED| == 8 && |RPORT| == 5 && |BRANCH| == 6;
    }
    var withReceived := Store(v.params, RECEIVED, peerAddr);
    LookupStore(v.params, RECEIVED, peerAddr, RECEIVED);
    LookupStore(v.params, RECEIVED, peerAddr, RPORT);
    LookupStore(v.params, RECEIVED, peerAddr, BRANCH);
    LookupStore(withReceived, RPORT, Itoa(peerPort), RECEIVED);
    LookupStore(withReceived, RPORT, Itoa(peerPort), RPORT);
    LookupStore(withReceived, RPORT, Itoa(peerPort), BRANCH);
    AtoiItoa(peerPort);
  }

  /** CreateVia; the random branch is an input. */
  function OwnVia(transport: string, host: string, port: int, branch: string): ViaEntry {
    ViaEntry("SIP", "2.0", Upper(transport), host, port, [KeyValue(BRANCH, branch)])
  }

  /** The text of the proxy's own entry. */
  lemma OwnViaText(host: string, port: int, branch: string)
    requires port != 0 && branch != ""
    ensures PrintVia([OwnVia("udp", host, port, branch)]) == "SIP/2.0/UDP " + host + ":" + Itoa(port) + ";branch=" + branch
    ensures GetBranch(OwnVia("udp", host, port, branch)) == Some(branch)
  {
    hide Itoa;
    var v := OwnVia("udp", host, port, branch);
    assert Upper("udp") == "UDP";
    assert v.params[1..] == [];
    assert PrintParams(v.params) == ";branch=" + branch;
    assert PrintViaItems([v]) == [PrintViaParam(v)];
  }

  // ---- the objects a Via header holds ----

  class ViaParam {
    const protocolName: string
    const protocolVersion: string
    const transport: string
    const host: string
    const port: int
    var params: seq<KeyValue>

    function Value(): ViaEntry
      reads this
    {
      ViaEntry(protocolName, protocolVersion, transport, host, port, params)
    }

    constructor (v: ViaEntry)
      ensures Value() == v
    {
      protocolName, protocolVersion, transport := v.protocolName, v.protocolVersion, v.transport;
      host, port, params := v.host, v.port, v.params;
    }

    method SetParam(name: string, value: string)
      modifies this
      ensures Value() == old(Value()).(params := Store(old(params), name, value))
    {
      params := StoreInPlace(params, name, value);
    }

    /** The part of SetReceived that changes the entry. */
    method RecordPeer(peerAddr: string, peerPort: int)
      modifies this
      ensures Value() == Recorded(old(Value()), peerAddr, peerPort)
    {
      hide Lookup, Store, Itoa;
      SetParam(RECEIVED, peerAddr);
      if Lookup(params, RPORT).Some? {
        SetParam(RPORT, Itoa(peerPort));
      }
    }

    method String() returns (s: string)
      ensures s == PrintViaParam(Value())
    {
      hide PrintParams, Itoa;
      s := protocolName + "/" + (protocolVersion + "/" + transport) + " " + (host + ":" + Itoa(GetPort(Value())));
      s := AppendParams(s, params);
    }

    /** parseViaParam: null stands for the error result. */
    static method Parse(text: string) returns (r: ViaParam?)
      ensures r == null <==> ParseViaParam(text).None?
      ensures r != null ==> fresh(r) && ParseViaParam(text) == Some(r.Value())
    {
      hide Split, Fields, ParsePair, Atoi;
      var t := Split(text, ';');
      var sentInfo := Fields(t[0]);
      if |sentInfo| != 2 {
        return null;
      }
      var sentProtocol := Split(sentInfo[0], '/');
      if |sentProtocol| != 3 {
        return null;
      }
      var sentBy := Split(sentInfo[1], ':');
      if |sentBy| > 2 {
        return null;
      }
      var viaPort := 0;
      if |sentBy| == 2 {
        var number := Atoi(sentBy[1]);
        if number.None? {
          return null;
        }
        viaPort := number.value;
      }
      var via := new ViaParam(ViaEntry(sentProtocol[0], sentProtocol[1], sentProtocol[2], sentBy[0], viaPort, []));
      var i := 1;
      while i < |t|
        invariant 1 <= i <= |t|
        invariant via.params == ParsePairs(t[1..])[..i - 1]
      {
        var kv := ParsePair(t[i]);
        assert t[1..][i - 1] == t[i];
        via.params := via.params + [kv];
        i := i + 1;
      }
      assert via.params == ParsePairs(t[1..]);
      return via;
    }
  }

  function Entries(params: seq<ViaParam>): (r: seq<ViaEntry>)
    reads params
    ensures |r| == |params|
    ensures forall i :: 0 <= i < |params| ==> r[i] == params[i].Value()
  {
    seq(|params|, i requires 0 <= i < |params| reads params => params[i].Value())
  }

  ghost function Elements<T>(s: seq<T>): set<T> {
    set x | x in s
  }

  class Via {
    var params: seq<ViaParam>

    /** The entries are objects of their own, none of them twice. */
    ghost predicate Valid()
      reads this
    {
      forall i, j :: 0 <= i < j < |params| ==> params[i] != params[j]
    }

    function Value(): (r: seq<ViaEntry>)
      reads this, params
      ensures |r| == |params|
      ensures forall i :: 0 <= i < |params| ==> r[i] == params[i].Value()
    {
      Entries(params)
    }

    constructor ()
      ensures params == []
    {
      params := [];
    }

    method AddViaParam(p: ViaParam)
      requires Valid() && p !in params
      modifies this
      ensures Valid() && params == old(params) + [p]
    {
      params := params + [p];
    }

    method PopViaParam() returns (r: ViaParam?)
      requires Valid()
      modifies this
      ensures Valid()
      ensures r == null <==> old(params) == []
      ensures r == null ==> params == old(params)
      ensures r != null ==> old(params) == [r] + params
    {
      if |params| <= 0 {
        return null;
      }
      r := params[0];
      params := params[1..];
    }

    method RecordPeer(peerAddr: string, peerPort: int)
      requires Valid() && params != []
      modifies params[0]
      ensures params == old(params)
      ensures Value() == [Recorded(old(Value())[0], peerAddr, peerPort)] + old(Value())[1..]
    {
      hide Recorded;
      params[0].RecordPeer(peerAddr, peerPort);
    }

    /** ParseVia: null stands for the error result. */
    static method Parse(text: string) returns (r: Via?)
      ensures r == null <==> ParseVia(text).None?
      ensures r != null ==> fresh(r) && fresh(r.params) && r.Valid() && r.params != []
      ensures r != null ==> ParseVia(text) == Some(r.Value())
    {
      hide Split, ParseViaParam, Prefixed;
      var items := Split(text, ',');
      var via := new Via();
      var ps: seq<ViaParam> := [];
      var i := 0;
      assert items[0..] == items;
      PrefixedEnds(Entries(ps), ParseViaParams(items));
      assert Entries(ps) == [];
      while i < |items|
        invariant 0 <= i <= |items|
        invariant fresh(ps) && |ps| == i
        invariant forall j, k :: 0 <= j < k < |ps| ==> ps[j] != ps[k]
        invariant ParseViaParams(items) == Prefixed(Entries(ps), ParseViaParams(items[i..]))
      {
        var p := ViaParam.Parse(items[i]);
        assert items[i..][1..] == items[i + 1..];
        PrefixedEnds(Entries(ps), None);
        if p == null {
          return null;
        }
        PrefixStep(ps, p, ParseViaParams(items[i + 1..]));
        ps := ps + [p];
        i := i + 1;
      }
      PrefixedEnds(Entries(ps), None);
      via.params := ps;
      return via;
    }

    method String() returns (s: string)
      ensures s == PrintVia(Value())
    {
      hide PrintViaParam;
      s := "";
      ghost var items := PrintViaItems(Value());
      var i := 0;
      while i < |params|
        invariant 0 <= i <= |params|
        invariant i == 0 ==> s == ""
        invariant 0 < i < |params| ==> PrintVia(Value()) == s + ("," + Join(items[i..], ','))
        invariant 0 < i == |params| ==> PrintVia(Value()) == s
      {
        var item := params[i].String();
        assert items[i..][0] == item && items[i..][1..] == items[i + 1..];
        if i != 0 {
          s := s + ",";
        } else {
          assert items[0..] == items;
        }
        s := s + item;
        i := i + 1;
      }
    }
  }

  lemma PrefixStep(ps: seq<ViaParam>, p: ViaParam, rest: Option<seq<ViaEntry>>)
    ensures Prefixed(Entries(ps + [p]), rest)
         == Prefixed(Entries(ps), match rest case None => None case Some(r) => Some([p.Value()] + r))
  {
    assert Entries(ps + [p]) == Entries(ps) + [p.Value()];
    assert rest.Some? ==> Entries(ps) + ([p.Value()] + rest.value) == (Entries(ps) + [p.Value()]) + rest.value;
  }
}
