/** route.go and record_route.go: comma-separated lists of name-addrs with parameters. */
module Routes {
  import opened Wrappers
  import opened Text
  import opened KeyValues
  import opened SipUris
  import opened NameAddrs
  import opened Parties

  datatype RouteEntry = RouteEntry(nameAddr: NameAddr, params: seq<KeyValue>)

  function ParseEntry(s: string): Option<RouteEntry> {
    var close := IndexByte(s, '>');
    if close == -1 then None
    else
      var na :- ParseNameAddr(s[..close + 1]);
      var rest := TrimSpace(s[close + 1..]);
      if rest == "" then Some(RouteEntry(na, []))
      else if rest[0] != ';' then None
      else
        var ps :- ParseGenericParams(Split(rest[1..], ';'));
        Some(RouteEntry(na, ps))
  }

  function ParseEntries(items: seq<string>): Option<seq<RouteEntry>> {
    if items == [] then Some([])
    else
      var e :- ParseEntry(items[0]);
      var rest :- ParseEntries(items[1..]);
      Some([e] + rest)
  }

  /** ParseRoute and ParseRecordRoute. */
  function ParseRouteList(s: string): Option<seq<RouteEntry>> {
    ParseEntries(Split(s, ','))
  }

  /** RecRoute.String: every parameter is preceded by `;`. */
  function PrintRecEntry(e: RouteEntry): string {
    PrintNameAddr(e.nameAddr) + PrintParams(e.params)
  }

  function PrintGlued(kvs: seq<KeyValue>): string {
    if kvs == [] then "" else PrintPair(kvs[0]) + PrintGlued(kvs[1..])
  }

  /** RouteParam.Write: the parameters follow each other, and the `>`, without any separator. */
  function PrintRouteEntry(e: RouteEntry): string {
    PrintNameAddr(e.nameAddr) + PrintGlued(e.params)
  }

  function PrintRecEntries(es: seq<RouteEntry>): (r: seq<string>)
    ensures |r| == |es|
    ensures forall i :: 0 <= i < |es| ==> r[i] == PrintRecEntry(es[i])
  {
    seq(|es|, i requires 0 <= i < |es| => PrintRecEntry(es[i]))
  }

  function PrintRouteEntries(es: seq<RouteEntry>): (r: seq<string>)
    ensures |r| == |es|
    ensures forall i :: 0 <= i < |es| ==> r[i] == PrintRouteEntry(es[i])
  {
    seq(|es|, i requires 0 <= i < |es| => PrintRouteEntry(es[i]))
  }

  function PrintRecordRoute(es: seq<RouteEntry>): string {
    Join(PrintRecEntries(es), ',')
  }

  function PrintRoute(es: seq<RouteEntry>): string {
    Join(PrintRouteEntries(es), ',')
  }

  predicate PrintableEntry(e: RouteEntry) {
    && PrintableName(e.nameAddr) && PrintableParams(e.params)
    && ',' !in PrintRecEntry(e) && ',' !in PrintRouteEntry(e)
  }

  /** The parameters come back when no item prints as nothing and the list does not end in a blank. */
  predicate ParamsReturn(ps: seq<KeyValue>) {
    NoEmptyItem(ps) && Trimmed(PrintParams(ps))
  }

  /** How the text behind the `>` of an entry is read. */
  function EntryParams(rest: string): Option<seq<KeyValue>> {
    var text := TrimSpace(rest);
    if text == "" then Some([])
    else if text[0] != ';' then None
    else ParseGenericParams(Split(text[1..], ';'))
  }

  lemma EntryParamsRoundTrip(ps: seq<KeyValue>)
    requires PrintableParams(ps)
    ensures EntryParams(PrintParams(ps)) == Some(ps) <==> ParamsReturn(ps)
  {
    hide Split, ParseGenericParams, PrintPairs, TrimSpace, PrintPair, IsSpace;
    var text := PrintParams(ps);
    if ps == [] {
      TrimmedStays("");
    } else {
      assert forall p :: p in ps ==> GenericParam(p) && ';' !in p.key && ';' !in p.value;
      PrintParamsSplits(ps);
      GenericParamsRoundTrip(ps);
      SemicolonIsNoSpace();
      if Trimmed(text) {
        TrimmedStays(text);
      } else {
        TrimShortens(text);
        var items := Split(TrimSpace(text)[1..], ';');
        SplitTotal(TrimSpace(text)[1..], ';');
        if ParseGenericParams(items) == Some(ps) {
          PrintNoLonger(items);
        }
      }
    }
  }

  lemma SemicolonIsNoSpace()
    ensures !IsSpace(';')
  {
  }

  lemma EntrySplits(na: NameAddr, rest: string)
    requires PrintableName(na)
    ensures ParseEntry(PrintNameAddr(na) + rest) ==
              match (ParseNameAddr(PrintNameAddr(na)), EntryParams(rest))
              case (Some(read), Some(ps)) => Some(RouteEntry(read, ps))
              case _ => None
  {
    hide IndexByte, ParseNameAddr, PrintNameAddr, PrintableName, Split, ParseGenericParams, TrimSpace;
    NameAddrEnds(na, rest);
  }

  /** A Record-Route entry reads back exactly when its address and its parameters do. */
  lemma RecEntryRoundTrip(e: RouteEntry)
    requires PrintableEntry(e)
    ensures ParseEntry(PrintRecEntry(e)) == Some(e) <==> StableAddr(e.nameAddr.addr) && ParamsReturn(e.params)
  {
    hide ParseNameAddr, PrintNameAddr, PrintableName, PrintableParams, StableAddr, EntryParams, ParamsReturn, ParseEntry, PrintParams;
    EntrySplits(e.nameAddr, PrintParams(e.params));
    NameAddrRoundTrip(e.nameAddr);
    EntryParamsRoundTrip(e.params);
  }

  lemma {:induction false} GluedHasNoSemicolon(kvs: seq<KeyValue>)
    requires PrintableParams(kvs)
    ensures ';' !in PrintGlued(kvs)
  {
    if kvs != [] {
      assert GenericParam(kvs[0]) by { assert kvs[0] in kvs; }
      assert forall p :: p in kvs[1..] ==> p in kvs;
      GluedHasNoSemicolon(kvs[1..]);
    }
  }

  /** A Route entry reads back exactly when, besides, it has no parameters after its `>`. */
  lemma RouteEntryRoundTrip(e: RouteEntry)
    requires PrintableEntry(e)
    ensures ParseEntry(PrintRouteEntry(e)) == Some(e) <==> StableAddr(e.nameAddr.addr) && e.params == []
  {
    hide ParseNameAddr, PrintNameAddr, PrintableName, PrintableParams, StableAddr, EntryParams, ParseEntry, PrintParams;
    EntrySplits(e.nameAddr, PrintGlued(e.params));
    NameAddrRoundTrip(e.nameAddr);
    GluedIsNoList(e.params);
  }

  lemma GluedIsNoList(ps: seq<KeyValue>)
    requires PrintableParams(ps)
    ensures EntryParams(PrintGlued(ps)) == Some(ps) <==> ps == []
  {
    hide TrimSpace, Split, PrintableParams;
    GluedHasNoSemicolon(ps);
    TrimSpaceLacks(PrintGlued(ps), ';');
    if ps == [] {
      TrimmedStays("");
    } else if TrimSpace(PrintGlued(ps)) != "" {
      assert TrimSpace(PrintGlued(ps))[0] in TrimSpace(PrintGlued(ps));
    }
  }

  lemma {:induction false} EntriesReadBack(items: seq<string>, es: seq<RouteEntry>)
    requires |items| == |es|
    ensures ParseEntries(items) == Some(es) <==> forall i :: 0 <= i < |es| ==> ParseEntry(items[i]) == Some(es[i])
  {
    hide ParseEntry;
    if items != [] {
      EntriesReadBack(items[1..], es[1..]);
      assert es == [es[0]] + es[1..];
      if ParseEntries(items) == Some(es) {
        var rest := ParseEntries(items[1..]).value;
        assert es == [ParseEntry(items[0]).value] + rest;
        assert rest == es[1..];
        forall i | 0 <= i < |es|
          ensures ParseEntry(items[i]) == Some(es[i])
        {
          if i > 0 {
            assert items[i] == items[1..][i - 1] && es[i] == es[1..][i - 1];
          }
        }
      } else if forall i :: 0 <= i < |es| ==> ParseEntry(items[i]) == Some(es[i]) {
        forall i | 0 <= i < |es[1..]|
          ensures ParseEntry(items[1..][i]) == Some(es[1..][i])
        {
          assert items[1..][i] == items[i + 1] && es[1..][i] == es[i + 1];
        }
        assert false;
      }
    }
  }

  /** A printed Record-Route list is read as the same list exactly when every address and all parameters are. */
  lemma RecordRouteRoundTrip(es: seq<RouteEntry>)
    requires es != [] && forall e :: e in es ==> PrintableEntry(e)
    ensures ParseRouteList(PrintRecordRoute(es)) == Some(es)
       <==> forall e :: e in es ==> StableAddr(e.nameAddr.addr) && ParamsReturn(e.params)
  {
    hide PrintRecEntry, ParseEntry, ParseEntries, PrintableEntry, StableAddr, ParamsReturn, Split;
    var items := PrintRecEntries(es);
    forall i | 0 <= i < |es|
      ensures ',' !in items[i]
      ensures ParseEntry(items[i]) == Some(es[i]) <==> StableAddr(es[i].nameAddr.addr) && ParamsReturn(es[i].params)
    {
      assert es[i] in es;
      PrintableEntryHasNoComma(es[i]);
      RecEntryRoundTrip(es[i]);
    }
    SplitJoin(items, ',');
    EntriesReadBack(items, es);
  }

  lemma PrintableEntryHasNoComma(e: RouteEntry)
    requires PrintableEntry(e)
    ensures ',' !in PrintRecEntry(e) && ',' !in PrintRouteEntry(e)
  {
  }

  /** A printed Route list is read as the same list exactly when, besides, no entry has parameters. */
  lemma RouteRoundTrip(es: seq<RouteEntry>)
    requires es != [] && forall e :: e in es ==> PrintableEntry(e)
    ensures ParseRouteList(PrintRoute(es)) == Some(es)
       <==> forall e :: e in es ==> StableAddr(e.nameAddr.addr) && e.params == []
  {
    hide PrintRouteEntry, ParseEntry, ParseEntries, PrintableEntry, StableAddr, Split;
    var items := PrintRouteEntries(es);
    forall i | 0 <= i < |es|
      ensures ',' !in items[i]
      ensures ParseEntry(items[i]) == Some(es[i]) <==> StableAddr(es[i].nameAddr.addr) && es[i].params == []
    {
      assert es[i] in es;
      PrintableEntryHasNoComma(es[i]);
      RouteEntryRoundTrip(es[i]);
    }
    SplitJoin(items, ',');
    EntriesReadBack(items, es);
  }

  /** A Route value that was received with a parameter is read, but its print is not read as the same. */
  lemma RouteParamIsLost(name: string)
    requires name != "" && forall c :: c in name ==> 'a' <= c <= 'z'
    ensures var e := RouteEntry(PlainName(), [KeyValue(name, "")]);
      && ParseRouteList("<sip:h>;" + name) == Some([e])
      && ParseRouteList(PrintRoute([e])) != Some([e])
  {
    hide ParseRouteList, PrintRoute, PrintRecEntry, PrintableEntry, StableAddr, ParamsReturn;
    var e := RouteEntry(PlainName(), [KeyValue(name, "")]);
    PlainEntry(name);
    assert PrintRecEntries([e]) == [PrintRecEntry(e)];
    assert PrintRecordRoute([e]) == "<sip:h>;" + name by {
      assert PrintRecordRoute([e]) == Join(PrintRecEntries([e]), ',');
    }
    RecordRouteRoundTrip([e]);
    RouteRoundTrip([e]);
  }

  lemma PlainEntry(name: string)
    requires name != "" && forall c :: c in name ==> 'a' <= c <= 'z'
    ensures var e := RouteEntry(PlainName(), [KeyValue(name, "")]);
      PrintableEntry(e) && StableAddr(e.nameAddr.addr) && ParamsReturn(e.params) && PrintRecEntry(e) == "<sip:h>;" + name
  {
    hide PrintUri;
    var u := PlainName().addr.uri;
    var kv := KeyValue(name, "");
    PlainUri(u);
    assert [kv][1..] == [];
    assert PrintGlued([kv]) == name + "";
    assert PrintParams([kv]) == ";" + name + "";
    assert name[|name| - 1] in name;
    assert ',' !in name && ';' !in name && '=' !in name;
  }

  lemma PlainUri(u: Uri)
    requires u == Uri("sip", "", "", "h", 0, [], [])
    ensures PrintUri(u) == "sip:h" && Printable(u) && Stable(u)
  {
  }

  /** White space around the parameters of an entry does not matter. */
  lemma EntryParamsSpaced(a: string, text: string, b: string)
    requires AllSpace(a) && AllSpace(b) && Trimmed(text)
    ensures EntryParams(a + text + b) == EntryParams(text)
  {
    hide TrimSpace, Split, ParseGenericParams;
    TrimSpaceStrips(a, text, b);
    TrimmedStays(text);
  }

  /** Something else than parameters behind the `>` is an error, and so is an entry without `>`. */
  lemma JunkBehindBracket(na: NameAddr, junk: string)
    requires PrintableName(na) && junk != "" && Trimmed(junk) && junk[0] != ';'
    ensures ParseEntry(PrintNameAddr(na) + junk) == None
    ensures '>' !in junk ==> ParseEntry(junk) == None
  {
    hide PrintNameAddr, ParseNameAddr, PrintableName, TrimSpace, Split;
    EntrySplits(na, junk);
    TrimmedStays(junk);
  }

  /** A list is refused exactly when one of its entries is. */
  lemma {:induction false} ListRefused(items: seq<string>)
    ensures ParseEntries(items).None? <==> exists t :: t in items && ParseEntry(t).None?
    ensures ParseEntries(items).Some? ==>
      |ParseEntries(items).value| == |items|
      && forall i :: 0 <= i < |items| ==> ParseEntry(items[i]) == Some(ParseEntries(items).value[i])
  {
    hide ParseEntry;
    if items != [] {
      ListRefused(items[1..]);
      assert forall t :: t in items <==> t == items[0] || t in items[1..];
    }
  }

  /** The text of the proxy's own entry. */
  lemma OwnRecordRouteText(address: string, port: int)
    requires port != 0
    ensures PrintRecordRoute([OwnRecordRoute(address, port)]) == "<sip:" + address + ":" + Itoa(port) + ";lr>"
  {
    hide Itoa;
    var e := OwnRecordRoute(address, port);
    var u := e.nameAddr.addr.uri;
    assert PrintHostPort(u) == address + ":" + Itoa(port);
    assert PrintParams(u.parameters) == ";lr" by { assert u.parameters[1..] == []; }
    assert PrintUri(u) == "sip:" + address + ":" + Itoa(port) + ";lr";
    assert PrintRecEntries([e]) == [PrintRecEntry(e)];
  }

  // ---- received values ----

  lemma {:induction false} GluedAvoids(kvs: seq<KeyValue>, c: char)
    requires c != '=' && forall kv :: kv in kvs ==> c !in kv.key && c !in kv.value
    ensures c !in PrintGlued(kvs)
  {
    if kvs != [] {
      assert kvs[0] in kvs && forall kv :: kv in kvs[1..] ==> kv in kvs;
      GluedAvoids(kvs[1..], c);
    }
  }

  lemma EntryParamsWithin(rest: string)
    requires EntryParams(rest).Some? && ',' !in rest
    ensures PrintableParams(EntryParams(rest).value)
    ensures ',' !in PrintParams(EntryParams(rest).value) && ',' !in PrintGlued(EntryParams(rest).value)
  {
    hide TrimSpace, Split, ParseGenericParams, PrintParams, PrintGlued;
    var text, ps := TrimSpace(rest), EntryParams(rest).value;
    TrimSpaceLacks(rest, ',');
    if text != "" {
      SplitLacks(text[1..], ';', ';');
      SplitLacks(text[1..], ';', ',');
      ParsedParamsAreGeneric(Split(text[1..], ';'));
      ParsedParamsLack(Split(text[1..], ';'), ',');
    }
    PrintParamsAvoids(ps, ',');
    GluedAvoids(ps, ',');
  }

  /** Every entry that was parsed is in the domain of the round trips. */
  lemma ParsedEntryIsPrintable(s: string)
    requires ',' !in s && ParseEntry(s).Some?
    ensures PrintableEntry(ParseEntry(s).value)
  {
    hide IndexByte, ParseNameAddr, PrintNameAddr, PrintableName, PrintableParams, Split, ParseGenericParams, TrimSpace,
         PrintParams, PrintGlued, PlainChar;
    var close := IndexByte(s, '>');
    assert ',' !in s[..close + 1] && ',' !in s[close + 1..];
    ParsedNameIsPrintable(s[..close + 1]);
    CommaIsPlain();
    NameReprintLacks(s[..close + 1], ',');
    assert EntryParams(s[close + 1..]) == Some(ParseEntry(s).value.params);
    EntryParamsWithin(s[close + 1..]);
  }

  lemma CommaIsPlain()
    ensures PlainChar(',')
  {
  }

  lemma {:induction false} ParsedEntriesArePrintable(items: seq<string>)
    requires ParseEntries(items).Some? && forall t :: t in items ==> ',' !in t
    ensures |ParseEntries(items).value| == |items|
    ensures forall e :: e in ParseEntries(items).value ==> PrintableEntry(e)
  {
    hide ParseEntry, PrintableEntry;
    if items != [] {
      assert items[0] in items && forall t :: t in items[1..] ==> t in items;
      ParsedEntryIsPrintable(items[0]);
      ParsedEntriesArePrintable(items[1..]);
    }
  }

  lemma ParsedListIsPrintable(s: string)
    requires ParseRouteList(s).Some?
    ensures ParseRouteList(s).value != [] && forall e :: e in ParseRouteList(s).value ==> PrintableEntry(e)
  {
    hide Split, ParseEntries, PrintableEntry;
    SplitLacks(s, ',', ',');
    ParsedEntriesArePrintable(Split(s, ','));
  }

  /** Whatever Record-Route value was received, its print is read as the same value exactly when every address is
      stable, no item prints as nothing and no parameter list ends in a blank. */
  lemma ReceivedRecordRouteReturns(s: string)
    requires ParseRouteList(s).Some?
    ensures var es := ParseRouteList(s).value;
      ParseRouteList(PrintRecordRoute(es)) == Some(es) <==>
        forall e :: e in es ==> StableAddr(e.nameAddr.addr) && ParamsReturn(e.params)
  {
    hide ParseRouteList, PrintRecordRoute, PrintableEntry, StableAddr, ParamsReturn;
    ParsedListIsPrintable(s);
    RecordRouteRoundTrip(ParseRouteList(s).value);
  }

  /** Whatever Route value was received, exactly when every address is stable and there are no parameters. */
  lemma ReceivedRouteReturns(s: string)
    requires ParseRouteList(s).Some?
    ensures var es := ParseRouteList(s).value;
      ParseRouteList(PrintRoute(es)) == Some(es) <==>
        forall e :: e in es ==> StableAddr(e.nameAddr.addr) && e.params == []
  {
    hide ParseRouteList, PrintRoute, PrintableEntry, StableAddr;
    ParsedListIsPrintable(s);
    RouteRoundTrip(ParseRouteList(s).value);
  }

  function PlainName(): NameAddr {
    NameAddr("", SipAddr(Uri("sip", "", "", "h", 0, [], [])))
  }

  lemma PlainNameReads(rest: string)
    ensures ParseEntry("<sip:h>" + rest) ==
              match EntryParams(rest) case None => None case Some(ps) => Some(RouteEntry(PlainName(), ps))
    ensures PrintNameAddr(PlainName()) == "<sip:h>"
  {
    hide ParseNameAddr, EntryParams, ParseEntry, PrintUri;
    PlainUri(PlainName().addr.uri);
    assert PrintNameAddr(PlainName()) == "<sip:h>";
    NameAddrRoundTrip(PlainName());
    assert ParseNameAddr("<sip:h>") == Some(PlainName());
    EntrySplits(PlainName(), rest);
  }

  /** The received entry `<sip:h>;=` is printed as one that cannot be read. */
  lemma EmptyItemIsLost()
    ensures var e := RouteEntry(PlainName(), [KeyValue("", "")]);
      ParseEntry("<sip:h>;=") == Some(e) && PrintRecEntry(e) == "<sip:h>;" && ParseEntry(PrintRecEntry(e)) == None
  {
    hide ParseEntry, PrintNameAddr, Split, IndexByte, Before, After, TrimSpace;
    PlainNameReads(";=");
    PlainNameReads(";");
    assert "<sip:h>" + ";=" == "<sip:h>;=" && "<sip:h>" + ";" == "<sip:h>;";
    TrimmedStays(";=");
    TrimmedStays(";");
    SplitFirst("=", ';', "");
    SplitFirst("", ';', "");
    assert ";="[1..] == "=" && ";"[1..] == "";
    CutAt("", '=', "");
    assert "" + ['='] + "" == "=";
    assert ParsePair("=") == KeyValue("", "");
    assert ["="][1..] == [] && [KeyValue("", "")] + [] == [KeyValue("", "")];
    assert [KeyValue("", "")][1..] == [];
  }

  /** The received entry `<sip:h>;a =` comes back with another key. */
  lemma EndingBlankIsLost()
    ensures var e := RouteEntry(PlainName(), [KeyValue("a ", "")]);
      ParseEntry("<sip:h>;a =") == Some(e) && PrintRecEntry(e) == "<sip:h>;a "
      && ParseEntry(PrintRecEntry(e)) == Some(RouteEntry(PlainName(), [KeyValue("a", "")]))
  {
    hide ParseEntry, PrintNameAddr, Split, IndexByte, Before, After;
    PlainNameReads(";a =");
    PlainNameReads(";a ");
    assert "<sip:h>" + ";a =" == "<sip:h>;a =" && "<sip:h>" + ";a " == "<sip:h>;a ";
    TrimmedStays(";a =");
    assert TrimSpace(";a ") == ";a" by {
      assert ";a "[..2] == ";a";
      TrimmedStays(";a");
    }
    SplitFirst("a =", ';', "");
    SplitFirst("a", ';', "");
    assert ";a ="[1..] == "a =" && ";a"[1..] == "a";
    CutAt("a ", '=', "");
    CutAt("a", '=', "");
    assert "a " + ['='] + "" == "a =";
    assert ParsePair("a =") == KeyValue("a ", "") && ParsePair("a") == KeyValue("a", "");
    assert ["a ="][1..] == [] && ["a"][1..] == [];
    assert [KeyValue("a ", "")] + [] == [KeyValue("a ", "")] && [KeyValue("a", "")] + [] == [KeyValue("a", "")];
    assert [KeyValue("a ", "")][1..] == [];
  }

  /** The entry a proxy adds for itself: `<sip:address:port;lr>`. */
  function OwnRecordRoute(address: string, port: int): RouteEntry {
    RouteEntry(NameAddr("", SipAddr(Uri("sip", "", "", address, port, [KeyValue("lr", "")], []))), [])
  }

  // ---- the lists the header values hold ----

  method ParseOneEntry(s: string) returns (r: Option<RouteEntry>)
    ensures r == ParseEntry(s)
  {
    hide IndexByte, ParseNameAddr, TrimSpace, Split, ParseGenericParams;
    var close := IndexByte(s, '>');
    if close == -1 {
      return None;
    }
    var na := ParseNameAddr(s[..close + 1]);
    if na.None? {
      return None;
    }
    var rest := TrimSpace(s[close + 1..]);
    if |rest| <= 0 {
      return Some(RouteEntry(na.value, []));
    }
    if rest[0] != ';' {
      return None;
    }
    var ps := CollectParams(rest[1..]);
    if ps.None? {
      return None;
    }
    return Some(RouteEntry(na.value, ps.value));
  }

  method CollectEntries(s: string) returns (r: Option<seq<RouteEntry>>)
    ensures r == ParseRouteList(s)
    ensures r.Some? ==> r.value != []
  {
    hide Split, ParseEntry;
    var items := Split(s, ',');
    var es := [];
    var i := 0;
    assert items[0..] == items;
    assert forall r: seq<RouteEntry> :: [] + r == r;
    while i < |items|
      invariant 0 <= i <= |items|
      invariant |es| == i
      invariant ParseEntries(items) == Prefixed(es, ParseEntries(items[i..]))
    {
      var e := ParseOneEntry(items[i]);
      ghost var rest := ParseEntries(items[i + 1..]);
      assert items[i..][1..] == items[i + 1..];
      if e.None? {
        return None;
      }
      assert rest.Some? ==> es + ([e.value] + rest.value) == (es + [e.value]) + rest.value;
      es := es + [e.value];
      i := i + 1;
    }
    assert es + [] == es;
    return Some(es);
  }

  class Route {
    var routeParams: seq<RouteEntry>

    constructor (entries: seq<RouteEntry>)
      ensures routeParams == entries
    {
      routeParams := entries;
    }

    static method Parse(s: string) returns (r: Route?)
      ensures r == null <==> ParseRouteList(s).None?
      ensures r != null ==> fresh(r) && ParseRouteList(s) == Some(r.routeParams) && r.routeParams != []
    {
      var es := CollectEntries(s);
      if es.None? {
        return null;
      }
      r := new Route(es.value);
    }

    /** Removes and returns the first entry; an empty list is an error and stays. */
    method PopRouteParam() returns (r: Option<RouteEntry>)
      modifies this
      ensures r.None? <==> old(routeParams) == []
      ensures r.None? ==> routeParams == old(routeParams)
      ensures r.Some? ==> old(routeParams) == [r.value] + routeParams
    {
      if |routeParams| > 0 {
        r := Some(routeParams[0]);
        routeParams := routeParams[1..];
      } else {
        r := None;
      }
    }

    method String() returns (s: string)
      ensures s == PrintRoute(routeParams)
    {
      hide PrintPair, PrintNameAddr;
      s := "";
      ghost var items := PrintRouteEntries(routeParams);
      var i := 0;
      while i < |routeParams|
        invariant 0 <= i <= |routeParams|
        invariant i == 0 ==> s == ""
        invariant 0 < i < |routeParams| ==> PrintRoute(routeParams) == s + ("," + Join(items[i..], ','))
        invariant 0 < i == |routeParams| ==> PrintRoute(routeParams) == s
      {
        var item := WriteEntry(routeParams[i]);
        assert items[i..][0] == item && items[i..][1..] == items[i + 1..];
        if i != 0 {
          s := s + ",";
        } else {
          assert items[0..] == items;
        }
        s := s + item;
        i := i + 1;
      }
    }

    static method WriteEntry(e: RouteEntry) returns (s: string)
      ensures s == PrintRouteEntry(e)
    {
      hide PrintPair, PrintNameAddr;
      s := PrintNameAddr(e.nameAddr);
      var i := 0;
      while i < |e.params|
        invariant 0 <= i <= |e.params|
        invariant PrintRouteEntry(e) == s + PrintGlued(e.params[i..])
      {
        var item := WritePair(e.params[i]);
        ghost var before := s;
        s := s + item;
        assert e.params[i..][1..] == e.params[i + 1..];
        assert before + PrintGlued(e.params[i..]) == s + PrintGlued(e.params[i + 1..]);
        i := i + 1;
      }
    }
  }

  class RecordRoute {
    var recRoute: seq<RouteEntry>

    constructor (entries: seq<RouteEntry>)
      ensures recRoute == entries
    {
      recRoute := entries;
    }

    static method Parse(s: string) returns (r: RecordRoute?)
      ensures r == null <==> ParseRouteList(s).None?
      ensures r != null ==> fresh(r) && ParseRouteList(s) == Some(r.recRoute) && r.recRoute != []
    {
      var es := CollectEntries(s);
      if es.None? {
        return null;
      }
      r := new RecordRoute(es.value);
    }

    method AddRecRoute(e: RouteEntry)
      modifies this
      ensures recRoute == old(recRoute) + [e]
    {
      recRoute := recRoute + [e];
    }

    method String() returns (s: string)
      ensures s == PrintRecordRoute(recRoute)
    {
      hide PrintParams, PrintNameAddr;
      s := "";
      ghost var items := PrintRecEntries(recRoute);
      var i := 0;
      while i < |recRoute|
        invariant 0 <= i <= |recRoute|
        invariant i == 0 ==> s == ""
        invariant 0 < i < |recRoute| ==> PrintRecordRoute(recRoute) == s + ("," + Join(items[i..], ','))
        invariant 0 < i == |recRoute| ==> PrintRecordRoute(recRoute) == s
      {
        var item := AppendParams(PrintNameAddr(recRoute[i].nameAddr), recRoute[i].params);
        assert items[i..][0] == item && items[i..][1..] == items[i + 1..];
        if i != 0 {
          s := s + ",";
        } else {
          assert items[0..] == items;
        }
        s := s + item;
        i := i + 1;
      }
    }
  }
}
