/** message.go end to end: what the next proxy reads of a message that was partly parsed, edited and printed. */
module Wire {
  import opened Wrappers
  import opened Text
  import KeyValues
  import opened SipUris
  import opened NameAddrs
  import opened Parties
  import opened Routes
  import opened Vias
  import opened HeaderViews
  import opened Messages
  import opened MessagePath
  import opened Identity
  import opened Framing
  import opened MessageIO

  // ---- one header ----

  /** The content up to ports left to their default. */
  function WireContent(c: Content): Content {
    match c
    case ViaList(vs) => ViaList(DefaultedAll(vs))
    case _ => c
  }

  predicate RouteTravels(e: RouteEntry) {
    PrintableEntry(e) && StableAddr(e.nameAddr.addr) && ParamsReturn(e.params)
  }

  predicate PartyTravels(p: Party) {
    && PrintableParams(p.params) && KeyValues.NoEmptyItem(p.params)
    && match p
       case Named(na, _) => PrintableName(na) && StableAddr(na.addr)
       case Bare(SipAddr(u), ps) =>
         && Printable(u) && Stable(u) && u.parameters == [] && (u.headers == [] || ps == [])
         && SemicolonOnlyLast(PrintUri(u)) && '<' !in PrintUri(u) && '<' !in KeyValues.PrintParams(ps)
       case Bare(AbsoluteAddr(t), ps) =>
         ps == [] && '<' !in t && ';' !in t && ParseUri(t).None? && ParseUri(t + ";").None?
  }

  /** The objects whose printed form can be read back. */
  ghost predicate Travels(v: HeaderValue)
    reads v.Objects(), if v.AsVia? then {v.via} else {}
  {
    match v
    case Raw(_) => true
    case AsVia(via) => forall e :: e in via.Value() ==> PrintableVia(e)
    case AsRoute(r) => forall e :: e in r.routeParams ==> RouteTravels(e) && e.params == []
    case AsRecordRoute(r) => forall e :: e in r.recRoute ==> RouteTravels(e)
    case AsFrom(f) => PartyTravels(f.Value())
    case AsTo(t) => PartyTravels(t.Value())
    case AsCSeq(c) => IsInt64(c.number) && Token(c.cseqMethod)
  }

  lemma PartyReadsBack(p: Party)
    requires PartyTravels(p)
    ensures ParseParty(PrintParty(p)) == Some(p)
  {
    hide ParseParty, PrintParty, PrintableParams, PrintableName, StableAddr, Printable, Stable, ParseUri, PrintUri, KeyValues.PrintParams;
    match p {
      case Named(na, ps) => NamedRoundTrip(na, ps);
      case Bare(SipAddr(u), ps) => BareSipRoundTrip(u, ps);
      case Bare(AbsoluteAddr(t), ps) =>
        NoParamsNoBrackets();
        BareAbsoluteRoundTrip(t, ps);
    }
  }

  lemma NoParamsNoBrackets()
    ensures '<' !in KeyValues.PrintParams([])
  {
  }

  lemma CSeqReadsBack(number: int, cseqMethod: string)
    requires IsInt64(number) && Token(cseqMethod)
    ensures ParseCSeq(Itoa(number) + " " + cseqMethod) == Some(CSeqValue(number, cseqMethod))
  {
    hide Text.Fields, Itoa, Atoi;
    var ts := [Itoa(number), cseqMethod];
    assert ts[1..] == [cseqMethod];
    assert Join(ts, ' ') == Itoa(number) + " " + cseqMethod;
    ItoaHasNoSpace(number);
    AtoiItoa(number);
    FieldsJoin(ts);
  }

  /** Printing a header value and reading it as a header of that name gives its content back. */
  lemma ValueTravels(v: HeaderValue, k: Kind)
    requires v.Suits(k) && Travels(v)
    ensures WireContent(Meaning(k, PrintedValue(v))) == WireContent(v.Content(k))
  {
    hide Meaning, ParseVia, PrintVia, PrintRoute, PrintRecordRoute, ParseRouteList, ParseParty, PrintParty, ParseCSeq,
         PrintableVia, PartyTravels, Itoa, Defaulted, RouteTravels;
    match v {
      case Raw(_) =>
      case AsVia(via) =>
        MeaningOfVia(PrintedValue(v));
        ViaRoundTrip(via.Value());
        DefaultedAllTwice(via.Value());
      case AsRoute(r) =>
        MeaningOfRoute(PrintedValue(v));
        RoutesReadBack(r.routeParams);
      case AsRecordRoute(r) =>
        MeaningOfRecordRoute(PrintedValue(v));
        RecordsReadBack(r.recRoute);
      case AsFrom(f) =>
        MeaningOfFrom(PrintedValue(v));
        PartyReadsBack(f.Value());
      case AsTo(t) =>
        MeaningOfTo(PrintedValue(v));
        PartyReadsBack(t.Value());
      case AsCSeq(c) =>
        MeaningOfCSeq(PrintedValue(v));
        CSeqReadsBack(c.number, c.cseqMethod);
    }
  }

  lemma RoutesReadBack(es: seq<RouteEntry>)
    requires es != [] && forall e :: e in es ==> RouteTravels(e) && e.params == []
    ensures ParseRouteList(PrintRoute(es)) == Some(es)
  {
    hide ParseRouteList, PrintRoute, PrintableEntry, StableAddr;
    RouteRoundTrip(es);
  }

  lemma RecordsReadBack(es: seq<RouteEntry>)
    requires es != [] && forall e :: e in es ==> RouteTravels(e)
    ensures ParseRouteList(PrintRecordRoute(es)) == Some(es)
  {
    hide ParseRouteList, PrintRecordRoute, PrintableEntry, StableAddr;
    RecordRouteRoundTrip(es);
  }

  lemma DefaultedAllTwice(vs: seq<ViaEntry>)
    ensures DefaultedAll(DefaultedAll(vs)) == DefaultedAll(vs)
  {
    assert forall i :: 0 <= i < |vs| ==> Defaulted(Defaulted(vs[i])) == Defaulted(vs[i]);
  }

  /** The entries a proxy makes for itself travel. */
  lemma OwnEntriesTravel(transport: string, host: string, port: int, branch: string)
    requires Word(Upper(transport)) && '/' !in Upper(transport) && Word(host) && IsInt64(port)
    requires forall c :: c in ":?@<>" ==> c !in host
    requires ',' !in branch && ';' !in branch
    ensures PrintableVia(OwnVia(transport, host, port, branch))
    ensures RouteTravels(OwnRecordRoute(host, port))
  {
    hide Upper, Itoa, Word;
    assert forall c :: c == ':' || c == '?' || c == '@' || c == '<' || c == '>' ==> c in ":?@<>";
    OwnViaTravels(Upper(transport), host, port, branch);
    OwnRecordTravels(host, port);
  }

  lemma OwnViaTravels(transport: string, host: string, port: int, branch: string)
    requires Word(transport) && '/' !in transport && Word(host) && ':' !in host && IsInt64(port)
    requires ',' !in branch && ';' !in branch
    ensures PrintableVia(ViaEntry("SIP", "2.0", transport, host, port, [KeyValues.KeyValue(BRANCH, branch)]))
  {
  }

  lemma SeparatorsAreNoDigits()
    ensures !IsDigit(',') && !IsDigit('>')
  {
  }

  lemma OwnRecordTravels(host: string, port: int)
    requires Word(host) && IsInt64(port)
    requires ':' !in host && '?' !in host && '@' !in host && '<' !in host && '>' !in host
    ensures RouteTravels(OwnRecordRoute(host, port))
  {
    hide Itoa, IsDigit;
    var e := OwnRecordRoute(host, port);
    var u := e.nameAddr.addr.uri;
    SeparatorsAreNoDigits();
    ItoaLacks(port, ',');
    ItoaLacks(port, '>');
    assert u.parameters[1..] == [] && PrintUri(u) == "sip:" + PrintHostPort(u) + ";lr";
    assert ',' !in PrintUri(u) && '>' !in PrintUri(u);
  }

  // ---- the header list ----

  function WireView(v: View): (w: View)
    ensures |w| == |v|
    ensures forall i :: 0 <= i < |v| ==> w[i] == HeaderView(v[i].name, WireContent(v[i].content))
  {
    seq(|v|, i requires 0 <= i < |v| => HeaderView(v[i].name, WireContent(v[i].content)))
  }

  /** The header list a receiver makes of header lines. */
  function Reread(fs: seq<Field>): (v: View)
    ensures |v| == |fs|
    ensures forall i :: 0 <= i < |fs| ==> v[i] == HeaderView(fs[i].name, Meaning(KindOf(fs[i].name), fs[i].value))
  {
    seq(|fs|, i requires 0 <= i < |fs| => HeaderView(fs[i].name, Meaning(KindOf(fs[i].name), fs[i].value)))
  }

  /** The same headers in the same order with the same content, up to default ports and the length header, which
      the printer writes itself. */
  predicate SameOnWire(v: View, w: View) {
    Others(WireView(v), ContentLengthKind) == Others(WireView(w), ContentLengthKind)
  }

  lemma {:induction false} FlatOnWire(v: View, k: Kind)
    ensures Flat(WireView(v), k) == Filled(Flat(v, k))
  {
    hide KindOf, Items, WireContent, Filled;
    FilledNothing();
    if v != [] {
      var w := WireView(v);
      FlatOnWire(v[1..], k);
      assert w[1..] == WireView(v[1..]);
      FilledConcat(Own(v[0], k), Flat(v[1..], k));
      ItemsOnWire(v[0].content);
      assert w[0].Kind() == v[0].Kind();
    }
  }

  lemma FilledNothing()
    ensures Filled([]) == []
  {
  }

  lemma FilledConcat(f: seq<Item>, g: seq<Item>)
    ensures Filled(f + g) == Filled(f) + Filled(g)
  {
  }

  lemma ItemsOnWire(c: Content)
    ensures Items(WireContent(c)) == Filled(Items(c))
  {
    hide Defaulted;
  }

  lemma {:induction false} FirstOnWire(v: View, k: Kind)
    ensures FirstContent(WireView(v), k) ==
              match FirstContent(v, k) case None => None case Some(c) => Some(WireContent(c))
  {
    hide KindOf, WireContent, FirstContent;
    if v == [] {
      FirstOfNothing(k);
    } else {
      FirstOnWire(v[1..], k);
      FirstStep(v, k);
      FirstStep(WireView(v), k);
      assert WireView(v)[1..] == WireView(v[1..]);
      assert WireView(v)[0].Kind() == v[0].Kind();
    }
  }

  lemma FirstOfNothing(k: Kind)
    ensures FirstContent([], k) == None
  {
  }

  lemma FirstsSame(v: View, w: View, k: Kind)
    requires SameOnWire(v, w) && k != ContentLengthKind
    ensures (match FirstContent(v, k) case None => None case Some(c) => Some(WireContent(c)))
         == (match FirstContent(w, k) case None => None case Some(c) => Some(WireContent(c)))
  {
    hide KindOf, WireContent, FirstContent, Others;
    FirstOnWire(v, k);
    FirstOnWire(w, k);
    FirstOfOthers(WireView(v), ContentLengthKind, k);
    FirstOfOthers(WireView(w), ContentLengthKind, k);
  }

  /** Everything a proxy decides by is the same on both sides: the flattened lists, the hop of a response, the
      session and the transaction. */
  lemma SameDecisions(v: View, w: View)
    requires SameOnWire(v, w) && Tidy(v) && Tidy(w)
    ensures forall k :: k != ContentLengthKind ==> Filled(Flat(v, k)) == Filled(Flat(w, k))
    ensures TopRoute(v) == TopRoute(w)
    ensures ResponseHopOf(v) == ResponseHopOf(w)
    ensures SessionIdOf(v) == SessionIdOf(w)
    ensures TransactionOf(v) == TransactionOf(w)
  {
    hide KindOf, Flat, Others, FirstContent, First, Filled, TopVia, TopRoute, ResponseHop, GetBranch, DialogAddr, SessionId;
    forall k | k != ContentLengthKind
      ensures Filled(Flat(v, k)) == Filled(Flat(w, k))
    {
      FlatOnWire(v, k);
      FlatOnWire(w, k);
      FlatOfOthers(WireView(v), ContentLengthKind, k);
      FlatOfOthers(WireView(w), ContentLengthKind, k);
    }
    TopsAreHeads(v);
    TopsAreHeads(w);
    SameHop(Flat(v, ViaKind), Flat(w, ViaKind));
    SameRoute(Flat(v, RouteKind), Flat(w, RouteKind));
    FirstsSame(v, w, CallIdKind);
    FirstsSame(v, w, FromKind);
    FirstsSame(v, w, ToKind);
    FirstsSame(v, w, CSeqKind);
  }

  lemma SameRoute(f: seq<Item>, g: seq<Item>)
    requires Filled(f) == Filled(g)
    ensures RouteAt(f) == RouteAt(g)
  {
    hide Defaulted;
    if f != [] {
      assert FilledItem(f[0]) == Filled(f)[0] == Filled(g)[0] == FilledItem(g[0]);
    }
  }

  // ---- the message ----

  lemma PrintedTravels(m: Message)
    requires m.Valid() && forall i :: 0 <= i < |m.headers| ==> Travels(m.headers[i].value)
    ensures WireView(Reread(PrintedFields(m.headers))) == WireView(m.View())
  {
    hide KindOf, Meaning, WireContent, Travels, PrintedValue;
    var fs := PrintedFields(m.headers);
    forall i | 0 <= i < |m.headers|
      ensures WireView(Reread(fs))[i] == WireView(m.View())[i]
    {
      ValueTravels(m.headers[i].value, KindOf(m.headers[i].name));
      assert m.View()[i] == m.headers[i].View();
    }
  }

  lemma {:induction false} LengthLinesAside(fs: seq<Field>, own: Field)
    requires own.name == CONTENT_LENGTH
    ensures Others(WireView(Reread(Kept(fs) + [own])), ContentLengthKind) == Others(WireView(Reread(fs)), ContentLengthKind)
  {
    hide KindOf, Meaning, WireContent, Kept, Others, Foreign;
    LengthNameIsItsKind();
    if fs == [] {
      NoFieldsAtAll();
      LineFirst(own, []);
      assert Kept(fs) + [own] == [own] + [];
      assert WireView(Reread([])) == [];
      ForeignLine(own);
    } else {
      var f, more := fs[0], fs[1..];
      LengthLinesAside(more, own);
      FieldsHead(fs);
      assert fs == [f] + more;
      LineFirst(f, more);
      if f.name == CONTENT_LENGTH {
        ForeignLine(f);
      } else {
        assert Kept(fs) + [own] == [f] + (Kept(more) + [own]);
        LineFirst(f, Kept(more) + [own]);
      }
    }
  }

  lemma LengthNameIsItsKind()
    ensures KindOf(CONTENT_LENGTH) == ContentLengthKind
  {
    hide KindOf;
    NameHasKind(ContentLengthKind);
  }

  function LineView(f: Field): HeaderView {
    HeaderView(f.name, WireContent(Meaning(KindOf(f.name), f.value)))
  }

  lemma LineFirst(f: Field, more: seq<Field>)
    ensures Others(WireView(Reread([f] + more)), ContentLengthKind)
         == Foreign(LineView(f), ContentLengthKind) + Others(WireView(Reread(more)), ContentLengthKind)
  {
    hide KindOf, Meaning, WireContent, Others, Foreign;
    var v := WireView(Reread([f] + more));
    assert v == [LineView(f)] + WireView(Reread(more));
    OthersStep(LineView(f), WireView(Reread(more)), ContentLengthKind);
  }

  lemma ForeignLine(f: Field)
    requires KindOf(f.name) == ContentLengthKind
    ensures Foreign(LineView(f), ContentLengthKind) == []
    ensures Others([], ContentLengthKind) == []
  {
    hide KindOf, Meaning, WireContent;
  }

  /** The next proxy reads from the printed bytes a message of the same headers, and takes exactly its bytes from
      the stream, however much of it had been parsed and edited before it was printed. */
  lemma NextProxyReads(m: Message, rest: string)
    requires m.Valid() && (forall i :: 0 <= i < |m.headers| ==> Travels(m.headers[i].value))
    requires WellFormed(Printed(m)) && LengthHonest(Printed(m))
    ensures var r := ParseMsg(PrintMsg(Printed(m)) + rest);
      r.Some? && r.value.1 == rest && r.value.0.start == StartOf(m) && r.value.0.body == m.body
      && SameOnWire(Reread(r.value.0.fields), m.View())
  {
    hide ParseMsg, PrintMsg, WellFormed, LengthHonest, Travels, Kept, Others, WireView, Reread, KindOf, Meaning, PrintedFields;
    MessageRoundTrip(Printed(m), rest);
    PrintedTravels(m);
    LengthLinesAside(PrintedFields(m.headers), Field(CONTENT_LENGTH, Itoa(|m.body|)));
  }

  /** A message as ParseMessage leaves it holds exactly what its lines say. */
  lemma UnparsedView(m: Message)
    requires m.Valid() && forall i :: 0 <= i < |m.headers| ==> m.headers[i].value.Raw?
    ensures m.View() == Reread(Printed(m).fields) && Tidy(m.View())
  {
    hide KindOf, Meaning, Tidy;
    TidyMessage(m);
    forall i | 0 <= i < |m.headers|
      ensures m.View()[i] == Reread(Printed(m).fields)[i]
    {
      assert m.View()[i] == m.headers[i].View();
    }
  }

  // ---- a chain of proxies over bytes ----

  lemma RereadIsTidy(fs: seq<Field>)
    ensures Tidy(Reread(fs))
  {
    hide KindOf, Meaning, Fits;
    forall i | 0 <= i < |fs|
      ensures Fits(Reread(fs)[i].Kind(), Reread(fs)[i].content)
    {
      MeaningFits(KindOf(fs[i].name), fs[i].value);
    }
  }

  /** `w` is what a receiver reads of the printed message, with more of the stream behind it. */
  ghost predicate Delivered(m: Message, rest: string, w: View)
    reads m, m.repr
  {
    && m.Valid() && (forall i :: 0 <= i < |m.headers| ==> Travels(m.headers[i].value))
    && WellFormed(Printed(m)) && LengthHonest(Printed(m))
    && ParseMsg(PrintMsg(Printed(m)) + rest).Some?
    && w == Reread(ParseMsg(PrintMsg(Printed(m)) + rest).value.0.fields)
  }

  lemma DeliveredVias(m: Message, rest: string, w: View)
    requires Delivered(m, rest, w)
    ensures Tidy(w) && Filled(Flat(w, ViaKind)) == Filled(Flat(m.View(), ViaKind))
  {
    hide ParseMsg, PrintMsg, WellFormed, LengthHonest, Travels, Reread, SameOnWire, Filled, Flat, Tidy, TopRoute, ResponseHopOf,
         SessionIdOf, TransactionOf, PrintedFields;
    NextProxyReads(m, rest);
    RereadIsTidy(ParseMsg(PrintMsg(Printed(m)) + rest).value.0.fields);
    TidyMessage(m);
    SameDecisions(w, m.View());
  }

  /** Proxies that send each other their messages as bytes make a request run. */
  lemma RequestRunOverBytes(hops: seq<ProxyHop>, requests: seq<View>, sent: seq<Message>, rests: seq<string>)
    requires |requests| == |hops| + 1 && |sent| == |rests| == |hops| && Tidy(requests[0])
    requires forall i :: 0 <= i < |hops| ==> IsInt64(hops[i].peerPort) && hops[i].transportKnown
    requires forall i :: 0 <= i < |hops| ==>
      Delivered(sent[i], rests[i], requests[i + 1]) && sent[i].View() == Forwarded(requests[i], hops[i])
    ensures RequestRun(hops, requests)
  {
    hide Delivered, Filled, Flat, Forwarded, Tidy;
    forall i | 0 <= i < |requests|
      ensures Tidy(requests[i])
    {
      if i > 0 {
        DeliveredVias(sent[i - 1], rests[i - 1], requests[i]);
      }
    }
    forall i | 0 <= i < |hops|
      ensures Filled(Flat(requests[i + 1], ViaKind)) == Filled(Flat(Forwarded(requests[i], hops[i]), ViaKind))
    {
      DeliveredVias(sent[i], rests[i], requests[i + 1]);
    }
  }

  lemma SameReturned(v: View, w: View, l: Listener)
    requires Tidy(v) && Tidy(w) && Filled(Flat(v, ViaKind)) == Filled(Flat(w, ViaKind))
    ensures Tidy(Returned(v, l)) && Filled(Flat(Returned(v, l), ViaKind)) == Filled(Flat(Returned(w, l), ViaKind))
  {
    hide Flat, Tidy, PopFirst, Returned, Others, Filled;
    ReturnedVias(v, l);
    ReturnedVias(w, l);
    PopTakesFirst(v, ViaKind);
    PopTakesFirst(w, ViaKind);
    SamePopped(Flat(v, ViaKind), Flat(w, ViaKind));
  }

  lemma SamePopped(f: seq<Item>, g: seq<Item>)
    requires Filled(f) == Filled(g)
    ensures |f| == |g| && (f != [] ==> (f[0].Unreadable? <==> g[0].Unreadable?) && Filled(f[1..]) == Filled(g[1..]))
  {
    hide Defaulted;
    assert |f| == |Filled(f)| == |Filled(g)| == |g|;
    if f != [] {
      assert FilledItem(f[0]) == Filled(f)[0] == Filled(g)[0] == FilledItem(g[0]);
      BelowTop(f);
      BelowTop(g);
    }
  }

  /** So do those that send the response back; `received[i]` is what proxy `i` reads of it, `responses[i]` what it
      sends on, and `sent[i]` the message the one behind it printed. */
  lemma ResponseRunOverBytes(hops: seq<ProxyHop>, requests: seq<View>, responses: seq<View>, received: seq<View>,
                             sent: seq<Message>, rests: seq<string>)
    requires |requests| == |responses| == |hops| + 1 && |sent| == |rests| == |received| == |hops|
    requires Tidy(responses[|hops|]) && SameBelowTop(Flat(responses[|hops|], ViaKind), Flat(requests[|hops|], ViaKind))
    requires forall i :: 0 <= i < |hops| ==>
      && Delivered(sent[i], rests[i], received[i]) && sent[i].View() == responses[i + 1]
      && responses[i] == Returned(received[i], hops[i].listener)
    ensures ResponseRun(hops, requests, responses)
  {
    hide Delivered, Filled, Flat, Returned, Tidy, SameBelowTop;
    forall i | 0 <= i < |hops|
      ensures Tidy(responses[i])
      ensures Filled(Flat(responses[i], ViaKind)) == Filled(Flat(Returned(responses[i + 1], hops[i].listener), ViaKind))
    {
      DeliveredVias(sent[i], rests[i], received[i]);
      SentIsTidy(sent[i], rests[i], received[i]);
      SameReturned(received[i], responses[i + 1], hops[i].listener);
    }
  }

  lemma SentIsTidy(m: Message, rest: string, w: View)
    requires Delivered(m, rest, w)
    ensures Tidy(m.View())
  {
    hide Travels, WellFormed, LengthHonest, ParseMsg, PrintMsg, Reread, Tidy, PrintedFields;
    TidyMessage(m);
  }

  /** The reverse path over bytes: requests and responses that are printed by one proxy and parsed by the next, partly
      parsed and edited in between, retrace their way. */
  lemma ReversePathOverBytes(hops: seq<ProxyHop>, requests: seq<View>, out: seq<Message>, outRests: seq<string>,
                             responses: seq<View>, received: seq<View>, back: seq<Message>, backRests: seq<string>, i: nat)
    requires |requests| == |responses| == |hops| + 1 && i < |hops| && Tidy(requests[0])
    requires |out| == |outRests| == |back| == |backRests| == |received| == |hops|
    requires forall j :: 0 <= j < |hops| ==> IsInt64(hops[j].peerPort) && hops[j].transportKnown
    requires forall j :: 0 <= j < |hops| ==>
      Delivered(out[j], outRests[j], requests[j + 1]) && out[j].View() == Forwarded(requests[j], hops[j])
    requires Tidy(responses[|hops|]) && SameBelowTop(Flat(responses[|hops|], ViaKind), Flat(requests[|hops|], ViaKind))
    requires forall j :: 0 <= j < |hops| ==>
      && Delivered(back[j], backRests[j], received[j]) && back[j].View() == responses[j + 1]
      && responses[j] == Returned(received[j], hops[j].listener)
    ensures Filled(Flat(responses[i], ViaKind)) == Filled(Flat(Arrived(requests[i], hops[i]), ViaKind))
    ensures ResponseHopOf(responses[i]) == OriginHop(requests[i], hops[i])
  {
    hide Delivered, Filled, Flat, Forwarded, Returned, Tidy, SameBelowTop, RequestRun, ResponseRun, Arrived, ResponseHopOf, OriginHop;
    RequestRunOverBytes(hops, requests, out, outRests);
    ResponseRunOverBytes(hops, requests, responses, received, back, backRests);
    ReversePath(hops, requests, responses, i);
  }
}
