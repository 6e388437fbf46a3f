/** proxy.go, the message path: what a proxy does to the Via, Route and Record-Route headers of the messages
    it forwards, and why a response retraces the way of its request. */
module MessagePath {
  import opened Wrappers
  import opened Text
  import KeyValues
  import opened SipUris
  import opened NameAddrs
  import opened Routes
  import opened Vias
  import opened HeaderViews
  import opened Messages

  // ---- the top entries ----

  function TopVia(v: View): Option<ViaEntry> {
    var i := First(v, ViaKind);
    if i >= 0 && v[i].content.ViaList? && v[i].content.vias != [] then Some(v[i].content.vias[0]) else None
  }

  function TopRoute(v: View): Option<RouteEntry> {
    var i := First(v, RouteKind);
    if i >= 0 && v[i].content.RouteList? && v[i].content.routes != [] then Some(v[i].content.routes[0]) else None
  }

  function ViaAt(f: seq<Item>): Option<ViaEntry> {
    if f != [] && f[0].OfVia? then Some(f[0].via) else None
  }

  function RouteAt(f: seq<Item>): Option<RouteEntry> {
    if f != [] && f[0].OfRoute? then Some(f[0].route) else None
  }

  /** What the getters see is the head of the flattened list. */
  lemma TopsAreHeads(v: View)
    requires Tidy(v)
    ensures TopVia(v) == ViaAt(Flat(v, ViaKind))
    ensures TopRoute(v) == RouteAt(Flat(v, RouteKind))
  {
    TopIsHead(v, ViaKind);
    TopIsHead(v, RouteKind);
  }

  lemma TopIsHead(v: View, k: Kind)
    requires Tidy(v) && (k == ViaKind || k == RouteKind)
    ensures k == ViaKind ==> TopVia(v) == ViaAt(Flat(v, k))
    ensures k == RouteKind ==> TopRoute(v) == RouteAt(Flat(v, k))
  {
    hide KindOf, Flat, Others, First;
    var i := First(v, k);
    if i < 0 {
      FlatOfOtherKinds(v, k);
    } else {
      ReplaceFirst(v, [v[i]], k);
      TidyItems(k, v[i].content);
    }
  }

  // ---- requests ----

  /** The listener a request came in on; `aliases` are the host names that resolve to its address. */
  datatype Listener = Listener(address: string, port: int, aliases: set<string>)

  predicate NamesListener(e: RouteEntry, l: Listener) {
    match e.nameAddr.addr
    case SipAddr(u) => SipUris.GetPort(u) == l.port && (u.host == l.address || u.host in l.aliases)
    case AbsoluteAddr(_) => false
  }

  /** tryRemoveTopRoute (section 16.4 of RFC 3261). */
  function WithoutOwnRoute(v: View, l: Listener): View {
    var top := TopRoute(v);
    if top.Some? && NamesListener(top.value, l) then PopFirst(v, RouteKind) else v
  }

  function HopOf(e: RouteEntry): Option<Hop> {
    match e.nameAddr.addr
    case SipAddr(u) => Some(Hop(u.host, SipUris.GetPort(u), GetTransport(u)))
    case AbsoluteAddr(_) => None
  }

  /** getNextRequestHopByRoute: the entry is consumed even when it turns out to be no SIP URI. */
  function NextHopByRoute(v: View, keep: bool): (Option<Hop>, View) {
    var top := TopRoute(v);
    if top.None? then (None, v)
    else (HopOf(top.value), if keep then v else PopFirst(v, RouteKind))
  }

  /** One own entry and one hop entry at most leave the front of the flattened Route list. */
  lemma RouteConsumption(v: View, l: Listener, keep: bool)
    requires Tidy(v)
    ensures var f := Flat(v, RouteKind);
      var own := RouteAt(f).Some? && NamesListener(RouteAt(f).value, l);
      var g := if own then f[1..] else f;
      var (hop, w) := NextHopByRoute(WithoutOwnRoute(v, l), keep);
      && Tidy(w) && Others(w, RouteKind) == Others(v, RouteKind)
      && Flat(WithoutOwnRoute(v, l), RouteKind) == g
      && Flat(w, RouteKind) == (if RouteAt(g).Some? && !keep then g[1..] else g)
      && hop == (if RouteAt(g).Some? then HopOf(RouteAt(g).value) else None)
  {
    hide KindOf, Flat, Others, First, PopFirst, TopRoute, NamesListener, HopOf, Tidy;
    TopsAreHeads(v);
    PopTakesFirst(v, RouteKind);
    var w := WithoutOwnRoute(v, l);
    TopsAreHeads(w);
    PopTakesFirst(w, RouteKind);
  }

  /** The port that a URI writes, or the default of its transport. */
  function WrittenPort(u: Uri): int {
    if u.port != 0 then u.port else if KeyValues.Lookup(u.parameters, "transport") == Some("tls") then 5061 else 5060
  }

  /** The topmost Route goes exactly when its port is the listener's and its host the listener's or an alias of it. */
  lemma OwnRouteExactly(v: View, l: Listener, u: Uri)
    requires Tidy(v) && RouteAt(Flat(v, RouteKind)).Some? && RouteAt(Flat(v, RouteKind)).value.nameAddr.addr == SipAddr(u)
    ensures var f := Flat(v, RouteKind);
      Flat(WithoutOwnRoute(v, l), RouteKind)
        == if WrittenPort(u) == l.port && (u.host == l.address || u.host in l.aliases) then f[1..] else f
    ensures Flat(WithoutOwnRoute(v, l), RouteKind) != Flat(v, RouteKind)
       <==> WrittenPort(u) == l.port && (u.host == l.address || u.host in l.aliases)
  {
    hide KindOf, Flat, Others, First, PopFirst, TopRoute, HopOf, Tidy, NextHopByRoute, KeyValues.Lookup;
    NamesByHostAndPort(RouteAt(Flat(v, RouteKind)).value, l, u);
    RouteConsumption(v, l, true);
    assert |Flat(v, RouteKind)[1..]| < |Flat(v, RouteKind)|;
  }

  lemma NamesByHostAndPort(e: RouteEntry, l: Listener, u: Uri)
    requires e.nameAddr.addr == SipAddr(u)
    ensures NamesListener(e, l) <==> WrittenPort(u) == l.port && (u.host == l.address || u.host in l.aliases)
  {
    hide KeyValues.Lookup;
    UriDefaults(u);
  }

  /** An absolute URI names no listener. */
  lemma AbsoluteRouteStays(v: View, l: Listener)
    requires Tidy(v) && RouteAt(Flat(v, RouteKind)).Some? && RouteAt(Flat(v, RouteKind)).value.nameAddr.addr.AbsoluteAddr?
    ensures WithoutOwnRoute(v, l) == v
  {
    hide KindOf, Flat, First, Tidy, TopRoute;
    TopsAreHeads(v);
  }

  /** The Record-Route entry a listener wrote, coming back as the topmost Route, is removed by that listener, and by
      no listener at another port or at an address it is not known by. */
  lemma OwnEntryComesBack(v: View, l: Listener, address: string, port: int)
    requires Tidy(v) && RouteAt(Flat(v, RouteKind)) == Some(OwnRecordRoute(address, port)) && port != 0
    ensures Flat(WithoutOwnRoute(v, l), RouteKind) == Flat(v, RouteKind)[1..]
       <==> port == l.port && (address == l.address || address in l.aliases)
    ensures Flat(WithoutOwnRoute(v, l), RouteKind) == Flat(v, RouteKind)
       <==> !(port == l.port && (address == l.address || address in l.aliases))
  {
    hide KindOf, Flat, Tidy, WithoutOwnRoute;
    OwnRouteExactly(v, l, OwnRecordRoute(address, port).nameAddr.addr.uri);
    assert |Flat(v, RouteKind)[1..]| < |Flat(v, RouteKind)|;
  }

  /** The chosen hop is the host of the first entry left, with the port and transport its URI names or the defaults. */
  lemma NextHopExactly(v: View, keep: bool, u: Uri)
    requires Tidy(v) && RouteAt(Flat(v, RouteKind)).Some? && RouteAt(Flat(v, RouteKind)).value.nameAddr.addr == SipAddr(u)
    ensures NextHopByRoute(v, keep).0 == Some(Hop(u.host, WrittenPort(u),
              match KeyValues.Lookup(u.parameters, "transport") case Some(t) => t case None => "udp"))
  {
    hide KindOf, Flat, First, PopFirst, Tidy, TopRoute, KeyValues.Lookup;
    TopsAreHeads(v);
    UriDefaults(u);
  }

  /** Without a Route, or with an absolute URI in it, there is none. */
  lemma NoNextHop(v: View, keep: bool)
    requires Tidy(v)
    requires RouteAt(Flat(v, RouteKind)).Some? ==> RouteAt(Flat(v, RouteKind)).value.nameAddr.addr.AbsoluteAddr?
    ensures NextHopByRoute(v, keep).0 == None
  {
    hide KindOf, Flat, First, PopFirst, Tidy, TopRoute;
    TopsAreHeads(v);
  }

  /** Entry conditions and settings that decide what one proxy does to a request; `transportKnown` says that
      a transport towards the chosen hop, or towards the backend, was found. */
  datatype ProxyHop = ProxyHop(
    peerAddr: string, peerPort: int, receivedSupport: bool,
    listener: Listener, keepNextHopRoute: bool,
    transportKnown: bool, own: ViaEntry, mustRecordRoute: bool, ownRecord: RouteEntry)

  /** The request once the receiving side has recorded the peer. */
  function Arrived(v: View, h: ProxyHop): View {
    if h.receivedSupport then HeaderViews.SetReceived(v, h.peerAddr, h.peerPort) else v
  }

  function Routed(v: View, h: ProxyHop): View {
    NextHopByRoute(WithoutOwnRoute(Arrived(v, h), h.listener), h.keepNextHopRoute).1
  }

  /** addVia and addRecordRoute, which run only when the transport towards the hop is known. */
  function Signed(v: View, h: ProxyHop): View {
    if !h.transportKnown then v else RecordRouted(PushVia(v, h.own), h)
  }

  function RecordRouted(v: View, h: ProxyHop): View {
    if First(v, RecordRouteKind) >= 0 || h.mustRecordRoute then PushRecordRoute(v, h.ownRecord) else v
  }

  function Forwarded(v: View, h: ProxyHop): View {
    Signed(Routed(v, h), h)
  }

  lemma ViasUntouchedByRouting(v: View, h: ProxyHop)
    requires Tidy(v)
    ensures Tidy(Arrived(v, h)) && Tidy(Routed(v, h))
    ensures Flat(Routed(v, h), ViaKind) == Flat(Arrived(v, h), ViaKind)
  {
    hide KindOf, Flat, Others, First, PopFirst, TopRoute, NextHopByRoute, WithoutOwnRoute, Tidy, HeaderViews.SetReceived;
    var w := Arrived(v, h);
    SetReceivedRecordsTop(v, h.peerAddr, h.peerPort);
    RouteConsumption(w, h.listener, h.keepNextHopRoute);
    FlatOfOthers(w, RouteKind, ViaKind);
    FlatOfOthers(Routed(v, h), RouteKind, ViaKind);
  }

  /** A forwarded request carries the proxy's own entry in front of the list it arrived with, and the list
      as it arrived when no transport towards the hop is known. */
  lemma ForwardedVias(v: View, h: ProxyHop)
    requires Tidy(v)
    ensures Tidy(Forwarded(v, h))
    ensures Flat(Forwarded(v, h), ViaKind)
         == if h.transportKnown then [OfVia(h.own)] + Flat(Arrived(v, h), ViaKind) else Flat(Arrived(v, h), ViaKind)
  {
    hide KindOf, Flat, Others, First, PushVia, PushRecordRoute, Routed, Arrived, Tidy;
    ViasUntouchedByRouting(v, h);
    var r := Routed(v, h);
    PushViaAddsFirst(r, h.own);
    var w := PushVia(r, h.own);
    PushRecordRouteAddsFirst(w, h.ownRecord);
    FlatOfOthers(w, RecordRouteKind, ViaKind);
    FlatOfOthers(PushRecordRoute(w, h.ownRecord), RecordRouteKind, ViaKind);
  }

  /** A forwarded request carries the proxy's own Record-Route entry in front exactly when its transport is known and
      there was a Record-Route header or the proxy insists on one. */
  lemma ForwardedRecordRoutes(v: View, h: ProxyHop)
    requires Tidy(v)
    ensures Flat(Forwarded(v, h), RecordRouteKind) ==
              (if h.transportKnown && (h.mustRecordRoute || exists i :: 0 <= i < |v| && v[i].Kind() == RecordRouteKind)
               then [OfRoute(h.ownRecord)] else []) + Flat(v, RecordRouteKind)
  {
    hide KindOf, Flat, Others, PopFirst, PushVia, PushRecordRoute, TopRoute, NextHopByRoute, WithoutOwnRoute, Tidy,
         HeaderViews.SetReceived, First, Routed, Arrived;
    var a, w := Arrived(v, h), Routed(v, h);
    RoutingKeepsRecordRoutes(v, h);
    PushViaAddsFirst(w, h.own);
    var x := PushVia(w, h.own);
    FlatOfOthers(w, ViaKind, RecordRouteKind);
    FlatOfOthers(x, ViaKind, RecordRouteKind);
    SamePresence(w, x, ViaKind, RecordRouteKind);
    PushRecordRouteAddsFirst(x, h.ownRecord);
    assert [] + Flat(v, RecordRouteKind) == Flat(v, RecordRouteKind);
    assert First(v, RecordRouteKind) >= 0 <==> exists i :: 0 <= i < |v| && v[i].Kind() == RecordRouteKind;
  }

  lemma RoutingKeepsRecordRoutes(v: View, h: ProxyHop)
    requires Tidy(v)
    ensures Flat(Routed(v, h), RecordRouteKind) == Flat(v, RecordRouteKind)
    ensures First(Routed(v, h), RecordRouteKind) >= 0 <==> First(v, RecordRouteKind) >= 0
  {
    hide KindOf, Flat, Others, First, PopFirst, TopRoute, NextHopByRoute, WithoutOwnRoute, Tidy, HeaderViews.SetReceived;
    var a, w := Arrived(v, h), Routed(v, h);
    SetReceivedRecordsTop(v, h.peerAddr, h.peerPort);
    SamePresence(v, a, ViaKind, RecordRouteKind);
    FlatOfOthers(v, ViaKind, RecordRouteKind);
    FlatOfOthers(a, ViaKind, RecordRouteKind);
    RouteConsumption(a, h.listener, h.keepNextHopRoute);
    SamePresence(a, w, RouteKind, RecordRouteKind);
    FlatOfOthers(a, RouteKind, RecordRouteKind);
    FlatOfOthers(w, RouteKind, RecordRouteKind);
  }

  lemma {:induction false} PresenceInOthers(v: View, k: Kind, other: Kind)
    requires k != other
    ensures First(v, other) >= 0 <==> First(Others(v, k), other) >= 0
  {
    hide KindOf;
    if v != [] {
      PresenceInOthers(v[1..], k, other);
      if v[0].Kind() != k {
        assert Others(v, k) == [v[0]] + Others(v[1..], k);
        assert Others(v, k)[1..] == Others(v[1..], k);
      } else {
        assert Others(v, k) == Others(v[1..], k);
      }
    }
  }

  lemma SamePresence(v: View, w: View, k: Kind, other: Kind)
    requires k != other
    ensures Others(v, k) == Others(w, k) ==> (First(v, other) >= 0 <==> First(w, other) >= 0)
  {
    hide KindOf, Others, First;
    PresenceInOthers(v, k, other);
    PresenceInOthers(w, k, other);
  }

  // ---- responses ----

  /** getNextReponseHop. */
  function ResponseHopOf(v: View): Option<Hop> {
    var top :- TopVia(v);
    Some(ResponseHop(top))
  }

  /** What a proxy sends of a response: the topmost Route is looked at as for any message, then the own Via goes. */
  function Returned(v: View, l: Listener): View {
    PopFirst(WithoutOwnRoute(v, l), ViaKind)
  }

  lemma ReturnedVias(v: View, l: Listener)
    requires Tidy(v)
    ensures Tidy(Returned(v, l)) && Flat(Returned(v, l), ViaKind) == Flat(PopFirst(v, ViaKind), ViaKind)
  {
    hide KindOf, Flat, Others, First, PopFirst, TopRoute, NamesListener, Tidy;
    var w := WithoutOwnRoute(v, l);
    PopTakesFirst(v, RouteKind);
    FlatOfOthers(v, RouteKind, ViaKind);
    FlatOfOthers(w, RouteKind, ViaKind);
    PopTakesFirst(v, ViaKind);
    PopTakesFirst(w, ViaKind);
  }

  /** The port written in an entry, or the default. */
  function SentByPort(v: ViaEntry): int {
    if v.port != 0 then v.port else if v.transport == "TLS" then 5061 else 5060
  }

  /** The hop the request came from: where the peer was recorded, its address, and its port if the sender asked for
      that; otherwise what the topmost entry says of itself. */
  function OriginHop(v: View, h: ProxyHop): Option<Hop> {
    var top :- ViaAt(Flat(v, ViaKind));
    Some(
      if h.receivedSupport then
        Hop(h.peerAddr, if KeyValues.Lookup(top.params, "rport").Some? then h.peerPort else SentByPort(top), top.transport)
      else
        match KeyValues.Lookup(top.params, "received")
        case None => Hop(top.host, SentByPort(top), top.transport)
        case Some(host) =>
          var rport := KeyValues.Lookup(top.params, "rport");
          Hop(host, if rport.Some? && Atoi(rport.value).Some? then Atoi(rport.value).value else SentByPort(top), top.transport))
  }

  /** What getNextReponseHop makes of an entry that nobody records the peer in. */
  lemma UnrecordedHop(v: ViaEntry)
    ensures ResponseHop(v) ==
              match KeyValues.Lookup(v.params, "received")
              case None => Hop(v.host, SentByPort(v), v.transport)
              case Some(host) =>
                var rport := KeyValues.Lookup(v.params, "rport");
                Hop(host, if rport.Some? && Atoi(rport.value).Some? then Atoi(rport.value).value else SentByPort(v), v.transport)
  {
    hide KeyValues.Lookup, Atoi;
  }

  /** A response whose topmost Via is the text of an entry without `received` leaves for the host and port in that text. */
  lemma ResponseGoesToText(w: View, text: string, a: string, v: ViaEntry, mid: string, port: Option<int>, b: string)
    requires First(w, ViaKind) >= 0 && w[First(w, ViaKind)].content == Meaning(ViaKind, text)
    requires AllSpace(a) && AllSpace(mid) && mid != "" && AllSpace(b) && ';' !in a + mid + b && ',' !in text
    requires PrintableVia(v) && v.host != "" && KeyValues.Lookup(v.params, "received").None?
    requires port.Some? ==> IsInt64(port.value) && port.value != 0
    requires text == a + ProtocolText(v.protocolName, v.protocolVersion, v.transport)
                     + (mid + SentByText(v.host, match port case None => None case Some(n) => Some(Itoa(n))) + b)
                     + KeyValues.PrintParams(v.params)
    ensures ResponseHopOf(w)
         == Some(Hop(v.host, if port.Some? then port.value else if v.transport == "TLS" then 5061 else 5060, v.transport))
  {
    hide First, Meaning, Split, ParseViaParam, ResponseHop, Itoa, KeyValues.PrintParams, KeyValues.Lookup, PrintableVia, AllSpace,
         ProtocolText, SentByText;
    HopOfText(a, v, mid, port, b);
    MeaningOfVia(text);
    var e := ParseViaParam(text).value;
    OneEntryList(text, e);
  }

  lemma OneEntryList(text: string, e: ViaEntry)
    requires ',' !in text && ParseViaParam(text) == Some(e)
    ensures ParseVia(text) == Some([e])
  {
    hide Split, ParseViaParam;
    SplitFirst(text, ',', "");
    assert [text][1..] == [];
    assert ParseViaParams([]) == Some([]);
    assert [e] + [] == [e];
  }

  lemma ArrivedHop(v: View, h: ProxyHop)
    requires Tidy(v) && IsInt64(h.peerPort)
    ensures ResponseHopOf(Arrived(v, h)) == OriginHop(v, h)
  {
    hide KindOf, Flat, Others, First, TopVia, ResponseHop, Recorded, Tidy, HeaderViews.SetReceived, KeyValues.Lookup, Atoi;
    SetReceivedRecordsTop(v, h.peerAddr, h.peerPort);
    TopsAreHeads(v);
    TopsAreHeads(Arrived(v, h));
    var f := Flat(v, ViaKind);
    if ViaAt(f).Some? {
      RecordedHop(f[0].via, h.peerAddr, h.peerPort);
      UnrecordedHop(f[0].via);
    }
  }

  /** The list as it looks once it has travelled as text: every entry names its port (ViaRoundTrip). */
  function Filled(f: seq<Item>): (r: seq<Item>)
    ensures |r| == |f|
    ensures forall i :: 0 <= i < |f| ==> r[i] == FilledItem(f[i])
  {
    seq(|f|, i requires 0 <= i < |f| => FilledItem(f[i]))
  }

  function FilledItem(e: Item): Item {
    match e
    case OfVia(v) => OfVia(Defaulted(v))
    case _ => e
  }

  /** Two lists that are the same up to ports left to their default send a response to the same hop. */
  lemma SameHop(f: seq<Item>, g: seq<Item>)
    requires Filled(f) == Filled(g)
    ensures ViaAt(f).Some? <==> ViaAt(g).Some?
    ensures ViaAt(f).Some? ==>
      ResponseHop(ViaAt(f).value) == ResponseHop(ViaAt(g).value) && GetBranch(ViaAt(f).value) == GetBranch(ViaAt(g).value)
  {
    hide Defaulted, ResponseHop, GetBranch;
    if f != [] {
      assert FilledItem(f[0]) == Filled(f)[0] == Filled(g)[0] == FilledItem(g[0]);
      if f[0].OfVia? {
        DefaultedIsSame(f[0].via);
        DefaultedIsSame(g[0].via);
      }
    }
  }

  /** A request passing through a chain of proxies: each one receives the flattened Via list the previous one
      sent, in any grouping into header lines and with default ports written out or not. */
  predicate RequestRun(hops: seq<ProxyHop>, requests: seq<View>) {
    && |requests| == |hops| + 1
    && (forall i :: 0 <= i < |requests| ==> Tidy(requests[i]))
    && (forall i :: 0 <= i < |hops| ==> IsInt64(hops[i].peerPort) && hops[i].transportKnown)
    && (forall i :: 0 <= i < |hops| ==>
          Filled(Flat(requests[i + 1], ViaKind)) == Filled(Flat(Forwarded(requests[i], hops[i]), ViaKind)))
  }

  /** Its response on the way back: it starts with the Via list of the request, whose top entry the far end may
      have changed, and `responses[i]` is what proxy `i` sends, again in any grouping. */
  predicate ResponseRun(hops: seq<ProxyHop>, requests: seq<View>, responses: seq<View>) {
    && |responses| == |hops| + 1 == |requests|
    && (forall i :: 0 <= i < |responses| ==> Tidy(responses[i]))
    && SameBelowTop(Flat(responses[|hops|], ViaKind), Flat(requests[|hops|], ViaKind))
    && (forall i :: 0 <= i < |hops| ==>
          Filled(Flat(responses[i], ViaKind)) == Filled(Flat(Returned(responses[i + 1], hops[i].listener), ViaKind)))
  }

  predicate SameBelowTop(f: seq<Item>, g: seq<Item>) {
    && |f| == |g|
    && (f != [] ==> (f[0].OfVia? <==> g[0].OfVia?) && Filled(f)[1..] == Filled(g)[1..])
  }

  /** What is left after the first entry. */
  lemma BelowTop(f: seq<Item>)
    requires f != []
    ensures Filled(f[1..]) == Filled(f)[1..]
  {
  }

  /** Every proxy sends the response with exactly the Via list its request had on arrival there, up to default
      ports, and to the hop that request came from. */
  lemma {:induction false} ReversePath(hops: seq<ProxyHop>, requests: seq<View>, responses: seq<View>, i: nat)
    requires RequestRun(hops, requests) && ResponseRun(hops, requests, responses) && i < |hops|
    ensures Filled(Flat(responses[i], ViaKind)) == Filled(Flat(Arrived(requests[i], hops[i]), ViaKind))
    ensures ResponseHopOf(responses[i]) == OriginHop(requests[i], hops[i])
    decreases |hops| - i
  {
    hide KindOf, Flat, Others, First, PopFirst, Forwarded, Arrived, TopVia, ResponseHop, OriginHop, Tidy,
         HeaderViews.SetReceived, Filled, Returned;
    var h, next := hops[i], Flat(responses[i + 1], ViaKind);
    ForwardedVias(requests[i], h);
    var sent, arrived := Flat(requests[i + 1], ViaKind), Flat(Arrived(requests[i], h), ViaKind);
    TopOfSent(sent, h.own, arrived);
    assert SameBelowTop(next, sent) by {
      if i + 1 < |hops| {
        ReversePath(hops, requests, responses, i + 1);
        ArrivalKeepsRest(requests[i + 1], hops[i + 1]);
        SameBelowToo(next, Flat(Arrived(requests[i + 1], hops[i + 1]), ViaKind), sent);
      }
    }
    PopTakesFirst(responses[i + 1], ViaKind);
    ReturnedVias(responses[i + 1], h.listener);
    BelowTop(next);
    ArrivedHop(requests[i], h);
    ViasUntouchedByRouting(requests[i], h);
    TopsAreHeads(responses[i]);
    TopsAreHeads(Arrived(requests[i], h));
    SameHop(Flat(responses[i], ViaKind), arrived);
  }

  lemma TopOfSent(sent: seq<Item>, own: ViaEntry, arrived: seq<Item>)
    requires Filled(sent) == Filled([OfVia(own)] + arrived)
    ensures sent != [] && sent[0].OfVia? && Filled(sent)[1..] == Filled(arrived)
  {
    var f := [OfVia(own)] + arrived;
    BelowTop(f);
    assert f[1..] == arrived;
    assert FilledItem(sent[0]) == Filled(sent)[0] == Filled(f)[0] == FilledItem(f[0]);
  }

  lemma SameBelowToo(f: seq<Item>, g: seq<Item>, h: seq<Item>)
    requires Filled(f) == Filled(g) && SameBelowTop(g, h)
    ensures SameBelowTop(f, h)
  {
    hide Defaulted;
    if f != [] {
      assert FilledItem(f[0]) == Filled(f)[0] == Filled(g)[0] == FilledItem(g[0]);
    }
  }

  /** The requests when nothing happens between the proxies, and the responses likewise. */
  function Requests(v: View, hops: seq<ProxyHop>): (r: seq<View>)
    ensures |r| == |hops| + 1 && r[0] == v
    decreases |hops|
  {
    [v] + if hops == [] then [] else Requests(Forwarded(v, hops[0]), hops[1..])
  }

  function Responses(last: View, hops: seq<ProxyHop>): (r: seq<View>)
    ensures |r| == |hops| + 1 && r[|hops|] == last
    decreases |hops|
  {
    if hops == [] then [last]
    else
      var n := |hops| - 1;
      Responses(Returned(last, hops[n].listener), hops[..n]) + [last]
  }

  predicate ForwardsAt(hops: seq<ProxyHop>, requests: seq<View>, i: nat)
    requires i < |hops| && |requests| == |hops| + 1
  {
    Tidy(requests[i + 1]) && requests[i + 1] == Forwarded(requests[i], hops[i])
  }

  predicate ReturnsAt(hops: seq<ProxyHop>, responses: seq<View>, i: nat)
    requires i < |hops| && |responses| == |hops| + 1
  {
    Tidy(responses[i]) && responses[i] == Returned(responses[i + 1], hops[i].listener)
  }

  lemma {:induction false} RequestsSteps(v: View, hops: seq<ProxyHop>)
    requires Tidy(v)
    ensures forall i :: 0 <= i < |hops| ==> ForwardsAt(hops, Requests(v, hops), i)
    decreases |hops|
  {
    hide Tidy, Forwarded, Flat;
    if hops != [] {
      ForwardedVias(v, hops[0]);
      RequestsSteps(Forwarded(v, hops[0]), hops[1..]);
      var r, more := Requests(v, hops), Requests(Forwarded(v, hops[0]), hops[1..]);
      assert r == [v] + more;
      forall i | 0 <= i < |hops|
        ensures ForwardsAt(hops, r, i)
      {
        if i > 0 {
          assert ForwardsAt(hops[1..], more, i - 1);
        }
      }
    }
  }

  lemma {:induction false} ResponsesSteps(last: View, hops: seq<ProxyHop>)
    requires Tidy(last)
    ensures forall i :: 0 <= i < |hops| ==> ReturnsAt(hops, Responses(last, hops), i)
    decreases |hops|
  {
    hide Tidy, PopFirst, Flat, Others, Returned;
    if hops != [] {
      var n := |hops| - 1;
      var before := Returned(last, hops[n].listener);
      ReturnedVias(last, hops[n].listener);
      ResponsesSteps(before, hops[..n]);
      var r, less := Responses(last, hops), Responses(before, hops[..n]);
      assert r == less + [last];
      forall i | 0 <= i < |hops|
        ensures ReturnsAt(hops, r, i)
      {
        if i < n {
          assert ReturnsAt(hops[..n], less, i);
        }
      }
    }
  }

  /** Every request can make its way through every chain and its response back. */
  lemma RunExists(v: View, hops: seq<ProxyHop>)
    requires Tidy(v)
    requires forall i :: 0 <= i < |hops| ==> IsInt64(hops[i].peerPort) && hops[i].transportKnown
    ensures var requests := Requests(v, hops);
      RequestRun(hops, requests) && ResponseRun(hops, requests, Responses(requests[|hops|], hops))
  {
    hide RequestRun, ResponseRun, Tidy, ForwardsAt, ReturnsAt;
    var requests := Requests(v, hops);
    RequestsSteps(v, hops);
    assert Tidy(requests[|hops|]) by {
      if hops != [] {
        TidyAfter(hops, requests, |hops| - 1);
      }
    }
    ResponsesSteps(requests[|hops|], hops);
    IsRun(hops, requests, Responses(requests[|hops|], hops));
  }

  lemma TidyAfter(hops: seq<ProxyHop>, requests: seq<View>, i: nat)
    requires i < |hops| && |requests| == |hops| + 1 && ForwardsAt(hops, requests, i)
    ensures Tidy(requests[i + 1])
  {
  }

  /** So the reverse path is that of every request: through any chain and back, the response ends
      with the Via list the request arrived with, at the hop it came from. */
  lemma ThereAndBack(v: View, hops: seq<ProxyHop>)
    requires Tidy(v) && hops != []
    requires forall i :: 0 <= i < |hops| ==> IsInt64(hops[i].peerPort) && hops[i].transportKnown
    ensures var responses := Responses(Requests(v, hops)[|hops|], hops);
      && Filled(Flat(responses[0], ViaKind)) == Filled(Flat(Arrived(v, hops[0]), ViaKind))
      && ResponseHopOf(responses[0]) == OriginHop(v, hops[0])
  {
    hide RequestRun, ResponseRun, Tidy, Flat, Filled, Arrived, ResponseHopOf, OriginHop, Returned;
    var requests := Requests(v, hops);
    RunExists(v, hops);
    ReversePath(hops, requests, Responses(requests[|hops|], hops), 0);
  }

  lemma IsRun(hops: seq<ProxyHop>, requests: seq<View>, responses: seq<View>)
    requires |requests| == |responses| == |hops| + 1 && requests[|hops|] == responses[|hops|]
    requires forall i :: 0 <= i < |hops| ==> IsInt64(hops[i].peerPort) && hops[i].transportKnown
    requires Tidy(requests[0])
    requires forall i :: 0 <= i < |hops| ==> ForwardsAt(hops, requests, i) && ReturnsAt(hops, responses, i)
    ensures RequestRun(hops, requests) && ResponseRun(hops, requests, responses)
  {
    hide Tidy, PopFirst, Flat, Forwarded, Filled, Returned;
    forall i | 0 <= i <= |hops|
      ensures Tidy(requests[i]) && Tidy(responses[i])
    {
      if i > 0 {
        assert ForwardsAt(hops, requests, i - 1);
      }
      if i < |hops| {
        assert ReturnsAt(hops, responses, i);
      } else {
        assert requests[i] == responses[i];
      }
    }
    forall i | 0 <= i < |hops|
      ensures requests[i + 1] == Forwarded(requests[i], hops[i]) && responses[i] == Returned(responses[i + 1], hops[i].listener)
    {
      assert ForwardsAt(hops, requests, i) && ReturnsAt(hops, responses, i);
    }
  }

  lemma ArrivalKeepsRest(v: View, h: ProxyHop)
    requires Tidy(v)
    ensures SameBelowTop(Flat(Arrived(v, h), ViaKind), Flat(v, ViaKind))
  {
    hide KindOf, Flat, Others, First, Recorded, Tidy, HeaderViews.SetReceived;
    SetReceivedRecordsTop(v, h.peerAddr, h.peerPort);
  }

  /** Responses are popped unconditionally while the push depends on the transport being known, so a proxy
      restores the Via list exactly when it knew the transport. */
  lemma RestoredIffPushed(request: View, h: ProxyHop, response: View)
    requires Tidy(request) && Tidy(response)
    requires ViaAt(Flat(request, ViaKind)).Some?
    requires Filled(Flat(response, ViaKind)) == Filled(Flat(Forwarded(request, h), ViaKind))
    ensures Filled(Flat(Returned(response, h.listener), ViaKind)) == Filled(Flat(Arrived(request, h), ViaKind))
       <==> h.transportKnown
  {
    hide KindOf, Flat, Others, First, PopFirst, Forwarded, Arrived, Tidy, Filled, Returned;
    ForwardedVias(request, h);
    ArrivalKeepsRest(request, h);
    PopTakesFirst(response, ViaKind);
    ReturnedVias(response, h.listener);
    var f, g := Flat(Arrived(request, h), ViaKind), Flat(response, ViaKind);
    assert f != [] && f[0].OfVia?;
    if h.transportKnown {
      TopOfSent(g, h.own, f);
      BelowTop(g);
    } else {
      assert |g| == |Filled(g)| == |Filled(f)| == |f|;
      assert [f[0]] + f[1..] == f;
      TopOfSent(g, f[0].via, f[1..]);
      assert |g[1..]| == |f| - 1;
    }
  }

  // ---- the handlers ----

  class PathProxy {
    const keepNextHopRoute: bool
    const mustRecordRoute: bool

    constructor (keepNextHopRoute: bool, mustRecordRoute: bool)
      ensures this.keepNextHopRoute == keepNextHopRoute && this.mustRecordRoute == mustRecordRoute
    {
      this.keepNextHopRoute, this.mustRecordRoute := keepNextHopRoute, mustRecordRoute;
    }

    method TryRemoveTopRoute(m: Message, l: Listener)
      requires m.Valid()
      modifies m.repr
      ensures m.Valid() && fresh(m.repr - old(m.repr))
      ensures m.View() == WithoutOwnRoute(old(m.View()), l)
    {
      hide KindOf, First, PopFirst, NamesListener, HeaderValue.Content, HeaderValue.Suits;
      var route := m.GetRoute();
      TidyMessage(m);
      if route == null {
        return;
      }
      RouteSeen(m, route);
      if NamesListener(route.routeParams[0], l) {
        var _ := m.PopRoute();
      }
    }

    method GetNextRequestHopByRoute(m: Message) returns (hop: Option<Hop>)
      requires m.Valid()
      modifies m.repr
      ensures m.Valid() && fresh(m.repr - old(m.repr))
      ensures (hop, m.View()) == NextHopByRoute(old(m.View()), keepNextHopRoute)
    {
      hide KindOf, First, PopFirst, HeaderValue.Content, HeaderValue.Suits;
      var route := m.GetRoute();
      TidyMessage(m);
      if route == null {
        return None;
      }
      RouteSeen(m, route);
      var e := route.routeParams[0];
      if !keepNextHopRoute {
        var _ := m.PopRoute();
      }
      match e.nameAddr.addr {
        case SipAddr(u) => return Some(Hop(u.host, SipUris.GetPort(u), GetTransport(u)));
        case AbsoluteAddr(_) => return None;
      }
    }

    method AddOwnVia(m: Message, own: ViaEntry)
      requires m.Valid()
      modifies m.repr
      ensures m.Valid() && fresh(m.repr - old(m.repr))
      ensures m.View() == PushVia(old(m.View()), own)
    {
      hide KindOf, First, PushVia, HeaderValue.Content, HeaderValue.Suits;
      var p := new ViaParam(own);
      var via := new Via();
      via.AddViaParam(p);
      m.AddVia(via);
    }

    /** addRecordRoute: only with a Record-Route header already there, or when configured. */
    method AddOwnRecordRoute(m: Message, h: ProxyHop)
      requires m.Valid() && h.mustRecordRoute == mustRecordRoute
      modifies m.repr
      ensures m.Valid() && fresh(m.repr - old(m.repr))
      ensures m.View() == RecordRouted(old(m.View()), h)
    {
      hide KindOf, First, PushRecordRoute, HeaderValue.Content, HeaderValue.Suits;
      var pos := m.FindHeaderPos(RecordRouteKind);
      if pos != -1 || mustRecordRoute {
        var rr := new RecordRoute([h.ownRecord]);
        m.AddRecordRoute(rr);
      }
    }

    /** addVia and addRecordRoute. */
    method SignRequest(m: Message, h: ProxyHop)
      requires m.Valid() && h.mustRecordRoute == mustRecordRoute
      modifies m.repr
      ensures m.Valid() && fresh(m.repr - old(m.repr))
      ensures m.View() == Signed(old(m.View()), h)
    {
      hide KindOf, First, PushVia, RecordRouted;
      if h.transportKnown {
        AddOwnVia(m, h.own);
        AddOwnRecordRoute(m, h);
      }
    }

    /** handleRawMessage and the request branch of handleMessage, from reception to the moment of sending. */
    method ForwardRequest(m: Message, h: ProxyHop) returns (hop: Option<Hop>)
      requires m.Valid() && h.mustRecordRoute == mustRecordRoute && h.keepNextHopRoute == keepNextHopRoute
      modifies m.repr
      ensures m.Valid() && fresh(m.repr - old(m.repr))
      ensures m.View() == Forwarded(old(m.View()), h)
      ensures hop == NextHopByRoute(WithoutOwnRoute(Arrived(old(m.View()), h), h.listener), keepNextHopRoute).0
    {
      hide NextHopByRoute, WithoutOwnRoute, Signed, HeaderViews.SetReceived, HeaderValue.Content, HeaderValue.Suits, KindOf, First;
      if h.receivedSupport {
        var _ := m.SetReceived(h.peerAddr, h.peerPort);
      }
      TryRemoveTopRoute(m, h.listener);
      hop := GetNextRequestHopByRoute(m);
      SignRequest(m, h);
    }

    /** handleRawMessage and the response branch of handleMessage: pop the own Via, then address the entry below. */
    method PrepareResponse(m: Message, l: Listener) returns (hop: Option<Hop>)
      requires m.Valid()
      modifies m.repr
      ensures m.Valid() && fresh(m.repr - old(m.repr))
      ensures m.View() == Returned(old(m.View()), l)
      ensures hop == ResponseHopOf(m.View())
    {
      hide KindOf, First, PopFirst, ResponseHop, HeaderValue.Content, HeaderValue.Suits, WithoutOwnRoute;
      TryRemoveTopRoute(m, l);
      var _ := m.PopVia();
      var via := m.GetVia();
      TidyMessage(m);
      if via == null {
        return None;
      }
      ViaSeen(m, via);
      hop := Some(ResponseHop(via.params[0].Value()));
    }
  }

  lemma RouteSeen(m: Message, route: Route)
    requires m.Valid() && First(m.View(), RouteKind) >= 0
    requires m.headers[First(m.View(), RouteKind)].value == AsRoute(route)
    ensures route.routeParams != [] && TopRoute(m.View()) == Some(route.routeParams[0])
  {
    hide KindOf, First;
    var i := First(m.View(), RouteKind);
    assert m.View()[i] == m.headers[i].View();
  }

  lemma ViaSeen(m: Message, via: Via)
    requires m.Valid() && First(m.View(), ViaKind) >= 0
    requires m.headers[First(m.View(), ViaKind)].value == AsVia(via)
    ensures via.params != [] && TopVia(m.View()) == Some(via.params[0].Value())
  {
    hide KindOf, First;
    var i := First(m.View(), ViaKind);
    assert m.View()[i] == m.headers[i].View();
  }
}
