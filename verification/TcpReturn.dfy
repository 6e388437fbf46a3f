/** proxy.go, TCP: the connection a request came in on is found again by its response. */
module TcpReturn {
  import opened Wrappers
  import opened Text
  import opened Vias
  import opened HeaderViews
  import opened MessagePath
  import opened Identity
  import opened TransportCache

  /** handleRawMessage strips the brackets of an address literal before it registers a connection; a lone `[`
      makes it slice out of range. */
  function WithoutBrackets(host: string): Option<string> {
    if !("[" <= host) then Some(host)
    else if |host| == 1 then None
    else Some(host[1..|host| - 1])
  }

  /** Exactly the brackets around a host go; a host that does not start with one stays. */
  lemma BracketsGo(host: string)
    ensures WithoutBrackets("[" + host + "]") == Some(host)
    ensures !("[" <= host) ==> WithoutBrackets(host) == Some(host)
  {
    assert ("[" + host + "]")[1..|host| + 1] == host;
  }

  /** What becomes of the connection of an arrived request: nothing, a panic, or an entry under a key. */
  datatype Registration = Skipped | Crashed | At(key: Key)

  function Registered(v: View): Registration {
    match ResponseHopOf(v)
    case None => Skipped
    case Some(hop) =>
      match WithoutBrackets(hop.host)
      case None => Crashed
      case Some(host) =>
        match TransactionOf(v)
        case None => Skipped
        case Some(id) => At(Key("tcp", host, hop.port, id))
  }

  /** The key sendResponse looks up. */
  function ResponseKey(v: View): Option<Key> {
    var hop :- ResponseHopOf(v);
    var id := TransactionOf(v);
    Some(KeyFor(Lower(hop.transport), hop.host, hop.port, if id.Some? then id.value else ""))
  }

  /** A request is registered under the key its response is looked up by exactly when the Via says TCP and the
      host does not start with a bracket; otherwise it is registered under another, or crashes at a lone `[`. */
  lemma KeysAgree(request: View, response: View)
    requires ResponseHopOf(request).Some? && ResponseHopOf(response) == ResponseHopOf(request)
    requires TransactionOf(request).Some? && TransactionOf(response) == TransactionOf(request)
    ensures Registered(request).At? && ResponseKey(response) == Some(Registered(request).key)
       <==> Lower(ResponseHopOf(request).value.transport) == "tcp" && !("[" <= ResponseHopOf(request).value.host)
    ensures Registered(request).Crashed? <==> ResponseHopOf(request).value.host == "["
    ensures Registered(request).At? ==> IsTransaction(Registered(request).key)
    ensures !Registered(request).Skipped?
  {
    hide ResponseHopOf, Lower;
    assert TransactionOf(request).value != "";
    assert ResponseHopOf(request).value.host == "[" ==> "[" <= "[";
  }

  /** Requests that differ in method or branch, with methods free of `-`, are registered under different keys. */
  lemma TransactionsApart(v: View, w: View)
    requires Registered(v).At? && Registered(w).At?
    requires '-' !in MethodOf(v).value && '-' !in MethodOf(w).value
    ensures MethodOf(v) != MethodOf(w) || BranchOf(v) != BranchOf(w) ==> Registered(v) != Registered(w)
    ensures Registered(v).key.transId == Registered(w).key.transId
       <==> MethodOf(v) == MethodOf(w) && BranchOf(v) == BranchOf(w)
  {
    hide ResponseHopOf, TransactionOf, MethodOf, BranchOf;
    TransactionsExactly(v, w);
  }

  /** No ACK is registered. */
  lemma AckIsSkipped(v: View)
    requires MethodOf(v) == Some("ACK")
    ensures !Registered(v).At?
  {
    hide ResponseHopOf, TransactionOf, MethodOf, BranchOf;
    HasTransaction(v);
  }

  /** A message with this one Via crashes the proxy when it comes in over TCP where `received` is not recorded. */
  function LoneBracket(): View {
    [HeaderView("Via", Meaning(ViaKind, "SIP/2.0/TCP ["))]
  }

  lemma LoneBracketCrashes()
    ensures Tidy(LoneBracket()) && ResponseHopOf(LoneBracket()) == Some(Hop("[", 5060, "TCP"))
    ensures Registered(LoneBracket()) == Crashed
  {
    hide KindOf, ParseVia, Fits;
    NameHasKind(ViaKind);
    LoneBracketParses();
    var v := LoneBracket();
    var entry := ViaEntry("SIP", "2.0", "TCP", "[", 0, []);
    assert v[0].content == ViaList([entry]);
    assert v[0].Kind() == ViaKind && First(v, ViaKind) == 0;
    BracketHop(entry);
    assert Fits(ViaKind, ViaList([entry])) by { ListFits(entry); }
  }

  lemma ListFits(entry: ViaEntry)
    ensures Fits(ViaKind, ViaList([entry]))
  {
  }

  lemma BracketHop(entry: ViaEntry)
    requires entry.params == [] && entry.port == 0 && entry.transport == "TCP"
    ensures ResponseHop(entry) == Hop(entry.host, 5060, "TCP")
  {
  }

  lemma LoneBracketParses()
    ensures ParseVia("SIP/2.0/TCP [") == Some([ViaEntry("SIP", "2.0", "TCP", "[", 0, [])])
  {
    hide Split, Fields;
    var s := "SIP/2.0/TCP" + " " + "[";
    SplitFirst(s, ',', "");
    SplitFirst(s, ';', "");
    var ts := ["SIP/2.0/TCP", "["];
    assert ts[1..] == ["["] && Join(["["], ' ') == "[";
    assert Join(ts, ' ') == s;
    FieldsJoin(ts);
    var parts := ["SIP", "2.0", "TCP"];
    assert parts[1..] == ["2.0", "TCP"] && ["2.0", "TCP"][1..] == ["TCP"];
    assert Join(["TCP"], '/') == "TCP" && Join(["2.0", "TCP"], '/') == "2.0/TCP";
    assert Join(parts, '/') == "SIP/2.0/TCP";
    SplitJoin(parts, '/');
    SplitFirst("[", ':', "");
    assert s == "SIP/2.0/TCP [";
    var v := ViaEntry("SIP", "2.0", "TCP", "[", 0, []);
    assert ParsePairs([s][1..]) == [];
    assert ParseViaParam(s) == Some(v);
    assert [s][1..] == [] && [v] + [] == [v];
  }

  /** End to end: proxy `i` of a chain registers the connection of a TCP request; the response that comes back
      through the chain leaves on that connection, whatever other traffic the cache has seen in between, if and
      only if nobody was accepted at its address while it shared its object. */
  lemma ResponseReturnsOnItsConnection(
      hops: seq<ProxyHop>, requests: seq<View>, responses: seq<View>, i: nat,
      s: State, before: seq<Event>, conn: nat, at: int, between: seq<Event>, now: int)
    requires RequestRun(hops, requests) && ResponseRun(hops, requests, responses) && i < |hops|
    requires FirstContent(responses[i], CSeqKind) == FirstContent(requests[i], CSeqKind)
    requires Registered(Arrived(requests[i], hops[i])).At? && WellFormedKey(Registered(Arrived(requests[i], hops[i])).key)
    requires var hop := ResponseHopOf(Arrived(requests[i], hops[i]));
      hop.Some? && Lower(hop.value.transport) == "tcp" && !("[" <= hop.value.host)
    requires Consistent(s) && (forall e :: e in before + between ==> Possible(e))
    requires forall e :: e in between ==>
      Waiting(e, Registered(Arrived(requests[i], hops[i])).key, conn, at + LIFE)
    requires now <= at + LIFE
    ensures var key := Registered(Arrived(requests[i], hops[i])).key;
      ResponseKey(responses[i]) == Some(key)
      && (LeadsTo(Get(Run(s, before + [TcpRequest(key, conn, at)] + between), key, now), key, conn, at + LIFE)
          <==> Untouched(between, key, key in Run(s, before + [TcpRequest(key, conn, at)]).shared))
  {
    hide ResponseHopOf, TransactionOf, Arrived, Lower, Get, Run, Consistent, LeadsTo, Waiting, Untouched, FirstContent, Possible,
         Filled, Flat, Tidy, Registered, ResponseKey, WellFormedKey;
    var key := Registered(Arrived(requests[i], hops[i])).key;
    OneKey(hops, requests, responses, i);
    RegisteredIsTransaction(Arrived(requests[i], hops[i]));
    TransactionIsPossible(key, conn, at);
    ResponseFindsItsConnection(s, before, TcpRequest(key, conn, at), between, now);
  }

  lemma RegisteredIsTransaction(v: View)
    requires Registered(v).At?
    ensures IsTransaction(Registered(v).key)
  {
    hide ResponseHopOf, FirstContent;
  }

  /** The response is looked up under the key its request was registered under. */
  lemma OneKey(hops: seq<ProxyHop>, requests: seq<View>, responses: seq<View>, i: nat)
    requires RequestRun(hops, requests) && ResponseRun(hops, requests, responses) && i < |hops|
    requires FirstContent(responses[i], CSeqKind) == FirstContent(requests[i], CSeqKind)
    requires Registered(Arrived(requests[i], hops[i])).At?
    requires var hop := ResponseHopOf(Arrived(requests[i], hops[i]));
      hop.Some? && Lower(hop.value.transport) == "tcp" && !("[" <= hop.value.host)
    ensures ResponseKey(responses[i]) == Some(Registered(Arrived(requests[i], hops[i])).key)
  {
    hide ResponseHopOf, TransactionOf, Arrived, Lower, FirstContent, Filled, Flat, Tidy;
    var v := Arrived(requests[i], hops[i]);
    HopsAgree(hops, requests, responses, i);
    ResponseTransaction(hops, requests, responses, i);
    KeysAgree(v, responses[i]);
  }

  lemma TransactionIsPossible(key: Key, conn: nat, at: int)
    requires IsTransaction(key) && WellFormedKey(key)
    ensures Possible(TcpRequest(key, conn, at))
  {
  }

  lemma HopsAgree(hops: seq<ProxyHop>, requests: seq<View>, responses: seq<View>, i: nat)
    requires RequestRun(hops, requests) && ResponseRun(hops, requests, responses) && i < |hops|
    ensures ResponseHopOf(responses[i]) == ResponseHopOf(Arrived(requests[i], hops[i]))
  {
    hide ResponseHopOf, Arrived, OriginHop, ResponseRun;
    ReversePath(hops, requests, responses, i);
    ArrivedHop(requests[i], hops[i]);
  }
}
