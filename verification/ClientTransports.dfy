/** transport.go, the client transport cache as a value: which connection each entry leads to, and which entries
    are one object. */
module TransportCache {
  import opened Wrappers
  import opened Text

  /** What the text of a cache key is made of; only TCP keys carry a transaction. */
  datatype Key = Key(protocol: string, host: string, port: int, transId: string)

  const LIFE := 3600

  /** getFullAddr. */
  function FullAddr(k: Key): string {
    k.protocol + "://" + (JoinHostPort(k.host, Itoa(k.port)) + (if k.transId == "" then "" else "-" + k.transId))
  }

  predicate Supported(protocol: string) {
    protocol == "udp" || protocol == "tcp"
  }

  predicate WellFormedKey(k: Key) {
    Usable(k) && PlainHost(k.host)
  }

  predicate PlainHost(host: string) {
    '[' !in host && ']' !in host
  }

  function KeyFor(protocol: string, host: string, port: int, transId: string): Key {
    Key(protocol, host, port, if protocol == "tcp" then transId else "")
  }

  /** The digits of a printed number end where the transaction begins. */
  lemma NumberEnds(n: int, t: string, m: int, u: string)
    requires t == "" || t[0] == '-'
    requires u == "" || u[0] == '-'
    requires Itoa(n) + t == Itoa(m) + u
    ensures n == m && t == u
  {
    var s := Itoa(n) + t;
    var a, b := NumberLength(n), NumberLength(m);
    DigitsEnd(n, t);
    DigitsEnd(m, u);
    assert |Itoa(n)| == |Itoa(m)|;
    assert Itoa(n) == s[..|Itoa(n)|] && Itoa(m) == s[..|Itoa(m)|];
    assert t == s[|Itoa(n)|..] && u == s[|Itoa(m)|..];
    ItoaInjective(n, m);
  }

  function NumberLength(n: int): nat {
    |Itoa(n)|
  }

  /** Length of the sign and digits at the front of a text. */
  function DigitRun(s: string): nat {
    if s != "" && IsDigit(s[0]) then 1 + DigitRun(s[1..]) else 0
  }

  function SignedRun(s: string): nat {
    if s != "" && s[0] == '-' then 1 + DigitRun(s[1..]) else DigitRun(s)
  }

  lemma {:induction false} RunOfDigits(d: string, t: string)
    requires AllDigits(d) && (t == "" || !IsDigit(t[0]))
    ensures DigitRun(d + t) == |d|
  {
    if d == "" {
      assert d + t == t;
    } else {
      RunOfDigits(d[1..], t);
      assert (d + t)[0] == d[0] && (d + t)[1..] == d[1..] + t;
    }
  }

  lemma DigitsEnd(n: int, t: string)
    requires t == "" || t[0] == '-'
    ensures SignedRun(Itoa(n) + t) == |Itoa(n)|
  {
    hide ItoaNat;
    if n < 0 {
      RunOfDigits(ItoaNat(-n), t);
      assert (Itoa(n) + t)[1..] == ItoaNat(-n) + t;
    } else {
      RunOfDigits(ItoaNat(n), t);
      assert IsDigit(ItoaNat(n)[0]);
    }
  }

  lemma ItoaInjective(n: int, m: int)
    requires Itoa(n) == Itoa(m)
    ensures n == m
  {
    hide ItoaNat;
    if n < 0 {
      assert Itoa(n)[1..] == ItoaNat(-n);
    } else {
      assert IsDigit(ItoaNat(n)[0]);
    }
    if m < 0 {
      assert Itoa(m)[1..] == ItoaNat(-m);
    } else {
      assert IsDigit(ItoaNat(m)[0]);
    }
  }

  /** The host as `net.JoinHostPort` writes it. */
  function HostText(host: string): string {
    if ':' in host then "[" + host + "]" else host
  }

  lemma HostEnds(h: string, x: string, g: string, y: string)
    requires '[' !in h && ']' !in h && '[' !in g && ']' !in g
    requires HostText(h) + [':'] + x == HostText(g) + [':'] + y
    ensures h == g && x == y
  {
    if ':' in h && ':' in g {
      BracketedEnds(h, x, g, y);
    } else if ':' !in h && ':' !in g {
      hide IndexByte;
      IndexAt(h, ':', x);
      IndexAt(g, ':', y);
    } else if ':' in h {
      NoBracketFirst(h, g, x, y);
    } else {
      NoBracketFirst(g, h, y, x);
    }
  }

  lemma BracketedEnds(h: string, x: string, g: string, y: string)
    requires ']' !in h && ']' !in g && "[" + h + "]" + [':'] + x == "[" + g + "]" + [':'] + y
    ensures h == g && x == y
  {
    hide IndexByte;
    assert ("[" + h) + [']'] + ([':'] + x) == "[" + h + "]" + [':'] + x;
    assert ("[" + g) + [']'] + ([':'] + y) == "[" + g + "]" + [':'] + y;
    IndexAt("[" + h, ']', [':'] + x);
    IndexAt("[" + g, ']', [':'] + y);
    assert h == ("[" + h)[1..] && g == ("[" + g)[1..];
    assert x == ([':'] + x)[1..] && y == ([':'] + y)[1..];
  }

  /** A bracketed host never starts like a plain one. */
  lemma NoBracketFirst(h: string, g: string, x: string, y: string)
    requires ':' in h && ':' !in g && '[' !in g
    ensures HostText(h) + [':'] + x != HostText(g) + [':'] + y
  {
    assert (HostText(h) + [':'] + x)[0] == '[';
    assert g != "" ==> (HostText(g) + [':'] + y)[0] == g[0] && g[0] in g;
  }

  function Suffix(k: Key): string {
    if k.transId == "" then "" else "-" + k.transId
  }

  lemma FullAddrParts(k: Key)
    requires WellFormedKey(k)
    ensures FullAddr(k) == k.protocol + "://" + (HostText(k.host) + [':'] + (Itoa(k.port) + Suffix(k)))
  {
    hide Itoa;
    assert HostText(k.host) + ":" + Itoa(k.port) + Suffix(k) == HostText(k.host) + [':'] + (Itoa(k.port) + Suffix(k));
    assert "[" + k.host + "]:" + Itoa(k.port) == ("[" + k.host + "]") + ":" + Itoa(k.port);
  }

  lemma SchemeEnds(p: string, x: string, q: string, y: string)
    requires |p| == |q| && p + "://" + x == q + "://" + y
    ensures p == q && x == y
  {
    var s := p + "://" + x;
    assert p == s[..|p|] && q == s[..|q|];
    assert x == s[|p| + 3..] && y == s[|q| + 3..];
  }

  /** Different keys have different texts, so the string-keyed map of the source is a map over keys. */
  lemma FullAddrInjective(k: Key, l: Key)
    requires WellFormedKey(k) && WellFormedKey(l) && FullAddr(k) == FullAddr(l)
    ensures k == l
  {
    hide Itoa, FullAddr, HostText;
    FullAddrParts(k);
    FullAddrParts(l);
    var x, y := Itoa(k.port) + Suffix(k), Itoa(l.port) + Suffix(l);
    SchemeEnds(k.protocol, HostText(k.host) + [':'] + x, l.protocol, HostText(l.host) + [':'] + y);
    HostEnds(k.host, x, l.host, y);
    NumberEnds(k.port, Suffix(k), l.port, Suffix(l));
    assert k.transId != "" ==> Suffix(k)[1..] == k.transId;
    assert l.transId != "" ==> Suffix(l)[1..] == l.transId;
  }

  /** With a bracket in a host two keys can share one text. */
  lemma BracketsCollide(host: string, port: int, branch: string, other: int)
    requires ':' in host && branch != ""
    ensures var k := Key("tcp", host + "]:" + Itoa(port) + "-" + branch, other, "");
      var l := Key("tcp", host, port, branch + "]:" + Itoa(other));
      Usable(k) && Usable(l) && k != l && FullAddr(k) == FullAddr(l)
  {
    hide Itoa;
    var long := host + "]:" + Itoa(port) + "-" + branch;
    assert ':' in long;
    assert "[" + long + "]:" + Itoa(other)
        == "[" + host + "]:" + Itoa(port) + ("-" + (branch + "]:" + Itoa(other)));
  }

  /** A primary transport: a UDP client, or one accepted or incoming TCP connection. */
  datatype Client = Udp | Conn(conn: nat, expire: int)

  /** `slots` holds the primary behind each key; `shared` the transaction keys whose object is also the base
      entry of their address. */
  datatype State = State(slots: map<Key, Option<Client>>, shared: set<Key>, lastClean: int)

  function BaseOf(k: Key): Key {
    k.(transId := "")
  }

  predicate IsTransaction(k: Key) {
    k.protocol == "tcp" && k.transId != ""
  }

  /** No two transactions share an object; a shared one agrees with its base entry. */
  predicate Consistent(s: State) {
    && (forall k :: k in s.shared ==>
          k in s.slots && IsTransaction(k) && BaseOf(k) in s.slots && s.slots[k] == s.slots[BaseOf(k)])
    && (forall k, l :: k in s.shared && l in s.shared && BaseOf(k) == BaseOf(l) ==> k == l)
  }

  predicate Expired(c: Option<Client>, now: int) {
    c.Some? && c.value.Conn? && c.value.expire > 0 && now > c.value.expire
  }

  /** cleanExpiredTransport, at most once a minute. */
  function Clean(s: State, now: int): State {
    if now - s.lastClean < 60 then s
    else State((map k | k in s.slots && !Expired(s.slots[k], now) :: s.slots[k]),
               (set k | k in s.shared && k in s.slots && !Expired(s.slots[k], now)), now)
  }

  /** GetTransport for a supported protocol: a new TCP transaction gets an object of its own, unless its address
      has no base entry yet; then one object becomes both. */
  function Get(s: State, k: Key, now: int): State {
    var c := Clean(s, now);
    if k in c.slots then c else Entered(c, k)
  }

  function Entered(c: State, k: Key): State {
    if k.protocol == "udp" then c.(slots := c.slots[k := Some(Udp)])
    else if k.transId == "" || BaseOf(k) in c.slots then c.(slots := c.slots[k := None])
    else c.(slots := c.slots[BaseOf(k) := None][k := None], shared := c.shared + {k})
  }

  predicate SameObject(s: State, k: Key, l: Key) {
    l == k || (l in s.shared && BaseOf(l) == k) || (k in s.shared && BaseOf(k) == l)
  }

  /** `trans.primary = …` on the object behind a key. */
  function SetPrimary(s: State, k: Key, c: Client): State
    requires k in s.slots
  {
    s.(slots := (map l | l in s.slots :: if SameObject(s, k, l) then Some(c) else s.slots[l]))
  }

  /** RemoveTransport. */
  function RemoveKey(s: State, k: Key): State {
    s.(slots := s.slots - {k}, shared := (set l | l in s.shared && l != k && BaseOf(l) != k))
  }

  datatype Event =
    | TcpRequest(key: Key, conn: nat, now: int)      // handleRawMessage
    | Accepted(host: string, port: int, conn: nat, now: int)  // connAcceptedChannel
    | Looked(key: Key, now: int)                     // a request, or a response that is not final
    | Final(key: Key, now: int)                      // a final response
    | Refused(now: int)                              // no transport could be had

  function Step(s: State, e: Event): State {
    match e
    case TcpRequest(k, conn, now) => SetPrimary(Get(s, k, now), k, Conn(conn, now + LIFE))
    case Accepted(host, port, conn, now) =>
      SetPrimary(Get(s, Key("tcp", host, port, ""), now), Key("tcp", host, port, ""), Conn(conn, now + LIFE))
    case Looked(k, now) => Get(s, k, now)
    case Final(k, now) => RemoveKey(Get(s, k, now), k)
    case Refused(now) => Clean(s, now)
  }

  /** A transport for the key can be had: it is there, one can be created, or, over TCP, the address is known. */
  predicate Obtainable(s: State, k: Key, creatable: bool, now: int) {
    var c := Clean(s, now);
    k in c.slots || creatable || (k.protocol == "tcp" && BaseOf(k) in c.slots)
  }

  /** Hosts without brackets, for which the keys of the source's map are as different as their parts. */
  predicate Possible(e: Event) {
    match e
    case TcpRequest(k, _, _) => WellFormedKey(k) && IsTransaction(k)
    case Accepted(host, _, _, _) => PlainHost(host)
    case Looked(k, _) => WellFormedKey(k)
    case Final(k, _) => WellFormedKey(k)
    case Refused(_) => true
  }

  predicate Usable(k: Key) {
    Supported(k.protocol) && (k.transId != "" ==> k.protocol == "tcp")
  }

  lemma GetConsistent(s: State, k: Key, now: int)
    requires Consistent(s) && Usable(k)
    ensures Consistent(Get(s, k, now)) && k in Get(s, k, now).slots
  {
    assert Consistent(Clean(s, now));
  }

  lemma CleanConsistent(s: State, now: int)
    requires Consistent(s)
    ensures Consistent(Clean(s, now))
  {
  }

  lemma SetConsistent(s: State, k: Key, c: Client)
    requires Consistent(s) && k in s.slots
    ensures Consistent(SetPrimary(s, k, c))
  {
  }

  /** Whatever happens, no two transactions ever share an object. */
  lemma StepConsistent(s: State, e: Event)
    requires Consistent(s) && Possible(e)
    ensures Consistent(Step(s, e))
  {
    hide Get, SetPrimary, Consistent, Clean;
    match e {
      case TcpRequest(k, conn, now) =>
        GetConsistent(s, k, now);
        SetConsistent(Get(s, k, now), k, Conn(conn, now + LIFE));
      case Accepted(host, port, conn, now) =>
        GetConsistent(s, Key("tcp", host, port, ""), now);
        SetConsistent(Get(s, Key("tcp", host, port, ""), now), Key("tcp", host, port, ""), Conn(conn, now + LIFE));
      case Looked(k, now) => GetConsistent(s, k, now);
      case Final(k, now) =>
        GetConsistent(s, k, now);
        RemoveConsistent(Get(s, k, now), k);
      case Refused(now) => CleanConsistent(s, now);
    }
  }

  lemma RemoveConsistent(s: State, k: Key)
    requires Consistent(s)
    ensures Consistent(RemoveKey(s, k))
  {
  }

  predicate LeadsTo(s: State, k: Key, conn: nat, expire: int) {
    k in s.slots && s.slots[k] == Some(Conn(conn, expire))
  }

  /** While a transaction waits for its response: no new request and no final response for it, its connection has
      not expired, and a connection that is accepted is another one. */
  predicate Waiting(e: Event, k: Key, conn: nat, expire: int) {
    e.now <= expire
    && match e
       case TcpRequest(l, _, _) => l != k
       case Accepted(_, _, other, _) => other != conn
       case Looked(_, _) => true
       case Final(l, _) => l != k
       case Refused(_) => true
  }

  /** A connection accepted from the very address the transaction answers to. */
  predicate AcceptedThere(e: Event, k: Key) {
    e.Accepted? && Key("tcp", e.host, e.port, "") == BaseOf(k)
  }

  /** The base entry of the address is removed, and with it the sharing. */
  predicate Unshares(e: Event, k: Key) {
    e.Final? && e.key == BaseOf(k)
  }

  lemma GetKeeps(s: State, k: Key, l: Key, now: int, conn: nat, expire: int)
    requires Consistent(s) && now <= expire && IsTransaction(k)
    ensures LeadsTo(Get(s, l, now), k, conn, expire) <==> LeadsTo(s, k, conn, expire)
    ensures LeadsTo(s, k, conn, expire) ==> (k in Get(s, l, now).shared <==> k in s.shared)
  {
  }

  /** One event: only a connection accepted at the address of a shared entry takes a transaction over, and what
      is taken over stays so. */
  lemma StepLeads(s: State, e: Event, k: Key, conn: nat, expire: int)
    requires Consistent(s) && Possible(e) && IsTransaction(k) && Waiting(e, k, conn, expire)
    ensures LeadsTo(Step(s, e), k, conn, expire)
       <==> LeadsTo(s, k, conn, expire) && !(AcceptedThere(e, k) && k in s.shared)
    ensures LeadsTo(Step(s, e), k, conn, expire) ==> (k in Step(s, e).shared <==> k in s.shared && !Unshares(e, k))
  {
    if !e.Refused? {
      hide Get;
      var l := match e
        case TcpRequest(l, _, _) => l
        case Accepted(h, p, _, _) => Key("tcp", h, p, "")
        case Looked(l, _) => l
        case Final(l, _) => l;
      GetKeeps(s, k, l, e.now, conn, expire);
      GetConsistent(s, l, e.now);
    }
  }

  function Run(s: State, events: seq<Event>): State {
    if events == [] then s else Step(Run(s, events[..|events| - 1]), events[|events| - 1])
  }

  lemma {:induction false} RunConsistent(s: State, events: seq<Event>)
    requires Consistent(s) && forall e :: e in events ==> Possible(e)
    ensures Consistent(Run(s, events))
  {
    hide Step, Consistent;
    if events != [] {
      assert events[|events| - 1] in events;
      RunConsistent(s, events[..|events| - 1]);
      StepConsistent(Run(s, events[..|events| - 1]), events[|events| - 1]);
    }
  }

  lemma RequestRegisters(s: State, e: Event)
    requires Consistent(s) && e.TcpRequest? && Possible(e)
    ensures LeadsTo(Step(s, e), e.key, e.conn, e.now + LIFE)
  {
    hide Get;
    GetConsistent(s, e.key, e.now);
  }

  lemma RunStep(s: State, events: seq<Event>, e: Event)
    ensures Run(s, events + [e]) == Step(Run(s, events), e)
  {
    hide Step;
    assert (events + [e])[..|events|] == events;
  }

  lemma {:induction false} RunConcat(s: State, before: seq<Event>, after: seq<Event>)
    ensures Run(s, before + after) == Run(Run(s, before), after)
    decreases |after|
  {
    hide Step;
    if after == [] {
      assert before + after == before;
    } else {
      var n := |after| - 1;
      RunConcat(s, before, after[..n]);
      assert (before + after)[..|before + after| - 1] == before + after[..n];
    }
  }

  /** The transaction's object is untouched: no connection was accepted at its address, except where it did not
      share its object with the base entry, or no longer did. */
  predicate Untouched(events: seq<Event>, k: Key, shared: bool) {
    forall i :: 0 <= i < |events| && AcceptedThere(events[i], k) ==>
      !shared || exists j :: 0 <= j < i && Unshares(events[j], k)
  }

  predicate StillShared(events: seq<Event>, k: Key, shared: bool) {
    shared && forall e :: e in events ==> !Unshares(e, k)
  }

  lemma UntouchedStep(events: seq<Event>, e: Event, k: Key, shared: bool)
    ensures Untouched(events + [e], k, shared)
       <==> Untouched(events, k, shared) && !(AcceptedThere(e, k) && StillShared(events, k, shared))
    ensures StillShared(events + [e], k, shared) <==> StillShared(events, k, shared) && !Unshares(e, k)
  {
    hide AcceptedThere, Unshares;
    var all, n := events + [e], |events|;
    assert forall i :: 0 <= i < n ==> all[i] == events[i];
    assert all[n] == e;
    if shared && exists j :: 0 <= j < n && Unshares(all[j], k) {
      var j :| 0 <= j < n && Unshares(all[j], k);
      assert events[j] in events;
    }
    assert forall f :: f in all <==> f in events || f == e;
  }

  /** Over any run, a transaction still leads to its connection if and only if it is untouched, and as long as it
      does it shares its object if and only if it did at first and the base entry has not been removed since. */
  lemma {:induction false} LeadsExactly(s: State, k: Key, conn: nat, expire: int, events: seq<Event>)
    requires Consistent(s) && IsTransaction(k) && LeadsTo(s, k, conn, expire)
    requires forall e :: e in events ==> Possible(e) && Waiting(e, k, conn, expire)
    ensures Consistent(Run(s, events))
    ensures LeadsTo(Run(s, events), k, conn, expire) <==> Untouched(events, k, k in s.shared)
    ensures LeadsTo(Run(s, events), k, conn, expire) ==>
      (k in Run(s, events).shared <==> StillShared(events, k, k in s.shared))
    decreases |events|
  {
    hide Step, Consistent, LeadsTo, Possible, Waiting, AcceptedThere, Unshares, Untouched, StillShared;
    if events == [] {
      NothingHappened(k, k in s.shared);
    } else {
      var n := |events| - 1;
      var front, e := events[..n], events[n];
      assert events == front + [e] && e in events && forall f :: f in front ==> f in events;
      LeadsExactly(s, k, conn, expire, front);
      StepLeads(Run(s, front), e, k, conn, expire);
      StepConsistent(Run(s, front), e);
      UntouchedStep(front, e, k, k in s.shared);
    }
  }

  lemma NothingHappened(k: Key, shared: bool)
    ensures Untouched([], k, shared) && (StillShared([], k, shared) <==> shared)
  {
  }

  /** The request is the first at its address, or repeats one that was. */
  predicate FirstThere(s: State, request: Event)
    requires request.TcpRequest?
  {
    var c := Clean(s, request.now);
    if request.key in c.slots then request.key in s.shared else BaseOf(request.key) !in c.slots
  }

  /** Exactly such a request makes its transaction share its object with the base entry. */
  lemma SharedWhenFirst(s: State, k: Key, conn: nat, now: int)
    requires Consistent(s) && IsTransaction(k)
    ensures k in Step(s, TcpRequest(k, conn, now)).shared <==> FirstThere(s, TcpRequest(k, conn, now))
  {
  }

  /** The connection a TCP request came in on is the one its responses find, through any run of other traffic up
      to a final response or expiry, if and only if nobody was accepted at its address while it shared its object. */
  lemma ResponseFindsItsConnection(s: State, before: seq<Event>, request: Event, between: seq<Event>, now: int)
    requires Consistent(s) && request.TcpRequest? && Possible(request)
    requires forall e :: e in before + between ==> Possible(e)
    requires forall e :: e in between ==> Waiting(e, request.key, request.conn, request.now + LIFE)
    requires now <= request.now + LIFE
    ensures LeadsTo(Get(Run(s, before + [request] + between), request.key, now), request.key, request.conn, request.now + LIFE)
       <==> Untouched(between, request.key, request.key in Run(s, before + [request]).shared)
    ensures request.key in Run(s, before + [request]).shared <==> FirstThere(Run(s, before), request)
  {
    SharedWhenFirst(Run(s, before), request.key, request.conn, request.now) by {
      assert forall e :: e in before ==> e in before + between;
      RunConsistent(s, before);
      RequestIsTransaction(request);
    }
    hide Get, FirstThere, Step, Run, Consistent, LeadsTo, Possible, Waiting, Untouched;
    assert forall e :: e in before ==> e in before + between;
    assert forall e :: e in between ==> e in before + between;
    RunConsistent(s, before);
    RunStep(s, before, request);
    RunConcat(s, before + [request], between);
    RequestRegisters(Run(s, before), request);
    StepConsistent(Run(s, before), request);
    var registered := Run(s, before + [request]);
    RequestIsTransaction(request);
    LeadsExactly(registered, request.key, request.conn, request.now + LIFE, between);
    GetKeeps(Run(registered, between), request.key, request.key, now, request.conn, request.now + LIFE);
  }

  lemma RequestIsTransaction(request: Event)
    requires request.TcpRequest? && Possible(request)
    ensures IsTransaction(request.key)
  {
  }

  /** A connection is found for an hour, and is gone afterwards once a minute has passed since the last clean-up. */
  lemma LastsAnHour(s: State, k: Key, conn: nat, at: int, now: int)
    requires Consistent(s) && WellFormedKey(k) && IsTransaction(k)
    ensures var t := Step(s, TcpRequest(k, conn, at));
      && (now <= at + 3600 ==> LeadsTo(Get(t, k, now), k, conn, at + 3600))
      && (now > at + 3600 && at + 3600 > 0 && now - t.lastClean >= 60 ==>
            k in Get(t, k, now).slots && Get(t, k, now).slots[k] == None)
  {
    GetConsistent(s, k, at);
    RequestRegisters(s, TcpRequest(k, conn, at));
  }

  /** After a final response the transaction's key leads to its connection no longer. */
  lemma FinalForgets(s: State, k: Key, conn: nat, expire: int, now: int, later: int)
    requires Consistent(s) && WellFormedKey(k) && IsTransaction(k)
    ensures k !in Step(s, Final(k, now)).slots
    ensures !LeadsTo(Get(Step(s, Final(k, now)), k, later), k, conn, expire)
    ensures forall l :: l != k && l in Get(s, k, now).slots ==>
      l in Step(s, Final(k, now)).slots && Step(s, Final(k, now)).slots[l] == Get(s, k, now).slots[l]
  {
  }

  /** The two protocols of the cache, in any case; over UDP a key carries no transaction. */
  lemma ProtocolsOfKeys(protocol: string, host: string, port: int, id: string)
    ensures Supported(protocol) <==> protocol in ["udp", "tcp"]
    ensures KeyFor("udp", host, port, id) == KeyFor("udp", host, port, "")
    ensures KeyFor("tcp", host, port, id).transId == id && !Supported("tls")
  {
  }

  /** From an empty cache, a first request and then any other connection accepted at its address: the response no
      longer finds the connection its request came in on, but that one. */
  lemma ConnectionIsTaken(k: Key, conn: nat, at: int, other: nat, later: int, now: int)
    requires WellFormedKey(k) && IsTransaction(k) && other != conn && at <= later <= now <= at + LIFE
    ensures var s := Run(State(map[], {}, at), [TcpRequest(k, conn, at), Accepted(k.host, k.port, other, later)]);
      && !LeadsTo(Get(s, k, now), k, conn, at + LIFE)
      && LeadsTo(Get(s, k, now), k, other, later + LIFE)
  {
    var empty := State(map[], {}, at);
    var first, second := TcpRequest(k, conn, at), Accepted(k.host, k.port, other, later);
    assert [first, second][..1] == [first] && [first][..0] == [];
    var s1 := Step(empty, first);
    assert Run(empty, [first]) == s1;
    assert k in s1.shared && LeadsTo(s1, k, conn, at + LIFE);
    var s2 := Step(s1, second);
    assert Run(empty, [first, second]) == s2;
    assert LeadsTo(s2, k, other, later + LIFE);
  }
}

/** transport.go, ClientTransportMgr: the cache with its shared fail-over objects. */
module ClientTransports {
  import opened Wrappers
  import opened Text
  import opened TransportCache

  /** Only the primary counts: the constructor drops the secondaries it is given. */
  class FailOverClientTransport {
    var primary: Option<Client>

    constructor (primary: Option<Client>)
      ensures this.primary == primary
    {
      this.primary := primary;
    }

    /** `delivers` says whether the primary can deliver at this moment. */
    method Send(delivers: bool) returns (ok: bool)
      ensures ok <==> primary.Some? && delivers
    {
      ok := false;
      if primary.Some? {
        ok := delivers;
      }
    }
  }

  type Cache = map<Key, FailOverClientTransport>

  /** Entries are one object only for a transaction and the base entry of its address. */
  ghost predicate ValidMap(m: Cache) {
    && (forall k :: k in m ==> Usable(k))
    && (forall k, l :: k in m && l in m && k != l && m[k] == m[l] ==>
          BaseOf(k) == BaseOf(l) && (k == BaseOf(k) || l == BaseOf(l)))
  }

  ghost predicate SharesBase(m: Cache, k: Key) {
    k in m && k.transId != "" && BaseOf(k) in m && m[k] == m[BaseOf(k)]
  }

  ghost function ViewOf(m: Cache, lastClean: int): State
    reads m.Values
  {
    State((map k | k in m :: m[k].primary), (set k | k in m && SharesBase(m, k)), lastClean)
  }

  /** The map after a miss: the new object under the key, and as the base entry where that was missing. */
  ghost function EnteredMap(m: Cache, k: Key, t: FailOverClientTransport): Cache {
    if k.protocol == "tcp" && BaseOf(k) !in m then m[BaseOf(k) := t][k := t] else m[k := t]
  }

  lemma EnteredShared(m: Cache, k: Key, t: FailOverClientTransport, clean: int)
    requires ValidMap(m) && Usable(k) && k !in m && t !in m.Values
    ensures ValidMap(EnteredMap(m, k, t))
    ensures ViewOf(EnteredMap(m, k, t), clean).shared == Entered(ViewOf(m, clean), k).shared
  {
    var w := EnteredMap(m, k, t);
    assert forall l :: l in m ==> w[l] == m[l] && m[l] in m.Values;
    forall l | l != k
      ensures SharesBase(w, l) == SharesBase(m, l)
    {
      if l in w && BaseOf(l) in w && l.transId != "" && w[l] == w[BaseOf(l)] && l in m {
        assert w[BaseOf(l)] != t;
      }
    }
  }

  lemma EnteredView(m: Cache, k: Key, t: FailOverClientTransport, clean: int)
    requires ValidMap(m) && Usable(k) && k !in m && t !in m.Values
    requires t.primary == if k.protocol == "udp" then Some(Udp) else None
    ensures ViewOf(EnteredMap(m, k, t), clean) == Entered(ViewOf(m, clean), k)
  {
    EnteredShared(m, k, t, clean);
    assert ViewOf(EnteredMap(m, k, t), clean).slots == Entered(ViewOf(m, clean), k).slots;
  }

  type Texts = map<string, FailOverClientTransport>

  /** The source's map holds the entries under their texts. */
  ghost predicate SameEntries(texts: Texts, m: Cache) {
    && (forall k :: k in m ==> WellFormedKey(k) && FullAddr(k) in texts && texts[FullAddr(k)] == m[k])
    && (forall x :: x in texts ==> exists k :: k in m && FullAddr(k) == x)
  }

  lemma SameLookup(texts: Texts, m: Cache, k: Key)
    requires SameEntries(texts, m) && WellFormedKey(k)
    ensures FullAddr(k) in texts <==> k in m
    ensures k in m ==> texts[FullAddr(k)] == m[k]
  {
    hide FullAddr, WellFormedKey;
    if FullAddr(k) in texts {
      var l :| l in m && FullAddr(l) == FullAddr(k);
      FullAddrInjective(k, l);
    }
  }

  lemma SameAdd(texts: Texts, m: Cache, k: Key, t: FailOverClientTransport)
    requires SameEntries(texts, m) && WellFormedKey(k)
    ensures SameEntries(texts[FullAddr(k) := t], m[k := t])
  {
    hide FullAddr, WellFormedKey;
    var more := m[k := t];
    forall l | l in more
      ensures WellFormedKey(l) && texts[FullAddr(k) := t][FullAddr(l)] == more[l]
    {
      if l != k && FullAddr(l) == FullAddr(k) {
        FullAddrInjective(k, l);
      }
    }
    var moreTexts := texts[FullAddr(k) := t];
    forall x | x in moreTexts
      ensures exists l :: l in more && FullAddr(l) == x
    {
      if x == FullAddr(k) {
        assert k in more;
      } else {
        var l :| l in m && FullAddr(l) == x;
        assert l in more;
      }
    }
  }

  /** The entries whose texts are left. */
  ghost function LeftEntries(texts: Texts, m: Cache): Cache {
    map k | k in m && FullAddr(k) in texts :: m[k]
  }

  lemma SameLeft(texts: Texts, m: Cache, left: Texts)
    requires SameEntries(texts, m) && forall x :: x in left ==> x in texts && left[x] == texts[x]
    ensures SameEntries(left, LeftEntries(left, m))
  {
    hide FullAddr, WellFormedKey;
    forall x | x in left
      ensures exists k :: k in LeftEntries(left, m) && FullAddr(k) == x
    {
      var k :| k in m && FullAddr(k) == x;
      assert k in LeftEntries(left, m);
    }
  }

  lemma LeftIsWithout(texts: Texts, m: Cache, k: Key)
    requires SameEntries(texts, m) && WellFormedKey(k)
    ensures LeftEntries(texts - {FullAddr(k)}, m) == m - {k}
  {
    hide FullAddr, WellFormedKey;
    forall l | l in m
      ensures FullAddr(l) in texts - {FullAddr(k)} <==> l != k
    {
      if FullAddr(l) == FullAddr(k) {
        FullAddrInjective(k, l);
      }
    }
  }

  /** The source's map after the clean-up. */
  ghost function CleanedTexts(texts: Texts, lastClean: int, now: int): Texts
    reads texts.Values
  {
    if now - lastClean < 60 then texts else map x | x in texts && !Expired(texts[x].primary, now) :: texts[x]
  }

  /** The source's map after a miss. */
  ghost function EnteredTexts(texts: Texts, k: Key, t: FailOverClientTransport): Texts {
    if k.protocol == "tcp" && FullAddr(BaseOf(k)) !in texts then texts[FullAddr(BaseOf(k)) := t][FullAddr(k) := t]
    else texts[FullAddr(k) := t]
  }

  predicate TransportAtHand(texts: Texts, k: Key, creatable: bool) {
    FullAddr(k) in texts || creatable || (k.protocol == "tcp" && FullAddr(BaseOf(k)) in texts)
  }

  lemma SameEntered(texts: Texts, m: Cache, k: Key, t: FailOverClientTransport)
    requires SameEntries(texts, m) && WellFormedKey(k)
    ensures SameEntries(EnteredTexts(texts, k, t), EnteredMap(m, k, t))
  {
    hide FullAddr, SameEntries;
    SameLookup(texts, m, BaseOf(k));
    SameAdd(texts, m, k, t);
    SameAdd(texts, m, BaseOf(k), t);
    SameAdd(texts[FullAddr(BaseOf(k)) := t], m[BaseOf(k) := t], k, t);
  }

  class ClientTransportMgr {
    var transports: Texts
    var lastCleanTime: int
    /** The same map by the parts of its texts, as long as no host held brackets. */
    ghost var entries: Cache

    ghost predicate Valid()
      reads this
    {
      ValidMap(entries) && SameEntries(transports, entries)
    }

    ghost function View(): State
      reads this, entries.Values
    {
      ViewOf(entries, lastCleanTime)
    }

    constructor (now: int)
      ensures Valid() && View() == State(map[], {}, now) && transports == map[]
    {
      transports, lastCleanTime, entries := map[], now, map[];
    }

    method CleanExpiredTransport(now: int)
      modifies this
      ensures transports == old(CleanedTexts(transports, lastCleanTime, now))
      ensures old(Valid()) ==> Valid() && View() == Clean(old(View()), now)
      ensures entries.Values <= old(entries).Values
    {
      hide FullAddr, WellFormedKey, SameEntries, ValidMap, ViewOf, Clean;
      if now - lastCleanTime < 60 {
        ViewKeys(entries, lastCleanTime);
        NoCleanUp(View(), now);
        return;
      }
      var expired := ExpiredTexts(now);
      if Valid() {
        CleanedView(transports, entries, lastCleanTime, now);
        SameLeft(transports, entries, transports - expired);
        assert transports - expired == CleanedTexts(transports, lastCleanTime, now);
      }
      lastCleanTime := now;
      transports := transports - expired;
      entries := LeftEntries(transports, entries);
    }

    /** The loop that finds the keys to be deleted. */
    method ExpiredTexts(now: int) returns (expired: set<string>)
      ensures forall x :: x in expired <==> x in transports && Expired(transports[x].primary, now)
    {
      expired := {};
      var left := transports.Keys;
      while left != {}
        invariant left <= transports.Keys
        invariant forall x :: x in expired <==> x in transports && x !in left && Expired(transports[x].primary, now)
        decreases left
      {
        var x :| x in left;
        if Expired(transports[x].primary, now) {
          expired := expired + {x};
        }
        left := left - {x};
      }
    }

    /** GetTransport: null stands for the error result, of an unsupported protocol or of a transport that cannot be
        created; the clean-up comes first. */
    method GetTransport(protocol: string, host: string, port: int, transId: string, creatable: bool, now: int)
      returns (t: FailOverClientTransport?)
      modifies this
      ensures var (k, cleaned) :=
          (KeyFor(Lower(protocol), host, port, transId), old(CleanedTexts(transports, lastCleanTime, now)));
        && (t != null <==> (Supported(k.protocol) && TransportAtHand(cleaned, k, creatable)))
        && (t == null ==> transports == cleaned)
        && (t != null ==> FullAddr(k) in transports && transports[FullAddr(k)] == t)
        && (t != null ==> transports == if FullAddr(k) in cleaned then cleaned else EnteredTexts(cleaned, k, t))
      ensures old(Valid()) && PlainHost(host) ==>
        var k := KeyFor(Lower(protocol), host, port, transId);
        && Valid()
        && (t != null <==> (Supported(k.protocol) && Obtainable(old(View()), k, creatable, now)))
        && (t == null ==> View() == Clean(old(View()), now))
        && (t != null ==> View() == Get(old(View()), k, now) && k in entries && entries[k] == t)
      ensures forall x :: x in transports ==> transports[x] in old(transports).Values || fresh(transports[x])
      ensures forall l :: l in entries ==> entries[l] in old(entries).Values || fresh(entries[l])
    {
      hide Clean, Entered, Lower, FullAddr, SameEntries, CleanedTexts, EnteredTexts, ValidMap, ViewOf, EnteredMap;
      CleanedWithin(transports, lastCleanTime, now);
      CleanExpiredTransport(now);
      var p := Lower(protocol);
      if !Supported(p) {
        return null;
      }
      var k := KeyFor(p, host, port, transId);
      if old(Valid()) && PlainHost(host) {
        SameLookup(transports, entries, k);
        SameLookup(transports, entries, BaseOf(k));
        ViewKeys(entries, lastCleanTime);
      }
      if FullAddr(k) in transports {
        return transports[FullAddr(k)];
      }
      t := Enter(k, creatable);
    }

    method Enter(k: Key, creatable: bool) returns (t: FailOverClientTransport?)
      requires Usable(k) && FullAddr(k) !in transports
      modifies this`transports, this`entries
      ensures t != null <==> TransportAtHand(old(transports), k, creatable)
      ensures t == null ==> transports == old(transports) && entries == old(entries)
      ensures t != null ==> FullAddr(k) in transports && transports[FullAddr(k)] == t
      ensures t != null ==> transports == EnteredTexts(old(transports), k, t)
      ensures t != null && old(Valid()) && WellFormedKey(k) ==>
        Valid() && View() == Entered(old(View()), k) && k in entries && entries[k] == t
      ensures forall x :: x in transports ==> transports[x] in old(transports).Values || fresh(transports[x])
      ensures forall l :: l in entries ==> entries[l] in old(entries).Values || fresh(entries[l])
    {
      hide Entered, FullAddr, SameEntries, ValidMap;
      ghost var texts, m := transports, entries;
      t := CreateClientTransport(k, creatable);
      if t != null {
        transports := transports[FullAddr(k) := t];
        entries := EnteredMap(m, k, t);
        assert transports == EnteredTexts(texts, k, t);
        if old(Valid()) && WellFormedKey(k) {
          SameLookup(texts, m, k);
          ValuesAreOld(texts, m, t);
          SameEntered(texts, m, k, t);
          EnteredShared(m, k, t, lastCleanTime);
          EnteredView(m, k, t, lastCleanTime);
        }
      }
    }

    /** createClientTransport: for TCP it also enters a base entry that was missing, as the same object. */
    method CreateClientTransport(k: Key, creatable: bool) returns (t: FailOverClientTransport?)
      requires Usable(k) && FullAddr(k) !in transports
      modifies this`transports
      ensures t != null <==> TransportAtHand(old(transports), k, creatable)
      ensures t == null ==> transports == old(transports)
      ensures t != null ==> fresh(t) && t.primary == if k.protocol == "udp" then Some(Udp) else None
      ensures t != null ==> transports == if k.protocol == "tcp" && FullAddr(BaseOf(k)) !in old(transports)
                                          then old(transports)[FullAddr(BaseOf(k)) := t] else old(transports)
    {
      hide FullAddr;
      if k.protocol == "udp" {
        if !creatable {
          return null;
        }
        t := new FailOverClientTransport(Some(Udp));
      } else if FullAddr(BaseOf(k)) in transports {
        t := new FailOverClientTransport(None);
      } else if creatable {
        t := new FailOverClientTransport(None);
        transports := transports[FullAddr(BaseOf(k)) := t];
      } else {
        return null;
      }
    }

    method RemoveTransport(protocol: string, host: string, port: int, transId: string)
      modifies this`transports, this`entries
      ensures transports == if Supported(Lower(protocol))
                            then old(transports) - {FullAddr(KeyFor(Lower(protocol), host, port, transId))} else old(transports)
      ensures old(Valid()) && PlainHost(host) ==>
        Valid() && View() == if Supported(Lower(protocol))
                             then RemoveKey(old(View()), KeyFor(Lower(protocol), host, port, transId)) else old(View())
    {
      hide Lower, FullAddr, SameEntries, ValidMap, ViewOf, RemoveKey;
      if Supported(Lower(protocol)) {
        var k := KeyFor(Lower(protocol), host, port, transId);
        if old(Valid()) && PlainHost(host) {
          SameLeft(transports, entries, transports - {FullAddr(k)});
          LeftIsWithout(transports, entries, k);
          RemovedView(entries, k, lastCleanTime);
        }
        transports := transports - {FullAddr(k)};
        entries := entries - {k};
      }
    }

    /** `trans, err := GetTransport("tcp", …); trans.primary = NewTCPClientTransportWithConn(conn)`. */
    method Register(host: string, port: int, transId: string, conn: nat, creatable: bool, now: int) returns (ok: bool)
      modifies this, transports.Values
      ensures var (k, cleaned) := (Key("tcp", host, port, transId), old(CleanedTexts(transports, lastCleanTime, now)));
        && (ok <==> TransportAtHand(cleaned, k, creatable))
        && (!ok ==> transports == cleaned)
        && (ok ==> FullAddr(k) in transports && transports[FullAddr(k)].primary == Some(Conn(conn, now + LIFE)))
        && (ok ==> transports == if FullAddr(k) in cleaned then cleaned
                                 else EnteredTexts(cleaned, k, transports[FullAddr(k)]))
      ensures old(Valid()) && PlainHost(host) ==>
        var k := Key("tcp", host, port, transId);
        && Valid() && (ok <==> Obtainable(old(View()), k, creatable, now))
        && (!ok ==> View() == Step(old(View()), Refused(now)))
        && (ok ==> k in Get(old(View()), k, now).slots
                   && View() == SetPrimary(Get(old(View()), k, now), k, Conn(conn, now + LIFE)))
    {
      hide Get, Obtainable, Clean, FullAddr, CleanedTexts, EnteredTexts, SameEntries, ValidMap, SetPrimary, ViewOf;
      TcpIsLower();
      var t := GetTransport("tcp", host, port, transId, creatable, now);
      if t == null {
        return false;
      }
      ghost var k := Key("tcp", host, port, transId);
      ViewKeys(entries, lastCleanTime);
      SetPrimaryOf(k, t, Conn(conn, now + LIFE));
      return true;
    }

    method SetPrimaryOf(ghost k: Key, t: FailOverClientTransport, client: Client)
      modifies t
      ensures t.primary == Some(client)
      ensures old(Valid()) && k in entries && entries[k] == t ==>
        Valid() && k in old(View()).slots && View() == SetPrimary(old(View()), k, client)
    {
      hide FullAddr, SameEntries;
      ghost var s := View();
      t.primary := Some(client);
      if old(Valid()) && k in entries && entries[k] == t {
        forall l | l in entries
          ensures SameObject(s, k, l) <==> entries[l] == t
        {
          if entries[l] == t && l != k {
            assert BaseOf(l) == BaseOf(k);
          }
        }
        assert View().slots == SetPrimary(s, k, client).slots;
      }
    }

    /** The transport part of sendResponse: look the transaction up, forget it after a final response. */
    method TransportForResponse(protocol: string, host: string, port: int, transId: string, final: bool,
                                creatable: bool, now: int)
      returns (t: FailOverClientTransport?)
      modifies this
      ensures var (k, cleaned) :=
          (KeyFor(Lower(protocol), host, port, transId), old(CleanedTexts(transports, lastCleanTime, now)));
        && (t != null <==> (Supported(k.protocol) && TransportAtHand(cleaned, k, creatable)))
        && (t == null ==> transports == cleaned)
        && (t != null ==>
              var got := if FullAddr(k) in cleaned then cleaned else EnteredTexts(cleaned, k, t);
              transports == (if final then got - {FullAddr(k)} else got) && FullAddr(k) in got && got[FullAddr(k)] == t)
      ensures old(Valid()) && PlainHost(host) ==>
        var k := KeyFor(Lower(protocol), host, port, transId);
        && Valid()
        && (t == null ==> View() == Step(old(View()), Refused(now)))
        && (t != null ==>
              View() == Step(old(View()), if final then Final(k, now) else Looked(k, now))
              && k in Get(old(View()), k, now).slots && t.primary == Get(old(View()), k, now).slots[k])
    {
      hide Lower, Get, Clean, Obtainable, FullAddr, CleanedTexts, EnteredTexts, SameEntries, ValidMap;
      t := GetTransport(protocol, host, port, transId, creatable, now);
      if t != null && final {
        RemoveTransport(protocol, host, port, transId);
      }
    }
  }

  lemma TcpIsLower()
    ensures Lower("tcp") == "tcp"
  {
  }

  lemma RemovedView(m: Cache, k: Key, lastClean: int)
    requires ValidMap(m)
    ensures ValidMap(m - {k}) && ViewOf(m - {k}, lastClean) == RemoveKey(ViewOf(m, lastClean), k)
  {
    assert ViewOf(m - {k}, lastClean).slots == RemoveKey(ViewOf(m, lastClean), k).slots;
  }

  lemma ViewKeys(m: Cache, lastClean: int)
    ensures forall k :: k in ViewOf(m, lastClean).slots <==> k in m
    ensures ViewOf(m, lastClean).lastClean == lastClean
  {
  }

  lemma NoCleanUp(s: State, now: int)
    ensures now - s.lastClean < 60 ==> Clean(s, now) == s
  {
  }

  lemma CleanedWithin(texts: Texts, lastClean: int, now: int)
    ensures var c := CleanedTexts(texts, lastClean, now);
      forall x :: x in c ==> x in texts && c[x] == texts[x]
  {
  }

  /** What the clean-up does by texts it does by keys. */
  lemma CleanedView(texts: Texts, m: Cache, lastClean: int, now: int)
    requires ValidMap(m) && SameEntries(texts, m) && now - lastClean >= 60
    ensures var left := LeftEntries(CleanedTexts(texts, lastClean, now), m);
      ValidMap(left) && ViewOf(left, now) == Clean(ViewOf(m, lastClean), now)
  {
    hide FullAddr, WellFormedKey;
    var left := LeftEntries(CleanedTexts(texts, lastClean, now), m);
    assert forall k :: k in m ==> (k in left <==> !Expired(m[k].primary, now));
    assert ViewOf(left, now).slots == Clean(ViewOf(m, lastClean), now).slots;
  }

  lemma ValuesAreOld(texts: Texts, m: Cache, t: FailOverClientTransport)
    requires SameEntries(texts, m) && t !in texts.Values
    ensures t !in m.Values
  {
    hide FullAddr;
  }

  /** The heap invariant is the abstract one: no two transactions share. */
  lemma HeapIsConsistent(m: ClientTransportMgr)
    requires m.Valid()
    ensures Consistent(m.View())
  {
  }
}
