/** message.go, identities: session ids, dialog ids and client transactions. */
module Identity {
  import opened Wrappers
  import opened Text
  import opened KeyValues
  import opened SipUris
  import opened NameAddrs
  import opened Parties
  import opened Routes
  import opened Vias
  import opened HeaderViews
  import opened Messages
  import opened MessagePath

  /** Content of the first header of a kind. */
  function FirstContent(v: View, k: Kind): Option<Content> {
    if First(v, k) < 0 then None else Some(v[First(v, k)].content)
  }

  function CallIdOf(v: View): Option<string> {
    match FirstContent(v, CallIdKind)
    case Some(Plain(t)) => Some(t)
    case _ => None
  }

  function PartyOf(v: View, k: Kind): Option<Party> {
    match FirstContent(v, k)
    case Some(PartyValue(p)) => Some(p)
    case _ => None
  }

  /** getDialogAddr: a SIP URI without parameters and headers. */
  function DialogAddr(a: AddrSpec): string {
    match a
    case SipAddr(u) => PrintPart(u, false, false)
    case AbsoluteAddr(t) => t
  }

  function Ordered(callId: string, a: string, b: string, swap: bool): string {
    if swap then callId + "-" + b + "-" + a else callId + "-" + a + "-" + b
  }

  /** The two addresses in lexicographic order. */
  function SessionId(callId: string, from: string, to: string): string {
    Ordered(callId, from, to, !Less(from, to))
  }

  /** GetSessionId. */
  function SessionIdOf(v: View): Option<string> {
    var callId :- CallIdOf(v);
    var from :- PartyOf(v, FromKind);
    var to :- PartyOf(v, ToKind);
    Some(SessionId(callId, DialogAddr(from.Address()), DialogAddr(to.Address())))
  }

  function TagOf(p: Party): string {
    match Lookup(p.params, "tag")
    case Some(t) => t
    case None => ""
  }

  /** The first tag parameter counts; without one the tag is empty. */
  lemma TagIsFirst(p: Party, i: nat)
    ensures FirstOfName(p.params, i, "tag") ==> TagOf(p) == p.params[i].value
    ensures (forall kv :: kv in p.params ==> kv.key != "tag") ==> TagOf(p) == ""
  {
    hide Lookup, FirstOfName;
    LookupIsFirst(p.params, "tag");
  }

  /** GetDialog: each address carries its tag, the order is that of the addresses alone. */
  function DialogId(callId: string, fromTag: string, from: string, toTag: string, to: string): string {
    Ordered(callId, fromTag + "-" + from, toTag + "-" + to, !Less(from, to))
  }

  /** GetDialog on a header list; a missing tag counts as empty. */
  function DialogIdOf(v: View): Option<string> {
    var callId :- CallIdOf(v);
    var from :- PartyOf(v, FromKind);
    var to :- PartyOf(v, ToKind);
    Some(DialogId(callId, TagOf(from), DialogAddr(from.Address()), TagOf(to), DialogAddr(to.Address())))
  }

  /** Both directions of a conversation have one session id. */
  lemma SessionIdSwaps(callId: string, from: string, to: string)
    ensures SessionId(callId, from, to) == SessionId(callId, to, from)
  {
    hide Less;
    LessTrichotomy(from, to);
  }

  /** Both directions have one dialog id when the addresses differ, or the tags agree. */
  lemma DialogIdSwaps(callId: string, fromTag: string, from: string, toTag: string, to: string)
    requires from != to || fromTag == toTag
    ensures DialogId(callId, fromTag, from, toTag, to) == DialogId(callId, toTag, to, fromTag, from)
  {
    hide Less;
    LessTrichotomy(from, to);
  }

  /** A party that talks to its own address under two tags has one id per direction, as long as the first `:`
      is the address's: then the tags can be read off the two ids. */
  lemma OwnAddressTwoIds(callId: string, tag1: string, tag2: string, address: string)
    requires ':' in address && ':' !in tag1 && ':' !in tag2
    ensures DialogId(callId, tag1, address, tag2, address) == DialogId(callId, tag2, address, tag1, address)
       <==> tag1 == tag2
  {
    hide Less, IndexByte, Before, After;
    LessTrichotomy(address, address);
    var front := callId + "-";
    var scheme, rest := Before(address, ':'), After(address, ':').value;
    CutJoins(address, ':');
    var x, y := tag1 + "-" + address + "-" + (tag2 + "-" + address), tag2 + "-" + address + "-" + (tag1 + "-" + address);
    assert DialogId(callId, tag1, address, tag2, address) == front + y;
    assert DialogId(callId, tag2, address, tag1, address) == front + x;
    if front + x == front + y {
      assert x == (front + x)[|front|..] && y == (front + y)[|front|..];
      assert x == (tag1 + "-" + scheme) + [':'] + (rest + "-" + (tag2 + "-" + address));
      assert y == (tag2 + "-" + scheme) + [':'] + (rest + "-" + (tag1 + "-" + address));
      CutAt(tag1 + "-" + scheme, ':', rest + "-" + (tag2 + "-" + address));
      CutAt(tag2 + "-" + scheme, ':', rest + "-" + (tag1 + "-" + address));
      var p1, p2 := tag1 + "-" + scheme, tag2 + "-" + scheme;
      assert p1 == Before(x, ':') == Before(y, ':') == p2;
      assert |tag1| == |tag2|;
      assert tag1 == p1[..|tag1|] && tag2 == p2[..|tag2|];
    }
  }

  /** A tag that spells the address between two copies of the other tag makes the two directions collide. */
  lemma TagsMayCollide(callId: string, tag: string, address: string)
    ensures var other := tag + "-" + address + "-" + tag;
      other != tag
      && DialogId(callId, tag, address, other, address) == DialogId(callId, other, address, tag, address)
  {
    hide Less;
    LessTrichotomy(address, address);
    var other := tag + "-" + address + "-" + tag;
    assert |other| > |tag|;
    assert DialogId(callId, tag, address, other, address) == callId + "-" + (other + "-" + address) + "-" + (tag + "-" + address);
    assert DialogId(callId, other, address, tag, address) == callId + "-" + (tag + "-" + address) + "-" + (other + "-" + address);
    assert (other + "-" + address) + "-" + (tag + "-" + address) == (tag + "-" + address) + "-" + (other + "-" + address);
    assert callId + "-" + (other + "-" + address) + "-" + (tag + "-" + address)
        == callId + "-" + ((other + "-" + address) + "-" + (tag + "-" + address));
    assert callId + "-" + (tag + "-" + address) + "-" + (other + "-" + address)
        == callId + "-" + ((tag + "-" + address) + "-" + (other + "-" + address));
  }

  /** Addresses that agree but for URI parameters and URI headers. */
  predicate SameAddress(a: AddrSpec, b: AddrSpec) {
    match (a, b)
    case (SipAddr(u), SipAddr(w)) => u.(parameters := w.parameters, headers := w.headers) == w
    case (AbsoluteAddr(s), AbsoluteAddr(t)) => s == t
    case _ => false
  }

  /** Two messages of one conversation: one Call-ID, and the same two addresses, either way round, whatever
      the display names, tags, URI parameters and URI headers. */
  predicate SameConversation(v: View, w: View) {
    && CallIdOf(v) == CallIdOf(w)
    && PartyOf(v, FromKind).Some? && PartyOf(v, ToKind).Some? && PartyOf(w, FromKind).Some? && PartyOf(w, ToKind).Some?
    && var (vf, vt) := (PartyOf(v, FromKind).value.Address(), PartyOf(v, ToKind).value.Address());
       var (wf, wt) := (PartyOf(w, FromKind).value.Address(), PartyOf(w, ToKind).value.Address());
       (SameAddress(vf, wf) && SameAddress(vt, wt)) || (SameAddress(vf, wt) && SameAddress(vt, wf))
  }

  lemma SameAddressSameText(a: AddrSpec, b: AddrSpec)
    requires SameAddress(a, b)
    ensures DialogAddr(a) == DialogAddr(b)
  {
    hide PrintParams, PrintHeaders, Itoa;
  }

  lemma OneConversationOneSession(v: View, w: View)
    requires SameConversation(v, w)
    ensures SessionIdOf(v) == SessionIdOf(w)
  {
    hide FirstContent, CallIdOf, PartyOf, SameAddress, DialogAddr, Less, Ordered;
    var vf, vt := PartyOf(v, FromKind).value.Address(), PartyOf(v, ToKind).value.Address();
    var wf, wt := PartyOf(w, FromKind).value.Address(), PartyOf(w, ToKind).value.Address();
    if SameAddress(vf, wf) && SameAddress(vt, wt) {
      SameAddressSameText(vf, wf);
      SameAddressSameText(vt, wt);
    } else {
      SameAddressSameText(vf, wt);
      SameAddressSameText(vt, wf);
    }
    if CallIdOf(v).Some? {
      SessionIdSwaps(CallIdOf(v).value, DialogAddr(vf), DialogAddr(vt));
    }
  }

  /** `w` runs in the other direction of the dialog that `v` belongs to. */
  predicate OtherDirection(v: View, w: View) {
    && CallIdOf(v).Some? && CallIdOf(v) == CallIdOf(w)
    && PartyOf(v, FromKind).Some? && PartyOf(v, ToKind).Some? && PartyOf(w, FromKind).Some? && PartyOf(w, ToKind).Some?
    && var (vf, vt, wf, wt) :=
         (PartyOf(v, FromKind).value, PartyOf(v, ToKind).value, PartyOf(w, FromKind).value, PartyOf(w, ToKind).value);
       && SameAddress(vf.Address(), wt.Address()) && SameAddress(vt.Address(), wf.Address())
       && TagOf(vf) == TagOf(wt) && TagOf(vt) == TagOf(wf)
  }

  /** Both directions of a dialog have one id when the two addresses differ, whatever the tags, and when the
      tags agree. */
  lemma DirectionsShareDialog(v: View, w: View)
    requires OtherDirection(v, w)
    requires DialogAddr(PartyOf(v, FromKind).value.Address()) != DialogAddr(PartyOf(v, ToKind).value.Address())
          || TagOf(PartyOf(v, FromKind).value) == TagOf(PartyOf(v, ToKind).value)
    ensures DialogIdOf(v).Some? && DialogIdOf(v) == DialogIdOf(w)
  {
    hide FirstContent, CallIdOf, PartyOf, SameAddress, DialogAddr, TagOf, DialogId;
    var vf, vt := PartyOf(v, FromKind).value, PartyOf(v, ToKind).value;
    var wf, wt := PartyOf(w, FromKind).value, PartyOf(w, ToKind).value;
    SameAddressSameText(vf.Address(), wt.Address());
    SameAddressSameText(vt.Address(), wf.Address());
    DialogIdSwaps(CallIdOf(v).value, TagOf(vf), DialogAddr(vf.Address()), TagOf(vt), DialogAddr(vt.Address()));
  }

  /** The other half, for addresses with a `:`, as every SIP address has, and tags without: one id only then. */
  lemma OneDialogExactly(v: View, w: View)
    requires OtherDirection(v, w)
    requires ':' in DialogAddr(PartyOf(v, FromKind).value.Address())
    requires ':' !in TagOf(PartyOf(v, FromKind).value) && ':' !in TagOf(PartyOf(v, ToKind).value)
    ensures DialogIdOf(v) == DialogIdOf(w)
       <==> DialogAddr(PartyOf(v, FromKind).value.Address()) != DialogAddr(PartyOf(v, ToKind).value.Address())
            || TagOf(PartyOf(v, FromKind).value) == TagOf(PartyOf(v, ToKind).value)
  {
    hide FirstContent, CallIdOf, PartyOf, SameAddress, DialogAddr, TagOf, DialogId;
    var vf, vt := PartyOf(v, FromKind).value, PartyOf(v, ToKind).value;
    var wf, wt := PartyOf(w, FromKind).value, PartyOf(w, ToKind).value;
    SameAddressSameText(vf.Address(), wt.Address());
    SameAddressSameText(vt.Address(), wf.Address());
    var a := DialogAddr(vf.Address());
    if a != DialogAddr(vt.Address()) {
      DialogIdSwaps(CallIdOf(v).value, TagOf(vf), a, TagOf(vt), DialogAddr(vt.Address()));
    } else {
      OwnAddressTwoIds(CallIdOf(v).value, TagOf(vf), TagOf(vt), a);
    }
  }

  lemma SipAddressHasColon(a: AddrSpec)
    requires a.SipAddr?
    ensures ':' in DialogAddr(a)
  {
    hide PrintAddress, PrintParams, PrintHeaders;
  }

  lemma SessionIdIsNotEmpty(v: View)
    ensures SessionIdOf(v) != Some("")
  {
    hide CallIdOf, PartyOf, DialogAddr;
  }

  // ---- when ids differ ----

  function Lower2(a: string, b: string): string {
    if Less(a, b) then a else b
  }

  function Higher2(a: string, b: string): string {
    if Less(a, b) then b else a
  }

  predicate SamePair(a: string, b: string, c: string, d: string) {
    (a == c && b == d) || (a == d && b == c)
  }

  lemma PairByOrder(a: string, b: string, c: string, d: string)
    ensures Lower2(a, b) == Lower2(c, d) && Higher2(a, b) == Higher2(c, d) <==> SamePair(a, b, c, d)
  {
    hide Less;
    LessTrichotomy(a, b);
    LessTrichotomy(c, d);
  }

  lemma SessionIdText(callId: string, a: string, b: string)
    ensures SessionId(callId, a, b) == callId + "-" + (Lower2(a, b) + "-" + Higher2(a, b))
  {
    hide Less;
  }

  /** Two calls between the same addresses have one session or dialog only if they have one Call-ID. */
  lemma CallIdDecides(c1: string, c2: string, tag1: string, a: string, tag2: string, b: string)
    ensures SessionId(c1, a, b) == SessionId(c2, a, b) <==> c1 == c2
    ensures DialogId(c1, tag1, a, tag2, b) == DialogId(c2, tag1, a, tag2, b) <==> c1 == c2
  {
    hide Less;
    var x, y := tag1 + "-" + a, tag2 + "-" + b;
    SessionIdText(c1, a, b);
    SessionIdText(c2, a, b);
    SameEnding(c1, c2, "-" + (Lower2(a, b) + "-" + Higher2(a, b)));
    assert c1 + ("-" + (Lower2(a, b) + "-" + Higher2(a, b))) == SessionId(c1, a, b);
    assert c2 + ("-" + (Lower2(a, b) + "-" + Higher2(a, b))) == SessionId(c2, a, b);
    var e := if Less(a, b) then "-" + x + "-" + y else "-" + y + "-" + x;
    SameEnding(c1, c2, e);
    assert c1 + e == DialogId(c1, tag1, a, tag2, b) && c2 + e == DialogId(c2, tag1, a, tag2, b);
  }

  /** The smaller address of one pair runs over into the greater one of the other, at a `-`. */
  predicate Straddles(lo: string, hi: string, lo2: string, hi2: string) {
    lo + "-" <= lo2 && hi == lo2[|lo| + 1..] + "-" + hi2
  }

  lemma StraddleTexts(lo: string, hi: string, lo2: string, hi2: string)
    ensures lo + "-" + hi == lo2 + "-" + hi2
       <==> (lo == lo2 && hi == hi2) || Straddles(lo, hi, lo2, hi2) || Straddles(lo2, hi2, lo, hi)
  {
    if |lo| == |lo2| {
      SameFront(lo, hi, lo2, hi2);
    } else if |lo| < |lo2| {
      StraddleText(lo, hi, lo2, hi2);
    } else {
      StraddleText(lo2, hi2, lo, hi);
    }
  }

  lemma SameFront(lo: string, hi: string, lo2: string, hi2: string)
    requires |lo| == |lo2|
    ensures lo + "-" + hi == lo2 + "-" + hi2 <==> lo == lo2 && hi == hi2
  {
    var s, t := lo + "-" + hi, lo2 + "-" + hi2;
    assert s[..|lo|] == lo && t[..|lo|] == lo2 && s[|lo| + 1..] == hi && t[|lo| + 1..] == hi2;
  }

  lemma StraddleText(lo: string, hi: string, lo2: string, hi2: string)
    requires |lo| < |lo2|
    ensures lo + "-" + hi == lo2 + "-" + hi2 <==> Straddles(lo, hi, lo2, hi2)
  {
    var s, t, n := lo + "-" + hi, lo2 + "-" + hi2, |lo| + 1;
    assert s[..n] == lo + "-" && t[..n] == lo2[..n];
    assert s[n..] == hi && t[n..] == lo2[n..] + "-" + hi2;
    assert s == s[..n] + s[n..] && t == t[..n] + t[n..];
  }

  /** With one Call-ID two pairs of addresses have one session id exactly when they are the same pair, or one runs
      over into the other at a `-`. */
  lemma OneCallExactly(callId: string, a: string, b: string, c: string, d: string)
    ensures SessionId(callId, a, b) == SessionId(callId, c, d)
       <==> SamePair(a, b, c, d)
            || Straddles(Lower2(a, b), Higher2(a, b), Lower2(c, d), Higher2(c, d))
            || Straddles(Lower2(c, d), Higher2(c, d), Lower2(a, b), Higher2(a, b))
  {
    hide Less, Straddles;
    SessionIdText(callId, a, b);
    SessionIdText(callId, c, d);
    var x, y := Lower2(a, b) + "-" + Higher2(a, b), Lower2(c, d) + "-" + Higher2(c, d);
    assert (callId + "-" + x)[|callId| + 1..] == x && (callId + "-" + y)[|callId| + 1..] == y;
    PairByOrder(a, b, c, d);
    StraddleTexts(Lower2(a, b), Higher2(a, b), Lower2(c, d), Higher2(c, d));
  }

  /** Such pairs exist among SIP addresses. */
  lemma HyphensCollide(callId: string)
    ensures SessionId(callId, "sip:1", "sip:b@h-sip:5060") == SessionId(callId, "sip:1-sip:b@h", "sip:5060")
    ensures !SamePair("sip:1", "sip:b@h-sip:5060", "sip:1-sip:b@h", "sip:5060")
  {
    hide Less, SessionId;
    FirstsInOrder();
    OneCallExactly(callId, "sip:1", "sip:b@h-sip:5060", "sip:1-sip:b@h", "sip:5060");
    OneStraddles();
    assert |"sip:1"| == 5 && |"sip:1-sip:b@h"| == 13 && |"sip:5060"| == 8;
  }

  lemma OneStraddles()
    ensures Straddles("sip:1", "sip:b@h-sip:5060", "sip:1-sip:b@h", "sip:5060")
  {
    assert "sip:1-sip:b@h"[6..] == "sip:b@h";
  }

  lemma FirstsInOrder()
    ensures Less("sip:1", "sip:b@h-sip:5060") && Less("sip:1-sip:b@h", "sip:5060")
  {
    LessInside("sip:", "1", "b@h-sip:5060");
    LessInside("sip:", "1-sip:b@h", "5060");
    assert "sip:" + "1" == "sip:1" && "sip:" + "b@h-sip:5060" == "sip:b@h-sip:5060";
    assert "sip:" + "1-sip:b@h" == "sip:1-sip:b@h" && "sip:" + "5060" == "sip:5060";
  }

  lemma {:induction false} LessInside(front: string, a: string, b: string)
    ensures Less(front + a, front + b) <==> Less(a, b)
  {
    if front == "" {
      assert front + a == a && front + b == b;
    } else {
      LessInside(front[1..], a, b);
      assert (front + a)[1..] == front[1..] + a && (front + b)[1..] == front[1..] + b;
    }
  }

  /** Where no address holds a `-`, the id names the Call-ID and the two addresses. */
  lemma SessionIdExactly(c1: string, a: string, b: string, c2: string, c: string, d: string)
    requires '-' !in a && '-' !in b && '-' !in c && '-' !in d
    ensures SessionId(c1, a, b) == SessionId(c2, c, d) <==> c1 == c2 && SamePair(a, b, c, d)
  {
    hide Less;
    SessionIdText(c1, a, b);
    SessionIdText(c2, c, d);
    PairByOrder(a, b, c, d);
    var lo, hi, lo2, hi2 := Lower2(a, b), Higher2(a, b), Lower2(c, d), Higher2(c, d);
    assert SessionId(c1, a, b) == (c1 + ['-'] + lo) + ['-'] + hi;
    assert SessionId(c2, c, d) == (c2 + ['-'] + lo2) + ['-'] + hi2;
    if SessionId(c1, a, b) == SessionId(c2, c, d) {
      LastCut(c1 + ['-'] + lo, '-', hi, c2 + ['-'] + lo2, hi2);
      LastCut(c1, '-', lo, c2, lo2);
    }
  }

  /** Nothing of the address is lost in its text but parameters and headers. */
  predicate AddressReturns(a: AddrSpec) {
    PrintableAddr(a) && (a.SipAddr? && a.uri.user == "" ==> a.uri.password == "" && '@' !in a.uri.host)
  }

  /** The text of an address names it, up to URI parameters and URI headers. */
  lemma DialogAddrExactly(a: AddrSpec, b: AddrSpec)
    requires AddressReturns(a) && AddressReturns(b)
    ensures DialogAddr(a) == DialogAddr(b) <==> SameAddress(a, b)
  {
    hide ParseUri, PrintPart, PrintUri, Printable;
    DialogAddrReturns(a);
    DialogAddrReturns(b);
    if SameAddress(a, b) {
      SameAddressSameText(a, b);
    }
  }

  lemma DialogAddrReturns(a: AddrSpec)
    requires AddressReturns(a)
    ensures match a
            case SipAddr(u) => ParseUri(DialogAddr(a)) == Some(u.(parameters := [], headers := []))
            case AbsoluteAddr(t) => DialogAddr(a) == t && ParseUri(t) == None
  {
    hide ParseUri, PrintAddress;
    match a {
      case SipAddr(u) =>
        var plain := u.(parameters := [], headers := []);
        AddressOnly(u);
        UriRoundTrip(plain);
      case AbsoluteAddr(_) =>
    }
  }

  lemma AddressOnly(u: Uri)
    ensures PrintPart(u, false, false) == PrintUri(u.(parameters := [], headers := []))
  {
    hide Itoa;
  }

  /** Whether two messages belong to one session: exactly when they are of one conversation, for addresses that come
      back from their text and hold no `-`. */
  lemma OneSessionExactly(v: View, w: View)
    requires CallIdOf(v).Some? && PartyOf(v, FromKind).Some? && PartyOf(v, ToKind).Some?
    requires CallIdOf(w).Some? && PartyOf(w, FromKind).Some? && PartyOf(w, ToKind).Some?
    requires forall p :: p in {PartyOf(v, FromKind), PartyOf(v, ToKind), PartyOf(w, FromKind), PartyOf(w, ToKind)} ==>
      AddressReturns(p.value.Address()) && '-' !in DialogAddr(p.value.Address())
    ensures SessionIdOf(v) == SessionIdOf(w) <==> SameConversation(v, w)
  {
    hide FirstContent, CallIdOf, PartyOf, SameAddress, DialogAddr, AddressReturns, Less, SessionId;
    var vf, vt := PartyOf(v, FromKind).value.Address(), PartyOf(v, ToKind).value.Address();
    var wf, wt := PartyOf(w, FromKind).value.Address(), PartyOf(w, ToKind).value.Address();
    DialogAddrExactly(vf, wf);
    DialogAddrExactly(vt, wt);
    DialogAddrExactly(vf, wt);
    DialogAddrExactly(vt, wf);
    SessionIdExactly(CallIdOf(v).value, DialogAddr(vf), DialogAddr(vt), CallIdOf(w).value, DialogAddr(wf), DialogAddr(wt));
  }

  // ---- the proxy's own rewrites ----

  datatype Rewrite =
    | Record(peerAddr: string, peerPort: int)
    | ConsumeRoute
    | SignVia(via: ViaEntry)
    | SignRecordRoute(entry: RouteEntry)
    | DropVia

  function Apply(v: View, r: Rewrite): View {
    match r
    case Record(a, p) => HeaderViews.SetReceived(v, a, p)
    case ConsumeRoute => PopFirst(v, RouteKind)
    case SignVia(via) => PushVia(v, via)
    case SignRecordRoute(e) => PushRecordRoute(v, e)
    case DropVia => PopFirst(v, ViaKind)
  }

  function ApplyAll(v: View, rs: seq<Rewrite>): View
    decreases |rs|
  {
    if rs == [] then v else ApplyAll(Apply(v, rs[0]), rs[1..])
  }

  /** The kind of header a rewrite works on. */
  function Target(r: Rewrite): Kind {
    match r
    case Record(_, _) => ViaKind
    case ConsumeRoute => RouteKind
    case SignVia(_) => ViaKind
    case SignRecordRoute(_) => RecordRouteKind
    case DropVia => ViaKind
  }

  lemma RewriteKeepsOthers(v: View, r: Rewrite)
    requires Tidy(v)
    ensures Tidy(Apply(v, r)) && Others(Apply(v, r), Target(r)) == Others(v, Target(r))
  {
    hide KindOf, Flat, Others, First, PopFirst, PushVia, PushRecordRoute, HeaderViews.SetReceived, Tidy;
    match r {
      case Record(a, p) => SetReceivedRecordsTop(v, a, p);
      case ConsumeRoute => PopTakesFirst(v, RouteKind);
      case SignVia(via) => PushViaAddsFirst(v, via);
      case SignRecordRoute(e) => PushRecordRouteAddsFirst(v, e);
      case DropVia => PopTakesFirst(v, ViaKind);
    }
  }

  lemma {:induction false} FirstOfOthers(v: View, k: Kind, other: Kind)
    requires k != other
    ensures FirstContent(v, other) == FirstContent(Others(v, k), other)
  {
    hide KindOf;
    if v != [] {
      FirstOfOthers(v[1..], k, other);
      FirstStep(v, other);
      if v[0].Kind() != k {
        assert Others(v, k) == [v[0]] + Others(v[1..], k);
        FirstStep(Others(v, k), other);
        assert Others(v, k)[1..] == Others(v[1..], k);
      } else {
        assert Others(v, k) == Others(v[1..], k);
      }
    }
  }

  lemma FirstStep(v: View, k: Kind)
    requires v != []
    ensures FirstContent(v, k) == if v[0].Kind() == k then Some(v[0].content) else FirstContent(v[1..], k)
  {
    hide KindOf;
  }

  /** No sequence of the proxy's own rewrites changes the session a message belongs to. */
  lemma {:induction false} RewritesKeepSession(v: View, rs: seq<Rewrite>)
    requires Tidy(v)
    ensures SessionIdOf(ApplyAll(v, rs)) == SessionIdOf(v)
    decreases |rs|
  {
    hide KindOf, Others, First, FirstContent, Apply, Tidy, DialogAddr, SessionId;
    if rs != [] {
      var w := Apply(v, rs[0]);
      RewriteKeepsOthers(v, rs[0]);
      FirstsKept(v, w, Target(rs[0]));
      RewritesKeepSession(w, rs[1..]);
    }
  }

  lemma FirstsKept(v: View, w: View, k: Kind)
    requires Others(v, k) == Others(w, k)
    ensures forall other :: other != k ==> FirstContent(v, other) == FirstContent(w, other)
  {
    hide KindOf, Others, First, FirstContent;
    forall other | other != k
      ensures FirstContent(v, other) == FirstContent(w, other)
    {
      FirstOfOthers(v, k, other);
      FirstOfOthers(w, k, other);
    }
  }

  // ---- client transactions ----

  /** GetClientTransaction: method and branch of the top Via; an ACK has none. */
  function TransactionOf(v: View): Option<string> {
    match FirstContent(v, CSeqKind)
    case Some(CSeqValue(_, m)) =>
      if m == "ACK" then None
      else
        var top :- TopVia(v);
        var branch :- GetBranch(top);
        Some(m + "-" + branch)
    case _ => None
  }

  function MethodOf(v: View): Option<string> {
    match FirstContent(v, CSeqKind)
    case Some(CSeqValue(_, m)) => Some(m)
    case _ => None
  }

  function BranchOf(v: View): Option<string> {
    var top :- TopVia(v);
    Lookup(top.params, "branch")
  }

  /** Every message with a method and a branch has a transaction, but an ACK has none. */
  lemma HasTransaction(v: View)
    ensures TransactionOf(v).Some? <==> MethodOf(v).Some? && MethodOf(v) != Some("ACK") && BranchOf(v).Some?
  {
    hide FirstContent, TopVia, Lookup;
  }

  /** With one branch, different methods are different transactions, as for INVITE and CANCEL; with one method,
      different branches are. */
  lemma TransactionsDiffer(v: View, w: View)
    requires TransactionOf(v).Some? && TransactionOf(w).Some?
    ensures BranchOf(v) == BranchOf(w) ==> (TransactionOf(v) == TransactionOf(w) <==> MethodOf(v) == MethodOf(w))
    ensures MethodOf(v) == MethodOf(w) ==> (TransactionOf(v) == TransactionOf(w) <==> BranchOf(v) == BranchOf(w))
  {
    hide FirstContent, TopVia, Lookup;
    HasTransaction(v);
    HasTransaction(w);
    var m, n, b, c := MethodOf(v).value, MethodOf(w).value, BranchOf(v).value, BranchOf(w).value;
    SameEnding(m, n, "-" + b);
    assert m + ("-" + b) == m + "-" + b && n + ("-" + b) == n + "-" + b;
    assert (m + "-" + b)[|m| + 1..] == b && (m + "-" + c)[|m| + 1..] == c;
  }

  /** With methods free of `-`, two transactions are one exactly when both method and branch are. */
  lemma TransactionsExactly(v: View, w: View)
    requires TransactionOf(v).Some? && TransactionOf(w).Some?
    requires '-' !in MethodOf(v).value && '-' !in MethodOf(w).value
    ensures TransactionOf(v) == TransactionOf(w) <==> MethodOf(v) == MethodOf(w) && BranchOf(v) == BranchOf(w)
  {
    hide FirstContent, TopVia, Lookup, IndexByte;
    HasTransaction(v);
    HasTransaction(w);
    var m, n, b, c := MethodOf(v).value, MethodOf(w).value, BranchOf(v).value, BranchOf(w).value;
    IndexAt(m, '-', b);
    IndexAt(n, '-', c);
    assert m + "-" + b == m + ['-'] + b && n + "-" + c == n + ['-'] + c;
  }

  /** The response a proxy passes on, after its own Via is gone, names the transaction under which the request
      arrived there. */
  lemma ResponseTransaction(hops: seq<ProxyHop>, requests: seq<View>, responses: seq<View>, i: nat)
    requires RequestRun(hops, requests) && ResponseRun(hops, requests, responses) && i < |hops|
    requires FirstContent(responses[i], CSeqKind) == FirstContent(requests[i], CSeqKind)
    ensures TransactionOf(responses[i]) == TransactionOf(Arrived(requests[i], hops[i]))
    ensures TransactionOf(Arrived(requests[i], hops[i])) == TransactionOf(requests[i])
  {
    hide KindOf, Flat, Others, First, FirstContent, GetBranch, TopVia, Tidy, HeaderViews.SetReceived, Filled;
    var v, h := requests[i], hops[i];
    assert Tidy(v) && Tidy(responses[i]);
    ReversePath(hops, requests, responses, i);
    SetReceivedRecordsTop(v, h.peerAddr, h.peerPort);
    FirstsKept(v, HeaderViews.SetReceived(v, h.peerAddr, h.peerPort), ViaKind);
    TopsAreHeads(v);
    TopsAreHeads(Arrived(v, h));
    TopsAreHeads(responses[i]);
    SameHop(Flat(responses[i], ViaKind), Flat(Arrived(v, h), ViaKind));
    if TopVia(v).Some? {
      RecordedHop(TopVia(v).value, h.peerAddr, h.peerPort);
    }
  }

  // ---- on the message object ----

  method GetCallId(m: Message) returns (r: Option<string>)
    requires m.Valid()
    ensures r == CallIdOf(m.View())
  {
    hide KindOf, First, Meaning;
    var pos := m.FindHeaderPos(CallIdKind);
    if pos == -1 {
      return None;
    }
    ghost var h := m.View()[pos];
    assert h == m.headers[pos].View() && h.Kind() == CallIdKind;
    PlainMeaning(CallIdKind, if m.headers[pos].value.Raw? then m.headers[pos].value.text else "");
    match m.headers[pos].value {
      case Raw(t) => return Some(t);
      case _ => return None;
    }
  }

  lemma PlainMeaning(k: Kind, text: string)
    requires k == CallIdKind || k == ExpiresKind || k == MaxForwardsKind || k == ContentLengthKind
    ensures Meaning(k, text) == Plain(text)
  {
  }

  /** Call-ID, From and To, read in this order; the first that is missing ends it. */
  function WhoOf(v: View): Option<(string, Party, Party)> {
    var callId :- CallIdOf(v);
    var from :- PartyOf(v, FromKind);
    var to :- PartyOf(v, ToKind);
    Some((callId, from, to))
  }

  method GetWho(m: Message) returns (r: Option<(string, Party, Party)>)
    requires m.Valid()
    modifies m.repr
    ensures m.OnlyParsed()
    ensures r == WhoOf(old(m.View()))
  {
    hide KindOf, First, Meaning;
    var callId := GetCallId(m);
    if callId.None? {
      return None;
    }
    var from := m.GetFrom();
    if from == null {
      return None;
    }
    FromSeen(m, from);
    var to := m.GetTo();
    if to == null {
      return None;
    }
    ToSeen(m, to);
    FromSeen(m, from);
    return Some((callId.value, from.Value(), to.Value()));
  }

  /** GetSessionId. */
  method GetSessionId(m: Message) returns (r: Option<string>)
    requires m.Valid()
    modifies m.repr
    ensures m.OnlyParsed()
    ensures r == SessionIdOf(old(m.View()))
  {
    hide KindOf, First, Meaning, Less, DialogAddr, CallIdOf, PartyOf;
    var who := GetWho(m);
    if who.None? {
      return None;
    }
    var (callId, from, to) := who.value;
    var a, b := DialogAddr(from.Address()), DialogAddr(to.Address());
    if Less(a, b) {
      return Some(callId + "-" + a + "-" + b);
    } else {
      return Some(callId + "-" + b + "-" + a);
    }
  }

  /** GetDialog. */
  method GetDialog(m: Message) returns (r: Option<string>)
    requires m.Valid()
    modifies m.repr
    ensures m.OnlyParsed()
    ensures r == DialogIdOf(old(m.View()))
  {
    hide KindOf, First, Meaning, Less, DialogAddr, CallIdOf, PartyOf, TagOf;
    var who := GetWho(m);
    if who.None? {
      return None;
    }
    var (callId, from, to) := who.value;
    var a, b := DialogAddr(from.Address()), DialogAddr(to.Address());
    var local, remote := TagOf(from) + "-" + a, TagOf(to) + "-" + b;
    if Less(a, b) {
      return Some(callId + "-" + local + "-" + remote);
    } else {
      return Some(callId + "-" + remote + "-" + local);
    }
  }

  /** GetClientTransaction. */
  method GetClientTransaction(m: Message) returns (r: Option<string>)
    requires m.Valid()
    modifies m.repr
    ensures m.OnlyParsed()
    ensures r == TransactionOf(old(m.View()))
  {
    hide KindOf, First, Meaning, Lookup;
    var cseq := m.GetCSeq();
    if cseq == null {
      return None;
    }
    CSeqSeen(m, cseq);
    if cseq.cseqMethod == "ACK" {
      return None;
    }
    var branch := GetTopViaBranch(m);
    return if branch.None? then None else Some(cseq.cseqMethod + "-" + branch.value);
  }

  method GetTopViaBranch(m: Message) returns (r: Option<string>)
    requires m.Valid()
    modifies m.repr
    ensures m.OnlyParsed()
    ensures r == BranchOf(old(m.View()))
  {
    hide KindOf, First, Meaning, Lookup, TopVia;
    var via := m.GetVia();
    TidyMessage(m);
    if via == null {
      NoTopVia(m.View());
      return None;
    }
    ViaSeen(m, via);
    return Lookup(via.params[0].params, "branch");
  }

  lemma NoTopVia(v: View)
    ensures First(v, ViaKind) < 0 || !v[First(v, ViaKind)].content.ViaList? ==> TopVia(v) == None
  {
  }

  lemma CSeqSeen(m: Message, cseq: CSeq)
    requires m.Valid() && First(m.View(), CSeqKind) >= 0
    requires m.headers[First(m.View(), CSeqKind)].value == AsCSeq(cseq)
    ensures FirstContent(m.View(), CSeqKind) == Some(CSeqValue(cseq.number, cseq.cseqMethod))
  {
    hide KindOf, First;
    assert m.View()[First(m.View(), CSeqKind)] == m.headers[First(m.View(), CSeqKind)].View();
  }

  lemma FromSeen(m: Message, from: FromSpec)
    requires m.Valid() && First(m.View(), FromKind) >= 0
    requires m.headers[First(m.View(), FromKind)].value == AsFrom(from)
    ensures PartyOf(m.View(), FromKind) == Some(from.Value())
  {
    hide KindOf, First;
    assert m.View()[First(m.View(), FromKind)] == m.headers[First(m.View(), FromKind)].View();
  }

  lemma ToSeen(m: Message, to: To)
    requires m.Valid() && First(m.View(), ToKind) >= 0
    requires m.headers[First(m.View(), ToKind)].value == AsTo(to)
    ensures PartyOf(m.View(), ToKind) == Some(to.Value())
  {
    hide KindOf, First;
    assert m.View()[First(m.View(), ToKind)] == m.headers[First(m.View(), ToKind)].View();
  }
}
