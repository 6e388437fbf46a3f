/** message.go: a message whose header values are replaced in place by parsed objects when first read. */
module Messages {
  import opened Wrappers
  import opened Text
  import opened HeaderNames
  import opened Vias
  import opened NameAddrs
  import opened Parties
  import opened Routes
  import opened HeaderViews

  class CSeq {
    const number: int
    const cseqMethod: string

    constructor (number: int, cseqMethod: string)
      ensures this.number == number && this.cseqMethod == cseqMethod
    {
      this.number, this.cseqMethod := number, cseqMethod;
    }

    /** ParseCSeq: null stands for the error result. */
    static method Read(text: string) returns (r: CSeq?)
      ensures r == null <==> ParseCSeq(text).None?
      ensures r != null ==> fresh(r) && ParseCSeq(text) == Some(CSeqValue(r.number, r.cseqMethod))
    {
      hide Fields, Atoi;
      var fields := Fields(text);
      if |fields| != 2 {
        return null;
      }
      var n := Atoi(fields[0]);
      if n.None? {
        return null;
      }
      r := new CSeq(n.value, fields[1]);
    }
  }

  /** The dynamic types a header value can have. */
  datatype HeaderValue =
    | Raw(text: string)
    | AsVia(via: Via)
    | AsRoute(route: Route)
    | AsRecordRoute(recordRoute: RecordRoute)
    | AsFrom(from: FromSpec)
    | AsTo(to: To)
    | AsCSeq(cseq: CSeq)
  {
    /** The object held, and for a Via also its entries. */
    ghost function Objects(): set<object>
      reads if AsVia? then {via} else {}
    {
      match this
      case Raw(_) => {}
      case AsVia(v) => {v} + Elements(v.params)
      case AsRoute(r) => {r}
      case AsRecordRoute(r) => {r}
      case AsFrom(f) => {f}
      case AsTo(t) => {t}
      case AsCSeq(c) => {c}
    }

    /** The object is of the type that belongs to the header, and no list is empty. */
    ghost predicate Suits(k: Kind)
      reads Objects(), if AsVia? then {via} else {}
    {
      match this
      case Raw(_) => true
      case AsVia(v) => k == ViaKind && v.Valid() && v.params != []
      case AsRoute(r) => k == RouteKind && r.routeParams != []
      case AsRecordRoute(r) => k == RecordRouteKind && r.recRoute != []
      case AsFrom(f) => k == FromKind
      case AsTo(t) => k == ToKind
      case AsCSeq(c) => k == CSeqKind
    }

    ghost function Content(k: Kind): Content
      reads Objects(), if AsVia? then {via} else {}
    {
      match this
      case Raw(t) => Meaning(k, t)
      case AsVia(v) => ViaList(v.Value())
      case AsRoute(r) => RouteList(r.routeParams)
      case AsRecordRoute(r) => RecordRouteList(r.recRoute)
      case AsFrom(f) => PartyValue(f.Value())
      case AsTo(t) => PartyValue(t.Value())
      case AsCSeq(c) => CSeqValue(c.number, c.cseqMethod)
    }
  }

  class Header {
    const name: string
    var value: HeaderValue
    ghost var repr: set<object>

    ghost predicate Valid()
      reads this, repr
      ensures Valid() ==> this in repr
    {
      && this in repr
      && (value.AsVia? ==> value.via in repr)
      && value.Objects() <= repr
      && this !in value.Objects()
      && value.Suits(KindOf(name))
    }

    ghost function View(): HeaderView
      requires Valid()
      reads this, repr
    {
      HeaderView(name, value.Content(KindOf(name)))
    }

    constructor (name: string, value: HeaderValue)
      requires value.Suits(KindOf(name))
      ensures this.name == name && this.value == value && repr == {this} + value.Objects()
      ensures Valid() && View() == HeaderView(name, old(value.Content(KindOf(name))))
    {
      this.name, this.value := name, value;
      repr := {this} + value.Objects();
    }

    /** Replaces the text by the object parsed from it. */
    method Intern(v: HeaderValue)
      requires Valid() && value.Raw?
      requires v.Suits(KindOf(name)) && v.Objects() !! repr
      requires v.Content(KindOf(name)) == Meaning(KindOf(name), value.text)
      modifies this
      ensures Valid() && value == v && View() == old(View())
      ensures repr == old(repr) + v.Objects()
    {
      value := v;
      repr := repr + v.Objects();
    }
  }

  datatype RequestLine = RequestLine(requestMethod: string, requestUri: AddrSpec, version: string)
  datatype StatusLine = StatusLine(version: string, statusCode: int, reason: string)

  class Message {
    var request: Option<RequestLine>
    var response: Option<StatusLine>
    var headers: seq<Header>
    var body: string
    ghost var repr: set<object>

    /** Every header and every parsed object belongs to one header of this message only. */
    ghost predicate Valid()
      reads this, repr
      ensures Valid() ==> this in repr
    {
      && this in repr
      && (forall i :: 0 <= i < |headers| ==>
            headers[i] in repr && headers[i].repr <= repr && this !in headers[i].repr && headers[i].Valid())
      && (forall i, j :: 0 <= i < j < |headers| ==> headers[i].repr !! headers[j].repr)
    }

    /** The header list as a value. */
    ghost function View(): (v: View)
      requires Valid()
      reads this, repr
      ensures |v| == |headers|
      ensures forall i :: 0 <= i < |v| ==> v[i] == headers[i].View() && v[i].name == headers[i].name
    {
      seq(|headers|, i requires 0 <= i < |headers| && Valid() reads this, repr => headers[i].View())
    }

    /** What a lazy getter may do: turn texts into objects of the same content, and nothing else. */
    twostate predicate OnlyParsed()
      requires old(Valid())
      reads this, repr, headers
    {
      && Valid() && fresh(repr - old(repr))
      && View() == old(View())
      && headers == old(headers)
      && (forall i :: 0 <= i < |headers| && !old(headers[i].value.Raw?) ==> headers[i].value == old(headers[i].value))
      && request == old(request) && response == old(response) && body == old(body)
    }

    constructor ()
      ensures Valid() && fresh(repr) && headers == [] && View() == []
      ensures request == None && response == None && body == ""
    {
      request, response, headers, body := None, None, [], "";
      repr := {this};
    }

    /** AddHeader: a new text header at the end. */
    method AddHeader(name: string, text: string)
      requires Valid()
      modifies this
      ensures Valid() && fresh(repr - old(repr))
      ensures |headers| == |old(headers)| + 1 && headers[..|old(headers)|] == old(headers)
      ensures headers[|old(headers)|].name == name && headers[|old(headers)|].value == Raw(text)
      ensures request == old(request) && response == old(response) && body == old(body)
    {
      hide KindOf, Meaning;
      var h := new Header(name, Raw(text));
      headers := headers + [h];
      repr := repr + h.repr;
    }

    /** IsFinalResponse: the status code is in one of the five final classes. */
    method IsFinalResponse() returns (r: bool)
      ensures r <==> response.Some? && 200 <= response.value.statusCode < 700
    {
      if response.None? {
        return false;
      }
      return response.value.statusCode / 100 in {2, 3, 4, 5, 6};
    }

    /** GetExpires. */
    method GetExpires(defValue: int) returns (r: int)
      requires Valid()
      ensures First(View(), ExpiresKind) < 0 ==> r == defValue
      ensures First(View(), ExpiresKind) >= 0 ==>
        r == match headers[First(View(), ExpiresKind)].value
             case Raw(t) => (match Atoi(t) case Some(n) => n case None => defValue)
             case _ => defValue
    {
      hide KindOf, Meaning, First, Atoi;
      var n := GetHeaderInt(ExpiresKind);
      return if n.Some? then n.value else defValue;
    }

    /** GetHeaderInt. */
    method GetHeaderInt(k: Kind) returns (r: Option<int>)
      requires Valid() && k != OtherKind
      ensures First(View(), k) < 0 ==> r == None
      ensures First(View(), k) >= 0 ==>
        r == match headers[First(View(), k)].value case Raw(t) => Atoi(t) case _ => None
    {
      hide KindOf, Meaning, First, Atoi;
      var pos := FindHeaderPos(k);
      if pos == -1 {
        return None;
      }
      match headers[pos].value {
        case Raw(t) => return Atoi(t);
        case _ => return None;
      }
    }

    /** findHeaderPos: the first header whose name is a spelling of the given kind, or -1. */
    method FindHeaderPos(k: Kind) returns (pos: int)
      requires Valid() && k != OtherKind
      ensures pos == First(View(), k)
    {
      hide KindOf, IsSameHeader, NameOf, Meaning, First;
      ghost var v := View();
      pos := 0;
      while pos < |headers|
        invariant 0 <= pos <= |headers|
        invariant forall j :: 0 <= j < pos ==> v[j].Kind() != k
      {
        LookupByKind(headers[pos].name, k);
        if IsSameHeader(headers[pos].name, NameOf(k)) {
          return;
        }
        pos := pos + 1;
      }
      pos := -1;
    }

    /** `header.value = parsed`. */
    method InternAt(pos: nat, v: HeaderValue)
      requires Valid() && pos < |headers| && headers[pos].value.Raw?
      requires v.Suits(KindOf(headers[pos].name)) && v.Objects() !! repr
      requires v.Content(KindOf(headers[pos].name)) == Meaning(KindOf(headers[pos].name), headers[pos].value.text)
      modifies this`repr, headers[pos]
      ensures Valid() && repr == old(repr) + v.Objects()
      ensures View() == old(View()) && headers[pos].value == v
      ensures forall i :: 0 <= i < |headers| && i != pos ==> headers[i].value == old(headers[i].value)
    {
      hide KindOf, Meaning, HeaderValue.Content, HeaderValue.Suits;
      ghost var before := View();
      headers[pos].Intern(v);
      repr := repr + v.Objects();
      assert forall i :: 0 <= i < |headers| && i != pos ==> headers[i].Valid() && headers[i].View() == before[i];
    }

    /** GetVia: the list of the first Via line, parsed on first use; null stands for the error result. */
    method GetVia() returns (r: Via?)
      requires Valid()
      modifies repr
      ensures OnlyParsed()
      ensures r != null <==> First(View(), ViaKind) >= 0 && View()[First(View(), ViaKind)].content.ViaList?
      ensures r != null ==> headers[First(View(), ViaKind)].value == AsVia(r)
    {
      hide KindOf, Meaning, First, ParseVia, ParseRouteList, ParseParty, ParseCSeq;
      var pos := FindHeaderPos(ViaKind);
      if pos == -1 {
        return null;
      }
      assert View()[pos].Kind() == ViaKind && View()[pos] == headers[pos].View();
      if headers[pos].value.AsVia? {
        return headers[pos].value.via;
      }
      if !headers[pos].value.Raw? {
        return null;
      }
      MeaningOfVia(headers[pos].value.text);
      r := Via.Parse(headers[pos].value.text);
      if r != null {
        InternAt(pos, AsVia(r));
      }
    }

    /** GetRoute: the list of the first Route line. */
    method GetRoute() returns (r: Route?)
      requires Valid()
      modifies repr
      ensures OnlyParsed()
      ensures r != null <==> First(View(), RouteKind) >= 0 && View()[First(View(), RouteKind)].content.RouteList?
      ensures r != null ==> headers[First(View(), RouteKind)].value == AsRoute(r)
    {
      hide KindOf, Meaning, First, ParseVia, ParseRouteList, ParseParty, ParseCSeq;
      var pos := FindHeaderPos(RouteKind);
      if pos == -1 {
        return null;
      }
      assert View()[pos].Kind() == RouteKind && View()[pos] == headers[pos].View();
      if headers[pos].value.AsRoute? {
        return headers[pos].value.route;
      }
      if !headers[pos].value.Raw? {
        return null;
      }
      MeaningOfRoute(headers[pos].value.text);
      r := Route.Parse(headers[pos].value.text);
      if r != null {
        InternAt(pos, AsRoute(r));
      }
    }

    /** GetRecordRoute: the list of the first Record-Route line. */
    method GetRecordRoute() returns (r: RecordRoute?)
      requires Valid()
      modifies repr
      ensures OnlyParsed()
      ensures r != null <==> First(View(), RecordRouteKind) >= 0 && View()[First(View(), RecordRouteKind)].content.RecordRouteList?
      ensures r != null ==> headers[First(View(), RecordRouteKind)].value == AsRecordRoute(r)
    {
      hide KindOf, Meaning, First, ParseVia, ParseRouteList, ParseParty, ParseCSeq;
      var pos := FindHeaderPos(RecordRouteKind);
      if pos == -1 {
        return null;
      }
      assert View()[pos].Kind() == RecordRouteKind && View()[pos] == headers[pos].View();
      if headers[pos].value.AsRecordRoute? {
        return headers[pos].value.recordRoute;
      }
      if !headers[pos].value.Raw? {
        return null;
      }
      MeaningOfRecordRoute(headers[pos].value.text);
      r := RecordRoute.Parse(headers[pos].value.text);
      if r != null {
        InternAt(pos, AsRecordRoute(r));
      }
    }

    /** GetFrom. */
    method GetFrom() returns (r: FromSpec?)
      requires Valid()
      modifies repr
      ensures OnlyParsed()
      ensures r != null <==> First(View(), FromKind) >= 0 && View()[First(View(), FromKind)].content.PartyValue?
      ensures r != null ==> headers[First(View(), FromKind)].value == AsFrom(r)
    {
      hide KindOf, Meaning, First, ParseVia, ParseRouteList, ParseParty, ParseCSeq;
      var pos := FindHeaderPos(FromKind);
      if pos == -1 {
        return null;
      }
      assert View()[pos].Kind() == FromKind && View()[pos] == headers[pos].View();
      if headers[pos].value.AsFrom? {
        return headers[pos].value.from;
      }
      if !headers[pos].value.Raw? {
        return null;
      }
      MeaningOfFrom(headers[pos].value.text);
      r := FromSpec.Parse(headers[pos].value.text);
      if r != null {
        InternAt(pos, AsFrom(r));
      }
    }

    /** GetTo. */
    method GetTo() returns (r: To?)
      requires Valid()
      modifies repr
      ensures OnlyParsed()
      ensures r != null <==> First(View(), ToKind) >= 0 && View()[First(View(), ToKind)].content.PartyValue?
      ensures r != null ==> headers[First(View(), ToKind)].value == AsTo(r)
    {
      hide KindOf, Meaning, First, ParseVia, ParseRouteList, ParseParty, ParseCSeq;
      var pos := FindHeaderPos(ToKind);
      if pos == -1 {
        return null;
      }
      assert View()[pos].Kind() == ToKind && View()[pos] == headers[pos].View();
      if headers[pos].value.AsTo? {
        return headers[pos].value.to;
      }
      if !headers[pos].value.Raw? {
        return null;
      }
      MeaningOfTo(headers[pos].value.text);
      r := To.Parse(headers[pos].value.text);
      if r != null {
        InternAt(pos, AsTo(r));
      }
    }

    /** GetCSeq. */
    method GetCSeq() returns (r: CSeq?)
      requires Valid()
      modifies repr
      ensures OnlyParsed()
      ensures r != null <==> First(View(), CSeqKind) >= 0 && View()[First(View(), CSeqKind)].content.CSeqValue?
      ensures r != null ==> headers[First(View(), CSeqKind)].value == AsCSeq(r)
    {
      hide KindOf, Meaning, First, ParseVia, ParseRouteList, ParseParty, ParseCSeq;
      var pos := FindHeaderPos(CSeqKind);
      if pos == -1 {
        return null;
      }
      assert View()[pos].Kind() == CSeqKind && View()[pos] == headers[pos].View();
      if headers[pos].value.AsCSeq? {
        return headers[pos].value.cseq;
      }
      if !headers[pos].value.Raw? {
        return null;
      }
      MeaningOfCSeq(headers[pos].value.text);
      r := CSeq.Read(headers[pos].value.text);
      if r != null {
        InternAt(pos, AsCSeq(r));
      }
    }

    /** The lazy getter of a kind; a kind without one gives nothing. */
    method Read(k: Kind) returns (r: Option<HeaderValue>)
      requires Valid()
      modifies repr
      ensures OnlyParsed()
      ensures r.Some? <==> IsReadable(View(), k)
      ensures r.Some? ==> !r.value.Raw? && headers[First(View(), k)].value == r.value
    {
      hide KindOf, Meaning, First, HeaderValue.Content, HeaderValue.Suits;
      r := None;
      match k {
        case ViaKind =>
          var via := GetVia();
          if via != null { r := Some(AsVia(via)); }
        case RouteKind =>
          var route := GetRoute();
          if route != null { r := Some(AsRoute(route)); }
        case RecordRouteKind =>
          var recordRoute := GetRecordRoute();
          if recordRoute != null { r := Some(AsRecordRoute(recordRoute)); }
        case FromKind =>
          var from := GetFrom();
          if from != null { r := Some(AsFrom(from)); }
        case ToKind =>
          var to := GetTo();
          if to != null { r := Some(AsTo(to)); }
        case CSeqKind =>
          var cseq := GetCSeq();
          if cseq != null { r := Some(AsCSeq(cseq)); }
        case _ =>
      }
    }

    /** Any sequence of getter calls: nothing a reader sees changes, each call's success is decided by the message
        as it was, and calls of one getter return one object. */
    method ReadAll(ks: seq<Kind>) returns (rs: seq<Option<HeaderValue>>)
      requires Valid()
      modifies repr
      ensures OnlyParsed()
      ensures |rs| == |ks| && forall i :: 0 <= i < |ks| ==> (rs[i].Some? <==> IsReadable(old(View()), ks[i]))
      ensures forall i :: 0 <= i < |ks| && rs[i].Some? ==>
        First(View(), ks[i]) >= 0 && headers[First(View(), ks[i])].value == rs[i].value
      ensures forall i, j :: 0 <= i < j < |ks| && ks[i] == ks[j] ==> rs[i] == rs[j]
    {
      hide KindOf, Meaning, First, HeaderValue.Content, HeaderValue.Suits, IsReadable;
      rs := [];
      while |rs| < |ks|
        invariant |rs| <= |ks| && OnlyParsed()
        invariant forall i :: 0 <= i < |rs| ==> (rs[i].Some? <==> IsReadable(View(), ks[i]))
        invariant forall i :: 0 <= i < |rs| && rs[i].Some? ==>
          IsReadable(View(), ks[i]) && First(View(), ks[i]) >= 0
          && !rs[i].value.Raw? && headers[First(View(), ks[i])].value == rs[i].value
        decreases |ks| - |rs|
      {
        var r := Read(ks[|rs|]);
        ReadableIsThere(View(), ks[|rs|]);
        rs := rs + [r];
      }
    }

    /** ForEachViaParam as handleRawMessage uses it: the hosts of all entries, parsing every Via line on the way;
        unreadable lines are skipped. */
    method ViaParamHosts() returns (hosts: seq<string>)
      requires Valid()
      modifies repr
      ensures OnlyParsed()
      ensures hosts == ViaHosts(Flat(View(), ViaKind))
    {
      hide KindOf, Meaning, Flat, ViaHosts, IsSameHeader, Hosts;
      hosts := [];
      NoHosts();
      var i := 0;
      while i < |headers|
        invariant 0 <= i <= |headers|
        invariant OnlyParsed()
        invariant hosts == ViaHosts(Flat(View()[..i], ViaKind))
      {
        TidyMessage(this);
        HostsStep(View(), i);
        LookupByKind(headers[i].name, ViaKind);
        assert NameOf(ViaKind) == "Via";
        if IsSameHeader(headers[i].name, "Via") {
          var more := LineHosts(i);
          hosts := hosts + more;
        }
        i := i + 1;
      }
      assert View()[..i] == View();
    }

    /** The hosts of one Via line. */
    method LineHosts(i: nat) returns (hosts: seq<string>)
      requires Valid() && i < |headers| && KindOf(headers[i].name) == ViaKind
      modifies repr
      ensures OnlyParsed()
      ensures hosts == if View()[i].content.ViaList? then Hosts(View()[i].content.vias) else []
    {
      hide KindOf, Meaning, ParseVia;
      assert View()[i] == headers[i].View();
      if headers[i].value.AsVia? {
        return EntryHosts(headers[i].value.via);
      }
      hosts := [];
      if headers[i].value.Raw? {
        MeaningOfVia(headers[i].value.text);
        var via := Via.Parse(headers[i].value.text);
        if via != null {
          InternAt(i, AsVia(via));
          return EntryHosts(via);
        }
      }
    }

    /** RemoveHeader: the first header of the kind. */
    method RemoveHeader(k: Kind) returns (ok: bool)
      requires Valid() && k != OtherKind
      modifies this`headers
      ensures Valid() && ok == (First(old(View()), k) >= 0)
      ensures View() == if ok then Remove(old(View()), First(old(View()), k)) else old(View())
    {
      hide KindOf, First, Meaning, HeaderValue.Content, HeaderValue.Suits, Header.Valid;
      var pos := FindHeaderPos(k);
      if pos == -1 {
        return false;
      }
      ghost var before, was := View(), headers;
      headers := headers[..pos] + headers[pos + 1..];
      forall i | 0 <= i < |headers|
        ensures headers[i] == was[if i < pos then i else i + 1]
      {
      }
      assert View() == Remove(before, pos);
      return true;
    }

    /** Pops the first entry of a Via line that has others. */
    method ShrinkVia(ghost pos: nat, via: Via) returns (popped: ViaParam)
      requires Valid() && pos < |headers| && headers[pos].value == AsVia(via) && |via.params| > 1
      modifies via
      ensures Valid()
      ensures View() == old(View())[pos := HeaderView(headers[pos].name, ViaList(old(via.Value())[1..]))]
      ensures popped == old(via.params[0]) && popped.Value() == old(via.Value())[0]
    {
      hide KindOf, Meaning;
      ghost var before := View();
      ghost var entries := via.Value();
      popped := via.PopViaParam();
      assert via.Value() == entries[1..];
      assert forall i :: 0 <= i < |headers| && i != pos ==> headers[i].Valid() && headers[i].View() == before[i];
      assert headers[pos].Valid();
    }

    method DetachVia(ghost pos: nat, via: Via) returns (popped: Via)
      requires Valid() && pos < |headers| && headers[pos].value == AsVia(via) && |via.params| > 1
      modifies via
      ensures Valid() && popped.Valid() && popped.Value() == old(via.Value())[..1]
      ensures View() == old(View())[pos := HeaderView(headers[pos].name, ViaList(old(via.Value())[1..]))]
    {
      hide KindOf, Meaning, HeaderValue.Content, HeaderValue.Suits;
      ghost var entries := via.Value();
      var param := ShrinkVia(pos, via);
      ghost var after := View();
      popped := new Via();
      popped.AddViaParam(param);
      assert popped.Value() == entries[..1];
      assert forall i :: 0 <= i < |headers| ==> headers[i].Valid() && headers[i].View() == after[i];
    }

    /** Pops the first entry of a Route line that has others. */
    method ShrinkRoute(ghost pos: nat, route: Route)
      requires Valid() && pos < |headers| && headers[pos].value == AsRoute(route) && |route.routeParams| > 1
      modifies route
      ensures Valid()
      ensures View() == old(View())[pos := HeaderView(headers[pos].name, RouteList(old(route.routeParams)[1..]))]
    {
      hide KindOf, Meaning;
      ghost var before := View();
      var _ := route.PopRouteParam();
      assert forall i :: 0 <= i < |headers| && i != pos ==> headers[i].Valid() && headers[i].View() == before[i];
      assert headers[pos].Valid();
    }

    /** PopVia: one entry less in the first Via line, or the line less when it was the only one. Returns the
        entry in a Via of its own; null stands for the error result. */
    method PopVia() returns (popped: Via?)
      requires Valid()
      modifies repr
      ensures Valid() && fresh(repr - old(repr))
      ensures View() == PopFirst(old(View()), ViaKind)
      ensures request == old(request) && response == old(response) && body == old(body)
      ensures popped != null <==> First(old(View()), ViaKind) >= 0 && old(View())[First(old(View()), ViaKind)].content.ViaList?
      ensures popped != null ==>
        popped.Valid() && popped.Value() == old(View())[First(old(View()), ViaKind)].content.vias[..1]
    {
      hide KindOf, Meaning, First;
      var via := GetVia();
      if via == null {
        TidyMessage(this);
        return null;
      }
      ghost var pos := First(View(), ViaKind);
      ghost var before := View();
      assert before[pos] == headers[pos].View();
      if |via.params| > 1 {
        popped := DetachVia(pos, via);
        assert View() == PopFirst(before, ViaKind);
      } else {
        popped := via;
        var _ := RemoveHeader(ViaKind);
      }
    }

    /** PopRoute. */
    method PopRoute() returns (ok: bool)
      requires Valid()
      modifies repr
      ensures Valid() && fresh(repr - old(repr))
      ensures View() == PopFirst(old(View()), RouteKind)
      ensures request == old(request) && response == old(response) && body == old(body)
      ensures ok <==> First(old(View()), RouteKind) >= 0 && old(View())[First(old(View()), RouteKind)].content.RouteList?
    {
      hide KindOf, Meaning, First;
      var route := GetRoute();
      if route == null {
        TidyMessage(this);
        return false;
      }
      ghost var pos := First(View(), RouteKind);
      ghost var before := View();
      assert before[pos] == headers[pos].View();
      if |route.routeParams| > 1 {
        ShrinkRoute(pos, route);
        assert View() == PopFirst(before, RouteKind);
      } else {
        var _ := RemoveHeader(RouteKind);
      }
      return true;
    }

    /** Puts a new header line at a position. */
    method InsertHeader(pos: nat, name: string, v: HeaderValue)
      requires Valid() && pos <= |headers|
      requires v.Suits(KindOf(name)) && v.Objects() !! repr
      modifies this
      ensures Valid() && fresh(repr - old(repr) - v.Objects())
      ensures View() == Insert(old(View()), pos, HeaderView(name, old(v.Content(KindOf(name)))))
      ensures request == old(request) && response == old(response) && body == old(body)
    {
      hide KindOf, Meaning, HeaderValue.Content, HeaderValue.Suits;
      ghost var before := View();
      var h := new Header(name, v);
      InsertObject(pos, h);
      assert View() == Insert(before, pos, h.View());
    }

    method InsertObject(pos: nat, h: Header)
      requires Valid() && pos <= |headers| && h.Valid() && h.repr !! repr
      modifies this
      ensures Valid() && repr == old(repr) + h.repr
      ensures View() == Insert(old(View()), pos, h.View())
      ensures request == old(request) && response == old(response) && body == old(body)
    {
      hide KindOf, Meaning, HeaderValue.Content, HeaderValue.Suits, Header.Valid;
      ghost var before, was := View(), headers;
      headers := headers[..pos] + [h] + headers[pos..];
      repr := repr + h.repr;
      forall i | 0 <= i < |headers|
        ensures headers[i] == if i < pos then was[i] else if i == pos then h else was[i - 1]
      {
      }
      assert Valid();
      assert View() == Insert(before, pos, h.View());
    }

    /** AddVia: in front of the first Via line, or of everything when there is none. */
    method AddVia(via: Via)
      requires Valid() && via.Valid() && |via.params| == 1 && {via} + Elements(via.params) !! repr
      modifies this
      ensures Valid() && fresh(repr - old(repr) - {via} - Elements(via.params))
      ensures View() == PushVia(old(View()), old(via.params[0].Value()))
      ensures request == old(request) && response == old(response) && body == old(body)
    {
      hide KindOf, Meaning, First;
      NameHasKind(ViaKind);
      var pos := FindHeaderPos(ViaKind);
      assert via.Value() == [via.params[0].Value()];
      InsertHeader(if pos == -1 then 0 else pos, "Via", AsVia(via));
    }

    method FindRecordRoutePos() returns (pos: nat)
      requires Valid()
      ensures pos == RecordRoutePosition(View())
    {
      hide KindOf, First;
      var rr := FindHeaderPos(RecordRouteKind);
      if rr != -1 {
        return rr;
      }
      var from := FindHeaderPos(FromKind);
      var max := FindHeaderPos(MaxForwardsKind);
      if from != -1 && max != -1 {
        return if from < max then from else max;
      }
      return if from != -1 then from else if max != -1 then max else 0;
    }

    method AddRecordRoute(rr: RecordRoute)
      requires Valid() && |rr.recRoute| == 1 && rr !in repr
      modifies this
      ensures Valid() && fresh(repr - old(repr) - {rr})
      ensures View() == PushRecordRoute(old(View()), old(rr.recRoute[0]))
      ensures request == old(request) && response == old(response) && body == old(body)
    {
      hide KindOf, Meaning, First, RecordRoutePosition;
      NameHasKind(RecordRouteKind);
      var pos := FindRecordRoutePos();
      assert rr.recRoute == [rr.recRoute[0]];
      InsertHeader(pos, "Record-Route", AsRecordRoute(rr));
    }

    method RecordTop(ghost pos: nat, via: Via, peerAddr: string, peerPort: int)
      requires Valid() && pos < |headers| && headers[pos].value == AsVia(via)
      modifies via.params[0]
      ensures Valid()
      ensures View() == old(View())[pos := HeaderView(headers[pos].name,
                ViaList([Recorded(old(via.Value())[0], peerAddr, peerPort)] + old(via.Value())[1..]))]
    {
      hide KindOf, Meaning, Recorded;
      ghost var before := View();
      assert via.params[0] in headers[pos].value.Objects();
      via.RecordPeer(peerAddr, peerPort);
      assert forall i :: 0 <= i < |headers| && i != pos ==> headers[i].Valid() && headers[i].View() == before[i];
      assert headers[pos].Valid();
    }

    /** SetReceived: the top entry records the peer's address, and its port when it carries `rport`. */
    method SetReceived(peerAddr: string, peerPort: int) returns (ok: bool)
      requires Valid()
      modifies repr
      ensures Valid() && fresh(repr - old(repr))
      ensures View() == HeaderViews.SetReceived(old(View()), peerAddr, peerPort)
      ensures headers == old(headers)
      ensures request == old(request) && response == old(response) && body == old(body)
      ensures ok <==> First(old(View()), ViaKind) >= 0 && old(View())[First(old(View()), ViaKind)].content.ViaList?
    {
      hide KindOf, Meaning, First, Recorded;
      var via := GetVia();
      if via == null {
        return false;
      }
      ghost var pos := First(View(), ViaKind);
      ghost var before := View();
      assert before[pos] == headers[pos].View();
      assert via.params[0] in headers[pos].value.Objects();
      assert forall i :: 0 <= i < |headers| && i != pos ==> via.params[0] !in headers[i].repr;
      RecordTop(pos, via, peerAddr, peerPort);
      assert View() == HeaderViews.SetReceived(before, peerAddr, peerPort);
      return true;
    }
  }

  /** The first line of the kind has the content its getter parses. */
  predicate IsReadable(v: View, k: Kind) {
    First(v, k) >= 0
    && match k
       case ViaKind => v[First(v, k)].content.ViaList?
       case RouteKind => v[First(v, k)].content.RouteList?
       case RecordRouteKind => v[First(v, k)].content.RecordRouteList?
       case FromKind => v[First(v, k)].content.PartyValue?
       case ToKind => v[First(v, k)].content.PartyValue?
       case CSeqKind => v[First(v, k)].content.CSeqValue?
       case _ => false
  }

  lemma ReadableIsThere(v: View, k: Kind)
    ensures IsReadable(v, k) ==> First(v, k) >= 0
  {
  }

  lemma NoHosts()
    ensures ViaHosts(Flat([], ViaKind)) == []
  {
  }

  function EntryHosts(via: Via): seq<string>
    reads via, via.params
  {
    Hosts(via.Value())
  }

  /** The contents of a valid message fit its header names, and no list is empty. */
  lemma TidyMessage(m: Message)
    requires m.Valid()
    ensures Tidy(m.View())
  {
    hide KindOf, Meaning, Fits;
    forall i | 0 <= i < |m.headers|
      ensures Fits(m.View()[i].Kind(), m.View()[i].content)
    {
      SuitsFits(m.headers[i]);
    }
  }

  lemma SuitsFits(h: Header)
    requires h.Valid()
    ensures Fits(KindOf(h.name), h.View().content)
  {
    hide KindOf, Meaning;
    if h.value.Raw? {
      MeaningFits(KindOf(h.name), h.value.text);
    }
  }

  lemma MeaningFits(k: Kind, text: string)
    ensures Fits(k, Meaning(k, text))
  {
    hide Split, ParseViaParams, ParseViaParam, ParseEntry, Fields, ParseParty;
    if ParseVia(text).Some? {
      ParsedViaIsPrintable(text);
    }
  }

  lemma MeaningOfVia(text: string)
    ensures Meaning(ViaKind, text) == match ParseVia(text) case Some(vs) => ViaList(vs) case None => Plain(text)
  {
  }

  lemma MeaningOfRoute(text: string)
    ensures Meaning(RouteKind, text) == match ParseRouteList(text) case Some(rs) => RouteList(rs) case None => Plain(text)
  {
  }

  lemma MeaningOfRecordRoute(text: string)
    ensures Meaning(RecordRouteKind, text)
         == match ParseRouteList(text) case Some(rs) => RecordRouteList(rs) case None => Plain(text)
  {
  }

  lemma MeaningOfFrom(text: string)
    ensures Meaning(FromKind, text) == match ParseParty(text) case Some(p) => PartyValue(p) case None => Plain(text)
  {
  }

  lemma MeaningOfTo(text: string)
    ensures Meaning(ToKind, text) == match ParseParty(text) case Some(p) => PartyValue(p) case None => Plain(text)
  {
  }

  lemma MeaningOfCSeq(text: string)
    ensures Meaning(CSeqKind, text) == match ParseCSeq(text) case Some(c) => c case None => Plain(text)
  {
  }
}
