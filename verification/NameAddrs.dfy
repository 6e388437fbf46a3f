/** addr_spec.go, absolute_uri.go and name_addr.go: addresses with and without angle brackets. */
module NameAddrs {
  import opened Wrappers
  import opened Text
  import opened SipUris

  datatype AddrSpec = SipAddr(uri: Uri) | AbsoluteAddr(text: string)

  /** Never fails: what is no SIP URI is kept as an absolute URI. */
  function ParseAddrSpec(s: string): AddrSpec {
    match ParseUri(s)
    case Some(u) => SipAddr(u)
    case None => AbsoluteAddr(s)
  }

  function PrintAddrSpec(a: AddrSpec): string {
    match a
    case SipAddr(u) => PrintUri(u)
    case AbsoluteAddr(t) => t
  }

  predicate PrintableAddr(a: AddrSpec) {
    match a
    case SipAddr(u) => Printable(u)
    case AbsoluteAddr(t) => ParseUri(t).None?
  }

  /** The address reads back: always for an absolute URI, exactly for the stable SIP URIs otherwise. */
  predicate StableAddr(a: AddrSpec) {
    a.SipAddr? ==> Stable(a.uri)
  }

  lemma AddrSpecRoundTrip(a: AddrSpec)
    requires PrintableAddr(a)
    ensures ParseAddrSpec(PrintAddrSpec(a)) == a <==> StableAddr(a)
  {
    hide ParseUri, PrintUri, Printable, Stable;
    match a {
      case SipAddr(u) => UriRoundTrip(u);
      case AbsoluteAddr(t) =>
    }
  }

  /** Printing what was read brings in no character of its own but separators and digits. */
  lemma AddrReprintLacks(t: string, c: char)
    requires PlainChar(c) && c !in t
    ensures c !in PrintAddrSpec(ParseAddrSpec(t)) && PrintableAddr(ParseAddrSpec(t))
  {
    hide ParseUri, PrintUri, Printable, PlainChar;
    if ParseUri(t).Some? {
      ReprintLacks(t, c);
      ParsedIsPrintable(t);
    }
  }

  datatype NameAddr = NameAddr(display: string, addr: AddrSpec)

  function ParseNameAddr(s: string): Option<NameAddr> {
    var pos1 := IndexByte(s, '<');
    var pos2 := IndexByte(s, '>');
    if pos1 == -1 || pos2 == -1 || pos2 < pos1 then None
    else Some(NameAddr(s[..pos1], ParseAddrSpec(s[pos1 + 1..pos2])))
  }

  function PrintNameAddr(na: NameAddr): string {
    na.display + "<" + PrintAddrSpec(na.addr) + ">"
  }

  /** Name-addrs whose brackets are the only ones in their text. */
  predicate PrintableName(na: NameAddr) {
    && PrintableAddr(na.addr)
    && '<' !in na.display && '>' !in na.display
    && '>' !in PrintAddrSpec(na.addr)
  }

  /** The one place where a printed name-addr ends is its `>`, whatever follows. */
  lemma NameAddrEnds(na: NameAddr, rest: string)
    requires PrintableName(na)
    ensures var s := PrintNameAddr(na) + rest;
      IndexByte(s, '<') == |na.display| < |PrintNameAddr(na)| - 1
      && IndexByte(s, '>') == |PrintNameAddr(na)| - 1
      && s[..|PrintNameAddr(na)|] == PrintNameAddr(na) && s[|PrintNameAddr(na)|..] == rest
  {
    hide PrintAddrSpec, PrintableAddr;
    var addr := PrintAddrSpec(na.addr);
    var front := na.display + "<" + addr;
    assert PrintNameAddr(na) + rest == na.display + ['<'] + (addr + ">" + rest);
    IndexAt(na.display, '<', addr + ">" + rest);
    assert PrintNameAddr(na) + rest == front + ['>'] + rest;
    IndexAt(front, '>', rest);
  }

  /** Every name-addr that was parsed is in the domain of the round trip. */
  lemma ParsedNameIsPrintable(s: string)
    requires ParseNameAddr(s).Some?
    ensures PrintableName(ParseNameAddr(s).value)
  {
    hide PrintAddrSpec, ParseAddrSpec, PrintableAddr;
    var open, close := IndexByte(s, '<'), IndexByte(s, '>');
    assert '<' !in s[..open] && '>' !in s[..close];
    assert s[..open] == s[..close][..open];
    assert open < close by { assert s[open] == '<' && s[close] == '>'; }
    var text := s[open + 1..close];
    assert text == s[..close][open + 1..];
    AddrReprintLacks(text, '>');
  }

  /** Nor does its print hold a plain character that the text lacks. */
  lemma NameReprintLacks(s: string, c: char)
    requires ParseNameAddr(s).Some? && PlainChar(c) && c != '<' && c != '>' && c !in s
    ensures c !in PrintNameAddr(ParseNameAddr(s).value)
  {
    hide PrintAddrSpec, ParseAddrSpec, PrintableAddr, PlainChar;
    var open, close := IndexByte(s, '<'), IndexByte(s, '>');
    assert open < close by { assert s[open] == '<' && s[close] == '>'; }
    AddrReprintLacks(s[open + 1..close], c);
  }

  lemma NameAddrRoundTrip(na: NameAddr)
    requires PrintableName(na)
    ensures ParseNameAddr(PrintNameAddr(na)).Some?
    ensures ParseNameAddr(PrintNameAddr(na)) == Some(na) <==> StableAddr(na.addr)
  {
    hide PrintAddrSpec, ParseAddrSpec, PrintableAddr, StableAddr, IndexByte;
    NameAddrEnds(na, "");
    var s := PrintNameAddr(na);
    assert s + "" == s;
    assert s[..|na.display|] == na.display && s[|na.display| + 1..|s| - 1] == PrintAddrSpec(na.addr);
    AddrSpecRoundTrip(na.addr);
  }
}

/** from_spec.go and to.go: an address followed by `;`-parameters, in or without angle brackets. */
module Parties {
  import opened Wrappers
  import opened Text
  import opened KeyValues
  import opened SipUris
  import opened NameAddrs

  datatype Party =
    | Named(nameAddr: NameAddr, params: seq<KeyValue>)
    | Bare(addrSpec: AddrSpec, params: seq<KeyValue>)
  {
    function Address(): AddrSpec {
      if Named? then nameAddr.addr else addrSpec
    }
  }

  /** The parameters after the first `;` of a text; an empty remainder has none. */
  function TrailingParams(rest: string): Option<seq<KeyValue>> {
    match After(rest, ';')
    case None => Some([])
    case Some(ps) => if ps == "" then Some([]) else ParseGenericParams(Split(ps, ';'))
  }

  function ParseParty(s: string): Option<Party> {
    var open, close := IndexByte(s, '<'), IndexByte(s, '>');
    if open != -1 then
      if close == -1 || close < open then None
      else
        var na :- ParseNameAddr(s[..close + 1]);
        var ps :- TrailingParams(s[close + 1..]);
        Some(Named(na, ps))
    else
      var semi := IndexByte(s, ';');
      // The source hands the `;` to the address parser.
      var ps :- TrailingParams(s);
      Some(Bare(ParseAddrSpec(if semi == -1 then s else s[..semi + 1]), ps))
  }

  function PrintParty(p: Party): string {
    (match p case Named(na, _) => PrintNameAddr(na) case Bare(a, _) => PrintAddrSpec(a)) + PrintParams(p.params)
  }

  predicate PrintableParams(ps: seq<KeyValue>) {
    forall p :: p in ps ==> GenericParam(p)
  }

  lemma TrailingParamsRoundTrip(ps: seq<KeyValue>)
    requires PrintableParams(ps)
    ensures TrailingParams(PrintParams(ps)) == Some(ps) <==> NoEmptyItem(ps)
  {
    hide Split, ParseGenericParams, PrintPairs, IndexByte, Before, After, PrintPair;
    if ps == [] {
      CutAt("", ';', "");
    } else {
      assert forall p :: p in ps ==> GenericParam(p) && ';' !in p.key && ';' !in p.value;
      PrintParamsSplits(ps);
      var q := PrintParams(ps)[1..];
      assert PrintParams(ps) == "" + [';'] + q;
      CutAt("", ';', q);
      GenericParamsRoundTrip(ps);
      if q == "" {
        assert PrintParams(ps) == ";" + PrintPair(ps[0]) + PrintParams(ps[1..]);
        assert PrintPair(ps[0]) == "" && ps[0] in ps;
      }
    }
  }

  /** A bracketed From or To value reads back exactly when its address does and no item prints as nothing. */
  lemma NamedRoundTrip(na: NameAddr, ps: seq<KeyValue>)
    requires PrintableName(na) && PrintableParams(ps)
    ensures ParseParty(PrintParty(Named(na, ps))) == Some(Named(na, ps)) <==> StableAddr(na.addr) && NoEmptyItem(ps)
  {
    hide PrintNameAddr, ParseNameAddr, PrintableName, PrintableParams, StableAddr, IndexByte, TrailingParams, PrintParams, NoEmptyItem;
    NameAddrEnds(na, PrintParams(ps));
    NameAddrRoundTrip(na);
    TrailingParamsRoundTrip(ps);
  }

  /** Without brackets the text up to and including the first `;` is the address: an absolute URI that is
      followed by parameters keeps that `;`, so it reads back exactly when there are none. */
  lemma BareAbsoluteRoundTrip(text: string, ps: seq<KeyValue>)
    requires '<' !in text && ';' !in text && PrintableParams(ps)
    requires ParseUri(text).None? && ParseUri(text + ";").None?
    requires '<' !in PrintParams(ps)
    ensures var p := Bare(AbsoluteAddr(text), ps);
      (NoEmptyItem(ps) ==> ParseParty(PrintParty(p)).Some?) && (ParseParty(PrintParty(p)) == Some(p) <==> ps == [])
  {
    hide IndexByte, Before, After, Split, ParseGenericParams, PrintPairs, ParseUri, PrintableParams, PrintPair, TrailingParams;
    TrailingParamsRoundTrip(ps);
    var s := PrintParty(Bare(AbsoluteAddr(text), ps));
    assert s == text + PrintParams(ps);
    if ps != [] {
      var q := PrintParams(ps)[1..];
      assert PrintParams(ps)[0] == ';';
      assert s == text + [';'] + q && PrintParams(ps) == "" + [';'] + q;
      IndexAt(text, ';', q);
      TrailingAfterText(text, q);
      assert s[..|text| + 1] == text + ";";
    } else {
      assert s == text;
      TrailingOfNone(text);
    }
  }

  /** A received value of that form is read with the `;` in its address, and its print cannot be read at all. */
  lemma BareAbsoluteIsLost(text: string, ps: seq<KeyValue>)
    requires '<' !in text && ';' !in text && ParseUri(text + ";").None?
    requires ps != [] && PrintableParams(ps) && NoEmptyItem(ps) && '<' !in PrintParams(ps)
    ensures var p := Bare(AbsoluteAddr(text + ";"), ps);
      ParseParty(text + PrintParams(ps)) == Some(p) && ParseParty(PrintParty(p)) == None
  {
    hide PrintableParams, PrintParams, TrailingParams, ParseParty, ParseUri;
    var q := ParamsTail(ps);
    TrailingParamsRoundTrip(ps);
    ReadsWithSemicolon(text, PrintParams(ps), q);
    PrintIsUnreadable(text, PrintParams(ps), q);
    assert PrintParty(Bare(AbsoluteAddr(text + ";"), ps)) == text + ";" + PrintParams(ps);
  }

  lemma ReadsWithSemicolon(text: string, params: string, q: string)
    requires '<' !in text && ';' !in text && '<' !in q && params == "" + [';'] + q && ParseUri(text + ";").None?
    requires TrailingParams(params).Some?
    ensures ParseParty(text + params) == Some(Bare(AbsoluteAddr(text + ";"), TrailingParams(params).value))
  {
    hide TrailingParams, ParseParty, ParseUri;
    assert text + params == text + [';'] + q;
    BareReads(text, q);
    TrailingAfterText(text, q);
  }

  lemma PrintIsUnreadable(text: string, params: string, q: string)
    requires '<' !in text && ';' !in text && '<' !in q && params == "" + [';'] + q
    ensures ParseParty(text + ";" + params) == None
  {
    hide TrailingParams, ParseParty, ParseAddrSpec;
    assert text + ";" + params == text + [';'] + (";" + q);
    DoubledSemicolon(text, q);
    BareReads(text, ";" + q);
  }

  /** How a text without brackets is read whose first `;` follows `text`. */
  lemma BareReads(text: string, q: string)
    requires '<' !in text && ';' !in text && '<' !in q
    ensures var s := text + [';'] + q;
      ParseParty(s) == match TrailingParams(s) case None => None case Some(ps) => Some(Bare(ParseAddrSpec(text + ";"), ps))
  {
    hide TrailingParams, ParseAddrSpec, IndexByte, ParseNameAddr;
    var s := text + [';'] + q;
    IndexAt(text, ';', q);
    NoOpenBracket(s);
    assert s[..|text| + 1] == text + ";";
  }

  lemma NoOpenBracket(s: string)
    requires '<' !in s
    ensures IndexByte(s, '<') == -1
  {
    CutAt(s, '<', "");
  }

  lemma DoubledSemicolon(text: string, q: string)
    requires ';' !in text
    ensures TrailingParams(text + [';'] + (";" + q)) == None
  {
    hide IndexByte, Before, After, Split;
    CutAt(text, ';', ";" + q);
    SplitFirst("", ';', q);
    assert "" + [';'] + q == ";" + q;
  }

  /** A SIP URI without brackets and without parameters of its own, as the parser reads it, reads back with the tag
      and other parameters behind it exactly when it is stable and they do not run into URI headers. */
  lemma BareSipRoundTrip(u: Uri, ps: seq<KeyValue>)
    requires Printable(u) && u.parameters == [] && PrintableParams(ps)
    requires SemicolonOnlyLast(PrintUri(u)) && '<' !in PrintUri(u) && '<' !in PrintParams(ps)
    ensures ParseParty(PrintParty(Bare(SipAddr(u), ps))) == Some(Bare(SipAddr(u), ps))
       <==> Stable(u) && (u.headers == [] || ps == []) && NoEmptyItem(ps)
  {
    if ps == [] {
      BareSipAlone(u);
    } else {
      BareSipWithParams(u, ps);
    }
  }

  lemma BareSipAlone(u: Uri)
    requires Printable(u) && SemicolonOnlyLast(PrintUri(u)) && '<' !in PrintUri(u)
    ensures ParseParty(PrintParty(Bare(SipAddr(u), []))) == Some(Bare(SipAddr(u), [])) <==> Stable(u)
  {
    hide IndexByte, ParseUri, TrailingParams, Printable, PrintUri, Stable, SemicolonOnlyLast, ParseNameAddr;
    UriRoundTrip(u);
    var text := PrintUri(u);
    assert PrintParty(Bare(SipAddr(u), [])) == text;
    NoOpenBracket(text);
    if ';' !in text {
      TrailingOfNone(text);
    } else {
      EndsWithSemicolon(text);
      assert text[..|text|] == text;
    }
  }

  lemma BareSipWithParams(u: Uri, ps: seq<KeyValue>)
    requires Printable(u) && u.parameters == [] && PrintableParams(ps) && ps != []
    requires SemicolonOnlyLast(PrintUri(u)) && '<' !in PrintUri(u) && '<' !in PrintParams(ps)
    ensures ParseParty(PrintParty(Bare(SipAddr(u), ps))) == Some(Bare(SipAddr(u), ps))
       <==> Stable(u) && u.headers == [] && NoEmptyItem(ps)
  {
    hide ParseUri, PrintableParams, PrintPair, PrintParams, TrailingParams, Printable, PrintUri, Stable, ParseParty,
         SemicolonOnlyLast, ParseAddrSpec;
    BareUriEnds(u);
    var q := ParamsTail(ps);
    assert PrintParty(Bare(SipAddr(u), ps)) == PrintUri(u) + PrintParams(ps);
    if ';' !in PrintUri(u) {
      PlainThenParams(u, ps, q);
    } else {
      SemicolonThenParams(PrintUri(u), PrintParams(ps), q);
    }
  }

  lemma ParamsTail(ps: seq<KeyValue>) returns (q: string)
    requires ps != [] && '<' !in PrintParams(ps)
    ensures PrintParams(ps) == "" + [';'] + q && '<' !in q
  {
    q := PrintParams(ps)[1..];
    assert PrintParams(ps)[0] == ';';
  }

  lemma PlainThenParams(u: Uri, ps: seq<KeyValue>, q: string)
    requires ';' !in PrintUri(u) && '<' !in PrintUri(u) && '<' !in q
    requires PrintableParams(ps) && PrintParams(ps) == "" + [';'] + q
    ensures ParseParty(PrintUri(u) + PrintParams(ps)) == Some(Bare(SipAddr(u), ps))
       <==> ParseUri(PrintUri(u) + ";") == Some(u) && NoEmptyItem(ps)
  {
    hide ParseUri, PrintableParams, PrintParams, TrailingParams, PrintUri, ParseParty;
    assert PrintUri(u) + PrintParams(ps) == PrintUri(u) + [';'] + q;
    BareReads(PrintUri(u), q);
    TrailingAfterText(PrintUri(u), q);
    TrailingParamsRoundTrip(ps);
  }

  lemma SemicolonThenParams(text: string, params: string, q: string)
    requires ';' in text && SemicolonOnlyLast(text) && '<' !in text && '<' !in q
    requires params == "" + [';'] + q
    ensures ParseParty(text + params) == None
  {
    hide TrailingParams, ParseParty, SemicolonOnlyLast, ParseAddrSpec;
    var front := text[..|text| - 1];
    EndsWithSemicolon(text);
    assert text + params == front + [';'] + (";" + q);
    DoubledSemicolon(front, q);
    BareReads(front, ";" + q);
  }

  lemma EndsWithSemicolon(text: string)
    requires SemicolonOnlyLast(text) && ';' in text
    ensures text == text[..|text| - 1] + [';'] && ';' !in text[..|text| - 1]
    ensures TrailingParams(text) == Some([]) && IndexByte(text, ';') == |text| - 1
  {
    hide TrailingParams, IndexByte, SemicolonOnlyLast;
    FrontAndSemicolon(text);
    LastSemicolon(text[..|text| - 1]);
  }

  lemma FrontAndSemicolon(text: string)
    requires SemicolonOnlyLast(text) && ';' in text
    ensures var front := text[..|text| - 1];
      text == front + [';'] && text == front + [';'] + "" && ';' !in front
  {
    var front, last := text[..|text| - 1], text[|text| - 1];
    assert text == front + [last];
    LastOne(front, last, ';');
    assert front + [';'] + "" == front + [';'];
  }

  lemma LastOne(front: string, last: char, c: char)
    requires c in front + [last] && c !in front
    ensures last == c
  {
  }

  lemma LastSemicolon(front: string)
    requires ';' !in front
    ensures TrailingParams(front + [';'] + "") == Some([]) && IndexByte(front + [';'] + "", ';') == |front|
  {
    hide IndexByte, Before, After, Split, ParseGenericParams;
    IndexAt(front, ';', "");
    CutAt(front, ';', "");
  }

  /** A `;` behind the text starts an empty parameter list, which reads as none, or ends up in the last header. */
  lemma BareUriEnds(u: Uri)
    requires Printable(u) && u.parameters == []
    ensures u.headers == [] ==> ';' !in PrintUri(u)
    ensures ParseUri(PrintUri(u) + ";") == Some(u) <==> Stable(u) && u.headers == []
  {
    hide IndexByte, Before, After, Split, Itoa, ParseUri, Printable, Stable, HeadersOf, ParametersOf, PrintHeaders, UserOf,
         PasswordOf, PortOf, InfoOf, HostPortOf, PrintAddress;
    var a := PrintAddress(u);
    AddressLacks(u);
    var s := a + PrintHeaders(u.headers);
    assert PrintUri(u) == u.scheme + ":" + s;
    assert u.scheme + ":" + (s + ";") == PrintUri(u) + ";";
    ParseUriSplits(u.scheme, s);
    ParseUriSplits(u.scheme, s + ";");
    UriRoundTrip(u);
    if u.headers == [] {
      NoHeadersNoQuery(a);
      assert s == a;
    } else {
      QueryTakesRest(a, u.headers, ";");
    }
  }

  lemma AddressLacks(u: Uri)
    requires Printable(u)
    ensures (u.scheme == "sip" || u.scheme == "sips")
    ensures ';' !in PrintAddress(u) && '?' !in PrintAddress(u)
    ensures forall h :: h in u.headers ==> PrintableHeader(h)
  {
    hide ParseAddress, Itoa, IndexByte, Before, After;
    if u.user == "" {
      AddressWithoutUser(u);
    } else {
      AddressWithUser(u);
    }
  }

  lemma NoHeadersNoQuery(a: string)
    requires ';' !in a && '?' !in a
    ensures PrintHeaders([]) == ""
    ensures forall scheme :: ParseBody(scheme, a + ";") == ParseBody(scheme, a)
  {
    hide IndexByte, Before, After, Split, ParseAddress;
    CutAt(a, '?', "");
    CutAt(a + ";", '?', "");
    CutAt(a, ';', "");
    assert a + [';'] + "" == a + ";";
    SplitFirst("", ';', "");
  }

  /** A `<` without a `>` behind it is an error. */
  lemma UnpairedBracket(a: string, b: string)
    requires '<' !in a && '>' !in b
    ensures ParseParty(a + ['<'] + b) == None && ParseNameAddr(a + ['<'] + b) == None
  {
    var s := a + ['<'] + b;
    IndexAt(a, '<', b);
    assert forall i :: |a| < i < |s| ==> s[i] == b[i - |a| - 1] && b[i - |a| - 1] in b;
  }

  // ---- received values ----

  /** The values that come back from their own print. */
  predicate Returns(p: Party) {
    match p
    case Named(na, ps) => StableAddr(na.addr) && NoEmptyItem(ps)
    case Bare(SipAddr(u), ps) => Stable(u) && (u.headers == [] || ps == []) && NoEmptyItem(ps)
    case Bare(AbsoluteAddr(_), ps) => ps == []
  }

  /** Whatever From or To value was received, its print is read as the same value exactly for those. */
  lemma ReceivedPartyReturns(s: string)
    requires ParseParty(s).Some?
    ensures ParseParty(PrintParty(ParseParty(s).value)) == ParseParty(s) <==> Returns(ParseParty(s).value)
  {
    hide ParseParty, PrintParty, Returns;
    match ParseParty(s).value {
      case Named(_, _) => ReceivedNamed(s);
      case Bare(SipAddr(_), _) => ReceivedBareSip(s);
      case Bare(AbsoluteAddr(_), _) => ReceivedBareAbsolute(s);
    }
  }

  lemma TrailingAreGeneric(rest: string)
    requires TrailingParams(rest).Some?
    ensures PrintableParams(TrailingParams(rest).value)
  {
    hide Split, IndexByte, Before, ParseGenericParams;
    if ';' in rest && After(rest, ';').value != "" {
      var ps := After(rest, ';').value;
      SplitLacks(ps, ';', ';');
      ParsedParamsAreGeneric(Split(ps, ';'));
    }
  }

  lemma TrailingLack(rest: string, c: char)
    requires TrailingParams(rest).Some? && c !in rest && c != ';' && c != '='
    ensures c !in PrintParams(TrailingParams(rest).value)
  {
    hide Split, IndexByte, Before, After, ParseGenericParams, PrintParams;
    if ';' in rest && After(rest, ';').value != "" {
      var ps := After(rest, ';').value;
      CutLacks(rest, ';', c);
      SplitLacks(ps, ';', c);
      ParsedParamsLack(Split(ps, ';'), c);
    }
    PrintParamsAvoids(TrailingParams(rest).value, c);
  }

  lemma ReceivedNamed(s: string)
    requires ParseParty(s).Some? && ParseParty(s).value.Named?
    ensures ParseParty(PrintParty(ParseParty(s).value)) == ParseParty(s) <==> Returns(ParseParty(s).value)
  {
    hide ParseNameAddr, TrailingParams, IndexByte, PrintableName, PrintableParams, PrintParty, StableAddr, NoEmptyItem;
    var p := ParseParty(s).value;
    var close := IndexByte(s, '>');
    ParsedNameIsPrintable(s[..close + 1]);
    TrailingAreGeneric(s[close + 1..]);
    hide ParseParty;
    NamedRoundTrip(p.nameAddr, p.params);
  }

  /** The parts of a value without brackets. */
  lemma BareParts(s: string)
    requires ParseParty(s).Some? && ParseParty(s).value.Bare?
    ensures '<' !in s && TrailingParams(s) == Some(ParseParty(s).value.params)
    ensures var t := if ';' in s then Before(s, ';') + ";" else s;
      ParseParty(s).value.addrSpec == ParseAddrSpec(t) && t <= s
  {
    hide TrailingParams, ParseNameAddr, ParseAddrSpec;
    if ';' in s {
      assert s[..IndexByte(s, ';') + 1] == Before(s, ';') + ";";
    }
  }

  lemma AddressTextLacks(s: string)
    requires '<' !in s
    ensures var t := if ';' in s then Before(s, ';') + ";" else s;
      SemicolonOnlyLast(t) && '<' !in t
  {
    hide IndexByte, After;
    CutLacks(s, ';', '<');
    if ';' in s {
      assert forall i :: 0 <= i < |Before(s, ';')| ==> Before(s, ';')[i] in Before(s, ';');
    } else {
      assert forall i :: 0 <= i < |s| ==> s[i] in s;
    }
  }

  lemma ReceivedBareSip(s: string)
    requires ParseParty(s).Some? && ParseParty(s).value.Bare? && ParseParty(s).value.addrSpec.SipAddr?
    ensures ParseParty(PrintParty(ParseParty(s).value)) == ParseParty(s) <==> Returns(ParseParty(s).value)
  {
    hide ParseParty, PrintParty, TrailingParams, ParseUri, PrintUri, Printable, Stable, SemicolonOnlyLast, PrintableParams,
         PrintParams, NoEmptyItem, Before, PlainChar;
    var p := ParseParty(s).value;
    var t := if ';' in s then Before(s, ';') + ";" else s;
    BareParts(s);
    AddressTextLacks(s);
    TrailingAreGeneric(s);
    TrailingLack(s, '<');
    SemicolonReprint(t);
    ParsedIsPrintable(t);
    BracketIsPlain();
    ReprintLacks(t, '<');
    BareSipRoundTrip(p.addrSpec.uri, p.params);
  }

  lemma BracketIsPlain()
    ensures PlainChar('<')
  {
  }

  lemma ReceivedBareAbsolute(s: string)
    requires ParseParty(s).Some? && ParseParty(s).value.Bare? && ParseParty(s).value.addrSpec.AbsoluteAddr?
    ensures ParseParty(PrintParty(ParseParty(s).value)) == ParseParty(s) <==> Returns(ParseParty(s).value)
  {
    hide ParseParty, TrailingParams, ParseUri, PrintParams;
    var p := ParseParty(s).value;
    BareParts(s);
    TrailingLack(s, '<');
    CutLacks(s, ';', '<');
    NoParamsPrint();
    if ';' !in s {
      TrailingOfNone(s);
      assert PrintParty(p) == s;
    } else if p.params == [] {
      var front := Before(s, ';');
      assert PrintParty(p) == front + [';'] + "";
      LastSemicolon(front);
      BareReads(front, "");
    } else {
      var q := ParamsTail(p.params);
      PrintIsUnreadable(Before(s, ';'), PrintParams(p.params), q);
    }
  }

  lemma NoParamsPrint()
    ensures PrintParams([]) == ""
  {
  }

  lemma TrailingAfterText(text: string, q: string)
    requires ';' !in text
    ensures TrailingParams(text + [';'] + q) == TrailingParams("" + [';'] + q)
  {
    hide Before, After, Split, ParseGenericParams;
    CutAt(text, ';', q);
    CutAt("", ';', q);
  }

  lemma TrailingOfNone(text: string)
    requires ';' !in text
    ensures TrailingParams(text) == Some([]) && IndexByte(text, ';') == -1
  {
    hide Before, Split, ParseGenericParams;
    CutAt(text, ';', "");
  }

  /** FromSpec and To hold the same fields; their printers and parsers differ only in error texts. */
  class FromSpec {
    var nameAddr: Option<NameAddr>
    var addrSpec: Option<AddrSpec>
    var params: seq<KeyValue>

    function Value(): Party
      reads this
    {
      match nameAddr
      case Some(na) => Named(na, params)
      case None => Bare(if addrSpec.Some? then addrSpec.value else AbsoluteAddr(""), params)
    }

    constructor ()
      ensures nameAddr == None && addrSpec == None && params == []
    {
      nameAddr, addrSpec, params := None, None, [];
    }

    /** ParseFromSpec: null stands for the error result. */
    static method Parse(s: string) returns (r: FromSpec?)
      ensures r == null <==> ParseParty(s).None?
      ensures r != null ==> fresh(r) && ParseParty(s) == Some(r.Value())
    {
      hide IndexByte, ParseNameAddr, ParseAddrSpec, TrailingParams;
      var from := new FromSpec();
      var open := IndexByte(s, '<');
      var close := -1;
      if open != -1 {
        close := IndexByte(s, '>');
        if close == -1 || close < open {
          return null;
        }
      }
      var rest;
      if close != -1 {
        from.nameAddr := ParseNameAddr(s[..close + 1]);
        if from.nameAddr.None? {
          return null;
        }
        rest := s[close + 1..];
      } else {
        var pos := IndexByte(s, ';');
        from.addrSpec := Some(ParseAddrSpec(if pos == -1 then s else s[..pos + 1]));
        rest := s;
      }
      var ps := CollectTrailing(rest);
      if ps.None? {
        return null;
      }
      from.params := ps.value;
      return from;
    }

    static method CollectTrailing(rest: string) returns (r: Option<seq<KeyValue>>)
      ensures r == TrailingParams(rest)
    {
      hide IndexByte, ParseGenericParams, Split, After, Before;
      CutByIndex(rest, ';');
      var semi := IndexByte(rest, ';');
      var text := if semi == -1 then "" else rest[semi + 1..];
      if |text| == 0 {
        return Some([]);
      }
      r := CollectParams(text);
    }

    method String() returns (s: string)
      ensures s == PrintParty(Value())
    {
      hide PrintNameAddr, PrintAddrSpec, PrintParams;
      EmptyAddrPrints();
      s := "";
      if nameAddr.Some? {
        s := PrintNameAddr(nameAddr.value);
      } else if addrSpec.Some? {
        s := PrintAddrSpec(addrSpec.value);
      }
      s := AppendParams(s, params);
    }

    /** Changes the tag in place, or puts a new one first. */
    method SetTag(tag: string)
      modifies this
      ensures Lookup(params, "tag") == Some(tag)
      ensures Value().Address() == old(Value().Address())
      ensures Lookup(old(params), "tag").Some? ==> params == Store(old(params), "tag", tag)
      ensures Lookup(old(params), "tag").None? ==> params == [KeyValue("tag", tag)] + old(params)
    {
      var i := 0;
      while i < |params|
        invariant 0 <= i <= |params|
        invariant params == old(params) && nameAddr == old(nameAddr) && addrSpec == old(addrSpec)
        invariant forall j :: 0 <= j < i ==> params[j].key != "tag"
      {
        if params[i].key == "tag" {
          StoreSplit(params, i, "tag", tag);
          LookupStore(params, "tag", tag, "tag");
          params := params[i := KeyValue("tag", tag)];
          assert params == Store(old(params), "tag", tag);
          return;
        }
        i := i + 1;
      }
      StoreSplit(params, i, "tag", tag);
      params := [KeyValue("tag", tag)] + params;
    }
  }

  lemma EmptyAddrPrints()
    ensures PrintAddrSpec(AbsoluteAddr("")) == ""
  {
  }

  class To {
    var nameAddr: Option<NameAddr>
    var addrSpec: Option<AddrSpec>
    var params: seq<KeyValue>

    function Value(): Party
      reads this
    {
      match nameAddr
      case Some(na) => Named(na, params)
      case None => Bare(if addrSpec.Some? then addrSpec.value else AbsoluteAddr(""), params)
    }

    constructor ()
      ensures nameAddr == None && addrSpec == None && params == []
    {
      nameAddr, addrSpec, params := None, None, [];
    }

    static method Parse(s: string) returns (r: To?)
      ensures r == null <==> ParseParty(s).None?
      ensures r != null ==> fresh(r) && ParseParty(s) == Some(r.Value())
    {
      var from := FromSpec.Parse(s);
      if from == null {
        return null;
      }
      r := new To();
      r.nameAddr, r.addrSpec, r.params := from.nameAddr, from.addrSpec, from.params;
    }

    method String() returns (s: string)
      ensures s == PrintParty(Value())
    {
      hide PrintNameAddr, PrintAddrSpec, PrintParams;
      EmptyAddrPrints();
      s := "";
      if nameAddr.Some? {
        s := PrintNameAddr(nameAddr.value);
      } else if addrSpec.Some? {
        s := PrintAddrSpec(addrSpec.value);
      }
      s := AppendParams(s, params);
    }

    method AddParam(name: string, value: string)
      modifies this
      ensures Value() == old(Value()).(params := Store(old(params), name, value))
    {
      params := StoreInPlace(params, name, value);
    }
  }
}
