/** sip_uri.go: SIP URIs as values, the functions that say what their text means, and the class
    whose fields the parser fills step by step. */
module SipUris {
  import opened Wrappers
  import opened Text
  import opened KeyValues

  datatype Uri = Uri(
    scheme: string, user: string, password: string, host: string, port: int,
    parameters: seq<KeyValue>, headers: seq<KeyValue>)

  // ---- meaning of a text ----

  /** Parameters up to the first item that is neither `lr` nor `name=value`. */
  function ParseParameters(items: seq<string>): seq<KeyValue> {
    if items == [] then []
    else if '=' in items[0] || items[0] == "lr" then [ParsePair(items[0])] + ParseParameters(items[1..])
    else []
  }

  /** Headers up to the first item without `=`. */
  function ParseHeaders(items: seq<string>): seq<KeyValue> {
    if items == [] then []
    else if '=' in items[0] then [ParsePair(items[0])] + ParseHeaders(items[1..])
    else []
  }

  function UserOf(info: string): string {
    Before(info, ':')
  }

  function PasswordOf(info: string): string {
    match After(info, ':')
    case None => ""
    case Some(p) => p
  }

  /** A port that is no number counts as absent; one out of range is clamped. */
  function PortOf(hostPort: string): int {
    match After(hostPort, ':')
    case None => 0
    case Some(p) => ParseInt(p, TWO_63).Ignored()
  }

  /** The parameters in the text before any `?`. */
  function ParametersOf(front: string): seq<KeyValue> {
    match After(front, ';')
    case None => []
    case Some(ps) => ParseParameters(Split(ps, ';'))
  }

  function HeadersOf(s: string): seq<KeyValue> {
    match After(s, '?')
    case None => []
    case Some(hs) => ParseHeaders(Split(hs, '&'))
  }

  /** The text before the first `@`; empty when there is none. */
  function InfoOf(address: string): string {
    if '@' in address then Before(address, '@') else ""
  }

  function HostPortOf(address: string): string {
    match After(address, '@')
    case None => address
    case Some(h) => h
  }

  function ParseAddress(scheme: string, address: string, ps: seq<KeyValue>, hs: seq<KeyValue>): Uri {
    Uri(scheme, UserOf(InfoOf(address)), PasswordOf(InfoOf(address)),
        Before(HostPortOf(address), ':'), PortOf(HostPortOf(address)), ps, hs)
  }

  function ParseBody(scheme: string, s: string): Uri {
    var front := Before(s, '?');
    ParseAddress(scheme, Before(front, ';'), ParametersOf(front), HeadersOf(s))
  }

  function ParseUri(text: string): Option<Uri> {
    if "sip:" <= text then Some(ParseBody("sip", text[4..]))
    else if "sips:" <= text then Some(ParseBody("sips", text[5..]))
    else None
  }

  // ---- printing ----

  function PrintAddress(u: Uri): string {
    (if u.user == "" then ""
     else if u.password == "" then u.user + "@"
     else u.user + ":" + u.password + "@") + PrintHostPort(u)
  }

  function PrintHostPort(u: Uri): string {
    if u.port != 0 then u.host + ":" + Itoa(u.port) else u.host
  }

  function PrintHeader(h: KeyValue): string {
    h.key + "=" + h.value
  }

  function PrintHeaderItems(hs: seq<KeyValue>): (r: seq<string>)
    ensures |r| == |hs|
    ensures forall i :: 0 <= i < |hs| ==> r[i] == PrintHeader(hs[i])
  {
    seq(|hs|, i requires 0 <= i < |hs| => PrintHeader(hs[i]))
  }

  function PrintHeaders(hs: seq<KeyValue>): string {
    if hs == [] then "" else "?" + Join(PrintHeaderItems(hs), '&')
  }

  function PrintPart(u: Uri, withParams: bool, withHeaders: bool): string {
    u.scheme + ":" + PrintAddress(u)
    + (if withParams then PrintParams(u.parameters) else "")
    + (if withHeaders then PrintHeaders(u.headers) else "")
  }

  function PrintUri(u: Uri): string {
    PrintPart(u, true, true)
  }

  // ---- round trip ----

  /** What every parsed URI satisfies (ParsedIsPrintable). */
  predicate Printable(u: Uri) {
    && (u.scheme == "sip" || u.scheme == "sips")
    && PrintableAddress(u)
    && (forall p :: p in u.parameters ==> PrintableParameter(p))
    && (forall h :: h in u.headers ==> PrintableHeader(h))
  }

  predicate PrintableAddress(u: Uri) {
    && '?' !in u.user && ';' !in u.user && '@' !in u.user && ':' !in u.user
    && '?' !in u.password && ';' !in u.password && '@' !in u.password
    && '?' !in u.host && ';' !in u.host && ':' !in u.host
    && IsInt64(u.port)
  }

  predicate PrintableParameter(p: KeyValue) {
    '?' !in p.key && ';' !in p.key && '=' !in p.key && '?' !in p.value && ';' !in p.value
  }

  predicate PrintableHeader(h: KeyValue) {
    '&' !in h.key && '=' !in h.key && '&' !in h.value
  }

  /** The flag parameter `lr` is the only one the parser accepts without a value. */
  predicate Readable(p: KeyValue) {
    p.value == "" ==> p.key == "lr"
  }

  /** A password or an `@` in the host needs a user in front of it, and only `lr` may have no value. */
  predicate Stable(u: Uri) {
    && (u.user == "" ==> u.password == "" && '@' !in u.host)
    && (forall p :: p in u.parameters ==> Readable(p))
  }

  lemma ItemReads(p: KeyValue)
    requires '=' !in p.key
    ensures ParsePair(PrintPair(p)) == p
    ensures '=' in PrintPair(p) || PrintPair(p) == "lr" <==> Readable(p)
  {
    PairRoundTrip(p);
  }

  lemma {:induction false} ParametersRoundTrip(ps: seq<KeyValue>)
    requires forall p :: p in ps ==> '=' !in p.key
    ensures |ParseParameters(PrintPairs(ps))| <= |ps|
    ensures ParseParameters(PrintPairs(ps)) == ps <==> forall p :: p in ps ==> Readable(p)
  {
    hide ParsePair, PrintPair, Readable;
    if ps != [] {
      var p, rest := ps[0], ps[1..];
      assert p in ps;
      assert forall q :: q in rest ==> q in ps;
      ItemReads(p);
      ParametersRoundTrip(rest);
      assert PrintPairs(ps)[1..] == PrintPairs(rest);
      assert ps == [p] + rest;
      if Readable(p) {
        assert ParseParameters(PrintPairs(ps)) == [p] + ParseParameters(PrintPairs(rest));
        assert forall q :: q in ps <==> q == p || q in rest;
      }
    }
  }

  lemma HeaderReads(h: KeyValue)
    requires '=' !in h.key
    ensures '=' in PrintHeader(h) && ParsePair(PrintHeader(h)) == h
  {
    CutAt(h.key, '=', h.value);
  }

  lemma {:induction false} HeadersRoundTrip(hs: seq<KeyValue>)
    requires forall h :: h in hs ==> '=' !in h.key
    ensures ParseHeaders(PrintHeaderItems(hs)) == hs
  {
    hide ParsePair, PrintHeader;
    if hs != [] {
      var h := hs[0];
      assert h in hs;
      HeaderReads(h);
      assert forall q :: q in hs[1..] ==> q in hs;
      HeadersRoundTrip(hs[1..]);
      assert PrintHeaderItems(hs)[1..] == PrintHeaderItems(hs[1..]);
      assert hs == [h] + hs[1..];
    }
  }

  /** The query part comes back unchanged. */
  lemma QueryRoundTrip(front: string, hs: seq<KeyValue>)
    requires '?' !in front
    requires forall h :: h in hs ==> PrintableHeader(h)
    ensures Before(front + PrintHeaders(hs), '?') == front && HeadersOf(front + PrintHeaders(hs)) == hs
  {
    hide IndexByte, Before, After, Split, ParseHeaders, Join;
    if hs == [] {
      CutAt(front, '?', "");
      assert front + PrintHeaders(hs) == front;
    } else {
      var items := PrintHeaderItems(hs);
      var q := Join(items, '&');
      CutAt(front, '?', q);
      assert front + PrintHeaders(hs) == front + ['?'] + q;
      forall t | t in items
        ensures '&' !in t
      {
        var i :| 0 <= i < |hs| && t == PrintHeader(hs[i]);
        assert hs[i] in hs;
      }
      SplitJoin(items, '&');
      HeadersRoundTrip(hs);
    }
  }

  function AppendToLast(hs: seq<KeyValue>, text: string): seq<KeyValue>
    requires hs != []
  {
    hs[..|hs| - 1] + [hs[|hs| - 1].(value := hs[|hs| - 1].value + text)]
  }

  lemma {:induction false} AppendedItems(hs: seq<KeyValue>, text: string)
    requires hs != []
    ensures Join(PrintHeaderItems(AppendToLast(hs, text)), '&') == Join(PrintHeaderItems(hs), '&') + text
  {
    var items, more := PrintHeaderItems(hs), PrintHeaderItems(AppendToLast(hs, text));
    if |hs| == 1 {
      assert more[0] == items[0] + text;
    } else {
      AppendedItems(hs[1..], text);
      assert AppendToLast(hs, text)[1..] == AppendToLast(hs[1..], text);
      assert items[1..] == PrintHeaderItems(hs[1..]) && more[1..] == PrintHeaderItems(AppendToLast(hs[1..], text));
      assert more[0] == items[0];
      var x, y := items[0] + ['&'], Join(items[1..], '&');
      assert x + (y + text) == (x + y) + text;
    }
  }

  /** Text after the query becomes part of the last header. */
  lemma QueryTakesRest(front: string, hs: seq<KeyValue>, text: string)
    requires '?' !in front && hs != [] && text != "" && '&' !in text
    requires forall h :: h in hs ==> PrintableHeader(h)
    ensures HeadersOf(front + PrintHeaders(hs) + text) != hs
  {
    hide HeadersOf, PrintableHeader;
    var more := AppendToLast(hs, text);
    AppendedItems(hs, text);
    assert front + PrintHeaders(hs) + text == front + PrintHeaders(more);
    forall h | h in more
      ensures PrintableHeader(h)
    {
      var last := hs[|hs| - 1];
      assert last in hs;
      AppendedHeader(last, text);
      if h != last.(value := last.value + text) {
        assert h in hs[..|hs| - 1];
      }
    }
    QueryRoundTrip(front, more);
    assert |more[|hs| - 1].value| > |hs[|hs| - 1].value|;
  }

  lemma AppendedHeader(h: KeyValue, text: string)
    requires PrintableHeader(h) && '&' !in text
    ensures PrintableHeader(h.(value := h.value + text))
  {
  }

  /** The parameter part comes back unchanged exactly when all its items are readable. */
  lemma ParameterPartRoundTrip(address: string, ps: seq<KeyValue>)
    requires ';' !in address
    requires forall p :: p in ps ==> PrintableParameter(p)
    ensures Before(address + PrintParams(ps), ';') == address
    ensures ParametersOf(address + PrintParams(ps)) == ps <==> forall p :: p in ps ==> Readable(p)
  {
    hide IndexByte, Before, After, Split, ParseParameters, PrintPairs, Readable, PrintParams, PrintableParameter;
    PrintParamsJoins(ps);
    if ps == [] {
      CutAt(address, ';', "");
      assert address + PrintParams(ps) == address;
    } else {
      forall p | p in ps
        ensures '=' !in p.key && ';' !in p.key && ';' !in p.value
      {
        PrintableParameterLacks(p);
      }
      PrintParamsSplits(ps);
      var q := PrintParams(ps)[1..];
      CutAt(address, ';', q);
      assert address + PrintParams(ps) == address + [';'] + q;
      ParametersRoundTrip(ps);
    }
  }

  lemma PrintableParameterLacks(p: KeyValue)
    requires PrintableParameter(p)
    ensures '=' !in p.key && ';' !in p.key && ';' !in p.value
  {
  }

  lemma HostPortRoundTrip(u: Uri)
    requires PrintableAddress(u)
    ensures Before(PrintHostPort(u), ':') == u.host && PortOf(PrintHostPort(u)) == u.port
    ensures '?' !in PrintHostPort(u) && ';' !in PrintHostPort(u)
    ensures '@' in PrintHostPort(u) <==> '@' in u.host
  {
    CutAt(u.host, ':', Itoa(u.port));
    ParseItoa(u.port, TWO_63);
    ItoaLacks(u.port, '?');
    ItoaLacks(u.port, ';');
    ItoaLacks(u.port, '@');
    assert u.host + ":" + Itoa(u.port) == u.host + [':'] + Itoa(u.port);
  }

  /** With a user the address part comes back. */
  lemma AddressWithUser(u: Uri)
    requires PrintableAddress(u) && u.user != ""
    ensures var a := PrintAddress(u);
      ParseAddress(u.scheme, a, u.parameters, u.headers) == u && '?' !in a && ';' !in a
  {
    var hp := PrintHostPort(u);
    HostPortRoundTrip(u);
    var info := if u.password == "" then u.user else u.user + [':'] + u.password;
    assert PrintAddress(u) == info + ['@'] + hp;
    CutAt(info, '@', hp);
    CutAt(u.user, ':', u.password);
  }

  /** Without a user it comes back only if there is nothing a user would own. */
  lemma AddressWithoutUser(u: Uri)
    requires PrintableAddress(u) && u.user == ""
    ensures var a := PrintAddress(u);
      '?' !in a && ';' !in a
      && (ParseAddress(u.scheme, a, u.parameters, u.headers) == u <==> u.password == "" && '@' !in u.host)
  {
    hide IndexByte, Before, After, Itoa, ParseInt;
    var a := PrintAddress(u);
    HostPortRoundTrip(u);
    assert a == PrintHostPort(u);
    CutAt("", ':', "");
    if '@' in u.host {
      // The text before the `@` is read as the user, so the host comes back shorter.
      CutJoins(u.host, '@');
      var info, host := Before(u.host, '@'), After(u.host, '@').value;
      var rest := if u.port != 0 then host + [':'] + Itoa(u.port) else host;
      assert a == info + ['@'] + rest;
      CutAt(info, '@', rest);
      CutAt(host, ':', Itoa(u.port));
      assert Before(HostPortOf(a), ':') == host;
    }
  }

  lemma ParseUriSplits(scheme: string, s: string)
    requires scheme == "sip" || scheme == "sips"
    ensures ParseUri(scheme + ":" + s) == Some(ParseBody(scheme, s))
  {
    var text := scheme + ":" + s;
    assert text[|scheme| + 1..] == s;
    if scheme == "sip" {
      assert "sip:" <= text;
    } else {
      assert text[3] == 's';
      assert "sips:" <= text;
    }
  }

  /** A printed URI reads back as itself exactly when it is stable. */
  lemma UriRoundTrip(u: Uri)
    requires Printable(u)
    ensures ParseUri(PrintUri(u)).Some?
    ensures ParseUri(PrintUri(u)) == Some(u) <==> Stable(u)
  {
    var a := PrintAddress(u);
    var front := a + PrintParams(u.parameters);
    var s := front + PrintHeaders(u.headers);
    assert PrintUri(u) == u.scheme + ":" + s;
    ParseUriSplits(u.scheme, s);
    if u.user == "" {
      AddressWithoutUser(u);
    } else {
      AddressWithUser(u);
    }
    PrintParamsAvoids(u.parameters, '?');
    QueryRoundTrip(front, u.headers);
    ParameterPartRoundTrip(a, u.parameters);
  }

  lemma {:induction false} ParametersWithin(items: seq<string>)
    requires forall t :: t in items ==> ';' !in t && '?' !in t
    ensures forall p :: p in ParseParameters(items) ==> PrintableParameter(p)
  {
    if items != [] {
      assert items[0] in items;
      ParsePairLacks(items[0], ';');
      ParsePairLacks(items[0], '?');
      assert forall t :: t in items[1..] ==> t in items;
      ParametersWithin(items[1..]);
    }
  }

  lemma {:induction false} HeadersWithin(items: seq<string>)
    requires forall t :: t in items ==> '&' !in t
    ensures forall h :: h in ParseHeaders(items) ==> PrintableHeader(h)
  {
    if items != [] {
      assert items[0] in items;
      ParsePairLacks(items[0], '&');
      assert forall t :: t in items[1..] ==> t in items;
      HeadersWithin(items[1..]);
    }
  }

  lemma IgnoredIsInt64(s: string)
    ensures IsInt64(ParseInt(s, TWO_63).Ignored())
  {
  }

  lemma ParsedAddressIsPrintable(scheme: string, address: string, ps: seq<KeyValue>, hs: seq<KeyValue>)
    requires '?' !in address && ';' !in address
    ensures PrintableAddress(ParseAddress(scheme, address, ps, hs))
  {
    var hp, info := HostPortOf(address), InfoOf(address);
    CutLacks(address, '@', '?');
    CutLacks(address, '@', ';');
    CutLacks(info, ':', '?');
    CutLacks(info, ':', ';');
    CutLacks(info, ':', '@');
    CutLacks(hp, ':', '?');
    CutLacks(hp, ':', ';');
    if ':' in hp {
      IgnoredIsInt64(After(hp, ':').value);
    }
  }

  /** Whatever text was parsed, the URI it gave is in the domain of UriRoundTrip. */
  lemma ParsedIsPrintable(text: string)
    requires ParseUri(text).Some?
    ensures Printable(ParseUri(text).value)
  {
    var s := if "sip:" <= text then text[4..] else text[5..];
    var front := Before(s, '?');
    CutLacks(front, ';', '?');
    if ';' in front {
      var ps := After(front, ';').value;
      SplitLacks(ps, ';', ';');
      SplitLacks(ps, ';', '?');
      ParametersWithin(Split(ps, ';'));
    }
    if '?' in s {
      var hs := After(s, '?').value;
      SplitLacks(hs, '&', '&');
      HeadersWithin(Split(hs, '&'));
    }
    ParsedAddressIsPrintable(ParseUri(text).value.scheme, Before(front, ';'), ParametersOf(front), HeadersOf(s));
  }

  /** A character the printer does not write by itself. */
  predicate PlainChar(c: char) {
    !IsDigit(c) && c !in "-:@;=?&"
  }

  lemma {:induction false} ParametersLack(items: seq<string>, c: char)
    requires forall t :: t in items ==> c !in t
    ensures forall p :: p in ParseParameters(items) ==> c !in p.key && c !in p.value
  {
    if items != [] {
      assert items[0] in items;
      ParsePairLacks(items[0], c);
      assert forall t :: t in items[1..] ==> t in items;
      ParametersLack(items[1..], c);
    }
  }

  lemma {:induction false} HeadersLack(items: seq<string>, c: char)
    requires forall t :: t in items ==> c !in t
    ensures forall h :: h in ParseHeaders(items) ==> c !in h.key && c !in h.value
  {
    if items != [] {
      assert items[0] in items;
      ParsePairLacks(items[0], c);
      assert forall t :: t in items[1..] ==> t in items;
      HeadersLack(items[1..], c);
    }
  }

  lemma PrintHeadersLacks(hs: seq<KeyValue>, c: char)
    requires PlainChar(c) && forall h :: h in hs ==> c !in h.key && c !in h.value
    ensures c !in PrintHeaders(hs)
  {
    hide Join;
    forall t | t in PrintHeaderItems(hs)
      ensures c !in t
    {
      var i :| 0 <= i < |hs| && t == PrintHeader(hs[i]);
      assert hs[i] in hs;
    }
    JoinAvoids(PrintHeaderItems(hs), '&', c);
  }

  lemma PrintAddressLacks(scheme: string, address: string, ps: seq<KeyValue>, hs: seq<KeyValue>, c: char)
    requires PlainChar(c) && c !in address
    ensures c !in PrintAddress(ParseAddress(scheme, address, ps, hs))
  {
    hide Itoa, ParseInt, IndexByte, Before, After;
    var hp, info := HostPortOf(address), InfoOf(address);
    CutLacks(address, '@', c);
    CutLacks(info, ':', c);
    CutLacks(hp, ':', c);
    ItoaLacks(PortOf(hp), c);
  }

  /** Printing what was read brings in no characters of its own but separators and digits. */
  lemma ReprintLacks(text: string, c: char)
    requires ParseUri(text).Some? && PlainChar(c) && c !in text
    ensures c !in PrintUri(ParseUri(text).value)
  {
    hide PrintAddress, ParseAddress, PrintParams, PrintHeaders, Split, IndexByte, Before, After, ParseParameters, ParseHeaders;
    var scheme := if "sip:" <= text then "sip" else "sips";
    var s := text[|scheme| + 1..];
    assert text == scheme + ":" + s;
    var front := Before(s, '?');
    CutLacks(s, '?', c);
    CutLacks(front, ';', c);
    if ';' in front {
      SplitLacks(After(front, ';').value, ';', c);
      ParametersLack(Split(After(front, ';').value, ';'), c);
    }
    if '?' in s {
      SplitLacks(After(s, '?').value, '&', c);
      HeadersLack(Split(After(s, '?').value, '&'), c);
    }
    PrintAddressLacks(scheme, Before(front, ';'), ParametersOf(front), HeadersOf(s), c);
    PrintParamsAvoids(ParametersOf(front), c);
    PrintHeadersLacks(HeadersOf(s), c);
    PartsOfReprint(scheme, s);
  }

  /** No `;` except possibly as the last character. */
  predicate SemicolonOnlyLast(text: string) {
    forall i :: 0 <= i < |text| - 1 ==> text[i] != ';'
  }

  /** The printed headers are the text they were read from, up to the first item that is none. */
  lemma {:induction false} HeadersReprint(items: seq<string>)
    ensures Join(PrintHeaderItems(ParseHeaders(items)), '&') <= Join(items, '&')
    ensures items != [] && '=' in items[0] ==> ParseHeaders(items) != []
  {
    hide ParsePair, PrintHeader;
    if items != [] && '=' in items[0] {
      var t, rest := items[0], items[1..];
      HeaderReprints(t);
      HeadersReprint(rest);
      var hs, more := ParseHeaders(items), ParseHeaders(rest);
      assert hs == [ParsePair(t)] + more;
      assert PrintHeaderItems(hs) == [t] + PrintHeaderItems(more);
      assert items == [t] + rest;
      PrefixJoins(t, PrintHeaderItems(more), rest);
    }
  }

  lemma PrefixJoins(t: string, some: seq<string>, all: seq<string>)
    requires Join(some, '&') <= Join(all, '&') && (some != [] ==> all != [])
    ensures Join([t] + some, '&') <= Join([t] + all, '&')
  {
    assert ([t] + some)[1..] == some && ([t] + all)[1..] == all;
    var front := t + ['&'];
    if some != [] {
      assert Join([t] + some, '&') == front + Join(some, '&') && Join([t] + all, '&') == front + Join(all, '&');
    } else {
      assert Join([t] + some, '&') == t;
      assert all != [] ==> Join([t] + all, '&') == t + (['&'] + Join(all, '&'));
    }
  }

  lemma HeaderReprints(t: string)
    requires '=' in t
    ensures PrintHeader(ParsePair(t)) == t
  {
    CutJoins(t, '=');
  }

  lemma {:induction false} JoinSplits(s: string, sep: char)
    ensures Join(Split(s, sep), sep) == s
    decreases |s|
  {
    hide Split, IndexByte, Before, After;
    if sep in s {
      CutJoins(s, sep);
      var first, rest := Before(s, sep), After(s, sep).value;
      SplitFirst(first, sep, rest);
      JoinSplits(rest, sep);
      assert ([first] + Split(rest, sep))[1..] == Split(rest, sep);
    } else {
      SplitFirst(s, sep, "");
    }
  }

  lemma HeadersReprintText(s: string)
    requires '?' in s
    ensures PrintHeaders(HeadersOf(s)) <= ['?'] + After(s, '?').value
  {
    hide Split, IndexByte, Join, ParseHeaders, PrintHeaderItems;
    var hs := After(s, '?').value;
    HeadersReprint(Split(hs, '&'));
    JoinSplits(hs, '&');
  }

  /** A text with a `;` at most at its end has no parameters, and its print has a `;` at most at its end. */
  lemma SemicolonReprint(text: string)
    requires ParseUri(text).Some? && SemicolonOnlyLast(text)
    ensures ParseUri(text).value.parameters == [] && SemicolonOnlyLast(PrintUri(ParseUri(text).value))
  {
    hide PrintAddress, ParseAddress, PrintHeaders, Split, IndexByte, Before, After, ParseParameters, ParseHeaders, HeadersOf;
    var scheme := if "sip:" <= text then "sip" else "sips";
    var s := text[|scheme| + 1..];
    assert text == scheme + ":" + s;
    SuffixSemicolon(scheme + ":", s);
    var u := ParseBody(scheme, s);
    NoParameters(s);
    PartsOfReprint(scheme, s);
    ParsedIsPrintable(text);
    AddressHasNoSemicolon(u);
    assert ParseUri(text) == Some(u);
    var a := scheme + ":" + PrintAddress(u);
    assert PrintUri(u) == a + PrintHeaders(HeadersOf(s));
    if '?' in s {
      HeadersReprintText(s);
      QueryEndsText(s);
    } else {
      assert HeadersOf(s) == [] && PrintHeaders([]) == "" by { NoQuery(s); }
    }
    SemicolonBehind(a, PrintHeaders(HeadersOf(s)));
  }

  lemma NoQuery(s: string)
    requires '?' !in s
    ensures HeadersOf(s) == [] && PrintHeaders([]) == ""
  {
  }

  lemma SuffixSemicolon(a: string, b: string)
    requires SemicolonOnlyLast(a + b)
    ensures SemicolonOnlyLast(b)
  {
    assert forall i :: 0 <= i < |b| ==> b[i] == (a + b)[|a| + i];
  }

  lemma SemicolonBehind(a: string, b: string)
    requires ';' !in a && SemicolonOnlyLast(b)
    ensures SemicolonOnlyLast(a + b)
  {
    assert forall i :: 0 <= i < |a| ==> a[i] in a;
  }

  lemma QueryEndsText(s: string)
    requires '?' in s && SemicolonOnlyLast(s)
    ensures SemicolonOnlyLast(['?'] + After(s, '?').value)
  {
    hide IndexByte, Before, After;
    CutJoins(s, '?');
    assert s == Before(s, '?') + (['?'] + After(s, '?').value);
    SuffixSemicolon(Before(s, '?'), ['?'] + After(s, '?').value);
  }

  lemma AddressHasNoSemicolon(u: Uri)
    requires Printable(u)
    ensures ';' !in u.scheme + ":" + PrintAddress(u)
  {
    hide Itoa, IndexByte, Before, After, ParseAddress;
    if u.user == "" {
      AddressWithoutUser(u);
    } else {
      AddressWithUser(u);
    }
  }

  lemma NoParameters(s: string)
    requires SemicolonOnlyLast(s)
    ensures ParametersOf(Before(s, '?')) == []
  {
    var front := Before(s, '?');
    BeforeIsPrefix(s, '?');
    if ';' in front {
      hide IndexByte, Split, Before, After;
      CutJoins(front, ';');
      var first, rest := Before(front, ';'), After(front, ';').value;
      assert s[|first|] == front[|first|] == ';';
      assert rest == "";
      SplitFirst("", ';', "");
    }
  }

  lemma BeforeIsPrefix(s: string, c: char)
    ensures Before(s, c) <= s
  {
  }

  lemma PartsOfReprint(scheme: string, s: string)
    requires scheme == "sip" || scheme == "sips"
    ensures var (front, u) := (Before(s, '?'), ParseBody(scheme, s));
      u == ParseAddress(scheme, Before(front, ';'), ParametersOf(front), HeadersOf(s))
      && u.parameters == ParametersOf(front)
      && PrintUri(u) == scheme + ":" + PrintAddress(u) + PrintParams(ParametersOf(front)) + PrintHeaders(HeadersOf(s))
  {
    hide PrintAddress, PrintParams, PrintHeaders, Split, IndexByte, Before, After, ParametersOf, HeadersOf;
  }

  /** Printing, reading and printing again gives the same text whenever the first reading lost nothing. */
  lemma ReprintIsIdentity(text: string)
    requires ParseUri(text).Some? && Stable(ParseUri(text).value)
    ensures ParseUri(PrintUri(ParseUri(text).value)) == ParseUri(text)
  {
    ParsedIsPrintable(text);
    UriRoundTrip(ParseUri(text).value);
  }

  lemma EmptyValueIsRead(q: string, rest: string)
    requires q == "a=" + [';'] + rest
    ensures var ps := ParseParameters(Split(q, ';'));
      ps != [] && ps[0].key == "a" && ps[0].value == ""
  {
    hide IndexByte, Split;
    SplitFirst("a=", ';', rest);
    CutAt("a", '=', "");
    assert "a=" == "a" + ['='] + "";
  }

  /** A parameter written `a=` is printed as `a`, which ends the list on the next reading. */
  lemma EmptyValueIsLost(rest: string)
    requires '?' !in rest
    ensures var u := ParseUri("sip" + ":" + ("h" + [';'] + ("a=" + [';'] + rest)));
      u.Some? && !Stable(u.value) && ParseUri(PrintUri(u.value)) != u
  {
    hide IndexByte, Before, After, Split, ParseParameters, ParseUri, PrintUri, Printable;
    var q := "a=" + [';'] + rest;
    var s := "h" + [';'] + q;
    ParseUriSplits("sip", s);
    CutAt(s, '?', "");
    CutAt("h", ';', q);
    EmptyValueIsRead(q, rest);
    var u := ParseBody("sip", s);
    assert u.parameters[0] in u.parameters && !Readable(u.parameters[0]);
    ParsedIsPrintable("sip" + ":" + s);
    UriRoundTrip(u);
  }

  // ---- any text, printed or not ----

  predicate ParameterItem(t: string) {
    '=' in t || t == "lr"
  }

  /** The first malformed item ends the parameters: what stands before it is read, what stands behind it is not. */
  lemma {:induction false} ParametersStop(good: seq<string>, bad: string, rest: seq<string>)
    requires (forall t :: t in good ==> ParameterItem(t)) && !ParameterItem(bad)
    ensures ParseParameters(good + [bad] + rest) == ParseParameters(good)
    ensures |ParseParameters(good)| == |good|
    ensures forall i :: 0 <= i < |good| ==> ParseParameters(good)[i] == ParsePair(good[i])
  {
    hide ParsePair;
    if good == [] {
      assert (good + [bad] + rest)[0] == bad;
    } else {
      assert good[0] in good && forall t :: t in good[1..] ==> t in good;
      ParametersStop(good[1..], bad, rest);
      assert (good + [bad] + rest)[1..] == good[1..] + [bad] + rest;
    }
  }

  lemma {:induction false} HeadersStop(good: seq<string>, bad: string, rest: seq<string>)
    requires (forall t :: t in good ==> '=' in t) && '=' !in bad
    ensures ParseHeaders(good + [bad] + rest) == ParseHeaders(good)
    ensures |ParseHeaders(good)| == |good|
    ensures forall i :: 0 <= i < |good| ==> ParseHeaders(good)[i] == ParsePair(good[i])
  {
    hide ParsePair;
    if good == [] {
      assert (good + [bad] + rest)[0] == bad;
    } else {
      assert good[0] in good && forall t :: t in good[1..] ==> t in good;
      HeadersStop(good[1..], bad, rest);
      assert (good + [bad] + rest)[1..] == good[1..] + [bad] + rest;
    }
  }

  /** An optional part of a text with the character that introduces or ends it. */
  function Led(c: char, part: Option<string>): string {
    match part case None => "" case Some(t) => [c] + t
  }

  function Ended(part: Option<string>, c: char): string {
    match part case None => "" case Some(t) => t + [c]
  }

  /** Cutting an optional trailing part off. */
  lemma LedCuts(front: string, c: char, part: Option<string>)
    requires c !in front
    ensures Before(front + Led(c, part), c) == front && After(front + Led(c, part), c) == part
  {
    hide IndexByte, Before, After;
    match part {
      case None =>
        assert front + Led(c, part) == front;
        CutAt(front, c, "");
      case Some(t) =>
        assert front + Led(c, part) == front + [c] + t;
        CutAt(front, c, t);
    }
  }

  lemma EndedCuts(part: Option<string>, c: char, back: string)
    requires if part.Some? then c !in part.value else c !in back
    ensures After(Ended(part, c) + back, c) == (if part.Some? then Some(back) else None)
    ensures part.Some? ==> Before(Ended(part, c) + back, c) == part.value
    ensures part.None? ==> Ended(part, c) + back == back
  {
    hide IndexByte, Before, After;
    match part {
      case None =>
        assert Ended(part, c) + back == back;
        CutAt(back, c, "");
      case Some(t) =>
        assert Ended(part, c) + back == t + [c] + back;
        CutAt(t, c, back);
    }
  }

  function InfoText(user: Option<string>, password: Option<string>): Option<string> {
    match user case None => None case Some(u) => Some(u + Led(':', password))
  }

  predicate AddressParts(user: Option<string>, password: Option<string>, host: string, port: Option<string>) {
    && (user.None? ==> password.None? && '@' !in host + Led(':', port))
    && (user.Some? ==> ':' !in user.value && '@' !in user.value + Led(':', password))
    && ':' !in host
  }

  function OrEmpty(part: Option<string>): string {
    match part case None => "" case Some(t) => t
  }

  lemma AddressReads(scheme: string, user: Option<string>, password: Option<string>, host: string, port: Option<string>,
                     ps: seq<KeyValue>, hs: seq<KeyValue>)
    requires AddressParts(user, password, host, port)
    ensures ParseAddress(scheme, Ended(InfoText(user, password), '@') + (host + Led(':', port)), ps, hs) == Uri(
        scheme, OrEmpty(user), OrEmpty(password), host,
        if port.Some? then ParseInt(port.value, TWO_63).Ignored() else 0, ps, hs)
  {
    hide IndexByte, Before, After, Led, Ended, ParseInt;
    var hostPort := host + Led(':', port);
    EndedCuts(InfoText(user, password), '@', hostPort);
    LedCuts(host, ':', port);
    CutAt("", ':', "");
    if user.Some? {
      LedCuts(user.value, ':', password);
    }
  }

  /** A SIP URI is read part by part: the query is what follows the first `?`, the parameters what follows the first
      `;` before that, the user information what precedes the first `@` before that, and each of them may miss. */
  lemma UriReads(scheme: string, user: Option<string>, password: Option<string>, host: string, port: Option<string>,
                 ps: Option<string>, hs: Option<string>)
    requires (scheme == "sip" || scheme == "sips") && AddressParts(user, password, host, port)
    requires var address := Ended(InfoText(user, password), '@') + (host + Led(':', port));
      ';' !in address && '?' !in address + Led(';', ps)
    ensures var address := Ended(InfoText(user, password), '@') + (host + Led(':', port));
      ParseUri(scheme + ":" + (address + Led(';', ps) + Led('?', hs))) == Some(Uri(
        scheme, OrEmpty(user), OrEmpty(password), host,
        if port.Some? then ParseInt(port.value, TWO_63).Ignored() else 0,
        if ps.Some? then ParseParameters(Split(ps.value, ';')) else [],
        if hs.Some? then ParseHeaders(Split(hs.value, '&')) else []))
  {
    hide IndexByte, Before, After, Led, Ended, ParseInt, Split, ParseParameters, ParseHeaders, ParseUri, ParseAddress,
         AddressParts, InfoText;
    var address := Ended(InfoText(user, password), '@') + (host + Led(':', port));
    ParseUriSplits(scheme, address + Led(';', ps) + Led('?', hs));
    LedCuts(address + Led(';', ps), '?', hs);
    LedCuts(address, ';', ps);
    AddressReads(scheme, user, password, host, port,
                 if ps.Some? then ParseParameters(Split(ps.value, ';')) else [],
                 if hs.Some? then ParseHeaders(Split(hs.value, '&')) else []);
  }

  /** The port and transport that a URI leaves out are 5060 over UDP, or 5061 where it says TLS. */
  lemma UriDefaults(u: Uri)
    ensures u.port != 0 ==> GetPort(u) == u.port
    ensures u.port == 0 ==> GetPort(u) == if Lookup(u.parameters, "transport") == Some("tls") then 5061 else 5060
    ensures GetTransport(u) == match Lookup(u.parameters, "transport") case Some(t) => t case None => "udp"
  {
  }

  // ---- the record the parser fills ----

  class SIPURI {
    var scheme: string
    var user: string
    var password: string
    var host: string
    var port: int
    var parameters: seq<KeyValue>
    var headers: seq<KeyValue>

    function Value(): Uri
      reads this
    {
      Uri(scheme, user, password, host, port, parameters, headers)
    }

    constructor ()
      ensures Value() == Uri("", "", "", "", 0, [], [])
    {
      scheme, user, password, host, port, parameters, headers := "", "", "", "", 0, [], [];
    }

    /** ParseSipURI: null stands for the error result. */
    static method Parse(text: string) returns (r: SIPURI?)
      ensures r == null <==> ParseUri(text).None?
      ensures r != null ==> fresh(r) && ParseUri(text) == Some(r.Value())
    {
      hide ParseBody;
      var uri := new SIPURI();
      var s;
      if "sip:" <= text {
        uri.scheme, s := "sip", text[4..];
      } else if "sips:" <= text {
        uri.scheme, s := "sips", text[5..];
      } else {
        return null;
      }
      uri.Fill(s);
      return uri;
    }

    /** The part of ParseSipURI after the scheme: query, parameters, then user and host. */
    method Fill(text: string)
      requires Value() == Uri(scheme, "", "", "", 0, [], [])
      modifies this
      ensures Value() == ParseBody(old(scheme), text)
    {
      hide IndexByte, Before, After, Split, ParseParameters, ParseHeaders, ParseInt;
      var s := text;
      CutByIndex(s, '?');
      var pos := IndexByte(s, '?');
      if pos != -1 {
        var _ := ParseUriHeader(s[pos + 1..]);
        s := s[..pos];
      }
      assert headers == HeadersOf(text) && s == Before(text, '?');
      ghost var front := s;
      CutByIndex(s, ';');
      pos := IndexByte(s, ';');
      if pos != -1 {
        var _ := ParseUriParameters(s[pos + 1..]);
        s := s[..pos];
      }
      assert parameters == ParametersOf(front) && s == Before(front, ';');
      FillAddress(s);
    }

    method FillAddress(s: string)
      requires user == "" && password == ""
      modifies this
      ensures Value() == ParseAddress(old(scheme), s, old(parameters), old(headers))
    {
      hide IndexByte, Before, After, ParseInt;
      CutByIndex(s, '@');
      CutAt("", ':', "");
      var pos := IndexByte(s, '@');
      if pos != -1 {
        ParseUserInfo(s[..pos]);
        ParseHostPort(s[pos + 1..]);
      } else {
        ParseHostPort(s);
      }
    }

    method ParseUserInfo(s: string)
      modifies this
      ensures Value() == old(Value()).(user := UserOf(s), password := if ':' in s then PasswordOf(s) else old(password))
    {
      var pos := IndexByte(s, ':');
      if pos == -1 {
        user := s;
      } else {
        user, password := s[..pos], s[pos + 1..];
      }
    }

    method ParseHostPort(s: string)
      modifies this
      ensures Value() == old(Value()).(host := Before(s, ':'), port := PortOf(s))
    {
      var pos := IndexByte(s, ':');
      if pos == -1 {
        host, port := s, 0;
      } else {
        host, port := s[..pos], ParseInt(s[pos + 1..], TWO_63).Ignored();
      }
    }

    /** Stops at the first malformed item and keeps what was read before it. */
    method ParseUriParameters(s: string) returns (ok: bool)
      modifies this
      ensures Value() == old(Value()).(parameters := old(parameters) + ParseParameters(Split(s, ';')))
      ensures ok <==> |ParseParameters(Split(s, ';'))| == |Split(s, ';')|
    {
      hide IndexByte, Before, After, Split;
      var items := Split(s, ';');
      var i := 0;
      ghost var before := parameters;
      while i < |items|
        invariant 0 <= i <= |items|
        invariant Value() == old(Value()).(parameters := parameters)
        invariant |parameters| == |before| + i
        invariant before + ParseParameters(items) == parameters + ParseParameters(items[i..])
      {
        var param := items[i];
        CutByIndex(param, '=');
        var pos := IndexByte(param, '=');
        if pos == -1 {
          if param != "lr" {
            return false;
          }
          parameters := parameters + [KeyValue("lr", "")];
        } else {
          parameters := parameters + [KeyValue(param[..pos], param[pos + 1..])];
        }
        assert items[i..][1..] == items[i + 1..];
        i := i + 1;
      }
      return true;
    }

    method ParseUriHeader(s: string) returns (ok: bool)
      modifies this
      ensures Value() == old(Value()).(headers := old(headers) + ParseHeaders(Split(s, '&')))
      ensures ok <==> |ParseHeaders(Split(s, '&'))| == |Split(s, '&')|
    {
      hide IndexByte, Before, After, Split;
      var items := Split(s, '&');
      var i := 0;
      ghost var before := headers;
      while i < |items|
        invariant 0 <= i <= |items|
        invariant Value() == old(Value()).(headers := headers)
        invariant |headers| == |before| + i
        invariant before + ParseHeaders(items) == headers + ParseHeaders(items[i..])
      {
        var param := items[i];
        CutByIndex(param, '=');
        var pos := IndexByte(param, '=');
        if pos == -1 {
          return false;
        }
        headers := headers + [KeyValue(param[..pos], param[pos + 1..])];
        assert items[i..][1..] == items[i + 1..];
        i := i + 1;
      }
      return true;
    }

    method SetParameter(name: string, value: string)
      modifies this
      ensures Value() == old(Value()).(parameters := Store(old(parameters), name, value))
    {
      parameters := StoreInPlace(parameters, name, value);
    }

    /** _Write: appends piece by piece to the buffer. */
    method Write(withParams: bool, withHeaders: bool) returns (buf: string)
      ensures buf == PrintPart(Value(), withParams, withHeaders)
    {
      hide PrintParams, PrintHeaders, Itoa;
      buf := scheme + ":";
      if |user| > 0 {
        buf := buf + (if |password| > 0 then user + ":" + password + "@" else user + "@");
      }
      buf := buf + (if port != 0 then host + ":" + Itoa(port) else host);
      assert buf == scheme + ":" + PrintAddress(Value());
      if withParams {
        buf := AppendParams(buf, parameters);
      }
      if withHeaders {
        buf := WriteHeaders(buf);
      }
    }

    method WriteHeaders(front: string) returns (buf: string)
      ensures buf == front + PrintHeaders(headers)
    {
      buf := front;
      ghost var items := PrintHeaderItems(headers);
      var i := 0;
      while i < |headers|
        invariant 0 <= i <= |headers|
        invariant i == 0 ==> buf == front
        invariant 0 < i < |headers| ==> front + PrintHeaders(headers) == buf + ("&" + Join(items[i..], '&'))
        invariant 0 < i == |headers| ==> front + PrintHeaders(headers) == buf
      {
        var item := headers[i].key + "=" + headers[i].value;
        assert items[i..][0] == item && items[i..][1..] == items[i + 1..];
        if i == 0 {
          assert items[0..] == items;
          buf := buf + "?" + item;
        } else {
          buf := buf + "&" + item;
        }
        i := i + 1;
      }
    }
  }

  function GetTransport(u: Uri): string {
    match Lookup(u.parameters, "transport")
    case None => "udp"
    case Some(t) => t
  }

  function GetPort(u: Uri): int {
    if u.port != 0 then u.port else if GetTransport(u) == "tls" then 5061 else 5060
  }
}
