/** message.go, header names: two spellings of one header. */
module HeaderNames {
  import opened Wrappers
  import opened Text

  /** The long name that a one-letter name abbreviates. */
  function FullOf(c: char): Option<string> {
    match c
    case 'a' => Some("accept-contact")
    case 'b' => Some("referred-by")
    case 'c' => Some("content-type")
    case 'e' => Some("content-encoding")
    case 'f' => Some("from")
    case 'i' => Some("call-id")
    case 'k' => Some("supported")
    case 'l' => Some("content-length")
    case 'm' => Some("contact")
    case 'o' => Some("event")
    case 'r' => Some("refer-to")
    case 's' => Some("subject")
    case 't' => Some("to")
    case 'u' => Some("allow-events")
    case 'v' => Some("via")
    case _ => None
  }

  function LetterOf(full: string): Option<char> {
    match full
    case "accept-contact" => Some('a')
    case "referred-by" => Some('b')
    case "content-type" => Some('c')
    case "content-encoding" => Some('e')
    case "from" => Some('f')
    case "call-id" => Some('i')
    case "supported" => Some('k')
    case "content-length" => Some('l')
    case "contact" => Some('m')
    case "event" => Some('o')
    case "refer-to" => Some('r')
    case "subject" => Some('s')
    case "to" => Some('t')
    case "allow-events" => Some('u')
    case "via" => Some('v')
    case _ => None
  }

  /** GetCompact: the table maps every name to its other spelling, in both directions. */
  function GetCompact(name: string): Option<string> {
    var l := Lower(name);
    if |l| == 1 then FullOf(l[0])
    else match LetterOf(l) case Some(c) => Some([c]) case None => None
  }

  predicate IsSameHeader(name1: string, name2: string) {
    Lower(name1) == Lower(name2)
    || (GetCompact(name2).Some? && Lower(name1) == Lower(GetCompact(name2).value))
  }

  /** The lower-case long spelling. */
  function Canon(name: string): string {
    var l := Lower(name);
    if |l| == 1 && FullOf(l[0]).Some? then FullOf(l[0]).value else l
  }

  lemma FullHasLetter(c: char)
    requires FullOf(c).Some?
    ensures LetterOf(FullOf(c).value) == Some(c)
  {
  }

  predicate IsLower(s: string) {
    forall i :: 0 <= i < |s| ==> LowerChar(s[i]) == s[i]
  }

  lemma EarlyFullIsLower(c: char)
    requires FullOf(c).Some? && c <= 'i'
    ensures |FullOf(c).value| > 1 && IsLower(FullOf(c).value)
  {
  }

  lemma LateFullIsLower(c: char)
    requires FullOf(c).Some? && c > 'i'
    ensures |FullOf(c).value| > 1 && IsLower(FullOf(c).value)
  {
  }

  lemma FullIsLower(c: char)
    requires FullOf(c).Some?
    ensures |FullOf(c).value| > 1 && Lower(FullOf(c).value) == FullOf(c).value
  {
    hide FullOf;
    if c <= 'i' {
      EarlyFullIsLower(c);
    } else {
      LateFullIsLower(c);
    }
  }

  lemma LetterHasFull(full: string)
    requires LetterOf(full).Some?
    ensures FullOf(LetterOf(full).value) == Some(full)
    ensures |full| > 1 && Lower([LetterOf(full).value]) == [LetterOf(full).value]
  {
  }

  lemma LowerTwice(s: string)
    ensures Lower(Lower(s)) == Lower(s)
  {
  }

  /** Case folding plus the two-way table is one equivalence: two names are the same header
      exactly when their long lower-case spellings agree. */
  lemma SameHeaderIffCanon(name1: string, name2: string)
    ensures IsSameHeader(name1, name2) <==> Canon(name1) == Canon(name2)
  {
    hide FullOf, LetterOf, Lower;
    var l1, l2 := Lower(name1), Lower(name2);
    LowerTwice(name1);
    LowerTwice(name2);
    CanonFacts(l1);
    CanonFacts(l2);
  }

  lemma CanonFacts(l: string)
    requires Lower(l) == l
    ensures |l| == 1 && FullOf(l[0]).Some? ==>
      Lower(FullOf(l[0]).value) == FullOf(l[0]).value && |FullOf(l[0]).value| > 1
      && LetterOf(FullOf(l[0]).value) == Some(l[0])
    ensures |l| != 1 && LetterOf(l).Some? ==>
      Lower([LetterOf(l).value]) == [LetterOf(l).value] && FullOf(LetterOf(l).value) == Some(l)
  {
    if |l| == 1 && FullOf(l[0]).Some? {
      FullHasLetter(l[0]);
      FullIsLower(l[0]);
    }
    if LetterOf(l).Some? {
      LetterHasFull(l);
    }
  }
}

/** message.go without its objects: what a header line means, the header list as a value,
    and what each edit does to it. */
module HeaderViews {
  import opened Wrappers
  import opened Text
  import opened HeaderNames
  import opened Vias
  import opened Parties
  import opened Routes

  /** The headers the proxy looks up by name. */
  datatype Kind =
    | ViaKind | RouteKind | RecordRouteKind | FromKind | ToKind | CSeqKind
    | CallIdKind | ExpiresKind | MaxForwardsKind | ContentLengthKind | OtherKind

  function KindOf(name: string): Kind {
    KindOfCanon(Canon(name))
  }

  function KindOfCanon(canon: string): Kind {
    match canon
    case "via" => ViaKind
    case "route" => RouteKind
    case "record-route" => RecordRouteKind
    case "from" => FromKind
    case "to" => ToKind
    case "cseq" => CSeqKind
    case "call-id" => CallIdKind
    case "expires" => ExpiresKind
    case "max-forwards" => MaxForwardsKind
    case "content-length" => ContentLengthKind
    case _ => OtherKind
  }

  /** The spelling the source uses for each of them. */
  function NameOf(k: Kind): string
    requires k != OtherKind
  {
    match k
    case ViaKind => "Via"
    case RouteKind => "Route"
    case RecordRouteKind => "Record-Route"
    case FromKind => "From"
    case ToKind => "To"
    case CSeqKind => "CSeq"
    case CallIdKind => "Call-ID"
    case ExpiresKind => "Expires"
    case MaxForwardsKind => "Max-Forwards"
    case ContentLengthKind => "Content-Length"
  }

  function CanonOf(k: Kind): string
    requires k != OtherKind
  {
    match k
    case ViaKind => "via"
    case RouteKind => "route"
    case RecordRouteKind => "record-route"
    case FromKind => "from"
    case ToKind => "to"
    case CSeqKind => "cseq"
    case CallIdKind => "call-id"
    case ExpiresKind => "expires"
    case MaxForwardsKind => "max-forwards"
    case ContentLengthKind => "content-length"
  }

  lemma NameIsCanon(k: Kind)
    requires k != OtherKind
    ensures Canon(NameOf(k)) == CanonOf(k)
  {
    hide Canon, Lower, NameOf, CanonOf;
    if k.ViaKind? || k.RouteKind? || k.RecordRouteKind? || k.FromKind? || k.ToKind? {
      NameFoldsEarly(k);
    } else {
      NameFoldsLate(k);
    }
    LongNameIsCanon(NameOf(k));
  }

  lemma LongNameIsCanon(name: string)
    requires |name| > 1
    ensures Canon(name) == Lower(name)
  {
  }

  lemma NameFoldsEarly(k: Kind)
    requires k.ViaKind? || k.RouteKind? || k.RecordRouteKind? || k.FromKind? || k.ToKind?
    ensures Lower(NameOf(k)) == CanonOf(k) && |NameOf(k)| > 1
  {
  }

  lemma NameFoldsLate(k: Kind)
    requires k.CSeqKind? || k.CallIdKind? || k.ExpiresKind? || k.MaxForwardsKind? || k.ContentLengthKind?
    ensures Lower(NameOf(k)) == CanonOf(k) && |NameOf(k)| > 1
  {
  }

  lemma CanonHasKind(k: Kind, canon: string)
    requires k != OtherKind
    ensures KindOfCanon(canon) == k <==> canon == CanonOf(k)
  {
  }

  lemma NameHasKind(k: Kind)
    requires k != OtherKind
    ensures KindOf(NameOf(k)) == k
  {
    hide Canon, CanonOf, NameOf, KindOfCanon;
    NameIsCanon(k);
    CanonHasKind(k, Canon(NameOf(k)));
  }

  /** Looking a header up by its usual name finds exactly the spellings of its kind. */
  lemma LookupByKind(name: string, k: Kind)
    requires k != OtherKind
    ensures IsSameHeader(name, NameOf(k)) <==> KindOf(name) == k
  {
    hide IsSameHeader, Canon, CanonOf, NameOf, KindOfCanon;
    SameHeaderIffCanon(name, NameOf(k));
    NameIsCanon(k);
    CanonHasKind(k, Canon(name));
  }

  /** The usual names and the short ones of the headers the proxy looks up, in any case. */
  lemma KindsByName(name: string)
    ensures Lower(name) == "via" || Lower(name) == "v" <==> KindOf(name) == ViaKind
    ensures Lower(name) == "from" || Lower(name) == "f" <==> KindOf(name) == FromKind
    ensures Lower(name) == "to" || Lower(name) == "t" <==> KindOf(name) == ToKind
    ensures Lower(name) == "call-id" || Lower(name) == "i" <==> KindOf(name) == CallIdKind
    ensures Lower(name) == "content-length" || Lower(name) == "l" <==> KindOf(name) == ContentLengthKind
  {
  }

  /** The other headers that the proxy looks up have no short name. */
  lemma KindsByLongName(name: string)
    ensures Lower(name) == "route" <==> KindOf(name) == RouteKind
    ensures Lower(name) == "record-route" <==> KindOf(name) == RecordRouteKind
    ensures Lower(name) == "cseq" <==> KindOf(name) == CSeqKind
    ensures Lower(name) == "expires" <==> KindOf(name) == ExpiresKind
    ensures Lower(name) == "max-forwards" <==> KindOf(name) == MaxForwardsKind
  {
  }

  // ---- what a header line says ----

  datatype Content =
    | ViaList(vias: seq<ViaEntry>)
    | RouteList(routes: seq<RouteEntry>)
    | RecordRouteList(records: seq<RouteEntry>)
    | PartyValue(party: Party)
    | CSeqValue(number: int, cseqMethod: string)
    | Plain(text: string)

  function ParseCSeq(s: string): Option<Content> {
    var fields := Fields(s);
    if |fields| != 2 then None
    else
      var number :- Atoi(fields[0]);
      Some(CSeqValue(number, fields[1]))
  }

  /** A CSeq value is a number and a method, with any white space around them; with one field or three it is none. */
  lemma CSeqReads(a: string, d: string, mid: string, m: string, b: string, more: string)
    requires AllSpace(a) && AllSpace(mid) && mid != "" && AllSpace(b)
    requires forall t :: t in [d, m, more] ==> t != "" && NoSpace(t)
    ensures ParseCSeq(a + d + (mid + m + b)) == match Atoi(d) case None => None case Some(n) => Some(CSeqValue(n, m))
    ensures ParseCSeq(d) == None && ParseCSeq(d + " " + (m + " " + more)) == None
  {
    hide Fields, Atoi, IsSpace;
    assert d in [d, m, more] && m in [d, m, more] && more in [d, m, more];
    HeadFields(a, d, mid, m, b);
    assert [d, m, more][1..] == [m, more] && [m, more][1..] == [more];
    assert Join([more], ' ') == more && Join([d], ' ') == d;
    assert Join([m, more], ' ') == m + " " + more;
    FieldsJoin([d]);
    FieldsJoin([d, m, more]);
  }

  /** The content of a line that has not been parsed yet; a text that cannot be parsed stays a text. */
  function Meaning(k: Kind, text: string): Content {
    match k
    case ViaKind => (match ParseVia(text) case Some(vs) => ViaList(vs) case None => Plain(text))
    case RouteKind => (match ParseRouteList(text) case Some(rs) => RouteList(rs) case None => Plain(text))
    case RecordRouteKind => (match ParseRouteList(text) case Some(rs) => RecordRouteList(rs) case None => Plain(text))
    case FromKind => (match ParseParty(text) case Some(p) => PartyValue(p) case None => Plain(text))
    case ToKind => (match ParseParty(text) case Some(p) => PartyValue(p) case None => Plain(text))
    case CSeqKind => (match ParseCSeq(text) case Some(c) => c case None => Plain(text))
    case _ => Plain(text)
  }

  datatype HeaderView = HeaderView(name: string, content: Content) {
    function Kind(): Kind {
      KindOf(name)
    }
  }

  type View = seq<HeaderView>

  /** Position of the first header of a kind, or -1. */
  function First(v: View, k: Kind): (r: int)
    ensures -1 <= r < |v|
    ensures r >= 0 ==> v[r].Kind() == k
    ensures forall i :: 0 <= i < (if r < 0 then |v| else r) ==> v[i].Kind() != k
  {
    if v == [] then -1
    else if v[0].Kind() == k then 0
    else
      var t := First(v[1..], k);
      if t < 0 then -1 else t + 1
  }

  function Remove(v: View, i: nat): View
    requires i < |v|
  {
    v[..i] + v[i + 1..]
  }

  function Insert(v: View, i: nat, h: HeaderView): View
    requires i <= |v|
  {
    v[..i] + [h] + v[i..]
  }

  // ---- the flattened lists ----

  datatype Item = OfVia(via: ViaEntry) | OfRoute(route: RouteEntry) | Unreadable(text: string)

  /** The entries one header line contributes. */
  function Items(c: Content): seq<Item> {
    match c
    case ViaList(vs) => seq(|vs|, i requires 0 <= i < |vs| => OfVia(vs[i]))
    case RouteList(rs) => seq(|rs|, i requires 0 <= i < |rs| => OfRoute(rs[i]))
    case RecordRouteList(rs) => seq(|rs|, i requires 0 <= i < |rs| => OfRoute(rs[i]))
    case Plain(t) => [Unreadable(t)]
    case _ => []
  }

  /** All entries of one kind, in order, however they are spread over header lines. */
  function Flat(v: View, k: Kind): seq<Item> {
    if v == [] then [] else Own(v[0], k) + Flat(v[1..], k)
  }

  function Own(h: HeaderView, k: Kind): seq<Item> {
    if h.Kind() == k then Items(h.content) else []
  }

  /** The headers of all other kinds, in order. */
  function Others(v: View, k: Kind): View {
    if v == [] then []
    else Foreign(v[0], k) + Others(v[1..], k)
  }

  function Foreign(h: HeaderView, k: Kind): View {
    if h.Kind() == k then [] else [h]
  }

  lemma FlatStep(h: HeaderView, v: View, k: Kind)
    ensures Flat([h] + v, k) == Own(h, k) + Flat(v, k)
  {
    hide Own;
    assert ([h] + v)[0] == h && ([h] + v)[1..] == v;
  }

  lemma {:induction false} FlatConcat(a: View, b: View, k: Kind)
    ensures Flat(a + b, k) == Flat(a, k) + Flat(b, k)
  {
    hide Flat, Own;
    if a == [] {
      assert a + b == b;
      FlatEmpty(k);
      assert [] + Flat(b, k) == Flat(b, k);
    } else {
      var h, t := a[0], a[1..];
      FlatConcat(t, b, k);
      assert a == [h] + t && a + b == [h] + (t + b);
      FlatStep(h, t, k);
      FlatStep(h, t + b, k);
      assert Own(h, k) + (Flat(t, k) + Flat(b, k)) == (Own(h, k) + Flat(t, k)) + Flat(b, k);
    }
  }

  lemma FlatEmpty(k: Kind)
    ensures Flat([], k) == []
  {
  }

  lemma OthersStep(h: HeaderView, v: View, k: Kind)
    ensures Others([h] + v, k) == Foreign(h, k) + Others(v, k)
    ensures Others([], k) == []
  {
    hide Foreign;
    assert ([h] + v)[0] == h && ([h] + v)[1..] == v;
  }

  lemma {:induction false} OthersConcat(a: View, b: View, k: Kind)
    ensures Others(a + b, k) == Others(a, k) + Others(b, k)
  {
    hide Others, Foreign;
    if a == [] {
      assert a + b == b;
      OthersStep(HeaderView("", Plain("")), [], k);
      assert [] + Others(b, k) == Others(b, k);
    } else {
      var h, t := a[0], a[1..];
      OthersConcat(t, b, k);
      assert a == [h] + t && a + b == [h] + (t + b);
      OthersStep(h, t, k);
      OthersStep(h, t + b, k);
      assert Foreign(h, k) + (Others(t, k) + Others(b, k)) == (Foreign(h, k) + Others(t, k)) + Others(b, k);
    }
  }

  lemma {:induction false} FlatOfOtherKinds(v: View, k: Kind)
    requires forall i :: 0 <= i < |v| ==> v[i].Kind() != k
    ensures Flat(v, k) == [] && Others(v, k) == v
  {
    hide KindOf, Items;
    if v != [] {
      FlatOfOtherKinds(v[1..], k);
      assert v == [v[0]] + v[1..];
    }
  }

  lemma FlatOfOne(h: HeaderView, k: Kind)
    ensures Flat([h], k) == if h.Kind() == k then Items(h.content) else []
    ensures Others([h], k) == if h.Kind() == k then [] else [h]
  {
    hide KindOf, Items;
    assert [h][1..] == [];
  }

  /** Putting `mid` between the two halves of a list. */
  lemma FlatMiddle(front: View, mid: View, back: View, k: Kind)
    ensures Flat(front + mid + back, k) == Flat(front, k) + Flat(mid, k) + Flat(back, k)
    ensures Others(front + mid + back, k) == Others(front, k) + Others(mid, k) + Others(back, k)
  {
    hide Flat, Others;
    FlatConcat(front, mid, k);
    FlatConcat(front + mid, back, k);
    OthersConcat(front, mid, k);
    OthersConcat(front + mid, back, k);
  }

  /** A new header line in front of the first of its kind: its entries come first, nothing else moves. */
  lemma InsertInFront(v: View, i: nat, h: HeaderView)
    requires i <= |v|
    requires forall j :: 0 <= j < i ==> v[j].Kind() != h.Kind()
    ensures Flat(Insert(v, i, h), h.Kind()) == Items(h.content) + Flat(v, h.Kind())
    ensures Others(Insert(v, i, h), h.Kind()) == Others(v, h.Kind())
  {
    hide KindOf, Items, Flat, Others;
    var k := h.Kind();
    FlatMiddle(v[..i], [h], v[i..], k);
    FlatConcat(v[..i], v[i..], k);
    OthersConcat(v[..i], v[i..], k);
    assert v == v[..i] + v[i..];
    FlatOfOtherKinds(v[..i], k);
    FlatOfOne(h, k);
    assert [] + Flat(v[i..], k) == Flat(v[i..], k);
    assert Others(v[..i], k) + [] == Others(v[..i], k);
  }

  /** Changing one header line of a kind touches only that line's entries. */
  lemma ReplaceFirst(v: View, mid: View, k: Kind)
    requires First(v, k) >= 0
    requires forall h :: h in mid ==> h.Kind() == k
    ensures var i := First(v, k); var w := v[..i] + mid + v[i + 1..];
      Flat(v, k) == Items(v[i].content) + Flat(v[i + 1..], k)
      && Flat(w, k) == Flat(mid, k) + Flat(v[i + 1..], k)
      && Others(w, k) == Others(v, k)
  {
    hide KindOf, Items, Flat, Others;
    var i := First(v, k);
    FlatMiddle(v[..i], [v[i]], v[i + 1..], k);
    FlatMiddle(v[..i], mid, v[i + 1..], k);
    assert v == v[..i] + [v[i]] + v[i + 1..];
    FlatOfOtherKinds(v[..i], k);
    FlatOfOne(v[i], k);
    OthersOfOwnKind(mid, k);
    assert [] + Items(v[i].content) == Items(v[i].content) && [] + Flat(mid, k) == Flat(mid, k);
  }

  lemma {:induction false} OthersOfOwnKind(v: View, k: Kind)
    requires forall h :: h in v ==> h.Kind() == k
    ensures Others(v, k) == []
  {
    hide KindOf;
    if v != [] {
      assert v[0] in v && forall h :: h in v[1..] ==> h in v;
      OthersOfOwnKind(v[1..], k);
    }
  }

  /** Two lists with the same headers of other kinds agree on every other flattened list. */
  lemma {:induction false} FlatOfOthers(v: View, k: Kind, other: Kind)
    requires other != k
    ensures Flat(v, other) == Flat(Others(v, k), other)
  {
    hide KindOf, Items;
    if v != [] {
      FlatOfOthers(v[1..], k, other);
      if v[0].Kind() != k {
        var rest := Others(v[1..], k);
        assert Others(v, k) == [v[0]] + rest;
        assert ([v[0]] + rest)[0] == v[0] && ([v[0]] + rest)[1..] == rest;
      } else {
        assert Others(v, k) == Others(v[1..], k);
      }
    }
  }

  // ---- the edits ----

  /** The list a header line holds, when it could be read. */
  predicate Readable(c: Content) {
    c.ViaList? || c.RouteList? || c.RecordRouteList?
  }

  function Rest(c: Content): Content
    requires Readable(c) && Items(c) != []
  {
    match c
    case ViaList(vs) => ViaList(vs[1..])
    case RouteList(rs) => RouteList(rs[1..])
    case RecordRouteList(rs) => RecordRouteList(rs[1..])
  }

  /** PopVia and PopRoute: the first entry of the first line goes, and the line with it when it was the only
      one; a missing or unreadable first line is an error that changes nothing. */
  function PopFirst(v: View, k: Kind): View {
    var i := First(v, k);
    if i < 0 || !Readable(v[i].content) then v
    else if |Items(v[i].content)| > 1 then v[i := v[i].(content := Rest(v[i].content))]
    else Remove(v, i)
  }

  /** AddVia. */
  function PushVia(v: View, via: ViaEntry): View {
    var i := First(v, ViaKind);
    Insert(v, if i < 0 then 0 else i, HeaderView("Via", ViaList([via])))
  }

  /** findRecordRoutePos: before the Record-Route headers, else before the earlier of From and Max-Forwards. */
  function RecordRoutePosition(v: View): (r: nat)
    ensures r <= |v|
    ensures forall j :: 0 <= j < r ==> v[j].Kind() != RecordRouteKind
  {
    var rr, from, max := First(v, RecordRouteKind), First(v, FromKind), First(v, MaxForwardsKind);
    if rr >= 0 then rr
    else if from >= 0 && max >= 0 then (if from < max then from else max)
    else if from >= 0 then from
    else if max >= 0 then max
    else 0
  }

  /** A Record-Route goes in front of the others; without others in front of all From and Max-Forwards headers, and
      directly in front of one if there is any; else to the very front. */
  lemma RecordRoutePlace(v: View)
    ensures var p := RecordRoutePosition(v);
      && (First(v, RecordRouteKind) >= 0 ==> p == First(v, RecordRouteKind))
      && (First(v, RecordRouteKind) < 0 ==>
            && (forall i :: 0 <= i < p ==> v[i].Kind() != FromKind && v[i].Kind() != MaxForwardsKind)
            && (if p < |v| && (v[p].Kind() == FromKind || v[p].Kind() == MaxForwardsKind) then true
                else p == 0 && forall i :: 0 <= i < |v| ==> v[i].Kind() != FromKind && v[i].Kind() != MaxForwardsKind))
  {
    hide KindOf, First;
  }

  /** A Via goes directly in front of the first Via header, or to the very front. */
  lemma ViaPlace(v: View, via: ViaEntry)
    ensures var i := First(v, ViaKind);
      PushVia(v, via) == (if i < 0 then [] else v[..i]) + [HeaderView("Via", ViaList([via]))] + (if i < 0 then v else v[i..])
  {
    hide KindOf, First;
  }

  /** AddRecordRoute. */
  function PushRecordRoute(v: View, e: RouteEntry): View {
    Insert(v, RecordRoutePosition(v), HeaderView("Record-Route", RecordRouteList([e])))
  }

  /** No line of a list kind holds an empty list; contents fit the header's kind. */
  predicate Tidy(v: View) {
    forall i :: 0 <= i < |v| ==> Fits(v[i].Kind(), v[i].content)
  }

  predicate Fits(k: Kind, c: Content) {
    match c
    case ViaList(vs) => k == ViaKind && vs != []
    case RouteList(rs) => k == RouteKind && rs != []
    case RecordRouteList(rs) => k == RecordRouteKind && rs != []
    case PartyValue(_) => k == FromKind || k == ToKind
    case CSeqValue(_, _) => k == CSeqKind
    case Plain(_) => true
  }

  lemma RestDropsFirst(c: Content)
    requires Readable(c) && Items(c) != []
    ensures Items(Rest(c)) == Items(c)[1..]
    ensures !Items(c)[0].Unreadable?
  {
  }

  lemma PopIsReplacement(v: View, k: Kind)
    requires First(v, k) >= 0 && Readable(v[First(v, k)].content)
    ensures var i := First(v, k); var c := v[i].content;
      PopFirst(v, k) == v[..i] + (if |Items(c)| > 1 then [v[i].(content := Rest(c))] else []) + v[i + 1..]
  {
    hide KindOf, Items, Rest;
  }

  lemma PopStaysTidy(v: View, k: Kind)
    requires Tidy(v)
    ensures Tidy(PopFirst(v, k))
  {
    hide KindOf, First;
  }

  lemma PopOfMissing(v: View, k: Kind)
    ensures First(v, k) < 0 || !Readable(v[First(v, k)].content) ==> PopFirst(v, k) == v
  {
  }

  lemma TidyAt(v: View, i: int)
    requires Tidy(v) && -1 <= i < |v|
    ensures i >= 0 ==> Fits(v[i].Kind(), v[i].content)
  {
  }

  /** One pop removes exactly the first entry of the flattened list, over any grouping into lines, and
      leaves all other headers alone; it does nothing when there is no first entry or it is unreadable. */
  lemma PopTakesFirst(v: View, k: Kind)
    requires Tidy(v) && (k == ViaKind || k == RouteKind)
    ensures Tidy(PopFirst(v, k))
    ensures Others(PopFirst(v, k), k) == Others(v, k)
    ensures var f := Flat(v, k);
      Flat(PopFirst(v, k), k) == if f == [] || f[0].Unreadable? then f else f[1..]
  {
    hide KindOf, Flat, Others, Items, Rest, First, Tidy, PopFirst;
    PopStaysTidy(v, k);
    PopOfMissing(v, k);
    TidyAt(v, First(v, k));
    var i := First(v, k);
    if i < 0 {
      FlatOfOtherKinds(v, k);
    } else {
      var c := v[i].content;
      TidyItems(k, c);
      ReplaceFirst(v, [v[i]], k);
      if Readable(c) {
        PopIsReplacement(v, k);
        RestDropsFirst(c);
        var h := v[i].(content := Rest(c));
        var back := Flat(v[i + 1..], k);
        FlatOfOne(h, k);
        FlatOfOtherKinds([], k);
        ReplaceFirst(v, [h], k);
        ReplaceFirst(v, [], k);
        assert (Items(c) + back)[1..] == Items(c)[1..] + back;
        assert |Items(c)| == 1 ==> Items(c)[1..] == [];
      }
    }
  }

  lemma TidyItems(k: Kind, c: Content)
    requires Fits(k, c) && (k == ViaKind || k == RouteKind)
    ensures Items(c) != [] && (Items(c)[0].Unreadable? <==> !Readable(c))
    ensures Items(c)[0].OfVia? <==> c.ViaList?
  {
  }

  /** Adding a Via puts exactly one entry in front and leaves all other headers alone. */
  lemma PushViaAddsFirst(v: View, via: ViaEntry)
    ensures Flat(PushVia(v, via), ViaKind) == [OfVia(via)] + Flat(v, ViaKind)
    ensures Others(PushVia(v, via), ViaKind) == Others(v, ViaKind)
    ensures Tidy(v) ==> Tidy(PushVia(v, via))
  {
    hide KindOf, Flat, Others;
    NameHasKind(ViaKind);
    var i := First(v, ViaKind);
    var h := HeaderView("Via", ViaList([via]));
    InsertInFront(v, if i < 0 then 0 else i, h);
    assert Items(h.content) == [OfVia(via)];
  }

  lemma PushRecordRouteAddsFirst(v: View, e: RouteEntry)
    ensures Flat(PushRecordRoute(v, e), RecordRouteKind) == [OfRoute(e)] + Flat(v, RecordRouteKind)
    ensures Others(PushRecordRoute(v, e), RecordRouteKind) == Others(v, RecordRouteKind)
    ensures Tidy(v) ==> Tidy(PushRecordRoute(v, e))
  {
    hide KindOf, Flat, Others, RecordRoutePosition;
    NameHasKind(RecordRouteKind);
    var h := HeaderView("Record-Route", RecordRouteList([e]));
    InsertInFront(v, RecordRoutePosition(v), h);
    assert Items(h.content) == [OfRoute(e)];
  }

  /** Pop undoes push. */
  lemma PopUndoesPush(v: View, via: ViaEntry)
    ensures Tidy(v) ==> Flat(PopFirst(PushVia(v, via), ViaKind), ViaKind) == Flat(v, ViaKind)
    ensures PopFirst(PushVia(v, via), ViaKind) == v
  {
    hide KindOf, Flat, Others;
    NameHasKind(ViaKind);
    var i := if First(v, ViaKind) < 0 then 0 else First(v, ViaKind);
    var w := PushVia(v, via);
    assert w[i] == HeaderView("Via", ViaList([via]));
    assert forall j :: 0 <= j < i ==> w[j] == v[j];
    assert First(w, ViaKind) == i;
    assert Remove(w, i) == v;
  }

  /** SetReceived: the first entry of the first Via line records the peer. */
  function SetReceived(v: View, peerAddr: string, peerPort: int): View {
    var i := First(v, ViaKind);
    if i < 0 || !v[i].content.ViaList? || v[i].content.vias == [] then v
    else v[i := v[i].(content := ViaList([Recorded(v[i].content.vias[0], peerAddr, peerPort)] + v[i].content.vias[1..]))]
  }

  lemma SetReceivedRecordsTop(v: View, peerAddr: string, peerPort: int)
    requires Tidy(v)
    ensures Tidy(SetReceived(v, peerAddr, peerPort))
    ensures Others(SetReceived(v, peerAddr, peerPort), ViaKind) == Others(v, ViaKind)
    ensures var f := Flat(v, ViaKind);
      Flat(SetReceived(v, peerAddr, peerPort), ViaKind)
        == if f == [] || !f[0].OfVia? then f else [OfVia(Recorded(f[0].via, peerAddr, peerPort))] + f[1..]
  {
    hide KindOf, Flat, Others, Recorded, Items, First, Own, Foreign, Tidy, SetReceived;
    var i := First(v, ViaKind);
    SetReceivedIsReplacement(v, peerAddr, peerPort);
    TidyAt(v, i);
    if i < 0 {
      FlatOfOtherKinds(v, ViaKind);
    } else {
      var c := v[i].content;
      TidyItems(ViaKind, c);
      ReplaceFirst(v, [v[i]], ViaKind);
      if c.ViaList? {
        var top := Recorded(c.vias[0], peerAddr, peerPort);
        var h := v[i].(content := ViaList([top] + c.vias[1..]));
        ReplaceFirst(v, [h], ViaKind);
        FlatOfOne(h, ViaKind);
        ItemsOfNewTop(c, top);
      }
    }
  }

  lemma SetReceivedIsReplacement(v: View, peerAddr: string, peerPort: int)
    requires Tidy(v)
    ensures Tidy(SetReceived(v, peerAddr, peerPort))
    ensures var i := First(v, ViaKind);
      (i < 0 || !v[i].content.ViaList?) ==> SetReceived(v, peerAddr, peerPort) == v
    ensures var i := First(v, ViaKind);
      (i >= 0 && v[i].content.ViaList?) ==>
        v[i].content.vias != []
        && var top := Recorded(v[i].content.vias[0], peerAddr, peerPort);
           SetReceived(v, peerAddr, peerPort)
             == v[..i] + [v[i].(content := ViaList([top] + v[i].content.vias[1..]))] + v[i + 1..]
  {
    hide KindOf, First, Recorded;
  }

  lemma ItemsOfNewTop(c: Content, top: ViaEntry)
    requires c.ViaList? && c.vias != []
    ensures Items(c) == [OfVia(c.vias[0])] + Items(c)[1..]
    ensures Items(ViaList([top] + c.vias[1..])) == [OfVia(top)] + Items(c)[1..]
  {
  }

  // ---- all Via entries ----

  /** The sent-by hosts of the readable entries of a list. */
  function ViaHosts(f: seq<Item>): seq<string> {
    if f == [] then [] else (if f[0].OfVia? then [f[0].via.host] else []) + ViaHosts(f[1..])
  }

  lemma {:induction false} ViaHostsConcat(f: seq<Item>, g: seq<Item>)
    ensures ViaHosts(f + g) == ViaHosts(f) + ViaHosts(g)
  {
    if f == [] {
      assert f + g == g;
    } else {
      ViaHostsConcat(f[1..], g);
      assert (f + g)[0] == f[0] && (f + g)[1..] == f[1..] + g;
    }
  }

  function Hosts(vs: seq<ViaEntry>): seq<string> {
    seq(|vs|, i requires 0 <= i < |vs| => vs[i].host)
  }

  lemma {:induction false} HostsOfList(vs: seq<ViaEntry>)
    ensures ViaHosts(Items(ViaList(vs))) == Hosts(vs)
  {
    var f := Items(ViaList(vs));
    if vs != [] {
      HostsOfList(vs[1..]);
      assert f[0] == OfVia(vs[0]) && f[1..] == Items(ViaList(vs[1..]));
      assert Hosts(vs) == [vs[0].host] + Hosts(vs[1..]);
    }
  }

  /** One more header line in front of which all lines have been visited. */
  lemma HostsStep(v: View, i: nat)
    requires i < |v| && Tidy(v)
    ensures ViaHosts(Flat(v[..i + 1], ViaKind)) == ViaHosts(Flat(v[..i], ViaKind)) +
              if v[i].Kind() == ViaKind && v[i].content.ViaList? then Hosts(v[i].content.vias) else []
  {
    hide KindOf, Flat, Others, Items, Tidy;
    assert v[..i + 1] == v[..i] + [v[i]];
    FlatConcat(v[..i], [v[i]], ViaKind);
    FlatOfOne(v[i], ViaKind);
    TidyAt(v, i);
    var own := if v[i].Kind() == ViaKind then Items(v[i].content) else [];
    ViaHostsConcat(Flat(v[..i], ViaKind), own);
    if v[i].Kind() == ViaKind {
      if v[i].content.ViaList? {
        HostsOfList(v[i].content.vias);
      } else {
        HostsOfUnreadable(v[i].content);
      }
    }
  }

  lemma HostsOfUnreadable(c: Content)
    requires Fits(ViaKind, c) && !c.ViaList?
    ensures ViaHosts(Items(c)) == []
  {
  }
}
