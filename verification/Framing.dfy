/** message.go and transport.go: messages as bytes on a stream, framed by Content-Length. */
module Framing {
  import opened Wrappers
  import opened Text
  import KeyValues
  import opened SipUris
  import opened NameAddrs
  import opened HeaderViews
  import opened Messages

  datatype StartLine = RequestStart(request: RequestLine) | StatusStart(status: StatusLine) | NoStart
  datatype Field = Field(name: string, value: string)
  datatype Msg = Msg(start: StartLine, fields: seq<Field>, body: string)

  const CONTENT_LENGTH := "Content-Length"
  const CRLF := "\r\n"

  // ---- printing ----

  /** The text of a start line without its line end. */
  function StartText(s: StartLine): string {
    match s
    case RequestStart(r) => r.requestMethod + " " + PrintAddrSpec(r.requestUri) + " " + r.version
    case StatusStart(r) => r.version + " " + Itoa(r.statusCode) + " " + r.reason
    case NoStart => ""
  }

  function PrintStart(s: StartLine): string {
    if s.NoStart? then "" else StartText(s) + CRLF
  }

  /** encodeHeader: fields spelled exactly `Content-Length` are left out. */
  function PrintFields(fs: seq<Field>): string {
    if fs == [] then "" else PrintField(fs[0]) + PrintFields(fs[1..])
  }

  function PrintField(f: Field): string {
    if f.name == CONTENT_LENGTH then "" else f.name + ": " + f.value + CRLF
  }

  lemma PrintFieldsStep(front: string, fs: seq<Field>)
    requires fs != []
    ensures front + PrintFields(fs) == (front + PrintField(fs[0])) + PrintFields(fs[1..])
  {
    hide PrintField;
  }

  function PrintMsg(m: Msg): string {
    PrintStart(m.start) + PrintFields(m.fields) + (CONTENT_LENGTH + ": " + Itoa(|m.body|) + CRLF) + CRLF + m.body
  }

  // ---- reading ----

  /** readLine: the text up to a line feed, without it and without a carriage return before it. */
  function ReadLine(s: string): Option<(string, string)> {
    var p := IndexByte(s, '\n');
    if p == -1 then None
    else Some((if p > 0 && s[p - 1] == '\r' then s[..p - 1] else s[..p], s[p + 1..]))
  }

  function ParseStart(line: string): Option<StartLine> {
    var f := Text.Fields(line);
    if !("SIP/" <= line) then
      if |f| != 3 then None else Some(RequestStart(RequestLine(f[0], ParseAddrSpec(f[1]), f[2])))
    else if |f| < 3 then None
    else
      var code :- Atoi(f[1]);
      Some(StatusStart(StatusLine(f[0], code, Join(f[2..], ' '))))
  }

  function ParseField(line: string): Option<Field> {
    var value :- After(line, ':');
    Some(Field(Before(line, ':'), TrimSpace(value)))
  }

  /** Header lines up to the empty line. */
  function ParseFields(s: string): Option<(seq<Field>, string)>
    decreases |s|
  {
    var next :- ReadLine(s);
    if next.0 == "" then Some(([], next.1))
    else
      var f :- ParseField(next.0);
      var rest :- ParseFields(next.1);
      Some(([f] + rest.0, rest.1))
  }

  /** GetHeaderInt("Content-Length"): the first field that is a spelling of it. */
  function ContentLength(fs: seq<Field>): Option<int> {
    if fs == [] then None
    else if KindOf(fs[0].name) == ContentLengthKind then Atoi(fs[0].value)
    else ContentLength(fs[1..])
  }

  /** ParseMessage: the message at the front of the stream, and what follows it. */
  function ParseMsg(input: string): Option<(Msg, string)> {
    var first :- ReadLine(TrimLeft(input));
    if first.0 == "" then None
    else
      var start :- ParseStart(first.0);
      var head :- ParseFields(first.1);
      TakeBody(start, head.0, head.1)
  }

  function TakeBody(start: StartLine, fs: seq<Field>, rest: string): Option<(Msg, string)> {
    var n :- ContentLength(fs);
    if n < 0 || n > |rest| then None else Some((Msg(start, fs, rest[..n]), rest[n..]))
  }

  // ---- round trip ----

  predicate Token(s: string) {
    s != "" && NoSpace(s)
  }

  predicate WellFormedStart(s: StartLine) {
    match s
    case RequestStart(r) =>
      Token(r.requestMethod) && Token(r.version) && Token(PrintAddrSpec(r.requestUri))
      && PrintableAddr(r.requestUri) && StableAddr(r.requestUri) && !("SIP/" <= StartText(s))
    case StatusStart(r) =>
      Token(r.version) && "SIP/" <= r.version && IsInt64(r.statusCode)
      && Text.Fields(r.reason) != [] && Join(Text.Fields(r.reason), ' ') == r.reason
    case NoStart => false
  }

  predicate WellFormedField(f: Field) {
    ':' !in f.name && '\n' !in f.name && '\n' !in f.value && Trimmed(f.value)
  }

  predicate WellFormed(m: Msg) {
    WellFormedStart(m.start) && (forall f :: f in m.fields ==> WellFormedField(f)) && |m.body| < TWO_63
  }

  function Kept(fs: seq<Field>): seq<Field> {
    if fs == [] then [] else (if fs[0].name == CONTENT_LENGTH then [] else [fs[0]]) + Kept(fs[1..])
  }

  /** The message as the receiver sees it: the length field comes last and tells the truth. */
  function Normalized(m: Msg): Msg {
    m.(fields := Kept(m.fields) + [Field(CONTENT_LENGTH, Itoa(|m.body|))])
  }

  /** The first length field in another spelling (`l`, `content-length`, …), which the printer lets through in
      front of its own, says the length of the body. */
  predicate LengthHonest(m: Msg) {
    var n := ContentLength(Normalized(m).fields);
    n == Some(|m.body|)
  }

  lemma LineEnds(line: string, rest: string)
    requires '\n' !in line
    ensures ReadLine(line + CRLF + rest) == Some((line, rest))
  {
    var front, s := line + ['\r'], line + CRLF + rest;
    assert s == front + ['\n'] + rest;
    IndexAt(front, '\n', rest);
    assert s[|line|] == '\r' && s[..|line|] == line;
  }

  lemma TokenLacks(s: string)
    requires NoSpace(s)
    ensures '\n' !in s
  {
  }

  lemma RequestStartParses(r: RequestLine)
    requires WellFormedStart(RequestStart(r))
    ensures ParseStart(StartText(RequestStart(r))) == Some(RequestStart(r))
    ensures '\n' !in StartText(RequestStart(r)) && StartText(RequestStart(r)) != "" && !IsSpace(StartText(RequestStart(r))[0])
  {
    hide Text.Fields, PrintAddrSpec, ParseAddrSpec, PrintableAddr, StableAddr;
    var uri, text := PrintAddrSpec(r.requestUri), StartText(RequestStart(r));
    var ts := [r.requestMethod, uri, r.version];
    assert ts[1..] == [uri, r.version] && ts[1..][1..] == [r.version];
    assert Join(ts[1..][1..], ' ') == r.version;
    assert Join(ts[1..], ' ') == uri + " " + r.version;
    assert text == Join(ts, ' ');
    FieldsJoin(ts);
    AddrSpecRoundTrip(r.requestUri);
    TokenLacks(r.requestMethod);
    TokenLacks(uri);
    TokenLacks(r.version);
    assert text[0] == r.requestMethod[0];
  }

  lemma {:induction false} JoinTokensLacks(ts: seq<string>)
    requires forall t :: t in ts ==> t != "" && NoSpace(t)
    ensures '\n' !in Join(ts, ' ')
  {
    forall t | t in ts
      ensures '\n' !in t
    {
      TokenLacks(t);
    }
    JoinAvoids(ts, ' ', '\n');
  }

  lemma StatusStartParses(r: StatusLine)
    requires WellFormedStart(StatusStart(r))
    ensures ParseStart(StartText(StatusStart(r))) == Some(StatusStart(r))
    ensures '\n' !in StartText(StatusStart(r)) && StartText(StatusStart(r)) != "" && !IsSpace(StartText(StatusStart(r))[0])
  {
    hide Text.Fields, Itoa, Atoi;
    var ws, code, text := Text.Fields(r.reason), Itoa(r.statusCode), StartText(StatusStart(r));
    var ts := [r.version, code] + ws;
    FieldsAreTokens(r.reason);
    ItoaHasNoSpace(r.statusCode);
    AtoiItoa(r.statusCode);
    assert ts[1..] == [code] + ws && ts[1..][1..] == ws && ts[2..] == ws;
    assert Join(ts[1..], ' ') == code + " " + r.reason;
    assert text == Join(ts, ' ');
    FieldsJoin(ts);
    JoinTokensLacks(ts);
    assert text[0] == r.version[0];
    assert "SIP/" <= text;
  }

  lemma FieldParses(f: Field)
    requires WellFormedField(f)
    ensures ParseField(f.name + ": " + f.value) == Some(f)
    ensures '\n' !in f.name + ": " + f.value && f.name + ": " + f.value != ""
  {
    assert f.name + ": " + f.value == f.name + [':'] + (" " + f.value);
    CutAt(f.name, ':', " " + f.value);
    TrimAfterBlank(f.value);
  }

  lemma FieldsStep(line: string, rest: string)
    requires '\n' !in line && line != "" && ParseField(line).Some?
    ensures ParseFields(line + CRLF + rest)
         == match ParseFields(rest) case None => None case Some(r) => Some(([ParseField(line).value] + r.0, r.1))
  {
    hide ReadLine, ParseField;
    LineEnds(line, rest);
  }

  lemma FieldsStop(rest: string)
    ensures ParseFields(CRLF + rest) == Some(([], rest))
  {
    hide ReadLine, ParseField;
    LineEnds("", rest);
    assert "" + CRLF + rest == CRLF + rest;
  }

  /** The printed header block, its length line and the empty line read back as the kept fields. */
  lemma {:induction false} BlockParses(fs: seq<Field>, n: nat, rest: string)
    requires forall f :: f in fs ==> WellFormedField(f)
    ensures ParseFields(PrintFields(fs) + (CONTENT_LENGTH + ": " + Itoa(n) + CRLF) + CRLF + rest)
         == Some((Kept(fs) + [Field(CONTENT_LENGTH, Itoa(n))], rest))
  {
    hide ParseFields, ParseField, Itoa, WellFormedField, PrintFields, Kept;
    var own := Field(CONTENT_LENGTH, Itoa(n));
    var ownLine := CONTENT_LENGTH + ": " + Itoa(n);
    if fs == [] {
      NoFieldsAtAll();
      LengthFieldWellFormed(n);
      FieldParses(own);
      FieldsStop(rest);
      FieldsStep(ownLine, CRLF + rest);
      assert PrintFields(fs) + (ownLine + CRLF) + CRLF + rest == ownLine + CRLF + (CRLF + rest);
      assert Kept(fs) + [own] == [own] + [];
    } else {
      var f, more := fs[0], fs[1..];
      assert f in fs && forall g :: g in more ==> g in fs;
      BlockParses(more, n, rest);
      FieldsHead(fs);
      var block := PrintFields(more) + (ownLine + CRLF) + CRLF + rest;
      assert PrintFields(fs) + (ownLine + CRLF) + CRLF + rest == PrintField(f) + block;
      if f.name == CONTENT_LENGTH {
        assert PrintField(f) + block == block;
      } else {
        FieldParses(f);
        FieldsStep(f.name + ": " + f.value, block);
        assert ([f] + Kept(more)) + [own] == [f] + (Kept(more) + [own]);
      }
    }
  }

  lemma NoFieldsAtAll()
    ensures PrintFields([]) == "" && Kept([]) == []
  {
  }

  lemma FieldsHead(fs: seq<Field>)
    requires fs != []
    ensures PrintFields(fs) == PrintField(fs[0]) + PrintFields(fs[1..])
    ensures Kept(fs) == if fs[0].name == CONTENT_LENGTH then Kept(fs[1..]) else [fs[0]] + Kept(fs[1..])
  {
  }

  lemma LengthFieldWellFormed(n: nat)
    ensures WellFormedField(Field(CONTENT_LENGTH, Itoa(n)))
  {
    hide Itoa;
    ItoaLacks(n, '\n');
    ItoaHasNoSpace(n);
    assert ':' !in CONTENT_LENGTH && '\n' !in CONTENT_LENGTH;
  }

  lemma StartParses(s: StartLine)
    requires WellFormedStart(s)
    ensures ParseStart(StartText(s)) == Some(s) && PrintStart(s) == StartText(s) + CRLF
    ensures '\n' !in StartText(s) && StartText(s) != "" && !IsSpace(StartText(s)[0])
  {
    hide ParseStart, WellFormedStart, PrintAddrSpec, Itoa;
    match s {
      case RequestStart(r) => RequestStartParses(r);
      case StatusStart(r) => StatusStartParses(r);
      case NoStart => NoStartIsMalformed();
    }
  }

  lemma NoStartIsMalformed()
    ensures !WellFormedStart(NoStart)
  {
  }

  /** What the parser makes of a printed message followed by more of the stream, before the body is cut. */
  lemma PrintedHeadParses(m: Msg, rest: string)
    requires WellFormed(m)
    ensures ParseMsg(PrintMsg(m) + rest) == TakeBody(m.start, Normalized(m).fields, m.body + rest)
  {
    hide ReadLine, ParseStart, ParseFields, PrintStart, PrintFields, Itoa, WellFormedStart, WellFormedField, TakeBody, Kept, StartText;
    StartParses(m.start);
    BlockParses(m.fields, |m.body|, m.body + rest);
    var own := CONTENT_LENGTH + ": " + Itoa(|m.body|) + CRLF;
    var block := PrintFields(m.fields) + own + CRLF + (m.body + rest);
    var text := PrintMsg(m) + rest;
    assert text == StartText(m.start) + CRLF + block;
    assert text[0] == StartText(m.start)[0];
    assert TrimLeft(text) == text;
    LineEnds(StartText(m.start), block);
  }

  /** A printed message is read back, in its normal form and consuming exactly its bytes, exactly when no other
      spelling of the length field contradicts the body. */
  lemma MessageRoundTrip(m: Msg, rest: string)
    requires WellFormed(m)
    ensures ParseMsg(PrintMsg(m) + rest) == Some((Normalized(m), rest)) <==> LengthHonest(m)
  {
    hide ParseMsg, PrintMsg, ContentLength, Kept, WellFormed;
    PrintedHeadParses(m, rest);
    var bytes := m.body + rest;
    assert bytes[..|m.body|] == m.body && bytes[|m.body|..] == rest;
  }

  /** A message whose exact length header is followed by the short one, as it may come in. */
  function ReceivedTwice(start: StartLine, body: string): string {
    StartText(start) + CRLF + (CONTENT_LENGTH + ": " + Itoa(|body|) + CRLF + ("l: 0" + CRLF + (CRLF + body)))
  }

  function ReadTwice(start: StartLine, body: string): Msg {
    Msg(start, [Field(CONTENT_LENGTH, Itoa(|body|)), Field("l", "0")], body)
  }

  lemma ShortLength()
    ensures KindOf("l") == ContentLengthKind && KindOf(CONTENT_LENGTH) == ContentLengthKind
    ensures Atoi("0") == Some(0) && WellFormedField(Field("l", "0"))
  {
    NameHasKind(ContentLengthKind);
    assert Lower("l") == "l";
    assert Digits("0") == 0;
  }

  lemma ReceivedHeadParses(start: StartLine, body: string)
    requires WellFormedStart(start)
    ensures ParseMsg(ReceivedTwice(start, body)) == TakeBody(start, ReadTwice(start, body).fields, body)
  {
    hide ReadLine, ParseStart, ParseFields, ParseField, PrintStart, Itoa, WellFormedStart, WellFormedField, TakeBody, StartText, KindOf;
    ShortLength();
    StartParses(start);
    var own, short := Field(CONTENT_LENGTH, Itoa(|body|)), Field("l", "0");
    LengthFieldWellFormed(|body|);
    FieldParses(own);
    FieldParses(short);
    var line := CONTENT_LENGTH + ": " + Itoa(|body|);
    assert short.name + ": " + short.value == "l: 0";
    FieldsStop(body);
    FieldsStep("l: 0", CRLF + body);
    FieldsStep(line, "l: 0" + CRLF + (CRLF + body));
    var text, block := ReceivedTwice(start, body), line + CRLF + ("l: 0" + CRLF + (CRLF + body));
    assert text == StartText(start) + CRLF + block;
    assert text[0] == StartText(start)[0];
    assert TrimLeft(text) == text;
    LineEnds(StartText(start), block);
    assert [short] + [] == [short] && [own] + [short] == [own, short];
  }

  /** Such a message is read with its body, but its print is read without: the body stays on the stream. */
  lemma TwoLengthsMisframe(start: StartLine, body: string)
    requires WellFormedStart(start) && 0 < |body| < TWO_63
    ensures var m := ReadTwice(start, body);
      && ParseMsg(ReceivedTwice(start, body)) == Some((m, "")) && WellFormed(m) && !LengthHonest(m)
      && ParseMsg(PrintMsg(m)) == Some((Msg(start, [Field("l", "0"), Field(CONTENT_LENGTH, Itoa(|body|))], ""), body))
  {
    hide ParseMsg, PrintMsg, KindOf, Itoa, Atoi, WellFormedStart, WellFormedField;
    var m := ReadTwice(start, body);
    var own, short := Field(CONTENT_LENGTH, Itoa(|body|)), Field("l", "0");
    ShortLength();
    LengthFieldWellFormed(|body|);
    AtoiItoa(|body|);
    ReceivedHeadParses(start, body);
    PrintedHeadParses(m, "");
    assert PrintMsg(m) + "" == PrintMsg(m) && body + "" == body;
    assert m.fields[1..] == [short] && [short][1..] == [];
    assert Kept([short]) == [short] && Kept(m.fields) == [short];
    assert Normalized(m).fields == [short, own];
  }

  /** For instance a `200 OK`. */
  lemma OkStart()
    ensures WellFormedStart(StatusStart(StatusLine("SIP/2.0", 200, "OK")))
  {
    hide Text.Fields;
    FieldsFirst("OK", "");
    FieldsOfNothing();
    assert "OK" + "" == "OK" && ["OK"] + [] == ["OK"];
  }

  /** Without another spelling the length is always honest. */
  lemma {:induction false} OneSpellingIsHonest(fs: seq<Field>, body: string)
    requires |body| < TWO_63
    requires forall f :: f in fs && KindOf(f.name) == ContentLengthKind ==> f.name == CONTENT_LENGTH
    ensures ContentLength(Kept(fs) + [Field(CONTENT_LENGTH, Itoa(|body|))]) == Some(|body|)
  {
    hide KindOf, Itoa, Atoi;
    if fs == [] {
      NameHasKind(ContentLengthKind);
      AtoiItoa(|body|);
      assert Kept(fs) + [Field(CONTENT_LENGTH, Itoa(|body|))] == [Field(CONTENT_LENGTH, Itoa(|body|))];
    } else {
      assert fs[0] in fs && forall f :: f in fs[1..] ==> f in fs;
      OneSpellingIsHonest(fs[1..], body);
      var own := [Field(CONTENT_LENGTH, Itoa(|body|))];
      if fs[0].name == CONTENT_LENGTH {
        assert Kept(fs) == Kept(fs[1..]);
      } else {
        assert Kept(fs) + own == [fs[0]] + (Kept(fs[1..]) + own);
        assert ([fs[0]] + (Kept(fs[1..]) + own))[1..] == Kept(fs[1..]) + own;
      }
    }
  }

  lemma {:induction false} KeptTwice(fs: seq<Field>)
    ensures Kept(Kept(fs)) == Kept(fs) && PrintFields(Kept(fs)) == PrintFields(fs)
  {
    if fs != [] {
      KeptTwice(fs[1..]);
      if fs[0].name == CONTENT_LENGTH {
        assert Kept(fs) == Kept(fs[1..]);
      } else {
        assert Kept(fs)[1..] == Kept(fs[1..]);
      }
    }
  }

  lemma {:induction false} PrintWithLength(fs: seq<Field>, f: Field)
    requires f.name == CONTENT_LENGTH
    ensures PrintFields(fs + [f]) == PrintFields(fs) && Kept(fs + [f]) == Kept(fs)
  {
    if fs == [] {
      assert fs + [f] == [f] && [f][1..] == [];
    } else {
      PrintWithLength(fs[1..], f);
      assert (fs + [f])[0] == fs[0] && (fs + [f])[1..] == fs[1..] + [f];
    }
  }

  /** The normal form prints to the same bytes, and is its own normal form. */
  lemma NormalizedPrintsSame(m: Msg)
    ensures PrintMsg(Normalized(m)) == PrintMsg(m)
    ensures Normalized(Normalized(m)) == Normalized(m)
    ensures WellFormed(m) ==> WellFormed(Normalized(m))
    ensures LengthHonest(m) ==> LengthHonest(Normalized(m))
  {
    hide PrintStart, PrintFields, Kept, Itoa, ContentLength, WellFormedStart, WellFormedField;
    var own := Field(CONTENT_LENGTH, Itoa(|m.body|));
    PrintWithLength(Kept(m.fields), own);
    KeptTwice(m.fields);
    LengthFieldWellFormed(|m.body|);
    KeptWithin(m.fields);
  }

  lemma {:induction false} KeptWithin(fs: seq<Field>)
    ensures forall f :: f in Kept(fs) ==> f in fs
  {
    if fs != [] {
      KeptWithin(fs[1..]);
    }
  }

  // ---- any text, printed or not ----

  /** A header line is read as its name and its value, however much white space there is around the value, also none. */
  lemma FieldLineReads(name: string, a: string, v: string, b: string)
    requires ':' !in name && AllSpace(a) && Trimmed(v) && AllSpace(b)
    ensures ParseField(name + ":" + (a + v + b)) == Some(Field(name, v))
  {
    hide TrimSpace, Before, After, IndexByte, IsSpace;
    assert name + ":" + (a + v + b) == name + [':'] + (a + v + b);
    CutAt(name, ':', a + v + b);
    TrimSpaceStrips(a, v, b);
  }

  /** The same for a line of a header block. */
  lemma HeaderLineReads(name: string, a: string, v: string, b: string, rest: string)
    requires ':' !in name && AllSpace(a) && Trimmed(v) && AllSpace(b) && '\n' !in name + a + v + b
    ensures ParseFields(name + ":" + (a + v + b) + CRLF + rest)
         == match ParseFields(rest) case None => None case Some(r) => Some(([Field(name, v)] + r.0, r.1))
  {
    hide ParseField, ParseFields, IsSpace;
    FieldLineReads(name, a, v, b);
    FieldsStep(name + ":" + (a + v + b), rest);
  }

  /** A line without a colon makes the block unreadable, and so does a block without an empty line. */
  lemma NoColonRefused(line: string, rest: string)
    requires line != "" && ':' !in line && '\n' !in line
    ensures ParseFields(line + CRLF + rest) == None
    ensures '\n' !in rest ==> ParseFields(rest) == None
  {
    hide ReadLine, After, Before;
    LineEnds(line, rest);
    if '\n' !in rest {
      NoLine(rest);
    }
  }

  lemma NoLine(s: string)
    requires '\n' !in s
    ensures ReadLine(s) == None
  {
  }

  /** A line may end in a line feed alone. */
  lemma BareLineEnds(line: string, rest: string)
    requires '\n' !in line && (line != "" ==> line[|line| - 1] != '\r')
    ensures ReadLine(line + "\n" + rest) == Some((line, rest))
  {
    assert line + "\n" + rest == line + ['\n'] + rest;
    IndexAt(line, '\n', rest);
    assert line != "" ==> (line + "\n" + rest)[|line| - 1] == line[|line| - 1];
  }

  /** The first length field in any spelling counts; without one there is no length. */
  lemma {:induction false} FirstLengthCounts(fs: seq<Field>, f: Field, more: seq<Field>)
    requires (forall g :: g in fs ==> KindOf(g.name) != ContentLengthKind) && KindOf(f.name) == ContentLengthKind
    ensures ContentLength(fs + [f] + more) == Atoi(f.value) && ContentLength(fs) == None
  {
    hide KindOf, Atoi;
    if fs == [] {
      assert (fs + [f] + more)[0] == f;
    } else {
      assert fs[0] in fs && forall g :: g in fs[1..] ==> g in fs;
      FirstLengthCounts(fs[1..], f, more);
      assert (fs + [f] + more)[1..] == fs[1..] + [f] + more;
    }
  }

  /** A message whose only header is a length, in any spelling and spacing, takes exactly that many bytes as its body,
      and is refused when there are not that many. */
  lemma LengthFrames(start: StartLine, name: string, a: string, d: string, b: string, bytes: string)
    requires WellFormedStart(start) && KindOf(name) == ContentLengthKind && ':' !in name && '\n' !in name
    requires AllSpace(a) && AllSpace(b) && '\n' !in a + b
    requires d != "" && AllDigits(d) && Digits(d) < TWO_63
    ensures ParseMsg(StartText(start) + CRLF + (name + ":" + (a + d + b) + CRLF + (CRLF + bytes)))
         == if Digits(d) <= |bytes| then Some((Msg(start, [Field(name, d)], bytes[..Digits(d)]), bytes[Digits(d)..])) else None
  {
    hide ReadLine, ParseStart, ParseFields, ParseField, WellFormedStart, StartText, KindOf, Digits, IsSpace, TrimLeft;
    DigitsAreTrimmed(d);
    HeaderLineReads(name, a, d, b, CRLF + bytes);
    FieldsStop(bytes);
    var f, block := Field(name, d), name + ":" + (a + d + b) + CRLF + (CRLF + bytes);
    assert [f] + [] == [f];
    OnlyLength(f);
    AtoiOfDigits(d);
    StartThenBlock(start, block);
  }

  lemma DigitsAreTrimmed(d: string)
    requires AllDigits(d)
    ensures Trimmed(d) && '\n' !in d
  {
  }

  lemma AtoiOfDigits(d: string)
    requires d != "" && AllDigits(d) && Digits(d) < TWO_63
    ensures Atoi(d) == Some(Digits(d))
  {
    SignedNumber(d, TWO_63);
  }

  lemma OnlyLength(f: Field)
    requires KindOf(f.name) == ContentLengthKind
    ensures ContentLength([f]) == Atoi(f.value)
  {
  }

  /** After a start line comes the header block, then the body. */
  lemma StartThenBlock(start: StartLine, block: string)
    requires WellFormedStart(start)
    ensures ParseMsg(StartText(start) + CRLF + block)
         == match ParseFields(block) case None => None case Some(head) => TakeBody(start, head.0, head.1)
  {
    hide ReadLine, ParseStart, ParseFields, WellFormedStart, StartText, TakeBody;
    StartParses(start);
    var text := StartText(start) + CRLF + block;
    assert text[0] == StartText(start)[0];
    assert TrimLeft(text) == text;
    LineEnds(StartText(start), block);
  }

  /** A message without any header, and so without a length, is refused. */
  lemma NoLengthRefused(start: StartLine, bytes: string)
    requires WellFormedStart(start)
    ensures ParseMsg(StartText(start) + CRLF + (CRLF + bytes)) == None
  {
    hide ParseFields, WellFormedStart, StartText, ParseMsg;
    StartThenBlock(start, CRLF + bytes);
    FieldsStop(bytes);
  }

  /** White space in front of a message is skipped. */
  lemma LeadingSpaceSkipped(a: string, text: string)
    requires AllSpace(a)
    ensures ParseMsg(a + text) == ParseMsg(text)
  {
    hide ReadLine, ParseStart, ParseFields, TakeBody, TrimLeft, IsSpace;
    TrimLeftStrips(a, text);
  }

  /** Request lines need exactly three fields, status lines at least three and a number for the second. */
  lemma StartRefused(x: string, y: string, z: string, u: string)
    requires forall t :: t in [x, y, z, u] ==> Token(t)
    requires !("SIP/" <= x + " ")
    ensures ParseStart(x + " " + y) == None && ParseStart(x + " " + (y + " " + (z + " " + u))) == None
    ensures ParseStart(x + " " + (y + " " + z)) == Some(RequestStart(RequestLine(x, ParseAddrSpec(y), z)))
  {
    hide Text.Fields, ParseAddrSpec;
    assert x in [x, y, z, u] && y in [x, y, z, u] && z in [x, y, z, u] && u in [x, y, z, u];
    JoinedFields(x, y, z, u);
    NoStatus(x, y);
    NoStatus(x, y + " " + z);
    NoStatus(x, y + " " + (z + " " + u));
  }

  lemma NoStatus(x: string, more: string)
    requires !("SIP/" <= x + " ") && NoSpace(x)
    ensures !("SIP/" <= x + " " + more)
  {
    var s := x + " " + more;
    var n := if |x| < 3 then |x| + 1 else 4;
    assert s[..n] == (x + " ")[..n];
    assert |x| < 3 ==> s[|x|] == ' ' && "SIP/"[|x|] != ' ';
  }

  lemma JoinedFields(x: string, y: string, z: string, u: string)
    requires Token(x) && Token(y) && Token(z) && Token(u)
    ensures Text.Fields(x + " " + y) == [x, y] && Text.Fields(x + " " + (y + " " + z)) == [x, y, z]
    ensures Text.Fields(x + " " + (y + " " + (z + " " + u))) == [x, y, z, u]
  {
    hide Text.Fields;
    assert [x, y][1..] == [y] && [x, y, z][1..] == [y, z] && [y, z][1..] == [z];
    assert [x, y, z, u][1..] == [y, z, u] && [y, z, u][1..] == [z, u] && [z, u][1..] == [u];
    assert Join([u], ' ') == u && Join([z], ' ') == z && Join([y], ' ') == y;
    assert Join([z, u], ' ') == z + " " + u && Join([y, z], ' ') == y + " " + z;
    assert Join([y, z, u], ' ') == y + " " + (z + " " + u);
    FieldsJoin([x, y]);
    FieldsJoin([x, y, z]);
    FieldsJoin([x, y, z, u]);
  }

  lemma StatusRefused(version: string, code: string, reason: string)
    requires Token(version) && Token(code) && Token(reason) && "SIP/" <= version
    ensures ParseStart(version + " " + code) == None
    ensures ParseStart(version + " " + (code + " " + reason))
         == match Atoi(code) case None => None case Some(n) => Some(StatusStart(StatusLine(version, n, reason)))
  {
    hide Text.Fields, Atoi;
    JoinedFields(version, code, reason, reason);
    assert [version, code, reason][2..] == [reason];
  }

  // ---- the domain ----

  lemma LineLacks(s: string)
    requires ReadLine(s).Some?
    ensures '\n' !in ReadLine(s).value.0 && ReadLine(s).value.0 <= s
  {
    var p := IndexByte(s, '\n');
    assert forall i :: 0 <= i < p ==> s[i] != '\n';
  }

  lemma ReadFieldIsWellFormed(line: string)
    requires '\n' !in line && ParseField(line).Some?
    ensures WellFormedField(ParseField(line).value)
  {
    hide IndexByte, Before, After, TrimSpace;
    CutLacks(line, ':', '\n');
    TrimSpaceLacks(After(line, ':').value, '\n');
    TrimSpaceTrims(After(line, ':').value);
  }

  lemma {:induction false} ReadFieldsAreWellFormed(s: string)
    requires ParseFields(s).Some?
    ensures forall f :: f in ParseFields(s).value.0 ==> WellFormedField(f)
    decreases |s|
  {
    hide ParseField, WellFormedField;
    LineLacks(s);
    var next := ReadLine(s).value;
    if next.0 != "" {
      ReadFieldIsWellFormed(next.0);
      ReadFieldsAreWellFormed(next.1);
    }
  }

  lemma NoSpaceLacks(s: string)
    ensures NoSpace(s) <==> forall c :: IsSpace(c) ==> c !in s
  {
    assert forall i :: 0 <= i < |s| ==> s[i] in s;
  }

  /** The printed address of a token is a token. */
  lemma ReprintedToken(t: string)
    requires Token(t)
    ensures Token(PrintAddrSpec(ParseAddrSpec(t))) && PrintableAddr(ParseAddrSpec(t))
  {
    hide ParseUri, PrintUri, Printable, NoSpace;
    if ParseUri(t).Some? {
      NoSpaceLacks(t);
      var text := PrintUri(ParseUri(t).value);
      forall c | IsSpace(c)
        ensures c !in text
      {
        ReprintLacks(t, c);
      }
      NoSpaceLacks(text);
      PrintIsNotEmpty(ParseUri(t).value);
      ParsedIsPrintable(t);
    }
  }

  lemma PrintIsNotEmpty(u: Uri)
    ensures PrintUri(u) != ""
  {
    hide PrintAddress, KeyValues.PrintParams, PrintHeaders;
  }

  /** The first field of a line that does not start with white space is its beginning. */
  lemma FirstField(line: string)
    requires line != "" && !IsSpace(line[0])
    ensures Text.Fields(line) != [] && Text.Fields(line)[0] <= line
    ensures |Text.Fields(line)[0]| < |line| ==> IsSpace(line[|Text.Fields(line)[0]|])
  {
  }

  lemma ReadStartIsWellFormed(line: string)
    requires line != "" && !IsSpace(line[0]) && ParseStart(line).Some?
    ensures var s := ParseStart(line).value;
      WellFormedStart(s) <==> (s.RequestStart? ==> StableAddr(s.request.requestUri))
  {
    hide Text.Fields, ParseAddrSpec, PrintAddrSpec, PrintableAddr, StableAddr, Atoi;
    var f := Text.Fields(line);
    FieldsAreTokens(line);
    FirstField(line);
    assert f[0] in f;
    if !("SIP/" <= line) {
      assert f[1] in f && f[2] in f;
      ReprintedToken(f[1]);
      NotAStatus(f[0], StartText(ParseStart(line).value), line);
    } else {
      StatusVersion(f[0], line);
      AtoiInRange(f[1]);
      assert f[2] in f[2..] && forall t :: t in f[2..] ==> t in f;
      FieldsJoin(f[2..]);
    }
  }

  lemma AtoiInRange(s: string)
    ensures Atoi(s).Some? ==> IsInt64(Atoi(s).value)
  {
  }

  lemma NotAStatus(word: string, text: string, line: string)
    requires NoSpace(word) && word <= line && word + " " <= text && !("SIP/" <= line)
    ensures !("SIP/" <= text)
  {
    assert forall i :: 0 <= i < |word| ==> line[i] == word[i] == (word + " ")[i] == text[i];
    assert text[|word|] == (word + " ")[|word|] == ' ';
    assert forall i :: 0 <= i < 4 ==> "SIP/"[i] != ' ';
  }

  lemma StatusVersion(version: string, line: string)
    requires version <= line && "SIP/" <= line && (|version| < |line| ==> IsSpace(line[|version|]))
    ensures "SIP/" <= version
  {
    assert forall i :: 0 <= i < 4 ==> line[i] == "SIP/"[i] && !IsSpace(line[i]);
  }

  lemma FirstLineStarts(input: string)
    requires ReadLine(TrimLeft(input)).Some? && ReadLine(TrimLeft(input)).value.0 != ""
    ensures !IsSpace(ReadLine(TrimLeft(input)).value.0[0])
  {
    TrimLeftTrims(input);
    LineLacks(TrimLeft(input));
  }

  lemma BodyWithinLength(start: StartLine, fs: seq<Field>, rest: string)
    requires TakeBody(start, fs, rest).Some?
    ensures |TakeBody(start, fs, rest).value.0.body| < TWO_63
    decreases |fs|
  {
    hide KindOf, Atoi;
    if KindOf(fs[0].name) == ContentLengthKind {
      AtoiInRange(fs[0].value);
    } else {
      BodyWithinLength(start, fs[1..], rest);
    }
  }

  /** Everything the parser accepts is in the domain of the round trips, but for request URIs that are not stable. */
  lemma ParsedIsWellFormed(input: string)
    requires ParseMsg(input).Some?
    ensures var m := ParseMsg(input).value.0;
      WellFormed(m) <==> (m.start.RequestStart? ==> StableAddr(m.start.request.requestUri))
  {
    hide TrimLeft, ReadLine, ParseStart, ParseFields, ContentLength, WellFormedStart, WellFormedField, StableAddr;
    var first := ReadLine(TrimLeft(input)).value;
    FirstLineStarts(input);
    ReadStartIsWellFormed(first.0);
    ReadFieldsAreWellFormed(first.1);
    var head := ParseFields(first.1).value;
    BodyWithinLength(ParseStart(first.0).value, head.0, head.1);
  }

  // ---- streams ----

  function PrintAll(ms: seq<Msg>): string {
    if ms == [] then "" else PrintMsg(ms[0]) + PrintAll(ms[1..])
  }

  /** Reading `n` messages one after the other, as the receive loop does. */
  function ParseMany(input: string, n: nat): Option<(seq<Msg>, string)>
    decreases n
  {
    if n == 0 then Some(([], input))
    else
      var first :- ParseMsg(input);
      var more :- ParseMany(first.1, n - 1);
      Some(([first.0] + more.0, more.1))
  }

  function NormalizedAll(ms: seq<Msg>): seq<Msg> {
    if ms == [] then [] else [Normalized(ms[0])] + NormalizedAll(ms[1..])
  }

  /** Any number of messages written back to back are read in order, each exactly, whatever bytes their bodies
      hold and whatever follows. */
  lemma {:induction false} StreamFraming(ms: seq<Msg>, rest: string)
    requires forall m :: m in ms ==> WellFormed(m) && LengthHonest(m)
    ensures ParseMany(PrintAll(ms) + rest, |ms|) == Some((NormalizedAll(ms), rest))
  {
    hide ParseMsg, PrintMsg, WellFormed, LengthHonest, Normalized;
    if ms == [] {
      assert PrintAll(ms) + rest == rest;
    } else {
      assert ms[0] in ms && forall m :: m in ms[1..] ==> m in ms;
      StreamFraming(ms[1..], rest);
      MessageRoundTrip(ms[0], PrintAll(ms[1..]) + rest);
      assert PrintAll(ms) + rest == PrintMsg(ms[0]) + (PrintAll(ms[1..]) + rest);
    }
  }

  /** What was read prints to the bytes it was read from. */
  lemma {:induction false} StreamReprints(ms: seq<Msg>)
    ensures PrintAll(NormalizedAll(ms)) == PrintAll(ms)
  {
    hide PrintMsg, Normalized;
    if ms != [] {
      StreamReprints(ms[1..]);
      NormalizedPrintsSame(ms[0]);
      assert NormalizedAll(ms)[1..] == NormalizedAll(ms[1..]);
    }
  }
}

/** The reader and writer of messages as the receive loops and transports run them. */
module MessageIO {
  import opened Wrappers
  import opened Text
  import opened Parties
  import opened Routes
  import opened Vias
  import opened HeaderViews
  import opened Messages
  import opened Framing

  /** The text a header value prints as. */
  ghost function PrintedValue(v: HeaderValue): string
    reads v.Objects(), if v.AsVia? then {v.via} else {}
  {
    match v
    case Raw(t) => t
    case AsVia(via) => PrintVia(via.Value())
    case AsRoute(r) => PrintRoute(r.routeParams)
    case AsRecordRoute(r) => PrintRecordRoute(r.recRoute)
    case AsFrom(f) => PrintParty(f.Value())
    case AsTo(t) => PrintParty(t.Value())
    case AsCSeq(c) => Itoa(c.number) + " " + c.cseqMethod
  }

  ghost function PrintedField(h: Header): Field
    requires h.Valid()
    reads h, h.repr
  {
    Field(h.name, PrintedValue(h.value))
  }

  ghost function PrintedFields(hs: seq<Header>): (r: seq<Field>)
    requires forall i :: 0 <= i < |hs| ==> hs[i].Valid()
    reads hs, set i, o | 0 <= i < |hs| && o in hs[i].repr :: o
    ensures |r| == |hs|
    ensures forall i :: 0 <= i < |hs| ==> r[i] == PrintedField(hs[i])
  {
    seq(|hs|, i requires 0 <= i < |hs| && hs[i].Valid() reads hs, set j, o | 0 <= j < |hs| && o in hs[j].repr :: o
      => PrintedField(hs[i]))
  }

  /** The fields of headers that have not been parsed yet. */
  function Texts(hs: seq<Header>): (r: seq<Field>)
    reads hs
    ensures |r| == |hs|
    ensures forall i :: 0 <= i < |hs| ==>
      r[i] == Field(hs[i].name, if hs[i].value.Raw? then hs[i].value.text else "")
  {
    seq(|hs|, i requires 0 <= i < |hs| reads hs =>
      Field(hs[i].name, if hs[i].value.Raw? then hs[i].value.text else ""))
  }

  function StartOf(m: Message): StartLine
    reads m
  {
    if m.request.Some? then RequestStart(m.request.value)
    else if m.response.Some? then StatusStart(m.response.value)
    else NoStart
  }

  /** The message as the bytes-level model sees it. */
  ghost function Printed(m: Message): Msg
    requires m.Valid()
    reads m, m.repr
  {
    Msg(StartOf(m), PrintedFields(m.headers), m.body)
  }

  class Reader {
    const data: string
    var pos: nat

    ghost predicate Valid()
      reads this
    {
      pos <= |data|
    }

    /** What has not been read yet. */
    function Rest(): string
      requires Valid()
      reads this
    {
      data[pos..]
    }

    constructor (data: string)
      ensures Valid() && Rest() == data
    {
      this.data, pos := data, 0;
    }

    method ReadLine() returns (line: Option<string>)
      requires Valid()
      modifies this
      ensures Valid()
      ensures line.None? <==> Framing.ReadLine(old(Rest())).None?
      ensures line.Some? ==> Framing.ReadLine(old(Rest())) == Some((line.value, Rest()))
    {
      hide IndexByte;
      ghost var before := Rest();
      var p := IndexByte(data[pos..], '\n');
      if p == -1 {
        pos := |data|;
        return None;
      }
      var text := data[pos..pos + p];
      assert text == before[..p];
      pos := pos + p + 1;
      assert Rest() == before[p + 1..];
      if |text| > 0 && text[|text| - 1] == '\r' {
        text := text[..|text| - 1];
        assert text == before[..p - 1];
      }
      return Some(text);
    }

    method SkipWhiteSpace()
      requires Valid()
      modifies this
      ensures Valid() && Rest() == TrimLeft(old(Rest()))
    {
      while pos < |data| && IsSpace(data[pos])
        invariant Valid() && TrimLeft(Rest()) == TrimLeft(old(Rest()))
        decreases |data| - pos
      {
        assert Rest()[0] == data[pos] && Rest()[1..] == data[pos + 1..];
        pos := pos + 1;
      }
    }

    /** ReadFull. */
    method ReadBody(n: nat) returns (body: Option<string>)
      requires Valid()
      modifies this
      ensures Valid()
      ensures body.Some? <==> n <= |old(Rest())|
      ensures body.Some? ==> body.value == old(Rest())[..n] && Rest() == old(Rest())[n..]
    {
      if n > |data| - pos {
        pos := |data|;
        return None;
      }
      body := Some(data[pos..pos + n]);
      pos := pos + n;
    }
  }

  ghost function Prefixed(fs: seq<Field>, rest: Option<(seq<Field>, string)>): Option<(seq<Field>, string)> {
    match rest
    case None => None
    case Some(r) => Some((fs + r.0, r.1))
  }

  lemma PrefixedStep(fs: seq<Field>, f: Field, rest: Option<(seq<Field>, string)>)
    ensures Prefixed(fs, match rest case None => None case Some(r) => Some(([f] + r.0, r.1))) == Prefixed(fs + [f], rest)
  {
    if rest.Some? {
      assert fs + ([f] + rest.value.0) == (fs + [f]) + rest.value.0;
    }
  }

  datatype LineRead = Bad | Last | Next(f: Field)

  /** One turn of the header loop of ParseMessage. */
  method ParseHeaderLine(reader: Reader, m: Message) returns (r: LineRead)
    requires reader.Valid() && m.Valid() && reader !in m.repr
    modifies reader, m
    ensures reader.Valid() && m.Valid() && fresh(m.repr - old(m.repr))
    ensures m.request == old(m.request) && m.response == old(m.response) && m.body == old(m.body)
    ensures r.Bad? ==> ParseFields(old(reader.Rest())) == None
    ensures r.Last? ==> ParseFields(old(reader.Rest())) == Some(([], reader.Rest())) && m.headers == old(m.headers)
    ensures r.Next? ==>
      && |reader.Rest()| < |old(reader.Rest())|
      && ParseFields(old(reader.Rest())) == Prefixed([r.f], ParseFields(reader.Rest()))
      && |m.headers| == |old(m.headers)| + 1 && m.headers[..|old(m.headers)|] == old(m.headers)
      && m.headers[|old(m.headers)|].name == r.f.name && m.headers[|old(m.headers)|].value == Raw(r.f.value)
    ensures forall h :: h in old(m.headers) ==> h.value == old(h.value)
  {
    hide Framing.ReadLine, ParseField;
    Shorter(reader.Rest());
    var line := reader.ReadLine();
    if line.None? {
      return Bad;
    }
    if |line.value| == 0 {
      return Last;
    }
    var f := ParseField(line.value);
    if f.None? {
      return Bad;
    }
    m.AddHeader(f.value.name, f.value.value);
    return Next(f.value);
  }

  /** The header loop of ParseMessage. */
  method ParseHeaders(reader: Reader, m: Message) returns (ok: bool)
    requires reader.Valid() && m.Valid() && m.headers == [] && reader !in m.repr
    modifies reader, m
    ensures reader.Valid() && m.Valid() && fresh(m.repr - old(m.repr))
    ensures ok <==> ParseFields(old(reader.Rest())).Some?
    ensures ok ==> ParseFields(old(reader.Rest())) == Some((Texts(m.headers), reader.Rest()))
    ensures ok ==> forall i :: 0 <= i < |m.headers| ==> m.headers[i].value.Raw?
    ensures m.request == old(m.request) && m.response == old(m.response) && m.body == old(m.body)
  {
    hide ParseFields;
    ghost var block := reader.Rest();
    assert forall fs: seq<Field> :: [] + fs == fs;
    assert forall fs: seq<Field> :: fs + [] == fs;
    while true
      invariant reader.Valid() && m.Valid() && fresh(m.repr - old(m.repr)) && reader !in m.repr
      invariant ParseFields(block) == Prefixed(Texts(m.headers), ParseFields(reader.Rest()))
      invariant forall i :: 0 <= i < |m.headers| ==> m.headers[i].value.Raw?
      invariant m.request == old(m.request) && m.response == old(m.response) && m.body == old(m.body)
      decreases |reader.Rest()|
    {
      ghost var before := Texts(m.headers);
      var r := ParseHeaderLine(reader, m);
      match r {
        case Bad => return false;
        case Last =>
          assert Texts(m.headers) == before;
          return true;
        case Next(f) =>
          assert Texts(m.headers) == before + [f];
          PrefixedStep(before, f, ParseFields(reader.Rest()));
      }
    }
  }

  lemma Shorter(s: string)
    ensures Framing.ReadLine(s).Some? ==> |Framing.ReadLine(s).value.1| < |s|
  {
  }

  lemma ContentLengthAt(fs: seq<Field>, pos: int)
    requires -1 <= pos < |fs|
    requires pos >= 0 ==> KindOf(fs[pos].name) == ContentLengthKind
    requires forall i :: 0 <= i < (if pos < 0 then |fs| else pos) ==> KindOf(fs[i].name) != ContentLengthKind
    ensures ContentLength(fs) == if pos < 0 then None else Atoi(fs[pos].value)
  {
    hide KindOf, Atoi;
    if fs != [] && pos != 0 {
      ContentLengthAt(fs[1..], if pos < 0 then pos else pos - 1);
    }
  }

  /** The first line of ParseMessage. */
  method ParseFirstLine(reader: Reader) returns (start: Option<StartLine>)
    requires reader.Valid()
    modifies reader
    ensures reader.Valid()
    ensures var first := Framing.ReadLine(TrimLeft(old(reader.Rest())));
      start == (if first.None? || first.value.0 == "" then None else ParseStart(first.value.0))
      && (start.Some? ==> first.value.1 == reader.Rest())
  {
    hide TrimLeft, Framing.ReadLine, ParseStart;
    reader.SkipWhiteSpace();
    var line := reader.ReadLine();
    if line.None? || |line.value| == 0 {
      return None;
    }
    return ParseStart(line.value);
  }

  /** ParseMessage: null stands for the error result. */
  method ParseMessage(reader: Reader) returns (m: Message?)
    requires reader.Valid()
    modifies reader
    ensures reader.Valid()
    ensures m == null <==> ParseMsg(old(reader.Rest())).None?
    ensures m != null ==> m.Valid() && fresh(m.repr) && ParseMsg(old(reader.Rest())) == Some((Printed(m), reader.Rest()))
    ensures m != null ==> forall i :: 0 <= i < |m.headers| ==> m.headers[i].value.Raw?
  {
    hide TrimLeft, Framing.ReadLine, ParseStart, ParseFields, TakeBody;
    var start := ParseFirstLine(reader);
    if start.None? {
      return null;
    }
    StartKinds();
    var msg := new Message();
    match start.value {
      case RequestStart(r) => msg.request := Some(r);
      case StatusStart(r) => msg.response := Some(r);
      case NoStart =>
    }
    var ok := ParseHeaders(reader, msg);
    if !ok {
      return null;
    }
    ok := ReadMessageBody(reader, msg);
    if !ok {
      return null;
    }
    return msg;
  }

  method ReadMessageBody(reader: Reader, msg: Message) returns (ok: bool)
    requires reader.Valid() && msg.Valid() && reader !in msg.repr
    requires forall i :: 0 <= i < |msg.headers| ==> msg.headers[i].value.Raw?
    modifies reader, msg`body
    ensures reader.Valid() && msg.Valid()
    ensures !ok ==> TakeBody(StartOf(msg), Texts(msg.headers), old(reader.Rest())) == None
    ensures ok ==> TakeBody(StartOf(msg), Texts(msg.headers), old(reader.Rest())) == Some((Printed(msg), reader.Rest()))
  {
    hide ContentLength, KindOf;
    var n := ContentLengthOf(msg);
    if n.None? || n.value < 0 {
      return false;
    }
    var body := reader.ReadBody(n.value);
    if body.None? {
      return false;
    }
    msg.body := body.value;
    assert PrintedFields(msg.headers) == Texts(msg.headers);
    return true;
  }

  lemma StartKinds()
    ensures forall line :: ParseStart(line).Some? ==> !ParseStart(line).value.NoStart?
  {
  }

  method ContentLengthOf(m: Message) returns (r: Option<int>)
    requires m.Valid() && forall i :: 0 <= i < |m.headers| ==> m.headers[i].value.Raw?
    ensures r == ContentLength(Texts(m.headers))
  {
    hide KindOf, ContentLength, Atoi;
    r := m.GetHeaderInt(ContentLengthKind);
    ghost var pos := First(m.View(), ContentLengthKind);
    assert forall i :: 0 <= i < |m.headers| ==> m.View()[i].Kind() == KindOf(Texts(m.headers)[i].name);
    ContentLengthAt(Texts(m.headers), pos);
  }

  /** `%v` on a header value. */
  method WriteValue(h: Header) returns (s: string)
    requires h.Valid()
    ensures s == PrintedValue(h.value)
  {
    hide KindOf, Meaning, PrintVia, PrintRoute, PrintRecordRoute, PrintParty;
    match h.value {
      case Raw(t) => s := t;
      case AsVia(via) => s := via.String();
      case AsRoute(r) => s := r.String();
      case AsRecordRoute(r) => s := r.String();
      case AsFrom(f) => s := f.String();
      case AsTo(t) => s := t.String();
      case AsCSeq(c) => s := Itoa(c.number) + " " + c.cseqMethod;
    }
  }

  /** Write. */
  method Write(m: Message) returns (s: string)
    requires m.Valid()
    ensures s == PrintMsg(Printed(m))
  {
    hide PrintStart, PrintFields, Itoa, PrintedValue;
    s := PrintStart(StartOf(m));
    s := EncodeHeader(m, s);
    s := s + (CONTENT_LENGTH + ": " + Itoa(|m.body|) + CRLF) + CRLF + m.body;
  }

  /** encodeHeader. */
  method EncodeHeader(m: Message, front: string) returns (s: string)
    requires m.Valid()
    ensures s == front + PrintFields(PrintedFields(m.headers))
  {
    hide PrintedValue, PrintFields;
    NoFieldsAtAll();
    s := front;
    ghost var fs := PrintedFields(m.headers);
    var i := 0;
    assert fs[0..] == fs;
    while i < |m.headers|
      invariant 0 <= i <= |m.headers|
      invariant front + PrintFields(fs) == s + PrintFields(fs[i..])
    {
      assert fs[i..][0] == fs[i] && fs[i..][1..] == fs[i + 1..];
      PrintFieldsStep(s, fs[i..]);
      var line := EncodeField(m.headers[i]);
      s := s + line;
      i := i + 1;
    }
  }

  method EncodeField(h: Header) returns (line: string)
    requires h.Valid()
    ensures line == PrintField(PrintedField(h))
  {
    hide PrintedValue;
    if h.name == CONTENT_LENGTH {
      return "";
    }
    var value := WriteValue(h);
    return h.name + ": " + value + CRLF;
  }
}
