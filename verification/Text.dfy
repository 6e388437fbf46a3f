/** Values that may be missing: the `(value, err)` pairs of the source. */
module Wrappers {
  datatype Option<+T> = None | Some(value: T) {
    predicate IsFailure() {
      None?
    }

    function PropagateFailure<U>(): Option<U>
      requires None?
    {
      None
    }

    function Extract(): T
      requires Some?
    {
      value
    }
  }

  /** The result of a loop over a list: what it has collected so far, and what the rest will give. */
  ghost function Prefixed<T>(front: seq<T>, rest: Option<seq<T>>): Option<seq<T>> {
    match rest
    case None => None
    case Some(r) => Some(front + r)
  }

  lemma PrefixedEnds<T>(front: seq<T>, rest: Option<seq<T>>)
    ensures Prefixed([], rest) == rest
    ensures Prefixed(front, Some([])) == Some(front) && Prefixed(front, None) == None
  {
    assert forall r: seq<T> :: [] + r == r && r + [] == r;
  }
}

/** The string and number functions of the Go library that the proxy relies on.
    A `char` stands for one byte of a Go string. */
module Text {
  import opened Wrappers

  // ---- searching and cutting ----

  /** Position of the first `c`, or -1. */
  function IndexByte(s: string, c: char): (r: int)
    ensures -1 <= r < |s|
    ensures r >= 0 ==> s[r] == c && c !in s[..r]
    ensures forall i :: 0 <= i < r ==> s[i] != c
    ensures r < 0 ==> c !in s
  {
    if s == "" then -1
    else if s[0] == c then 0
    else
      var t := IndexByte(s[1..], c);
      if t < 0 then -1 else t + 1
  }

  lemma IndexAt(a: string, c: char, b: string)
    requires c !in a
    ensures IndexByte(a + [c] + b, c) == |a|
    ensures (a + [c] + b)[..|a|] == a
    ensures (a + [c] + b)[|a| + 1..] == b
  {
    var s := a + [c] + b;
    assert s[|a|] == c;
    assert forall i :: 0 <= i < |a| ==> s[i] == a[i] && a[i] in a;
  }

  /** The last `c` of a text cuts it in one way only. */
  lemma LastCut(a: string, c: char, p: string, b: string, q: string)
    requires c !in p && c !in q && a + [c] + p == b + [c] + q
    ensures a == b && p == q
  {
    var s, t := a + [c] + p, b + [c] + q;
    assert s[|a|] == c && t[|b|] == c;
    assert forall k :: |a| < k < |s| ==> s[k] == p[k - |a| - 1] && s[k] in p;
    assert forall k :: |b| < k < |t| ==> t[k] == q[k - |b| - 1] && t[k] in q;
    assert |a| == |b|;
    assert s[..|a|] == a && t[..|b|] == b && s[|a| + 1..] == p && t[|b| + 1..] == q;
  }

  /** Texts with one and the same ending agree in front of it. */
  lemma SameEnding(a: string, b: string, e: string)
    ensures a + e == b + e <==> a == b
  {
    if a + e == b + e {
      assert |a| == |b|;
      assert a == (a + e)[..|a|] && b == (b + e)[..|b|];
    }
  }

  /** The text before the first `c`, or all of it. */
  function Before(s: string, c: char): (r: string)
    ensures c !in r
  {
    var p := IndexByte(s, c);
    if p < 0 then s else s[..p]
  }

  /** The text after the first `c`, when there is one. */
  function After(s: string, c: char): (r: Option<string>)
    ensures r.Some? <==> c in s
  {
    var p := IndexByte(s, c);
    if p < 0 then None else Some(s[p + 1..])
  }

  /** How code that computes the position sees the two halves. */
  lemma CutByIndex(s: string, c: char)
    ensures IndexByte(s, c) == -1 ==> Before(s, c) == s && After(s, c) == None
    ensures IndexByte(s, c) >= 0 ==>
      Before(s, c) == s[..IndexByte(s, c)] && After(s, c) == Some(s[IndexByte(s, c) + 1..])
  {
  }

  lemma CutAt(a: string, c: char, b: string)
    requires c !in a
    ensures Before(a + [c] + b, c) == a && After(a + [c] + b, c) == Some(b)
    ensures Before(a, c) == a && After(a, c) == None
  {
    IndexAt(a, c, b);
  }

  lemma CutJoins(s: string, c: char)
    requires c in s
    ensures s == Before(s, c) + [c] + After(s, c).value
  {
  }

  /** What a text lacks, its two halves lack. */
  lemma CutLacks(s: string, c: char, d: char)
    requires d !in s
    ensures d !in Before(s, c)
    ensures After(s, c).Some? ==> d !in After(s, c).value
  {
  }

  function Split(s: string, sep: char): (r: seq<string>)
    ensures |r| >= 1
    decreases |s|
  {
    var p := IndexByte(s, sep);
    if p < 0 then [s] else [s[..p]] + Split(s[p + 1..], sep)
  }

  function Join(parts: seq<string>, sep: char): string {
    if parts == [] then ""
    else if |parts| == 1 then parts[0]
    else parts[0] + [sep] + Join(parts[1..], sep)
  }

  /** The first cut of a split, with and without a separator in the text. */
  lemma SplitFirst(a: string, sep: char, rest: string)
    requires sep !in a
    ensures Split(a + [sep] + rest, sep) == [a] + Split(rest, sep)
    ensures Split(a, sep) == [a]
  {
    IndexAt(a, sep, rest);
  }

  lemma {:induction false} SplitJoin(parts: seq<string>, sep: char)
    requires parts != []
    requires forall p :: p in parts ==> sep !in p
    ensures Split(Join(parts, sep), sep) == parts
  {
    hide Split;
    var rest := Join(parts[1..], sep);
    assert parts[0] in parts;
    SplitFirst(parts[0], sep, rest);
    assert parts == [parts[0]] + parts[1..];
    if |parts| > 1 {
      SplitJoin(parts[1..], sep);
      assert Join(parts, sep) == parts[0] + [sep] + rest;
    }
  }

  /** A character that no part and no separator contributes is absent from the joined text. */
  lemma {:induction false} JoinAvoids(parts: seq<string>, sep: char, c: char)
    requires c != sep
    requires forall p :: p in parts ==> c !in p
    ensures c !in Join(parts, sep)
  {
    if |parts| > 1 {
      assert parts[0] in parts;
      forall p | p in parts[1..]
        ensures c !in p
      {
      }
      JoinAvoids(parts[1..], sep, c);
    }
  }

  /** No part holds the separator, nor a character the text lacks. */
  lemma {:induction false} SplitLacks(s: string, sep: char, c: char)
    requires c == sep || c !in s
    ensures forall p :: p in Split(s, sep) ==> c !in p
    decreases |s|
  {
    var p := IndexByte(s, sep);
    if p >= 0 {
      SplitLacks(s[p + 1..], sep, c);
    }
  }

  function TotalLength(items: seq<string>): nat {
    if items == [] then 0 else |items[0]| + 1 + TotalLength(items[1..])
  }

  lemma {:induction false} SplitTotal(s: string, sep: char)
    ensures TotalLength(Split(s, sep)) == |s| + 1
    decreases |s|
  {
    var p := IndexByte(s, sep);
    if p >= 0 {
      SplitTotal(s[p + 1..], sep);
      assert Split(s, sep)[1..] == Split(s[p + 1..], sep);
    } else {
      assert Split(s, sep)[1..] == [];
    }
  }

  function ReplaceAll(s: string, c: char, replacement: string): string {
    if s == "" then "" else (if s[0] == c then replacement else [s[0]]) + ReplaceAll(s[1..], c, replacement)
  }

  // ---- white space ----

  predicate IsSpace(c: char) {
    c == ' ' || '\t' <= c <= '\r'
  }

  /** Blank, tab, line feed, vertical tab, form feed and carriage return. */
  lemma SpaceCharacters(c: char)
    ensures IsSpace(c) <==> c in " \t\n\U{0B}\U{0C}\r"
  {
  }

  predicate NoSpace(s: string) {
    forall i :: 0 <= i < |s| ==> !IsSpace(s[i])
  }

  function TrimLeft(s: string): string {
    if s != "" && IsSpace(s[0]) then TrimLeft(s[1..]) else s
  }

  function TrimRight(s: string): string {
    if s != "" && IsSpace(s[|s| - 1]) then TrimRight(s[..|s| - 1]) else s
  }

  function TrimSpace(s: string): string {
    TrimRight(TrimLeft(s))
  }

  predicate Trimmed(s: string) {
    s != "" ==> !IsSpace(s[0]) && !IsSpace(s[|s| - 1])
  }

  /** The text after a header's colon is recovered exactly when it carries no outer white space. */
  lemma {:induction false} TrimAfterBlank(v: string)
    requires Trimmed(v)
    ensures TrimSpace(" " + v) == v
  {
    assert (" " + v)[1..] == v;
    assert TrimLeft(" " + v) == TrimLeft(v);
  }

  lemma TrimRightTrims(s: string)
    ensures TrimRight(s) <= s
    ensures TrimRight(s) != "" ==> !IsSpace(TrimRight(s)[|TrimRight(s)| - 1])
  {
  }

  lemma TrimLeftTrims(s: string)
    ensures TrimLeft(s) != "" ==> !IsSpace(TrimLeft(s)[0])
  {
  }

  lemma TrimSpaceTrims(s: string)
    ensures Trimmed(TrimSpace(s))
  {
    TrimLeftTrims(s);
    TrimRightTrims(TrimLeft(s));
  }

  lemma {:induction false} TrimRightKeepsFirst(s: string)
    requires s != "" && !IsSpace(s[0])
    ensures TrimRight(s) != "" && TrimRight(s)[0] == s[0]
  {
    if IsSpace(s[|s| - 1]) {
      TrimRightKeepsFirst(s[..|s| - 1]);
    }
  }

  /** Text that ends in a blank loses something, but not its beginning. */
  lemma TrimShortens(s: string)
    requires s != "" && !IsSpace(s[0]) && IsSpace(s[|s| - 1])
    ensures 0 < |TrimSpace(s)| < |s| && TrimSpace(s)[0] == s[0]
  {
    TrimRightKeepsFirst(s[..|s| - 1]);
    TrimRightTrims(s[..|s| - 1]);
  }

  lemma TrimSpaceLacks(s: string, c: char)
    requires c !in s
    ensures c !in TrimSpace(s)
  {
    TrimLeftLacks(s, c);
    TrimRightTrims(TrimLeft(s));
  }

  lemma {:induction false} TrimLeftLacks(s: string, c: char)
    requires c !in s
    ensures c !in TrimLeft(s)
  {
    if s != "" && IsSpace(s[0]) {
      TrimLeftLacks(s[1..], c);
    }
  }

  predicate AllSpace(s: string) {
    forall i :: 0 <= i < |s| ==> IsSpace(s[i])
  }

  lemma {:induction false} TrimLeftStrips(a: string, s: string)
    requires AllSpace(a)
    ensures TrimLeft(a + s) == TrimLeft(s)
  {
    if a == "" {
      assert a + s == s;
    } else {
      assert (a + s)[1..] == a[1..] + s;
      TrimLeftStrips(a[1..], s);
    }
  }

  lemma {:induction false} TrimRightStrips(s: string, b: string)
    requires AllSpace(b)
    ensures TrimRight(s + b) == TrimRight(s)
  {
    if b == "" {
      assert s + b == s;
    } else {
      assert (s + b)[..|s + b| - 1] == s + b[..|b| - 1];
      TrimRightStrips(s, b[..|b| - 1]);
    }
  }

  /** Exactly the white space around a text goes, however much there is. */
  lemma TrimSpaceStrips(a: string, v: string, b: string)
    requires AllSpace(a) && AllSpace(b) && Trimmed(v)
    ensures TrimSpace(a + v + b) == v
  {
    assert a + v + b == a + (v + b);
    TrimLeftStrips(a, v + b);
    if v == "" {
      assert v + b == b == b + "";
      TrimLeftStrips(b, "");
    } else {
      assert (v + b)[0] == v[0];
      TrimRightStrips(v, b);
    }
  }

  lemma TrimmedStays(s: string)
    requires Trimmed(s)
    ensures TrimSpace(s) == s
  {
  }

  function TokenLength(s: string): (n: nat)
    ensures n <= |s|
    ensures forall i :: 0 <= i < n ==> !IsSpace(s[i])
    ensures n < |s| ==> IsSpace(s[n])
  {
    if s == "" || IsSpace(s[0]) then 0
    else
      1 + TokenLength(s[1..])
  }

  function Fields(s: string): (r: seq<string>)
    decreases |s|
  {
    if s == "" then []
    else if IsSpace(s[0]) then Fields(s[1..])
    else
      var n := TokenLength(s);
      assert n > 0;
      [s[..n]] + Fields(s[n..])
  }

  lemma {:induction false} FieldsAreTokens(s: string)
    ensures forall f :: f in Fields(s) ==> f != "" && NoSpace(f)
    decreases |s|
  {
    if s != "" {
      FieldsAreTokens(if IsSpace(s[0]) then s[1..] else s[TokenLength(s)..]);
    }
  }

  lemma TokenEnds(a: string, b: string)
    requires NoSpace(a)
    requires b != "" ==> IsSpace(b[0])
    ensures TokenLength(a + b) == |a|
  {
    assert forall i :: 0 <= i < |a| ==> (a + b)[i] == a[i];
    assert b != "" ==> (a + b)[|a|] == b[0];
  }

  /** The first field of a text that starts with one. */
  lemma FieldsFirst(t: string, rest: string)
    requires t != "" && NoSpace(t) && (rest != "" ==> IsSpace(rest[0]))
    ensures Fields(t + rest) == [t] + Fields(if rest == "" then "" else rest[1..])
  {
    var s := t + rest;
    assert s[0] == t[0];
    TokenEnds(t, rest);
    assert s[..|t|] == t && s[|t|..] == rest;
  }

  /** A text is read field by field, whatever white space lies in front, between and behind. */
  lemma {:induction false} FieldsSpaced(a: string, t: string, rest: string)
    requires AllSpace(a) && t != "" && NoSpace(t) && (rest != "" ==> IsSpace(rest[0]))
    ensures Fields(a + t + rest) == [t] + Fields(rest)
    ensures Fields(a) == []
  {
    if a == "" {
      assert a + t + rest == t + rest;
      FieldsFirst(t, rest);
      assert rest != "" ==> Fields(rest) == Fields(rest[1..]);
    } else {
      assert (a + t + rest)[1..] == a[1..] + t + rest;
      FieldsSpaced(a[1..], t, rest);
    }
  }

  lemma {:induction false} FieldsJoin(ts: seq<string>)
    requires forall t :: t in ts ==> t != "" && NoSpace(t)
    ensures Fields(Join(ts, ' ')) == ts
  {
    hide Fields, TokenLength, IsSpace;
    FieldsOfNothing();
    if ts != [] {
      var t, more := ts[0], ts[1..];
      assert t in ts && forall u :: u in more ==> u in ts;
      FieldsJoin(more);
      assert ts == [t] + more;
      if more == [] {
        FieldsFirst(t, "");
        assert Join(ts, ' ') == t + "";
      } else {
        BlankIsSpace();
        var rest := " " + Join(more, ' ');
        FieldsFirst(t, rest);
        assert Join(ts, ' ') == t + rest;
        assert rest[1..] == Join(more, ' ');
      }
    }
  }

  lemma BlankIsSpace()
    ensures IsSpace(' ')
  {
  }

  lemma FieldsOfNothing()
    ensures Fields("") == []
  {
  }

  lemma {:induction false} FieldsLack(s: string, c: char)
    requires c !in s
    ensures forall f :: f in Fields(s) ==> c !in f
    decreases |s|
  {
    if s != "" {
      FieldsLack(if IsSpace(s[0]) then s[1..] else s[TokenLength(s)..], c);
    }
  }

  // ---- decimal numbers ----

  /** What `strconv.ParseInt` returns: a value, a syntax error, or a range error with the clamped value. */
  datatype Parsed = Number(n: int) | BadSyntax | OutOfRange(clamped: int) {
    /** The value a caller sees when it ignores the error. */
    function Ignored(): int {
      match this
      case Number(n) => n
      case BadSyntax => 0
      case OutOfRange(c) => c
    }
  }

  predicate IsDigit(c: char) {
    '0' <= c <= '9'
  }

  predicate AllDigits(s: string) {
    forall i :: 0 <= i < |s| ==> IsDigit(s[i])
  }

  function Digits(s: string): nat
    requires AllDigits(s)
  {
    if s == "" then 0 else Digits(s[..|s| - 1]) * 10 + (s[|s| - 1] as int - '0' as int)
  }

  /** `strconv.ParseInt(s, 10, bits)` with `limit == 2^(bits-1)`. */
  function ParseInt(s: string, limit: int): Parsed {
    var negative := s != "" && s[0] == '-';
    var body := if negative || (s != "" && s[0] == '+') then s[1..] else s;
    if body == "" || !AllDigits(body) then BadSyntax
    else if !negative && Digits(body) >= limit then OutOfRange(limit - 1)
    else if negative && Digits(body) > limit then OutOfRange(-limit)
    else Number(if negative then 0 - Digits(body) else Digits(body))
  }

  const TWO_31: int := 0x8000_0000
  const TWO_63: int := 0x8000_0000_0000_0000

  predicate IsInt64(n: int) {
    -TWO_63 <= n < TWO_63
  }

  function Atoi(s: string): Option<int> {
    match ParseInt(s, TWO_63)
    case Number(n) => Some(n)
    case _ => None
  }

  function ItoaNat(n: nat): (s: string)
    ensures s != "" && AllDigits(s)
    ensures Digits(s) == n
  {
    var d := ['0' + (n % 10) as char];
    if n < 10 then d
    else
      var high := ItoaNat(n / 10);
      assert (high + d)[..|high|] == high;
      high + d
  }

  /** The `%d` verb. */
  function Itoa(n: int): (s: string)
    ensures s != ""
  {
    if n < 0 then "-" + ItoaNat(-n) else ItoaNat(n)
  }

  lemma ItoaLacks(n: int, c: char)
    requires !IsDigit(c) && c != '-'
    ensures c !in Itoa(n)
  {
  }

  lemma ItoaHasNoSpace(n: int)
    ensures NoSpace(Itoa(n))
  {
  }

  /** Reading a printed number back gives it, or its clamped form when it does not fit. */
  lemma ParseItoa(n: int, limit: int)
    requires limit > 0
    ensures ParseInt(Itoa(n), limit) ==
            if n >= limit then OutOfRange(limit - 1) else if n < -limit then OutOfRange(-limit) else Number(n)
  {
    var s := Itoa(n);
    if n < 0 {
      assert s[1..] == ItoaNat(-n);
    } else {
      assert IsDigit(s[0]);
    }
  }

  /** Digits with or without a sign are a number, in range or clamped. */
  lemma SignedNumber(d: string, limit: int)
    requires d != "" && AllDigits(d) && limit > 0
    ensures ParseInt(d, limit) == if Digits(d) < limit then Number(Digits(d)) else OutOfRange(limit - 1)
    ensures ParseInt("+" + d, limit) == ParseInt(d, limit)
    ensures ParseInt("-" + d, limit) == if Digits(d) <= limit then Number(0 - Digits(d)) else OutOfRange(-limit)
  {
    assert ("+" + d)[1..] == d && ("-" + d)[1..] == d;
    assert IsDigit(d[0]);
  }

  /** Nothing else is: no text with another character in it, and no sign alone. */
  lemma NoNumber(a: string, c: char, b: string, limit: int)
    requires !IsDigit(c) && (a == "" ==> c != '+' && c != '-')
    ensures ParseInt(a + [c] + b, limit) == BadSyntax
    ensures ParseInt("", limit) == ParseInt("+", limit) == ParseInt("-", limit) == BadSyntax
  {
    var s := a + [c] + b;
    assert s[|a|] == c;
    assert a != "" ==> s[1..][|a| - 1] == c;
  }

  lemma {:induction false} LeadingZero(d: string)
    requires AllDigits(d)
    ensures AllDigits("0" + d) && Digits("0" + d) == Digits(d)
  {
    if d != "" {
      LeadingZero(d[..|d| - 1]);
      assert ("0" + d)[..|d|] == "0" + d[..|d| - 1];
    } else {
      assert "0" + d == "0" && Digits("0") == 0;
    }
  }

  lemma AtoiItoa(n: int)
    ensures Atoi(Itoa(n)) == if IsInt64(n) then Some(n) else None
  {
    ParseItoa(n, TWO_63);
  }

  // ---- order and case ----

  /** The `<` of Go strings: byte by byte, a proper prefix first. */
  predicate Less(a: string, b: string) {
    if b == "" then false
    else if a == "" then true
    else if a[0] != b[0] then a[0] < b[0]
    else Less(a[1..], b[1..])
  }

  lemma {:induction false} LessTrichotomy(a: string, b: string)
    ensures Less(a, b) || a == b || Less(b, a)
    ensures !(Less(a, b) && Less(b, a))
    ensures a == b ==> !Less(a, b)
  {
    if a != "" && b != "" && a[0] == b[0] {
      LessTrichotomy(a[1..], b[1..]);
      assert a == [a[0]] + a[1..] && b == [b[0]] + b[1..];
    }
  }

  /** The texts agree up to some position, where the first ends or has the smaller character. */
  predicate LessAt(a: string, b: string, k: nat) {
    k <= |a| && k < |b| && a[..k] == b[..k] && (k == |a| || a[k] < b[k])
  }

  lemma SameHead(a: string, b: string, k: nat)
    requires k <= |a| && k <= |b| && a[..k] == b[..k]
    ensures k > 0 ==> a[0] == b[0]
  {
    if k > 0 {
      assert a[0] == a[..k][0];
    }
  }

  lemma {:induction false} LessExactly(a: string, b: string)
    ensures Less(a, b) <==> exists k: nat :: LessAt(a, b, k)
  {
    if b == "" {
    } else if a == "" {
      assert LessAt(a, b, 0);
    } else if a[0] != b[0] {
      assert a[0] < b[0] ==> LessAt(a, b, 0);
      forall k: nat | LessAt(a, b, k)
        ensures k == 0
      {
        SameHead(a, b, k);
      }
    } else {
      LessExactly(a[1..], b[1..]);
      forall k: nat | LessAt(a[1..], b[1..], k)
        ensures LessAt(a, b, k + 1)
      {
        assert a[..k + 1] == [a[0]] + a[1..][..k] && b[..k + 1] == [b[0]] + b[1..][..k];
      }
      forall k: nat | LessAt(a, b, k)
        ensures k > 0 && LessAt(a[1..], b[1..], k - 1)
      {
        assert k > 0 ==> a[1..][..k - 1] == a[..k][1..] && b[1..][..k - 1] == b[..k][1..];
      }
    }
  }

  function LowerChar(c: char): char {
    if 'A' <= c <= 'Z' then c - 'A' + 'a' else c
  }

  /** `strings.ToLower` on ASCII text; two names are `EqualFold` when their lower-case forms agree. */
  function Lower(s: string): (r: string)
    ensures |r| == |s|
    ensures forall i :: 0 <= i < |s| ==> r[i] == LowerChar(s[i])
  {
    seq(|s|, i requires 0 <= i < |s| => LowerChar(s[i]))
  }

  /** `strings.ToUpper` on ASCII text. */
  function Upper(s: string): string {
    seq(|s|, i requires 0 <= i < |s| => if 'a' <= s[i] <= 'z' then s[i] - 'a' + 'A' else s[i])
  }

  /** The two alphabets fold into each other, other characters stay. */
  lemma CaseFolds(s: string)
    ensures Lower(Upper(s)) == Lower(s) && Upper(Lower(s)) == Upper(s)
    ensures Lower("ABCDEFGHIJKLMNOPQRSTUVWXYZ") == "abcdefghijklmnopqrstuvwxyz"
    ensures (forall i :: 0 <= i < |s| ==> !('A' <= s[i] <= 'Z')) ==> Lower(s) == s
    ensures (forall i :: 0 <= i < |s| ==> !('a' <= s[i] <= 'z')) ==> Upper(s) == s
  {
  }

  /** `net.JoinHostPort`. */
  function JoinHostPort(host: string, port: string): string {
    if ':' in host then "[" + host + "]:" + port else host + ":" + port
  }

  /** With the port fixed, different hosts never give the same address. */
  lemma JoinHostPortInjective(h1: string, h2: string, port: string)
    requires JoinHostPort(h1, port) == JoinHostPort(h2, port)
    ensures h1 == h2
  {
    var b1 := if ':' in h1 then "[" + h1 + "]" else h1;
    var b2 := if ':' in h2 then "[" + h2 + "]" else h2;
    assert b1 + (":" + port) == JoinHostPort(h1, port) == JoinHostPort(h2, port) == b2 + (":" + port);
    assert |b1| == |b2|;
    assert forall i :: 0 <= i < |b1| ==> b1[i] == (b1 + (":" + port))[i] == (b2 + (":" + port))[i] == b2[i];
    assert b1 == b2;
    assert forall h: string :: ("[" + h + "]")[1..|h| + 1] == h;
    assert forall h: string :: ':' in h ==> ':' in "[" + h + "]";
  }
}
