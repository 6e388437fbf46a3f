/** preconfig_route.go: destinations with wildcards, compiled to regular expressions. */
module Regexps {
  import opened Wrappers

  /** The part of the regular-expression language that compiled wildcards use: plain, escaped and any
      characters, each possibly starred. A plain `.` does not match a line feed. */
  datatype Atom = Only(c: char) | AnyChar
  datatype Piece = Piece(atom: Atom, star: bool)

  predicate Fits(a: Atom, c: char) {
    match a
    case Only(d) => c == d
    case AnyChar => c != '\n'
  }

  /** The pieces of a text, read from left to right: an atom, and a star if one follows. */
  function ParsePieces(text: string): Option<seq<Piece>>
    decreases |text|
  {
    if text == "" then Some([])
    else if text[0] == '*' then None
    else if text[0] == '\\' && |text| == 1 then None
    else
      var n := if text[0] == '\\' then 2 else 1;
      var atom := if text[0] == '\\' then Only(text[1]) else if text[0] == '.' then AnyChar else Only(text[0]);
      var star := n < |text| && text[n] == '*';
      var rest :- ParsePieces(text[if star then n + 1 else n..]);
      Some([Piece(atom, star)] + rest)
  }

  predicate MatchPieces(ps: seq<Piece>, s: string)
    decreases |ps|, |s|
  {
    if ps == [] then s == ""
    else if !ps[0].star then s != "" && Fits(ps[0].atom, s[0]) && MatchPieces(ps[1..], s[1..])
    else MatchPieces(ps[1..], s) || (s != "" && Fits(ps[0].atom, s[0]) && MatchPieces(ps, s[1..]))
  }

  /** `regexp.MatchString` for a text `^…$`; None stands for a text that does not compile. */
  function MatchAnchored(text: string, s: string): Option<bool> {
    if |text| < 2 || text[0] != '^' || text[|text| - 1] != '$' then None
    else
      var ps :- ParsePieces(text[1..|text| - 1]);
      Some(MatchPieces(ps, s))
  }
}

module PreConfigRoutes {
  import opened Wrappers
  import opened Text
  import opened Regexps

  /** What a destination pattern stands for: `*` is any run of characters, everything else itself. */
  predicate Denotes(pattern: string, host: string)
    decreases |pattern|, |host|
  {
    if pattern == "" then host == ""
    else if pattern[0] == '*' then
      Denotes(pattern[1..], host) || (host != "" && Denotes(pattern, host[1..]))
    else host != "" && host[0] == pattern[0] && Denotes(pattern[1..], host[1..])
  }

  /** Any ASCII character but those that mean something else in a regular expression. */
  predicate PatternChar(c: char) {
    c < '\U{80}' && c !in "\\+?()[]{}|^$"
  }

  predicate IsPattern(p: string) {
    forall i :: 0 <= i < |p| ==> PatternChar(p[i])
  }

  function Escaped(p: string): string {
    ReplaceAll(p, '.', "\\.")
  }

  function Body(p: string): string {
    ReplaceAll(Escaped(p), '*', ".*")
  }

  /** toRegularExp: first the dots, then the stars. */
  function ToRegularExp(p: string): string {
    "^" + Body(p) + "$"
  }

  /** One piece for every character of the pattern. */
  function Pieces(p: string): seq<Piece> {
    if p == "" then []
    else [if p[0] == '*' then Piece(AnyChar, true) else Piece(Only(p[0]), false)] + Pieces(p[1..])
  }

  lemma {:induction false} ReplaceConcat(a: string, b: string, c: char, repl: string)
    ensures ReplaceAll(a + b, c, repl) == ReplaceAll(a, c, repl) + ReplaceAll(b, c, repl)
  {
    if a == "" {
      assert a + b == b;
    } else {
      ReplaceConcat(a[1..], b, c, repl);
      assert (a + b)[0] == a[0] && (a + b)[1..] == a[1..] + b;
      var head := if a[0] == c then repl else [a[0]];
      assert head + (ReplaceAll(a[1..], c, repl) + ReplaceAll(b, c, repl)) == (head + ReplaceAll(a[1..], c, repl)) + ReplaceAll(b, c, repl);
    }
  }

  /** What the two passes make of one character. */
  function Rewritten(c: char): string {
    if c == '.' then "\\." else if c == '*' then ".*" else [c]
  }

  lemma ReplaceOne(c: char, d: char, repl: string)
    ensures ReplaceAll([c], d, repl) == if c == d then repl else [c]
  {
    assert [c][1..] == "";
    assert ReplaceAll("", d, repl) == "";
  }

  lemma BodyStep(c: char, p: string)
    ensures Body([c] + p) == Rewritten(c) + Body(p)
  {
    hide ReplaceAll;
    ReplaceConcat([c], p, '.', "\\.");
    ReplaceOne(c, '.', "\\.");
    var e := if c == '.' then "\\." else [c];
    ReplaceConcat(e, Escaped(p), '*', ".*");
    if c == '.' {
      assert "\\." == ['\\'] + ['.'];
      ReplaceConcat(['\\'], ['.'], '*', ".*");
      ReplaceOne('\\', '*', ".*");
      ReplaceOne('.', '*', ".*");
    } else {
      ReplaceOne(c, '*', ".*");
    }
  }

  lemma BodyEmpty()
    ensures Body("") == ""
  {
  }

  /** The rewritten text never starts with a star, so no piece takes a star that is not its own. */
  lemma BodyStart(p: string)
    ensures Body(p) == "" || Body(p)[0] != '*'
  {
    hide Body;
    if p == "" {
      BodyEmpty();
    } else {
      assert p == [p[0]] + p[1..];
      BodyStep(p[0], p[1..]);
    }
  }

  /** The rewritten text parses, to one piece per pattern character. */
  lemma {:induction false} BodyParses(p: string)
    requires IsPattern(p)
    ensures ParsePieces(Body(p)) == Some(Pieces(p))
  {
    hide Body, ReplaceAll;
    if p == "" {
      BodyEmpty();
    } else {
      var c, rest := p[0], p[1..];
      assert p == [c] + rest;
      BodyStep(c, rest);
      BodyParses(rest);
      BodyStart(rest);
      var text := Body(p);
      if c == '.' {
        assert text[2..] == Body(rest);
      } else if c == '*' {
        assert text[1] == '*' && text[2..] == Body(rest);
      } else {
        assert PatternChar(p[0]) && '\\' in "\\+?()[]{}|^$";
        assert text[1..] == Body(rest);
      }
    }
  }

  lemma {:induction false} PiecesDenote(p: string, host: string)
    requires '\n' !in host
    ensures MatchPieces(Pieces(p), host) == Denotes(p, host)
    decreases |p|, |host|
  {
    if p != "" {
      assert Pieces(p)[1..] == Pieces(p[1..]);
      if p[0] == '*' {
        PiecesDenote(p[1..], host);
        if host != "" {
          PiecesDenote(p, host[1..]);
        }
      } else if host != "" {
        PiecesDenote(p[1..], host[1..]);
      }
    }
  }

  /** The compiled expression matches exactly the hosts that the pattern denotes. */
  lemma CompilationPreservesMeaning(p: string, host: string)
    requires IsPattern(p) && '\n' !in host
    ensures MatchAnchored(ToRegularExp(p), host) == Some(Denotes(p, host))
  {
    hide Body, MatchPieces, Denotes, ParsePieces;
    var text := ToRegularExp(p);
    assert text[1..|text| - 1] == Body(p);
    BodyParses(p);
    PiecesDenote(p, host);
  }

  lemma {:induction false} LiteralDenotesItself(p: string, host: string)
    requires '*' !in p
    ensures Denotes(p, host) <==> p == host
    decreases |p|
  {
    if p != "" && host != "" {
      LiteralDenotesItself(p[1..], host[1..]);
      assert p == [p[0]] + p[1..] && host == [host[0]] + host[1..];
    }
  }

  /** A star stands for any run of characters, also none, wherever it is in the pattern. */
  lemma {:induction false} StarDenotes(p: string, host: string)
    ensures Denotes("*" + p, host) <==> exists k :: 0 <= k <= |host| && Denotes(p, host[k..])
    decreases |host|
  {
    assert ("*" + p)[1..] == p && host[0..] == host;
    if host != "" {
      StarDenotes(p, host[1..]);
      forall k | 0 <= k <= |host|
        ensures k > 0 ==> host[k..] == host[1..][k - 1..]
      {
      }
      if k :| 0 <= k <= |host[1..]| && Denotes(p, host[1..][k..]) {
        assert host[k + 1..] == host[1..][k..];
      }
      assert ("*" + p)[0] == '*';
    }
  }

  lemma {:induction false} LiteralDenotesPrefix(a: string, p: string, host: string)
    requires '*' !in a
    ensures Denotes(a + p, host) <==> a <= host && Denotes(p, host[|a|..])
  {
    if a == "" {
      assert a + p == p && host[0..] == host;
    } else {
      assert (a + p)[1..] == a[1..] + p && (a + p)[0] == a[0];
      if host != "" {
        LiteralDenotesPrefix(a[1..], p, host[1..]);
        assert |a| <= |host| ==> host[1..][|a| - 1..] == host[|a|..];
        assert a <= host <==> a[0] == host[0] && a[1..] <= host[1..];
      }
    }
  }

  // ---- the route table ----

  datatype PreRouteItem = PreRouteItem(protocol: string, dest: string, host: string, port: int)

  function LastIndex(s: string, c: char): (r: int)
    ensures -1 <= r < |s|
    ensures r >= 0 ==> s[r] == c
    ensures forall i :: r < i < |s| ==> s[i] != c
  {
    if s == "" then -1 else if s[|s| - 1] == c then |s| - 1 else LastIndex(s[..|s| - 1], c)
  }

  /** NewPreRouteItem: the part after the last `:` must be a number; without one the port is the default. */
  function NewPreRouteItem(protocol: string, dest: string, nextHop: string): Option<PreRouteItem> {
    var pos := LastIndex(nextHop, ':');
    if pos == -1 then Some(PreRouteItem(protocol, dest, nextHop, if Lower(protocol) == "tls" then 5061 else 5060))
    else
      var port :- Atoi(nextHop[pos + 1..]);
      Some(PreRouteItem(protocol, dest, nextHop[..pos], port))
  }

  /** A next hop printed as `host:port` comes back. */
  lemma NextHopRoundTrip(protocol: string, dest: string, host: string, port: int)
    requires IsInt64(port)
    ensures NewPreRouteItem(protocol, dest, host + ":" + Itoa(port)) == Some(PreRouteItem(protocol, dest, host, port))
  {
    hide Itoa;
    var s := host + ":" + Itoa(port);
    ItoaLacks(port, ':');
    AtoiItoa(port);
    var pos := LastIndex(s, ':');
    assert s[|host|] == ':';
    forall i | |host| < i < |s|
      ensures s[i] != ':'
    {
      assert s[i] == Itoa(port)[i - |host| - 1];
    }
    assert pos == |host|;
    assert s[..pos] == host && s[pos + 1..] == Itoa(port);
  }

  /** Without a port the next hop has the default of its protocol; a port that is no number is an error. */
  lemma NextHopDefaults(protocol: string, dest: string, host: string, text: string)
    ensures ':' !in host ==>
      NewPreRouteItem(protocol, dest, host) == Some(PreRouteItem(protocol, dest, host, if Lower(protocol) == "tls" then 5061 else 5060))
    ensures ':' !in text && Atoi(text).None? ==> NewPreRouteItem(protocol, dest, host + ":" + text) == None
  {
    hide Atoi, Lower;
    var s := host + ":" + text;
    if ':' !in text {
      assert s[|host|] == ':';
      assert forall i :: |host| < i < |s| ==> s[i] == text[i - |host| - 1] && s[i] in text;
      assert LastIndex(s, ':') == |host|;
      assert s[|host| + 1..] == text;
    }
  }

  /** A lookup may answer this item: the exact entry if there is one, else an entry whose pattern denotes the
      destination, else the default. */
  predicate MayAnswer(items: map<string, PreRouteItem>, dest: string, r: Option<PreRouteItem>) {
    if dest in items then r == Some(items[dest])
    else if exists d :: d in items && Denotes(d, dest) then
      r.Some? && r.value.dest in items && items[r.value.dest] == r.value && Denotes(r.value.dest, dest)
    else if "default" in items then r == Some(items["default"])
    else r == None
  }

  /** What any answer is: the exact entry if there is one; else an entry that denotes the destination if there is
      one; else the default; and nothing only if there is none of them. */
  lemma AnswersInOrder(items: map<string, PreRouteItem>, dest: string, r: Option<PreRouteItem>)
    requires MayAnswer(items, dest, r)
    ensures dest in items ==> r == Some(items[dest])
    ensures r.None? <==> dest !in items && "default" !in items && forall d :: d in items ==> !Denotes(d, dest)
    ensures r.Some? && dest !in items ==>
      (r.value.dest in items && Denotes(r.value.dest, dest) && items[r.value.dest] == r.value)
      || ("default" in items && r.value == items["default"] && forall d :: d in items ==> !Denotes(d, dest))
  {
    hide Denotes;
  }

  class PreConfigRoute {
    var items: map<string, PreRouteItem>

    ghost predicate Valid()
      reads this
    {
      forall d :: d in items ==> items[d].dest == d && IsPattern(d)
    }

    constructor ()
      ensures Valid() && items == map[]
    {
      items := map[];
    }

    method AddRouteItem(protocol: string, dest: string, nextHop: string) returns (ok: bool)
      requires Valid() && IsPattern(dest)
      modifies this
      ensures Valid()
      ensures ok <==> NewPreRouteItem(protocol, dest, nextHop).Some?
      ensures items == if ok then old(items)[dest := NewPreRouteItem(protocol, dest, nextHop).value] else old(items)
    {
      var item := NewPreRouteItem(protocol, dest, nextHop);
      ok := item.Some?;
      if ok {
        items := items[dest := item.value];
      }
    }

    /** FindRoute; the loop meets the map's entries in any order. */
    method FindRoute(dest: string) returns (r: Option<PreRouteItem>)
      requires Valid() && '\n' !in dest
      ensures MayAnswer(items, dest, r)
    {
      hide Denotes, MatchAnchored, ToRegularExp;
      if dest in items {
        return Some(items[dest]);
      }
      var left := items.Keys;
      while left != {}
        invariant left <= items.Keys
        invariant forall d :: d in items && d !in left ==> !Denotes(d, dest)
        decreases left
      {
        var d :| d in left;
        CompilationPreservesMeaning(d, dest);
        var matched := MatchAnchored(ToRegularExp(items[d].dest), dest);
        if matched == Some(true) {
          return Some(items[d]);
        }
        left := left - {d};
      }
      if "default" in items {
        return Some(items["default"]);
      }
      return None;
    }
  }
}
