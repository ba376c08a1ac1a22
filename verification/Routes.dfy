/** Fragment routing: `#/route?name=value&...`, printed and parsed.

    Text is the UTF-8 octets of a JavaScript string, one `char` below 256 each;
    query strings follow sections 5.1 and 5.2 of the WHATWG URL Standard, the
    `application/x-www-form-urlencoded` parser and serializer. */
module Routes {
  import opened Texts

  type Octet = c: char | c as int < 256 witness 'a'
  type Octets = seq<Octet>
  /** A `URLSearchParams` list: names may repeat. */
  type Params = seq<(Octets, Octets)>

  const DEFAULT_ROUTE: Octets := "overview"

  // ----- section 5.2: the serializer -----

  /** The octets the urlencoded percent-encode set leaves alone. */
  predicate Unreserved(c: Octet) {
    'a' <= c <= 'z' || 'A' <= c <= 'Z' || '0' <= c <= '9' || c == '*' || c == '-' || c == '.' || c == '_'
  }

  function HexDigit(n: int): (c: Octet)
    requires 0 <= n < 16
    ensures '0' <= c <= '9' || 'A' <= c <= 'F'
  {
    if n < 10 then ('0' as int + n) as char else ('A' as int + n - 10) as char
  }

  function EncodeOctet(c: Octet): Octets {
    if Unreserved(c) then [c]
    else if c == ' ' then "+"
    else ['%', HexDigit(c as int / 16), HexDigit(c as int % 16)]
  }

  function Encode(s: Octets): Octets {
    if s == [] then [] else EncodeOctet(s[0]) + Encode(s[1..])
  }

  function Pair(p: (Octets, Octets)): Octets {
    Encode(p.0) + "=" + Encode(p.1)
  }

  function Serialize(ps: Params): Octets {
    Join<Octet>(seq(|ps|, i requires 0 <= i < |ps| => Pair(ps[i])), '&')
  }

  // ----- section 5.1: the parser -----

  predicate IsHex(c: Octet) { HexCode(c as int) }

  function HexValue(c: Octet): (n: int)
    requires IsHex(c)
    ensures 0 <= n < 16
  {
    if c <= '9' then c as int - '0' as int
    else if c <= 'F' then c as int - 'A' as int + 10
    else c as int - 'a' as int + 10
  }

  /** `+` becomes a space, `%` and two hexadecimal digits an octet; anything
      else, a stray `%` included, stands for itself. */
  function Decode(s: Octets): Octets {
    if s == [] then []
    else if s[0] == '+' then " " + Decode(s[1..])
    else if s[0] == '%' && |s| >= 3 && IsHex(s[1]) && IsHex(s[2]) then
      [(HexValue(s[1]) * 16 + HexValue(s[2])) as char] + Decode(s[3..])
    else [s[0]] + Decode(s[1..])
  }

  /** Name and value around the first `=`. */
  function ParsePair(s: Octets): (Octets, Octets) {
    var parts := Split<Octet>(s, '=');
    (Decode(parts[0]), Decode(Join<Octet>(parts[1..], '=')))
  }

  function ParsePieces(pieces: seq<Octets>): Params {
    if pieces == [] then []
    else if pieces[0] == [] then ParsePieces(pieces[1..])
    else [ParsePair(pieces[0])] + ParsePieces(pieces[1..])
  }

  /** `new URLSearchParams(text)`: one leading `?` is dropped. */
  function ParseQuery(q: Octets): Params {
    ParsePieces(Split<Octet>(if q != [] && q[0] == '?' then q[1..] else q, '&'))
  }

  // ----- routes.ts -----

  /** The fragment without a leading `#` or `#/`. */
  function BodyOf(fragment: Octets): Octets {
    if fragment == [] || fragment[0] != '#' then fragment
    else if |fragment| >= 2 && fragment[1] == '/' then fragment[2..]
    else fragment[1..]
  }

  function RouteOf(fragment: Octets): Octets {
    var wanted := Split<Octet>(BodyOf(fragment), '?')[0];
    if wanted == [] then DEFAULT_ROUTE else wanted
  }

  function ParamsOf(fragment: Octets): Params {
    ParseQuery(Join<Octet>(Split<Octet>(BodyOf(fragment), '?')[1..], '?'))
  }

  function HrefOf(route: Octets, ps: Params): Octets {
    var query := Serialize(ps);
    if query == [] then "#/" + route else "#/" + route + "?" + query
  }

  // ----- the serializer undone by the parser -----

  /** What a serialized name or value may contain. */
  predicate Plain(c: Octet) {
    Unreserved(c) || c == '+' || c == '%'
  }

  lemma {:induction false} EncodedIsPlain(s: Octets)
    ensures forall c :: c in Encode(s) ==> Plain(c)
  {
    if s != [] {
      EncodedIsPlain(s[1..]);
      assert forall c :: c in EncodeOctet(s[0]) ==> Plain(c);
    }
  }

  lemma HexRoundTrip(n: int)
    requires 0 <= n < 16
    ensures IsHex(HexDigit(n)) && HexValue(HexDigit(n)) == n
  {
  }

  lemma DecodeOctet(c: Octet, rest: Octets)
    ensures Decode(EncodeOctet(c) + rest) == [c] + Decode(rest)
  {
    var s := EncodeOctet(c) + rest;
    if Unreserved(c) || c == ' ' {
      assert s[1..] == rest;
    } else {
      HexRoundTrip(c as int / 16);
      HexRoundTrip(c as int % 16);
      assert s[3..] == rest;
    }
  }

  lemma {:induction false} DecodeEncode(s: Octets)
    ensures Decode(Encode(s)) == s
  {
    if s != [] {
      DecodeEncode(s[1..]);
      DecodeOctet(s[0], Encode(s[1..]));
    }
  }

  lemma {:induction false} PairParts(p: (Octets, Octets))
    ensures Split<Octet>(Pair(p), '=') == [Encode(p.0), Encode(p.1)]
  {
    var name, value := Encode(p.0), Encode(p.1);
    EncodedIsPlain(p.0);
    EncodedIsPlain(p.1);
    assert '=' !in name && '=' !in value;
    SplitPart<Octet>(name, '=', value);
    assert Pair(p) == name + ['='] + value;
  }

  lemma {:induction false} PairAvoids(p: (Octets, Octets), x: Octet)
    requires !Plain(x) && x != '='
    ensures x !in Pair(p)
  {
    EncodedIsPlain(p.0);
    EncodedIsPlain(p.1);
  }

  lemma {:induction false} PairRoundTrip(p: (Octets, Octets))
    ensures ParsePair(Pair(p)) == p
  {
    PairParts(p);
    assert [Encode(p.0), Encode(p.1)][1..] == [Encode(p.1)];
    DecodeEncode(p.0);
    DecodeEncode(p.1);
  }

  lemma {:induction false} PiecesRoundTrip(ps: Params)
    ensures ParsePieces(seq(|ps|, i requires 0 <= i < |ps| => Pair(ps[i]))) == ps
  {
    if ps != [] {
      var pieces := seq(|ps|, i requires 0 <= i < |ps| => Pair(ps[i]));
      var tail := ps[1..];
      assert pieces[1..] == seq(|tail|, i requires 0 <= i < |tail| => Pair(tail[i]));
      PairRoundTrip(ps[0]);
      PiecesRoundTrip(tail);
    }
  }

  /** A printed query has no `?`, is empty only for no parameters, and parses back. */
  lemma QueryRoundTrip(ps: Params)
    ensures ParseQuery(Serialize(ps)) == ps
    ensures '?' !in Serialize(ps)
    ensures Serialize(ps) == [] <==> ps == []
  {
    var pieces := seq(|ps|, i requires 0 <= i < |ps| => Pair(ps[i]));
    forall k | 0 <= k < |ps| ensures '&' !in pieces[k] && '?' !in pieces[k] && pieces[k] != [] {
      PairAvoids(ps[k], '&');
      PairAvoids(ps[k], '?');
    }
    JoinContents<Octet>(pieces, '&', '?');
    PiecesRoundTrip(ps);
    if ps == [] {
      var blank: seq<Octets> := [[]];
      assert Split<Octet>(Serialize(ps), '&') == blank;
      assert blank[1..] == [];
    } else {
      SplitJoin<Octet>(pieces, '&');
      assert Join<Octet>(pieces, '&') != [];
      assert Serialize(ps)[0] in Serialize(ps);
    }
  }

  /** The fragment round trip. Parameters always come back, name by name, value
      by value and in order, provided the route is free of `?`; the route comes
      back exactly when it is also non-empty. */
  lemma FragmentRoundTrip(route: Octets, ps: Params)
    ensures RouteOf(HrefOf(route, ps)) == route <==> route != [] && '?' !in route
    ensures '?' !in route ==> ParamsOf(HrefOf(route, ps)) == ps
  {
    QueryRoundTrip(ps);
    var href := HrefOf(route, ps);
    var body := BodyOf(href);
    if ps == [] {
      assert body == route;
    } else {
      assert body == route + ['?'] + Serialize(ps);
    }
    if '?' in route {
      assert RouteOf(href) != route;
    } else if ps == [] {
      assert Split<Octet>(body, '?')[1..] == [];
    } else {
      SplitPart<Octet>(route, '?', Serialize(ps));
      assert Split<Octet>(body, '?')[1..] == [Serialize(ps)];
    }
  }

  /** Serialized text determines the parameter list, so comparing
      `toString()` compares the lists. */
  lemma SerializeInjective(ps: Params, qs: Params)
    ensures Serialize(ps) == Serialize(qs) <==> ps == qs
  {
    QueryRoundTrip(ps);
    QueryRoundTrip(qs);
  }

  // ----- addresses as people write them -----

  /** What a fragment's body says, up to the first `?` and after it. */
  lemma BodyReads(body: Octets, route: Octets, query: Octets)
    requires '?' !in route && (body == route + ['?'] + query || (body == route && query == []))
    ensures var parts := Split<Octet>(body, '?');
            parts[0] == route && Join<Octet>(parts[1..], '?') == query
  {
    if body == route {
      assert Split<Octet>(body, '?') == [route];
      assert [route][1..] == [];
    } else {
      SplitPart<Octet>(route, '?', query);
      JoinSplit<Octet>(query, '?');
      assert ([route] + Split<Octet>(query, '?'))[1..] == Split<Octet>(query, '?');
    }
  }

  /** The leading `#`, and one slash after it, are not part of the address. */
  lemma BodyForms(x: Octets)
    ensures BodyOf("#/" + x) == x
    ensures x == [] || x[0] != '/' ==> BodyOf("#" + x) == x
    ensures x == [] || x[0] != '#' ==> BodyOf(x) == x
  {
  }

  /** An address names the route before its first `?`, or the overview when that is
      empty, and everything after it is the query. */
  lemma AddressReads(fragment: Octets, route: Octets, query: Octets)
    requires '?' !in route
    requires BodyOf(fragment) == route + ['?'] + query || (BodyOf(fragment) == route && query == [])
    ensures RouteOf(fragment) == if route == [] then "overview" else route
    ensures ParamsOf(fragment) == ParseQuery(query)
  {
    hide BodyOf;
    hide ParseQuery;
    BodyReads(BodyOf(fragment), route, query);
  }

  lemma NothingParsed()
    ensures ParseQuery([]) == []
  {
    var blank: seq<Octets> := [[]];
    assert Split<Octet>([], '&') == blank;
    assert blank[1..] == [];
  }

  lemma {:induction false} PiecesJoin(x: seq<Octets>, y: seq<Octets>)
    ensures ParsePieces(x + y) == ParsePieces(x) + ParsePieces(y)
  {
    if x == [] {
      assert x + y == y;
    } else {
      assert (x + y)[0] == x[0] && (x + y)[1..] == x[1..] + y;
      PiecesJoin(x[1..], y);
    }
  }

  /** A query is read piece by piece, in order. */
  lemma PiecesInOrder(x: Octets, y: Octets)
    requires '&' !in x && (x == [] || x[0] != '?') && (y == [] || y[0] != '?')
    ensures ParseQuery(x + "&" + y) == ParseQuery(x) + ParseQuery(y)
  {
    var q := x + "&" + y;
    assert q == x + ['&'] + y && q[0] != '?';
    SplitPart<Octet>(x, '&', y);
    assert Split<Octet>(x, '&') == [x];
    PiecesJoin([x], Split<Octet>(y, '&'));
  }

  /** A piece is a name and a value around its first `=`, a name alone without one, and
      nothing when empty. */
  lemma PieceReads(name: Octets, value: Octets)
    requires '=' !in name && '&' !in name && '&' !in value && (name == [] || name[0] != '?')
    ensures ParseQuery(name + "=" + value) == [(Decode(name), Decode(value))]
    ensures ParseQuery(name) == if name == [] then [] else [(Decode(name), [])]
  {
    var piece := name + "=" + value;
    assert piece == name + ['='] + value && '&' !in piece && piece[0] != '?' && piece != [];
    assert Split<Octet>(piece, '&') == [piece] && Split<Octet>(name, '&') == [name];
    OnePiece(piece);
    OnePiece(name);
    SplitPart<Octet>(name, '=', value);
    JoinSplit<Octet>(value, '=');
    assert ([name] + Split<Octet>(value, '='))[1..] == Split<Octet>(value, '=');
    assert Split<Octet>(name, '=') == [name] && [name][1..] == [];
  }

  lemma OnePiece(piece: Octets)
    ensures ParsePieces([piece]) == if piece == [] then [] else [ParsePair(piece)]
  {
    assert [piece][1..] == [];
  }

  /** Escapes are read in either case, and a stray percent sign is itself. */
  lemma EscapesRead(n: int, rest: Octets)
    requires 10 <= n < 16
    ensures var lower: Octet, upper: Octet := ('a' as int + n - 10) as char, ('A' as int + n - 10) as char;
            && Decode(['%', '2', lower] + rest) == Decode(['%', '2', upper] + rest) == [(32 + n) as char] + Decode(rest)
            && Decode("%") == "%" && Decode(['%', 'g'] + rest) == "%" + Decode(['g'] + rest)
  {
    var lower: Octet, upper: Octet := ('a' as int + n - 10) as char, ('A' as int + n - 10) as char;
    assert (['%', '2', lower] + rest)[3..] == rest && (['%', '2', upper] + rest)[3..] == rest;
    assert (['%', 'g'] + rest)[1..] == ['g'] + rest;
    assert "%"[1..] == [];
  }
}
