/** Splitting JSON source for presentation: total, lossless, never a validator. */
module JsonTokenizer {
  import opened Texts
  import opened JsonLexer

  datatype Kind = Key | String | Number | Boolean | Null | Punctuation | Plain

  datatype Token = Token(kind: Kind, text: Text)

  const TRUE: Text := [0x74, 0x72, 0x75, 0x65]
  const FALSE: Text := [0x66, 0x61, 0x6C, 0x73, 0x65]
  const NULL: Text := [0x6E, 0x75, 0x6C, 0x6C]

  predicate IsPunctuation(c: CodeUnit) {
    c in {LBRACE, RBRACE, LBRACKET, RBRACKET, COMMA, COLON}
  }

  /** A colon comes next, whitespace aside: what makes a string a member name. */
  predicate ColonAhead(t: Text) {
    SpaceLen(t) < |t| && t[SpaceLen(t)] == COLON
  }

  function KeywordAt(t: Text): Option<Token> {
    if TRUE <= t then Some(Token(Boolean, TRUE))
    else if FALSE <= t then Some(Token(Boolean, FALSE))
    else if NULL <= t then Some(Token(Null, NULL))
    else None
  }

  /** The token at the front of a non-empty text: whitespace, then a string, a
      number, a keyword, and otherwise one code unit on its own. */
  function TokenAt(t: Text): (token: Token)
    requires t != []
    ensures token.text != [] && token.text <= t
  {
    var spaces, str, num, word := SpaceLen(t), StringLen(t), NumberLen(t), KeywordAt(t);
    if spaces > 0 then Token(Plain, t[..spaces])
    else if str.Some? then
      StringMatch(t, str.value);
      Token(if ColonAhead(t[str.value..]) then Key else String, t[..str.value])
    else if num.Some? then Token(Number, t[..num.value])
    else if word.Some? then word.value
    else Token(if IsPunctuation(t[0]) then Punctuation else Plain, t[..1])
  }

  /** What the token at the front is, for any text whatever: a whitespace run; else the
      one prefix that is a string; else the longest that is a number; else a keyword;
      else one code unit, plain unless it is punctuation. */
  lemma {:induction false} TokenAtIs(t: Text, n: nat)
    requires t != []
    ensures var token := TokenAt(t);
            && (IsSpace(t[0]) ==> token.kind == Plain && (|token.text| < |t| ==> !IsSpace(t[|token.text|]))
                                  && forall k :: 0 <= k < |token.text| ==> IsSpace(t[k]))
            && (!IsSpace(t[0]) && n <= |t| && IsString(t[..n]) ==>
                  token == Token(if ColonAhead(t[n..]) then Key else String, t[..n]))
            && (!IsSpace(t[0]) && NoString(t) && Longest(t, n) ==> token == Token(Number, t[..n]))
            && (!IsSpace(t[0]) && NoString(t) && NoNumber(t) ==>
                  token == if TRUE <= t then Token(Boolean, TRUE) else if FALSE <= t then Token(Boolean, FALSE)
                           else if NULL <= t then Token(Null, NULL)
                           else Token(if t[0] in {0x7B, 0x7D, 0x5B, 0x5D, 0x2C, 0x3A} then Punctuation else Plain, [t[0]]))
  {
    hide IsString;
    hide IsNumber;
    hide NumberLen;
    hide StringLen;
    StringMatch(t, n);
    LongestNumber(t);
    if StringLen(t).Some? { StringMatch(t, StringLen(t).value); }
    assert t[..1] == [t[0]];
  }

  /** No longer prefix is a number. */
  ghost predicate Longest(t: Text, n: nat) {
    n <= |t| && IsNumber(t[..n]) && forall m :: n < m <= |t| ==> !IsNumber(t[..m])
  }

  ghost predicate NoString(t: Text) { forall m :: 0 <= m <= |t| ==> !IsString(t[..m]) }

  ghost predicate NoNumber(t: Text) { forall m :: 0 <= m <= |t| ==> !IsNumber(t[..m]) }

  // ----- the plain scan, unit by unit -----

  function Repeat<T>(x: T, n: nat): (r: seq<T>)
    ensures |r| == n && forall k :: 0 <= k < n ==> r[k] == x
  {
    seq(n, _ => x)
  }

  /** The kind of every code unit, in one pass and before any coalescing. */
  function ScanKinds(t: Text): (kinds: seq<Kind>)
    ensures |kinds| == |t|
    decreases |t|
  {
    if t == [] then []
    else
      var token := TokenAt(t);
      Repeat(token.kind, |token.text|) + ScanKinds(t[|token.text|..])
  }

  function TextOf(tokens: seq<Token>): Text {
    if tokens == [] then [] else TextOf(tokens[..|tokens| - 1]) + tokens[|tokens| - 1].text
  }

  function KindsOf(tokens: seq<Token>): (kinds: seq<Kind>)
    ensures |kinds| == |TextOf(tokens)|
  {
    if tokens == [] then []
    else
      var last := tokens[|tokens| - 1];
      KindsOf(tokens[..|tokens| - 1]) + Repeat(last.kind, |last.text|)
  }

  /** Non-empty tokens, no two neighbours of one kind. */
  predicate Coalesced(tokens: seq<Token>) {
    && (forall i :: 0 <= i < |tokens| ==> tokens[i].text != [])
    && (forall i :: 0 < i < |tokens| ==> tokens[i - 1].kind != tokens[i].kind)
  }

  // ----- the loops -----

  method WhitespaceEnd(source: Text, start: nat) returns (end: nat)
    requires start <= |source|
    ensures end == start + SpaceLen(source[start..])
  {
    end := start;
    while end < |source| && IsSpace(source[end])
      invariant start <= end <= |source|
      invariant SpaceLen(source[start..]) == end - start + SpaceLen(source[end..])
    {
      assert source[end..][1..] == source[end + 1..];
      end := end + 1;
    }
  }

  /** Appends a token, or lengthens the last one when the kind is the same. */
  method Push(tokens: seq<Token>, token: Token) returns (r: seq<Token>)
    requires Coalesced(tokens) && token.text != []
    ensures Coalesced(r)
    ensures TextOf(r) == TextOf(tokens) + token.text
    ensures KindsOf(r) == KindsOf(tokens) + Repeat(token.kind, |token.text|)
  {
    if tokens != [] && tokens[|tokens| - 1].kind == token.kind {
      var last := tokens[|tokens| - 1];
      var longer := Token(token.kind, last.text + token.text);
      r := tokens[|tokens| - 1 := longer];
      assert r[..|r| - 1] == tokens[..|r| - 1];
      assert Repeat(last.kind, |last.text|) + Repeat(token.kind, |token.text|)
          == Repeat(token.kind, |longer.text|);
      assert TextOf(r) == TextOf(tokens[..|r| - 1]) + (last.text + token.text);
      assert KindsOf(r) == KindsOf(tokens[..|r| - 1]) + Repeat(token.kind, |longer.text|);
    } else {
      r := tokens + [token];
      assert r[..|r| - 1] == tokens;
    }
  }

  lemma ScanStep(source: Text, cursor: nat, token: Token)
    requires cursor < |source| && token == TokenAt(source[cursor..])
    ensures cursor + |token.text| <= |source|
    ensures source[..cursor] + token.text == source[..cursor + |token.text|]
    ensures ScanKinds(source[cursor..])
         == Repeat(token.kind, |token.text|) + ScanKinds(source[cursor + |token.text|..])
  {
    var rest := source[cursor..];
    assert rest[|token.text|..] == source[cursor + |token.text|..];
  }

  lemma Associate<T>(a: seq<T>, b: seq<T>, c: seq<T>)
    ensures a + (b + c) == (a + b) + c
  {
  }

  /** For every text, malformed included: the scan ends, its tokens are non-empty
      and spell the source, neighbours differ in kind, and coalescing has not
      changed the kind of a single code unit. */
  method TokenizeJson(source: Text) returns (tokens: seq<Token>)
    ensures TextOf(tokens) == source
    ensures KindsOf(tokens) == ScanKinds(source)
    ensures Coalesced(tokens)
  {
    tokens := [];
    var cursor := 0;
    assert source[0..] == source;
    while cursor < |source|
      invariant 0 <= cursor <= |source|
      invariant Coalesced(tokens)
      invariant TextOf(tokens) == source[..cursor]
      invariant KindsOf(tokens) + ScanKinds(source[cursor..]) == ScanKinds(source)
    {
      var token := TokenAt(source[cursor..]);
      ScanStep(source, cursor, token);
      var end := cursor + |token.text|;
      Associate(KindsOf(tokens), Repeat(token.kind, |token.text|), ScanKinds(source[end..]));
      tokens := Push(tokens, token);
      cursor := end;
    }
    assert source[..cursor] == source;
  }

  // ----- one token at a time -----

  lemma ScanToken(token: Token, rest: Text)
    requires token.text != [] && TokenAt(token.text + rest) == token
    ensures ScanKinds(token.text + rest) == Repeat(token.kind, |token.text|) + ScanKinds(rest)
  {
    assert (token.text + rest)[|token.text|..] == rest;
  }

  lemma {:induction false} SpaceRun(spaces: Text, rest: Text)
    requires forall k :: 0 <= k < |spaces| ==> IsSpace(spaces[k])
    ensures SpaceLen(spaces + rest) == |spaces| + SpaceLen(rest)
  {
    if spaces == [] {
      assert spaces + rest == rest;
    } else {
      assert (spaces + rest)[1..] == spaces[1..] + rest;
      SpaceRun(spaces[1..], rest);
    }
  }

  lemma RepeatSum<T>(x: T, m: nat, n: nat, rest: seq<T>)
    ensures Repeat(x, m + n) + rest == Repeat(x, m) + (Repeat(x, n) + rest)
  {
  }

  lemma DropInto<T>(a: seq<T>, b: seq<T>, k: nat)
    requires k <= |b|
    ensures (a + b)[|a| + k..] == b[k..]
  {
  }

  /** Leading whitespace is plain, and the rest is scanned as if it stood alone. */
  lemma {:induction false} ScanLeading(t: Text)
    ensures ScanKinds(t) == Repeat(Plain, SpaceLen(t)) + ScanKinds(t[SpaceLen(t)..])
  {
    var n := SpaceLen(t);
    if n == 0 {
      assert t[n..] == t;
    } else {
      assert TokenAt(t) == Token(Plain, t[..n]);
    }
  }

  lemma {:induction false} ScanSpaces(spaces: Text, rest: Text)
    requires forall k :: 0 <= k < |spaces| ==> IsSpace(spaces[k])
    ensures ScanKinds(spaces + rest) == Repeat(Plain, |spaces|) + ScanKinds(rest)
  {
    hide ScanKinds;
    hide SpaceLen;
    hide Repeat;
    var more := SpaceLen(rest);
    calc {
      ScanKinds(spaces + rest);
    ==  { ScanLeading(spaces + rest); SpaceRun(spaces, rest); DropInto(spaces, rest, more); }
      Repeat(Plain, |spaces| + more) + ScanKinds(rest[more..]);
    ==  { RepeatSum(Plain, |spaces|, more, ScanKinds(rest[more..])); }
      Repeat(Plain, |spaces|) + (Repeat(Plain, more) + ScanKinds(rest[more..]));
    ==  { ScanLeading(rest); }
      Repeat(Plain, |spaces|) + ScanKinds(rest);
    }
  }

  lemma ScanPunctuation(c: CodeUnit, rest: Text)
    requires IsPunctuation(c)
    ensures ScanKinds([c] + rest) == [Punctuation] + ScanKinds(rest)
  {
    var t := [c] + rest;
    assert t[0] == c;
    assert t[..1] == [c];
    ScanToken(Token(Punctuation, [c]), rest);
    assert Repeat(Punctuation, 1) == [Punctuation];
  }

  lemma ScanString(s: Text, rest: Text)
    requires IsString(s)
    ensures ScanKinds(s + rest) == Repeat(if ColonAhead(rest) then Key else String, |s|) + ScanKinds(rest)
  {
    var t := s + rest;
    assert t[..|s|] == s && t[|s|..] == rest;
    assert t[0] == QUOTE;
    StringMatch(t, |s|);
    ScanToken(Token(if ColonAhead(rest) then Key else String, s), rest);
  }

  lemma ScanNumber(n: Text, rest: Text)
    requires IsNumber(n)
    requires rest != [] ==> !InNumber(rest[0])
    ensures ScanKinds(n + rest) == Repeat(Number, |n|) + ScanKinds(rest)
  {
    hide IsNumber;
    hide NumberLen;
    NumberHere(n, rest);
    NumberNonEmpty(n);
    NumberUnits(n, 0);
    assert (n + rest)[..|n|] == n && (n + rest)[0] == n[0];
    ScanToken(Token(Number, n), rest);
  }

  /** The match is the number, and no more. */
  lemma NumberHere(n: Text, rest: Text)
    requires IsNumber(n)
    requires rest != [] ==> !InNumber(rest[0])
    ensures NumberLen(n + rest) == Some(|n|)
  {
    hide IsNumber;
    hide NumberLen;
    var t := n + rest;
    assert t[..|n|] == n;
    LongestNumber(t);
    var len := NumberLen(t).value;
    assert len > |n| ==> t[..len][|n|] == rest[0];
    if len > |n| {
      NumberUnits(t[..len], |n|);
    }
  }

  lemma ScanWord(token: Token, rest: Text)
    requires token in {Token(Boolean, TRUE), Token(Boolean, FALSE), Token(Null, NULL)}
    ensures ScanKinds(token.text + rest) == Repeat(token.kind, |token.text|) + ScanKinds(rest)
  {
    var t := token.text + rest;
    assert token.text <= t;
    assert t[0] == token.text[0];
    assert SpaceLen(t) == 0 && StringLen(t).None? && NumberLen(t).None?;
    assert KeywordAt(t) == Some(token);
    ScanToken(token, rest);
  }
}
