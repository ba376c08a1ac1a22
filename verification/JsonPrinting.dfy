/** `JSON.stringify`, compact or indented, and the proof that highlighting its
    output classifies every code unit as the document means it. */
module JsonPrinting {
  import opened JsonLexer
  import opened JsonTokenizer

  /** A JSON value with the spelling of each number and string, so that every
      text of RFC 8259 sections 6 and 7 is covered, not one canonical form. */
  datatype Json =
    | JNull
    | JBool(value: bool)
    | JNumber(spelling: Text)
    | JString(spelling: Text)
    | JArray(items: seq<Json>)
    | JObject(members: seq<Member>)

  datatype Member = Member(name: Text, value: Json)

  ghost predicate WellFormed(v: Json) {
    match v
    case JNull => true
    case JBool(_) => true
    case JNumber(spelling) => IsNumber(spelling)
    case JString(spelling) => IsString(spelling)
    case JArray(items) => forall i :: 0 <= i < |items| ==> WellFormed(items[i])
    case JObject(members) =>
      forall i :: 0 <= i < |members| ==> IsString(members[i].name) && WellFormed(members[i].value)
  }

  // ----- quoting arbitrary contents -----

  function HexUnit(n: int): CodeUnit
    requires 0 <= n < 16
  {
    (if n < 10 then 0x30 + n else 0x61 + n - 10) as CodeUnit
  }

  /** How one code unit is written; `lone` says it is an unpaired surrogate. */
  function QuoteUnit(c: CodeUnit, lone: bool): Text {
    if c == 0x08 then [BACKSLASH, 0x62]
    else if c == 0x09 then [BACKSLASH, 0x74]
    else if c == 0x0A then [BACKSLASH, 0x6E]
    else if c == 0x0C then [BACKSLASH, 0x66]
    else if c == 0x0D then [BACKSLASH, 0x72]
    else if c == QUOTE || c == BACKSLASH then [BACKSLASH, c]
    else if c < 0x20 || lone then
      var n := c as int;
      [BACKSLASH, LOWER_U, HexUnit(n / 4096), HexUnit(n / 256 % 16), HexUnit(n / 16 % 16), HexUnit(n % 16)]
    else [c]
  }

  predicate IsLead(c: CodeUnit) { 0xD800 <= c <= 0xDBFF }

  predicate IsTrail(c: CodeUnit) { 0xDC00 <= c <= 0xDFFF }

  function QuoteBody(s: Text): Text
    decreases |s|
  {
    if s == [] then []
    else if IsLead(s[0]) && |s| >= 2 && IsTrail(s[1]) then
      QuoteUnit(s[0], false) + QuoteUnit(s[1], false) + QuoteBody(s[2..])
    else QuoteUnit(s[0], IsLead(s[0]) || IsTrail(s[0])) + QuoteBody(s[1..])
  }

  function Quote(s: Text): Text {
    [QUOTE] + QuoteBody(s) + [QUOTE]
  }

  lemma EmptyBody()
    ensures IsBody([])
  {
  }

  lemma BodyCons(e: Text, b: Text)
    requires IsElement(e) && IsBody(b)
    ensures IsBody(e + b)
  {
    assert (e + b)[..|e|] == e && (e + b)[|e|..] == b;
  }

  lemma QuotedUnit(c: CodeUnit, lone: bool)
    ensures IsElement(QuoteUnit(c, lone))
  {
  }

  lemma {:induction false} QuotedBody(s: Text)
    ensures IsBody(QuoteBody(s))
    decreases |s|
  {
    hide IsElement;
    hide IsBody;
    hide QuoteUnit;
    if s == [] {
      EmptyBody();
    } else if IsLead(s[0]) && |s| >= 2 && IsTrail(s[1]) {
      QuotedBody(s[2..]);
      QuotedUnit(s[0], false);
      QuotedUnit(s[1], false);
      BodyCons(QuoteUnit(s[1], false), QuoteBody(s[2..]));
      BodyCons(QuoteUnit(s[0], false), QuoteUnit(s[1], false) + QuoteBody(s[2..]));
      assert QuoteUnit(s[0], false) + (QuoteUnit(s[1], false) + QuoteBody(s[2..])) == QuoteBody(s);
    } else {
      QuotedBody(s[1..]);
      QuotedUnit(s[0], IsLead(s[0]) || IsTrail(s[0]));
      BodyCons(QuoteUnit(s[0], IsLead(s[0]) || IsTrail(s[0])), QuoteBody(s[1..]));
    }
  }

  /** Whatever a string contains, its quoted form is one string token. */
  lemma QuotedIsString(s: Text)
    ensures IsString(Quote(s))
  {
    QuotedBody(s);
    assert Quote(s)[1..|Quote(s)| - 1] == QuoteBody(s);
  }

  // ----- the printer: pieces of text, each with the kind it is meant to have -----

  predicate AllSpace(t: Text) { forall k :: 0 <= k < |t| ==> IsSpace(t[k]) }

  function Mark(c: CodeUnit): Token { Token(Punctuation, [c]) }

  /** A new line at this indentation, or nothing when printing compactly. */
  function Break(gap: Text, indent: Text): seq<Token> {
    if gap == [] then [] else [Token(Plain, [0x0A] + indent)]
  }

  /** The space after a colon, when indenting. */
  function Gap(gap: Text): seq<Token> {
    if gap == [] then [] else [Token(Plain, [0x20])]
  }

  function Print(v: Json, gap: Text, indent: Text): seq<Token>
    decreases v, 1
  {
    match v
    case JNull => [Token(Null, NULL)]
    case JBool(b) => [Token(Boolean, if b then TRUE else FALSE)]
    case JNumber(spelling) => [Token(Number, spelling)]
    case JString(spelling) => [Token(String, spelling)]
    case JArray(items) =>
      if items == [] then [Mark(LBRACKET), Mark(RBRACKET)]
      else [Mark(LBRACKET)] + Break(gap, indent + gap) + PrintItems(items, gap, indent + gap)
           + Break(gap, indent) + [Mark(RBRACKET)]
    case JObject(members) =>
      if members == [] then [Mark(LBRACE), Mark(RBRACE)]
      else [Mark(LBRACE)] + Break(gap, indent + gap) + PrintMembers(members, gap, indent + gap)
           + Break(gap, indent) + [Mark(RBRACE)]
  }

  function PrintItems(items: seq<Json>, gap: Text, indent: Text): seq<Token>
    requires items != []
    decreases items, 0
  {
    if |items| == 1 then Print(items[0], gap, indent)
    else Print(items[0], gap, indent) + [Mark(COMMA)] + Break(gap, indent) + PrintItems(items[1..], gap, indent)
  }

  function PrintMember(m: Member, gap: Text, indent: Text): seq<Token>
    decreases m, 0
  {
    [Token(Key, m.name), Mark(COLON)] + Gap(gap) + Print(m.value, gap, indent)
  }

  function PrintMembers(members: seq<Member>, gap: Text, indent: Text): seq<Token>
    requires members != []
    decreases members, 0
  {
    if |members| == 1 then PrintMember(members[0], gap, indent)
    else PrintMember(members[0], gap, indent) + [Mark(COMMA)] + Break(gap, indent)
         + PrintMembers(members[1..], gap, indent)
  }

  // ----- what keeps neighbouring pieces apart -----

  /** The next piece that is not whitespace is a colon. */
  predicate ColonNext(pieces: seq<Token>) {
    pieces != [] && (if pieces[0].kind == Plain then ColonNext(pieces[1..]) else pieces[0] == Mark(COLON))
  }

  /** The end, whitespace or punctuation: nothing a number could run into. */
  predicate Apart(pieces: seq<Token>) {
    pieces == [] || pieces[0].kind == Plain || pieces[0].kind == Punctuation
  }

  /** A piece that really is of its kind, in front of these. */
  ghost predicate Fits(piece: Token, next: seq<Token>) {
    match piece.kind
    case Key => IsString(piece.text) && ColonNext(next)
    case String => IsString(piece.text) && !ColonNext(next)
    case Number => IsNumber(piece.text) && Apart(next)
    case Boolean => piece.text == TRUE || piece.text == FALSE
    case Null => piece.text == NULL
    case Punctuation => |piece.text| == 1 && IsPunctuation(piece.text[0])
    case Plain => piece.text != [] && AllSpace(piece.text)
  }

  ghost predicate Good(pieces: seq<Token>) {
    pieces == [] || (Fits(pieces[0], pieces[1..]) && Good(pieces[1..]))
  }

  lemma Cons(piece: Token, next: seq<Token>)
    requires Good(next) && Fits(piece, next)
    ensures Good([piece] + next)
  {
    assert ([piece] + next)[1..] == next;
  }

  // ----- printed pieces are kept apart -----

  /** What can follow a value. */
  ghost predicate Follows(next: seq<Token>) {
    Good(next) && Apart(next) && !ColonNext(next)
  }

  lemma BreakFollows(gap: Text, indent: Text, next: seq<Token>)
    requires AllSpace(indent)
    ensures Good(next) ==> Good(Break(gap, indent) + next)
    ensures Follows(next) ==> Follows(Break(gap, indent) + next)
  {
    if gap == [] {
      assert Break(gap, indent) + next == next;
    } else {
      var line := Token(Plain, [0x0A] + indent);
      assert ([line] + next)[1..] == next;
    }
  }

  lemma MarkFollows(c: CodeUnit, next: seq<Token>)
    requires Good(next) && IsPunctuation(c)
    ensures Good([Mark(c)] + next)
    ensures c != COLON ==> Follows([Mark(c)] + next)
    ensures c == COLON ==> ColonNext([Mark(c)] + next)
  {
    Cons(Mark(c), next);
  }

  /** `]` or `}`, on its own line when indenting. */
  lemma CloseFollows(gap: Text, indent: Text, c: CodeUnit, next: seq<Token>)
    requires AllSpace(indent) && Good(next) && (c == RBRACKET || c == RBRACE)
    ensures Follows(Break(gap, indent) + ([Mark(c)] + next))
  {
    MarkFollows(c, next);
    BreakFollows(gap, indent, [Mark(c)] + next);
  }

  /** A comma and a new line in front of the next item. */
  lemma CommaFollows(gap: Text, indent: Text, next: seq<Token>)
    requires AllSpace(indent) && Good(next)
    ensures Follows([Mark(COMMA)] + (Break(gap, indent) + next))
  {
    BreakFollows(gap, indent, next);
    MarkFollows(COMMA, Break(gap, indent) + next);
  }

  lemma OpenGood(open: CodeUnit, gap: Text, indent: Text, next: seq<Token>)
    requires IsPunctuation(open) && AllSpace(indent) && Good(next)
    ensures Good([Mark(open)] + (Break(gap, indent) + next))
  {
    BreakFollows(gap, indent, next);
    MarkFollows(open, Break(gap, indent) + next);
  }

  lemma Regroup(open: seq<Token>, line: seq<Token>, contents: seq<Token>, last: seq<Token>,
                close: seq<Token>, next: seq<Token>)
    ensures (open + line + contents + last + close) + next
         == open + (line + (contents + (last + (close + next))))
  {
  }

  lemma {:induction false} PrintGood(v: Json, gap: Text, indent: Text, next: seq<Token>)
    requires WellFormed(v) && AllSpace(gap) && AllSpace(indent) && Follows(next)
    ensures Good(Print(v, gap, indent) + next)
    decreases v, 1
  {
    hide Good;
    match v {
      case JArray(items) =>
        MarkFollows(RBRACKET, next);
        if items == [] {
          MarkFollows(LBRACKET, [Mark(RBRACKET)] + next);
          assert Print(v, gap, indent) + next == [Mark(LBRACKET)] + ([Mark(RBRACKET)] + next);
        } else {
          var inner := indent + gap;
          var close := Break(gap, indent) + ([Mark(RBRACKET)] + next);
          CloseFollows(gap, indent, RBRACKET, next);
          ItemsGood(items, gap, inner, close);
          OpenGood(LBRACKET, gap, inner, PrintItems(items, gap, inner) + close);
          Regroup([Mark(LBRACKET)], Break(gap, inner), PrintItems(items, gap, inner),
                  Break(gap, indent), [Mark(RBRACKET)], next);
        }
      case JObject(members) =>
        MarkFollows(RBRACE, next);
        if members == [] {
          MarkFollows(LBRACE, [Mark(RBRACE)] + next);
          assert Print(v, gap, indent) + next == [Mark(LBRACE)] + ([Mark(RBRACE)] + next);
        } else {
          var inner := indent + gap;
          var close := Break(gap, indent) + ([Mark(RBRACE)] + next);
          CloseFollows(gap, indent, RBRACE, next);
          MembersGood(members, gap, inner, close);
          OpenGood(LBRACE, gap, inner, PrintMembers(members, gap, inner) + close);
          Regroup([Mark(LBRACE)], Break(gap, inner), PrintMembers(members, gap, inner),
                  Break(gap, indent), [Mark(RBRACE)], next);
        }
      case _ => Cons(Print(v, gap, indent)[0], next);
    }
  }

  lemma {:induction false} ItemsGood(items: seq<Json>, gap: Text, indent: Text, next: seq<Token>)
    requires items != [] && (forall i :: 0 <= i < |items| ==> WellFormed(items[i]))
    requires AllSpace(gap) && AllSpace(indent) && Follows(next)
    ensures Good(PrintItems(items, gap, indent) + next)
    decreases items, 0
  {
    hide Good;
    hide Follows;
    hide AllSpace;
    hide WellFormed;
    hide Print;
    hide Break;
    if |items| == 1 {
      PrintGood(items[0], gap, indent, next);
    } else {
      var first, more := Print(items[0], gap, indent), PrintItems(items[1..], gap, indent) + next;
      ItemsGood(items[1..], gap, indent, next);
      CommaFollows(gap, indent, more);
      PrintGood(items[0], gap, indent, [Mark(COMMA)] + (Break(gap, indent) + more));
      assert PrintItems(items, gap, indent) + next == first + ([Mark(COMMA)] + (Break(gap, indent) + more));
    }
  }

  lemma NameGood(name: Text, next: seq<Token>)
    requires IsString(name) && Good(next) && ColonNext(next)
    ensures Good([Token(Key, name)] + next)
  {
    Cons(Token(Key, name), next);
  }

  lemma GapGood(gap: Text, next: seq<Token>)
    requires Good(next)
    ensures Good(Gap(gap) + next)
  {
    if gap == [] {
      assert Gap(gap) + next == next;
    } else {
      Cons(Token(Plain, [0x20]), next);
    }
  }

  lemma {:induction false} MemberGood(m: Member, gap: Text, indent: Text, next: seq<Token>)
    requires IsString(m.name) && WellFormed(m.value)
    requires AllSpace(gap) && AllSpace(indent) && Follows(next)
    ensures Good(PrintMember(m, gap, indent) + next)
    decreases m, 0
  {
    hide Good;
    hide IsString;
    hide ColonNext;
    hide Follows;
    hide AllSpace;
    hide WellFormed;
    hide Print;
    hide Gap;
    var value := Print(m.value, gap, indent) + next;
    PrintGood(m.value, gap, indent, next);
    GapGood(gap, value);
    MarkFollows(COLON, Gap(gap) + value);
    NameGood(m.name, [Mark(COLON)] + (Gap(gap) + value));
    assert PrintMember(m, gap, indent) + next == [Token(Key, m.name)] + ([Mark(COLON)] + (Gap(gap) + value));
  }

  lemma {:induction false} MembersGood(members: seq<Member>, gap: Text, indent: Text, next: seq<Token>)
    requires members != []
    requires forall i :: 0 <= i < |members| ==> IsString(members[i].name) && WellFormed(members[i].value)
    requires AllSpace(gap) && AllSpace(indent) && Follows(next)
    ensures Good(PrintMembers(members, gap, indent) + next)
    decreases members, 0
  {
    hide Good;
    hide Follows;
    hide AllSpace;
    hide WellFormed;
    hide IsString;
    hide PrintMember;
    hide Break;
    if |members| == 1 {
      MemberGood(members[0], gap, indent, next);
    } else {
      var first, more := PrintMember(members[0], gap, indent), PrintMembers(members[1..], gap, indent) + next;
      MembersGood(members[1..], gap, indent, next);
      CommaFollows(gap, indent, more);
      MemberGood(members[0], gap, indent, [Mark(COMMA)] + (Break(gap, indent) + more));
      assert PrintMembers(members, gap, indent) + next == first + ([Mark(COMMA)] + (Break(gap, indent) + more));
    }
  }

  // ----- pieces kept apart are scanned as they are -----

  lemma {:induction false} Front(pieces: seq<Token>)
    requires pieces != []
    ensures TextOf(pieces) == pieces[0].text + TextOf(pieces[1..])
    ensures KindsOf(pieces) == Repeat(pieces[0].kind, |pieces[0].text|) + KindsOf(pieces[1..])
  {
    if |pieces| > 1 {
      var n := |pieces| - 1;
      Front(pieces[..n]);
      assert pieces[..n][1..] == pieces[1..][..n - 1];
      var first, last, middle := pieces[0], pieces[n], pieces[1..][..n - 1];
      Associate(first.text, TextOf(middle), last.text);
      Associate(Repeat(first.kind, |first.text|), KindsOf(middle), Repeat(last.kind, |last.text|));
    }
  }

  lemma {:induction false} FirstUnit(pieces: seq<Token>)
    requires Good(pieces) && pieces != []
    ensures TextOf(pieces) != []
    ensures pieces[0].kind != Plain ==> !IsSpace(TextOf(pieces)[0])
    ensures Apart(pieces) ==> !InNumber(TextOf(pieces)[0])
    ensures pieces[0].kind != Plain ==> (TextOf(pieces)[0] == COLON <==> pieces[0] == Mark(COLON))
  {
    hide Fits;
    hide IsSpace;
    hide InNumber;
    Front(pieces);
    PieceUnit(pieces[0], pieces[1..]);
    assert TextOf(pieces)[0] == pieces[0].text[0];
  }

  /** What the first unit of a piece says of it. */
  lemma PieceUnit(piece: Token, next: seq<Token>)
    requires Fits(piece, next)
    ensures piece.text != []
    ensures piece.kind != Plain ==> !IsSpace(piece.text[0])
    ensures piece.kind == Plain || piece.kind == Punctuation ==> !InNumber(piece.text[0])
    ensures piece.kind != Plain ==> (piece.text[0] == COLON <==> piece == Mark(COLON))
  {
    hide IsNumber;
    hide IsBody;
    if piece.kind == Number {
      NumberNonEmpty(piece.text);
      NumberUnits(piece.text, 0);
    }
    if piece.kind == Punctuation {
      assert piece.text == [piece.text[0]];
    }
  }

  lemma {:induction false} ColonSeen(pieces: seq<Token>)
    requires Good(pieces)
    ensures ColonAhead(TextOf(pieces)) <==> ColonNext(pieces)
  {
    if pieces != [] {
      Front(pieces);
      if pieces[0].kind == Plain {
        var rest := TextOf(pieces[1..]);
        ColonSeen(pieces[1..]);
        SpaceRun(pieces[0].text, rest);
        DropInto(pieces[0].text, rest, SpaceLen(rest));
      } else {
        FirstUnit(pieces);
      }
    }
  }

  lemma {:induction false} ScanPiece(piece: Token, next: seq<Token>)
    requires Good(next) && Fits(piece, next)
    ensures ScanKinds(piece.text + TextOf(next)) == Repeat(piece.kind, |piece.text|) + ScanKinds(TextOf(next))
  {
    var rest := TextOf(next);
    ColonSeen(next);
    match piece.kind {
      case Key => ScanString(piece.text, rest);
      case String => ScanString(piece.text, rest);
      case Number =>
        if next != [] { FirstUnit(next); }
        ScanNumber(piece.text, rest);
      case Boolean => ScanWord(piece, rest);
      case Null => ScanWord(piece, rest);
      case Punctuation =>
        assert piece.text == [piece.text[0]];
        ScanPunctuation(piece.text[0], rest);
        assert Repeat(Punctuation, 1) == [Punctuation];
      case Plain => ScanSpaces(piece.text, rest);
    }
  }

  lemma {:induction false} ScanPieces(pieces: seq<Token>)
    requires Good(pieces)
    ensures ScanKinds(TextOf(pieces)) == KindsOf(pieces)
  {
    if pieces != [] {
      Front(pieces);
      ScanPiece(pieces[0], pieces[1..]);
      ScanPieces(pieces[1..]);
    }
  }

  /** Every JSON value, printed compactly or with any whitespace indentation:
      each code unit gets the kind its piece was printed with. */
  lemma PrintedKinds(v: Json, gap: Text)
    requires WellFormed(v) && AllSpace(gap)
    ensures ScanKinds(TextOf(Print(v, gap, []))) == KindsOf(Print(v, gap, []))
  {
    PrintGood(v, gap, [], []);
    assert Print(v, gap, []) + [] == Print(v, gap, []);
    ScanPieces(Print(v, gap, []));
  }

  // ----- every JSON text -----

  /** The pieces that are not whitespace. */
  function Tokens(pieces: seq<Token>): seq<Token> {
    if pieces == [] then []
    else (if pieces[0].kind == Plain then [] else [pieces[0]]) + Tokens(pieces[1..])
  }

  /** A text of RFC 8259 section 2 for a value: its tokens, with any whitespace before,
      between and after them. */
  ghost predicate TextFor(v: Json, pieces: seq<Token>) {
    && Tokens(pieces) == Print(v, [], [])
    && forall i :: 0 <= i < |pieces| && pieces[i].kind == Plain ==> pieces[i].text != [] && AllSpace(pieces[i].text)
  }

  lemma {:induction false} TokensKeep(pieces: seq<Token>)
    ensures ColonNext(pieces) <==> ColonNext(Tokens(pieces))
    ensures Apart(Tokens(pieces)) ==> Apart(pieces)
  {
    if pieces != [] {
      TokensKeep(pieces[1..]);
      if pieces[0].kind != Plain {
        assert Tokens(pieces)[0] == pieces[0];
      } else {
        assert Tokens(pieces) == Tokens(pieces[1..]);
      }
    }
  }

  /** Whitespace never brings pieces closer together. */
  lemma {:induction false} SpacedGood(pieces: seq<Token>)
    requires Good(Tokens(pieces))
    requires forall i :: 0 <= i < |pieces| && pieces[i].kind == Plain ==> pieces[i].text != [] && AllSpace(pieces[i].text)
    ensures Good(pieces)
  {
    hide IsString;
    hide IsNumber;
    hide AllSpace;
    if pieces != [] {
      var next := pieces[1..];
      TokensKeep(next);
      if pieces[0].kind != Plain {
        assert Tokens(pieces)[0] == pieces[0] && Tokens(pieces)[1..] == Tokens(next);
      } else {
        assert Tokens(pieces) == Tokens(next);
      }
      SpacedGood(next);
    }
  }

  /** Every JSON text, whatever its layout: each code unit gets the kind of the token
      it belongs to, and none outside tokens. */
  lemma TextKinds(v: Json, pieces: seq<Token>)
    requires WellFormed(v) && TextFor(v, pieces)
    ensures ScanKinds(TextOf(pieces)) == KindsOf(pieces)
  {
    PrintGood(v, [], [], []);
    assert Print(v, [], []) + [] == Print(v, [], []);
    SpacedGood(pieces);
    ScanPieces(pieces);
  }

  /** Highlighting any JSON text: the text back, and the kinds of its tokens. */
  method HighlightText(v: Json, pieces: seq<Token>) returns (tokens: seq<Token>)
    requires WellFormed(v) && TextFor(v, pieces)
    ensures TextOf(tokens) == TextOf(pieces) && KindsOf(tokens) == KindsOf(pieces) && Coalesced(tokens)
  {
    TextKinds(v, pieces);
    tokens := TokenizeJson(TextOf(pieces));
  }

  /** Highlighting a printed value: the source back, and the intended kinds. */
  method Highlight(v: Json, gap: Text) returns (tokens: seq<Token>)
    requires WellFormed(v) && AllSpace(gap)
    ensures TextOf(tokens) == TextOf(Print(v, gap, []))
    ensures KindsOf(tokens) == KindsOf(Print(v, gap, []))
    ensures Coalesced(tokens)
  {
    PrintedKinds(v, gap);
    tokens := TokenizeJson(TextOf(Print(v, gap, [])));
  }
}
