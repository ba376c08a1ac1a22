/** The lexical grammar behind JSON highlighting: the two sticky expressions and
    the whitespace run, each tied to what RFC 8259 calls a string and a number.

    Text is UTF-16 code units, as JavaScript strings are; every function looks at
    the source from the cursor on, which is all a sticky expression sees. */
module JsonLexer {
  import opened Texts

  newtype CodeUnit = c: int | 0 <= c < 0x1_0000
  type Text = seq<CodeUnit>

  const QUOTE: CodeUnit := 0x22
  const PLUS: CodeUnit := 0x2B
  const COMMA: CodeUnit := 0x2C
  const MINUS: CodeUnit := 0x2D
  const DOT: CodeUnit := 0x2E
  const ZERO: CodeUnit := 0x30
  const COLON: CodeUnit := 0x3A
  const LBRACKET: CodeUnit := 0x5B
  const BACKSLASH: CodeUnit := 0x5C
  const RBRACKET: CodeUnit := 0x5D
  const LOWER_U: CodeUnit := 0x75
  const LBRACE: CodeUnit := 0x7B
  const RBRACE: CodeUnit := 0x7D

  // ----- whitespace: the expression \s on one code unit -----

  predicate IsSpace(c: CodeUnit) { SpaceCode(c as int) }

  function SpaceLen(t: Text): (n: nat)
    ensures n <= |t|
    ensures forall k :: 0 <= k < n ==> IsSpace(t[k])
    ensures n < |t| ==> !IsSpace(t[n])
  {
    if t == [] || !IsSpace(t[0]) then 0 else 1 + SpaceLen(t[1..])
  }

  // ----- strings -----

  predicate IsDigit(c: CodeUnit) { 0x30 <= c <= 0x39 }

  predicate IsHex(c: CodeUnit) { HexCode(c as int) }

  /** `" \ / b f n r t` */
  predicate IsShortEscape(c: CodeUnit) {
    c in {0x22, 0x5C, 0x2F, 0x62, 0x66, 0x6E, 0x72, 0x74}
  }

  /** One `char` of a string, section 7 of RFC 8259, except that the expression
      also lets control characters through. */
  predicate IsElement(e: Text) {
    || (|e| == 1 && e[0] != QUOTE && e[0] != BACKSLASH)
    || (|e| == 2 && e[0] == BACKSLASH && IsShortEscape(e[1]))
    || (|e| == 6 && e[0] == BACKSLASH && e[1] == LOWER_U
        && IsHex(e[2]) && IsHex(e[3]) && IsHex(e[4]) && IsHex(e[5]))
  }

  predicate IsBody(b: Text)
    decreases |b|
  {
    b == [] || exists k :: 1 <= k <= |b| && IsElement(b[..k]) && IsBody(b[k..])
  }

  predicate IsString(s: Text) {
    |s| >= 2 && s[0] == QUOTE && s[|s| - 1] == QUOTE && IsBody(s[1..|s| - 1])
  }

  /** Length of the element at the front, which its first units decide; 0 for none. */
  function ElementLen(t: Text): (n: nat)
    ensures n <= |t|
    ensures n > 0 ==> IsElement(t[..n])
    ensures forall k :: 1 <= k <= |t| && IsElement(t[..k]) ==> k == n
  {
    if t == [] || t[0] == QUOTE then 0
    else if t[0] != BACKSLASH then 1
    else if |t| >= 2 && IsShortEscape(t[1]) then 2
    else if |t| >= 6 && IsElement(t[..6]) then 6
    else 0
  }

  /** Length of the elements up to and including the closing quote. */
  function BodyLen(t: Text): Option<nat>
    decreases |t|
  {
    if t != [] && t[0] == QUOTE then Some(1)
    else
      var n := ElementLen(t);
      if n == 0 then None
      else match BodyLen(t[n..])
        case None => None
        case Some(rest) => Some(n + rest)
  }

  /** The string expression at the front of the text. */
  function StringLen(t: Text): Option<nat> {
    if t == [] || t[0] != QUOTE then None
    else match BodyLen(t[1..])
      case None => None
      case Some(n) => Some(1 + n)
  }

  predicate Closed(t: Text, n: nat) {
    1 <= n <= |t| && t[n - 1] == QUOTE && IsBody(t[..n - 1])
  }

  lemma {:induction false} BodySound(t: Text)
    requires BodyLen(t).Some?
    ensures Closed(t, BodyLen(t).value)
    decreases |t|
  {
    if t[0] != QUOTE {
      var k := ElementLen(t);
      BodySound(t[k..]);
      var n := BodyLen(t).value;
      var b := t[..n - 1];
      assert b[..k] == t[..k];
      assert b[k..] == t[k..][..n - k - 1];
    }
  }

  lemma {:induction false} BodyComplete(t: Text, n: nat)
    requires Closed(t, n)
    ensures BodyLen(t) == Some(n)
    decreases |t|
  {
    var b := t[..n - 1];
    if b == [] {
      assert n == 1;
    } else {
      var k :| 1 <= k <= |b| && IsElement(b[..k]) && IsBody(b[k..]);
      assert t[..k] == b[..k];
      assert k == ElementLen(t);
      assert t[k..][..n - k - 1] == b[k..];
      BodyComplete(t[k..], n - k);
      assert t[0] == t[..k][0];
    }
  }

  /** The expression matches `n` units exactly when they are a string; so at most
      one prefix of a text is a string, and it is found. */
  lemma {:induction false} StringMatch(t: Text, n: nat)
    ensures StringLen(t) == Some(n) <==> n <= |t| && IsString(t[..n])
  {
    if StringLen(t).Some? {
      BodySound(t[1..]);
      var m := StringLen(t).value;
      assert t[..m][1..m - 1] == t[1..][..m - 2];
    }
    if n <= |t| && IsString(t[..n]) {
      assert t[1..][..n - 2] == t[..n][1..n - 1];
      BodyComplete(t[1..], n - 1);
    }
  }

  // ----- numbers: section 6 of RFC 8259 -----

  predicate AllDigits(s: Text) { forall k :: 0 <= k < |s| ==> IsDigit(s[k]) }

  predicate IsE(c: CodeUnit) { c == 0x65 || c == 0x45 }

  /** `[ minus ] int` */
  predicate IsInteger(s: Text) {
    var digits := if s != [] && s[0] == MINUS then s[1..] else s;
    digits != [] && AllDigits(digits) && (digits[0] == ZERO ==> |digits| == 1)
  }

  /** `[ frac ]` */
  predicate IsFraction(s: Text) {
    s == [] || (|s| >= 2 && s[0] == DOT && AllDigits(s[1..]))
  }

  /** `[ exp ]` */
  predicate IsExponent(s: Text) {
    s == [] || (IsE(s[0]) &&
      var digits := if |s| >= 2 && (s[1] == PLUS || s[1] == MINUS) then s[2..] else s[1..];
      digits != [] && AllDigits(digits))
  }

  ghost predicate IsNumberAt(s: Text, a: nat, b: nat) {
    a <= b <= |s| && IsInteger(s[..a]) && IsFraction(s[a..b]) && IsExponent(s[b..])
  }

  ghost predicate IsNumber(s: Text) {
    exists a: nat, b: nat :: IsNumberAt(s, a, b)
  }

  function DigitsLen(t: Text): (n: nat)
    ensures n <= |t| && AllDigits(t[..n])
    ensures n < |t| ==> !IsDigit(t[n])
  {
    if t == [] || !IsDigit(t[0]) then 0 else 1 + DigitsLen(t[1..])
  }

  function IntegerLen(t: Text): (n: nat)
    ensures n <= |t|
  {
    var sign := if t != [] && t[0] == MINUS then 1 else 0;
    if |t| == sign || !IsDigit(t[sign]) then 0
    else if t[sign] == ZERO then sign + 1
    else sign + DigitsLen(t[sign..])
  }

  function FractionLen(t: Text): (n: nat)
    ensures n <= |t|
  {
    if t == [] || t[0] != DOT then 0
    else
      var digits := DigitsLen(t[1..]);
      if digits == 0 then 0 else 1 + digits
  }

  function ExponentLen(t: Text): (n: nat)
    ensures n <= |t|
  {
    if t == [] || !IsE(t[0]) then 0
    else
      var sign := if |t| >= 2 && (t[1] == PLUS || t[1] == MINUS) then 1 else 0;
      var digits := DigitsLen(t[1 + sign..]);
      if digits == 0 then 0 else 1 + sign + digits
  }

  /** The number expression at the front of the text: greedy, part by part. */
  function NumberLen(t: Text): (r: Option<nat>)
    ensures r.Some? ==> 1 <= r.value <= |t|
  {
    var a := IntegerLen(t);
    if a == 0 then None
    else
      var b := a + FractionLen(t[a..]);
      Some(b + ExponentLen(t[b..]))
  }

  lemma DigitsBound(t: Text, k: nat)
    requires k <= |t| && AllDigits(t[..k])
    ensures k <= DigitsLen(t)
  {
    assert forall i :: 0 <= i < k ==> t[..k][i] == t[i];
  }

  lemma IntegerFound(t: Text)
    requires IntegerLen(t) > 0
    ensures IsInteger(t[..IntegerLen(t)])
  {
    var sign := if t[0] == MINUS then 1 else 0;
    var n := IntegerLen(t);
    assert t[..n][0] == t[0];
    if t[sign] != ZERO { assert t[sign..][..n - sign] == t[..n][sign..]; }
  }

  /** No integer is longer, and a shorter one is cut off before a digit. */
  lemma IntegerBound(t: Text, k: nat)
    requires k <= |t| && IsInteger(t[..k])
    ensures k <= IntegerLen(t) && (k < IntegerLen(t) ==> IsDigit(t[k]))
  {
    var sign := if t != [] && t[0] == MINUS then 1 else 0;
    var n, s := IntegerLen(t), t[..k];
    assert k > 0 && s[0] == t[0];
    assert s[sign..] == t[sign..][..k - sign];
    assert s[sign..][0] == t[sign];
    DigitsBound(t[sign..], k - sign);
    if k < n { assert t[sign..][..n - sign][k - sign] == t[k]; }
  }

  lemma FractionFound(t: Text)
    ensures IsFraction(t[..FractionLen(t)])
  {
    var n := FractionLen(t);
    if n > 0 { assert t[..n][1..] == t[1..][..n - 1]; }
  }

  lemma FractionBound(t: Text, k: nat)
    requires k <= |t| && IsFraction(t[..k])
    ensures k <= FractionLen(t)
    ensures k < FractionLen(t) ==> t[k] == DOT || IsDigit(t[k])
  {
    var n := FractionLen(t);
    if k > 0 {
      assert t[..k][1..] == t[1..][..k - 1];
      DigitsBound(t[1..], k - 1);
      if k < n { assert t[1..][..n - 1][k - 1] == t[k]; }
    }
  }

  lemma ExponentFound(t: Text)
    ensures IsExponent(t[..ExponentLen(t)])
  {
    var n := ExponentLen(t);
    if n > 0 {
      var sign := if t[1] == PLUS || t[1] == MINUS then 1 else 0;
      assert t[..n][1 + sign..] == t[1 + sign..][..n - 1 - sign];
      assert t[1 + sign..][..n - 1 - sign][0] == t[1 + sign];
    }
  }

  lemma ExponentBound(t: Text, k: nat)
    requires k <= |t| && IsExponent(t[..k])
    ensures k <= ExponentLen(t)
  {
    if k > 0 {
      var sign := if |t| >= 2 && (t[1] == PLUS || t[1] == MINUS) then 1 else 0;
      var s := t[..k];
      assert k >= 2;
      assert s[1] == t[1];
      assert s[1 + sign..] == t[1 + sign..][..k - 1 - sign];
      DigitsBound(t[1 + sign..], k - 1 - sign);
    }
  }

  lemma Slices(t: Text, n: nat, a: nat, b: nat)
    requires a <= b <= n <= |t|
    ensures t[..n][..a] == t[..a]
    ensures t[..n][a..b] == t[a..][..b - a]
    ensures t[..n][b..] == t[b..][..n - b]
  {
  }

  lemma {:induction false} NumberSound(t: Text)
    requires NumberLen(t).Some?
    ensures IsNumber(t[..NumberLen(t).value])
  {
    hide IsInteger;
    hide IsFraction;
    hide IsExponent;
    hide IntegerLen;
    hide FractionLen;
    hide ExponentLen;
    var a := IntegerLen(t);
    var b := a + FractionLen(t[a..]);
    var n := b + ExponentLen(t[b..]);
    IntegerFound(t);
    FractionFound(t[a..]);
    ExponentFound(t[b..]);
    Slices(t, n, a, b);
    assert IsNumberAt(t[..n], a, b);
  }

  lemma {:induction false} ExponentStart(t: Text, b: nat, m: nat)
    requires b <= m <= |t| && IsExponent(t[b..][..m - b])
    ensures m > b ==> IsE(t[b])
  {
    assert m > b ==> t[b..][..m - b][0] == t[b];
  }

  /** An exponent cannot start where a fraction could still go on. */
  lemma {:induction false} NoExponentAt(t: Text, b: nat, m: nat)
    requires b <= m <= |t| && IsExponent(t[b..][..m - b])
    requires b < |t| ==> t[b] == DOT || IsDigit(t[b])
    ensures m == b
  {
    ExponentStart(t, b, m);
  }

  /** With the integer part as long as it can be, so is what follows it. */
  lemma {:induction false} TailBound(t: Text, m: nat, a: nat, b: nat)
    requires a <= b <= m <= |t| && a == IntegerLen(t) > 0
    requires IsFraction(t[a..][..b - a]) && IsExponent(t[b..][..m - b])
    ensures m <= NumberLen(t).value
  {
    hide IsFraction;
    hide IsExponent;
    hide IntegerLen;
    hide FractionLen;
    hide ExponentLen;
    var rest := t[a..];
    FractionBound(rest, b - a);
    if b == a + FractionLen(rest) {
      ExponentBound(t[b..], m - b);
    } else {
      assert rest[b - a] == t[b];
      NoExponentAt(t, b, m);
    }
  }

  lemma {:induction false} NumberBoundAt(t: Text, m: nat, a: nat, b: nat)
    requires m <= |t| && IsNumberAt(t[..m], a, b)
    ensures NumberLen(t).Some? && m <= NumberLen(t).value
  {
    Slices(t, m, a, b);
    var f, e := t[a..][..b - a], t[b..][..m - b];
    assert IsInteger(t[..a]) && IsFraction(f) && IsExponent(e);
    assert f != [] ==> f[0] == t[a] == DOT;
    assert e != [] ==> e[0] == t[b] && IsE(t[b]);
    IntegerBound(t, a);
    assert a > 0;
    if a == IntegerLen(t) {
      TailBound(t, m, a, b);
    }
  }

  /** The expression's match is the longest prefix that is a number; without a
      match no prefix is one. */
  lemma {:induction false} LongestNumber(t: Text)
    ensures match NumberLen(t)
            case None => forall m :: 0 <= m <= |t| ==> !IsNumber(t[..m])
            case Some(n) => IsNumber(t[..n]) && forall m :: n < m <= |t| ==> !IsNumber(t[..m])
  {
    if NumberLen(t).Some? { NumberSound(t); }
    forall m | 0 <= m <= |t| && IsNumber(t[..m])
      ensures NumberLen(t).Some? && m <= NumberLen(t).value
    {
      var a: nat, b: nat :| IsNumberAt(t[..m], a, b);
      NumberBoundAt(t, m, a, b);
    }
  }

  predicate InNumber(c: CodeUnit) {
    IsDigit(c) || c == MINUS || c == PLUS || c == DOT || IsE(c)
  }

  lemma {:induction false} NumberNonEmpty(s: Text)
    requires IsNumber(s)
    ensures s != []
  {
    var a: nat, b: nat :| IsNumberAt(s, a, b);
  }

  lemma {:induction false} NumberUnits(s: Text, k: nat)
    requires IsNumber(s) && k < |s|
    ensures InNumber(s[k])
  {
    var a: nat, b: nat :| IsNumberAt(s, a, b);
    if k < a {
      if k > 0 || s[0] != MINUS { assert k > 0 && s[0] == MINUS ==> s[..a][1..][k - 1] == s[k]; assert s[..a][k] == s[k]; }
    } else if k < b {
      var f := s[a..b];
      assert f[k - a] == s[k];
      if k > a { assert f[1..][k - a - 1] == s[k]; }
    } else {
      var e := s[b..];
      assert e[k - b] == s[k];
      if k > b + 1 { assert e[2..][k - b - 2] == s[k]; assert e[1..][k - b - 1] == s[k]; }
      else if k == b + 1 { assert e[1..][0] == s[k]; }
    }
  }
}
