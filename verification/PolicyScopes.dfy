/** Conditional scopes of a policy document: lossless edits, and the diff shown
    before saving. */
module PolicyScopes {
  import opened Texts
  import opened FreshNames

  /** A JSON value; members are in the order they are enumerated, numbers as they are
      printed. Two values stringify alike exactly when they are equal. */
  datatype Json =
    | Null | Bool(b: bool) | Number(digits: string) | Str(text: string)
    | Array(items: seq<Json>) | Object(members: seq<(string, Json)>)

  type Members = seq<(string, Json)>

  // ----- object members -----

  function Lookup(ms: Members, key: string): Option<Json> {
    if ms == [] then None else if ms[0].0 == key then Some(ms[0].1) else Lookup(ms[1..], key)
  }

  /** An array index: a canonical numeral below 2^32 - 1. */
  predicate IsIndex(name: string) {
    && name != "" && (forall i :: 0 <= i < |name| ==> '0' <= name[i] <= '9')
    && (name == "0" || name[0] != '0') && Value(name) < 0xFFFF_FFFF
  }

  /** Enumerated first: array indexes by value, in front of all other names. */
  predicate Precedes(a: string, b: string) {
    IsIndex(a) && (!IsIndex(b) || Value(a) < Value(b))
  }

  /** Assigning a property: in place when it exists, otherwise where it is enumerated,
      which is the end for names that are not array indexes. */
  function Put(ms: Members, key: string, value: Json): Members {
    if ms == [] then [(key, value)]
    else if ms[0].0 == key then [(key, value)] + ms[1..]
    else if Precedes(key, ms[0].0) then [(key, value)] + ms
    else [ms[0]] + Put(ms[1..], key, value)
  }

  function Remove(ms: Members, key: string): Members {
    if ms == [] then []
    else if ms[0].0 == key then Remove(ms[1..], key)
    else [ms[0]] + Remove(ms[1..], key)
  }

  /** The spread of two objects: the second one's properties win. */
  function Merge(ms: Members, patch: Members): Members
    decreases |patch|
  {
    if patch == [] then ms else Merge(Put(ms, patch[0].0, patch[0].1), patch[1..])
  }

  lemma {:induction false} PutIs(ms: Members, key: string, value: Json, k: string)
    ensures Lookup(Put(ms, key, value), k) == if k == key then Some(value) else Lookup(ms, k)
  {
    hide Precedes;
    if ms != [] && ms[0].0 != key && !Precedes(key, ms[0].0) { PutIs(ms[1..], key, value, k); }
  }

  lemma {:induction false} RemoveIs(ms: Members, key: string, k: string)
    ensures Lookup(Remove(ms, key), k) == if k == key then None else Lookup(ms, k)
  {
    if ms != [] { RemoveIs(ms[1..], key, k); }
  }

  /** The last value given for a property. */
  function LastOf(ms: Members, key: string): Option<Json> {
    if ms == [] then None
    else
      var later := LastOf(ms[1..], key);
      if later.Some? then later else if ms[0].0 == key then Some(ms[0].1) else None
  }

  lemma {:induction false} MergeIs(ms: Members, patch: Members, k: string)
    ensures Lookup(Merge(ms, patch), k) == if LastOf(patch, k).Some? then LastOf(patch, k) else Lookup(ms, k)
    decreases |patch|
  {
    if patch != [] {
      PutIs(ms, patch[0].0, patch[0].1, k);
      MergeIs(Put(ms, patch[0].0, patch[0].1), patch[1..], k);
    }
  }

  // ----- values that text can stand for -----

  /** Distinct names, in the order they are enumerated. */
  predicate Enumerable(ms: Members) {
    forall i, j :: 0 <= i < j < |ms| ==> InOrder(ms[i].0, ms[j].0)
  }

  predicate InOrder(a: string, b: string) { a != b && (IsIndex(b) ==> Precedes(a, b)) }

  /** What `JSON.parse` returns: names are distinct and in order at every level, and
      numbers are as printed, which is to say that they read back as themselves. */
  predicate Proper(v: Json, codec: Codec<Json>) {
    match v
    case Number(digits) => codec.parse(digits) == Some(v)
    case Array(items) => forall i :: 0 <= i < |items| ==> Proper(items[i], codec)
    case Object(members) =>
      Enumerable(members) && forall i :: 0 <= i < |members| ==> Proper(members[i].1, codec)
    case _ => true
  }

  predicate ProperValues(ms: Members, codec: Codec<Json>) {
    forall i :: 0 <= i < |ms| ==> Proper(ms[i].1, codec)
  }

  /** Printing with a final newline parses back, for every value that parsing can
      return, and parsing returns no others. */
  ghost predicate Lawful(codec: Codec<Json>) {
    && (forall v: Json :: Proper(v, codec) ==> codec.parse(codec.stringify(v) + "\n") == Some(v))
    && (forall text: string :: codec.parse(text).Some? ==> Proper(codec.parse(text).value, codec))
  }

  predicate Named(ms: Members, name: string) { exists i :: 0 <= i < |ms| && ms[i].0 == name }

  lemma {:induction false} PutNames(ms: Members, key: string, value: Json, i: nat)
    requires i < |Put(ms, key, value)|
    ensures Put(ms, key, value)[i].0 == key || Named(ms, Put(ms, key, value)[i].0)
  {
    hide Precedes;
    var next := Put(ms, key, value);
    if ms != [] && next[i].0 != key {
      if ms[0].0 == key {
        assert next[i] == ms[i];
      } else if Precedes(key, ms[0].0) {
        assert next[i] == ms[i - 1];
      } else if i == 0 {
        assert next[0] == ms[0];
      } else {
        PutNames(ms[1..], key, value, i - 1);
        assert next[i] == Put(ms[1..], key, value)[i - 1];
        var j :| 0 <= j < |ms[1..]| && ms[1..][j].0 == next[i].0;
        assert ms[j + 1].0 == next[i].0;
      }
    }
  }

  /** A name in front of the first of an enumerable list is in front of all of it. */
  lemma PrecedesAll(ms: Members, key: string, j: nat)
    requires Enumerable(ms) && j < |ms| && Precedes(key, ms[0].0)
    ensures InOrder(key, ms[j].0)
  {
    if j > 0 { assert InOrder(ms[0].0, ms[j].0); }
  }

  lemma {:induction false} PutEnumerable(ms: Members, key: string, value: Json)
    requires Enumerable(ms)
    ensures Enumerable(Put(ms, key, value))
  {
    if ms != [] && ms[0].0 != key {
      var next := Put(ms, key, value);
      if Precedes(key, ms[0].0) {
        forall i, j | 0 <= i < j < |next| ensures InOrder(next[i].0, next[j].0) {
          if i == 0 {
            PrecedesAll(ms, key, j - 1);
          } else {
            assert InOrder(ms[i - 1].0, ms[j - 1].0);
          }
        }
      } else {
        hide Precedes;
        var rest := Put(ms[1..], key, value);
        PutEnumerable(ms[1..], key, value);
        forall i, j | 0 <= i < j < |next| ensures InOrder(next[i].0, next[j].0) {
          if i > 0 {
            assert InOrder(rest[i - 1].0, rest[j - 1].0);
          } else {
            PutNames(ms[1..], key, value, j - 1);
            if rest[j - 1].0 == key {
              NotBefore(key, ms[0].0);
            } else {
              var k :| 0 <= k < |ms[1..]| && ms[1..][k].0 == rest[j - 1].0;
              assert InOrder(ms[0].0, ms[k + 1].0);
            }
          }
        }
      }
    }
  }

  /** Assigning to an existing member changes it in place. */
  lemma {:induction false} PutExisting(ms: Members, i: nat, value: Json)
    requires Enumerable(ms) && i < |ms|
    ensures Put(ms, ms[i].0, value) == ms[i := (ms[i].0, value)]
  {
    if i > 0 {
      assert InOrder(ms[0].0, ms[i].0);
      assert !Precedes(ms[i].0, ms[0].0);
      PutExisting(ms[1..], i - 1, value);
      assert ms[i := (ms[i].0, value)] == [ms[0]] + ms[1..][i - 1 := (ms[i].0, value)];
    } else {
      assert ms[0 := (ms[0].0, value)] == [(ms[0].0, value)] + ms[1..];
    }
  }

  /** A new member that is not an array index goes to the end. */
  lemma {:induction false} PutNew(ms: Members, key: string, value: Json)
    requires !IsIndex(key) && forall i :: 0 <= i < |ms| ==> ms[i].0 != key
    ensures Put(ms, key, value) == ms + [(key, value)]
  {
    if ms != [] {
      PutNew(ms[1..], key, value);
      assert ms + [(key, value)] == [ms[0]] + (ms[1..] + [(key, value)]);
    }
  }

  /** Of two names one is in front of the other. */
  lemma NotBefore(key: string, first: string)
    requires key != first && !Precedes(key, first)
    ensures InOrder(first, key)
  {
    if IsIndex(key) && Value(key) == Value(first) { IndexInjective(key, first); }
  }

  lemma {:induction false} IndexInjective(a: string, b: string)
    requires IsIndex(a) && IsIndex(b) && Value(a) == Value(b)
    ensures a == b
  {
    CanonicalIs(a);
    CanonicalIs(b);
  }

  lemma DecimalStep(n: nat, d: nat)
    requires n > 0 && d < 10
    ensures Decimal(n * 10 + d) == Decimal(n) + [Digit(d)]
  {
    assert (n * 10 + d) / 10 == n && (n * 10 + d) % 10 == d;
  }

  lemma ValueStep(s: string, c: char)
    ensures Value(s + [c]) == Value(s) * 10 + (c as int - '0' as int)
  {
    assert (s + [c])[..|s|] == s;
  }

  lemma OneDigit(c: char)
    requires '0' <= c <= '9'
    ensures Value([c]) == c as int - '0' as int && Decimal(Value([c])) == [c]
  {
    ValueStep("", c);
    assert "" + [c] == [c];
  }

  /** A canonical numeral is the decimal of its value. */
  lemma {:induction false} CanonicalIs(s: string)
    requires s != "" && (forall i :: 0 <= i < |s| ==> '0' <= s[i] <= '9') && (s == "0" || s[0] != '0')
    ensures Value(s) >= 0 && Decimal(Value(s)) == s
    ensures s != "0" ==> Value(s) > 0
  {
    var front, d := s[..|s| - 1], s[|s| - 1] as int - '0' as int;
    assert s == front + [s[|s| - 1]];
    if front == "" {
      assert Value(front) == 0;
      OneDigit(s[0]);
    } else {
      assert front[0] == s[0] && front != "0";
      CanonicalIs(front);
      hide Decimal;
      hide Value;
      DecimalStep(Value(front), d);
      ValueStep(front, s[|s| - 1]);
    }
  }

  lemma {:induction false} PutValues(ms: Members, key: string, value: Json, codec: Codec<Json>)
    requires ProperValues(ms, codec) && Proper(value, codec)
    ensures ProperValues(Put(ms, key, value), codec)
  {
    hide Proper;
    hide Precedes;
    if ms != [] && ms[0].0 != key && !Precedes(key, ms[0].0) {
      PutValues(ms[1..], key, value, codec);
    }
  }

  lemma PutProper(ms: Members, key: string, value: Json, codec: Codec<Json>)
    requires Proper(Object(ms), codec) && Proper(value, codec)
    ensures Proper(Object(Put(ms, key, value)), codec)
  {
    hide Enumerable;
    PutEnumerable(ms, key, value);
    PutValues(ms, key, value, codec);
  }

  lemma {:induction false} MergeProper(ms: Members, patch: Members, codec: Codec<Json>)
    requires Proper(Object(ms), codec) && ProperValues(patch, codec)
    ensures Proper(Object(Merge(ms, patch)), codec)
    decreases |patch|
  {
    if patch != [] {
      PutProper(ms, patch[0].0, patch[0].1, codec);
      MergeProper(Put(ms, patch[0].0, patch[0].1), patch[1..], codec);
    }
  }

  lemma {:induction false} LookupProper(ms: Members, key: string, codec: Codec<Json>)
    requires ProperValues(ms, codec) && Lookup(ms, key).Some?
    ensures Proper(Lookup(ms, key).value, codec)
  {
    hide Proper;
    if ms[0].0 != key { LookupProper(ms[1..], key, codec); }
  }

  // ----- the document -----

  const SCOPES := "conditional_scopes"

  /** A document the builder can open: rules are a list, and so are the scopes if
      there are any. */
  predicate Buildable(v: Json) {
    && v.Object?
    && Lookup(v.members, "rules").Some? && Lookup(v.members, "rules").value.Array?
    && (Lookup(v.members, SCOPES).Some? ==> Lookup(v.members, SCOPES).value.Array?)
  }

  function ScopesOf(doc: Members): seq<Json> {
    var v := Lookup(doc, SCOPES);
    if v.Some? && v.value.Array? then v.value.items else []
  }

  function WithScopes(doc: Members, scopes: seq<Json>): Members { Put(doc, SCOPES, Array(scopes)) }

  /** Replacing the scopes replaces nothing else. */
  lemma WithScopesIs(doc: Members, scopes: seq<Json>)
    requires Buildable(Object(doc))
    ensures var next := WithScopes(doc, scopes);
            && Buildable(Object(next)) && ScopesOf(next) == scopes
            && forall k :: k != SCOPES ==> Lookup(next, k) == Lookup(doc, k)
  {
    forall k ensures Lookup(WithScopes(doc, scopes), k) == if k == SCOPES then Some(Array(scopes)) else Lookup(doc, k) {
      PutIs(doc, SCOPES, Array(scopes), k);
    }
  }

  // ----- text in, text out -----

  function Open(text: string, codec: Codec<Json>): Option<Members> {
    var v := codec.parse(text);
    if v.Some? && Buildable(v.value) then Some(v.value.members) else None
  }

  function Write(doc: Members, codec: Codec<Json>): string { codec.stringify(Object(doc)) + "\n" }

  /** A text edit did exactly this to the scopes, and nothing to the rest. */
  ghost predicate Edited(before: string, after: string, scopes: seq<Json>, codec: Codec<Json>) {
    && Open(before, codec).Some? && Open(after, codec).Some?
    && var old', new' := Open(before, codec).value, Open(after, codec).value;
       && ScopesOf(new') == scopes && forall k :: k != SCOPES ==> Lookup(new', k) == Lookup(old', k)
  }

  lemma WriteIs(text: string, doc: Members, scopes: seq<Json>, codec: Codec<Json>)
    requires Lawful(codec) && Open(text, codec) == Some(doc)
    requires forall i :: 0 <= i < |scopes| ==> Proper(scopes[i], codec)
    ensures Edited(text, Write(WithScopes(doc, scopes), codec), scopes, codec)
  {
    WithScopesIs(doc, scopes);
    assert codec.parse(text) == Some(Object(doc));
    PutProper(doc, SCOPES, Array(scopes), codec);
    assert codec.parse(Write(WithScopes(doc, scopes), codec)) == Some(Object(WithScopes(doc, scopes)));
  }

  /** The scopes of a document that was read. */
  lemma ScopesProper(text: string, doc: Members, codec: Codec<Json>)
    requires Lawful(codec) && Open(text, codec) == Some(doc)
    ensures forall i :: 0 <= i < |ScopesOf(doc)| ==> Proper(ScopesOf(doc)[i], codec)
  {
    assert codec.parse(text) == Some(Object(doc));
    assert Proper(Object(doc), codec);
    if Lookup(doc, SCOPES).Some? { LookupProper(doc, SCOPES, codec); }
  }

  /** Patching one scope: refused for unreadable text or a scope that is not an
      object; otherwise that scope takes the patch, whose values are JSON, and all
      others stay. */
  method PatchScope(text: string, index: int, patch: Members, codec: Codec<Json>) returns (r: Option<string>)
    requires Lawful(codec) && ProperValues(patch, codec)
    ensures r.Some? <==>
            && Open(text, codec).Some?
            && var scopes := ScopesOf(Open(text, codec).value); 0 <= index < |scopes| && scopes[index].Object?
    ensures r.Some? ==>
              var scopes := ScopesOf(Open(text, codec).value);
              Edited(text, r.value, scopes[index := Object(Merge(scopes[index].members, patch))], codec)
  {
    var doc := Open(text, codec);
    if doc.None? { return None; }
    var scopes := ScopesOf(doc.value);
    if !(0 <= index < |scopes|) || !scopes[index].Object? { return None; }
    ScopesProper(text, doc.value, codec);
    MergeProper(scopes[index].members, patch, codec);
    scopes := scopes[index := Object(Merge(scopes[index].members, patch))];
    WriteIs(text, doc.value, scopes, codec);
    r := Some(Write(WithScopes(doc.value, scopes), codec));
  }

  method RemoveScope(text: string, index: int, codec: Codec<Json>) returns (r: Option<string>)
    requires Lawful(codec)
    ensures r.Some? <==> Open(text, codec).Some?
    ensures r.Some? ==>
              var scopes := ScopesOf(Open(text, codec).value);
              Edited(text, r.value,
                     if 0 <= index < |scopes| then scopes[..index] + scopes[index + 1..] else scopes, codec)
  {
    var doc := Open(text, codec);
    if doc.None? { return None; }
    var scopes := ScopesOf(doc.value);
    ScopesProper(text, doc.value, codec);
    hide Proper;
    hide Lawful;
    hide Edited;
    hide Open;
    hide ScopesOf;
    var kept := [];
    for i := 0 to |scopes|
      invariant kept == if 0 <= index < i then scopes[..index] + scopes[index + 1..i] else scopes[..i]
    {
      if i != index { kept := kept + [scopes[i]]; }
    }
    WriteIs(text, doc.value, kept, codec);
    r := Some(Write(WithScopes(doc.value, kept), codec));
  }

  // ----- a fresh id -----

  function Name(k: nat): string { "scope-" + Decimal(k + 1) }

  lemma NamesInjective()
    ensures Injective(Name)
  {
    forall i: nat, j: nat | Name(i) == Name(j) ensures i == j {
      assert Name(i)[6..] == Decimal(i + 1) && Name(j)[6..] == Decimal(j + 1);
      DecimalInjective(i + 1, j + 1);
    }
  }

  /** The id of a scope, when it is an object with a string id. */
  function IdOf(v: Json): Option<string> {
    if v.Object? && Lookup(v.members, "id").Some? && Lookup(v.members, "id").value.Str?
    then Some(Lookup(v.members, "id").value.text) else None
  }

  function Ids(scopes: seq<Json>): set<string> {
    set i | 0 <= i < |scopes| && IdOf(scopes[i]).Some? :: IdOf(scopes[i]).value
  }

  predicate DistinctIds(scopes: seq<Json>) {
    forall i, j :: 0 <= i < j < |scopes| && IdOf(scopes[i]).Some? ==> IdOf(scopes[i]) != IdOf(scopes[j])
  }

  function NewScope(k: nat): Json {
    Object([("id", Str(Name(k))), ("mode", Str("report_only")),
            ("clients", Array([])), ("actions", Array([])), ("rules", Array([]))])
  }

  lemma NewScopeProper(k: nat, codec: Codec<Json>)
    ensures Proper(NewScope(k), codec)
  {
    var ms := NewScope(k).members;
    assert ms[0].0 == "id" && ms[1].0 == "mode" && ms[2].0 == "clients" && ms[3].0 == "actions" && ms[4].0 == "rules";
    assert forall i :: 0 <= i < 5 ==> |ms[i].0| > 0 && ms[i].0[0] == "imcar"[i];
    hide Value;
    assert forall i :: 0 <= i < 5 ==> !IsIndex(ms[i].0);
  }

  /** Adding a scope appends one with the first free id, so ids stay distinct. */
  method AddScope(text: string, codec: Codec<Json>) returns (r: Option<string>)
    requires Lawful(codec)
    ensures r.Some? <==> Open(text, codec).Some?
    ensures r.Some? ==>
              var scopes := ScopesOf(Open(text, codec).value);
              exists k: nat :: FirstFree(Name, Ids(scopes), k)
                            && Edited(text, r.value, scopes + [NewScope(k)], codec)
                            && (DistinctIds(scopes) ==> DistinctIds(scopes + [NewScope(k)]))
                            && forall i :: 0 <= i < |scopes| && scopes[i].Object? ==>
                                 ("id", Str("scope-" + Decimal(k + 1))) !in scopes[i].members
  {
    var doc := Open(text, codec);
    if doc.None? { return None; }
    var scopes := ScopesOf(doc.value);
    NamesInjective();
    var k := FindFree(Name, Ids(scopes));
    AppendDistinct(scopes, k);
    ScopesProper(text, doc.value, codec);
    forall i | 0 <= i < |scopes| && scopes[i].Object?
      ensures ("id", Str("scope-" + Decimal(k + 1))) !in scopes[i].members
    {
      IdIsNew(scopes, k, i, codec);
    }
    NewScopeProper(k, codec);
    WriteIs(text, doc.value, scopes + [NewScope(k)], codec);
    r := Some(Write(WithScopes(doc.value, scopes + [NewScope(k)]), codec));
  }

  /** In an enumerable object a member is what its name reads as. */
  lemma {:induction false} LookupIs(ms: Members, key: string, value: Json)
    requires Enumerable(ms)
    ensures (key, value) in ms <==> Lookup(ms, key) == Some(value)
  {
    if ms != [] {
      LookupIs(ms[1..], key, value);
      assert ms == [ms[0]] + ms[1..];
      forall j | 0 <= j < |ms[1..]| ensures ms[1..][j].0 != ms[0].0 { assert InOrder(ms[0].0, ms[j + 1].0); }
    }
  }

  lemma IdIsNew(scopes: seq<Json>, k: nat, i: nat, codec: Codec<Json>)
    requires FirstFree(Name, Ids(scopes), k) && i < |scopes| && scopes[i].Object? && Proper(scopes[i], codec)
    ensures ("id", Str("scope-" + Decimal(k + 1))) !in scopes[i].members
  {
    var ms := scopes[i].members;
    LookupIs(ms, "id", Str(Name(k)));
    assert IdOf(scopes[i]).Some? ==> IdOf(scopes[i]).value in Ids(scopes);
  }

  /** A new scope reports only, and applies to nothing yet. */
  lemma NewScopeIs(k: nat)
    ensures var ms := NewScope(k).members;
            && ("id", Str("scope-" + Decimal(k + 1))) in ms && ("mode", Str("report_only")) in ms
            && ("clients", Array([])) in ms && ("actions", Array([])) in ms && ("rules", Array([])) in ms && |ms| == 5
  {
    var ms := NewScope(k).members;
    assert ms[0].0 == "id" && ms[1].0 == "mode" && ms[2].0 == "clients" && ms[3].0 == "actions" && ms[4].0 == "rules";
  }

  /** A text opens exactly when it is an object whose rules are a list, and whose scopes
      are one if it has any. */
  lemma OpensIff(text: string, codec: Codec<Json>)
    requires Lawful(codec)
    ensures Open(text, codec).Some? <==>
            exists ms: Members, rules: seq<Json> :: codec.parse(text) == Some(Object(ms)) && ("rules", Array(rules)) in ms
              && forall v: Json :: ("conditional_scopes", v) in ms ==> v.Array?
  {
    var parsed := codec.parse(text);
    if parsed.Some? && parsed.value.Object? {
      var ms := parsed.value.members;
      assert Proper(parsed.value, codec);
      forall v: Json ensures ("conditional_scopes", v) in ms <==> Lookup(ms, SCOPES) == Some(v) { LookupIs(ms, SCOPES, v); }
      forall v: Json ensures ("rules", v) in ms <==> Lookup(ms, "rules") == Some(v) { LookupIs(ms, "rules", v); }
      if Open(text, codec).Some? {
        var rules := Lookup(ms, "rules").value.items;
        assert ("rules", Array(rules)) in ms;
        forall v: Json | ("conditional_scopes", v) in ms ensures v.Array? {}
      }
    }
  }

  lemma AppendDistinct(scopes: seq<Json>, k: nat)
    requires FirstFree(Name, Ids(scopes), k)
    ensures DistinctIds(scopes) ==> DistinctIds(scopes + [NewScope(k)])
  {
    assert IdOf(NewScope(k)) == Some(Name(k));
    forall i | 0 <= i < |scopes| && IdOf(scopes[i]).Some? ensures IdOf(scopes[i]) != Some(Name(k)) {
      assert IdOf(scopes[i]).value in Ids(scopes);
    }
  }
}
