/** Options, splitting and joining: the string operations the console leans on,
    with the facts that make printing and parsing inverse. */
module Texts {

  datatype Option<+T> = None | Some(value: T)

  /** A list without its element at an index. */
  function Without<T>(s: seq<T>, i: nat): seq<T>
    requires i < |s|
  {
    s[..i] + s[i + 1..]
  }

  function OrElse<T>(o: Option<T>, fallback: T): T {
    if o.Some? then o.value else fallback
  }

  /** `JSON.parse`, failing on text that is not JSON, and `JSON.stringify`. */
  datatype Codec<!J> = Codec(parse: string -> Option<J>, stringify: J -> string)

  /** White space and line terminators of ECMAScript, by code. */
  predicate SpaceCode(n: int) {
    || 0x09 <= n <= 0x0D || n == 0x20 || n == 0xA0 || n == 0x1680 || 0x2000 <= n <= 0x200A
    || n == 0x2028 || n == 0x2029 || n == 0x202F || n == 0x205F || n == 0x3000 || n == 0xFEFF
  }

  predicate HexCode(n: int) { 0x30 <= n <= 0x39 || 0x41 <= n <= 0x46 || 0x61 <= n <= 0x66 }

  /** JavaScript `split` on a one-element separator: never empty. */
  function Split<T(==)>(s: seq<T>, sep: T): (parts: seq<seq<T>>)
    ensures |parts| >= 1
    ensures forall k :: 0 <= k < |parts| ==> sep !in parts[k]
    ensures sep !in s ==> parts == [s]
  {
    if s == [] then [[]]
    else
      var rest := Split(s[1..], sep);
      if s[0] == sep then [[]] + rest
      else
        assert sep !in s ==> sep !in s[1..];
        assert [s[0]] + s[1..] == s;
        [[s[0]] + rest[0]] + rest[1..]
  }

  /** JavaScript `join` with a one-element separator. */
  function Join<T>(parts: seq<seq<T>>, sep: T): seq<T> {
    if |parts| == 0 then []
    else if |parts| == 1 then parts[0]
    else parts[0] + [sep] + Join(parts[1..], sep)
  }

  /** Peeling one element off the first of several parts. */
  lemma {:induction false} JoinHead<T>(x: T, parts: seq<seq<T>>, sep: T)
    requires |parts| >= 1
    ensures Join([[x] + parts[0]] + parts[1..], sep) == [x] + Join(parts, sep)
  {
    var longer := [[x] + parts[0]] + parts[1..];
    if |parts| > 1 {
      assert longer[1..] == parts[1..];
      assert [x] + parts[0] + [sep] + Join(parts[1..], sep)
          == [x] + (parts[0] + [sep] + Join(parts[1..], sep));
    }
  }

  /** Nothing is lost by splitting. */
  lemma {:induction false} JoinSplit<T>(s: seq<T>, sep: T)
    ensures Join(Split(s, sep), sep) == s
  {
    if s == [] {
    } else {
      var rest := Split(s[1..], sep);
      JoinSplit(s[1..], sep);
      if s[0] == sep {
        assert ([[]] + rest)[1..] == rest;
      } else {
        JoinHead(s[0], rest, sep);
      }
    }
  }

  /** A part free of the separator is split off whole. */
  lemma {:induction false} SplitPart<T>(part: seq<T>, sep: T, rest: seq<T>)
    requires sep !in part
    ensures Split(part + [sep] + rest, sep) == [part] + Split(rest, sep)
  {
    var s := part + [sep] + rest;
    if part == [] {
      assert s[1..] == rest;
    } else {
      assert s[1..] == part[1..] + [sep] + rest;
      SplitPart(part[1..], sep, rest);
      var tail := Split(s[1..], sep);
      assert tail[0] == part[1..];
      assert tail[1..] == Split(rest, sep);
      assert [s[0]] + part[1..] == part;
    }
  }

  /** Joining is undone by splitting, for parts free of the separator. */
  lemma {:induction false} SplitJoin<T>(parts: seq<seq<T>>, sep: T)
    requires |parts| >= 1
    requires forall k :: 0 <= k < |parts| ==> sep !in parts[k]
    ensures Split(Join(parts, sep), sep) == parts
  {
    if |parts| == 1 {
      assert parts == [parts[0]];
    } else {
      SplitJoin(parts[1..], sep);
      SplitPart(parts[0], sep, Join(parts[1..], sep));
      assert parts == [parts[0]] + parts[1..];
    }
  }

  /** A separator occurs in a join only between parts or inside one. */
  lemma {:induction false} JoinContents<T>(parts: seq<seq<T>>, sep: T, x: T)
    requires x != sep
    requires forall k :: 0 <= k < |parts| ==> x !in parts[k]
    ensures x !in Join(parts, sep)
  {
    if |parts| > 1 {
      JoinContents(parts[1..], sep, x);
    }
  }
}
