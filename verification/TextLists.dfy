/** Textareas as lists: one entry per line, trimmed, blank lines dropped. */
module TextLists {
  import opened Texts

  /** What JavaScript's `trim` removes. */
  predicate IsSpace(c: char) { SpaceCode(c as int) }

  function TrimStart(s: string): string {
    if s != "" && IsSpace(s[0]) then TrimStart(s[1..]) else s
  }

  function TrimEnd(s: string): string {
    if s != "" && IsSpace(s[|s| - 1]) then TrimEnd(s[..|s| - 1]) else s
  }

  function Trim(s: string): string { TrimEnd(TrimStart(s)) }

  function LinesOf(entries: seq<string>): string { Join(entries, '\n') }

  function TrimAll(lines: seq<string>): seq<string> {
    seq(|lines|, i requires 0 <= i < |lines| => Trim(lines[i]))
  }

  function NonBlank(lines: seq<string>): seq<string> {
    if lines == [] then []
    else (if lines[0] == "" then [] else [lines[0]]) + NonBlank(lines[1..])
  }

  function ListFrom(text: string): seq<string> { NonBlank(TrimAll(Split(text, '\n'))) }

  // ----- trimming -----

  /** No whitespace at either end. */
  predicate Trimmed(s: string) {
    s == "" || (!IsSpace(s[0]) && !IsSpace(s[|s| - 1]))
  }

  lemma {:induction false} TrimStartKeeps(s: string)
    ensures var t := TrimStart(s);
            && (t == "" || !IsSpace(t[0])) && (forall c :: c in t ==> c in s)
            && (t != "" ==> s != "" && t[|t| - 1] == s[|s| - 1])
            && (s == "" || !IsSpace(s[0]) ==> t == s)
  {
    if s != "" && IsSpace(s[0]) { TrimStartKeeps(s[1..]); }
  }

  lemma {:induction false} TrimEndKeeps(s: string)
    ensures var t := TrimEnd(s);
            && (t == "" || !IsSpace(t[|t| - 1])) && (forall c :: c in t ==> c in s)
            && (t != "" ==> t[0] == s[0])
            && (s == "" || !IsSpace(s[|s| - 1]) ==> t == s)
  {
    if s != "" && IsSpace(s[|s| - 1]) { TrimEndKeeps(s[..|s| - 1]); }
  }

  /** Trimming leaves trimmed text, made of what was there, and leaves that alone. */
  lemma TrimIs(s: string)
    ensures Trimmed(Trim(s))
    ensures forall c :: c in Trim(s) ==> c in s
    ensures Trim(s) == s <==> Trimmed(s)
  {
    TrimStartKeeps(s);
    TrimEndKeeps(TrimStart(s));
  }

  // ----- the round trip -----

  /** An entry that survives its line: trimmed, not blank, on one line. */
  predicate Clean(entry: string) { Trimmed(entry) && entry != "" && '\n' !in entry }

  predicate AllClean(entries: seq<string>) {
    forall i :: 0 <= i < |entries| ==> Clean(entries[i])
  }

  lemma {:induction false} NonBlankClean(lines: seq<string>)
    requires forall i :: 0 <= i < |lines| ==> Trimmed(lines[i]) && '\n' !in lines[i]
    ensures AllClean(NonBlank(lines))
  {
    if lines != [] { NonBlankClean(lines[1..]); }
  }

  lemma {:induction false} NonBlankAll(lines: seq<string>)
    requires forall i :: 0 <= i < |lines| ==> lines[i] != ""
    ensures NonBlank(lines) == lines
  {
    if lines != [] { NonBlankAll(lines[1..]); }
  }

  /** Whatever is typed, the list holds clean entries. */
  lemma ListIsClean(text: string)
    ensures AllClean(ListFrom(text))
  {
    var lines := Split(text, '\n');
    forall i | 0 <= i < |lines| ensures Trimmed(TrimAll(lines)[i]) && '\n' !in TrimAll(lines)[i] {
      TrimIs(lines[i]);
    }
    NonBlankClean(TrimAll(lines));
  }

  /** A list comes back from its textarea exactly when every entry is clean. */
  lemma ListRoundTrip(entries: seq<string>)
    ensures ListFrom(LinesOf(entries)) == entries <==> AllClean(entries)
  {
    ListIsClean(LinesOf(entries));
    if AllClean(entries) {
      if entries == [] {
        assert Split(LinesOf(entries), '\n') == [""];
        TrimIs("");
        var lines := TrimAll([""]);
        assert lines == [""] && lines[1..] == [];
      } else {
        SplitJoin(entries, '\n');
        forall i | 0 <= i < |entries| ensures Trim(entries[i]) == entries[i] { TrimIs(entries[i]); }
        assert TrimAll(entries) == entries;
        NonBlankAll(entries);
      }
    }
  }

  // ----- what a list is, line by line -----

  predicate Blank(s: string) { forall i :: 0 <= i < |s| ==> IsSpace(s[i]) }

  lemma {:induction false} TrimStartPadded(a: string, s: string)
    requires Blank(a) && (s == "" || !IsSpace(s[0]))
    ensures TrimStart(a + s) == s
  {
    if a == "" {
      assert a + s == s;
    } else {
      assert (a + s)[0] == a[0] && (a + s)[1..] == a[1..] + s;
      TrimStartPadded(a[1..], s);
    }
  }

  lemma {:induction false} TrimEndPadded(s: string, b: string)
    requires Blank(b) && (s == "" || !IsSpace(s[|s| - 1]))
    ensures TrimEnd(s + b) == s
  {
    if b == "" {
      assert s + b == s;
    } else {
      var t := s + b;
      assert t[|t| - 1] == b[|b| - 1] && t[..|t| - 1] == s + b[..|b| - 1];
      TrimEndPadded(s, b[..|b| - 1]);
    }
  }

  /** Trimming takes off whatever whitespace is around, and nothing else. */
  lemma TrimPadded(a: string, s: string, b: string)
    requires Blank(a) && Blank(b) && Trimmed(s)
    ensures Trim(a + s + b) == s
  {
    if s == "" {
      assert a + s + b == (a + b) + "";
      TrimStartPadded(a + b, "");
      assert TrimEnd("") == "";
    } else {
      assert a + s + b == a + (s + b);
      TrimStartPadded(a, s + b);
      TrimEndPadded(s, b);
    }
  }

  /** One line is one entry, without the whitespace around it, or none when blank. */
  lemma LineIs(a: string, s: string, b: string)
    requires Blank(a) && Blank(b) && Trimmed(s) && '\n' !in a + s + b
    ensures ListFrom(a + s + b) == if s == "" then [] else [s]
  {
    var line := a + s + b;
    TrimPadded(a, s, b);
    assert Split(line, '\n') == [line];
    assert TrimAll([line]) == [s];
    assert NonBlank([s][1..]) == [];
    assert NonBlank([s]) == if s == "" then [] else [s];
  }

  lemma {:induction false} NonBlankJoin(x: seq<string>, y: seq<string>)
    ensures NonBlank(x + y) == NonBlank(x) + NonBlank(y)
  {
    if x == [] {
      assert x + y == y;
    } else {
      assert (x + y)[0] == x[0] && (x + y)[1..] == x[1..] + y;
      NonBlankJoin(x[1..], y);
    }
  }

  /** Lines are entries in order: the first line's, then those of the rest. */
  lemma LinesInOrder(line: string, rest: string)
    requires '\n' !in line
    ensures ListFrom(line + "\n" + rest) == ListFrom(line) + ListFrom(rest)
  {
    SplitPart(line, '\n', rest);
    assert line + "\n" + rest == line + ['\n'] + rest;
    var lines := Split(rest, '\n');
    assert Split(line, '\n') == [line];
    assert TrimAll([line] + lines) == TrimAll([line]) + TrimAll(lines);
    NonBlankJoin(TrimAll([line]), TrimAll(lines));
  }
}
