/** Commands offered for copying into a terminal, and the POSIX shell reading them
    (sections 2.2 and 2.3 of the Shell Command Language). */
module ShellQuoting {
  import opened Texts

  // ----- kubernetes-model.ts -----

  /** `replaceAll("'", "'\\''")` */
  function Escape(value: string): string {
    if value == "" then ""
    else (if value[0] == '\'' then "'\\''" else [value[0]]) + Escape(value[1..])
  }

  function ShellQuote(value: string): string {
    "'" + Escape(value) + "'"
  }

  /** Each word with a space after it, in front of `rest`. */
  function Spaced(words: seq<string>, rest: string): string {
    if words == [] then rest else words[0] + (" " + Spaced(words[1..], rest))
  }

  const HELPER: seq<string> :=
    ["node", "tools/kubernetes-login/src/helper.mjs", "kubeconfig",
     "--config", "/etc/asterius/kube-helper.json", "--cluster"]
  const ACCOUNT := "--account"
  const CONFIG := "reviewed-kubeconfig.yaml"
  const KUBECTL: seq<string> := ["kubectl", "--kubeconfig", CONFIG, "get"]
  const PODS := "pods"

  /** `node ... --cluster <cluster> --account <account> > file`, then `kubectl ... get pods`. */
  function LoginCommand(cluster: string, account: string): string {
    Spaced(HELPER, ShellQuote(cluster) + (" " + Spaced([ACCOUNT], ShellQuote(account) + Redirect())))
  }

  /** The redirection, and the second line. */
  function Redirect(): string {
    " " + (">" + (" " + (CONFIG + ("\n" + Spaced(KUBECTL, PODS)))))
  }

  /** The flag list as the console copies it: each flag quoted, joined by spaces. */
  function QuoteAll(values: seq<string>): string {
    Join(seq(|values|, i requires 0 <= i < |values| => ShellQuote(values[i])), ' ')
  }

  // ----- the shell -----

  datatype Lexeme = Word(text: string) | Great | Newline

  /** Ends a word outside quotes. */
  predicate Delimiter(c: char) { c == ' ' || c == '\t' || c == '\n' || c == '>' }

  /** Means something to the shell outside quotes that this reader does not follow:
      expansions, other operators, patterns, comments. NUL cannot occur at all. */
  predicate Special(c: char) {
    || c == '|' || c == '&' || c == ';' || c == '<' || c == '(' || c == ')' || c == '$' || c == '`' || c == '"'
    || c == '*' || c == '?' || c == '[' || c == '#' || c == '~' || c == '=' || c == '%' || c == '\0'
  }

  function Then(first: Lexeme, rest: Option<seq<Lexeme>>): Option<seq<Lexeme>> {
    match rest
    case None => None
    case Some(more) => Some([first] + more)
  }

  /** Between tokens. */
  function Lex(s: string): Option<seq<Lexeme>>
    decreases |s|, if s != "" && Delimiter(s[0]) then 0 else 2
  {
    if s == "" then Some([])
    else if s[0] == ' ' || s[0] == '\t' then Lex(s[1..])
    else if s[0] == '\n' then Then(Newline, Lex(s[1..]))
    else if s[0] == '>' then
      if |s| >= 2 && s[1] in {'>', '&', '|'} then None else Then(Great, Lex(s[1..]))
    else LexWord(s, "")
  }

  /** Inside a word, with what it holds so far. */
  function LexWord(s: string, word: string): Option<seq<Lexeme>>
    decreases |s|, 1
  {
    if s == "" then Some([Word(word)])
    else if Delimiter(s[0]) then Then(Word(word), Lex(s))
    else if s[0] == '\'' then LexQuoted(s[1..], word)
    else if s[0] == '\\' then
      if |s| == 1 || s[1] == '\0' then None
      else if s[1] == '\n' then LexWord(s[2..], word)
      else LexWord(s[2..], word + [s[1]])
    else if Special(s[0]) then None
    else LexWord(s[1..], word + [s[0]])
  }

  /** Inside single quotes: everything stands for itself up to the next one. */
  function LexQuoted(s: string, word: string): Option<seq<Lexeme>>
    decreases |s|, 1
  {
    if s == "" || s[0] == '\0' then None
    else if s[0] == '\'' then LexWord(s[1..], word)
    else LexQuoted(s[1..], word + [s[0]])
  }

  /** A simple command: its words, and the files its output goes to. */
  datatype Command = Command(words: seq<string>, outputs: seq<string>)

  const EMPTY := Command([], [])

  function Group(lexemes: seq<Lexeme>, current: Command): Option<seq<Command>>
    decreases |lexemes|
  {
    if lexemes == [] then Some(if current == EMPTY then [] else [current])
    else match lexemes[0]
      case Word(text) => Group(lexemes[1..], current.(words := current.words + [text]))
      case Great =>
        if |lexemes| >= 2 && lexemes[1].Word?
        then Group(lexemes[2..], current.(outputs := current.outputs + [lexemes[1].text]))
        else None
      case Newline =>
        match Group(lexemes[1..], EMPTY)
        case None => None
        case Some(more) => Some((if current == EMPTY then [] else [current]) + more)
  }

  function ReadCommands(s: string): Option<seq<Command>> {
    match Lex(s)
    case None => None
    case Some(lexemes) => Group(lexemes, EMPTY)
  }

  // ----- quoting undone -----

  predicate Ends(rest: string) { rest == "" || Delimiter(rest[0]) }

  lemma WordEnds(rest: string, word: string)
    requires Ends(rest)
    ensures LexWord(rest, word) == Then(Word(word), Lex(rest))
  {
    assert [Word(word)] + [] == [Word(word)];
  }

  /** Closing the quotes, an escaped quote, and opening them again. */
  lemma {:induction false} ReopenRead(tail: string, word: string)
    ensures LexQuoted("'\\''" + tail, word) == LexQuoted(tail, word + ['\''])
  {
    var s, escaped, reopened := "'\\''" + tail, "\\''" + tail, "'" + tail;
    assert s[1..] == escaped && escaped[2..] == reopened && reopened[1..] == tail;
    assert LexQuoted(s, word) == LexWord(escaped, word);
    assert LexWord(escaped, word) == LexWord(reopened, word + ['\'']);
  }

  /** Reading the escaped text inside quotes gives back the value, NULs refused. */
  lemma {:induction false} EscapeRead(value: string, rest: string, word: string)
    ensures LexQuoted(Escape(value) + "'" + rest, word) ==
            if '\0' in value then None else LexWord(rest, word + value)
  {
    var s := Escape(value) + "'" + rest;
    if value == "" {
      assert s[1..] == rest;
      assert word + value == word;
    } else {
      var c, tail := value[0], Escape(value[1..]) + "'" + rest;
      EscapeRead(value[1..], rest, word + [c]);
      assert value == [c] + value[1..];
      assert (word + [c]) + value[1..] == word + value;
      if c == '\'' {
        assert s == "'\\''" + tail;
        ReopenRead(tail, word);
      } else {
        assert s[1..] == tail;
      }
    }
  }

  /** A quoted value is one word, unchanged; the shell refuses it exactly when it
      contains a NUL. */
  lemma QuoteRead(value: string, rest: string)
    requires Ends(rest)
    ensures Lex(ShellQuote(value) + rest) ==
            if '\0' in value then None else Then(Word(value), Lex(rest))
  {
    var s := ShellQuote(value) + rest;
    assert s[1..] == Escape(value) + "'" + rest;
    EscapeRead(value, rest, "");
    assert "" + value == value;
    WordEnds(rest, value);
  }

  predicate NulFree(values: seq<string>) {
    forall i :: 0 <= i < |values| ==> '\0' !in values[i]
  }

  function Words(values: seq<string>): seq<Lexeme> {
    seq(|values|, i requires 0 <= i < |values| => Word(values[i]))
  }

  lemma NulFreeStep(values: seq<string>)
    requires values != []
    ensures NulFree(values) <==> '\0' !in values[0] && NulFree(values[1..])
  {
    assert values == [values[0]] + values[1..];
  }

  /** The shell reads a copied flag list as exactly that list, whatever quotes,
      spaces, operators or newlines the flags contain; only a NUL is refused. */
  lemma {:induction false} FlagsRead(values: seq<string>)
    ensures ReadCommands(QuoteAll(values)) ==
            if NulFree(values) then Some(if values == [] then [] else [Command(values, [])]) else None
  {
    FlagsLex(values);
    GroupWords(values, EMPTY);
    assert EMPTY.words + values == values;
  }

  lemma {:induction false} FlagsLex(values: seq<string>)
    ensures Lex(QuoteAll(values)) == if NulFree(values) then Some(Words(values)) else None
  {
    var parts := seq(|values|, i requires 0 <= i < |values| => ShellQuote(values[i]));
    if values != [] {
      var tail := values[1..];
      FlagsLex(tail);
      NulFreeStep(values);
      assert Words(values) == [Word(values[0])] + Words(tail);
      if tail == [] {
        QuoteRead(values[0], "");
        assert ShellQuote(values[0]) + "" == QuoteAll(values);
      } else {
        assert parts[1..] == seq(|tail|, i requires 0 <= i < |tail| => ShellQuote(tail[i]));
        var rest := " " + QuoteAll(tail);
        assert QuoteAll(values) == ShellQuote(values[0]) + rest;
        assert rest[1..] == QuoteAll(tail);
        QuoteRead(values[0], rest);
      }
    }
  }

  lemma {:induction false} GroupWords(values: seq<string>, current: Command)
    ensures Group(Words(values), current) ==
            var all := current.(words := current.words + values);
            Some(if all == EMPTY then [] else [all])
  {
    if values == [] {
      assert current.words + values == current.words;
    } else {
      assert Words(values)[1..] == Words(values[1..]);
      GroupWords(values[1..], current.(words := current.words + [values[0]]));
      assert (current.words + [values[0]]) + values[1..] == current.words + values;
    }
  }

  // ----- the login command -----

  /** Letters, digits and `- . / _` stand for themselves. */
  predicate BareChar(c: char) {
    'a' <= c <= 'z' || 'A' <= c <= 'Z' || '-' <= c <= '9' || c == '_'
  }

  predicate AllBare(word: string) {
    forall i :: 0 <= i < |word| ==> BareChar(word[i])
  }

  predicate Bare(word: string) { word != "" && AllBare(word) }

  lemma {:induction false} BareRead(s: string, rest: string, word: string)
    requires AllBare(s) && Ends(rest)
    ensures LexWord(s + rest, word) == Then(Word(word + s), Lex(rest))
  {
    if s == "" {
      assert s + rest == rest && word + s == word;
      WordEnds(rest, word);
    } else {
      assert (s + rest)[1..] == s[1..] + rest;
      BareRead(s[1..], rest, word + [s[0]]);
      assert (word + [s[0]]) + s[1..] == word + s;
    }
  }

  lemma BareLex(word: string, rest: string)
    requires Bare(word) && Ends(rest)
    ensures Lex(word + rest) == Then(Word(word), Lex(rest))
  {
    assert (word + rest)[0] == word[0];
    BareRead(word, rest, "");
    assert "" + word == word;
  }

  lemma LastWord(word: string)
    requires Bare(word)
    ensures Lex(word) == Some(Words([word]))
  {
    BareLex(word, "");
    assert word + "" == word;
    assert Words([word]) == [Word(word)] + [];
  }

  function Prefix(words: seq<string>, rest: Option<seq<Lexeme>>): Option<seq<Lexeme>> {
    if words == [] then rest else Then(Word(words[0]), Prefix(words[1..], rest))
  }

  lemma {:induction false} SpacedRead(words: seq<string>, rest: string)
    requires forall i :: 0 <= i < |words| ==> Bare(words[i])
    ensures Lex(Spaced(words, rest)) == Prefix(words, Lex(rest))
  {
    if words != [] {
      SpacedRead(words[1..], rest);
      var more := " " + Spaced(words[1..], rest);
      assert more[1..] == Spaced(words[1..], rest);
      BareLex(words[0], more);
    }
  }

  lemma HelperBare()
    ensures forall i :: 0 <= i < |HELPER| ==> Bare(HELPER[i])
  {
    hide Bare;
    LongBare();
    ShortBare();
  }

  lemma LongBare()
    ensures Bare(HELPER[1]) && Bare(HELPER[4])
  {
  }

  lemma ShortBare()
    ensures Bare(HELPER[0]) && Bare(HELPER[2]) && Bare(HELPER[3]) && Bare(HELPER[5])
  {
  }

  lemma KubectlBare()
    ensures forall i :: 0 <= i < |KUBECTL| ==> Bare(KUBECTL[i])
    ensures Bare(CONFIG) && Bare(PODS) && Bare(ACCOUNT)
  {
    hide Bare;
    ConfigBare();
    PlainBare();
  }

  lemma ConfigBare()
    ensures Bare(CONFIG) && Bare(PODS) && Bare(ACCOUNT)
  {
  }

  lemma PlainBare()
    ensures Bare("kubectl") && Bare("--kubeconfig") && Bare("get")
  {
  }

  lemma LexSpace(s: string)
    ensures Lex(" " + s) == Lex(s)
  {
    assert (" " + s)[1..] == s;
  }

  lemma LexGreat(s: string)
    requires s != "" && s[0] == ' '
    ensures Lex(">" + s) == Then(Great, Lex(s))
  {
    assert (">" + s)[1..] == s && (">" + s)[1] == ' ';
  }

  lemma LexNewline(s: string)
    ensures Lex("\n" + s) == Then(Newline, Lex(s))
  {
    assert ("\n" + s)[1..] == s;
  }

  lemma RedirectRead(file: string, second: string)
    requires Bare(file)
    ensures Lex(" " + (">" + (" " + (file + ("\n" + second))))) ==
            Then(Great, Then(Word(file), Then(Newline, Lex(second))))
  {
    var line := "\n" + second;
    LexNewline(second);
    BareLex(file, line);
    LexSpace(file + line);
    LexGreat(" " + (file + line));
    LexSpace(">" + (" " + (file + line)));
  }

  lemma SecondRead(words: seq<string>, last: string)
    requires (forall i :: 0 <= i < |words| ==> Bare(words[i])) && Bare(last)
    ensures Lex(Spaced(words, last)) == Some(Words(words + [last]))
  {
    SpacedRead(words, last);
    LastWord(last);
    PrefixWords(words, [last]);
  }

  lemma {:induction false} PrefixWords(words: seq<string>, more: seq<string>)
    ensures Prefix(words, Some(Words(more))) == Some(Words(words + more))
  {
    if words == [] {
      assert words + more == more;
    } else {
      PrefixWords(words[1..], more);
      assert (words + more)[1..] == words[1..] + more;
      assert Words(words + more) == [Word(words[0])] + Words(words[1..] + more);
    }
  }

  /** What the shell makes of the login command, lexeme by lexeme. */
  lemma LoginLex(cluster: string, account: string)
    ensures Lex(LoginCommand(cluster, account)) ==
            if '\0' in cluster || '\0' in account then None
            else Prefix(HELPER + [cluster, ACCOUNT, account],
                        Then(Great, Then(Word(CONFIG), Then(Newline, Some(Words(KUBECTL + [PODS]))))))
  {
    HelperBare();
    KubectlBare();
    SecondRead(KUBECTL, PODS);
    RedirectRead(CONFIG, Spaced(KUBECTL, PODS));
    var end := Lex(Redirect());
    QuoteRead(account, Redirect());
    var named := Spaced([ACCOUNT], ShellQuote(account) + Redirect());
    SpacedRead([ACCOUNT], ShellQuote(account) + Redirect());
    assert [ACCOUNT][1..] == [];
    LexSpace(named);
    QuoteRead(cluster, " " + named);
    SpacedRead(HELPER, ShellQuote(cluster) + (" " + named));
    assert Lex(ShellQuote(cluster) + (" " + named))
        == if '\0' in cluster || '\0' in account then None
           else Then(Word(cluster), Then(Word(ACCOUNT), Then(Word(account), end)));
    PrefixNone(HELPER);
    Prefix3(cluster, ACCOUNT, account, end);
    PrefixJoin(HELPER, [cluster, ACCOUNT, account], end);
  }

  lemma {:induction false} PrefixNone(words: seq<string>)
    ensures Prefix(words, None) == None
  {
    if words != [] {
      PrefixNone(words[1..]);
    }
  }

  lemma Prefix3(a: string, b: string, c: string, rest: Option<seq<Lexeme>>)
    ensures Prefix([a, b, c], rest) == Then(Word(a), Then(Word(b), Then(Word(c), rest)))
  {
    assert [a, b, c][1..] == [b, c] && [b, c][1..] == [c] && [c][1..] == [];
    assert Prefix([c], rest) == Then(Word(c), rest);
    assert Prefix([b, c], rest) == Then(Word(b), Then(Word(c), rest));
  }

  lemma Then3(a: Lexeme, b: Lexeme, c: Lexeme, rest: seq<Lexeme>)
    ensures Then(a, Then(b, Then(c, Some(rest)))) == Some([a, b, c] + rest)
  {
    assert [a] + ([b] + ([c] + rest)) == [a, b, c] + rest;
  }

  lemma {:induction false} PrefixJoin(first: seq<string>, second: seq<string>, rest: Option<seq<Lexeme>>)
    ensures Prefix(first, Prefix(second, rest)) == Prefix(first + second, rest)
  {
    if first == [] {
      assert first + second == second;
    } else {
      PrefixJoin(first[1..], second, rest);
      assert (first + second)[1..] == first[1..] + second;
    }
  }

  lemma {:induction false} GroupPrefix(words: seq<string>, rest: seq<Lexeme>, current: Command)
    ensures Prefix(words, Some(rest)).Some?
    ensures Group(Prefix(words, Some(rest)).value, current)
         == Group(rest, current.(words := current.words + words))
  {
    if words == [] {
      assert current.words + words == current.words;
    } else {
      GroupPrefix(words[1..], rest, current.(words := current.words + [words[0]]));
      var more := Prefix(words[1..], Some(rest)).value;
      assert ([Word(words[0])] + more)[1..] == more;
      assert (current.words + [words[0]]) + words[1..] == current.words + words;
    }
  }

  lemma {:induction false} GroupOutput(file: string, rest: seq<Lexeme>, current: Command)
    ensures Group([Great, Word(file)] + rest, current)
         == Group(rest, current.(outputs := current.outputs + [file]))
  {
    var lexemes := [Great, Word(file)] + rest;
    assert lexemes[0] == Great && lexemes[1] == Word(file) && lexemes[2..] == rest;
  }

  lemma {:induction false} GroupLine(rest: seq<Lexeme>, first: Command, more: seq<Command>)
    requires first != EMPTY && Group(rest, EMPTY) == Some(more)
    ensures Group([Newline] + rest, first) == Some([first] + more)
  {
    assert ([Newline] + rest)[1..] == rest;
  }

  lemma {:induction false} GroupRedirect(file: string, second: seq<string>, current: Command)
    requires second != []
    ensures Group([Great, Word(file), Newline] + Words(second), current) ==
            Some([current.(outputs := current.outputs + [file]), Command(second, [])])
  {
    var first := current.(outputs := current.outputs + [file]);
    GroupWords(second, EMPTY);
    assert EMPTY.(words := EMPTY.words + second) == Command(second, []);
    GroupLine(Words(second), first, [Command(second, [])]);
    GroupOutput(file, [Newline] + Words(second), current);
    assert [first] + [Command(second, [])] == [first, Command(second, [])];
    assert [Great, Word(file), Newline] + Words(second) == [Great, Word(file)] + ([Newline] + Words(second));
  }

  /** The login command is two fixed commands, in which the cluster and the account
      are each one unchanged argument, whatever characters they contain; only a NUL
      is refused. */
  lemma LoginRead(cluster: string, account: string)
    ensures ReadCommands(LoginCommand(cluster, account)) ==
            if '\0' in cluster || '\0' in account then None
            else Some([Command(HELPER + [cluster, ACCOUNT, account], [CONFIG]), Command(KUBECTL + [PODS], [])])
  {
    LoginLex(cluster, account);
    var words, second := HELPER + [cluster, ACCOUNT, account], KUBECTL + [PODS];
    Then3(Great, Word(CONFIG), Newline, Words(second));
    GroupPrefix(words, [Great, Word(CONFIG), Newline] + Words(second), EMPTY);
    assert EMPTY.(words := EMPTY.words + words) == Command(words, []);
    GroupRedirect(CONFIG, second, Command(words, []));
    assert Command(words, []).outputs + [CONFIG] == [CONFIG];
  }
}
