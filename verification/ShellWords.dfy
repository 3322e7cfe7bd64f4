/**
  * Printing an argument list so that a POSIX shell reads the same list back: shellQuote and its users
  * in internal/daemon and cmd/wrapping-bot.
  */
module ShellWords {
  import opened Sequences

  const QUOTE := '\''
  const DOUBLE := '"'

  /** A quote inside quotes: close, a double-quoted quote, open again. */
  const QUOTED_QUOTE := "'\"'\"'"

  predicate IsSafe(c: char) {
    'a' <= c <= 'z' || 'A' <= c <= 'Z' || '0' <= c <= '9' || c in "_@%+=:,./-"
  }

  predicate AllSafe(s: string) {
    forall c :: c in s ==> IsSafe(c)
  }

  function EscapeQuotes(s: string): string {
    if s == [] then []
    else (if s[0] == QUOTE then QUOTED_QUOTE else [s[0]]) + EscapeQuotes(s[1..])
  }

  function ShellQuote(value: string): string {
    if value == "" then "''"
    else if AllSafe(value) then value
    else [QUOTE] + EscapeQuotes(value) + [QUOTE]
  }

  function QuoteAll(args: seq<string>): (r: seq<string>)
    ensures |r| == |args|
  {
    seq(|args|, i requires 0 <= i < |args| => ShellQuote(args[i]))
  }

  function JoinBySpace(parts: seq<string>): string {
    if parts == [] then ""
    else if |parts| == 1 then parts[0]
    else parts[0] + " " + JoinBySpace(parts[1..])
  }

  /** A word is printed bare exactly if it is not empty and made of letters, digits and a few marks. */
  lemma BareIff(value: string)
    ensures ShellQuote(value) == value <==>
      value != "" && forall c :: c in value ==>
        'a' <= c <= 'z' || 'A' <= c <= 'Z' || '0' <= c <= '9' || c in ['_', '@', '%', '+', '=', ':', ',', '.', '/', '-']
  {
    EscapeGrows(value);
  }

  lemma {:induction false} EscapeGrows(s: string)
    ensures |EscapeQuotes(s)| >= |s|
  {
    if s != [] {
      EscapeGrows(s[1..]);
    }
  }

  // ----- how a shell splits words and removes quotes (POSIX.1-2017, Shell Command Language, 2.2 and 2.3) -----

  predicate IsBlank(c: char) {
    c == ' ' || c == '\t'
  }

  /** Unquoted, these never stand for themselves, or do not always: such a command line is not understood. */
  predicate IsSpecial(c: char) {
    c in "|&;<>()$`\\\n*?[#~"
  }

  /** Outside quotes, `word` being the word begun, if any. None: not a plain list of words. */
  function Unquoted(s: string, word: Option<string>): (r: Option<seq<string>>)
    decreases |s|
  {
    if s == [] then Some(if word.Some? then [word.value] else [])
    else if IsBlank(s[0]) then
      match Unquoted(s[1..], None)
      case None => None
      case Some(later) => Some((if word.Some? then [word.value] else []) + later)
    else if s[0] == QUOTE then SingleQuoted(s[1..], if word.Some? then word.value else [])
    else if s[0] == DOUBLE then DoubleQuoted(s[1..], if word.Some? then word.value else [])
    else if IsSpecial(s[0]) then None
    else Unquoted(s[1..], Some((if word.Some? then word.value else []) + [s[0]]))
  }

  function SingleQuoted(s: string, word: string): Option<seq<string>>
    decreases |s|
  {
    if s == [] then None
    else if s[0] == QUOTE then Unquoted(s[1..], Some(word))
    else SingleQuoted(s[1..], word + [s[0]])
  }

  function DoubleQuoted(s: string, word: string): Option<seq<string>>
    decreases |s|
  {
    if s == [] then None
    else if s[0] == DOUBLE then Unquoted(s[1..], Some(word))
    else if s[0] in "$`\\" then None
    else DoubleQuoted(s[1..], word + [s[0]])
  }

  function Words(line: string): Option<seq<string>> {
    Unquoted(line, None)
  }

  // ----- one quoted argument -----

  lemma SafeStandsForItself(c: char)
    requires IsSafe(c)
    ensures !IsBlank(c) && c != QUOTE && c != DOUBLE && !IsSpecial(c)
  {
  }

  lemma UnquotedStep(c: char, rest: string, word: Option<string>)
    requires IsSafe(c)
    ensures Unquoted([c] + rest, word) == Unquoted(rest, Some((if word.Some? then word.value else []) + [c]))
  {
    hide IsSafe, IsSpecial, IsBlank;
    SafeStandsForItself(c);
    assert ([c] + rest)[1..] == rest && ([c] + rest)[0] == c;
  }

  lemma {:induction false} SafeRun(v: string, word: string, rest: string)
    requires AllSafe(v)
    ensures Unquoted(v + rest, Some(word)) == Unquoted(rest, Some(word + v))
  {
    hide Unquoted, IsSafe;
    if v == [] {
      assert v + rest == rest && word + v == word;
    } else {
      assert v[0] in v && v + rest == [v[0]] + (v[1..] + rest);
      UnquotedStep(v[0], v[1..] + rest, Some(word));
      SafeRun(v[1..], word + [v[0]], rest);
      assert word + [v[0]] + v[1..] == word + v;
    }
  }

  lemma SingleStep(c: char, rest: string, word: string)
    ensures SingleQuoted([c] + rest, word)
         == if c == QUOTE then Unquoted(rest, Some(word)) else SingleQuoted(rest, word + [c])
  {
    assert ([c] + rest)[1..] == rest && ([c] + rest)[0] == c;
  }

  lemma DoubleStep(c: char, rest: string, word: string)
    requires c !in "$`\\"
    ensures DoubleQuoted([c] + rest, word)
         == if c == DOUBLE then Unquoted(rest, Some(word)) else DoubleQuoted(rest, word + [c])
  {
    assert ([c] + rest)[1..] == rest && ([c] + rest)[0] == c;
  }

  lemma OpenQuote(c: char, rest: string, word: Option<string>)
    requires c == QUOTE || c == DOUBLE
    ensures var w := if word.Some? then word.value else [];
      Unquoted([c] + rest, word) == if c == QUOTE then SingleQuoted(rest, w) else DoubleQuoted(rest, w)
  {
    assert ([c] + rest)[1..] == rest && ([c] + rest)[0] == c;
  }

  /** Inside quotes, the escaped quote adds one quote to the word and stays inside quotes. */
  lemma QuotedQuote(rest: string, word: string)
    ensures SingleQuoted(QUOTED_QUOTE + rest, word) == SingleQuoted(rest, word + [QUOTE])
  {
    hide SingleQuoted, DoubleQuoted, Unquoted;
    var r4 := [QUOTE] + rest;
    var r3 := [DOUBLE] + r4;
    var r2 := [QUOTE] + r3;
    var r1 := [DOUBLE] + r2;
    assert QUOTED_QUOTE + rest == [QUOTE] + r1;
    SingleStep(QUOTE, r1, word);
    OpenQuote(DOUBLE, r2, Some(word));
    DoubleStep(QUOTE, r3, word);
    DoubleStep(DOUBLE, r4, word + [QUOTE]);
    OpenQuote(QUOTE, rest, Some(word + [QUOTE]));
  }

  lemma {:induction false} QuotedRun(v: string, word: string, rest: string)
    ensures SingleQuoted(EscapeQuotes(v) + ([QUOTE] + rest), word) == Unquoted(rest, Some(word + v))
  {
    hide SingleQuoted, Unquoted;
    if v == [] {
      assert EscapeQuotes(v) + ([QUOTE] + rest) == [QUOTE] + rest && word + v == word;
      SingleStep(QUOTE, rest, word);
    } else {
      var tail := EscapeQuotes(v[1..]) + ([QUOTE] + rest);
      if v[0] == QUOTE {
        assert EscapeQuotes(v) + ([QUOTE] + rest) == QUOTED_QUOTE + tail;
        QuotedQuote(tail, word);
      } else {
        assert EscapeQuotes(v) + ([QUOTE] + rest) == [v[0]] + tail;
        SingleStep(v[0], tail, word);
      }
      QuotedRun(v[1..], word + [v[0]], rest);
      assert word + [v[0]] + v[1..] == word + v;
    }
  }

  /** A quoted argument is read as one word, the argument, whatever follows it. */
  lemma QuoteReadsBack(v: string, rest: string)
    ensures Unquoted(ShellQuote(v) + rest, None) == Unquoted(rest, Some(v))
  {
    hide Unquoted, SingleQuoted, IsSafe;
    if v == "" {
      assert ShellQuote(v) + rest == [QUOTE] + (EscapeQuotes(v) + ([QUOTE] + rest));
      OpenQuote(QUOTE, EscapeQuotes(v) + ([QUOTE] + rest), None);
      QuotedRun(v, "", rest);
      assert "" + v == v;
    } else if AllSafe(v) {
      assert v[0] in v && v + rest == [v[0]] + (v[1..] + rest);
      UnquotedStep(v[0], v[1..] + rest, None);
      SafeRun(v[1..], [] + [v[0]], rest);
      assert [] + [v[0]] + v[1..] == v;
    } else {
      assert ShellQuote(v) + rest == [QUOTE] + (EscapeQuotes(v) + ([QUOTE] + rest));
      OpenQuote(QUOTE, EscapeQuotes(v) + ([QUOTE] + rest), None);
      QuotedRun(v, [], rest);
      assert [] + v == v;
    }
  }

  // ----- the whole command -----

  lemma EndOfWord(rest: string, word: string)
    requires Unquoted(rest, None).Some?
    ensures Unquoted(" " + rest, Some(word)) == Some([word] + Unquoted(rest, None).value)
  {
    assert (" " + rest)[1..] == rest && (" " + rest)[0] == ' ';
  }

  /** For every argument list, the printed command is read back as exactly that list. */
  lemma {:induction false} CommandReadsBack(args: seq<string>)
    ensures Words(JoinBySpace(QuoteAll(args))) == Some(args)
  {
    hide ShellQuote;
    if args == [] {
    } else if |args| == 1 {
      QuoteReadsBack(args[0], "");
      assert ShellQuote(args[0]) + "" == ShellQuote(args[0]) && [args[0]] == args;
    } else {
      var later := QuoteAll(args[1..]);
      assert QuoteAll(args)[1..] == later;
      CommandReadsBack(args[1..]);
      var rest := " " + JoinBySpace(later);
      assert JoinBySpace(QuoteAll(args)) == ShellQuote(args[0]) + rest;
      QuoteReadsBack(args[0], rest);
      EndOfWord(JoinBySpace(later), args[0]);
      assert [args[0]] + args[1..] == args;
    }
  }

  /** Hence different argument lists never print alike. */
  lemma CommandsDiffer(a: seq<string>, b: seq<string>)
    requires JoinBySpace(QuoteAll(a)) == JoinBySpace(QuoteAll(b))
    ensures a == b
  {
    CommandReadsBack(a);
    CommandReadsBack(b);
  }

  function CommandText(command: seq<string>, shell: bool): string {
    if shell && |command| == 1 then command[0] else JoinBySpace(QuoteAll(command))
  }

  /** Quotes each argument in turn and joins. */
  method QuoteArguments(args: seq<string>) returns (line: string)
    ensures line == JoinBySpace(QuoteAll(args)) && Words(line) == Some(args)
  {
    hide ShellQuote, Words;
    var parts: seq<string> := [];
    for i := 0 to |args|
      invariant parts == QuoteAll(args[..i])
    {
      parts := parts + [ShellQuote(args[i])];
      assert QuoteAll(args[..i + 1]) == QuoteAll(args[..i]) + [ShellQuote(args[i])];
    }
    assert args[..|args|] == args;
    CommandReadsBack(args);
    line := JoinBySpace(parts);
  }

  /** The command as the daemon's start message shows it. */
  method FormatCommand(command: seq<string>, shell: bool) returns (text: string)
    ensures text == CommandText(command, shell)
    ensures if shell && |command| == 1 then text == command[0] else Words(text) == Some(command)
  {
    if shell && |command| == 1 {
      return command[0];
    }
    text := QuoteArguments(command);
  }

  /** The program and arguments the client executes. */
  method BuildCommand(args: seq<string>, shell: bool) returns (argv: seq<string>)
    requires args != []
    ensures argv == if shell then ["/bin/sh", "-lc", CommandText(args, true)] else args
    ensures shell ==> if |args| > 1 then Words(argv[2]) == Some(args) else argv[2] == args[0]
  {
    if shell {
      var command := args[0];
      if |args| > 1 {
        command := QuoteArguments(args);
      }
      return ["/bin/sh", "-lc", command];
    }
    argv := args;
  }
}
