/**
 The commands apps/cli/src/connection-usage.ts prints, read back by a POSIX shell: quoting after section 2.2
 and token recognition after section 2.3 of the POSIX Shell Command Language.
 */
module ShellQuote {
  import opened Commons
  import opened Text

  // ---------------------------------------------------------------------------
  // Building commands
  // ---------------------------------------------------------------------------

  predicate IsPlain(c: char) {
    'a' <= c <= 'z' || 'A' <= c <= 'Z' || '0' <= c <= '9' || c == '.' || c == '_' || c == ':' || c == '/' || c == '=' || c == '-'
  }

  predicate Plain(s: string) {
    s != "" && forall i :: 0 <= i < |s| ==> IsPlain(s[i])
  }

  function ReplaceQuotes(value: string): string {
    if value == "" then ""
    else (if value[0] == '\'' then "'\"'\"'" else [value[0]]) + ReplaceQuotes(value[1..])
  }

  function QuoteArgument(value: string): string {
    if Plain(value) then value else "'" + ReplaceQuotes(value) + "'"
  }

  /** Only what is empty or holds another character than ASCII letters, digits and -./:=_ is quoted. */
  lemma QuotedExactly(value: string)
    ensures QuoteArgument(value) == value <==>
              value != "" && forall i :: 0 <= i < |value| ==>
                var code := value[i] as int;
                97 <= code <= 122 || 65 <= code <= 90 || 45 <= code <= 58 || code == 61 || code == 95
    ensures QuoteArgument(value) != value ==> QuoteArgument(value)[0] == '\''
  {
    if !Plain(value) && QuoteArgument(value) == value && value != "" {
      LongerWhenQuoted(value);
    }
  }

  lemma {:induction false} LongerWhenQuoted(value: string)
    ensures |ReplaceQuotes(value)| >= |value|
  {
    if value != "" { LongerWhenQuoted(value[1..]); }
  }

  /** A command template: words as they stand, and arguments to quote, with single spaces between. */
  datatype Part = Literal(word: string) | Argument(value: string)

  function Written(part: Part): string {
    match part case Literal(word) => word case Argument(value) => QuoteArgument(value)
  }

  function Command(parts: seq<Part>): string
    requires parts != []
  {
    Join(seq(|parts|, i requires 0 <= i < |parts| => Written(parts[i])), ' ')
  }

  function ConnectionShowCommand(name: string): string {
    Command([Literal("weldall"), Literal("connections"), Literal("show"), Argument(name)])
  }

  function ConnectionMcpToolsCommand(connectorKey: string, name: string): string {
    Command([Literal("weldall"), Literal("mcp"), Literal("tools"), Argument(connectorKey),
             Literal("--connection"), Argument(name), Literal("--json")])
  }

  function ExampleCommand(name: string, httpMethod: string, url: string): string {
    Command([Literal("weldall"), Literal("request"), Literal("--connection"), Argument(name),
             Literal("--method"), Argument(httpMethod), Argument(url)])
  }

  // ---------------------------------------------------------------------------
  // Reading commands
  // ---------------------------------------------------------------------------

  predicate IsBlank(c: char) {
    c == ' ' || c == '\t'
  }

  /** Unquoted, these start an operator, an expansion, a pattern or a comment, or end the command. */
  predicate IsSpecial(c: char) {
    c in {'|', '&', ';', '<', '>', '(', ')', '$', '`', '*', '?', '[', ']', '#', '~', '%', '!', '{', '}', '\n'}
  }

  /** The arguments of one simple command; None where it has an operator or expansion, or an open quote. */
  function Arguments(s: string): Option<seq<string>>
    decreases |s|, 1
  {
    if s == "" then Some([])
    else if IsBlank(s[0]) then Arguments(s[1..])
    else Word(s, "")
  }

  function Word(s: string, word: string): Option<seq<string>>
    decreases |s|, 0
  {
    if s == "" then Some([word])
    else if IsBlank(s[0]) then
      var others := Arguments(s[1..]);
      if others.None? then None else Some([word] + others.value)
    else if s[0] == '\'' then SingleQuoted(s[1..], word)
    else if s[0] == '"' then DoubleQuoted(s[1..], word)
    else if s[0] == '\\' then
      if |s| == 1 then None
      else if s[1] == '\n' then Word(s[2..], word)
      else Word(s[2..], word + [s[1]])
    else if IsSpecial(s[0]) then None
    else Word(s[1..], word + [s[0]])
  }

  /** Every character up to the next single quote is literal. */
  function SingleQuoted(s: string, word: string): Option<seq<string>>
    decreases |s|, 0
  {
    if s == "" then None
    else if s[0] == '\'' then Word(s[1..], word)
    else SingleQuoted(s[1..], word + [s[0]])
  }

  /** Dollar, backquote and backslash keep their meaning between double quotes. */
  function DoubleQuoted(s: string, word: string): Option<seq<string>>
    decreases |s|, 0
  {
    if s == "" || s[0] == '$' || s[0] == '`' then None
    else if s[0] == '"' then Word(s[1..], word)
    else if s[0] == '\\' && |s| > 1 && s[1] in {'$', '`', '"', '\\'} then DoubleQuoted(s[2..], word + [s[1]])
    else if s[0] == '\\' && |s| > 1 && s[1] == '\n' then DoubleQuoted(s[2..], word)
    else DoubleQuoted(s[1..], word + [s[0]])
  }

  // ---------------------------------------------------------------------------
  // A quoted argument is read back as itself
  // ---------------------------------------------------------------------------

  lemma {:induction false} PlainIsRead(value: string, rest: string, word: string)
    requires forall i :: 0 <= i < |value| ==> IsPlain(value[i])
    ensures Word(value + rest, word) == Word(rest, word + value)
  {
    if value == "" {
      assert value + rest == rest && word + value == word;
    } else {
      assert IsPlain(value[0]);
      assert (value + rest)[0] == value[0] && (value + rest)[1..] == value[1..] + rest;
      PlainIsRead(value[1..], rest, word + [value[0]]);
      assert word + [value[0]] + value[1..] == word + value;
    }
  }

  lemma QuoteIsRead(rest: string, word: string)
    ensures SingleQuoted("'\"'\"'" + rest, word) == SingleQuoted(rest, word + "'")
  {
    var s := "'\"'\"'" + rest;
    assert s[1..] == "\"'\"'" + rest;
    assert s[1..][1..] == "'\"'" + rest;
    assert s[1..][1..][1..] == "\"'" + rest;
    assert s[1..][1..][1..][1..] == "'" + rest;
    assert s[1..][1..][1..][1..][1..] == rest;
    assert Word("\"'\"'" + rest, word) == DoubleQuoted("'\"'" + rest, word);
    assert DoubleQuoted("'\"'" + rest, word) == DoubleQuoted("\"'" + rest, word + "'");
    assert DoubleQuoted("\"'" + rest, word + "'") == Word("'" + rest, word + "'");
  }

  lemma {:induction false} QuotedIsRead(value: string, rest: string, word: string)
    ensures SingleQuoted(ReplaceQuotes(value) + "'" + rest, word) == Word(rest, word + value)
  {
    if value == "" {
      assert ReplaceQuotes(value) + "'" + rest == "'" + rest && ("'" + rest)[1..] == rest && word + value == word;
    } else {
      var others := ReplaceQuotes(value[1..]) + "'" + rest;
      QuotedIsRead(value[1..], rest, word + [value[0]]);
      assert word + [value[0]] + value[1..] == word + value;
      if value[0] == '\'' {
        QuoteIsRead(others, word);
        assert ReplaceQuotes(value) + "'" + rest == "'\"'\"'" + others;
      } else {
        assert ReplaceQuotes(value) + "'" + rest == [value[0]] + others;
        assert ([value[0]] + others)[1..] == others;
      }
    }
  }

  lemma ArgumentIsRead(value: string, rest: string)
    ensures Arguments(QuoteArgument(value) + rest) == Word(rest, value)
  {
    if Plain(value) {
      PlainStarts(value, rest);
      PlainIsRead(value, rest, "");
      assert "" + value == value;
    } else {
      QuotedStarts(value, rest);
      QuotedIsRead(value, rest, "");
      assert "" + value == value;
    }
  }

  lemma PlainStarts(value: string, rest: string)
    requires Plain(value)
    ensures Arguments(value + rest) == Word(value + rest, "")
  {
    assert (value + rest)[0] == value[0] && IsPlain(value[0]);
  }

  lemma QuotedStarts(value: string, rest: string)
    ensures Arguments("'" + ReplaceQuotes(value) + "'" + rest) == SingleQuoted(ReplaceQuotes(value) + "'" + rest, "")
  {
    var s := "'" + ReplaceQuotes(value) + "'" + rest;
    assert s[0] == '\'' && s[1..] == ReplaceQuotes(value) + "'" + rest;
  }

  ghost function Meaning(part: Part): string {
    match part case Literal(word) => word case Argument(value) => value
  }

  ghost function Meanings(parts: seq<Part>): seq<string> {
    seq(|parts|, i requires 0 <= i < |parts| => Meaning(parts[i]))
  }

  ghost predicate PlainWords(parts: seq<Part>) {
    forall i :: 0 <= i < |parts| && parts[i].Literal? ==> Plain(parts[i].word)
  }

  lemma PartIsRead(part: Part, rest: string)
    requires part.Literal? ==> Plain(part.word)
    ensures Arguments(Written(part) + rest) == Word(rest, Meaning(part))
  {
    ArgumentIsRead(Meaning(part), rest);
  }

  lemma OneArgument(s: string, rest: string, argument: string)
    requires Arguments(s + ([' '] + rest)) == Word([' '] + rest, argument) && Arguments(rest).Some?
    ensures Arguments(s + [' '] + rest) == Some([argument] + Arguments(rest).value)
  {
    assert s + [' '] + rest == s + ([' '] + rest) && ([' '] + rest)[1..] == rest;
  }

  lemma CommandTail(parts: seq<Part>)
    requires |parts| > 1
    ensures Command(parts) == Written(parts[0]) + [' '] + Command(parts[1..])
    ensures Meanings(parts) == [Meaning(parts[0])] + Meanings(parts[1..])
  {
    var texts := seq(|parts|, i requires 0 <= i < |parts| => Written(parts[i]));
    assert texts[1..] == seq(|parts[1..]|, i requires 0 <= i < |parts[1..]| => Written(parts[1..][i]));
  }

  /** A shell splits a command into exactly its words and its arguments, whatever the arguments hold. */
  lemma {:induction false} CommandIsReadBack(parts: seq<Part>)
    requires parts != [] && PlainWords(parts)
    ensures Arguments(Command(parts)) == Some(Meanings(parts))
    decreases |parts|
  {
    if |parts| == 1 {
      PartIsRead(parts[0], "");
      assert Written(parts[0]) + "" == Written(parts[0]) && Meanings(parts) == [Meaning(parts[0])];
    } else {
      CommandIsReadBack(parts[1..]);
      CommandTail(parts);
      PartIsRead(parts[0], [' '] + Command(parts[1..]));
      OneArgument(Written(parts[0]), Command(parts[1..]), Meaning(parts[0]));
    }
  }

  lemma ShowCommandIsReadBack(name: string)
    ensures Arguments(ConnectionShowCommand(name)) == Some(["weldall", "connections", "show", name])
  {
    var parts := [Literal("weldall"), Literal("connections"), Literal("show"), Argument(name)];
    CommandIsReadBack(parts);
    assert Meanings(parts) == ["weldall", "connections", "show", name];
  }

  lemma ToolsCommandIsReadBack(connectorKey: string, name: string)
    ensures Arguments(ConnectionMcpToolsCommand(connectorKey, name))
         == Some(["weldall", "mcp", "tools", connectorKey, "--connection", name, "--json"])
  {
    var parts := [Literal("weldall"), Literal("mcp"), Literal("tools"), Argument(connectorKey),
                  Literal("--connection"), Argument(name), Literal("--json")];
    CommandIsReadBack(parts);
    assert Meanings(parts) == ["weldall", "mcp", "tools", connectorKey, "--connection", name, "--json"];
  }

  lemma ExampleCommandIsReadBack(name: string, httpMethod: string, url: string)
    ensures Arguments(ExampleCommand(name, httpMethod, url))
         == Some(["weldall", "request", "--connection", name, "--method", httpMethod, url])
  {
    var parts := [Literal("weldall"), Literal("request"), Literal("--connection"), Argument(name),
                  Literal("--method"), Argument(httpMethod), Argument(url)];
    CommandIsReadBack(parts);
    assert Meanings(parts) == ["weldall", "request", "--connection", name, "--method", httpMethod, url];
  }
}
