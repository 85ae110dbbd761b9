/**
 * The command-line front end's pure parts: splitting an input line into
 * tokens (on whitespace runs, or with a small quote-aware scanner when the
 * line holds a `"`), mapping the first token to a command, case-insensitively
 * and with aliases, taking apart the arguments of `insert` and `query`, and
 * shortening long identifiers for display.
 */
module Repl {
  import opened Wrappers
  import opened JavaStrings

  const DefaultQueryLimit: int := 5
  const DisplayWidth: nat := 39
  const Ellipsis: string := "..."

  // ------------------------------------------------------- tokenising

  /** The state of the quote-aware scanner after some prefix of the line. */
  datatype Scanner = Scanner(parts: seq<string>, inQuotes: bool, current: string)

  /**
   * One character: a `"` toggles quoting, a space outside quotes ends the
   * current token (if any), anything else joins the current token.
   */
  function Step(st: Scanner, c: char): Scanner
  {
    if c == '"' then st.(inQuotes := !st.inQuotes)
    else if c == ' ' && !st.inQuotes then
      if st.current != [] then Scanner(st.parts + [st.current], st.inQuotes, []) else st
    else st.(current := st.current + [c])
  }

  function Scan(s: string): Scanner
  {
    if s == [] then Scanner([], false, []) else Step(Scan(s[..|s| - 1]), s[|s| - 1])
  }

  /** What `parseQuotedCommand` returns: the scanned tokens and the last one still open. */
  function QuotedTokens(s: string): seq<string>
  {
    var st := Scan(s);
    if st.current != [] then st.parts + [st.current] else st.parts
  }

  /** Inside quotes after `s`: an odd number of `"` so far. */
  predicate QuotedAfter(s: string)
  {
    multiset(s)['"'] % 2 == 1
  }

  /** The line without its `"` characters and without the spaces outside quotes. */
  function Stripped(s: string): string
  {
    if s == [] then []
    else
      var init := s[..|s| - 1];
      var c := s[|s| - 1];
      Stripped(init) + (if c == '"' || (c == ' ' && !QuotedAfter(init)) then [] else [c])
  }

  lemma {:induction false} ConcatSnoc(parts: seq<string>, p: string)
    ensures Concat(parts + [p]) == Concat(parts) + p
  {
    if parts != [] {
      assert (parts + [p])[1..] == parts[1..] + [p];
      ConcatSnoc(parts[1..], p);
    }
  }

  /** One more quote flips whether the count of quotes is odd. */
  lemma QuoteFlips(n: nat)
    ensures ((n + 1) % 2 == 1) == (n % 2 != 1)
  {
  }

  /** The scanner is inside quotes exactly when an odd number of `"` has been read. */
  lemma {:induction false} ScanQuoted(s: string)
    ensures Scan(s).inQuotes == QuotedAfter(s)
  {
    if s != [] {
      var init := s[..|s| - 1];
      var c := s[|s| - 1];
      ScanQuoted(init);
      assert s == init + [c];
      assert multiset(s) == multiset(init) + multiset{c};
      QuoteFlips(multiset(init)['"']);
    }
  }

  /**
   * What the scanner keeps track of: whether it is inside quotes (an odd
   * number of `"` so far), and tokens that, with the open one, spell the
   * stripped line; every finished token is non-empty, and no token holds a `"`.
   */
  lemma {:induction false} ScanInvariant(s: string)
    ensures Scan(s).inQuotes == QuotedAfter(s)
    ensures Concat(Scan(s).parts) + Scan(s).current == Stripped(s)
    ensures forall t :: t in Scan(s).parts ==> t != [] && '"' !in t
    ensures '"' !in Scan(s).current
  {
    if s != [] {
      var init := s[..|s| - 1];
      var c := s[|s| - 1];
      ScanInvariant(init);
      ScanQuoted(s);
      var st := Scan(init);
      assert Scan(s) == Step(st, c);
      var kept := if c == '"' || (c == ' ' && !st.inQuotes) then [] else [c];
      assert Stripped(s) == Stripped(init) + kept by {
        assert s[..|s| - 1] == init;
      }
      if c == ' ' && !st.inQuotes && st.current != [] {
        ConcatSnoc(st.parts, st.current);
      } else if kept == [c] {
        assert Concat(st.parts) + (st.current + [c]) == Concat(st.parts) + st.current + [c];
      }
    }
  }

  /**
   * `parseQuotedCommand(input)` never returns an empty token or one holding
   * a `"`, and its tokens, glued together, are the line with every `"` and
   * every space outside quotes removed.
   */
  lemma QuotedTokensSpec(s: string)
    ensures forall t :: t in QuotedTokens(s) ==> t != [] && '"' !in t
    ensures Concat(QuotedTokens(s)) == Stripped(s)
  {
    ScanInvariant(s);
    var st := Scan(s);
    if st.current != [] {
      ConcatSnoc(st.parts, st.current);
    } else {
      assert Concat(st.parts) + st.current == Concat(st.parts);
    }
  }

  lemma ScanSnoc(s: string, c: char, t: string)
    requires t == s + [c]
    ensures Scan(t) == Step(Scan(s), c)
  {
    assert t[..|s|] == s;
  }

  /** Illustration of the tokeniser: a quoted phrase stays one token, spaces included. */
  lemma QuotedPhraseExample()
    ensures QuotedTokens("x \"a b\"") == ["x", "a b"]
  {
    ScanSnoc([], 'x', "x");
    ScanSnoc("x", ' ', "x ");
    ScanSnoc("x ", '"', "x \"");
    ScanSnoc("x \"", 'a', "x \"a");
    ScanSnoc("x \"a", ' ', "x \"a ");
    ScanSnoc("x \"a ", 'b', "x \"a b");
    ScanSnoc("x \"a b", '"', "x \"a b\"");
    assert Scan("x \"a b") == Scanner(["x"], true, "a b");
  }

  /** `parseQuotedCommand(input)`: one pass over the line with a quote flag and a token buffer. */
  method ParseQuotedCommand(input: string) returns (parts: seq<string>)
    ensures parts == QuotedTokens(input)
  {
    parts := [];
    var inQuotes := false;
    var current: string := [];
    for i := 0 to |input|
      invariant Scanner(parts, inQuotes, current) == Scan(input[..i])
    {
      var c := input[i];
      assert input[..i + 1][..i] == input[..i];
      if c == '"' {
        inQuotes := !inQuotes;
      } else if c == ' ' && !inQuotes {
        if current != [] {
          parts := parts + [current];
          current := [];
        }
      } else {
        current := current + [c];
      }
    }
    assert input[..|input|] == input;
    if current != [] {
      parts := parts + [current];
    }
  }

  /** The tokens `parseCommand` returns: a line without `"` is split on whitespace runs. */
  function CommandParts(input: string): seq<string>
  {
    if '"' !in input then SplitOnWhitespace(input) else QuotedTokens(input)
  }

  /** `parseCommand(input)` */
  method ParseCommand(input: string) returns (parts: seq<string>)
    ensures parts == CommandParts(input)
  {
    if '"' !in input {
      return SplitOnWhitespace(input);
    }
    parts := ParseQuotedCommand(input);
  }

  /**
   * On a trimmed line (as the read loop passes it), no token is empty:
   * without a `"` the tokens are the maximal non-space runs, glued together
   * the line without its spaces; with one, the quoted scanner's.
   */
  lemma CommandPartsSpec(input: string)
    requires input != [] && input[0] > ' '
    ensures forall t :: t in CommandParts(input) ==> t != []
    ensures '"' !in input ==> CommandParts(input) == Runs(input) && Concat(CommandParts(input)) == WithoutSpaces(input)
    ensures '"' in input ==> Concat(CommandParts(input)) == Stripped(input)
  {
    if '"' !in input {
      SplitOnWhitespaceRuns(input);
      RunsConcat(input);
    } else {
      QuotedTokensSpec(input);
    }
  }

  // ------------------------------------------------------- dispatch

  datatype Command =
    | Help | Insert | Query | ShowVector | Metadata | List | Size | Clear | Vocab | Stats | Exit
    | Unknown(command: string)

  /** The `switch` on the lower-cased first token, aliases included. */
  function CommandFor(word: string): (c: Command)
    ensures c.Unknown? ==> c.command == ToLowerAscii(word)
  {
    var w := ToLowerAscii(word);
    if w == "help" || w == "h" || w == "?" then Help
    else if w == "insert" || w == "ins" then Insert
    else if w == "query" || w == "q" then Query
    else if w == "vector" || w == "vec" then ShowVector
    else if w == "meta" || w == "metadata" then Metadata
    else if w == "list" || w == "ls" then List
    else if w == "size" || w == "count" then Size
    else if w == "clear" then Clear
    else if w == "vocab" then Vocab
    else if w == "stats" then Stats
    else if w == "exit" || w == "quit" || w == "q!" then Exit
    else Unknown(w)
  }

  /** `executeCommand`: an empty token list does nothing. */
  function Dispatch(parts: seq<string>): Option<Command>
  {
    if parts == [] then None else Some(CommandFor(parts[0]))
  }

  /** The message for a word that names no command. */
  function UnknownMessage(command: string): string
  {
    "Unknown command: " + command + ". Type 'help' for available commands."
  }

  /**
   * Command words are matched without regard to ASCII case; "q" is `query`;
   * exactly "q!", "quit" and "exit" leave.
   */
  lemma CommandAliases(word: string)
    ensures CommandFor(word) == CommandFor(ToLowerAscii(word))
    ensures CommandFor(word) == Query <==> ToLowerAscii(word) == "query" || ToLowerAscii(word) == "q"
    ensures CommandFor(word) == Exit <==> ToLowerAscii(word) in {"exit", "quit", "q!"}
  {
    assert ToLowerAscii(ToLowerAscii(word)) == ToLowerAscii(word);
  }

  /** Illustration of the dispatch: "Q", "QUIT" and "Exit" are recognised whatever their case. */
  lemma AliasExamples()
    ensures CommandFor("Q") == Query
    ensures CommandFor("QUIT") == Exit && CommandFor("Exit") == Exit && CommandFor("q!") == Exit
  {
    LowerExample("Q", "q");
    CommandAliases("Q");
    LowerExample("QUIT", "quit");
    CommandAliases("QUIT");
    LowerExample("Exit", "exit");
    CommandAliases("Exit");
    LowerExample("q!", "q!");
    CommandAliases("q!");
  }

  /** Illustration of the dispatch: a word naming no command is reported in lower case. */
  lemma UnknownExample()
    ensures CommandFor("Frobnicate") == Unknown("frobnicate")
  {
    LowerExample("Frobnicate", "frobnicate");
  }

  lemma LowerExample(word: string, lower: string)
    requires |word| == |lower|
    requires forall i :: 0 <= i < |word| ==> LowerChar(word[i]) == lower[i]
    ensures ToLowerAscii(word) == lower
  {
  }

  /** The running flag the read loop tests; only an exit command clears it. */
  class Session {
    var running: bool

    constructor ()
      ensures running
    {
      running := true;
    }

    /** `executeCommand(input)`: parse, dispatch; the command's own output is not modelled. */
    method ExecuteCommand(input: string) returns (command: Option<Command>)
      modifies this
      ensures command == Dispatch(CommandParts(input))
      ensures running == (old(running) && command != Some(Exit))
    {
      var parts := ParseCommand(input);
      if parts == [] {
        return None;
      }
      var c := CommandFor(parts[0]);
      if c == Exit {
        running := false;
      }
      command := Some(c);
    }
  }

  // ------------------------------------------------------- arguments

  /** `handleInsert`: at least three tokens; the id, and the rest joined with single spaces. */
  function InsertArgs(parts: seq<string>): (r: Option<(string, string)>)
    ensures r.None? <==> |parts| < 3
  {
    if |parts| < 3 then None else Some((parts[1], Join(parts[2..], " ")))
  }

  /** The text of an insert splits back into the words it was made of. */
  lemma InsertTextWords(parts: seq<string>)
    requires |parts| >= 3
    requires forall i :: 2 <= i < |parts| ==> parts[i] != [] && ' ' !in parts[i]
    ensures InsertArgs(parts).value.0 == parts[1]
    ensures SplitOnChar(InsertArgs(parts).value.1, ' ') == parts[2..]
  {
    var words := parts[2..];
    assert forall i :: 0 <= i < |words| ==> words[i] == parts[i + 2];
    SplitOnCharJoin(words, ' ');
  }

  /**
   * `handleQuery`: at least two tokens; with more than two, a last token
   * that parses as an `int` is the limit and not part of the text;
   * otherwise every token after the command is text and the limit is 5.
   */
  function QueryArgs(parts: seq<string>): (r: Option<(string, int)>)
    ensures r.None? <==> |parts| < 2
  {
    if |parts| < 2 then None
    else if |parts| > 2 && ParseInt(parts[|parts| - 1]).Some? then
      Some((Join(parts[1..|parts| - 1], " "), ParseInt(parts[|parts| - 1]).value))
    else Some((Join(parts[1..], " "), DefaultQueryLimit))
  }

  /** The limit is the last token's value exactly when there are more than two tokens and it parses. */
  lemma QueryArgsSpec(parts: seq<string>)
    requires |parts| >= 2
    ensures var (text, limit) := QueryArgs(parts).value;
      var last := parts[|parts| - 1];
      && (|parts| > 2 && ParseInt(last).Some? ==> limit == ParseInt(last).value && text == Join(parts[1..|parts| - 1], " "))
      && (|parts| == 2 || ParseInt(last).None? ==> limit == DefaultQueryLimit && text == Join(parts[1..], " "))
      && (|parts| == 2 ==> text == parts[1])
  {
    assert |parts| == 2 ==> parts[1..] == [parts[1]];
  }

  /** Illustration of `QueryArgsSpec`: "query 3" searches for the text "3"; "query cats 3" for "cats", limit 3. */
  lemma QueryArgsExamples()
    ensures QueryArgs(["query", "3"]) == Some(("3", 5))
    ensures QueryArgs(["query", "cats", "3"]) == Some(("cats", 3))
    ensures QueryArgs(["query", "cats", "dogs"]) == Some(("cats dogs", 5))
  {
    assert ["query", "3"][1..] == ["3"];
    assert ParseInt("3") == Some(3) by {
      assert DigitsValue("3") == 3 by { assert "3"[..0] == []; }
    }
    assert ["query", "cats", "3"][1..2] == ["cats"];
    assert ParseInt("dogs") == None by {
      assert "dogs"[0] == 'd' && !IsAsciiDigit('d');
    }
    var parts := ["query", "cats", "dogs"];
    assert parts[|parts| - 1] == "dogs";
    assert parts[1..] == ["cats", "dogs"];
    assert ["cats", "dogs"][1..] == ["dogs"];
    assert Join(["cats", "dogs"], " ") == "cats" + " " + Join(["dogs"], " ");
    assert Join(["dogs"], " ") == "dogs";
    assert "cats" + " " + "dogs" == "cats dogs";
    assert ParseInt(parts[|parts| - 1]).None?;
    assert QueryArgs(parts) == Some((Join(parts[1..], " "), DefaultQueryLimit));
  }

  // ------------------------------------------------------- display

  /**
   * `truncate(s, maxLength)`: a string that fits is kept; a longer one is
   * cut to `maxLength - 3` characters followed by "...". The front end
   * always passes 39; `substring` needs `maxLength >= 3` to cut.
   */
  function Truncate(s: string, maxLength: nat): (r: string)
    requires |s| <= maxLength || maxLength >= 3
  {
    if |s| <= maxLength then s else s[..maxLength - 3] + Ellipsis
  }

  /** The shortened string is never longer than the width, and keeps the longest prefix that leaves room for the dots. */
  lemma TruncateSpec(s: string, maxLength: nat)
    requires maxLength >= 3
    ensures |Truncate(s, maxLength)| <= maxLength
    ensures |s| <= maxLength <==> Truncate(s, maxLength) == s
    ensures |s| > maxLength ==>
      && |Truncate(s, maxLength)| == maxLength
      && Truncate(s, maxLength) == s[..maxLength - 3] + "..."
  {
    if |s| > maxLength {
      assert |Truncate(s, maxLength)| == maxLength;
    }
  }
}
