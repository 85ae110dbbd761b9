/**
 * The one-line text encoding of a vector used by the write-ahead log:
 *
 *   {"id":"<escaped id>","values":[<v1>,<v2>,...]}
 *
 * together with the decoder that reads such a line back, exactly as the
 * log's hand-written parser does it (searches with `indexOf`, literal
 * `replace` chains for escaping, `split(",")` for the values).
 *
 * Rendering and parsing a double (`Double.toString`, `Double.parseDouble`)
 * are not modelled: they are the two functions of a `NumberFormat`, and
 * the properties that need them to agree take that agreement as a
 * hypothesis on the values involved.
 */
module WalCodec {
  import opened Wrappers
  import opened JavaStrings
  import opened ValueObjects
  import opened Entities

  // ------------------------------------------------------------ numbers

  datatype NumberFormat = NumberFormat(show: real -> string, parse: string -> Option<real>)

  /**
   * What the codec relies on from `Double.toString`: a non-empty text of
   * printable characters without a comma, a closing bracket or a quote.
   */
  predicate Printed(t: string)
  {
    t != [] && forall i :: 0 <= i < |t| ==> t[i] > ' ' && t[i] != ',' && t[i] != ']' && t[i] != '"'
  }

  /**
   * The values `xs` survive rendering and parsing back, and `parseDouble("")`
   * fails, as it does in Java.
   */
  ghost predicate RoundTrips(fmt: NumberFormat, xs: seq<real>)
  {
    && fmt.parse([]) == None
    && forall i :: 0 <= i < |xs| ==> Printed(fmt.show(xs[i])) && fmt.parse(fmt.show(xs[i])) == Some(xs[i])
  }

  // ----------------------------------------------------------- escaping

  /** `escapeJson`: five literal replacements, applied in this order. */
  function EscapeJson(s: string): string
  {
    Replace(Replace(Replace(Replace(Replace(s, "\\", "\\\\"), "\"", "\\\""), "\n", "\\n"), "\r", "\\r"), "\t", "\\t")
  }

  /** `unescapeJson`: the reverse replacements, in this order. */
  function UnescapeJson(s: string): string
  {
    Replace(Replace(Replace(Replace(Replace(s, "\\\"", "\""), "\\\\", "\\"), "\\n", "\n"), "\\r", "\r"), "\\t", "\t")
  }

  /** The three control characters the escaping writes as a backslash and a letter. */
  predicate Escapable(c: char)
  {
    c == '\n' || c == '\r' || c == '\t'
  }

  /** The characters `escapeJson` writes as a backslash followed by a letter. */
  predicate Escaped(c: char)
  {
    c == '\\' || c == '"' || Escapable(c)
  }

  /** The letter written after the backslash: the character itself for a backslash or a quote. */
  function Letter(c: char): char
  {
    if c == '\n' then 'n' else if c == '\r' then 'r' else if c == '\t' then 't' else c
  }

  /** `s` with exactly the characters of `ks` written as a backslash and their letter. */
  function Esc(s: string, ks: set<char>): (r: string)
    ensures '"' !in s ==> '"' !in r
  {
    if s == [] then []
    else (if s[0] in ks then ['\\', Letter(s[0])] else [s[0]]) + Esc(s[1..], ks)
  }

  lemma ReplaceHit(u: string, pat: string, rep: string)
    requires pat != []
    ensures Replace(pat + u, pat, rep) == rep + Replace(u, pat, rep)
  {
    assert (pat + u)[..|pat|] == pat;
    assert (pat + u)[|pat|..] == u;
  }

  lemma ReplaceSkip(x: char, u: string, pat: string, rep: string)
    requires pat != [] && x != pat[0]
    ensures Replace([x] + u, pat, rep) == [x] + Replace(u, pat, rep)
  {
    var t := [x] + u;
    assert t[1..] == u;
    if |t| >= |pat| {
      assert t[..|pat|][0] == x;
    }
  }

  lemma ReplaceAbsentChar(s: string, c: char, rep: string)
    requires c !in s
    ensures Replace(s, [c], rep) == s
  {
    forall j | 0 <= j && j + 1 <= |s| ensures !OccursAt(s, [c], j) {
      assert s[j..j + 1][0] == s[j];
    }
    ReplaceAbsent(s, [c], rep);
  }

  lemma {:induction false} EscNone(s: string)
    ensures Esc(s, {}) == s
  {
    if s != [] {
      EscNone(s[1..]);
    }
  }

  /** Replacing one more control character by its escape extends the escaped set. */
  lemma {:induction false} EscAdd(s: string, ks: set<char>, c: char)
    requires Escaped(c) && c !in ks
    requires forall k :: k in ks ==> Escaped(k) && Letter(k) != c
    requires ks != {} ==> c != '\\'
    ensures Replace(Esc(s, ks), [c], ['\\', Letter(c)]) == Esc(s, ks + {c})
  {
    var rep := ['\\', Letter(c)];
    var ks' := ks + {c};
    if s == [] {
      assert Replace([], [c], rep) == [];
    } else {
      var x := s[0];
      var rest := Esc(s[1..], ks);
      EscAdd(s[1..], ks, c);
      var r2 := Replace(rest, [c], rep);
      if x in ks {
        EscAddEscaped(x, rest, c);
        assert Esc(s, ks) == ['\\', Letter(x)] + rest;
        assert x in ks';
        assert Esc(s, ks') == ['\\', Letter(x)] + r2;
      } else if x == c {
        assert Esc(s, ks) == [c] + rest;
        ReplaceHit(rest, [c], rep);
        assert x in ks';
      } else {
        assert Esc(s, ks) == [x] + rest;
        ReplaceSkip(x, rest, [c], rep);
        assert x !in ks';
      }
    }
  }

  lemma EscAddEscaped(x: char, rest: string, c: char)
    requires c != '\\' && c != Letter(x)
    ensures Replace(['\\', Letter(x)] + rest, [c], ['\\', Letter(c)]) == ['\\', Letter(x)] + Replace(rest, [c], ['\\', Letter(c)])
  {
    var rep := ['\\', Letter(c)];
    ReplaceSkip(Letter(x), rest, [c], rep);
    assert ['\\', Letter(x)] + rest == ['\\'] + ([Letter(x)] + rest);
    ReplaceSkip('\\', [Letter(x)] + rest, [c], rep);
  }

  /** A backslash followed by a non-letter-of-`pat` character is skipped as a pair. */
  lemma SkipEscapePair(l: char, rest: string, pat: string, rep: string)
    requires |pat| == 2 && pat[0] == '\\' && pat[1] != l && l != '\\'
    ensures Replace(['\\', l] + rest, pat, rep) == ['\\', l] + Replace(rest, pat, rep)
  {
    var t := ['\\', l] + rest;
    assert t[1..] == [l] + rest;
    assert t[..2] == ['\\', l];
    ReplaceSkip(l, rest, pat, rep);
  }

  /** Replacing an escape by its control character shrinks the escaped set. */
  lemma {:induction false} EscRemove(s: string, ks: set<char>, c: char)
    requires '\\' !in s && c in ks
    requires forall k :: k in ks ==> Escapable(k)
    ensures Replace(Esc(s, ks), ['\\', Letter(c)], [c]) == Esc(s, ks - {c})
  {
    var pat := ['\\', Letter(c)];
    if s == [] {
      assert Replace([], pat, [c]) == [];
    } else {
      var x := s[0];
      var rest := Esc(s[1..], ks);
      EscRemove(s[1..], ks, c);
      var r2 := Replace(rest, pat, [c]);
      assert r2 == Esc(s[1..], ks - {c});
      if x == c {
        assert Esc(s, ks) == pat + rest;
        ReplaceHit(rest, pat, [c]);
        assert Esc(s, ks - {c}) == [c] + r2;
      } else if x in ks {
        assert Esc(s, ks) == ['\\', Letter(x)] + rest;
        SkipEscapePair(Letter(x), rest, pat, [c]);
        assert Esc(s, ks - {c}) == ['\\', Letter(x)] + r2;
      } else {
        assert Esc(s, ks) == [x] + rest;
        ReplaceSkip(x, rest, pat, [c]);
        assert Esc(s, ks - {c}) == [x] + r2;
      }
    }
  }

  /** A backslash pair whose second character is no escape letter is never found. */
  lemma {:induction false} EscMiss(s: string, ks: set<char>, y: char, rep: string)
    requires '\\' !in s
    requires forall k :: k in ks ==> Escapable(k)
    requires y != 'n' && y != 'r' && y != 't'
    ensures Replace(Esc(s, ks), ['\\', y], rep) == Esc(s, ks)
  {
    var pat := ['\\', y];
    if s == [] {
      assert Replace([], pat, rep) == [];
    } else {
      var x := s[0];
      var rest := Esc(s[1..], ks);
      EscMiss(s[1..], ks, y, rep);
      if x in ks {
        assert Esc(s, ks) == ['\\', Letter(x)] + rest;
        SkipEscapePair(Letter(x), rest, pat, rep);
      } else {
        assert Esc(s, ks) == [x] + rest;
        ReplaceSkip(x, rest, pat, rep);
      }
    }
  }

  /** An identifier the log's escaping handles: no backslash and no quote. */
  predicate PlainId(s: string)
  {
    '\\' !in s && '"' !in s
  }

  lemma EscapeIsEsc(s: string)
    requires PlainId(s)
    ensures EscapeJson(s) == Esc(s, {'\n', '\r', '\t'})
  {
    ReplaceAbsentChar(s, '\\', "\\\\");
    ReplaceAbsentChar(s, '"', "\\\"");
    EscNone(s);
    EscAdd(s, {}, '\n');
    assert {} + {'\n'} == {'\n'};
    EscAdd(s, {'\n'}, '\r');
    assert {'\n'} + {'\r'} == {'\n', '\r'};
    EscAdd(s, {'\n', '\r'}, '\t');
    assert {'\n', '\r'} + {'\t'} == {'\n', '\r', '\t'};
  }

  /** For an identifier without backslash or quote, unescaping undoes escaping. */
  lemma UnescapeEscape(s: string)
    requires PlainId(s)
    ensures UnescapeJson(EscapeJson(s)) == s
    ensures '"' !in EscapeJson(s)
  {
    EscapeIsEsc(s);
    var all := {'\n', '\r', '\t'};
    EscMiss(s, all, '"', "\"");
    EscMiss(s, all, '\\', "\\");
    EscRemove(s, all, '\n');
    assert all - {'\n'} == {'\r', '\t'};
    EscRemove(s, {'\r', '\t'}, '\r');
    assert {'\r', '\t'} - {'\r'} == {'\t'};
    EscRemove(s, {'\t'}, '\t');
    assert {'\t'} - {'\t'} == {};
    EscNone(s);
  }

  /** Every character `escapeJson` escapes. */
  const EscapedChars: set<char> := {'\\', '"', '\n', '\r', '\t'}

  /** `escapeJson` escapes each of its five characters, whatever the identifier. */
  lemma EscapeIsEscAll(s: string)
    ensures EscapeJson(s) == Esc(s, EscapedChars)
  {
    EscNone(s);
    EscAdd(s, {}, '\\');
    assert {} + {'\\'} == {'\\'};
    EscAdd(s, {'\\'}, '"');
    assert {'\\'} + {'"'} == {'\\', '"'};
    EscAdd(s, {'\\', '"'}, '\n');
    assert {'\\', '"'} + {'\n'} == {'\\', '"', '\n'};
    EscAdd(s, {'\\', '"', '\n'}, '\r');
    assert {'\\', '"', '\n'} + {'\r'} == {'\\', '"', '\n', '\r'};
    EscAdd(s, {'\\', '"', '\n', '\r'}, '\t');
    assert {'\\', '"', '\n', '\r'} + {'\t'} == EscapedChars;
  }

  // ----------------------------------------------------------- encoding

  const IdPattern: string := "\"id\":\""
  const ValuesPattern: string := "\"values\":["
  const LinePrefix: string := "{" + IdPattern
  const ValuesInfix: string := "\"," + ValuesPattern
  const LineSuffix: string := "]}"

  /** Each value rendered by `Double.toString`. */
  function Shows(fmt: NumberFormat, xs: seq<real>): (r: seq<string>)
    ensures |r| == |xs|
    ensures forall i :: 0 <= i < |xs| ==> r[i] == fmt.show(xs[i])
  {
    seq(|xs|, i requires 0 <= i < |xs| => fmt.show(xs[i]))
  }

  /** The values, comma-separated, as `vectorToJson` writes them. */
  function ValuesText(fmt: NumberFormat, xs: seq<real>): string
  {
    Join(Shows(fmt, xs), ",")
  }

  /** The log line of one inserted vector. */
  function EncodeLine(fmt: NumberFormat, v: Vector): (line: string)
    ensures StartsWith(line, "{") && EndsWith(line, "}")
  {
    LinePrefix + EscapeJson(v.IdValue()) + ValuesInfix + ValuesText(fmt, v.data.values) + LineSuffix
  }

  // ----------------------------------------------------------- decoding

  const InvalidFormat: string := "Invalid JSON format"
  const MissingId: string := "Missing id field"
  const MalformedId: string := "Malformed id field"
  const MissingValues: string := "Missing values field"
  const MalformedValues: string := "Malformed values field"
  const InvalidNumber: string := "Invalid number in values: "

  /** `Double.parseDouble(part.trim())`. */
  function NumberReader(fmt: NumberFormat): string -> Option<real>
  {
    part => fmt.parse(Trim(part))
  }

  /**
   * Reads every piece in order; the first piece that does not read is
   * reported, as it stands, in the message.
   */
  function ParseEach(read: string -> Option<real>, parts: seq<string>): (r: Result<seq<real>>)
    ensures r.Ok? ==> |r.value| == |parts|
    ensures r.Ok? ==> forall i :: 0 <= i < |parts| ==> read(parts[i]) == Some(r.value[i])
    ensures r.Err? <==> exists i :: 0 <= i < |parts| && read(parts[i]).None?
    ensures r.Err? ==> exists i :: 0 <= i < |parts| && r.error == IllegalArgument(InvalidNumber + parts[i])
  {
    if parts == [] then Ok([])
    else
      var init := parts[..|parts| - 1];
      var last := parts[|parts| - 1];
      assert forall i :: 0 <= i < |init| ==> init[i] == parts[i];
      var front :- ParseEach(read, init);
      match read(last)
      case None => Err(IllegalArgument(InvalidNumber + last))
      case Some(x) => Ok(front + [x])
  }

  /**
   * Parses every comma-separated piece, trimmed, as a double; the first
   * piece that does not parse is reported, untrimmed, in the message.
   */
  function ParseValues(fmt: NumberFormat, parts: seq<string>): (r: Result<seq<real>>)
    ensures r.Ok? ==> |r.value| == |parts|
    ensures r.Ok? ==> forall i :: 0 <= i < |parts| ==> fmt.parse(Trim(parts[i])) == Some(r.value[i])
    ensures r.Err? <==> exists i :: 0 <= i < |parts| && fmt.parse(Trim(parts[i])).None?
    ensures r.Err? ==> exists i :: 0 <= i < |parts| && r.error == IllegalArgument(InvalidNumber + parts[i])
  {
    ParseEach(NumberReader(fmt), parts)
  }

  /** The values text between the brackets, as the decoder parses it. */
  function ValuesOf(fmt: NumberFormat, valuesText: string): Result<seq<real>>
  {
    if IsBlank(valuesText) then Ok([]) else ParseValues(fmt, SplitOnChar(valuesText, ','))
  }

  /**
   * `jsonToVector(line)`: the checks and searches of the log's parser, in
   * its order. The id ends at the first quote after `"id":"` and the values
   * marker is searched from the start of the line.
   */
  function DecodeLine(fmt: NumberFormat, json: string): (r: Result<Vector>)
    ensures r.Ok? ==> StartsWith(json, "{") && EndsWith(json, "}")
  {
    if !StartsWith(json, "{") || !EndsWith(json, "}") then Err(IllegalArgument(InvalidFormat))
    else DecodeId(fmt, json, IndexOf(json, IdPattern, 0))
  }

  /** The decoder once `"id":"` was searched for and found at `idAt` (or not, -1). */
  function DecodeId(fmt: NumberFormat, json: string, idAt: int): Result<Vector>
    requires idAt == -1 || 0 <= idAt
  {
    if idAt == -1 then Err(IllegalArgument(MissingId))
    else
      var idStart := idAt + |IdPattern|;
      DecodeIdEnd(fmt, json, idStart, IndexOf(json, "\"", idStart))
  }

  /** The decoder once the quote closing the id was searched for from `idStart`. */
  function DecodeIdEnd(fmt: NumberFormat, json: string, idStart: nat, idEnd: int): Result<Vector>
    requires idEnd == -1 || idStart <= idEnd <= |json|
  {
    if idEnd == -1 then Err(IllegalArgument(MalformedId))
    else DecodeValues(fmt, json, UnescapeJson(json[idStart..idEnd]), IndexOf(json, ValuesPattern, 0))
  }

  /** The decoder once `"values":[` was searched for, from the start of the line. */
  function DecodeValues(fmt: NumberFormat, json: string, id: string, valuesAt: int): Result<Vector>
    requires valuesAt == -1 || 0 <= valuesAt
  {
    if valuesAt == -1 then Err(IllegalArgument(MissingValues))
    else
      var valuesStart := valuesAt + |ValuesPattern|;
      DecodeValuesEnd(fmt, json, id, valuesStart, IndexOf(json, "]", valuesStart))
  }

  /** The decoder once the closing bracket was searched for from `valuesStart`. */
  function DecodeValuesEnd(fmt: NumberFormat, json: string, id: string, valuesStart: nat, valuesEnd: int): Result<Vector>
    requires valuesEnd == -1 || valuesStart <= valuesEnd <= |json|
  {
    if valuesEnd == -1 then Err(IllegalArgument(MalformedValues))
    else
      match ValuesOf(fmt, json[valuesStart..valuesEnd])
      case Err(e) => Err(e)
      case Ok(values) => VectorFrom(Some(id), Some(values))
  }

  /**
   * A line decodes only if it is braced and holds both markers, and the
   * decoded id is never blank.
   */
  lemma DecodeLineNeeds(fmt: NumberFormat, json: string)
    ensures DecodeLine(fmt, json).Ok? ==>
      && StartsWith(json, "{") && EndsWith(json, "}")
      && (exists j :: OccursAt(json, IdPattern, j))
      && (exists j :: OccursAt(json, ValuesPattern, j))
    ensures StartsWith(json, "{") && EndsWith(json, "}") && (forall j :: !OccursAt(json, IdPattern, j)) ==>
      DecodeLine(fmt, json) == Err(IllegalArgument(MissingId))
  {
    IndexOfSpec(json, IdPattern, 0);
    IndexOfSpec(json, ValuesPattern, 0);
  }

  /** The decoder's result once the four searches are known to succeed. */
  lemma DecodeLineFound(fmt: NumberFormat, json: string, idAt: nat, idEnd: nat, valuesAt: nat, valuesEnd: nat)
    requires StartsWith(json, "{") && EndsWith(json, "}")
    requires IndexOf(json, IdPattern, 0) == idAt
    requires IndexOf(json, "\"", idAt + 6) == idEnd
    requires IndexOf(json, ValuesPattern, 0) == valuesAt
    requires IndexOf(json, "]", valuesAt + 10) == valuesEnd
    ensures idAt + 6 <= idEnd <= |json| && valuesAt + 10 <= valuesEnd <= |json|
    ensures DecodeLine(fmt, json) == DecodeValuesEnd(fmt, json, UnescapeJson(json[idAt + 6..idEnd]), valuesAt + 10, valuesEnd)
  {
    DecodeLineStep(fmt, json, idAt);
    DecodeIdStep(fmt, json, idAt, idEnd);
    DecodeIdEndStep(fmt, json, idAt + 6, idEnd, valuesAt);
    DecodeValuesStep(fmt, json, UnescapeJson(json[idAt + 6..idEnd]), valuesAt, valuesEnd);
  }

  lemma DecodeLineStep(fmt: NumberFormat, json: string, idAt: nat)
    requires StartsWith(json, "{") && EndsWith(json, "}")
    requires IndexOf(json, IdPattern, 0) == idAt
    ensures DecodeLine(fmt, json) == DecodeId(fmt, json, idAt)
  {
  }

  lemma DecodeIdStep(fmt: NumberFormat, json: string, idAt: nat, idEnd: nat)
    requires IndexOf(json, "\"", idAt + 6) == idEnd
    ensures DecodeId(fmt, json, idAt) == DecodeIdEnd(fmt, json, idAt + 6, idEnd)
  {
    assert |IdPattern| == 6;
  }

  lemma DecodeIdEndStep(fmt: NumberFormat, json: string, idStart: nat, idEnd: nat, valuesAt: nat)
    requires idStart <= idEnd <= |json|
    requires IndexOf(json, ValuesPattern, 0) == valuesAt
    ensures DecodeIdEnd(fmt, json, idStart, idEnd) == DecodeValues(fmt, json, UnescapeJson(json[idStart..idEnd]), valuesAt)
  {
  }

  lemma DecodeValuesStep(fmt: NumberFormat, json: string, id: string, valuesAt: nat, valuesEnd: nat)
    requires IndexOf(json, "]", valuesAt + 10) == valuesEnd
    ensures DecodeValues(fmt, json, id, valuesAt) == DecodeValuesEnd(fmt, json, id, valuesAt + 10, valuesEnd)
  {
    assert |ValuesPattern| == 10;
  }

  // --------------------------------------------------------- round trip

  /** The fixed pieces of a log line, character by character. */
  lemma Literals()
    ensures LinePrefix == ['{', '"', 'i', 'd', '"', ':', '"']
    ensures IdPattern == ['"', 'i', 'd', '"', ':', '"']
    ensures ValuesInfix == ['"', ',', '"', 'v', 'a', 'l', 'u', 'e', 's', '"', ':', '[']
    ensures ValuesPattern == ['"', 'v', 'a', 'l', 'u', 'e', 's', '"', ':', '[']
    ensures LineSuffix == [']', '}']
  {
  }

  /** Every quote of `e` comes right after a backslash, as the escaping writes it. */
  predicate QuotesEscaped(e: string)
  {
    forall k :: 0 <= k < |e| && e[k] == '"' ==> 0 < k && e[k - 1] == '\\'
  }

  /**
   * Before the values marker, no `s"` of the line is followed by a colon,
   * provided every quote of the id text is escaped or the id text has no colon.
   */
  lemma NoValuesPatternBefore(e: string, rest: string, j: nat)
    requires '"' !in e || ':' !in e || QuotesEscaped(e)
    requires j < 9 + |e|
    ensures !OccursAt(LinePrefix + e + ValuesInfix + rest, ValuesPattern, j)
  {
    Literals();
    var line := LinePrefix + e + ValuesInfix + rest;
    var w := line[j..j + 10];
    if '"' !in e && j < |e| {
      assert w[7] == e[j] != ValuesPattern[7];
    } else if QuotesEscaped(e) && j < |e| {
      assert w[7] == e[j];
      if j > 0 && e[j] == '"' {
        assert w[6] == e[j - 1] != ValuesPattern[6];
      } else {
        assert w[7] != ValuesPattern[7];
      }
    } else if j + 1 < |e| {
      assert w[8] == e[j + 1] != ValuesPattern[8];
    } else {
      var q := j + 1 - |e|;
      assert w[8] == ValuesInfix[q];
      assert forall k :: 0 <= k < 10 ==> ValuesInfix[k] != ':';
      assert w[8] != ValuesPattern[8];
    }
  }

  /** Values that round-trip are parsed back from their rendering. */
  lemma {:induction false} ParseShows(fmt: NumberFormat, xs: seq<real>)
    requires RoundTrips(fmt, xs)
    ensures ParseValues(fmt, Shows(fmt, xs)) == Ok(xs)
  {
    if xs != [] {
      var n := |xs| - 1;
      var parts := Shows(fmt, xs);
      assert RoundTrips(fmt, xs[..n]);
      ParseShows(fmt, xs[..n]);
      assert parts[..n] == Shows(fmt, xs[..n]);
      assert Printed(parts[n]) && fmt.parse(parts[n]) == Some(xs[n]);
      TrimUnchanged(parts[n]);
      assert fmt.parse(Trim(parts[n])) == Some(xs[n]);
      assert xs[..n] + [xs[n]] == xs;
    }
  }

  /** The values text of round-tripping values reads back as those values. */
  lemma ValuesRoundTrip(fmt: NumberFormat, xs: seq<real>)
    requires xs != [] && RoundTrips(fmt, xs)
    ensures ']' !in ValuesText(fmt, xs)
    ensures ValuesOf(fmt, ValuesText(fmt, xs)) == Ok(xs)
  {
    var parts := Shows(fmt, xs);
    var text := ValuesText(fmt, xs);
    assert forall i :: 0 <= i < |parts| ==> ']' !in parts[i] && ',' !in parts[i] && parts[i] != [];
    JoinExcludes(parts, ",", ']');
    assert text[0] == parts[0][0];
    BlankIff(text);
    SplitOnCharJoin(parts, ',');
    ParseShows(fmt, xs);
  }

  /** `"id":"` is found right after the opening brace. */
  lemma LineIdAt(line: string)
    requires StartsWith(line, LinePrefix)
    ensures IndexOf(line, IdPattern, 0) == 1
  {
    Literals();
    assert line[1..7] == line[..7][1..7];
    assert line[0..6][0] == '{';
    IndexOfFirst(line, IdPattern, 0, 1);
  }

  /** The id ends at the first quote after the escaped id. */
  lemma LineIdEnd(e: string, rest: string)
    requires '"' !in e
    ensures IndexOf(LinePrefix + e + ValuesInfix + rest, "\"", 7) == 7 + |e|
    ensures (LinePrefix + e + ValuesInfix + rest)[7..7 + |e|] == e
  {
    Literals();
    var tail := ValuesInfix + rest;
    IndexOfPieceEnd(LinePrefix, e, tail, '"', 7);
    SliceMiddle(LinePrefix, e, tail, 7);
    assert LinePrefix + e + tail == LinePrefix + e + ValuesInfix + rest;
  }

  /** The values marker is found after the id. */
  lemma LineValuesAt(e: string, rest: string)
    requires '"' !in e || ':' !in e || QuotesEscaped(e)
    ensures IndexOf(LinePrefix + e + ValuesInfix + rest, ValuesPattern, 0) == 9 + |e|
  {
    Literals();
    var line := LinePrefix + e + ValuesInfix + rest;
    var va := 9 + |e|;
    assert line[va..va + 10] == ValuesInfix[2..];
    forall j: nat | j < va ensures !OccursAt(line, ValuesPattern, j) {
      NoValuesPatternBefore(e, rest, j);
    }
    IndexOfFirst(line, ValuesPattern, 0, va);
  }

  /** The values end at the closing bracket. */
  lemma LineValuesEnd(pre: string, vals: string, at: nat)
    requires at == |pre| && ']' !in vals
    ensures IndexOf(pre + vals + LineSuffix, "]", at) == at + |vals|
    ensures (pre + vals + LineSuffix)[at..at + |vals|] == vals
  {
    Literals();
    IndexOfPieceEnd(pre, vals, LineSuffix, ']', at);
    SliceMiddle(pre, vals, LineSuffix, at);
  }

  /**
   * A logged vector whose identifier has no backslash and no quote, and
   * whose values round-trip through `Double.toString`, decodes back to
   * itself.
   */
  lemma DecodeEncode(fmt: NumberFormat, v: Vector)
    requires PlainId(v.IdValue())
    requires RoundTrips(fmt, v.data.values)
    ensures DecodeLine(fmt, EncodeLine(fmt, v)) == Ok(v)
  {
    var id := v.IdValue();
    var xs := v.data.values;
    UnescapeEscape(id);
    ValuesRoundTrip(fmt, xs);
    DecodeLaidOut(fmt, EscapeJson(id), ValuesText(fmt, xs), id, xs);
    VectorFromParts(v);
  }

  /**
   * A line laid out as the encoder lays it out, with a quote-free id text
   * and a bracket-free values text, decodes to the unescaped id and the
   * values read from that text.
   */
  lemma DecodeLaidOut(fmt: NumberFormat, e: string, vals: string, id: string, xs: seq<real>)
    requires '"' !in e && ']' !in vals
    requires UnescapeJson(e) == id
    requires ValuesOf(fmt, vals) == Ok(xs)
    ensures DecodeLine(fmt, LinePrefix + e + ValuesInfix + vals + LineSuffix) == VectorFrom(Some(id), Some(xs))
  {
    var line := LinePrefix + e + ValuesInfix + vals + LineSuffix;
    var pre := LinePrefix + e + ValuesInfix;
    LineLayout(e, vals);
    LineIdAt(line);
    LineIdEnd(e, vals + LineSuffix);
    LineValuesAt(e, vals + LineSuffix);
    LineValuesEnd(pre, vals, 19 + |e|);
    DecodeLineFound(fmt, line, 1, 7 + |e|, 9 + |e|, 19 + |e| + |vals|);
    DecodeValuesEndOk(fmt, line, id, 19 + |e|, 19 + |e| + |vals|, xs);
  }

  lemma DecodeValuesEndOk(fmt: NumberFormat, json: string, id: string, valuesStart: nat, valuesEnd: nat, xs: seq<real>)
    requires valuesStart <= valuesEnd <= |json|
    requires ValuesOf(fmt, json[valuesStart..valuesEnd]) == Ok(xs)
    ensures DecodeValuesEnd(fmt, json, id, valuesStart, valuesEnd) == VectorFrom(Some(id), Some(xs))
  {
  }

  lemma LineLayout(e: string, vals: string)
    ensures |LinePrefix + e + ValuesInfix| == 19 + |e|
    ensures LinePrefix + e + ValuesInfix + vals + LineSuffix == LinePrefix + e + ValuesInfix + (vals + LineSuffix)
    ensures StartsWith(LinePrefix + e + ValuesInfix + vals + LineSuffix, LinePrefix)
  {
    var line := LinePrefix + e + ValuesInfix + vals + LineSuffix;
    assert line[..|LinePrefix|] == LinePrefix;
  }

  // ------------------------------------------------- corrected decoding

  /** The character an escape letter stands for. */
  function Unletter(l: char): char
  {
    if l == 'n' then '\n' else if l == 'r' then '\r' else if l == 't' then '\t' else l
  }

  /** The letters `unescapeJson` knows after a backslash. */
  const EscapeLetters: set<char> := {'"', '\\', 'n', 'r', 't'}

  /** What `\l` reads as: a known escape is undone, an unknown one is kept as written. */
  function Unescaped(l: char): string
  {
    if l in EscapeLetters then [Unletter(l)] else ['\\', l]
  }

  /**
   * Reads the body of a quoted string up to its closing quote in a single
   * pass, so that an escaped quote does not end it and each escape is
   * undone exactly once: the decoded text and the number of characters
   * before the closing quote, or None when no closing quote follows.
   */
  function ReadQuoted(t: string): (r: Option<(string, nat)>)
    ensures r.Some? ==> r.value.1 < |t| && t[r.value.1] == '"'
  {
    if t == [] then None
    else if t[0] == '"' then Some(([], 0))
    else if t[0] == '\\' && |t| >= 2 then
      match ReadQuoted(t[2..])
      case None => None
      case Some((d, n)) => Some((Unescaped(t[1]) + d, n + 2))
    else
      match ReadQuoted(t[1..])
      case None => None
      case Some((d, n)) => Some(([t[0]] + d, n + 1))
  }

  lemma UnletterLetter(x: char)
    requires x in EscapedChars
    ensures Letter(x) in EscapeLetters && Unletter(Letter(x)) == x
  {
  }

  lemma ReadQuotedPair(l: char, tail: string, d: string, n: nat)
    requires l in EscapeLetters
    requires ReadQuoted(tail) == Some((d, n))
    ensures ReadQuoted(['\\', l] + tail) == Some(([Unletter(l)] + d, n + 2))
  {
    assert (['\\', l] + tail)[2..] == tail;
  }

  /** A backslash before a letter `unescapeJson` does not know is read as it stands, both characters kept. */
  lemma ReadQuotedUnknown(l: char, tail: string, d: string, n: nat)
    requires l !in EscapeLetters
    requires ReadQuoted(tail) == Some((d, n))
    ensures ReadQuoted(['\\', l] + tail) == Some((['\\', l] + d, n + 2))
  {
    assert (['\\', l] + tail)[2..] == tail;
  }

  lemma ReadQuotedPlain(x: char, tail: string, d: string, n: nat)
    requires x != '"' && x != '\\'
    requires ReadQuoted(tail) == Some((d, n))
    ensures ReadQuoted([x] + tail) == Some(([x] + d, n + 1))
  {
    assert ([x] + tail)[1..] == tail;
  }

  /** How one character is written by the escaping. */
  function EscOne(x: char): string
  {
    if x in EscapedChars then ['\\', Letter(x)] else [x]
  }

  /** One escaped character in front of a text that reads back adds that character. */
  lemma ReadEscapedStep(x: char, s1: string, e1: string, rest: string)
    requires ReadQuoted(e1 + ['"'] + rest) == Some((s1, |e1|))
    ensures ReadQuoted(EscOne(x) + e1 + ['"'] + rest) == Some(([x] + s1, |EscOne(x)| + |e1|))
  {
    var tail := e1 + ['"'] + rest;
    assert EscOne(x) + e1 + ['"'] + rest == EscOne(x) + tail;
    if x in EscapedChars {
      UnletterLetter(x);
      ReadQuotedPair(Letter(x), tail, s1, |e1|);
    } else {
      ReadQuotedPlain(x, tail, s1, |e1|);
    }
  }

  /** Reading an escaped text back stops at the quote that follows it and yields the original. */
  lemma {:induction false} ReadEscaped(s: string, rest: string)
    ensures ReadQuoted(Esc(s, EscapedChars) + ['"'] + rest) == Some((s, |Esc(s, EscapedChars)|))
  {
    if s == [] {
      assert (Esc(s, EscapedChars) + ['"'] + rest)[0] == '"';
    } else {
      var e1 := Esc(s[1..], EscapedChars);
      var e := Esc(s, EscapedChars);
      assert e == EscOne(s[0]) + e1;
      assert e + ['"'] + rest == EscOne(s[0]) + e1 + ['"'] + rest;
      assert [s[0]] + s[1..] == s;
      ReadEscaped(s[1..], rest);
      ReadEscapedStep(s[0], s[1..], e1, rest);
    }
  }

  /** The escaping writes every quote right after a backslash. */
  lemma {:induction false} EscQuotesEscaped(s: string)
    ensures QuotesEscaped(Esc(s, EscapedChars))
  {
    if s != [] {
      var head := EscOne(s[0]);
      var tail := Esc(s[1..], EscapedChars);
      EscQuotesEscaped(s[1..]);
      assert Esc(s, EscapedChars) == head + tail;
      var e := head + tail;
      forall k | 0 <= k < |e| && e[k] == '"' ensures 0 < k && e[k - 1] == '\\' {
        if k >= |head| {
          assert e[k] == tail[k - |head|];
          if k > |head| {
            assert e[k - 1] == tail[k - 1 - |head|];
          }
        }
      }
    }
  }

  /**
   * `jsonToVector` with the id read as a quoted string: it ends at the
   * first unescaped quote and its escapes are undone in one pass; the
   * values marker is searched from the start of the line, as before.
   */
  function DecodeLineFixed(fmt: NumberFormat, json: string): (r: Result<Vector>)
    ensures r.Ok? ==> StartsWith(json, "{") && EndsWith(json, "}")
  {
    if !StartsWith(json, "{") || !EndsWith(json, "}") then Err(IllegalArgument(InvalidFormat))
    else DecodeIdFixed(fmt, json, IndexOf(json, IdPattern, 0))
  }

  function DecodeIdFixed(fmt: NumberFormat, json: string, idAt: int): Result<Vector>
    requires idAt == -1 || (0 <= idAt && idAt + |IdPattern| <= |json|)
  {
    if idAt == -1 then Err(IllegalArgument(MissingId))
    else
      var idStart := idAt + |IdPattern|;
      DecodeReadId(fmt, json, ReadQuoted(json[idStart..]))
  }

  /** The corrected decoder once the quoted id was read: the values marker is searched from the start. */
  function DecodeReadId(fmt: NumberFormat, json: string, read: Option<(string, nat)>): Result<Vector>
  {
    match read
    case None => Err(IllegalArgument(MalformedId))
    case Some((id, _)) => DecodeValues(fmt, json, id, IndexOf(json, ValuesPattern, 0))
  }

  lemma DecodeLineFixedStep(fmt: NumberFormat, json: string, idAt: nat)
    requires StartsWith(json, "{") && EndsWith(json, "}")
    requires IndexOf(json, IdPattern, 0) == idAt
    ensures DecodeLineFixed(fmt, json) == DecodeIdFixed(fmt, json, idAt)
  {
  }

  lemma DecodeIdFixedStep(fmt: NumberFormat, json: string, idAt: nat)
    requires idAt + 6 <= |json|
    ensures DecodeIdFixed(fmt, json, idAt) == DecodeReadId(fmt, json, ReadQuoted(json[idAt + 6..]))
  {
    assert |IdPattern| == 6;
  }

  lemma DecodeReadIdStep(fmt: NumberFormat, json: string, id: string, n: nat, valuesAt: nat)
    requires IndexOf(json, ValuesPattern, 0) == valuesAt
    ensures DecodeReadId(fmt, json, Some((id, n))) == DecodeValues(fmt, json, id, valuesAt)
  {
  }

  /** The text after the id marker of a laid-out line. */
  lemma LineAfterIdMarker(e: string, rest: string)
    ensures (LinePrefix + e + ValuesInfix + rest)[7..] == e + ['"'] + (ValuesInfix[1..] + rest)
  {
    Literals();
  }

  /** The corrected decoder reads the id of a laid-out line in one pass. */
  lemma FixedReadsLaidOutId(fmt: NumberFormat, e: string, vals: string, s: string)
    requires ReadQuoted(e + ['"'] + (ValuesInfix[1..] + (vals + LineSuffix))) == Some((s, |e|))
    ensures DecodeLineFixed(fmt, LinePrefix + e + ValuesInfix + vals + LineSuffix) ==
      DecodeReadId(fmt, LinePrefix + e + ValuesInfix + vals + LineSuffix, Some((s, |e|)))
  {
    var line := LinePrefix + e + ValuesInfix + vals + LineSuffix;
    LineLayout(e, vals);
    LineIdAt(line);
    DecodeLineFixedStep(fmt, line, 1);
    LineAfterIdMarker(e, vals + LineSuffix);
    DecodeIdFixedStep(fmt, line, 1);
  }

  /** After the id, the corrected decoder finds the values marker of a laid-out line. */
  lemma FixedFindsLaidOutValues(fmt: NumberFormat, e: string, vals: string, s: string)
    requires QuotesEscaped(e)
    ensures DecodeReadId(fmt, LinePrefix + e + ValuesInfix + vals + LineSuffix, Some((s, |e|))) ==
      DecodeValues(fmt, LinePrefix + e + ValuesInfix + vals + LineSuffix, s, 9 + |e|)
  {
    var line := LinePrefix + e + ValuesInfix + vals + LineSuffix;
    LineLayout(e, vals);
    LineValuesAt(e, vals + LineSuffix);
    DecodeReadIdStep(fmt, line, s, |e|, 9 + |e|);
  }

  /** The values of a laid-out line are read from its values text. */
  lemma LaidOutValues(fmt: NumberFormat, e: string, vals: string, s: string, xs: seq<real>)
    requires ']' !in vals
    requires ValuesOf(fmt, vals) == Ok(xs)
    ensures DecodeValues(fmt, LinePrefix + e + ValuesInfix + vals + LineSuffix, s, 9 + |e|) == VectorFrom(Some(s), Some(xs))
  {
    var line := LinePrefix + e + ValuesInfix + vals + LineSuffix;
    var pre := LinePrefix + e + ValuesInfix;
    LineLayout(e, vals);
    LineValuesEnd(pre, vals, 19 + |e|);
    DecodeValuesStep(fmt, line, s, 9 + |e|, 19 + |e| + |vals|);
    DecodeValuesEndOk(fmt, line, s, 19 + |e|, 19 + |e| + |vals|, xs);
  }

  /**
   * With the corrected decoder every logged vector whose values round-trip
   * decodes back to itself, whatever characters its identifier holds.
   */
  lemma DecodeFixedEncode(fmt: NumberFormat, v: Vector)
    requires RoundTrips(fmt, v.data.values)
    ensures DecodeLineFixed(fmt, EncodeLine(fmt, v)) == Ok(v)
  {
    var vals := ValuesText(fmt, v.data.values);
    var e := EscapeJson(v.IdValue());
    EscapeIsEscAll(v.IdValue());
    ValuesRoundTrip(fmt, v.data.values);
    ReadEscaped(v.IdValue(), ValuesInfix[1..] + (vals + LineSuffix));
    EscQuotesEscaped(v.IdValue());
    FixedReadsLaidOutId(fmt, e, vals, v.IdValue());
    FixedFindsLaidOutValues(fmt, e, vals, v.IdValue());
    LaidOutValues(fmt, e, vals, v.IdValue(), v.data.values);
    VectorFromParts(v);
  }

  /** Without a backslash ahead, the quoted id ends at the next quote and is read as it stands. */
  lemma {:induction false} ReadQuotedNoBackslash(json: string, from: nat)
    requires from <= |json|
    requires forall j :: from <= j < |json| ==> json[j] != '\\'
    ensures var k := IndexOf(json, "\"", from);
      && (k == -1 ==> ReadQuoted(json[from..]) == None)
      && (k != -1 ==> ReadQuoted(json[from..]) == Some((json[from..k], k - from)))
    decreases |json| - from
  {
    if from < |json| {
      var t := json[from..];
      assert t[0] == json[from];
      assert json[from..from + 1] == [json[from]];
      if json[from] != '"' {
        assert t[1..] == json[from + 1..];
        ReadQuotedNoBackslash(json, from + 1);
        var k := IndexOf(json, "\"", from + 1);
        if k != -1 {
          assert json[from..k] == [json[from]] + json[from + 1..k];
        }
      } else {
        assert json[from..from + |"\""|] == "\"";
        assert IndexOf(json, "\"", from) == from;
        assert json[from..from] == [];
      }
    }
  }

  /** A replacement whose pattern holds a character the text lacks changes nothing. */
  lemma ReplaceMissing(s: string, pat: string, rep: string, i: nat)
    requires i < |pat| && pat[i] !in s
    ensures Replace(s, pat, rep) == s
  {
    forall j | 0 <= j && j + |pat| <= |s| ensures !OccursAt(s, pat, j) {
      assert s[j..j + |pat|][i] == s[j + i];
    }
    ReplaceAbsent(s, pat, rep);
  }

  /** `unescapeJson` leaves a text without a backslash as it is. */
  lemma UnescapeNoBackslash(x: string)
    requires '\\' !in x
    ensures UnescapeJson(x) == x
  {
    ReplaceMissing(x, "\\\"", "\"", 0);
    ReplaceMissing(x, "\\\\", "\\", 0);
    ReplaceMissing(x, "\\n", "\n", 0);
    ReplaceMissing(x, "\\r", "\r", 0);
    ReplaceMissing(x, "\\t", "\t", 0);
  }

  /**
   * On a line without a backslash the corrected decoder and the as-written
   * one agree, error for error: the correction changes only how escapes
   * are read.
   */
  lemma FixedAgreesWithoutBackslash(fmt: NumberFormat, json: string)
    requires '\\' !in json
    ensures DecodeLineFixed(fmt, json) == DecodeLine(fmt, json)
  {
    if StartsWith(json, "{") && EndsWith(json, "}") {
      var idAt := IndexOf(json, IdPattern, 0);
      if idAt != -1 {
        var idStart := idAt + |IdPattern|;
        ReadQuotedNoBackslash(json, idStart);
        var idEnd := IndexOf(json, "\"", idStart);
        if idEnd != -1 {
          UnescapeNoBackslash(json[idStart..idEnd]);
        }
      }
    }
  }

  // ------------------------------------- the as-written decoder, misreading

  /** A two-character pattern starting with a backslash is not found in `a\`. */
  lemma ReplaceTrailingBackslash(pat: string, rep: string)
    requires |pat| == 2 && pat[0] == '\\'
    ensures Replace(['a', '\\'], pat, rep) == ['a', '\\']
  {
    ReplaceSkip('a', ['\\'], pat, rep);
    assert ['a'] + ['\\'] == ['a', '\\'];
  }

  /** `unescapeJson` leaves the text `a\` as it is. */
  lemma UnescapeTrailingBackslash()
    ensures UnescapeJson(['a', '\\']) == ['a', '\\']
  {
    ReplaceTrailingBackslash("\\\"", "\"");
    ReplaceTrailingBackslash("\\\\", "\\");
    ReplaceTrailingBackslash("\\n", "\n");
    ReplaceTrailingBackslash("\\r", "\r");
    ReplaceTrailingBackslash("\\t", "\t");
  }

  /** Illustration: `escapeJson` writes the identifier `a"b` as `a\"b`. */
  lemma EscapeQuotedExample()
    ensures EscapeJson(['a', '"', 'b']) == ['a', '\\', '"', 'b']
  {
    EscapeIsEscAll(['a', '"', 'b']);
    EscQuoted();
  }

  lemma EscQuoted()
    ensures Esc(['a', '"', 'b'], EscapedChars) == ['a', '\\', '"', 'b']
  {
    var s := ['a', '"', 'b'];
    assert Esc(['b'], EscapedChars) == ['b'] by {
      assert 'b' !in EscapedChars;
      assert ['b'][1..] == [];
    }
    assert Esc(['"', 'b'], EscapedChars) == ['\\', '"', 'b'] by {
      assert '"' in EscapedChars;
      assert ['"', 'b'][1..] == ['b'];
    }
    assert 'a' !in EscapedChars;
    assert s[1..] == ['"', 'b'];
  }

  /** The log line of `a\"b` splits at the escaped quote, which the as-written decoder takes for the closing one. */
  lemma QuotedLineSplit(vals: string)
    ensures LinePrefix + ['a', '\\', '"', 'b'] + ValuesInfix + vals + LineSuffix ==
      LinePrefix + ['a', '\\'] + (['"', 'b'] + ValuesInfix + vals + LineSuffix)
  {
    assert ['a', '\\', '"', 'b'] == ['a', '\\'] + ['"', 'b'];
  }

  /** Where the as-written decoder's searches land in the log line of `a\"b`. */
  lemma QuotedLineIndices(vals: string)
    requires ']' !in vals
    ensures var line := LinePrefix + ['a', '\\', '"', 'b'] + ValuesInfix + vals + LineSuffix;
      && StartsWith(line, "{") && EndsWith(line, "}")
      && IndexOf(line, IdPattern, 0) == 1
      && IndexOf(line, "\"", 7) == 9
      && IndexOf(line, ValuesPattern, 0) == 13
      && IndexOf(line, "]", 23) == 23 + |vals|
      && line[7..9] == ['a', '\\']
      && line[23..23 + |vals|] == vals
  {
    var e := ['a', '\\', '"', 'b'];
    var line := LinePrefix + e + ValuesInfix + vals + LineSuffix;
    var pre := LinePrefix + e + ValuesInfix;
    Literals();
    LineLayout(e, vals);
    LineIdAt(line);
    QuotedLineSplit(vals);
    IndexOfPieceEnd(LinePrefix, ['a', '\\'], ['"', 'b'] + ValuesInfix + vals + LineSuffix, '"', 7);
    SliceMiddle(LinePrefix, ['a', '\\'], ['"', 'b'] + ValuesInfix + vals + LineSuffix, 7);
    LineValuesAt(e, vals + LineSuffix);
    LineValuesEnd(pre, vals, 23);
  }

  /** The as-written decoder's reading of a line whose escaped id is `a\"b`. */
  lemma QuotedLineDecoded(fmt: NumberFormat, vals: string, xs: seq<real>)
    requires ']' !in vals
    requires ValuesOf(fmt, vals) == Ok(xs)
    ensures DecodeLine(fmt, LinePrefix + ['a', '\\', '"', 'b'] + ValuesInfix + vals + LineSuffix) ==
      VectorFrom(Some(['a', '\\']), Some(xs))
  {
    var line := LinePrefix + ['a', '\\', '"', 'b'] + ValuesInfix + vals + LineSuffix;
    QuotedLineIndices(vals);
    DecodeLineFound(fmt, line, 1, 9, 13, 23 + |vals|);
    UnescapeTrailingBackslash();
    DecodeValuesEndOk(fmt, line, ['a', '\\'], 23, 23 + |vals|, xs);
  }

  /**
   * The as-written decoder does not give back a logged vector whose
   * identifier holds a quote: `a"b` comes back as `a\`.
   */
  lemma QuotedIdMisread(fmt: NumberFormat, v: Vector)
    requires v.IdValue() == ['a', '"', 'b']
    requires RoundTrips(fmt, v.data.values)
    ensures DecodeLine(fmt, EncodeLine(fmt, v)) == Ok(Vector(RawVectorId(['a', '\\']), v.data))
    ensures DecodeLine(fmt, EncodeLine(fmt, v)) != Ok(v)
  {
    var xs := v.data.values;
    EscapeQuotedExample();
    ValuesRoundTrip(fmt, xs);
    QuotedLineDecoded(fmt, ValuesText(fmt, xs), xs);
    BlankIff(['a', '\\']);
  }

  lemma EscBackslashN()
    ensures Esc(['a', '\\', 'n'], EscapedChars) == ['a', '\\', '\\', 'n']
  {
    var s := ['a', '\\', 'n'];
    assert Esc(['n'], EscapedChars) == ['n'] by {
      assert 'n' !in EscapedChars;
      assert ['n'][1..] == [];
    }
    assert Esc(['\\', 'n'], EscapedChars) == ['\\', '\\', 'n'] by {
      assert '\\' in EscapedChars;
      assert ['\\', 'n'][1..] == ['n'];
    }
    assert 'a' !in EscapedChars;
    assert s[1..] == ['\\', 'n'];
  }

  /** `unescapeJson` undoes `\\` before `\n`, so the text `a\\n` becomes `a` and a line break. */
  lemma UnescapeBackslashN()
    ensures UnescapeJson(['a', '\\', '\\', 'n']) == ['a', '\n']
  {
    var e := ['a', '\\', '\\', 'n'];
    ReplaceMissing(e, "\\\"", "\"", 1);
    assert Replace(e, "\\\\", "\\") == ['a', '\\', 'n'] by {
      ReplaceSkip('a', ['\\', '\\', 'n'], "\\\\", "\\");
      ReplaceHit(['n'], "\\\\", "\\");
      assert ['a'] + ['\\', '\\', 'n'] == e;
      assert "\\\\" + ['n'] == ['\\', '\\', 'n'];
    }
    assert Replace(['a', '\\', 'n'], "\\n", "\n") == ['a', '\n'] by {
      ReplaceSkip('a', ['\\', 'n'], "\\n", "\n");
      ReplaceHit([], "\\n", "\n");
      assert ['a'] + ['\\', 'n'] == ['a', '\\', 'n'];
      assert "\\n" + [] == ['\\', 'n'];
    }
    ReplaceMissing(['a', '\n'], "\\r", "\r", 0);
    ReplaceMissing(['a', '\n'], "\\t", "\t", 0);
  }

  /** `escapeJson` writes the identifier `a\n` (a backslash, then `n`) as `a\\n`. */
  lemma EscapeBackslashN()
    ensures EscapeJson(['a', '\\', 'n']) == ['a', '\\', '\\', 'n']
  {
    EscapeIsEscAll(['a', '\\', 'n']);
    EscBackslashN();
  }

  /**
   * As written, a logged vector whose identifier has no quote decodes to the
   * same values under its escaped identifier unescaped by the replacement
   * chain, which need not be the identifier itself.
   */
  lemma DecodeQuoteFree(fmt: NumberFormat, v: Vector)
    requires '"' !in v.IdValue()
    requires RoundTrips(fmt, v.data.values)
    ensures DecodeLine(fmt, EncodeLine(fmt, v)) == VectorFrom(Some(UnescapeJson(EscapeJson(v.IdValue()))), Some(v.data.values))
  {
    var id := v.IdValue();
    var xs := v.data.values;
    EscapeIsEscAll(id);
    ValuesRoundTrip(fmt, xs);
    DecodeLaidOut(fmt, EscapeJson(id), ValuesText(fmt, xs), UnescapeJson(EscapeJson(id)), xs);
  }

  /**
   * The as-written decoder does not give back a logged vector whose
   * identifier holds a backslash followed by `n`: `a\n` comes back as `a`
   * followed by a line break.
   */
  lemma BackslashNMisread(fmt: NumberFormat, v: Vector)
    requires v.IdValue() == ['a', '\\', 'n']
    requires RoundTrips(fmt, v.data.values)
    ensures DecodeLine(fmt, EncodeLine(fmt, v)) == Ok(Vector(RawVectorId(['a', '\n']), v.data))
    ensures DecodeLine(fmt, EncodeLine(fmt, v)) != Ok(v)
  {
    assert '"' !in v.IdValue();
    DecodeQuoteFree(fmt, v);
    EscapeBackslashN();
    UnescapeBackslashN();
    BlankIff(['a', '\n']);
  }
}
