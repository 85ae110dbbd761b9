/**
 * The write-ahead log of the file repository: a text file next to the data
 * file holding one encoded line per inserted vector. The file is the state
 * of the log object (None while it does not exist); what is on disk when a
 * log is opened is a parameter, so a restart is modelled by opening a new
 * log on the lines an earlier one left behind.
 */
module Wal {
  import opened Wrappers
  import opened JavaStrings
  import opened Entities
  import opened WalCodec

  const NullDatabaseFile: string := "Database file path cannot be null"
  const NullVector: string := "Vector cannot be null"

  // ---------------------------------------------------------- file names

  /** A path as the log uses it: an optional parent directory and a file name. */
  datatype FilePath = FilePath(parent: Option<string>, fileName: string)

  /** The last index of `c` in `s`, or -1. */
  function LastIndexOf(s: string, c: char): (k: int)
    ensures -1 <= k < |s|
    ensures k == -1 ==> c !in s
    ensures k >= 0 ==> s[k] == c && forall j :: k < j < |s| ==> s[j] != c
  {
    if s == [] then -1
    else if s[|s| - 1] == c then |s| - 1
    else
      assert s == s[..|s| - 1] + [s[|s| - 1]];
      LastIndexOf(s[..|s| - 1], c)
  }

  /**
   * `fileName.replaceAll("\\.[^.]*$", ".wal")`: the text from the last dot
   * on becomes `.wal`; a name without a dot is kept.
   */
  function WalFileName(name: string): string
  {
    var k := LastIndexOf(name, '.');
    if k == -1 then name else name[..k] + ".wal"
  }

  /** The log sits next to the data file. */
  function WalPath(db: FilePath): FilePath
  {
    FilePath(db.parent, WalFileName(db.fileName))
  }

  /**
   * The pattern matches exactly the last extension: a name made of a stem,
   * a dot and a dot-free extension is renamed to the stem and `.wal`.
   */
  lemma WalFileNameSpec(stem: string, ext: string)
    requires '.' !in ext
    ensures WalFileName(stem + ['.'] + ext) == stem + ".wal"
  {
    var name := stem + ['.'] + ext;
    var k := LastIndexOf(name, '.');
    assert name[|stem|] == '.';
    assert forall j :: |stem| < j < |name| ==> name[j] == ext[j - |stem| - 1];
    assert k == |stem|;
    assert name[..|stem|] == stem;
  }

  /** A name without a dot is its own log name. */
  lemma WalFileNameNoDot(name: string)
    requires '.' !in name
    ensures WalFileName(name) == name
  {
  }

  /** The log of a log file is the same file: renaming twice changes nothing more. */
  lemma WalFileNameIdempotent(name: string)
    ensures WalFileName(WalFileName(name)) == WalFileName(name)
  {
    var k := LastIndexOf(name, '.');
    if k != -1 {
      var stem := name[..k];
      assert stem + ".wal" == stem + ['.'] + "wal";
      WalFileNameSpec(stem, "wal");
    }
  }

  /**
   * As written, a data file whose name has no dot is its own log: the log
   * path is the data path.
   */
  lemma WalPathShared(db: FilePath)
    requires '.' !in db.fileName
    ensures WalPath(db) == db
  {
    WalFileNameNoDot(db.fileName);
  }

  /**
   * The log name with the overlap removed: where replacing the extension
   * would leave the name as it is (no dot, or already `.wal`), `.wal` is
   * appended instead.
   */
  function WalFileNameFixed(name: string): string
  {
    var renamed := WalFileName(name);
    if renamed == name then name + ".wal" else renamed
  }

  /** The corrected log path: next to the data file, under the corrected name. */
  function WalPathFixed(db: FilePath): FilePath
  {
    FilePath(db.parent, WalFileNameFixed(db.fileName))
  }

  /** With the corrected name the log is never the data file. */
  lemma WalPathSeparate(db: FilePath)
    ensures WalPathFixed(db) != db
  {
    var name := db.fileName;
    if WalFileName(name) == name {
      assert |WalFileNameFixed(name)| == |name| + 4;
    }
  }

  /** Wherever the as-written name already differs from the data file, the corrected one is the same. */
  lemma WalPathFixedAgrees(db: FilePath)
    requires WalPath(db) != db
    ensures WalPathFixed(db) == WalPath(db)
  {
  }

  /** Illustration of `WalFileNameSpec`: the data file `vecs.vecdb` has the log `vecs.wal`. */
  lemma WalFileNameExample()
    ensures WalFileName("vecs.vecdb") == "vecs.wal"
  {
    assert "vecs.vecdb" == "vecs" + ['.'] + "vecdb";
    WalFileNameSpec("vecs", "vecdb");
  }

  // ------------------------------------------------------------- recovery

  /** One line of the log read back: trimmed, and None when blank or malformed. */
  function ReadLine(fmt: NumberFormat, line: string): Option<Vector>
  {
    var t := Trim(line);
    if t == [] then None
    else
      match DecodeLineFixed(fmt, t)
      case Ok(v) => Some(v)
      case Err(_) => None
  }

  function Reader(fmt: NumberFormat): string -> Option<Vector>
  {
    line => ReadLine(fmt, line)
  }

  /** The vectors `read` finds in `lines`, in order; lines it rejects are skipped. */
  function Collect(read: string -> Option<Vector>, lines: seq<string>): seq<Vector>
  {
    if lines == [] then []
    else
      var v := read(lines[|lines| - 1]);
      Collect(read, lines[..|lines| - 1]) + (if v.Some? then [v.value] else [])
  }

  /**
   * `recover()` on a log holding `lines`: each line is trimmed, blank lines
   * are skipped, and a line that does not decode is skipped with a warning;
   * the vectors of the other lines come back in file order.
   */
  function RecoverLines(fmt: NumberFormat, lines: seq<string>): seq<Vector>
  {
    Collect(Reader(fmt), lines)
  }

  /** One more line adds what that line reads as. */
  lemma CollectSnoc(read: string -> Option<Vector>, a: seq<string>, line: string)
    ensures Collect(read, a + [line]) == Collect(read, a) + (if read(line).Some? then [read(line).value] else [])
  {
    assert (a + [line])[..|a|] == a;
  }

  /** A log of one line collects what that line reads as. */
  lemma CollectOne(read: string -> Option<Vector>, line: string)
    ensures Collect(read, [line]) == (if read(line).Some? then [read(line).value] else [])
  {
    CollectSnoc(read, [], line);
    assert [] + [line] == [line];
  }

  /** Recovery reads a log piece by piece. */
  lemma {:induction false} CollectAppend(read: string -> Option<Vector>, a: seq<string>, b: seq<string>)
    ensures Collect(read, a + b) == Collect(read, a) + Collect(read, b)
    decreases |b|
  {
    if b == [] {
      assert a + b == a;
    } else {
      var b0 := b[..|b| - 1];
      var line := b[|b| - 1];
      CollectAppend(read, a, b0);
      assert b == b0 + [line];
      assert a + b == (a + b0) + [line];
      CollectSnoc(read, a + b0, line);
      CollectSnoc(read, b0, line);
    }
  }

  /** When every line reads as a vector, all of them are collected, in order. */
  lemma {:induction false} CollectEach(read: string -> Option<Vector>, lines: seq<string>, vs: seq<Vector>)
    requires |lines| == |vs|
    requires forall i :: 0 <= i < |lines| ==> read(lines[i]) == Some(vs[i])
    ensures Collect(read, lines) == vs
  {
    if lines != [] {
      var n := |lines| - 1;
      CollectEach(read, lines[..n], vs[..n]);
      assert vs[..n] + [vs[n]] == vs;
    }
  }

  /** Every recovered vector is what some line of the log decodes to. */
  lemma {:induction false} CollectSound(read: string -> Option<Vector>, lines: seq<string>)
    ensures |Collect(read, lines)| <= |lines|
    ensures forall v :: v in Collect(read, lines) ==> exists i :: 0 <= i < |lines| && read(lines[i]) == Some(v)
  {
    if lines != [] {
      var init := lines[..|lines| - 1];
      CollectSound(read, init);
      forall v | v in Collect(read, init) ensures exists i :: 0 <= i < |lines| && read(lines[i]) == Some(v) {
        var i :| 0 <= i < |init| && read(init[i]) == Some(v);
        assert lines[i] == init[i];
      }
    }
  }

  /** Reading one more line of the log adds what that line reads as. */
  lemma CollectStep(read: string -> Option<Vector>, lines: seq<string>, i: nat)
    requires i < |lines|
    ensures Collect(read, lines[..i + 1]) ==
      Collect(read, lines[..i]) + (if read(lines[i]).Some? then [read(lines[i]).value] else [])
  {
    CollectSnoc(read, lines[..i], lines[i]);
    assert lines[..i + 1] == lines[..i] + [lines[i]];
  }

  /** Recovery of two pieces of a log is the recovery of each, one after the other. */
  lemma RecoverLinesAppend(fmt: NumberFormat, a: seq<string>, b: seq<string>)
    ensures RecoverLines(fmt, a + b) == RecoverLines(fmt, a) + RecoverLines(fmt, b)
  {
    CollectAppend(Reader(fmt), a, b);
  }

  /**
   * Recovery invents nothing: it returns at most one vector per line, each
   * the decoding of some trimmed line of the log.
   */
  lemma RecoverLinesSound(fmt: NumberFormat, lines: seq<string>)
    ensures |RecoverLines(fmt, lines)| <= |lines|
    ensures forall v :: v in RecoverLines(fmt, lines) ==>
      exists i :: 0 <= i < |lines| && Trim(lines[i]) != [] && DecodeLineFixed(fmt, Trim(lines[i])) == Ok(v)
  {
    CollectSound(Reader(fmt), lines);
    forall v | v in RecoverLines(fmt, lines)
      ensures exists i :: 0 <= i < |lines| && Trim(lines[i]) != [] && DecodeLineFixed(fmt, Trim(lines[i])) == Ok(v)
    {
      var i :| 0 <= i < |lines| && Reader(fmt)(lines[i]) == Some(v);
      assert ReadLine(fmt, lines[i]) == Some(v);
    }
  }

  /** The log lines written for a list of vectors, in order. */
  function EncodeAll(fmt: NumberFormat, vs: seq<Vector>): (lines: seq<string>)
    ensures |lines| == |vs|
    ensures forall i :: 0 <= i < |vs| ==> lines[i] == EncodeLine(fmt, vs[i])
  {
    seq(|vs|, i requires 0 <= i < |vs| => EncodeLine(fmt, vs[i]))
  }

  /** Vectors whose coordinates survive `Double.toString` and `Double.parseDouble`. */
  ghost predicate AllRoundTrip(fmt: NumberFormat, vs: seq<Vector>)
  {
    forall i :: 0 <= i < |vs| ==> RoundTrips(fmt, vs[i].data.values)
  }

  /** The line logged for a vector is read back as that vector. */
  lemma ReadLogged(fmt: NumberFormat, v: Vector)
    requires RoundTrips(fmt, v.data.values)
    ensures ReadLine(fmt, EncodeLine(fmt, v)) == Some(v)
  {
    var line := EncodeLine(fmt, v);
    TrimUnchanged(line);
    DecodeFixedEncode(fmt, v);
  }

  /** Appending the line of one more vector recovers one more vector. */
  lemma RecoverAfterLog(fmt: NumberFormat, lines: seq<string>, v: Vector)
    requires RoundTrips(fmt, v.data.values)
    ensures RecoverLines(fmt, lines + [EncodeLine(fmt, v)]) == RecoverLines(fmt, lines) + [v]
  {
    CollectSnoc(Reader(fmt), lines, EncodeLine(fmt, v));
    ReadLogged(fmt, v);
  }

  /** A log of one logged vector gives back that vector. */
  lemma RecoverSingle(fmt: NumberFormat, v: Vector)
    requires RoundTrips(fmt, v.data.values)
    ensures RecoverLines(fmt, [EncodeLine(fmt, v)]) == [v]
  {
    var line := EncodeLine(fmt, v);
    RecoverAfterLog(fmt, [], v);
    assert [] + [line] == [line];
    assert RecoverLines(fmt, []) == [];
  }

  /** A log written by `logInsert` alone gives back exactly the logged vectors, in order. */
  lemma RecoverLogged(fmt: NumberFormat, vs: seq<Vector>)
    requires AllRoundTrip(fmt, vs)
    ensures RecoverLines(fmt, EncodeAll(fmt, vs)) == vs
  {
    var lines := EncodeAll(fmt, vs);
    forall i | 0 <= i < |vs| ensures Reader(fmt)(lines[i]) == Some(vs[i]) {
      ReadLogged(fmt, vs[i]);
    }
    CollectEach(Reader(fmt), lines, vs);
  }

  // ------------------------------------------------ recovery as written

  /** One log line read back by the source's own decoder, which ends the id at the first quote. */
  function ReadLineAsWritten(fmt: NumberFormat, line: string): Option<Vector>
  {
    var t := Trim(line);
    if t == [] then None
    else
      match DecodeLine(fmt, t)
      case Ok(v) => Some(v)
      case Err(_) => None
  }

  function ReaderAsWritten(fmt: NumberFormat): string -> Option<Vector>
  {
    line => ReadLineAsWritten(fmt, line)
  }

  /** A logged line that the source's decoder does not read as `v` is not read back as `v`. */
  lemma ReadAsWrittenOther(fmt: NumberFormat, line: string, v: Vector)
    requires line != [] && line[0] == '{' && line[|line| - 1] == '}'
    requires DecodeLine(fmt, line) != Ok(v)
    ensures ReadLineAsWritten(fmt, line) != Some(v)
  {
    TrimUnchanged(line);
  }

  /** `recover()` as written: the same line loop over the source's decoder. */
  function RecoverLinesAsWritten(fmt: NumberFormat, lines: seq<string>): seq<Vector>
  {
    Collect(ReaderAsWritten(fmt), lines)
  }

  /**
   * As written, a log of vectors whose ids hold neither `"` nor `\` gives
   * back exactly the logged vectors, in order, as the corrected recovery does.
   */
  lemma RecoverLoggedAsWritten(fmt: NumberFormat, vs: seq<Vector>)
    requires AllRoundTrip(fmt, vs)
    requires forall i :: 0 <= i < |vs| ==> PlainId(vs[i].IdValue())
    ensures RecoverLinesAsWritten(fmt, EncodeAll(fmt, vs)) == vs
    ensures RecoverLinesAsWritten(fmt, EncodeAll(fmt, vs)) == RecoverLines(fmt, EncodeAll(fmt, vs))
  {
    var lines := EncodeAll(fmt, vs);
    forall i | 0 <= i < |vs| ensures ReaderAsWritten(fmt)(lines[i]) == Some(vs[i]) {
      TrimUnchanged(lines[i]);
      DecodeEncode(fmt, vs[i]);
    }
    CollectEach(ReaderAsWritten(fmt), lines, vs);
    RecoverLogged(fmt, vs);
  }

  /**
   * As written, the log of a vector with id `a"b` or `a\n` (a backslash,
   * then `n`) does not give that vector back, while the corrected recovery does.
   */
  lemma RecoverMisreadAsWritten(fmt: NumberFormat, v: Vector)
    requires v.IdValue() == ['a', '"', 'b'] || v.IdValue() == ['a', '\\', 'n']
    requires RoundTrips(fmt, v.data.values)
    ensures RecoverLinesAsWritten(fmt, [EncodeLine(fmt, v)]) != [v]
    ensures RecoverLines(fmt, [EncodeLine(fmt, v)]) == [v]
  {
    var line := EncodeLine(fmt, v);
    if v.IdValue() == ['a', '"', 'b'] {
      QuotedIdMisread(fmt, v);
    } else {
      BackslashNMisread(fmt, v);
    }
    ReadAsWrittenOther(fmt, line, v);
    CollectOne(ReaderAsWritten(fmt), line);
    RecoverSingle(fmt, v);
  }

  // ---------------------------------------------------- values, step by step

  /** Rendering one more value extends the values text by a comma and that value. */
  lemma ValuesTextStep(fmt: NumberFormat, xs: seq<real>, i: nat)
    requires i < |xs|
    ensures ValuesText(fmt, xs[..i + 1]) ==
      (if i == 0 then [] else ValuesText(fmt, xs[..i]) + ",") + fmt.show(xs[i])
  {
    assert Shows(fmt, xs[..i + 1]) == Shows(fmt, xs[..i]) + [fmt.show(xs[i])];
    JoinAppend(Shows(fmt, xs[..i]), fmt.show(xs[i]), ",");
  }

  /** Once a prefix of the pieces fails to parse, the whole list fails the same way. */
  lemma {:induction false} ParseValuesExtend(fmt: NumberFormat, parts: seq<string>, j: nat)
    requires j <= |parts|
    requires ParseValues(fmt, parts[..j]).Err?
    ensures ParseValues(fmt, parts) == ParseValues(fmt, parts[..j])
    decreases |parts| - j
  {
    if j < |parts| {
      ParseEachSnoc(NumberReader(fmt), parts, j);
      ParseValuesExtend(fmt, parts, j + 1);
    } else {
      assert parts[..j] == parts;
    }
  }

  /** The failure reported is the one of the first piece that does not parse. */
  lemma ParseValuesFirstFailure(fmt: NumberFormat, parts: seq<string>, i: nat)
    requires i < |parts| && fmt.parse(Trim(parts[i])).None?
    requires forall j :: 0 <= j < i ==> fmt.parse(Trim(parts[j])).Some?
    ensures ParseValues(fmt, parts) == Err(IllegalArgument(InvalidNumber + parts[i]))
  {
    var p := parts[..i + 1];
    assert p[..|p| - 1] == parts[..i];
    assert p[|p| - 1] == parts[i];
    ParseValuesPrefixOk(fmt, parts, i);
    ParseValuesSnocFails(fmt, p);
    ParseValuesExtend(fmt, parts, i + 1);
  }

  /** A prefix whose pieces all parse parses. */
  lemma ParseValuesPrefixOk(fmt: NumberFormat, parts: seq<string>, i: nat)
    requires i <= |parts|
    requires forall j :: 0 <= j < i ==> fmt.parse(Trim(parts[j])).Some?
    ensures ParseValues(fmt, parts[..i]).Ok?
  {
    var init := parts[..i];
    forall j | 0 <= j < |init| ensures fmt.parse(Trim(init[j])).Some? {
      assert init[j] == parts[j];
    }
  }

  /** A list whose front parses and whose last piece does not reports that last piece. */
  lemma ParseValuesSnocFails(fmt: NumberFormat, parts: seq<string>)
    requires parts != []
    requires ParseValues(fmt, parts[..|parts| - 1]).Ok?
    requires fmt.parse(Trim(parts[|parts| - 1])).None?
    ensures ParseValues(fmt, parts) == Err(IllegalArgument(InvalidNumber + parts[|parts| - 1]))
  {
  }

  /** Reading one more piece: a failed front stays failed, else the piece is read or reported. */
  lemma ParseEachSnoc(read: string -> Option<real>, parts: seq<string>, i: nat)
    requires i < |parts|
    ensures var front := ParseEach(read, parts[..i]);
      ParseEach(read, parts[..i + 1]) ==
        if front.Err? then Err(front.error)
        else if read(parts[i]).None? then Err(IllegalArgument(InvalidNumber + parts[i]))
        else Ok(front.value + [read(parts[i]).value])
  {
    var p := parts[..i + 1];
    assert p[..|p| - 1] == parts[..i];
    assert p[|p| - 1] == parts[i];
  }

  // ---------------------------------------------------------------- the log

  /** The lines of a log file; a missing file reads as no lines. */
  function LinesOf(file: Option<seq<string>>): seq<string>
  {
    if file.None? then [] else file.value
  }

  class WriteAheadLog {
    /**
     * The log file: the data file's name with its extension replaced by
     * `.wal`, under the corrected naming that never yields the data file.
     */
    const walFile: FilePath
    /** How doubles are written and read back. */
    const format: NumberFormat
    /** The lines of the log file, or None while the file does not exist. */
    var file: Option<seq<string>>

    constructor (databaseFile: FilePath, format: NumberFormat, onDisk: Option<seq<string>>)
      ensures walFile == WalPathFixed(databaseFile) && walFile != databaseFile
      ensures this.format == format && file == onDisk
    {
      WalPathSeparate(databaseFile);
      walFile := WalPathFixed(databaseFile);
      this.format := format;
      file := onDisk;
    }

    /**
     * `new WriteAheadLog(databaseFile)`: a missing path is refused; the log
     * takes over whatever file is already at its path.
     */
    static method Open(databaseFile: Option<FilePath>, format: NumberFormat, onDisk: Option<seq<string>>)
      returns (r: Result<WriteAheadLog>)
      ensures databaseFile.None? ==> r == Err(IllegalArgument(NullDatabaseFile))
      ensures databaseFile.Some? ==> r.Ok? && fresh(r.value)
      ensures databaseFile.Some? ==> r.value.walFile == WalPathFixed(databaseFile.value)
      ensures databaseFile.Some? ==> r.value.format == format && r.value.file == onDisk
    {
      if databaseFile.None? {
        return Err(IllegalArgument(NullDatabaseFile));
      }
      var log := new WriteAheadLog(databaseFile.value, format, onDisk);
      r := Ok(log);
    }

    /** The lines of the log; a missing file reads as no lines. */
    function Lines(): seq<string>
      reads this
    {
      LinesOf(file)
    }

    /** `logInsert(vector)`: appends the vector's line, creating the file if needed. */
    method LogInsert(vector: Option<Vector>) returns (outcome: Outcome)
      modifies this
      ensures vector.None? ==> outcome == Fail(IllegalArgument(NullVector)) && file == old(file)
      ensures vector.Some? ==> outcome == Pass && file == Some(old(Lines()) + [EncodeLine(format, vector.value)])
    {
      if vector.None? {
        return Fail(IllegalArgument(NullVector));
      }
      var line := VectorToJson(vector.value);
      file := Some(Lines() + [line]);
      outcome := Pass;
    }

    /** `recover()`: the vectors of the log's lines, skipping blank and malformed ones. */
    method Recover() returns (recovered: seq<Vector>)
      ensures recovered == RecoverLines(format, Lines())
    {
      recovered := [];
      if file.None? {
        return;
      }
      var lines := file.value;
      var i := 0;
      while i < |lines|
        invariant 0 <= i <= |lines|
        invariant recovered == RecoverLines(format, lines[..i])
      {
        var found := ReadOne(lines[i]);
        CollectStep(Reader(format), lines, i);
        if found.Some? {
          recovered := recovered + [found.value];
        }
        i := i + 1;
      }
      assert lines[..|lines|] == lines;
    }

    /** The body of the recovery loop: a blank line or one that does not decode is skipped. */
    method ReadOne(line: string) returns (found: Option<Vector>)
      ensures found == Reader(format)(line)
    {
      var t := Trim(line);
      found := None;
      if t != [] {
        var r := JsonToVector(t);
        if r.Ok? {
          found := Some(r.value);
        }
      }
    }

    /** `clear()`: the log file is deleted. */
    method Clear()
      modifies this
      ensures file == None
    {
      file := None;
    }

    /** `hasEntries()`: the file exists and is not empty (every written line ends with a line break). */
    function HasEntries(): (b: bool)
      reads this
      ensures b <==> Lines() != []
    {
      file.Some? && file.value != []
    }

    /** `vectorToJson(vector)`: the line is built value by value. */
    method VectorToJson(vector: Vector) returns (json: string)
      ensures json == EncodeLine(format, vector)
    {
      var xs := vector.data.values;
      var values := vector.Values();
      json := LinePrefix + EscapeJson(vector.IdValue()) + ValuesInfix;
      var head := json;
      var i := 0;
      while i < values.Length
        invariant 0 <= i <= values.Length
        invariant values[..] == xs
        invariant json == head + ValuesText(format, xs[..i])
      {
        ValuesTextStep(format, xs, i);
        if i > 0 {
          json := json + ",";
        }
        json := json + format.show(values[i]);
        i := i + 1;
      }
      assert xs[..i] == xs;
      json := json + LineSuffix;
    }

    /** The loop of `jsonToVector` over the comma-separated pieces of the values. */
    method ParseParts(parts: seq<string>) returns (r: Result<seq<real>>)
      ensures r == ParseValues(format, parts)
    {
      var read := NumberReader(format);
      var values: seq<real> := [];
      var i := 0;
      while i < |parts|
        invariant 0 <= i <= |parts|
        invariant ParseEach(read, parts[..i]) == Ok(values)
      {
        ParseEachSnoc(read, parts, i);
        var x := read(parts[i]);
        if x.None? {
          ParseValuesExtend(format, parts, i + 1);
          return Err(IllegalArgument(InvalidNumber + parts[i]));
        }
        values := values + [x.value];
        i := i + 1;
      }
      assert parts[..i] == parts;
      r := Ok(values);
    }

    /** `jsonToVector(json)`, with the id read as a quoted string. */
    method JsonToVector(json: string) returns (r: Result<Vector>)
      ensures r == DecodeLineFixed(format, json)
    {
      if !StartsWith(json, "{") || !EndsWith(json, "}") {
        return Err(IllegalArgument(InvalidFormat));
      }
      var idAt := IndexOf(json, IdPattern, 0);
      DecodeLineFixedAt(format, json, idAt);
      if idAt == -1 {
        return Err(IllegalArgument(MissingId));
      }
      var idStart := idAt + |IdPattern|;
      var read := ReadQuoted(json[idStart..]);
      DecodeIdFixedAt(format, json, idAt);
      if read.None? {
        return Err(IllegalArgument(MalformedId));
      }
      r := ReadValues(json, read);
    }

    /** The rest of `jsonToVector`, once the id was read: the values array. */
    method ReadValues(json: string, read: Option<(string, nat)>) returns (r: Result<Vector>)
      requires read.Some?
      ensures r == DecodeReadId(format, json, read)
    {
      var (id, n) := read.value;
      var valuesAt := IndexOf(json, ValuesPattern, 0);
      DecodeReadIdAt(format, json, id, n, valuesAt);
      if valuesAt == -1 {
        return Err(IllegalArgument(MissingValues));
      }
      var valuesStart := valuesAt + |ValuesPattern|;
      var valuesEnd := IndexOf(json, "]", valuesStart);
      DecodeValuesAt(format, json, id, valuesAt, valuesEnd);
      if valuesEnd == -1 {
        return Err(IllegalArgument(MalformedValues));
      }
      var text := json[valuesStart..valuesEnd];
      var values: seq<real> := [];
      if !IsBlank(text) {
        var parsed := ParseParts(SplitOnChar(text, ','));
        if parsed.Err? {
          return Err(parsed.error);
        }
        values := parsed.value;
      }
      r := VectorFrom(Some(id), Some(values));
    }
  }

  /** The corrected decoder of a braced line, once the id marker was searched for. */
  lemma DecodeLineFixedAt(fmt: NumberFormat, json: string, idAt: int)
    requires StartsWith(json, "{") && EndsWith(json, "}")
    requires IndexOf(json, IdPattern, 0) == idAt
    ensures DecodeLineFixed(fmt, json) == DecodeIdFixed(fmt, json, idAt)
  {
  }

  /** The corrected decoder once the id marker was found: the quoted id is read next. */
  lemma DecodeIdFixedAt(fmt: NumberFormat, json: string, idAt: nat)
    requires idAt + |IdPattern| <= |json|
    ensures DecodeIdFixed(fmt, json, idAt) == DecodeReadId(fmt, json, ReadQuoted(json[idAt + |IdPattern|..]))
  {
  }

  /** The corrected decoder once the values marker was searched for. */
  lemma DecodeReadIdAt(fmt: NumberFormat, json: string, id: string, n: nat, valuesAt: int)
    requires IndexOf(json, ValuesPattern, 0) == valuesAt
    ensures DecodeReadId(fmt, json, Some((id, n))) == DecodeValues(fmt, json, id, valuesAt)
  {
  }

  /** The decoder once the closing bracket was searched for. */
  lemma DecodeValuesAt(fmt: NumberFormat, json: string, id: string, valuesAt: nat, valuesEnd: int)
    requires IndexOf(json, "]", valuesAt + |ValuesPattern|) == valuesEnd
    ensures DecodeValues(fmt, json, id, valuesAt) == DecodeValuesEnd(fmt, json, id, valuesAt + |ValuesPattern|, valuesEnd)
  {
  }
}
