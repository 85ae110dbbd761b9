/**
 * The java.lang.String operations the core relies on, written out with the
 * exact JDK semantics the code depends on: `trim`, `indexOf`, literal
 * `replace`, `String.join`, `split` on a literal character and on the
 * regular expression `\s+`, ASCII lower-casing and `Integer.parseInt`.
 */
module JavaStrings {
  import opened Wrappers

  const MinInt: int := -0x8000_0000
  const MaxInt: int := 0x7FFF_FFFF

  // ---------------------------------------------------------------- trim

  /** `trim()` strips every leading character whose code is at most U+0020. */
  function TrimStart(s: string): (r: string)
    ensures |r| <= |s| && r == s[|s| - |r|..]
    ensures forall i :: 0 <= i < |s| - |r| ==> s[i] <= ' '
    ensures r != [] ==> r[0] > ' '
  {
    if s != [] && s[0] <= ' ' then TrimStart(s[1..]) else s
  }

  /** ... and every trailing one. */
  function TrimEnd(s: string): (r: string)
    ensures |r| <= |s| && r == s[..|r|]
    ensures forall i :: |r| <= i < |s| ==> s[i] <= ' '
    ensures r != [] ==> r[|r| - 1] > ' '
  {
    if s != [] && s[|s| - 1] <= ' ' then TrimEnd(s[..|s| - 1]) else s
  }

  function Trim(s: string): string
  {
    TrimEnd(TrimStart(s))
  }

  /** `s.trim().isEmpty()` */
  predicate IsBlank(s: string)
  {
    Trim(s) == []
  }

  /** A string is blank exactly when every character is at most U+0020. */
  lemma BlankIff(s: string)
    ensures IsBlank(s) <==> forall i :: 0 <= i < |s| ==> s[i] <= ' '
  {
    var t := TrimStart(s);
    if t != [] {
      assert t[0] > ' ';
      assert TrimEnd(t) != [];
      assert s[|s| - |t|] == t[0];
    }
  }

  /** A string whose first and last characters are above U+0020 is its own trim. */
  lemma TrimUnchanged(s: string)
    requires s != [] && s[0] > ' ' && s[|s| - 1] > ' '
    ensures Trim(s) == s
  {
  }

  // ------------------------------------------------------- prefix/indexOf

  predicate StartsWith(s: string, prefix: string)
  {
    |prefix| <= |s| && s[..|prefix|] == prefix
  }

  predicate EndsWith(s: string, suffix: string)
  {
    |suffix| <= |s| && s[|s| - |suffix|..] == suffix
  }

  /** `pat` occurs in `s` starting at index `j`. */
  predicate OccursAt(s: string, pat: string, j: int)
  {
    0 <= j && j + |pat| <= |s| && s[j..j + |pat|] == pat
  }

  /**
   * `s.indexOf(pat, from)`: the first index at or after `from` where `pat`
   * occurs, or -1 when there is none.
   */
  function IndexOf(s: string, pat: string, from: nat): (k: int)
    requires pat != []
    ensures k == -1 || (from <= k && k + |pat| <= |s|)
    decreases |s| - from
  {
    if from + |pat| > |s| then -1
    else if s[from..from + |pat|] == pat then from
    else IndexOf(s, pat, from + 1)
  }

  /** `indexOf` returns the first occurrence at or after `from`, or -1 when there is none. */
  lemma {:induction false} IndexOfSpec(s: string, pat: string, from: nat)
    requires pat != []
    ensures var k := IndexOf(s, pat, from);
      && (k == -1 || OccursAt(s, pat, k))
      && forall j :: from <= j && (k == -1 || j < k) ==> !OccursAt(s, pat, j)
    decreases |s| - from
  {
    if from + |pat| <= |s| && s[from..from + |pat|] != pat {
      IndexOfSpec(s, pat, from + 1);
    }
  }

  /** `indexOf` finds an occurrence when none comes before it. */
  lemma IndexOfFirst(s: string, pat: string, from: nat, k: nat)
    requires pat != [] && from <= k && OccursAt(s, pat, k)
    requires forall j :: from <= j < k ==> !OccursAt(s, pat, j)
    ensures IndexOf(s, pat, from) == k
  {
    IndexOfSpec(s, pat, from);
  }

  /** `s.indexOf(c, from)` for a single character. */
  lemma IndexOfChar(s: string, c: char, from: nat, k: nat)
    requires from <= k < |s| && s[k] == c
    requires forall j :: from <= j < k ==> s[j] != c
    ensures IndexOf(s, [c], from) == k
    decreases k - from
  {
    if from < k {
      assert s[from..from + 1] == [s[from]];
      IndexOfChar(s, c, from + 1, k);
    } else {
      assert s[from..from + 1] == [c];
    }
  }

  /** Searching for `c` from the start of `mid` stops at the end of `mid`, where `suf` starts with `c`. */
  lemma IndexOfPieceEnd(pre: string, mid: string, suf: string, c: char, at: nat)
    requires at == |pre|
    requires c !in mid && suf != [] && suf[0] == c
    ensures IndexOf(pre + mid + suf, [c], at) == at + |mid|
  {
    var s := pre + mid + suf;
    forall j | at <= j < at + |mid| ensures s[j] != c {
      assert s[j] == mid[j - at];
    }
    IndexOfChar(s, c, at, at + |mid|);
  }

  /** The middle piece of a concatenation, cut out again. */
  lemma SliceMiddle(pre: string, mid: string, suf: string, at: nat)
    requires at == |pre|
    ensures (pre + mid + suf)[at..at + |mid|] == mid
  {
  }

  /** `s.indexOf(c, from)` is -1 when `c` does not occur from `from` on. */
  lemma IndexOfCharAbsent(s: string, c: char, from: nat)
    requires forall j :: from <= j < |s| ==> s[j] != c
    ensures IndexOf(s, [c], from) == -1
    decreases |s| - from
  {
    if from < |s| {
      assert s[from..from + 1] == [s[from]];
      IndexOfCharAbsent(s, c, from + 1);
    }
  }

  // ------------------------------------------------------------- replace

  /**
   * `s.replace(pat, rep)` for a non-empty literal `pat`: occurrences are
   * replaced left to right without overlapping.
   */
  function Replace(s: string, pat: string, rep: string): string
    requires pat != []
    decreases |s|
  {
    if |s| < |pat| then s
    else if s[..|pat|] == pat then rep + Replace(s[|pat|..], pat, rep)
    else [s[0]] + Replace(s[1..], pat, rep)
  }

  /** Where `pat` does not occur, `replace` changes nothing. */
  lemma {:induction false} ReplaceAbsent(s: string, pat: string, rep: string)
    requires pat != []
    requires forall j :: !OccursAt(s, pat, j)
    ensures Replace(s, pat, rep) == s
    decreases |s|
  {
    if |s| >= |pat| {
      assert !OccursAt(s, pat, 0);
      forall j ensures !OccursAt(s[1..], pat, j) {
        if OccursAt(s[1..], pat, j) {
          assert s[1..][j..j + |pat|] == s[j + 1..j + 1 + |pat|];
          assert OccursAt(s, pat, j + 1);
        }
      }
      ReplaceAbsent(s[1..], pat, rep);
      assert s == [s[0]] + s[1..];
    }
  }

  // ----------------------------------------------------------- join/split

  /** `String.join(sep, parts)` */
  function Join(parts: seq<string>, sep: string): string
  {
    if |parts| == 0 then []
    else if |parts| == 1 then parts[0]
    else parts[0] + sep + Join(parts[1..], sep)
  }

  /** Every piece between occurrences of `c`, empty pieces included. */
  function SplitAt(s: string, c: char): (pieces: seq<string>)
    ensures |pieces| >= 1
    ensures forall i :: 0 <= i < |pieces| ==> c !in pieces[i]
    ensures Join(pieces, [c]) == s
  {
    if s == [] then [[]]
    else
      var rest := SplitAt(s[1..], c);
      if s[0] == c then
        assert Join([[]] + rest, [c]) == [c] + Join(rest, [c]) by {
          assert ([[]] + rest)[1..] == rest;
        }
        [[]] + rest
      else
        var r := [[s[0]] + rest[0]] + rest[1..];
        assert Join(r, [c]) == s by {
          if |rest| > 1 {
            assert r[1..] == rest[1..];
            assert Join(rest, [c]) == rest[0] + [c] + Join(rest[1..], [c]);
          }
        }
        r
  }

  /** A piece without `c` followed by `c` splits off as one piece. */
  lemma {:induction false} SplitAtPiece(p: string, c: char, rest: string)
    requires c !in p
    ensures SplitAt(p + [c] + rest, c) == [p] + SplitAt(rest, c)
    ensures SplitAt(p, c) == [p]
  {
    if p == [] {
      assert ([c] + rest)[1..] == rest;
      assert p + [c] + rest == [c] + rest;
    } else {
      SplitAtPiece(p[1..], c, rest);
      assert (p + [c] + rest)[1..] == p[1..] + [c] + rest;
      assert [p[0]] + p[1..] == p;
    }
  }

  /** Splitting a join of pieces without the separator gives the pieces back. */
  lemma {:induction false} SplitAtJoin(parts: seq<string>, c: char)
    requires |parts| >= 1
    requires forall i :: 0 <= i < |parts| ==> c !in parts[i]
    ensures SplitAt(Join(parts, [c]), c) == parts
  {
    if |parts| == 1 {
      SplitAtPiece(parts[0], c, []);
    } else {
      SplitAtJoin(parts[1..], c);
      SplitAtPiece(parts[0], c, Join(parts[1..], [c]));
      assert [parts[0]] + parts[1..] == parts;
    }
  }

  lemma {:induction false} JoinNoSep(parts: seq<string>, c: char)
    requires |parts| >= 1
    requires forall i :: 0 <= i < |parts| ==> c !in parts[i]
    ensures c in Join(parts, [c]) <==> |parts| > 1
  {
    if |parts| > 1 {
      assert Join(parts, [c])[|parts[0]|] == c;
    }
  }

  /** Drops the trailing empty strings, as `split` does when no limit is given. */
  function DropTrailingEmpty(parts: seq<string>): (r: seq<string>)
    ensures |r| <= |parts| && r == parts[..|r|]
    ensures r != [] ==> r[|r| - 1] != []
    ensures forall i :: |r| <= i < |parts| ==> parts[i] == []
  {
    if parts != [] && parts[|parts| - 1] == [] then DropTrailingEmpty(parts[..|parts| - 1]) else parts
  }

  /**
   * `s.split(c)` for a literal character: when `c` does not occur the result
   * is `[s]`; otherwise every piece is kept (a leading or interior empty piece
   * too) except the trailing empty ones.
   */
  function SplitOnChar(s: string, c: char): seq<string>
  {
    if c !in s then [s] else DropTrailingEmpty(SplitAt(s, c))
  }

  /**
   * `split(",")` of a join of non-empty, comma-free pieces gives the pieces
   * back.
   */
  lemma SplitOnCharJoin(parts: seq<string>, c: char)
    requires |parts| >= 1
    requires forall i :: 0 <= i < |parts| ==> parts[i] != [] && c !in parts[i]
    ensures SplitOnChar(Join(parts, [c]), c) == parts
  {
    JoinNoSep(parts, c);
    SplitAtJoin(parts, c);
  }

  /** A character in no piece and not in the separator is not in the join. */
  lemma {:induction false} JoinExcludes(parts: seq<string>, sep: string, ch: char)
    requires ch !in sep
    requires forall i :: 0 <= i < |parts| ==> ch !in parts[i]
    ensures ch !in Join(parts, sep)
  {
    if |parts| > 1 {
      JoinExcludes(parts[1..], sep, ch);
    }
  }

  /** Adding one more piece to a join. */
  lemma {:induction false} JoinAppend(parts: seq<string>, p: string, sep: string)
    ensures Join(parts + [p], sep) == if parts == [] then p else Join(parts, sep) + sep + p
  {
    if |parts| > 1 {
      JoinAppend(parts[1..], p, sep);
      assert (parts + [p])[1..] == parts[1..] + [p];
    } else if |parts| == 1 {
      assert (parts + [p])[1..] == [p];
    }
  }

  /** The characters `\s` matches in a Java regular expression. */
  predicate IsRegexSpace(ch: char)
  {
    ch == ' ' || ch == '\t' || ch == '\n' || ch == '\U{B}' || ch == '\U{C}' || ch == '\r'
  }

  predicate HasNoSpace(s: string)
  {
    forall i :: 0 <= i < |s| ==> !IsRegexSpace(s[i])
  }

  /** Length of the leading run of non-space characters. */
  function RunLength(s: string): (n: nat)
    ensures n <= |s|
    ensures HasNoSpace(s[..n])
    ensures n < |s| ==> IsRegexSpace(s[n])
  {
    if s == [] || IsRegexSpace(s[0]) then 0
    else
      var n := 1 + RunLength(s[1..]);
      assert s[..n] == [s[0]] + s[1..][..n - 1];
      n
  }

  /** The maximal runs of non-space characters, in order. */
  function Runs(s: string): (r: seq<string>)
    ensures forall i :: 0 <= i < |r| ==> r[i] != [] && HasNoSpace(r[i])
    decreases |s|
  {
    if s == [] then []
    else if IsRegexSpace(s[0]) then Runs(s[1..])
    else
      var n := RunLength(s);
      [s[..n]] + Runs(s[n..])
  }

  /** The characters of `s` that are not spaces, in order. */
  function WithoutSpaces(s: string): string
  {
    if s == [] then []
    else (if IsRegexSpace(s[0]) then [] else [s[0]]) + WithoutSpaces(s[1..])
  }

  function Concat(parts: seq<string>): string
  {
    if parts == [] then [] else parts[0] + Concat(parts[1..])
  }

  lemma WithoutSpacesAppend(a: string, b: string)
    ensures WithoutSpaces(a + b) == WithoutSpaces(a) + WithoutSpaces(b)
  {
    if a != [] {
      assert (a + b)[0] == a[0];
      assert (a + b)[1..] == a[1..] + b;
      WithoutSpacesAppend(a[1..], b);
      var h := if IsRegexSpace(a[0]) then [] else [a[0]];
      calc {
        WithoutSpaces(a + b);
        h + WithoutSpaces(a[1..] + b);
        h + (WithoutSpaces(a[1..]) + WithoutSpaces(b));
        (h + WithoutSpaces(a[1..])) + WithoutSpaces(b);
      }
    } else {
      assert a + b == b;
    }
  }

  lemma WithoutSpacesNone(s: string)
    requires HasNoSpace(s)
    ensures WithoutSpaces(s) == s
  {
    if s != [] {
      WithoutSpacesNone(s[1..]);
    }
  }

  /** The runs, glued together, are the string with its spaces removed. */
  lemma {:induction false} RunsConcat(s: string)
    ensures Concat(Runs(s)) == WithoutSpaces(s)
    decreases |s|
  {
    if s != [] {
      if IsRegexSpace(s[0]) {
        RunsConcat(s[1..]);
      } else {
        var n := RunLength(s);
        RunsConcat(s[n..]);
        assert s == s[..n] + s[n..];
        WithoutSpacesAppend(s[..n], s[n..]);
        WithoutSpacesNone(s[..n]);
        assert ([s[..n]] + Runs(s[n..]))[1..] == Runs(s[n..]);
      }
    }
  }

  /**
   * `s.split("\\s+")`: without any space the result is `[s]`; otherwise the
   * pieces between maximal space runs, with an empty leading piece when `s`
   * starts with a space, and with trailing empty pieces dropped.
   */
  function SplitOnWhitespace(s: string): seq<string>
  {
    if HasNoSpace(s) then [s]
    else DropTrailingEmpty((if IsRegexSpace(s[0]) then [[]] else []) + Runs(s))
  }

  /**
   * For a string with no leading space, splitting on `\s+` gives exactly the
   * maximal non-space runs; in particular every token is non-empty.
   */
  lemma SplitOnWhitespaceRuns(s: string)
    requires s != [] && !IsRegexSpace(s[0])
    ensures SplitOnWhitespace(s) == Runs(s)
  {
    var n := RunLength(s);
    if HasNoSpace(s) {
      assert n == |s|;
      assert Runs(s) == [s[..n]] + Runs(s[n..]);
      assert s[n..] == [];
      assert s[..n] == s;
    } else {
      var r := Runs(s);
      assert r == [s[..n]] + Runs(s[n..]);
      assert r[|r| - 1] != [];
      assert [] + r == r;
      assert DropTrailingEmpty(r) == r;
    }
  }

  // ------------------------------------------------------------- case/int

  /** `toLowerCase()` restricted to ASCII letters. */
  function LowerChar(c: char): (r: char)
    ensures 'A' <= c <= 'Z' ==> 'a' <= r <= 'z'
    ensures !('A' <= c <= 'Z') ==> r == c
  {
    if 'A' <= c <= 'Z' then (c as int - 'A' as int + 'a' as int) as char else c
  }

  function ToLowerAscii(s: string): (r: string)
    ensures |r| == |s|
    ensures forall i :: 0 <= i < |s| ==> r[i] == LowerChar(s[i])
  {
    seq(|s|, i requires 0 <= i < |s| => LowerChar(s[i]))
  }

  predicate IsAsciiDigit(c: char)
  {
    '0' <= c <= '9'
  }

  function DigitsValue(ds: string): nat
    requires forall i :: 0 <= i < |ds| ==> IsAsciiDigit(ds[i])
  {
    if ds == [] then 0
    else
      assert IsAsciiDigit(ds[|ds| - 1]);
      10 * DigitsValue(ds[..|ds| - 1]) + (ds[|ds| - 1] as int - '0' as int)
  }

  /**
   * `Integer.parseInt(s)`: an optional sign followed by at least one decimal
   * digit, with a value that fits in 32 bits; anything else is None (Java
   * throws NumberFormatException).
   */
  function ParseInt(s: string): (r: Option<int>)
    ensures r.Some? ==> MinInt <= r.value <= MaxInt
    ensures r.Some? ==> s != [] && (IsAsciiDigit(s[0]) || s[0] == '-' || s[0] == '+')
  {
    if s == [] then None
    else
      var body := if s[0] == '-' || s[0] == '+' then s[1..] else s;
      if body == [] || !(forall i :: 0 <= i < |body| ==> IsAsciiDigit(body[i])) then None
      else
        var v: int := if s[0] == '-' then -(DigitsValue(body) as int) else DigitsValue(body);
        if MinInt <= v <= MaxInt then Some(v) else None
  }
}
