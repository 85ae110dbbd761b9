/**
 * The toy text embedder: text is lower-cased, stripped of everything but
 * ASCII letters and whitespace and split into words; every word seen gets
 * the next free index in the vocabulary, so the indices are always exactly
 * 0 .. size-1. The document vector itself (Gaussian word vectors, TF
 * weights, L2 normalisation) is a parameter of the embedder: only its shape
 * is modelled, and the fact that a text without words embeds to zeros.
 */
module TextEmbedding {
  import opened Wrappers
  import opened JavaStrings
  import opened Entities

  const NonPositiveDimension: string := "Vector dimension must be positive"
  const NullText: string := "Text cannot be null"
  const NullId: string := "ID cannot be null"
  const QueryId: string := "query"

  /**
   * Coordinate `i` of the normalised document vector, from the word counts,
   * the vocabulary and the number of tokens.
   */
  type Weigh = (map<string, nat>, map<string, nat>, nat, nat) -> real

  predicate IsAsciiLetter(c: char)
  {
    'a' <= c <= 'z' || 'A' <= c <= 'Z'
  }

  /** `replaceAll("[^a-zA-Z\\s]", "")`: keeps the ASCII letters and the `\s` characters, in order. */
  function KeepLettersAndSpaces(s: string): (r: string)
    ensures |r| <= |s|
    ensures forall i :: 0 <= i < |r| ==> IsAsciiLetter(r[i]) || IsRegexSpace(r[i])
    ensures forall c :: c in r <==> c in s && (IsAsciiLetter(c) || IsRegexSpace(c))
  {
    if s == [] then []
    else (if IsAsciiLetter(s[0]) || IsRegexSpace(s[0]) then [s[0]] else []) + KeepLettersAndSpaces(s[1..])
  }

  /** `preprocessText(text)`: lower-case, keep letters and whitespace, split on whitespace runs. */
  function PreprocessText(text: string): seq<string>
  {
    SplitOnWhitespace(KeepLettersAndSpaces(ToLowerAscii(text)))
  }

  /** Every character of a run occurs in the string. */
  lemma {:induction false} RunsFrom(s: string)
    ensures forall w, c :: w in Runs(s) && c in w ==> c in s
    decreases |s|
  {
    if s != [] {
      if IsRegexSpace(s[0]) {
        RunsFrom(s[1..]);
      } else {
        var n := RunLength(s);
        RunsFrom(s[n..]);
      }
    }
  }

  /** Every piece of `split("\\s+")` is space-free and made of characters of the string. */
  lemma SplitFrom(s: string)
    ensures forall w :: w in SplitOnWhitespace(s) ==> HasNoSpace(w) && forall c :: c in w ==> c in s
  {
    RunsFrom(s);
    if !HasNoSpace(s) {
      var pieces := (if IsRegexSpace(s[0]) then [[]] else []) + Runs(s);
      assert forall w :: w in DropTrailingEmpty(pieces) ==> w in pieces;
    }
  }

  /**
   * Tokens are lower-case ASCII letters only; only empty tokens can appear
   * besides, and a text without letters has no other tokens.
   */
  lemma TokensAreLowerWords(text: string)
    ensures forall w :: w in PreprocessText(text) ==> forall c :: c in w ==> 'a' <= c <= 'z'
    ensures (forall c :: c in text ==> !IsAsciiLetter(c)) ==> forall w :: w in PreprocessText(text) ==> w == []
  {
    var lowered := ToLowerAscii(text);
    var kept := KeepLettersAndSpaces(lowered);
    SplitFrom(kept);
    forall c | c in kept && !IsRegexSpace(c) ensures 'a' <= c <= 'z' && exists i :: 0 <= i < |text| && IsAsciiLetter(text[i]) {
      var i :| 0 <= i < |lowered| && lowered[i] == c;
      assert text[i] in text;
    }
    forall w | w in PreprocessText(text) ensures forall c :: c in w ==> 'a' <= c <= 'z' {
      forall c | c in w ensures 'a' <= c <= 'z' {
        var k :| 0 <= k < |w| && w[k] == c;
      }
    }
    forall w | w in PreprocessText(text) && w != [] ensures exists i :: 0 <= i < |text| && IsAsciiLetter(text[i]) {
      assert w[0] in w;
    }
  }

  /** Deleting characters piecewise. */
  lemma {:induction false} KeepAppend(a: string, b: string)
    ensures KeepLettersAndSpaces(a + b) == KeepLettersAndSpaces(a) + KeepLettersAndSpaces(b)
  {
    if a != [] {
      assert (a + b)[0] == a[0];
      assert (a + b)[1..] == a[1..] + b;
      KeepAppend(a[1..], b);
    } else {
      assert a + b == b;
    }
  }

  lemma LowerAppend(a: string, b: string)
    ensures ToLowerAscii(a + b) == ToLowerAscii(a) + ToLowerAscii(b)
  {
  }

  /** Lower-casing never turns a kept character into a deleted one, or back. */
  lemma KeepLowerChar(c: char)
    ensures KeepLettersAndSpaces([LowerChar(c)]) == ToLowerAscii(if IsAsciiLetter(c) || IsRegexSpace(c) then [c] else [])
  {
  }

  lemma {:induction false} KeepLower(s: string)
    ensures KeepLettersAndSpaces(ToLowerAscii(s)) == ToLowerAscii(KeepLettersAndSpaces(s))
  {
    if s != [] {
      var rest := s[1..];
      KeepLower(rest);
      var c := s[0];
      var h := if IsAsciiLetter(c) || IsRegexSpace(c) then [c] else [];
      assert s == [c] + rest;
      LowerAppend([c], rest);
      KeepAppend([LowerChar(c)], ToLowerAscii(rest));
      KeepLowerChar(c);
      LowerAppend(h, KeepLettersAndSpaces(rest));
    }
  }

  lemma {:induction false} KeepTwice(s: string)
    ensures KeepLettersAndSpaces(KeepLettersAndSpaces(s)) == KeepLettersAndSpaces(s)
  {
    if s != [] {
      var c := s[0];
      var h := if IsAsciiLetter(c) || IsRegexSpace(c) then [c] else [];
      KeepTwice(s[1..]);
      KeepAppend(h, KeepLettersAndSpaces(s[1..]));
      assert KeepLettersAndSpaces(h) == h;
    }
  }

  /**
   * Only ASCII case and the letters and spaces matter: lower-casing the
   * text first, or deleting its other characters first, gives the same
   * tokens (so "Machine Learning!" and "machine learning" agree).
   */
  lemma PreprocessIgnoresCaseAndPunctuation(text: string)
    ensures PreprocessText(ToLowerAscii(text)) == PreprocessText(text)
    ensures PreprocessText(KeepLettersAndSpaces(text)) == PreprocessText(text)
  {
    assert ToLowerAscii(ToLowerAscii(text)) == ToLowerAscii(text);
    KeepLower(KeepLettersAndSpaces(text));
    KeepLower(text);
    KeepTwice(text);
  }

  /** The non-empty tokens, in order. */
  function NonEmpty(words: seq<string>): (r: seq<string>)
    ensures forall w :: w in r <==> w in words && w != []
  {
    if words == [] then []
    else NonEmpty(words[..|words| - 1]) + (if words[|words| - 1] == [] then [] else [words[|words| - 1]])
  }

  /** What `countWords` computes: each non-empty token with its number of occurrences. */
  function WordCounts(words: seq<string>): (m: map<string, nat>)
  {
    map w | w in words && w != [] :: multiset(words)[w]
  }

  /**
   * The counts are exactly the multiset of the non-empty tokens: every
   * non-empty token is counted as often as it occurs, and nothing else.
   */
  lemma {:induction false} WordCountsAreTokens(words: seq<string>)
    ensures forall w :: (if w in WordCounts(words) then WordCounts(words)[w] else 0) == multiset(NonEmpty(words))[w]
  {
    if words != [] {
      var init := words[..|words| - 1];
      var last := words[|words| - 1];
      WordCountsAreTokens(init);
      assert words == init + [last];
      forall w ensures (if w in WordCounts(words) then WordCounts(words)[w] else 0) == multiset(NonEmpty(words))[w] {
        assert multiset(words)[w] == multiset(init)[w] + multiset([last])[w];
        if w == [] {
          assert w !in NonEmpty(words);
        } else if w in words {
          assert w in init || w == last;
          assert multiset(init)[w] == (if w in WordCounts(init) then WordCounts(init)[w] else 0);
        }
      }
    }
  }

  /** `countWords(words)`: one pass over the tokens, skipping the empty ones. */
  method CountWords(words: seq<string>) returns (counts: map<string, nat>)
    ensures counts == WordCounts(words)
  {
    counts := map[];
    var i := 0;
    while i < |words|
      invariant 0 <= i <= |words|
      invariant forall w :: w in counts <==> w in words[..i] && w != []
      invariant forall w :: w in counts ==> counts[w] == multiset(words[..i])[w]
    {
      var word := words[i];
      assert words[..i + 1] == words[..i] + [word];
      if word != [] {
        var previous := if word in counts then counts[word] else 0;
        counts := counts[word := previous + 1];
      }
      i := i + 1;
    }
    assert words[..i] == words;
  }

  /**
   * The vocabulary is dense: `order` lists its words by index, so word
   * `order[i]` has index `i` and every index is below the size.
   */
  ghost predicate Dense(vocabulary: map<string, nat>, order: seq<string>)
  {
    && |order| == |vocabulary|
    && (forall i :: 0 <= i < |order| ==> order[i] in vocabulary && vocabulary[order[i]] == i)
    && (forall w :: w in vocabulary ==> vocabulary[w] < |order| && order[vocabulary[w]] == w)
  }

  /** `now` extends `start` by the words of `learned`, and keeps the indices `start` had. */
  ghost predicate Grew(start: map<string, nat>, now: map<string, nat>, learned: set<string>)
  {
    && now.Keys == start.Keys + learned
    && forall w :: w in start ==> w in now && now[w] == start[w]
  }

  /** One turn of the loop that learns the words of a text. */
  lemma GrewStep(start: map<string, nat>, before: map<string, nat>, after: map<string, nat>,
                 words: set<string>, remaining: set<string>, word: string, index: nat)
    requires Grew(start, before, words - remaining)
    requires word in remaining && remaining <= words
    requires after == if word in before then before else before[word := index]
    ensures Grew(start, after, words - (remaining - {word}))
  {
    var learned := words - (remaining - {word});
    assert learned == (words - remaining) + {word};
    if word in before {
      assert after == before;
    } else {
      assert after.Keys == before.Keys + {word};
    }
  }

  /** A dense vocabulary uses the indices 0 .. size-1, each exactly once. */
  lemma DenseIndices(vocabulary: map<string, nat>, order: seq<string>)
    requires Dense(vocabulary, order)
    ensures forall w :: w in vocabulary ==> vocabulary[w] < |vocabulary|
    ensures forall i :: 0 <= i < |vocabulary| ==> i in vocabulary.Values
    ensures forall u, w :: u in vocabulary && w in vocabulary && u != w ==> vocabulary[u] != vocabulary[w]
  {
    forall i | 0 <= i < |vocabulary| ensures i in vocabulary.Values {
      var w := order[i];
      assert w in vocabulary && vocabulary[w] == i;
    }
  }

  /** The distinct non-empty tokens of a text. */
  function TextWords(text: string): set<string>
  {
    WordCounts(PreprocessText(text)).Keys
  }

  /** A text without ASCII letters has no words. */
  lemma NoLettersNoWords(text: string)
    requires forall c :: c in text ==> !IsAsciiLetter(c)
    ensures TextWords(text) == {}
  {
    TokensAreLowerWords(text);
  }

  class MiniTextEmbedder {
    const vectorDimension: nat
    const weigh: Weigh
    var vocabulary: map<string, nat>
    /** The vocabulary's words in index order. */
    ghost var order: seq<string>

    ghost predicate Valid()
      reads this
    {
      vectorDimension > 0 && Dense(vocabulary, order)
    }

    constructor (vectorDimension: nat, weigh: Weigh)
      requires vectorDimension > 0
      ensures this.vectorDimension == vectorDimension && this.weigh == weigh
      ensures vocabulary == map[]
      ensures Valid()
    {
      this.vectorDimension := vectorDimension;
      this.weigh := weigh;
      vocabulary := map[];
      order := [];
    }

    /** `new MiniTextEmbedder(vectorDimension)`: a dimension of 0 or less is refused. */
    static method New(vectorDimension: int, weigh: Weigh) returns (r: Result<MiniTextEmbedder>)
      ensures vectorDimension <= 0 <==> r.Err?
      ensures r.Err? ==> r.error == IllegalArgument(NonPositiveDimension)
      ensures r.Ok? ==> fresh(r.value) && r.value.vectorDimension == vectorDimension
      ensures r.Ok? ==> r.value.vocabulary == map[] && r.value.Valid()
    {
      if vectorDimension <= 0 {
        return Err(IllegalArgument(NonPositiveDimension));
      }
      var embedder := new MiniTextEmbedder(vectorDimension, weigh);
      r := Ok(embedder);
    }

    /** The document vector: zeros when there is no word, the weighted coordinates otherwise. */
    function DocumentVector(words: seq<string>): (v: seq<real>)
      reads this
      ensures |v| == vectorDimension
      ensures WordCounts(words) == map[] ==> forall i :: 0 <= i < |v| ==> v[i] == 0.0
    {
      var counts := WordCounts(words);
      var known := vocabulary;
      seq(vectorDimension, i requires 0 <= i < vectorDimension =>
        if counts == map[] then 0.0 else weigh(counts, known, |words|, i))
    }

    /**
     * The index part of `getWordVector(word)`: a known word keeps its
     * index, a new one gets the current size.
     */
    method WordIndex(word: string) returns (index: nat)
      requires Valid()
      modifies this
      ensures Valid()
      ensures word in old(vocabulary) ==> vocabulary == old(vocabulary) && order == old(order)
      ensures word !in old(vocabulary) ==>
        vocabulary == old(vocabulary)[word := |old(vocabulary)|] && order == old(order) + [word]
      ensures index == vocabulary[word]
    {
      if word in vocabulary {
        return vocabulary[word];
      }
      index := |vocabulary|;
      vocabulary := vocabulary[word := index];
      order := order + [word];
    }

    /** The vocabulary part of the loop over the counts: each word gets its index, in no particular order. */
    method Learn(words: set<string>)
      requires Valid()
      modifies this
      ensures Valid()
      ensures vocabulary.Keys == old(vocabulary).Keys + words
      ensures forall w :: w in old(vocabulary) ==> vocabulary[w] == old(vocabulary)[w]
    {
      ghost var start := vocabulary;
      var remaining := words;
      while remaining != {}
        invariant Valid()
        invariant remaining <= words
        invariant Grew(start, vocabulary, words - remaining)
        decreases remaining
      {
        var word :| word in remaining;
        ghost var before := vocabulary;
        var _ := WordIndex(word);
        GrewStep(start, before, vocabulary, words, remaining, word, |before|);
        remaining := remaining - {word};
      }
    }

    /**
     * `embedText(text, id)`: a missing text is refused first, then a missing
     * id. Every word of the text joins the vocabulary (in the order the
     * counts are visited, which is not specified); known words keep their
     * index. The vector is then built by `Vector.of`, which refuses a blank
     * id after the vocabulary has grown.
     */
    method EmbedText(text: Option<string>, id: Option<string>) returns (r: Result<Vector>)
      requires Valid()
      modifies this
      ensures Valid()
      ensures text.None? ==> r == Err(IllegalArgument(NullText)) && vocabulary == old(vocabulary)
      ensures text.Some? && id.None? ==> r == Err(IllegalArgument(NullId)) && vocabulary == old(vocabulary)
      ensures forall w :: w in old(vocabulary) ==> w in vocabulary && vocabulary[w] == old(vocabulary)[w]
      ensures text.Some? && id.Some? ==>
        && vocabulary.Keys == old(vocabulary).Keys + TextWords(text.value)
        && |vocabulary| == |old(vocabulary)| + |TextWords(text.value) - old(vocabulary).Keys|
        && r == VectorFrom(id, Some(DocumentVector(PreprocessText(text.value))))
    {
      if text.None? {
        return Err(IllegalArgument(NullText));
      }
      if id.None? {
        return Err(IllegalArgument(NullId));
      }
      var words := PreprocessText(text.value);
      var counts := CountWords(words);
      Learn(counts.Keys);
      var embedding := DocumentVector(words);
      r := VectorFrom(id, Some(embedding));
      VocabularyGrowth(old(vocabulary).Keys, TextWords(text.value));
    }

    /** `embedQuery(text)`: `embedText(text, "query")`, vocabulary growth included. */
    method EmbedQuery(text: Option<string>) returns (r: Result<Vector>)
      requires Valid()
      modifies this
      ensures Valid()
      ensures text.None? <==> r.Err?
      ensures text.None? ==> r == Err(IllegalArgument(NullText)) && vocabulary == old(vocabulary)
      ensures forall w :: w in old(vocabulary) ==> w in vocabulary && vocabulary[w] == old(vocabulary)[w]
      ensures text.Some? ==>
        && vocabulary.Keys == old(vocabulary).Keys + TextWords(text.value)
        && r.value.IdValue() == QueryId
        && r.value.data.values == DocumentVector(PreprocessText(text.value))
    {
      r := EmbedText(text, Some(QueryId));
    }

    /** `getVocabularySize()` */
    function VocabularySize(): (n: nat)
      reads this
      requires Valid()
      ensures n == |order| && n == |vocabulary.Keys|
    {
      |vocabulary|
    }

    /** `getVocabulary()`: a copy of the words. */
    function Vocabulary(): (s: set<string>)
      reads this
      ensures forall w :: w in s <==> w in vocabulary
    {
      vocabulary.Keys
    }
  }

  /** The vocabulary grows by the words it did not already hold. */
  lemma VocabularyGrowth(known: set<string>, words: set<string>)
    ensures |known + words| == |known| + |words - known|
  {
    assert known + words == known + (words - known);
    assert known * (words - known) == {};
  }

  /** A text without letters leaves the vocabulary alone and embeds to the zero vector. */
  method EmbedNoLetters(embedder: MiniTextEmbedder, text: string, id: string) returns (r: Result<Vector>)
    requires embedder.Valid()
    requires forall c :: c in text ==> !IsAsciiLetter(c)
    modifies embedder
    ensures embedder.vocabulary == old(embedder.vocabulary)
    ensures r.Ok? <==> !IsBlank(id)
    ensures r.Ok? ==> r.value.Dimension() == embedder.vectorDimension && forall i :: 0 <= i < |r.value.data.values| ==> r.value.data.values[i] == 0.0
  {
    NoLettersNoWords(text);
    r := embedder.EmbedText(Some(text), Some(id));
  }
}
