# VecMiniDB in Dafny

A model of the core of VecMiniDB, a small vector database written in Java.
It stores vectors (an identifier plus a non-empty list of doubles) and
answers "which stored vectors are most similar to this one" queries.

The model covers these parts:

- **Value types.** `VectorId` (non-blank), `VectorData` (non-empty values) and
  the `Vector` entity, each with the checks of its constructor
  (`ValueObjects`, `Entities`). A similarity metric is `Calculator`, a name and
  a scoring function; it refuses vectors of different dimensions (`Similarity`).
- **`FlatVectorIndex`**, the in-memory map from id text to vector (`FlatIndex`).
- **The write-ahead log.** The JSON line codec (`WalCodec`) and the
  `WriteAheadLog` class over an explicit log file (`Wal`).
- **`FileVectorRepository`.** The vectors, the snapshot file, the log and the
  index. Startup loads the snapshot and then replays the log. Save, delete,
  lookups and checkpoint are modelled (`FileRepository`).
- **The two ranking engines.**
  - `InMemoryVectorQuery` and its `Builder` (`MemoryQuery`). This engine skips
    candidates it cannot compare, and a limit of 0 means "everything".
  - `VectorSimilarityService` (`SimilarityService`). This engine fails on any
    candidate it cannot compare, and a limit of 0 means "nothing".
  - Both share the stable descending sort, the threshold filter and the
    limit (`Ranking`).
- **The fluent `VectorQueryBuilder`** over the similarity use case
  (`QueryBuilding`).
- **`MiniTextEmbedder`** (`TextEmbedding`). It covers text preprocessing, word
  counting and the vocabulary, which grows as texts are embedded. The numeric
  weighting is left as a parameter.
- **The REPL front end** (`Repl`). It covers command tokenising (with quotes),
  command dispatch and its aliases, argument extraction for `insert` and
  `query`, and display truncation.

Java `null` arguments are `Option` values. Exceptions are `Err` results (or
`Fail` outcomes) carrying the source's messages. Files are explicit state: the
log is `Option<seq<string>>` (absent or its lines) and the snapshot is
`Missing | Unreadable | Stored(map)`. Restarting the repository is a pure
function of those two files. Iteration order of Java hash maps and sets is
left open:
- methods choose an arbitrary element;
- the pure service functions take the listing of `findAll()` as a parameter
  (`all`).

## Model

| member | source | states |
|---|---|---|
| ValueObjects.NonBlankIff | src/main/java/com/dortegau/vecminidb/domain/valueobjects/VectorId.java:14-16 | An id passes the emptiness check exactly when it has a character above U+0020 (what `trim().isEmpty()` rejects). |
| ValueObjects.NewVectorId | src/main/java/com/dortegau/vecminidb/domain/valueobjects/VectorId.java:10-21 | A missing id is refused as null and a blank one as empty. An id is accepted exactly when it holds a non-blank character, and then it is kept as given. |
| ValueObjects.CheckVectorData | src/main/java/com/dortegau/vecminidb/domain/valueobjects/VectorData.java:11-21 | Missing values are refused as null and an empty list as empty. Any other list is accepted unchanged. |
| ValueObjects.NewVectorData | src/main/java/com/dortegau/vecminidb/domain/valueobjects/VectorData.java:11-21 | The same checks on an array argument. The stored values are a copy of the array's contents. |
| ValueObjects.Values | src/main/java/com/dortegau/vecminidb/domain/valueobjects/VectorData.java:23-26 | `values()` returns a fresh array holding exactly the stored values (defensive copy). |
| ValueObjects.Dimension | src/main/java/com/dortegau/vecminidb/domain/valueobjects/VectorData.java:28-30 | The dimension is the number of values and is at least 1. |
| Entities.Vector.Dimension | src/main/java/com/dortegau/vecminidb/domain/entities/Vector.java:50-52 | A vector's dimension is its data's length, at least 1. |
| Entities.Vector.Values | src/main/java/com/dortegau/vecminidb/domain/entities/Vector.java:59-61 | A fresh array with the vector's values, of length `getDimension()`. |
| Entities.Vector.IdValue | src/main/java/com/dortegau/vecminidb/domain/entities/Vector.java:68-70 | The id text of the vector. |
| Entities.VectorFrom | src/main/java/com/dortegau/vecminidb/domain/entities/Vector.java:34-43 | `Vector.of` checks, in this order: null id, null values, blank id, empty values. It succeeds exactly when none applies, and keeps id and values. |
| Entities.VectorFromParts | src/main/java/com/dortegau/vecminidb/domain/entities/Vector.java:34-43 | Rebuilding any vector from its id text and values gives back the same vector. |
| Entities.Of | src/main/java/com/dortegau/vecminidb/domain/entities/Vector.java:34-43 | The array form of `Vector.of` agrees with `VectorFrom` on the array's contents. |
| Similarity.Calculate | src/main/java/com/dortegau/vecminidb/domain/services/SimilarityCalculator.java:12-20 | Calculation fails exactly when the two dimensions differ, with the dimension error. Otherwise it is the metric's score of the two value lists. |
| Ranking.NewSimilarityResult | src/main/java/com/dortegau/vecminidb/application/ports/in/VectorSimilarityUseCase.java:16-22 | A result needs a vector (a missing one is refused). Any score, negative included, is kept. |
| Ranking.VectorsOf | src/main/java/com/dortegau/vecminidb/application/usecases/VectorSimilarityService.java:41-44 | Mapping results to their vectors keeps the length and the order. |
| Ranking.InsertPermutes | src/main/java/com/dortegau/vecminidb/infrastructure/adapters/in/InMemoryVectorQuery.java:80 | Inserting one result into a ranking adds exactly that result (multiset). |
| Ranking.SortDescPermutes | src/main/java/com/dortegau/vecminidb/infrastructure/adapters/in/InMemoryVectorQuery.java:80 | The descending sort is a permutation of its input. |
| Ranking.SortDescSorted | src/main/java/com/dortegau/vecminidb/infrastructure/adapters/in/InMemoryVectorQuery.java:80 | The sort's output is in non-increasing order of score. |
| Ranking.SortDescStable | src/main/java/com/dortegau/vecminidb/infrastructure/adapters/in/InMemoryVectorQuery.java:80 | The sort is stable: for every score, the results with that score keep their input order (`List.sort` is a stable merge sort). |
| Ranking.SortDescOfSorted | src/main/java/com/dortegau/vecminidb/application/usecases/VectorSimilarityService.java:60 | Sorting an already sorted ranking changes nothing. |
| Ranking.SortInPlace | src/main/java/com/dortegau/vecminidb/infrastructure/adapters/in/InMemoryVectorQuery.java:80 | The in-place sort of the results array leaves exactly the descending stable sort of its old contents. |
| Ranking.InsertInPlace | src/main/java/com/dortegau/vecminidb/infrastructure/adapters/in/InMemoryVectorQuery.java:80 | One insertion step turns a sorted prefix plus the next element into the insertion of that element. The rest of the array is unchanged. |
| Ranking.SortDescDistinct | src/main/java/com/dortegau/vecminidb/application/usecases/VectorSimilarityService.java:56-60 | Sorting results whose vectors are pairwise distinct keeps them pairwise distinct. |
| Ranking.AtLeast | src/main/java/com/dortegau/vecminidb/application/usecases/VectorSimilarityService.java:79 | Every kept result reaches the threshold (inclusive), and the filter never lengthens the list. |
| Ranking.AtLeastMembers | src/main/java/com/dortegau/vecminidb/application/usecases/VectorSimilarityService.java:79 | The filter keeps exactly the results whose score reaches the threshold (inclusive). |
| Ranking.AtLeastPrefix | src/main/java/com/dortegau/vecminidb/infrastructure/adapters/in/InMemoryVectorQuery.java:102-107 | On a sorted ranking, the kept results are a leading prefix, and everything after it is below the threshold. |
| Ranking.Take | src/main/java/com/dortegau/vecminidb/application/usecases/VectorSimilarityService.java:61 | `limit(n)` keeps the first `min(n, size)` results. |
| MemoryQuery.Scored | src/main/java/com/dortegau/vecminidb/infrastructure/adapters/in/InMemoryVectorQuery.java:66-77 | Scoring never yields more results than there are candidates: candidates that cannot be compared are skipped. |
| MemoryQuery.ScoredSound | src/main/java/com/dortegau/vecminidb/infrastructure/adapters/in/InMemoryVectorQuery.java:66-77 | Every scored result is a candidate, paired with the score the calculator computes for it. |
| MemoryQuery.ScoredComplete | src/main/java/com/dortegau/vecminidb/infrastructure/adapters/in/InMemoryVectorQuery.java:66-77 | Every candidate of the query's dimension is scored. |
| MemoryQuery.ScoredAll | src/main/java/com/dortegau/vecminidb/infrastructure/adapters/in/InMemoryVectorQuery.java:66-77 | When every candidate is comparable, the scored results list exactly the candidates, in order. |
| MemoryQuery.RankedSpec | src/main/java/com/dortegau/vecminidb/infrastructure/adapters/in/InMemoryVectorQuery.java:79-82 | The ranking is sorted. It is a prefix of the sorted scores, of length `n` when the limit is 0 and `min(limit, n)` otherwise. With limit 0 it is a permutation of all scores. |
| MemoryQuery.ThresholdSpec | src/main/java/com/dortegau/vecminidb/infrastructure/adapters/in/InMemoryVectorQuery.java:102-109 | Threshold results all reach the threshold and are a leading prefix of the unlimited ranking. With limit 0, every ranked result that reaches the threshold is returned. |
| MemoryQuery.InMemoryVectorQuery.constructor | src/main/java/com/dortegau/vecminidb/infrastructure/adapters/in/InMemoryVectorQuery.java:36-37 | Keeps a copy of the candidate list and the calculator. |
| MemoryQuery.InMemoryVectorQuery.New | src/main/java/com/dortegau/vecminidb/infrastructure/adapters/in/InMemoryVectorQuery.java:28-38 | A null index is refused first, then a null calculator. Otherwise it builds an engine over exactly these arguments. |
| MemoryQuery.InMemoryVectorQuery.NewWithCosine | src/main/java/com/dortegau/vecminidb/infrastructure/adapters/in/InMemoryVectorQuery.java:46-48 | The one-argument constructor uses the cosine calculator and refuses only a null index. |
| MemoryQuery.InMemoryVectorQuery.FindSimilar | src/main/java/com/dortegau/vecminidb/infrastructure/adapters/in/InMemoryVectorQuery.java:58-83 | A null query is refused, then a negative limit. Otherwise the result is the ranking of the comparable candidates (see `RankedSpec`). |
| MemoryQuery.InMemoryVectorQuery.FindSimilarWithThreshold | src/main/java/com/dortegau/vecminidb/infrastructure/adapters/in/InMemoryVectorQuery.java:94-110 | Same refusals. Otherwise it filters the unlimited ranking by the threshold, then applies the limit rule (0 = all). |
| MemoryQuery.InMemoryVectorQuery.FindSimilarVectors | src/main/java/com/dortegau/vecminidb/infrastructure/adapters/in/InMemoryVectorQuery.java:120-124 | The vectors of `findSimilar`, in the same order, with the same refusals. |
| MemoryQuery.InMemoryVectorQuery.GetStats | src/main/java/com/dortegau/vecminidb/infrastructure/adapters/in/InMemoryVectorQuery.java:131-133 | The statistics report the number of candidates and the calculator's name. |
| MemoryQuery.Builder.constructor | src/main/java/com/dortegau/vecminidb/infrastructure/adapters/in/InMemoryVectorQuery.java:167-169 | A new builder has no vectors and the cosine calculator. |
| MemoryQuery.Builder.WithVectors | src/main/java/com/dortegau/vecminidb/infrastructure/adapters/in/InMemoryVectorQuery.java:171-174 | Sets the vectors (null included), leaves the calculator, and returns the same builder. |
| MemoryQuery.Builder.WithSimilarityCalculator | src/main/java/com/dortegau/vecminidb/infrastructure/adapters/in/InMemoryVectorQuery.java:176-179 | Sets the calculator (null included), leaves the vectors, and returns the same builder. |
| MemoryQuery.Builder.Build | src/main/java/com/dortegau/vecminidb/infrastructure/adapters/in/InMemoryVectorQuery.java:181-186 | Unset vectors give an illegal-state error. A null calculator is refused by the constructor. Otherwise the engine holds exactly the builder's settings. |
| SimilarityService.ScoreAll | src/main/java/com/dortegau/vecminidb/application/usecases/VectorSimilarityService.java:58-59 | Scoring every listed vector succeeds exactly when all are comparable with the query, and otherwise fails with the dimension error. Each result is its vector's score, in listing order. |
| SimilarityService.VectorSimilarityService.FindSimilarVectorsWithScores | src/main/java/com/dortegau/vecminidb/application/usecases/VectorSimilarityService.java:48-63 | A null query is refused, then a negative limit. One non-comparable stored vector fails the whole query. |
| SimilarityService.VectorSimilarityService.FindSimilarVectors | src/main/java/com/dortegau/vecminidb/application/usecases/VectorSimilarityService.java:33-45 | Fails exactly when the scored query fails, with the same error. Otherwise it is the scored query's vectors, in order. |
| SimilarityService.VectorSimilarityService.FindSimilarVectorsWithThreshold | src/main/java/com/dortegau/vecminidb/application/usecases/VectorSimilarityService.java:66-82 | Refuses a null query, then a negative limit, then a threshold outside [0.0, 1.0]. Every returned result reaches the threshold. |
| SimilarityService.NewService | src/main/java/com/dortegau/vecminidb/application/usecases/VectorSimilarityService.java:20-30 | A null repository is refused first, then a null calculator. Otherwise the service holds exactly the two. |
| SimilarityService.WithScoresSpec | src/main/java/com/dortegau/vecminidb/application/usecases/VectorSimilarityService.java:56-62 | The query succeeds iff every stored vector is comparable. It then returns `min(limit, n)` results, sorted: a prefix of a permutation of all scores, each a stored vector with its computed score. |
| SimilarityService.LimitZero | src/main/java/com/dortegau/vecminidb/application/usecases/VectorSimilarityService.java:58-62 | With limit 0 the service returns nothing when all vectors are comparable, and still fails when one is not. |
| SimilarityService.ResultsFromAll | src/main/java/com/dortegau/vecminidb/application/usecases/VectorSimilarityService.java:56-62 | Over a listing of the `findAll()` set, every result's vector is in the set and no vector appears twice. The listing is a parameter; that it enumerates the repository's vectors is assumed, not derived. |
| SimilarityService.ThresholdSpec | src/main/java/com/dortegau/vecminidb/application/usecases/VectorSimilarityService.java:77-81 | The threshold query:<br>- succeeds exactly when the full ranking does;<br>- returns a leading prefix of that ranking, of at most `limit` results;<br>- when it returns fewer than `limit`, includes every ranked result that reaches the threshold. |
| SimilarityService.ScoredAgrees | src/main/java/com/dortegau/vecminidb/infrastructure/adapters/in/InMemoryVectorQuery.java:66-77 | When all candidates are comparable, the two engines score the same results in the same order. |
| SimilarityService.EnginesCompared | src/main/java/com/dortegau/vecminidb/application/usecases/VectorSimilarityService.java:48-63 | On comparable candidates the two engines agree for every positive limit. With limit 0 over a non-empty listing, the service returns nothing while the in-memory engine returns every candidate. |
| QueryBuilding.VectorQueryBuilder.New | src/main/java/com/dortegau/vecminidb/infrastructure/adapters/in/VectorQueryBuilder.java:22-27 | A null use case is refused. Otherwise the builder holds it. |
| QueryBuilding.VectorQueryBuilder.Select | src/main/java/com/dortegau/vecminidb/infrastructure/adapters/in/VectorQueryBuilder.java:34-36 | Each `select()` is a new query with no query vector, limit 10 and threshold 0.0. |
| QueryBuilding.QueryBuilder.SimilarTo | src/main/java/com/dortegau/vecminidb/infrastructure/adapters/in/VectorQueryBuilder.java:58-64 | A null vector is refused and leaves the query unchanged. Otherwise it sets the vector and returns the same builder. The other settings are kept either way. |
| QueryBuilding.QueryBuilder.Limit | src/main/java/com/dortegau/vecminidb/infrastructure/adapters/in/VectorQueryBuilder.java:73-79 | A negative limit is refused and the old one kept. Otherwise it sets the limit and returns the same builder. Valid settings stay valid. |
| QueryBuilding.QueryBuilder.MinSimilarity | src/main/java/com/dortegau/vecminidb/infrastructure/adapters/in/VectorQueryBuilder.java:88-94 | A threshold is accepted exactly when it lies in [0.0, 1.0]. A refused one leaves the old one in place. |
| QueryBuilding.QueryBuilder.Execute | src/main/java/com/dortegau/vecminidb/infrastructure/adapters/in/VectorQueryBuilder.java:102-108 | No query vector gives an illegal-state error. Otherwise it runs exactly the use case's threshold query with the current settings. On settings the setters produced, that query fails only on a stored vector of another dimension. |
| QueryBuilding.QueryBuilder.ExecuteVectors | src/main/java/com/dortegau/vecminidb/infrastructure/adapters/in/VectorQueryBuilder.java:116-124 | The vectors of `execute()`, in order, with the same errors. |
| TextEmbedding.KeepLettersAndSpaces | src/main/java/com/dortegau/vecminidb/infrastructure/adapters/in/MiniTextEmbedder.java:114 | The filter keeps exactly the ASCII letters and regex whitespace of the text, and nothing else. |
| TextEmbedding.TokensAreLowerWords | src/main/java/com/dortegau/vecminidb/infrastructure/adapters/in/MiniTextEmbedder.java:112-116 | Every token of a preprocessed text consists of the letters a–z. A text without ASCII letters yields only empty tokens. |
| TextEmbedding.PreprocessIgnoresCaseAndPunctuation | src/main/java/com/dortegau/vecminidb/infrastructure/adapters/in/MiniTextEmbedder.java:112-116 | Preprocessing gives the same tokens after lower-casing the text or removing its punctuation first. |
| TextEmbedding.WordCountsAreTokens | src/main/java/com/dortegau/vecminidb/infrastructure/adapters/in/MiniTextEmbedder.java:118-126 | Each word's count is its number of occurrences among the non-empty tokens. Empty tokens are not counted. |
| TextEmbedding.CountWords | src/main/java/com/dortegau/vecminidb/infrastructure/adapters/in/MiniTextEmbedder.java:118-126 | The counting loop produces exactly the word counts. |
| TextEmbedding.DenseIndices | src/main/java/com/dortegau/vecminidb/infrastructure/adapters/in/MiniTextEmbedder.java:130 | The vocabulary's indices are exactly 0 … size−1, each used by one word. |
| TextEmbedding.NoLettersNoWords | src/main/java/com/dortegau/vecminidb/infrastructure/adapters/in/MiniTextEmbedder.java:112-126 | A text without ASCII letters contributes no word. |
| TextEmbedding.MiniTextEmbedder.New | src/main/java/com/dortegau/vecminidb/infrastructure/adapters/in/MiniTextEmbedder.java:22-29 | A non-positive dimension is refused. Otherwise it builds an embedder of that dimension with an empty vocabulary. |
| TextEmbedding.MiniTextEmbedder.DocumentVector | src/main/java/com/dortegau/vecminidb/infrastructure/adapters/in/MiniTextEmbedder.java:48-78 | The embedding has exactly the embedder's dimension, and is all zeros when the text has no word. |
| TextEmbedding.MiniTextEmbedder.WordIndex | src/main/java/com/dortegau/vecminidb/infrastructure/adapters/in/MiniTextEmbedder.java:130 | A known word keeps its index and nothing changes. A new word gets the current vocabulary size as its index. |
| TextEmbedding.MiniTextEmbedder.Learn | src/main/java/com/dortegau/vecminidb/infrastructure/adapters/in/MiniTextEmbedder.java:53-58 | After the loop over the counted words, the vocabulary is the old one plus those words, and known words keep their index. |
| TextEmbedding.MiniTextEmbedder.EmbedText | src/main/java/com/dortegau/vecminidb/infrastructure/adapters/in/MiniTextEmbedder.java:39-81 | A null text is refused first, then a null id, without touching the vocabulary. Otherwise:<br>- the vocabulary gains exactly the text's new words;<br>- old indices are kept;<br>- the result is `Vector.of(id, embedding)`, which still refuses a blank id after the vocabulary has grown. |
| TextEmbedding.MiniTextEmbedder.EmbedQuery | src/main/java/com/dortegau/vecminidb/infrastructure/adapters/in/MiniTextEmbedder.java:90-92 | The query embedding is the text's embedding under the id "query". It fails only on a null text. |
| TextEmbedding.MiniTextEmbedder.VocabularySize | src/main/java/com/dortegau/vecminidb/infrastructure/adapters/in/MiniTextEmbedder.java:99-101 | The number of distinct learned words. |
| TextEmbedding.MiniTextEmbedder.Vocabulary | src/main/java/com/dortegau/vecminidb/infrastructure/adapters/in/MiniTextEmbedder.java:108-110 | The set of learned words. |
| TextEmbedding.VocabularyGrowth | src/main/java/com/dortegau/vecminidb/infrastructure/adapters/in/MiniTextEmbedder.java:130 | The vocabulary grows by the number of words not already known. |
| TextEmbedding.EmbedNoLetters | src/main/java/com/dortegau/vecminidb/infrastructure/adapters/in/MiniTextEmbedder.java:67-80 | A text without letters leaves the vocabulary alone and embeds to the zero vector. It succeeds exactly when the id is not blank. |
| Repl.ScanInvariant | src/main/java/com/dortegau/vecminidb/cli/VecMiniDBRepl.java:117-142 | After any prefix of the input:<br>- the scanner is inside quotes iff it has seen an odd number of `"`;<br>- the tokens so far plus the pending text are the input without quotes and unquoted spaces;<br>- no token is empty or holds a quote. |
| Repl.QuotedTokensSpec | src/main/java/com/dortegau/vecminidb/cli/VecMiniDBRepl.java:117-142 | The quoted tokeniser never yields an empty token or one with a `"`. Its tokens concatenate to the input with quotes and unquoted spaces removed. |
| Repl.QuotedPhraseExample | src/main/java/com/dortegau/vecminidb/cli/VecMiniDBRepl.java:117-142 | Illustration: `x "a b"` splits into `x` and `a b`. |
| Repl.ParseQuotedCommand | src/main/java/com/dortegau/vecminidb/cli/VecMiniDBRepl.java:117-142 | The character loop returns exactly the quoted tokens of its input. |
| Repl.ParseCommand | src/main/java/com/dortegau/vecminidb/cli/VecMiniDBRepl.java:107-115 | Input without a quote splits on whitespace runs. Otherwise the quoted tokeniser is used. |
| Repl.CommandPartsSpec | src/main/java/com/dortegau/vecminidb/cli/VecMiniDBRepl.java:107-115 | On a trimmed, non-empty line no part is empty. Without quotes the parts are the whitespace runs, concatenating to the line without spaces. |
| Repl.CommandFor | src/main/java/com/dortegau/vecminidb/cli/VecMiniDBRepl.java:89-104 | An unrecognised command is reported in lower case. |
| Repl.CommandAliases | src/main/java/com/dortegau/vecminidb/cli/VecMiniDBRepl.java:89-104 | Commands are case-insensitive. `query` and `q` run a query. Exactly `exit`, `quit` and `q!` end the session. |
| Repl.AliasExamples | src/main/java/com/dortegau/vecminidb/cli/VecMiniDBRepl.java:89-104 | Illustration: `Q` is a query, and `QUIT` / `Exit` / `q!` exit. |
| Repl.UnknownExample | src/main/java/com/dortegau/vecminidb/cli/VecMiniDBRepl.java:89-104 | Illustration: `Frobnicate` names no command and is reported as `frobnicate`. |
| Repl.Session.ExecuteCommand | src/main/java/com/dortegau/vecminidb/cli/VecMiniDBRepl.java:83-105 | The line is tokenised and dispatched on its first part. The session keeps running unless that command is exit. |
| Repl.InsertArgs | src/main/java/com/dortegau/vecminidb/cli/VecMiniDBRepl.java:144-152 | `insert` needs at least three parts and otherwise prints its usage. |
| Repl.InsertTextWords | src/main/java/com/dortegau/vecminidb/cli/VecMiniDBRepl.java:151-152 | The id is the second part. The text joins the remaining parts with spaces, so splitting it again gives them back. |
| Repl.QueryArgs | src/main/java/com/dortegau/vecminidb/cli/VecMiniDBRepl.java:163-168 | `query` needs at least two parts and otherwise prints its usage. |
| Repl.QueryArgsSpec | src/main/java/com/dortegau/vecminidb/cli/VecMiniDBRepl.java:170-182 | With more than two parts and a numeric last part, that number is the limit and the middle parts are the text. Otherwise the limit is 5 and all parts after the command are the text. |
| Repl.QueryArgsExamples | src/main/java/com/dortegau/vecminidb/cli/VecMiniDBRepl.java:170-182 | Illustration: `query 3` searches for "3" with limit 5. `query cats 3` searches for "cats" with limit 3. `query cats dogs` searches for "cats dogs" with limit 5. |
| Repl.TruncateSpec | src/main/java/com/dortegau/vecminidb/cli/VecMiniDBRepl.java:408-413 | A string that fits is kept. A longer one becomes exactly `maxLength` characters: its first `maxLength − 3` and "...". |
| FlatIndex.IdsOf | src/main/java/com/dortegau/vecminidb/infrastructure/adapters/out/FlatVectorIndex.java:89-97 | Helper for the `addAll` and `all()` lemmas: the id texts of a list, position by position. |
| FlatIndex.Indexed | src/main/java/com/dortegau/vecminidb/infrastructure/adapters/out/FlatVectorIndex.java:89-97 | Adding a list of vectors in order gives a map keyed by their ids: every listed id is present and every key comes from the list. |
| FlatIndex.IndexedList | src/main/java/com/dortegau/vecminidb/infrastructure/adapters/out/FlatVectorIndex.java:89-97 | With distinct ids, each listed vector is found under its own id. |
| FlatIndex.ListsIndexed | src/main/java/com/dortegau/vecminidb/infrastructure/adapters/out/FlatVectorIndex.java:40-43 | Re-adding a listing of an index (`all()`) rebuilds exactly that index. |
| FlatIndex.IndexedStep | src/main/java/com/dortegau/vecminidb/infrastructure/adapters/out/FlatVectorIndex.java:94-96 | Adding one more vector of the list replaces the entry under its id. |
| FlatIndex.FlatVectorIndex.constructor | src/main/java/com/dortegau/vecminidb/infrastructure/adapters/out/FlatVectorIndex.java:18-20 | A new index is empty. |
| FlatIndex.FlatVectorIndex.Add | src/main/java/com/dortegau/vecminidb/infrastructure/adapters/out/FlatVectorIndex.java:23-29 | A null vector is refused and the index unchanged. Otherwise the vector replaces any entry with its id. The size grows by one exactly when the id was new. |
| FlatIndex.FlatVectorIndex.Get | src/main/java/com/dortegau/vecminidb/infrastructure/adapters/out/FlatVectorIndex.java:32-38 | A null id is refused. Otherwise it finds a vector exactly when the id is present, and that vector carries the id. |
| FlatIndex.FlatVectorIndex.All | src/main/java/com/dortegau/vecminidb/infrastructure/adapters/out/FlatVectorIndex.java:41-43 | The snapshot lists every stored vector exactly once, and nothing else. |
| FlatIndex.FlatVectorIndex.Size | src/main/java/com/dortegau/vecminidb/infrastructure/adapters/out/FlatVectorIndex.java:46-48 | The number of distinct ids stored. |
| FlatIndex.FlatVectorIndex.Contains | src/main/java/com/dortegau/vecminidb/infrastructure/adapters/out/FlatVectorIndex.java:51-57 | A null id is refused. Otherwise the answer is true iff the id is stored. |
| FlatIndex.FlatVectorIndex.Remove | src/main/java/com/dortegau/vecminidb/infrastructure/adapters/out/FlatVectorIndex.java:60-66 | A null id is refused. Otherwise the id is gone afterwards, and the removed vector is returned exactly when it was there. |
| FlatIndex.FlatVectorIndex.Clear | src/main/java/com/dortegau/vecminidb/infrastructure/adapters/out/FlatVectorIndex.java:69-71 | Clearing empties the index. |
| FlatIndex.FlatVectorIndex.AllIds | src/main/java/com/dortegau/vecminidb/infrastructure/adapters/out/FlatVectorIndex.java:78-80 | The id set is exactly the stored keys. |
| FlatIndex.FlatVectorIndex.AddAll | src/main/java/com/dortegau/vecminidb/infrastructure/adapters/out/FlatVectorIndex.java:89-97 | A null index is refused. Otherwise the other index's entries are merged in and win on equal ids. |
| FlatIndex.FlatVectorIndex.AddEach | src/main/java/com/dortegau/vecminidb/infrastructure/adapters/out/FlatVectorIndex.java:94-96 | Adding a list one by one merges in its indexed map. |
| FlatIndex.FlatVectorIndex.Copy | src/main/java/com/dortegau/vecminidb/infrastructure/adapters/out/FlatVectorIndex.java:104-108 | The copy is a new index with the same entries. |
| WalCodec.UnescapeEscape | src/main/java/com/dortegau/vecminidb/infrastructure/adapters/out/WriteAheadLog.java:186-200 | For an id without `"` or `\`, unescaping the escaped id gives it back, and the escaped text holds no `"`. |
| WalCodec.EncodeLine | src/main/java/com/dortegau/vecminidb/infrastructure/adapters/out/WriteAheadLog.java:119-131 | An encoded line starts with `{` and ends with `}`. |
| WalCodec.ParseValues | src/main/java/com/dortegau/vecminidb/infrastructure/adapters/out/WriteAheadLog.java:172-180 | Parsing fails exactly when some trimmed part is not a number, with that part in the message. Otherwise it yields one value per part, each the parse of its trimmed part. |
| WalCodec.ValuesRoundTrip | src/main/java/com/dortegau/vecminidb/infrastructure/adapters/out/WriteAheadLog.java:123-127 | The printed value list holds no `]` and parses back to the same values. |
| WalCodec.DecodeLine | src/main/java/com/dortegau/vecminidb/infrastructure/adapters/out/WriteAheadLog.java:133-137 | Only a line in braces can decode. |
| WalCodec.DecodeLineNeeds | src/main/java/com/dortegau/vecminidb/infrastructure/adapters/out/WriteAheadLog.java:135-150 | A decoded line is braced and holds the id marker. A braced line without the marker fails as a missing id. |
| WalCodec.DecodeLineFound | src/main/java/com/dortegau/vecminidb/infrastructure/adapters/out/WriteAheadLog.java:139-167 | Once the markers are found, the id is the unescaped text up to the next quote and the values are the text up to the next `]`. |
| WalCodec.DecodeEncode | src/main/java/com/dortegau/vecminidb/infrastructure/adapters/out/WriteAheadLog.java:119-184 | For ids without `"` or `\`, decoding an encoded vector gives it back. |
| WalCodec.EscapeQuotedExample | src/main/java/com/dortegau/vecminidb/infrastructure/adapters/out/WriteAheadLog.java:186-192 | Illustration: The id `a"b` is written as `a\"b`. |
| WalCodec.QuotedIdMisread | src/main/java/com/dortegau/vecminidb/infrastructure/adapters/out/WriteAheadLog.java:147-152 | The line written for id `a"b` decodes, as written, to a vector with id `a\`. |
| WalCodec.ReadQuoted | src/main/java/com/dortegau/vecminidb/infrastructure/adapters/out/WriteAheadLog.java:186-200 | The escape-aware id reader stops at an unescaped quote and undoes each known escape once. An unknown escape such as `\q` is kept as it is, as the replacement chain keeps it. |
| WalCodec.ReadQuotedUnknown | src/main/java/com/dortegau/vecminidb/infrastructure/adapters/out/WriteAheadLog.java:194-200 | A backslash before a letter with no escape meaning is kept together with the letter. |
| WalCodec.EscQuotesEscaped | src/main/java/com/dortegau/vecminidb/infrastructure/adapters/out/WriteAheadLog.java:186-192 | Every quote in an escaped id is preceded by a backslash. |
| WalCodec.FixedAgreesWithoutBackslash | src/main/java/com/dortegau/vecminidb/infrastructure/adapters/out/WriteAheadLog.java:133-200 | On a line without any backslash the corrected decoder and the as-written decoder give the same result. |
| WalCodec.DecodeQuoteFree | src/main/java/com/dortegau/vecminidb/infrastructure/adapters/out/WriteAheadLog.java:119-200 | As written, an encoded vector whose id has no quote decodes to its values under the id escaped and then unescaped by the replacement chains. |
| WalCodec.BackslashNMisread | src/main/java/com/dortegau/vecminidb/infrastructure/adapters/out/WriteAheadLog.java:186-200 | As written, the id `a\n` (a backslash, then `n`) is written `a\\n` and read back as `a` followed by a newline, not as the logged vector. |
| WalCodec.DecodeLineFixed | src/main/java/com/dortegau/vecminidb/infrastructure/adapters/out/WriteAheadLog.java:133-184 | The corrected decoder, too, decodes only braced lines. It searches for the values marker from the start of the line, as the source does. |
| WalCodec.DecodeFixedEncode | src/main/java/com/dortegau/vecminidb/infrastructure/adapters/out/WriteAheadLog.java:119-200 | The corrected decoder reads every encoded vector back, whatever characters its id holds. |
| Wal.LastIndexOf | src/main/java/com/dortegau/vecminidb/infrastructure/adapters/out/WriteAheadLog.java:26 | The last position of a character, or −1 when absent. |
| Wal.WalFileNameSpec | src/main/java/com/dortegau/vecminidb/infrastructure/adapters/out/WriteAheadLog.java:24-26 | The last extension of the database file name is replaced by `.wal`. |
| Wal.WalFileNameNoDot | src/main/java/com/dortegau/vecminidb/infrastructure/adapters/out/WriteAheadLog.java:26 | A name without a dot is kept as it is. |
| Wal.WalFileNameIdempotent | src/main/java/com/dortegau/vecminidb/infrastructure/adapters/out/WriteAheadLog.java:26 | Deriving the log name twice changes nothing more. |
| Wal.WalPathShared | src/main/java/com/dortegau/vecminidb/infrastructure/adapters/out/WriteAheadLog.java:24-29 | As written, a database file name without a dot names its own log: the log path is the database path. |
| Wal.WalPathSeparate | src/main/java/com/dortegau/vecminidb/infrastructure/adapters/out/WriteAheadLog.java:24-29 | Corrected: the log path (`.wal` appended when the replacement changes nothing) always differs from the database path. |
| Wal.WalPathFixedAgrees | src/main/java/com/dortegau/vecminidb/infrastructure/adapters/out/WriteAheadLog.java:24-29 | Wherever the as-written log path already differs from the database path, the corrected one is the same path. |
| Wal.WalFileNameExample | src/main/java/com/dortegau/vecminidb/infrastructure/adapters/out/WriteAheadLog.java:24 | Illustration: `vecs.vecdb` logs to `vecs.wal`. |
| Wal.CollectSound | src/main/java/com/dortegau/vecminidb/infrastructure/adapters/out/WriteAheadLog.java:72-83 | Recovery yields at most one vector per line, each read from some line. |
| Wal.RecoverLinesAppend | src/main/java/com/dortegau/vecminidb/infrastructure/adapters/out/WriteAheadLog.java:72-83 | Recovering concatenated logs concatenates the recoveries. |
| Wal.RecoverLinesSound | src/main/java/com/dortegau/vecminidb/infrastructure/adapters/out/WriteAheadLog.java:72-83 | Every recovered vector comes from a non-blank trimmed line that decodes to it. Malformed and blank lines are skipped. |
| Wal.RecoverAfterLog | src/main/java/com/dortegau/vecminidb/infrastructure/adapters/out/WriteAheadLog.java:39-89 | With the corrected decoder, logging a vector and recovering gives the old recovery followed by that vector, whatever its id holds. |
| Wal.RecoverLogged | src/main/java/com/dortegau/vecminidb/infrastructure/adapters/out/WriteAheadLog.java:39-89 | With the corrected decoder, recovering a log of encoded vectors gives back exactly those vectors, in order, whatever their ids hold. |
| Wal.RecoverLoggedAsWritten | src/main/java/com/dortegau/vecminidb/infrastructure/adapters/out/WriteAheadLog.java:63-89 | As written, a log of vectors whose ids hold neither `"` nor `\` gives back exactly those vectors, in order, the same as the corrected recovery. |
| Wal.RecoverMisreadAsWritten | src/main/java/com/dortegau/vecminidb/infrastructure/adapters/out/WriteAheadLog.java:63-89 | As written, the log of a vector with id `a"b` or `a\n` (a backslash, then `n`) does not give that vector back. The corrected recovery does. |
| Wal.WriteAheadLog.constructor | src/main/java/com/dortegau/vecminidb/infrastructure/adapters/out/WriteAheadLog.java:19-30 | The log lives next to the database file under the corrected derived name, which is never the database file itself. |
| Wal.WriteAheadLog.Open | src/main/java/com/dortegau/vecminidb/infrastructure/adapters/out/WriteAheadLog.java:19-22 | A null database path is refused. Otherwise the log file has the corrected derived name. |
| Wal.WriteAheadLog.LogInsert | src/main/java/com/dortegau/vecminidb/infrastructure/adapters/out/WriteAheadLog.java:39-56 | A null vector is refused and the file untouched. Otherwise one encoded line is appended, creating the file when absent. |
| Wal.WriteAheadLog.Recover | src/main/java/com/dortegau/vecminidb/infrastructure/adapters/out/WriteAheadLog.java:63-89 | The line loop returns the recovery of the file's lines (none when the file is absent). |
| Wal.WriteAheadLog.Clear | src/main/java/com/dortegau/vecminidb/infrastructure/adapters/out/WriteAheadLog.java:94-102 | The log file no longer exists. |
| Wal.WriteAheadLog.HasEntries | src/main/java/com/dortegau/vecminidb/infrastructure/adapters/out/WriteAheadLog.java:109-115 | True exactly when the file exists and is not empty. |
| Wal.WriteAheadLog.VectorToJson | src/main/java/com/dortegau/vecminidb/infrastructure/adapters/out/WriteAheadLog.java:119-131 | The builder loop produces the encoded line. |
| Wal.WriteAheadLog.ParseParts | src/main/java/com/dortegau/vecminidb/infrastructure/adapters/out/WriteAheadLog.java:170-180 | The parsing loop stops at the first bad number, as `ParseValues` does. |
| Wal.WriteAheadLog.JsonToVector | src/main/java/com/dortegau/vecminidb/infrastructure/adapters/out/WriteAheadLog.java:133-184 | The decoding method agrees with the corrected decoder, which finds the values marker from the start of the line. |
| FileRepository.PathOf | src/main/java/com/dortegau/vecminidb/infrastructure/adapters/out/FileVectorRepository.java:43 | A path splits at its last `/` into parent and file name. |
| FileRepository.ByText | src/main/java/com/dortegau/vecminidb/infrastructure/adapters/out/FileVectorRepository.java:131-133 | The index keyed by id text holds every stored vector and no other key. |
| FileRepository.ByTextSize | src/main/java/com/dortegau/vecminidb/infrastructure/adapters/out/FileVectorRepository.java:102-104 | The memory index has as many entries as the repository map. |
| FileRepository.KeyedValues | src/main/java/com/dortegau/vecminidb/infrastructure/adapters/out/FileVectorRepository.java:92-94 | A map keyed by vector ids has as many distinct values as keys. |
| FileRepository.MergeNew | src/main/java/com/dortegau/vecminidb/infrastructure/adapters/out/FileVectorRepository.java:147-153 | Recovery keeps every entry already present, adds every recovered id, and keeps each vector under its own id. |
| FileRepository.MergeNewAbsent | src/main/java/com/dortegau/vecminidb/infrastructure/adapters/out/FileVectorRepository.java:147-153 | An id that is neither present nor recovered stays absent: recovery adds nothing else. |
| FileRepository.MergeNewEarliest | src/main/java/com/dortegau/vecminidb/infrastructure/adapters/out/FileVectorRepository.java:147-153 | For a new id, the first recovered vector with that id wins. |
| FileRepository.MergeNewCovered | src/main/java/com/dortegau/vecminidb/infrastructure/adapters/out/FileVectorRepository.java:147-153 | Recovering only known ids changes nothing. |
| FileRepository.RestartDurable | src/main/java/com/dortegau/vecminidb/infrastructure/adapters/out/FileVectorRepository.java:33-48 | When the files are durable for a map, restarting yields that map and leaves the files durable. Durability is stated with the corrected decoder. |
| FileRepository.StartupDurable | src/main/java/com/dortegau/vecminidb/infrastructure/adapters/out/FileVectorRepository.java:143-165 | After startup the files are durable for the loaded contents, with the corrected decoder and a log file apart from the data file. |
| FileRepository.RestartTwice | src/main/java/com/dortegau/vecminidb/infrastructure/adapters/out/FileVectorRepository.java:33-48 | Restarting a second time gives the same contents. |
| FileRepository.DeletedComesBack | src/main/java/com/dortegau/vecminidb/infrastructure/adapters/out/FileVectorRepository.java:77-89 | A vector deleted from the snapshot but still in the log reappears at restart, so the files are not durable for the state after the delete. |
| FileRepository.FilesAt | src/main/java/com/dortegau/vecminidb/infrastructure/adapters/out/FileVectorRepository.java:41-47 | The startup view of the disk: a missing data path is a missing snapshot and a missing log path an absent log. |
| FileRepository.CheckpointSeparate | src/main/java/com/dortegau/vecminidb/infrastructure/adapters/out/FileVectorRepository.java:190-193 | With the log apart from the data file, a checkpoint leaves the snapshot of the map and no log, and a restart yields the map. |
| FileRepository.CheckpointSharedLoses | src/main/java/com/dortegau/vecminidb/infrastructure/adapters/out/FileVectorRepository.java:190-193 | As written, for a data file name without a dot the log is the data file, so the checkpoint deletes the snapshot it wrote and a restart finds nothing. |
| FileRepository.CheckpointFixedKeeps | src/main/java/com/dortegau/vecminidb/infrastructure/adapters/out/FileVectorRepository.java:190-193 | Corrected: with the corrected log name the checkpointed contents survive a restart and are durable. |
| FileRepository.FileVectorRepository.constructor | src/main/java/com/dortegau/vecminidb/infrastructure/adapters/out/FileVectorRepository.java:41-47 | Startup loads the snapshot and replays the log. The contents are the restart function of the files, and the files end up as the restart leaves them. The log file has the corrected name and is never the data file. |
| FileRepository.FileVectorRepository.Open | src/main/java/com/dortegau/vecminidb/infrastructure/adapters/out/FileVectorRepository.java:33-48 | A null path is refused, then a blank one. Otherwise it opens with the restarted contents. |
| FileRepository.FileVectorRepository.LoadFromFile | src/main/java/com/dortegau/vecminidb/infrastructure/adapters/out/FileVectorRepository.java:121-137 | A missing or unreadable snapshot loads nothing. A stored map is loaded, and the index follows it. |
| FileRepository.FileVectorRepository.IndexEach | src/main/java/com/dortegau/vecminidb/infrastructure/adapters/out/FileVectorRepository.java:131-133 | The loop puts each loaded vector into the memory index. |
| FileRepository.FileVectorRepository.RecoverFromWal | src/main/java/com/dortegau/vecminidb/infrastructure/adapters/out/FileVectorRepository.java:143-165 | Replay adds only ids not yet present. When anything was recovered, it saves the snapshot and deletes the log. |
| FileRepository.FileVectorRepository.MergeRecovered | src/main/java/com/dortegau/vecminidb/infrastructure/adapters/out/FileVectorRepository.java:147-153 | The replay loop computes `MergeNew`. |
| FileRepository.FileVectorRepository.SaveToFile | src/main/java/com/dortegau/vecminidb/infrastructure/adapters/out/FileVectorRepository.java:106-118 | The snapshot file then holds exactly the current map. |
| FileRepository.FileVectorRepository.Save | src/main/java/com/dortegau/vecminidb/infrastructure/adapters/out/FileVectorRepository.java:51-65 | A null vector is refused and nothing changes. Otherwise it logs first, then puts the vector into map and index, then snapshots. Durability is kept, with the corrected decoder and a log file apart from the data file. |
| FileRepository.FileVectorRepository.FindById | src/main/java/com/dortegau/vecminidb/infrastructure/adapters/out/FileVectorRepository.java:68-74 | A null id is refused. Otherwise it finds a vector exactly when the id is stored, and that vector carries the id. |
| FileRepository.FileVectorRepository.DeleteById | src/main/java/com/dortegau/vecminidb/infrastructure/adapters/out/FileVectorRepository.java:77-89 | As written: it reports whether the id existed, removes it, and snapshots only then. The log is left untouched. |
| FileRepository.FileVectorRepository.DeleteByIdFixed | src/main/java/com/dortegau/vecminidb/infrastructure/adapters/out/FileVectorRepository.java:77-89 | Corrected: an effective delete also clears the log, so durability is kept (with the corrected decoder and log name). |
| FileRepository.FileVectorRepository.FindAll | src/main/java/com/dortegau/vecminidb/infrastructure/adapters/out/FileVectorRepository.java:92-94 | The set of stored vectors, one per id. |
| FileRepository.FileVectorRepository.FindAllIds | src/main/java/com/dortegau/vecminidb/infrastructure/adapters/out/FileVectorRepository.java:97-99 | The ids `findById` finds, one per stored vector. |
| FileRepository.FileVectorRepository.Count | src/main/java/com/dortegau/vecminidb/infrastructure/adapters/out/FileVectorRepository.java:102-104 | The count equals the number of ids and the memory index's size. |
| FileRepository.FileVectorRepository.GetMemoryIndex | src/main/java/com/dortegau/vecminidb/infrastructure/adapters/out/FileVectorRepository.java:172-174 | The memory index finds every stored vector under its id text and holds nothing else. |
| FileRepository.FileVectorRepository.GetAllVectorsFromMemory | src/main/java/com/dortegau/vecminidb/infrastructure/adapters/out/FileVectorRepository.java:182-184 | Lists every stored vector exactly once. |
| FileRepository.FileVectorRepository.Checkpoint | src/main/java/com/dortegau/vecminidb/infrastructure/adapters/out/FileVectorRepository.java:190-193 | Snapshots the current map and deletes the log. The contents are unchanged and durable, because the log file is apart from the data file. |

## Left out

- File I/O, Java serialisation and `Path` normalisation. The files are explicit
  values; an unreadable snapshot is a `SnapshotFile` case. I/O exceptions other
  than that are not modelled.
- Similarity arithmetic (cosine, Euclidean, Manhattan). The metric is a
  `Calculator` with an arbitrary score function, refusing unequal dimensions.
  `getName()` (the simple class name) is the calculator's `name` field.
- `Double.toString` / `Double.parseDouble` are a `NumberFormat` parameter.
  The round-trip lemmas assume it prints and reads a value back
  (`RoundTrips`). NaN, infinities and −0.0 are not modelled.
- Concurrency. `ConcurrentHashMap` is modelled as a plain map, and the
  engines' thread-safety is not modelled.
- Java hash-map and hash-set iteration order: it is an arbitrary choice in
  methods and a listing parameter in the service functions.
- The embedder's numbers: seeded Gaussian word vectors, TF weighting and L2
  normalisation are the `Weigh` parameter. The model proves the shape (length,
  zeros for no word), not the values.
- Java's full-Unicode `toLowerCase` is modelled on ASCII letters only. Case
  mappings outside ASCII (e.g. U+212A KELVIN SIGN to `k`) are not captured.
- REPL: the read loop, welcome and help text, printing, and `formatVector` /
  `formatBytes`. `handleVector`, `handleMetadata`, `handleList`,
  `handleSize`, `handleClear`, `handleVocab` and `handleStats` only print
  what modelled members return; their commands are dispatched but their
  output is not modelled.
- The interfaces `VectorIndex`, `VectorRepository` and
  `VectorSimilarityUseCase` are not separate types. Their contracts are stated
  on their implementations.
- `VectorDatabaseService`, `VectorDatabaseFacade` and `VectorDatabaseFactory`
  only pass calls through, and the `SimilarityComparison` demo prints; none of
  them is modelled.
- `equals` / `hashCode` / `toString` of the records and of `FlatVectorIndex`:
  Dafny datatype equality stands in for the record equalities.
- TextEmbedding.WordCountsAreTokens: states the counts as a multiset of the
  non-empty tokens, not the sum of counts as a number.
- Repl.TruncateSpec: requires `maxLength >= 3` for strings that are too long.
  The Java method would throw there; its only caller passes 39. Lengths are
  counted in characters (Unicode scalar values), while `String.length()` and
  `substring` count UTF-16 code units. So an id with characters above U+FFFF
  is cut later than in Java (20 emoji fit in 39 here but not in Java), and a
  cut inside a surrogate pair, which Java can make, cannot happen here.
- FileRepository.FileVectorRepository.DeleteById: durability after a delete is
  stated only as the counterexample `DeletedComesBack`. A whole
  save-then-delete-then-restart scenario is not a single member.
- Wal.RecoverLogged: holds with the corrected decoder. As written, a logged id
  holding `"` or `\` can come back changed (`a"b` as `a\`, `a\n` as `a` and a
  newline). `Wal.RecoverLoggedAsWritten` states the as-written round trip for
  ids without them, and `Wal.RecoverMisreadAsWritten` the misread.
- Wal.RecoverAfterLog: holds with the corrected decoder, for the same reason as
  `Wal.RecoverLogged`.
- Wal.WriteAheadLog.JsonToVector: decodes with the corrected id reader (see
  Findings). It reads the id in one pass: an escaped quote does not end it,
  each escape is undone once and an unknown escape is kept. Everything else
  follows the source; `WalCodec.FixedAgreesWithoutBackslash` proves that both
  decoders agree on lines without a backslash. The as-written decoder is
  `WalCodec.DecodeLine`.
- Wal.WriteAheadLog.constructor: uses the corrected log name
  (`Wal.WalPathFixed`). The source's name makes a data file without a dot its
  own log; that is stated only by the Findings lemmas `Wal.WalPathShared` and
  `FileRepository.CheckpointSharedLoses`.
- FileRepository.FileVectorRepository.RecoverFromWal: runs over a log file
  apart from the data file (corrected name), so the case where the source's
  log is the data file is not covered by its contract (see Findings).
- FileRepository.FileVectorRepository.Save: durability holds with the
  corrected log name and decoder; with the source's name for a dotless data
  file the snapshot is the log (see Findings).
- FileRepository.FileVectorRepository.DeleteByIdFixed: durability holds with
  the corrected log name and decoder only (see Findings).
- FileRepository.FileVectorRepository.Checkpoint: keeps the contents durable
  only because the log has the corrected name; as written, a dotless data file
  name loses everything (`FileRepository.CheckpointSharedLoses`).
- Repl.QueryArgsSpec: a limit is read from ASCII digits only. Java's
  `Integer.parseInt` also accepts other Unicode decimal digits (e.g. Arabic-Indic
  `٣`), which the model treats as text. The same holds for `JavaStrings.ParseInt`.
- TextEmbedding.KeepLettersAndSpaces: lower-casing is the ASCII mapping
  whatever the locale. Java's `toLowerCase()` uses the default locale; under a
  Turkish locale `I` becomes dotless `ı`, which the letter filter then drops.

## Findings

| source | as written | input that shows it | evidently intended | confidence | as-written member | corrected member |
|---|---|---|---|---|---|---|
| src/main/java/com/dortegau/vecminidb/infrastructure/adapters/out/FileVectorRepository.java:77-89 | `deleteById` removes the vector from memory and the snapshot but leaves its insert line in the write-ahead log. At the next startup the log replay adds it back, because the id is no longer present. | save `v`, delete `v`'s id, restart: `v` is present again | a deleted vector stays deleted across restarts (the log is cleared, or the delete logged) | not executed | FileRepository.FileVectorRepository.DeleteById, FileRepository.DeletedComesBack | FileRepository.FileVectorRepository.DeleteByIdFixed |
| src/main/java/com/dortegau/vecminidb/infrastructure/adapters/out/WriteAheadLog.java:147-152 | The id is escaped on write (`"` as `\"`), but the decoder ends the id at the first `"` whatever precedes it. | id `a"b` is written as `{"id":"a\"b",...}` and read back as id `a\`; the id `a\n` (backslash, `n`) is written `a\\n` and read back as `a` and a newline | the decoder reads the id in one pass, skipping escaped quotes and undoing each escape once, so every id reads back unchanged | not executed | WalCodec.DecodeLine, WalCodec.QuotedIdMisread, WalCodec.BackslashNMisread, Wal.RecoverMisreadAsWritten | WalCodec.DecodeLineFixed, WalCodec.DecodeFixedEncode |
| src/main/java/com/dortegau/vecminidb/infrastructure/adapters/out/WriteAheadLog.java:24-29 | The log name replaces the last extension of the data file name by `.wal`. A name without a dot (or one already ending in `.wal`) is left as it is, so the log is the data file. `checkpoint` (and recovery) then write the snapshot and delete the log, which deletes the snapshot. | data path `vectors`: save `v`, checkpoint, restart: the repository is empty | the log is a file of its own (e.g. `.wal` appended when the replacement changes nothing), so checkpointed contents survive | not executed | Wal.WalPathShared, FileRepository.CheckpointSharedLoses | Wal.WalPathSeparate, FileRepository.CheckpointFixedKeeps |
