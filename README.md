# Topic extraction and query retrieval

This project is a Dafny model of the search side of a small TREC-style
retrieval exercise. It covers two classes.

**`ExtractQuery`** reads a topic file one topic at a time.
- `hasNext` skips to the next line whose trimmed text starts with `<top>`.
- `next` takes the topic number (the first run of digits on the following
  line), then gathers the body up to the `</top>` line.
- Each body line adds a space and then its trimmed text. A `<title>` line
  loses its first 8 characters. A `<desc>` or `<narr>` line adds nothing
  after the space.
- The body is tokenised on the delimiters `\r \n \t . , ; : " ( ) ? !` and
  space.
- Each token is lower-cased and checked against the stop-word set. A token
  that is not a stop word is stemmed, and each non-empty stem is written
  out followed by one space.
- The stop-word set holds each line of the stop-word file, trimmed and
  lower-cased.

**`QueryRetrievalModel`** answers one query.
- It splits the query content on single spaces.
- It looks up each token's collection frequency, fetching it from the index
  only the first time the model sees the token and caching it on the model.
- The posting lists of the tokens whose collection frequency is not 0 go
  into a map `docid -> (term -> frequency)`.
- That map is scored and the scored list is sorted by descending score.
  The scoring is a stub that returns no documents.

The files:
- `Wrappers.dfy`: Option and Result.
- `JavaStrings.dfy`: the Java string operations the code relies on, namely
  `trim`, `startsWith`, ASCII `toLowerCase`, `StringTokenizer` over the
  delimiter set, and `split(" ")` with its trailing-empty rule.
- `TopicExtraction.dfy`: the topic reader. It has a class `ExtractQuery`
  whose methods move a cursor over the lines of the topic file. Each method
  is proved against a pure definition: `FindTopStart`, `TopicId`,
  `CollectBody`, `ParseTopic` and `Normalize`. Those definitions have their
  own lemmas.
- `Ranking.dfy`: the comparator and the sort, specified as sorted and a
  permutation.
- `Retrieval.dfy`: the class `QueryRetrievalModel`, which holds the
  collection-frequency cache as a field. `populateQueryResult` is proved
  equal to the pure `Aggregate`. The lemmas about `Aggregate` state the
  resulting map outright (`AggregateIsExpected`), along with soundness,
  completeness and independence from token order and repetition.

Inputs and outputs become values:
- The topic file and the stop-word file are sequences of lines.
  `Option.None` means the file could not be opened.
- The reader is `Unavailable` (null), `Open` or `Closed`, with a cursor.
- The stemmer is a function from a lower-case token to its stem.
- The index reader is two functions: collection frequency and posting list.
- An unchecked exception that ends `next()` is a `Failure` value:
  - a `NullPointerException` when the lines run out;
  - `StringIndexOutOfBoundsException` on a `<title>` line shorter than 8
    characters.
- A ghost field `lookups` records every collection-frequency fetch from the
  index. This is how the contracts say that each term's collection frequency
  is fetched at most once. Posting lists are neither cached nor recorded:
  `getPostingList` is asked again for every occurrence of a counted token.

## Model

| member | source | states |
|---|---|---|
| `JavaStrings.DelimitersAreListed` | src/main/java/Search/ExtractQuery.java:72 | a character is a delimiter exactly when it is one of the 13 characters of the delimiter string |
| `JavaStrings.TrimSpec` | src/main/java/Search/ExtractQuery.java:133 | trim returns an infix of its input; the characters it drops are all at most U+0020; the characters at both ends of the result are above U+0020 |
| `JavaStrings.LowerPointwise` | src/main/java/Search/ExtractQuery.java:85 | lower-casing keeps the length and maps each character on its own |
| `JavaStrings.LowerIdempotent` | src/main/java/Search/ExtractQuery.java:85 | lower-casing twice is the same as lower-casing once |
| `JavaStrings.LowerTrimNormalised` | src/main/java/Search/ExtractQuery.java:35 | a trimmed, lower-cased string is left unchanged by trimming or lower-casing it again |
| `JavaStrings.RunLengthSpec` | src/main/java/Search/ExtractQuery.java:73-76 | a token runs over non-delimiters and stops at a delimiter or at the end of the text |
| `JavaStrings.RunLengthUnique` | src/main/java/Search/ExtractQuery.java:73-76 | only one run length has that property |
| `JavaStrings.TokensAreWords` | src/main/java/Search/ExtractQuery.java:73-76 | no token is empty and no token contains a delimiter |
| `JavaStrings.TokensOfWord` | src/main/java/Search/ExtractQuery.java:73-76 | a non-empty text without delimiters is exactly one token, itself |
| `JavaStrings.TokensSplitAtDelimiter` | src/main/java/Search/ExtractQuery.java:73-76 | the tokens of `a + d + b`, with d a delimiter, are the tokens of a followed by the tokens of b |
| `JavaStrings.TokensKeepContent` | src/main/java/Search/ExtractQuery.java:73-76 | joining the tokens gives the text with its delimiters removed |
| `JavaStrings.SplitOnSpace` | src/main/java/Search/QueryRetrievalModel.java:42-43 | no piece contains a space; the result is empty exactly when the text is non-empty and all spaces, so "" gives one empty piece; when the text holds a space, the last piece kept is not empty |
| `JavaStrings.SplitOnSpaceSpec` | src/main/java/Search/QueryRetrievalModel.java:42-43 | without a space the text is its own single piece; with one, the result is a prefix of the pieces between single spaces and every piece dropped after it is empty |
| `JavaStrings.SpacePiecesJoin` | src/main/java/Search/QueryRetrievalModel.java:42-43 | the pieces between single spaces, joined back with one space between neighbours, give the text back |
| `JavaStrings.TerminatedShape` | src/main/java/Search/ExtractQuery.java:77-81 | words each followed by one space give an empty text exactly when there are no words; otherwise the text ends in a space |
| `JavaStrings.SplitTerminatedRoundTrip` | src/main/java/Search/QueryRetrievalModel.java:42 | splitting "w1 w2 ... wn " on spaces gives back the words when they are non-empty and contain no space; no words gives [""] |
| `TopicExtraction.LoadStopWords` | src/main/java/Search/ExtractQuery.java:34-36 | the loaded set is exactly the trimmed, lower-cased lines of the stop-word file |
| `TopicExtraction.StopWordsAreNormalised` | src/main/java/Search/ExtractQuery.java:35 | every stored stop word is already trimmed and lower-case |
| `TopicExtraction.SurvivorsShape` | src/main/java/Search/ExtractQuery.java:75-80 | there are no more surviving words than tokens, and none of them is empty |
| `TopicExtraction.NormalizeShape` | src/main/java/Search/ExtractQuery.java:71-82 | the output is empty exactly when no token survives, and otherwise ends in a space |
| `TopicExtraction.NormalizeTakesToken` | src/main/java/Search/ExtractQuery.java:75-80 | a leading token adds its non-empty lcNoStopStem result plus a space in front of the rest, or adds nothing |
| `TopicExtraction.NormalizeSkipsDelimiter` | src/main/java/Search/ExtractQuery.java:73-75 | a leading delimiter adds nothing |
| `TopicExtraction.NormalizeSplitsAtDelimiter` | src/main/java/Search/ExtractQuery.java:71-82 | text on the two sides of a delimiter is normalised independently and the results are concatenated |
| `TopicExtraction.StopWordContributesNothing` | src/main/java/Search/ExtractQuery.java:85-86 | a token whose lower-case form is a stop word yields nothing |
| `TopicExtraction.OtherWordContributesStem` | src/main/java/Search/ExtractQuery.java:84-92 | any other token yields the stem of its lower-case form plus one space, or nothing when that stem is empty; the stem itself is not checked against the stop words |
| `TopicExtraction.ExtractQuery.NormalizeString` | src/main/java/Search/ExtractQuery.java:71-82 | the loop's output equals `Normalize`, about which the lemmas above are proved |
| `TopicExtraction.ExtractQuery.TokenEnd` | src/main/java/Search/ExtractQuery.java:76 | the index returned ends a maximal run of non-delimiters |
| `TopicExtraction.FindTopStart` | src/main/java/Search/ExtractQuery.java:117-118 | the result is the first line at or after the cursor whose trimmed text starts with `<top>`, or none when no such line exists |
| `TopicExtraction.TopicId` | src/main/java/Search/ExtractQuery.java:100-103 | the result is the leftmost maximal run of digits in the line; it is empty exactly when the line holds no digit |
| `TopicExtraction.CollectBody` | src/main/java/Search/ExtractQuery.java:126-149 | on success the cursor ends after the start line and within the file; the two failures are a missing `</top>` or a short `<title>` line inside the range |
| `TopicExtraction.CollectBodyOutcome` | src/main/java/Search/ExtractQuery.java:132-144 | success stops just past the first `</top>` line and every line before it is plain; a missing `</top>` means every remaining line is plain; a short title is the first line that is not plain |
| `TopicExtraction.CollectBodyIsConcatenation` | src/main/java/Search/ExtractQuery.java:132-144 | up to a `</top>` line, the body is the concatenation of " " + text for each line, in file order |
| `TopicExtraction.ParseTopicReadsOneTopic` | src/main/java/Search/ExtractQuery.java:58-66 | a well-formed topic yields its number and its normalised body, and the cursor ends just past `</top>` |
| `TopicExtraction.ExtractQuery.constructor` | src/main/java/Search/ExtractQuery.java:30-41 | the reader is open only when both files opened; the stop words are the normalised lines of the stop-word file |
| `TopicExtraction.ExtractQuery.HasNext` | src/main/java/Search/ExtractQuery.java:43-56 | true exactly when a further start line exists, with the cursor just past it; otherwise the reader ends closed with the lines used up; a null reader changes nothing |
| `TopicExtraction.ExtractQuery.MoveToTopStart` | src/main/java/Search/ExtractQuery.java:115-121 | the scan finds `FindTopStart`'s line and stops just past it, or reaches the end |
| `TopicExtraction.ExtractQuery.PopulateTopicId` | src/main/java/Search/ExtractQuery.java:97-108 | reads one line and returns its topic number; a closed reader gives ""; the end of the file is a failure |
| `TopicExtraction.ExtractQuery.ProcessOneTopic` | src/main/java/Search/ExtractQuery.java:126-149 | the text and cursor are `CollectBody`'s; a closed reader gives "" and leaves the cursor where it was |
| `TopicExtraction.ExtractQuery.Next` | src/main/java/Search/ExtractQuery.java:58-66 | an open reader returns `ParseTopic`'s query or failure and moves the cursor to match; a null or closed reader returns the empty query |
| `TopicExtraction.ExtractQuery.CloseHandler` | src/main/java/Search/ExtractQuery.java:151-158 | a reader that exists ends closed; a null reader stays null |
| `Ranking.Compare` | src/main/java/Search/QueryRetrievalModel.java:55-59 | the comparator answers -1 exactly when the first score is higher, and 1 otherwise |
| `Ranking.SortedMeansComparatorAgrees` | src/main/java/Search/QueryRetrievalModel.java:55-59 | non-increasing by score is the same as the comparator never answering -1 for a later document against an earlier one |
| `Ranking.ComparatorNeverEqual` | src/main/java/Search/QueryRetrievalModel.java:58 | for two equal scores the comparator answers 1 in both orders, so it is not antisymmetric |
| `Ranking.InsertKeepsSorted` | src/main/java/Search/QueryRetrievalModel.java:55 | inserting into a list sorted by score keeps it sorted |
| `Ranking.SortByScore` | src/main/java/Search/QueryRetrievalModel.java:55-59 | the result is non-increasing by score and a permutation of the input |
| `Ranking.SortedPermutationsAgreeOnScores` | src/main/java/Search/QueryRetrievalModel.java:55-59 | any two sorted permutations of the same list have the same sequence of scores, whatever order they give to ties |
| `Retrieval.LastFreq` | src/main/java/Search/QueryRetrievalModel.java:79-86 | a frequency is defined for a document exactly when the posting list mentions it |
| `Retrieval.LastFreqIsLastEntry` | src/main/java/Search/QueryRetrievalModel.java:79-86 | that frequency comes from an entry for the document with no later entry for it |
| `Retrieval.AddPostingsAt` | src/main/java/Search/QueryRetrievalModel.java:79-86 | after one token's postings, a listed document gains the token with its last frequency on top of its earlier terms; every other document keeps its inner map |
| `Retrieval.AddPostingList` | src/main/java/Search/QueryRetrievalModel.java:79-86 | the inner loop, with its getOrDefault/putIfAbsent/put, computes `AddPostings` |
| `Retrieval.AggregateAt` | src/main/java/Search/QueryRetrievalModel.java:64-89 | a document is in the map exactly when a counted token's posting list mentions it; its inner map holds exactly those tokens, each with its last frequency |
| `Retrieval.AggregateIsExpected` | src/main/java/Search/QueryRetrievalModel.java:64-89 | the map equals a single reference comprehension |
| `Retrieval.AggregateSound` | src/main/java/Search/QueryRetrievalModel.java:64-89 | every document comes from a counted token, every inner map is non-empty, and every key is a counted query token |
| `Retrieval.AggregateComplete` | src/main/java/Search/QueryRetrievalModel.java:64-89 | every posting of every counted token lands in the map, with its last frequency |
| `Retrieval.AggregateDependsOnlyOnCountedTokens` | src/main/java/Search/QueryRetrievalModel.java:67-87 | two token lists with the same counted tokens give the same map |
| `Retrieval.AggregateDependsOnlyOnTokenSet` | src/main/java/Search/QueryRetrievalModel.java:67-87 | reordering or repeating tokens does not change the map |
| `Retrieval.CountedTokens` | src/main/java/Search/QueryRetrievalModel.java:73-77 | the result holds exactly the tokens whose collection frequency is not 0 |
| `Retrieval.ZeroFrequencyTokensContributeNothing` | src/main/java/Search/QueryRetrievalModel.java:73-77 | dropping the tokens whose collection frequency is 0 gives the same map |
| `Retrieval.NewTermsSpec` | src/main/java/Search/QueryRetrievalModel.java:68-72 | the index is asked for exactly the tokens that were not cached, each once |
| `Retrieval.CacheFillSpec` | src/main/java/Search/QueryRetrievalModel.java:68-73 | the cache grows by exactly the tokens; old entries keep their values; new entries hold the index's collection frequency |
| `Retrieval.CacheInsert` | src/main/java/Search/QueryRetrievalModel.java:68-72 | fetching an uncached term keeps the cache consistent with the index and keeps fetches unique |
| `Retrieval.QueryLikelihood` | src/main/java/Search/QueryRetrievalModel.java:91-95 | the scoring stub returns no documents |
| `Retrieval.QueryRetrievalModel.constructor` | src/main/java/Search/QueryRetrievalModel.java:16-20 | the model starts with an empty cache and no fetches |
| `Retrieval.QueryRetrievalModel.CollectionFreqOf` | src/main/java/Search/QueryRetrievalModel.java:68-73 | returns the index's collection frequency; the index is asked only for an uncached token, which is then cached |
| `Retrieval.QueryRetrievalModel.PopulateQueryResult` | src/main/java/Search/QueryRetrievalModel.java:64-89 | returns `Aggregate`; the new cache is `CacheFill`; the index is asked for exactly `NewTerms`; the cache stays consistent |
| `Retrieval.QueryRetrievalModel.InternalQueryOne` | src/main/java/Search/QueryRetrievalModel.java:51-62 | returns the sorted, scored aggregation, which is empty |
| `Retrieval.QueryRetrievalModel.RetrieveQuery` | src/main/java/Search/QueryRetrievalModel.java:41-46 | answers the tokens of split(" "); returns no documents; the cache is updated for those tokens |
| `Retrieval.QueryTokensAreSurvivingStems` | src/main/java/Search/QueryRetrievalModel.java:42-43 | on content that `normalizeString` produced, with a stemmer that adds no space to a word without one, the split gives back exactly the surviving stems; when none survives it gives one empty token, so the "no tokens" guard never fires |

## Left out

- The driver `HW3Main` is not part of this model. Neither are `Classes.Path`, `Classes.Query`, `Classes.Document`, `Classes.Stemmer` or `IndexingLucene.MyIndexReader`.
  - The query and the document are datatypes holding only the fields that are used.
  - The stemmer is a function parameter.
  - The index reader is a pair of functions.
- File I/O is not modelled.
  - A file is its sequence of lines, and a file that cannot be opened is `None`.
  - `BufferedReader`'s splitting into lines is not modelled.
  - An I/O error part-way through the stop-word stream is not modelled. The model loads either all stop words or none.
  - `readLine` on a closed reader is modelled as the caught `IOException`.
- Stack traces and the "not in collection" message on the error stream are not modelled.
- The `IOException` that the index reader may throw is not modelled. The lookups are total functions.
- Scoring is not modelled:
  - `mu` and its getter and setter are left out, since the scoring stub never reads `mu`;
  - there is no Dirichlet smoothing: `queryLikelihood` returns an empty list, as the source does.
- A Dafny string is a sequence of Unicode scalar values, while Java strings count UTF-16 code units. Lengths, `substring(8)` on a `<title>` line and the title-length failure count characters, not code units.
  - For `"<title>😀abc"` Java's `substring(8)` starts inside the surrogate pair and keeps half of it; the model's `[8..]` gives `"abc"`.
  - Characters outside the Basic Multilingual Plane are therefore not modelled as Java splits them.
- `toLowerCase(Locale.US)` is modelled for ASCII letters only. Case mapping of other characters is not modelled.
- `Retrieval.QueryRetrievalModel.InternalQueryOne` ignores `topN`, as the source does. The result is not cut to `topN` documents.
- `Ranking.SortByScore` states sorted-and-a-permutation, not the tie order of Java's `List.sort`.
  - The sort runs in place on the `ArrayList`; the model sorts on values.
  - The comparator never answers 0 (see `ComparatorNeverEqual`), so for some inputs the library sort may reject it with an exception. The model does not capture this. The list it sorts is always empty.
- The inner `HashMap`s that `populateQueryResult` updates through an alias are modelled by value. Each `put` through the alias is written back into the outer map.
- Integer widths: `long` collection frequencies and `int` document ids and frequencies are unbounded integers. They are only copied, never computed.
- `Iterator.remove` (inherited, unsupported) is not modelled.
