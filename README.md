# YouTube comment analyzer: the analysis core in Dafny

The backend takes a YouTube video URL and extracts the video id. It fetches the video's
comments, then answers with three things: the number of comments, how many are positive,
neutral and negative, and the twenty most frequent keywords. This project models the parts
of that backend that decide the answer:

- `backend/analyzer/keywords.py`, the `KeywordExtractor` (`keywords.dfy`). It covers the
  janome path and the regex-and-split fallback, the meaningful-word test, counting with
  `collections.Counter`, and `most_common(n)`.
- `backend/analyzer/sentiment.py`, the `SentimentAnalyzer` (`sentiment.dfy`). It covers the
  polarity-score path with the 0.1 / -0.1 thresholds, the keyword-list fallback, and the
  tally of a batch.
- `backend/main.py` (`api.dfy`). It covers `extract_video_id`, with its three regular
  expressions modelled as the regex engine runs them. It also covers the body of the
  `POST /api/analyze` handler: the error mapping and the assembly of the response.

Supporting modules model the Python behaviour the core relies on:

- `text.dfy`: `str.isspace`, `str.isdigit`, the `in` operator on strings, `str.split()`,
  `str.strip()`, and the three `re.sub` calls of the fallback tokenizer.
- `counting.dfy`: `Counter` and `most_common`.
- `seqs.dfy`: list comprehensions with a condition, and flattening.
- `wrappers.dfy`: `Option` and `Result`.

The two third-party analyzers are parameters.

- The janome tokenizer is a function from a text to its tokens, or `None` when it raises.
- The oseti analyzer is a function from a text to its polarity scores, or `None` when it
  raises.
- What happened at construction is a probe value: library not installed, constructor
  failed, or available with its function. A missing or failing library leaves the
  attribute `None` for the object's lifetime, which is why the analyzer and extractor
  fields are `const`.
- The comment fetch of `analyze_comments` is a parameter too. It returns the comments, or
  the status and detail of the `HTTPException` the client raised.

The imperative parts are methods, proved against the functions that specify them:

- the loops of `_extract_simple`, `_extract_with_janome`, `extract_keywords`,
  `get_word_frequency` and `analyze_batch`;
- the counting loop of `Counter`.

The properties are proved of those functions. The keyword list is sometimes described
as "strictly descending by count". The code does not make it strict, and the model follows
the code: equal counts are allowed, and they keep the order in which the words were first
extracted.

## Model

| member | source | states |
|---|---|---|
| Keywords.KeywordExtractor.constructor | backend/analyzer/keywords.py:16-27 | a tokenizer exists exactly when janome is installed and its constructor succeeded; otherwise the field is None |
| Keywords.PosHead | backend/analyzer/keywords.py:85 | the head category is the longest comma-free prefix of the part-of-speech string, stopping at the first comma or at the end |
| Keywords.IsMeaningful | backend/analyzer/keywords.py:123-137 | defines `_is_meaningful_word`: the three rejecting tests in source order |
| Keywords.KeepMorpheme | backend/analyzer/keywords.py:89-93 | defines the five-part token test of the janome path |
| Keywords.IsMeaningfulIff | backend/analyzer/keywords.py:123-137 | a word is meaningful exactly when it contains none of "http", "@", ".com", is not made only of symbols and whitespace, and is not one character repeated more than twice |
| Keywords.CharSetSingleton | backend/analyzer/keywords.py:134 | `len(set(word)) == 1` holds exactly when the word is non-empty and every character equals the first |
| Keywords.RejectedExamples | backend/analyzer/keywords.py:126-135 | "wwwww", "笑笑笑" and "http://x.com" are not meaningful |
| Keywords.SymbolsRejected | backend/analyzer/keywords.py:130-131 | "!?" followed by an ideographic space is not meaningful |
| Keywords.MeaningfulExample | backend/analyzer/keywords.py:123-137 | "面白い" is meaningful |
| Keywords.JanomeWords | backend/analyzer/keywords.py:83-95 | defines the words the janome loop collects: the surfaces of the tokens that pass the token test, in order |
| Keywords.JanomeWordsSpec | backend/analyzer/keywords.py:83-95 | every word of the janome path passes the length, stopword and meaningful tests and is not all digits; a word is collected exactly when some token with that surface passes all five tests of lines 89-93 |
| Keywords.JanomeWordsAppend | backend/analyzer/keywords.py:83-95 | the words of two token lists in a row are the words of the first followed by those of the second |
| Keywords.Surfaces | backend/analyzer/keywords.py:86 | one surface per token, in token order |
| Keywords.CleanText | backend/analyzer/keywords.py:106-108 | defines the text after the three `re.sub` calls, in source order |
| Keywords.Candidates | backend/analyzer/keywords.py:111 | defines `[w.strip() for w in text.split() if w.strip()]` on the cleaned text |
| Keywords.SimpleWords | backend/analyzer/keywords.py:103-121 | defines what `_extract_simple` returns: the candidates that pass the common tests, in order |
| Keywords.CandidatesChars | backend/analyzer/keywords.py:106-111 | the stripping comprehension keeps the output of `split()` as it is, and the candidates run together are exactly the text's characters that are not whitespace, ASCII punctuation or ASCII digits, in order |
| Keywords.SimpleWordsSpec | backend/analyzer/keywords.py:103-121 | every word of the fallback passes the common tests, holds only characters that are not whitespace, ASCII punctuation or ASCII digits, and the words run together are a subsequence of the text |
| Keywords.SimpleWordsChars | backend/analyzer/keywords.py:106-111 | no fallback word holds whitespace, an ASCII punctuation character or an ASCII digit |
| Keywords.CandidateChar | backend/analyzer/keywords.py:106-111 | every character of every candidate survives the three substitutions |
| Keywords.SimpleWordsOrder | backend/analyzer/keywords.py:103-121 | the fallback words appear in the order of the text, without overlap |
| Keywords.FilterDigitsThenSpaces | backend/analyzer/keywords.py:107-111 | deleting ASCII digits and then keeping non-whitespace keeps exactly the characters that are neither |
| Keywords.FilterBlankPunct | backend/analyzer/keywords.py:106 | after ASCII punctuation becomes spaces, keeping what is neither whitespace nor an ASCII digit keeps exactly the text's characters that are neither whitespace, ASCII punctuation nor ASCII digits |
| Keywords.KeywordExtractor.JanomeOrSimple | backend/analyzer/keywords.py:78-101 | defines what `_extract_with_janome` returns: the janome words when the tokenizer yields its tokens; the fallback when it raises or there is none |
| Keywords.KeywordExtractor.TopKeywords | backend/analyzer/keywords.py:45-69 | defines what `extract_keywords` returns: `most_common(top_n)` of the counter of all extracted words |
| Keywords.KeywordExtractor.Frequency | backend/analyzer/keywords.py:139-146 | defines what `get_word_frequency` returns: the counts of that counter |
| Keywords.KeywordExtractor.WordsFromText | backend/analyzer/keywords.py:71-76 | every word extracted from one text passes the length, stopword and meaningful tests, whichever path was taken |
| Keywords.KeywordExtractor.AllWords | backend/analyzer/keywords.py:56-60 | every word collected from a batch passes the common tests |
| Keywords.KeywordExtractor.ExtractSimple | backend/analyzer/keywords.py:103-121 | the method returns the fallback's words for the text |
| Keywords.KeywordExtractor.KeepCommon | backend/analyzer/keywords.py:114-121 | the loop keeps exactly the words that pass the three tests, in order |
| Keywords.KeywordExtractor.ExtractWithJanome | backend/analyzer/keywords.py:78-101 | the loop collects the janome words of the tokens; when the tokenizer raises, or there is none, the result is the fallback's |
| Keywords.KeywordExtractor.ExtractWordsFromText | backend/analyzer/keywords.py:71-76 | the janome path with a tokenizer, the fallback without one |
| Keywords.KeywordExtractor.CollectWords | backend/analyzer/keywords.py:56-60 | the loop concatenates the words of every text, in text order |
| Keywords.KeywordExtractor.ExtractKeywords | backend/analyzer/keywords.py:45-69 | at most `top_n` pairs (none for `top_n <= 0` and none for no texts); each pair is an extracted word with the number of times it was extracted, at least 1, and passes the common tests; counts never increase along the list |
| Keywords.KeywordExtractor.GetWordFrequency | backend/analyzer/keywords.py:139-146 | the keys are exactly the extracted words, each with its number of occurrences, and the counts add up to the number of extracted words |
| Keywords.TopAgreesWithFrequency | backend/analyzer/keywords.py:139-146 | every pair that `extract_keywords` returns has the count that `get_word_frequency` gives on the same texts |
| Keywords.TopKeywordsAreTop | backend/analyzer/keywords.py:63-66 | a word left out never has a larger count than one kept; for every count, the words kept with that count are the first ones, in order of first extraction, of all words with that count |
| Keywords.DegradedExtractorIsSimple | backend/analyzer/keywords.py:71-76 | without a tokenizer every text goes through the fallback |
| Text.IsSpace | backend/analyzer/keywords.py:108-111 | defines `str.isspace()` on one code point, the table that `\s`, `split()` and `strip()` use |
| Text.IsDigitString | backend/analyzer/keywords.py:92 | defines `word.isdigit()`: non-empty and made of digits only |
| Text.Strip | backend/analyzer/keywords.py:111 | defines `word.strip()`: leading and trailing whitespace removed |
| Text.StripAll | backend/analyzer/keywords.py:111 | defines the comprehension `[w.strip() for w in ws if w.strip()]` |
| Text.CollapseSpaces | backend/analyzer/keywords.py:108 | defines `re.sub(r'\s+', ' ', text)`: every maximal whitespace run becomes one space |
| Text.BlankPunct | backend/analyzer/keywords.py:106 | defines the first substitution: every ASCII punctuation character becomes a space, and the length stays the same |
| Text.DeleteDigits | backend/analyzer/keywords.py:107 | defines `re.sub(r'[0-9]+', '', text)`: every ASCII digit is deleted |
| Text.ContainsIff | backend/analyzer/keywords.py:126 | `p in s` holds exactly when `p` occurs in `s` at some index |
| Text.SearchIff | backend/analyzer/keywords.py:126 | the left-to-right search from index `i` succeeds exactly when `p` occurs at some index from `i` on |
| Text.DropSpaces | backend/analyzer/keywords.py:111 | the result is a suffix starting with no whitespace, and everything dropped is whitespace |
| Text.TakeWord | backend/analyzer/keywords.py:111 | the result is the longest whitespace-free prefix |
| Text.SplitWords | backend/analyzer/keywords.py:111 | `split()` returns only non-empty words without whitespace |
| Text.StripAllOfWords | backend/analyzer/keywords.py:111 | stripping and dropping empty pieces changes nothing on the output of `split()` |
| Text.SplitWordsCollapse | backend/analyzer/keywords.py:108-111 | collapsing whitespace runs does not change what `split()` returns |
| Text.SplitWordsLeadingWord | backend/analyzer/keywords.py:111 | a word followed by nothing or by whitespace comes first in `split()`, followed by the split of the rest |
| Text.SplitWordsLeadingSpace | backend/analyzer/keywords.py:111 | leading whitespace does not change what `split()` returns |
| Text.FlattenSplitWords | backend/analyzer/keywords.py:111 | the words of `split()` run together are the non-whitespace characters of the text, in order |
| Text.FilterCollapse | backend/analyzer/keywords.py:108 | collapsing whitespace keeps the non-whitespace characters as they are |
| Counting.Distinct | backend/analyzer/keywords.py:63 | the key order of a dict filled from a list: no duplicates, and exactly the list's elements |
| Counting.CounterOf | backend/analyzer/keywords.py:63 | `Counter(words)` has distinct keys in first-occurrence order, each with its multiplicity, at least 1 |
| Counting.CountWords | backend/analyzer/keywords.py:63 | the counting loop produces `Counter(words)`: the keys are the words, each with its number of occurrences |
| Counting.CounterOfSnoc | backend/analyzer/keywords.py:63 | counting one more word appends a new key with count 1, or adds one to an existing key |
| Counting.MostCommon | backend/analyzer/keywords.py:66 | defines `most_common(n)`: the first `n` keys of the stable sort by descending count, each with its count |
| Counting.MostCommonLength | backend/analyzer/keywords.py:66 | `most_common(n)` has `n` items, or all keys when there are fewer, and none for `n <= 0` |
| Counting.MostCommonItems | backend/analyzer/keywords.py:66 | every item is a key with its own count, at least 1, and no key appears twice |
| Counting.MostCommonOrdered | backend/analyzer/keywords.py:66 | counts never increase along the result |
| Counting.MostCommonIsTop | backend/analyzer/keywords.py:66 | no key left out has a larger count than a key taken |
| Counting.MostCommonTies | backend/analyzer/keywords.py:66 | for every count, the keys taken with it are a prefix, in insertion order, of the keys with it |
| Counting.SortNonIncreasing | backend/analyzer/keywords.py:66 | the sort by count leaves counts non-increasing |
| Counting.SortOfCount | backend/analyzer/keywords.py:66 | the sort is stable: the keys of each count keep their order |
| Counting.Insert | backend/analyzer/keywords.py:66 | inserting a key adds exactly that key: the result is the input plus it, as a multiset, and starts with it or with the input's first key |
| Counting.SortByCount | backend/analyzer/keywords.py:66 | the sort by count is a permutation of the keys |
| Counting.InsertOfCount | backend/analyzer/keywords.py:66 | an inserted key goes ahead of every key that has its count, and the other keys of each count keep their order |
| Counting.CounterTotal | backend/analyzer/keywords.py:146 | the counts of `Counter(words)` add up to the number of words |
| Sentiment.SentimentAnalyzer.constructor | backend/analyzer/sentiment.py:14-25 | an analyzer exists exactly when oseti is installed and its constructor succeeded |
| Sentiment.CountPresent | backend/analyzer/sentiment.py:102-103 | a keyword count is at most the length of its list |
| Sentiment.Present | backend/analyzer/sentiment.py:102-103 | the entries counted are exactly the list entries that occur in the text |
| Sentiment.CountPresentIsEntries | backend/analyzer/sentiment.py:102-103 | a count is the number of distinct list entries present, however often each occurs |
| Sentiment.CountPresentOnlyOccurrence | backend/analyzer/sentiment.py:102-103 | texts that contain the same entries give the same count |
| Sentiment.CountPresentExtend | backend/analyzer/sentiment.py:102-103 | text added at either end never lowers a count |
| Sentiment.CountPresentNone | backend/analyzer/sentiment.py:102-103 | no entry present gives 0 |
| Sentiment.CountPresentSome | backend/analyzer/sentiment.py:102-103 | one entry present gives at least 1 |
| Sentiment.SimpleSentiment | backend/analyzer/sentiment.py:80-110 | defines `_simple_sentiment_analysis`: the two keyword counts, compared |
| Sentiment.CompareCounts | backend/analyzer/sentiment.py:105-110 | positive exactly when the positive count is larger, negative exactly when the negative count is larger, neutral exactly on equal counts |
| Sentiment.CompareCountsMirror | backend/analyzer/sentiment.py:105-110 | exchanging the two counts exchanges positive and negative |
| Sentiment.SimpleCountsBounded | backend/analyzer/sentiment.py:86-103 | the counts are at most 20 and 18, the sizes of the two lists |
| Sentiment.SimpleExamplePositive | backend/analyzer/sentiment.py:80-110 | "素晴らしい" is positive |
| Sentiment.SimpleExampleNegative | backend/analyzer/sentiment.py:80-110 | "最悪" is negative |
| Sentiment.SimpleExampleNeutral | backend/analyzer/sentiment.py:80-110 | "普通のコメントです" is neutral: it holds no keyword of either list; its "す" starts "すごい", but "すごい" does not occur |
| Sentiment.SimpleExampleNegated | backend/analyzer/sentiment.py:80-110 | "面白くない" is neutral: a keyword counts only as a whole, and "面白い" does not occur in it |
| Sentiment.BestIsPositive | backend/analyzer/sentiment.py:80-110 | "最高でした" is positive |
| Sentiment.BoringIsNegative | backend/analyzer/sentiment.py:80-110 | "つまらない" is negative |
| Sentiment.Sum | backend/analyzer/sentiment.py:42 | defines `sum(scores)`, over the reals |
| Sentiment.Classify | backend/analyzer/sentiment.py:42-49 | positive exactly above 0.1, negative exactly below -0.1, neutral between them, both ends included |
| Sentiment.ClassifyMonotoneAndSymmetric | backend/analyzer/sentiment.py:44-49 | a larger score never gets a lower label, and negating the score mirrors the label |
| Sentiment.ScoreExamples | backend/analyzer/sentiment.py:39-49 | no scores are neutral; 0.5 and -0.3 are positive; 0.05 and 0.05 are neutral; -0.2 is negative |
| Sentiment.SentimentAnalyzer.AnalyzeText | backend/analyzer/sentiment.py:27-55 | defines `analyze_text`: the label of the summed scores when the analyzer answers; the keyword classifier when there is no analyzer or it raises |
| Sentiment.NameInjective | backend/analyzer/sentiment.py:67-71 | the three labels have three different dictionary keys |
| Sentiment.SentimentAnalyzer.Labels | backend/analyzer/sentiment.py:73-74 | one label per text, in order, each the label of that text |
| Sentiment.SentimentAnalyzer.TallyOf | backend/analyzer/sentiment.py:67-75 | the tally always has exactly the three label keys |
| Sentiment.SentimentAnalyzer.AnalyzeBatch | backend/analyzer/sentiment.py:57-78 | the loop's counts have exactly the three keys; each holds the number of texts with that label, the three add up to the number of texts, and all three are 0 for no texts |
| Sentiment.TallyCounts | backend/analyzer/sentiment.py:67-75 | each bucket holds the number of texts with that label, and the buckets add up to the number of texts |
| Sentiment.FallbackIsSimple | backend/analyzer/sentiment.py:37-55 | without an analyzer, or when it raises on a text, the keyword classifier decides |
| Sentiment.TallyTwoToOne | backend/analyzer/sentiment.py:67-75 | two positive texts and one negative give the tally 2 / 0 / 1 |
| Sentiment.DegradedBatchExample | backend/analyzer/sentiment.py:57-78 | without an analyzer, "最高でした", "つまらない", "最高でした" tally 2 positive, 0 neutral, 1 negative |
| Api.ExtractVideoId | backend/main.py:54-67 | defines `extract_video_id`: the id from the first pattern that matches, or the `ValueError` message |
| Api.SearchPattern | backend/main.py:57-59 | defines `re.search` of one pattern: the group of the leftmost match, trying the optional-group alternatives in the engine's order at each start position |
| Api.FirstPattern | backend/main.py:62-66 | defines the loop over the patterns: the first that matches decides |
| Api.IdRun | backend/main.py:57-59 | the captured group is the longest run of `[a-zA-Z0-9_-]` at its start |
| Api.TryPrefixes | backend/main.py:57-59 | a match attempt that succeeds leaves the marker at a good position: the marker occurs and an id character follows |
| Api.FirstGood | backend/main.py:57-59 | a found position is good and lies at or after the start |
| Api.FirstGoodSpec | backend/main.py:57-59 | the position found is the first good one, and none is found only when there is none |
| Api.MatchIsFirstGood | backend/main.py:57-59 | when the match attempt at position `p` succeeds, its marker is at the first good position from `p` on; when it fails, no good marker starts at `p`. This holds because no prefix alternative contains a 'y' and every marker starts with one |
| Api.SearchPatternIsFirstGood | backend/main.py:57-59 | `re.search` with the optional scheme and `www.` groups finds the id after the first marker that an id character follows |
| Api.PatternIsFirstGood | backend/main.py:57-63 | the same, for each of the three patterns |
| Api.FirstPatternSpec | backend/main.py:62-67 | the patterns tried in order fail exactly when no marker anywhere is good; otherwise the id comes from the first pattern with a good marker, at its first good position |
| Api.ExtractVideoIdOk | backend/main.py:54-65 | a returned id is non-empty, made of id characters, and taken whole from after the marker of the winning pattern |
| Api.IdTakenAfter | backend/main.py:57-59 | the id run after a good marker is non-empty and is exactly the text between the marker and the first non-id character or the end |
| Api.ExtractVideoIdErr | backend/main.py:54-67 | `ValueError("無効なYouTube URLです")` is raised exactly when none of the three markers is followed by an id character |
| Api.GoodShift | backend/main.py:57-59 | text without 'y' written in front shifts the good marker positions and adds none |
| Api.FirstGoodShift | backend/main.py:57-59 | the first good position shifts by the length of text without 'y' written in front |
| Api.PrefixIrrelevant | backend/main.py:57-59 | text without 'y' written in front of a url, a scheme or `www.` for instance, does not change the result |
| Api.OptionalPrefixesIrrelevant | backend/main.py:57-59 | each alternative of the optional groups, written in front of a url, does not change the result |
| Api.ShortLinkExample | backend/main.py:54-65 | the id of "https://youtu.be/abc" is "abc" |
| Api.AnalyzeCommentsAsWritten | backend/main.py:79-120 | defines the handler as written: 400 for a bad url, and 500 for every other failure, including the 404 of line 89 |
| Api.AnalyzeComments | backend/main.py:79-120 | defines the corrected handler: the same, except that the 404 of line 89 and the client's status reach the caller |
| Api.BuildResponse | backend/main.py:92-111 | defines the response: the three buckets of `analyze_batch`, the pairs of `extract_keywords(comments, 20)`, and the number of comments |
| Api.KeywordItems | backend/main.py:106-109 | one `KeywordItem` per pair, in order, with its word and count |
| Api.AnalyzeCommentsSuccess | backend/main.py:92-113 | the handler answers exactly when the url has an id and the fetch returns comments. The answer's total is the number of comments. The three sentiment fields are the buckets of `analyze_batch`, and they add up to the total. The keywords are the pairs of `extract_keywords(comments, 20)` in order: at most 20, largest counts first |
| Api.AnalyzeCommentsFailure | backend/main.py:79-89 | 400 with the `ValueError` message for a url without an id; the client's own status and detail for a failed fetch; 404 for no comments |
| Api.AsWrittenMasksStatus | backend/main.py:115-120 | as written, every failure other than a bad url is a 500 with the generic message; otherwise the handler as written and the intended one agree |
| Api.EmptyCommentsExample | backend/main.py:88-89 | a valid url whose video has no comments gets 500 as written and 404 as intended |

## Left out

- I/O and logging are not modelled. The `logger` calls have no effect on results.
- The FastAPI application is not modelled: the routes, CORS, `uvicorn`, and the pydantic
  request and response classes. The response classes become datatypes.
- The url reaches `extract_video_id` after pydantic's `HttpUrl` validation and `str()`. The
  model takes that string as given. A url that pydantic rejects never reaches the handler.
- `async`/`await` is not modelled: the fetch is a parameter that returns its outcome.
- `backend/api/youtube.py`, the comment client, is not part of this model. Only its
  outcome is: the comments, or the status and detail of the `HTTPException` it raises.
- `Api.AnalyzeCommentsAsWritten` and `Api.AnalyzeComments` assume the analyzers do not
  raise. Both modelled analyzers catch their own exceptions. An exception from the
  counting or from the response constructors would also become the 500 of line 120, but
  those code paths end in values.
- The internals of janome and oseti are not modelled. Each is a function parameter.
  - A tokenizer that raises part-way through a text is modelled as raising before it
    yields anything. The partial word list is discarded in both cases, so the result is
    the same.
  - The model treats any tokenizer or analyzer object as true in `if self.tokenizer` and
    `if self.analyzer`.
- The polarity scores are real numbers, not floating point. `sum` has no rounding in the
  model, so a sum within rounding distance of ±0.1 may be classified differently from the
  running program.
- `Text.IsDigitChar`: `str.isdigit()` covers several hundred Unicode digit characters. The
  model lists the ASCII, Arabic-Indic, Devanagari, Thai, full-width, superscript, subscript
  and circled digits only. The janome path's "not all digits" test is exact only for those.
- `Text.IsSpace` is the `str.isspace()` table for code points. `re`'s `\s` in line 108 uses
  the same table for `str` patterns.
- The sentiment tally is keyed by a `Label` datatype, not by the strings 'positive',
  'neutral' and 'negative'. `Sentiment.Name` gives the string of each label.
- The default argument `top_n=20` of `extract_keywords` is not modelled; callers pass the
  number.
- Keywords.KeywordExtractor.GetWordFrequency: it returns a `map`, which has no key order.
  The source's `dict(Counter(...))` keeps the order in which words were first extracted,
  but no caller in the core relies on it.

## Findings

| source | as written | input that shows it | evidently intended | confidence | as-written member | corrected member |
|---|---|---|---|---|---|---|
| backend/main.py:88-89, 115-120 | The 404 raised for an empty comment list is caught by the handler's own `except Exception`. It becomes a 500 "分析処理中にエラーが発生しました". The client's 403 and 404 `HTTPException`s become 500 the same way. | url "https://youtu.be/abc" whose video has no comments | 404 "コメントが見つかりませんでした" for no comments; the client's status passes through | not executed | Api.AnalyzeCommentsAsWritten (shown by Api.EmptyCommentsExample and Api.AsWrittenMasksStatus) | Api.AnalyzeComments (Api.AnalyzeCommentsFailure, Api.AnalyzeCommentsSuccess) |
