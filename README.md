# Korean creator search, modelled in Dafny

This project models the creator-evaluation pipeline of the YouTube creator
search tool (`app.py`). When the search button is pressed, the tool does the
following:

1. It splits the keyword input on commas and strips each piece.
2. It searches the channels for each keyword, one keyword after another.
3. For every channel found, it keeps the channel if three tests pass:
   - its title or its description is Korean;
   - its channel lookup succeeds;
   - its recent long-form videos perform well enough for its subscriber count.
4. For each kept channel it resolves a contact e-mail, either from the channel
   description or from a text-generation model, and appends one row to the
   result table.

The external calls are not executed; the model takes them as functions:

- the channel search;
- the channel lookup;
- the upload fetch, which covers the playlist-items request and the
  video-statistics request;
- the text-generation model.

They are the fields of `CreatorSearch.Platform`. What `None` stands for
differs per function:

- Search: the request or the reading of its answer raises. That exception is
  not caught, so the run ends there.
- Channel lookup: the request raises, the answer has no channel, a field the
  loop reads is missing, or the subscriber count is not an integer. The item
  is skipped.
- Upload fetch: the playlist or statistics request raises, or its answer lacks
  a field that `check_performance` reads outside `.get`. The channel does not
  qualify.
- Text-generation model: the call raises. `extract_email_ai` then answers
  "AI 검색 실패".

A video whose view count is missing reads as 0, as `.get('viewCount', 0)`
does. A selected video whose view count `int()` rejects, or which has no
statistics block, is `ViewCount.Malformed` inside the returned videos, not
`None`. It also makes the channel not qualify.

Modules:

- `Wrappers`: `Option`.
- `Text`:
  - `str.strip()`, with exactly the characters `str.isspace()` accepts;
  - `str.split(",")`, with its inverse `JoinWith`.
- `LanguageDetector`: `is_korean`. The class `[ㄱ-ㅎ|가-힣]` is modelled as
  written. It covers the consonants U+3131..U+314E and the syllables
  U+AC00..U+D7A3. Inside a character class `|` is an ordinary character, so
  the class also admits `|`, and it leaves out the Hangul vowels ㅏ..ㅣ
  (U+314F..U+3163). ASCII text that contains `|` therefore counts as Korean.
  `ClassBoundaries` pins these edges down.
- `EmailExtractor`:
  - the pattern `[a-zA-Z0-9._%+-]+@[a-zA-Z0-9.-]+\.[a-zA-Z]{2,}`, given both as
    a declarative match predicate and as a greedy matcher;
  - proofs that the matcher finds the leftmost match, and the longest match at
    that start, as `re.findall(...)[0]` does;
  - `extract_email_ai` with its three fixed sentinel strings.
- `PerformanceEvaluator`: `check_performance`.
  - It keeps the first ten videos whose duration mentions `M` or `H`.
  - It takes the mean of their view counts, reading a missing count as 0.
  - The efficiency is that mean divided by the subscriber count.
  - Both thresholds are inclusive.
  - The arithmetic is exact (`real`).
- `CreatorSearch`:
  - the per-item decision;
  - the specification of a run, keyword by keyword;
  - the run itself as a method with the two nested loops (`RunSearch`, which
    calls `CollectRecords` for the inner loop and `ProcessItem` for its body).

The run's result keeps the code's behaviour:

- Records appear in search order and keyword order.
- Nothing is de-duplicated. The same channel found under two keywords gives
  two rows, and so does the same keyword given twice.
- Nothing is ranked.
- An empty keyword, such as the one after a trailing comma, is still searched.
- A search that raises ends the whole run, because it is outside any `try`.
- A failed channel lookup or performance check only skips that item.

## Model

| member | source | states |
|---|---|---|
| Text.SkipSpace | app.py:120 | the index reached is the first non-whitespace character at or after the start, and everything skipped is whitespace |
| Text.SkipSpaceBack | app.py:120 | the index reached is one past the last non-whitespace character, and everything skipped is whitespace |
| Text.Strip | app.py:120 | `strip()` yields a contiguous slice of the input that starts and ends with non-whitespace, with only whitespace outside it |
| Text.StripIdempotent | app.py:120 | stripping a stripped string changes nothing |
| Text.StripKeepsNonSpace | app.py:120 | every non-whitespace character of the input lies inside the stripped slice |
| Text.SplitOn | app.py:120 | `split(",")` gives one more piece than there are commas, and no piece contains a comma |
| Text.JoinSplit | app.py:120 | joining the pieces with the separator gives back the input |
| Text.SplitJoin | app.py:120 | splitting a join of separator-free pieces gives back exactly those pieces |
| LanguageDetector.IsKorean | app.py:97-98 | a text is Korean exactly when one of its characters is in the class U+3131..U+314E, U+AC00..U+D7A3 or `\|` |
| LanguageDetector.AsciiIsNotKorean | app.py:97-98 | ASCII text without `\|` is never Korean |
| LanguageDetector.KoreanConcat | app.py:97-98 | a concatenation is Korean exactly when one of its parts is |
| LanguageDetector.ClassBoundaries | app.py:98 | `"\|"` is Korean and U+314F (ㅏ) is not; the first and last consonant and syllable are Korean and their outer neighbours are not |
| EmailExtractor.RunEnd | app.py:151 | the end of the longest run of one character class from a position |
| EmailExtractor.LastLabel | app.py:151 | the last dot before a bound that is followed by two letters, or none |
| EmailExtractor.MatchEndAt | app.py:151 | the end of the greedy match at a start position, or none |
| EmailExtractor.RunEndCovers | app.py:151 | any run of characters of the class from a position ends no later than the maximal run from there |
| EmailExtractor.MatchEndAtSound | app.py:151 | what the greedy matcher returns at a start is a match of the pattern |
| EmailExtractor.MatchEndAtComplete | app.py:151 | if any match starts at a position, the greedy matcher finds one there at least as long as it |
| EmailExtractor.MatchFrom | app.py:151 | the first match at or after a position, if any |
| EmailExtractor.MatchFromLeftmostLongest | app.py:151 | the first match found from a position starts leftmost and is the longest at its start; none means no match starts there or later |
| EmailExtractor.FirstMatch | app.py:151 | `re.findall(...)[0]`: none exactly when the text has no match; otherwise a match that starts leftmost and is longest at that start |
| EmailExtractor.MatchHasAt | app.py:151 | every match contains `@` |
| EmailExtractor.MatchIsLong | app.py:151 | every match is at least six characters long |
| EmailExtractor.ShortTextHasNoMatch | app.py:151 | a description shorter than six characters once stripped has no match |
| EmailExtractor.SentinelsHaveNoAt | app.py:86-95 | none of the three sentinel strings contains `@` |
| EmailExtractor.ExtractEmailAi | app.py:86-95 | "설명란 없음" exactly when the stripped description is shorter than 5; "AI 검색 실패" exactly when the model call fails on a long enough description; any other answer is the model's stripped reply, which contains `@` and is shorter than 50; "직접 확인 필요" only when the reply fails that test |
| EmailExtractor.ResolveEmail | app.py:151-152 | with a match, the e-mail is the first match verbatim, never a sentinel; otherwise it is `extract_email_ai`'s answer; "설명란 없음" exactly when the stripped description is shorter than 5 |
| EmailExtractor.MatchIgnoresModel | app.py:152 | when the description contains a match, the model is never consulted: any two models give the same e-mail |
| EmailExtractor.ExampleMatchStart | app.py:151 | in "contact me at a@b.co" every match starts at index 14 |
| EmailExtractor.ExampleAddress | app.py:151-152 | the e-mail resolved for "contact me at a@b.co" is "a@b.co", whatever the model |
| PerformanceEvaluator.LongFormFilter | app.py:106 | the kept videos are all long-form and no more numerous than the input |
| PerformanceEvaluator.LongFormFilterCounts | app.py:106 | the filter keeps each long-form video as often as it occurs, and nothing else |
| PerformanceEvaluator.LongFormFilterAppend | app.py:106 | filtering commutes with concatenation, so the kept videos stay in answer order |
| PerformanceEvaluator.LongFormFilterAll | app.py:106 | when every video is long-form, the filter keeps them all |
| PerformanceEvaluator.LongForms | app.py:106 | `[:10]`: at most ten videos, a prefix of the filtered list, of length min(filtered, 10) |
| PerformanceEvaluator.MeanViews | app.py:108 | the mean times the number of videos is the total view count |
| PerformanceEvaluator.MinViews | app.py:108 | a view count of the list that no other view count is below |
| PerformanceEvaluator.MaxViews | app.py:108 | a view count of the list that no other view count is above |
| PerformanceEvaluator.TotalViewsBounds | app.py:108 | counts within [lo, hi] sum to within [n*lo, n*hi] |
| PerformanceEvaluator.MeanWithinRange | app.py:108 | the average lies between the smallest and the largest view count |
| PerformanceEvaluator.Ratio | app.py:109 | the efficiency times the subscriber count is the average |
| PerformanceEvaluator.CheckPerformance | app.py:100-112 | `(False, 0, 0)` when the channel has no subscribers, a fetch raises, no long-form video remains, or a selected count is malformed; otherwise avg*n = total, eff*subs = avg, and it qualifies exactly when eff >= efficiency_val/100 and avg >= min_view_floor |
| PerformanceEvaluator.QualifyingMeetsThresholds | app.py:107-111 | a qualifying channel has subscribers and at least one selected video, and meets both thresholds |
| PerformanceEvaluator.QualifiesCrossMultiplied | app.py:108-110 | for a channel with subscribers, it qualifies exactly when total*100 >= efficiency_val*n*subs and total >= min_view_floor*n |
| PerformanceEvaluator.ExampleSuffix | app.py:108 | in the worked example, the views from the k-th video on add up to 100*((k+1)+...+10) |
| PerformanceEvaluator.ExampleTenVideos | app.py:100-112 | ten long-form videos with 100..1000 views on 1000 subscribers: average 550, efficiency 0.55, qualifying exactly when 55 >= efficiency_val and 550 >= the floor |
| CreatorSearch.Evaluate | app.py:140-163 | an item yields a record exactly when its title or description is Korean, its channel lookup succeeds and the channel qualifies; the record carries the item's title, the looked-up channel's subscriber count, average views, efficiency and thumbnail, and the e-mail `ResolveEmail` gives for the channel's own description |
| CreatorSearch.RecordMeetsThresholds | app.py:144-160 | every record has a non-zero subscriber count, meets both thresholds, carries the channel URL `https://youtube.com/channel/<id>`, and its e-mail is an address with `@` or a sentinel |
| CreatorSearch.KeywordRecords | app.py:133-163 | a keyword yields at most as many records as it has search items |
| CreatorSearch.KeywordRecordProvenance | app.py:133-163 | every record of a keyword comes from one of its search items that passed |
| CreatorSearch.KeywordRecordsAppend | app.py:133-162 | the records of consecutive items follow one another, so records keep search order |
| CreatorSearch.ItemRecordInPlace | app.py:133-162 | every passing item's record sits after the records of the items before it and before those after it |
| CreatorSearch.KeywordRecordsSnoc | app.py:133-162 | one more item appends its record, if any |
| CreatorSearch.CollectStep | app.py:133-162 | one pass of the inner loop keeps the accumulated list equal to the records of the items seen so far |
| CreatorSearch.RunKeywords | app.py:129-163 | a run never ends as "no keywords" once it has keywords, and a finished run yields no more records than the search items it went through |
| CreatorSearch.FinishesIffAllSearchesSucceed | app.py:129-131 | a run finishes exactly when every keyword's search succeeds |
| CreatorSearch.FailureNamesFirstFailure | app.py:129-131 | a failed run names the first keyword whose search raised |
| CreatorSearch.RunKeywordsSnoc | app.py:129-133 | one more keyword either fails the whole run or adds its records and its item count |
| CreatorSearch.RunKeywordsAppend | app.py:129-163 | the records of a run over a+b are those of a followed by those of b |
| CreatorSearch.FailureEndsRun | app.py:131 | once a search has failed, later keywords change nothing |
| CreatorSearch.EmptySearchAddsNothing | app.py:129-133 | a keyword whose search finds nothing contributes nothing |
| CreatorSearch.RepeatedKeywordRepeatsRecords | app.py:120-163 | no de-duplication: a keyword given twice yields its records twice |
| CreatorSearch.RecordProvenance | app.py:129-163 | every record of a run comes from an item of one keyword's search that passed the item test |
| CreatorSearch.Keywords | app.py:120 | one keyword per comma-separated piece, in order, each the stripped piece, with empty pieces kept; each is stripped and holds no comma |
| CreatorSearch.KeywordsExample | app.py:120 | "a, b," gives the keywords "a", "b" and "" |
| CreatorSearch.ExampleSplit | app.py:120 | "a, b," splits into "a", " b" and "" |
| CreatorSearch.ExampleStrips | app.py:120 | stripping "a", " b" and "" gives "a", "b" and "" |
| CreatorSearch.Run | app.py:115-120 | a run reports "no keywords" exactly when the input is empty |
| CreatorSearch.ProcessItem | app.py:136-163 | the loop body for one item builds exactly the record `Evaluate` specifies, or none |
| CreatorSearch.CollectRecords | app.py:133-163 | the inner loop appends the records of the keyword's items, in order, and advances the counter by the number of items |
| CreatorSearch.RunSearch | app.py:115-163 | the run block's outcome is `Run`'s: "no keywords", the first failing search, or all records in keyword and search order; a finished run's counter `curr` is the number of items seen and bounds the number of records |

## Left out

- The Streamlit interface is not modelled. This covers the page layout, form widgets, status and progress display (`prog.progress`, `total`), the result table, CSV download and logo embedding. None of it affects which records are produced.
- Secrets loading and the API client construction are not modelled; they are configuration.
- The HTTP calls and their JSON are not modelled. They become the four oracle functions of `Platform`, with `None` for a failed call as listed above. The oracles are pure functions, so the same call always gets the same answer; the real service may answer differently twice.
- The limit of 15 items in the playlist-items request is part of the upload fetch. The model takes whatever videos that fetch returns.
- A search item is assumed to carry a title. Its absence raises outside any `try` and ends the run, which is the same outcome as a failed search.
- CreatorSearch.Evaluate: the row holds the exact average and efficiency. The table's `round(avg_v)` and the `f"{eff*100:.1f}%"` string are not modelled, because floating-point rounding and formatting are presentation.
- PerformanceEvaluator.CheckPerformance: exact rational arithmetic stands in for Python floats. A mean or ratio that lies within one rounding error of a threshold may compare differently in the source.
- CreatorSearch.RunKeywords: the run's result is stated only for how it ends and for what the records are. What is shown on screen while the run is in progress is not modelled.
