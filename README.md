# Twitter trends and search statistics, modelled in Dafny

The program asks the Twitter API for the current trends and ranks the ones that
report a tweet volume, highest first. It numbers them from 1 and, for each
trend the user picks, runs a search. The search follows the API's
`next_results` cursor for up to five pages. The program then prints three
frequency tables of that search: hashtags, mentioned screen names and words.

This project models that core:

- `tweets.dfy`, module `Tweets`: the JSON objects the code reads (statuses,
  hashtags, mentions, search pages, trends), cut down to the fields used.
- `continuation.dfy`, module `Continuation`: the parse of a `next_results`
  string into the keyword map of the next search call. The parse drops the
  leading `?`, percent-decodes, splits on `&`, splits each piece on `=` and
  builds a dict. Partners: an encoder that decoding undoes, `Join` for `Split`
  in both directions, and the example from the source comment.
- `query.dfy`, module `Query`: the `TwitterQuery` class with its fields, and
  `get_scope`, `get_next_results_kwargs`, `get_next_batch` and `send_query`.
  The file-mode pagination loop is a `while` loop proved against a recursive
  specification (`FileLoop`), and lemmas give its page accounting. `NewQuery`
  is the whole of `__init__`. The two HTTP endpoints are function parameters.
- `ranking.dfy`, module `Ranking`: the stable descending sort on integer keys.
  `sorted(..., key=lambda x: x[1], reverse=True)` and `Counter.most_common()`
  both use it. It is proved to be a permutation, ordered and stable.
- `statistics.dfy`, module `Statistics`:
  - the four nested comprehensions (texts, hashtags, screen names, words);
  - `str.split()`;
  - the `Counter`, in first-seen order;
  - the `most_common()[1:10]` rows;
  - the `Statistics` class;
  - the counting and row-adding loops, proved against the row function.
- `menu.dfy`, module `TrendMenu`: `main.py`, covering the `top_trends` filter
  and sort, `prompt`, the range check, the mapping of choice `k` to
  `top_trends[k-1]`, and the selection loop. Each pass of the loop builds a
  file-mode `TwitterQuery` and a `Statistics` through the models above. The
  lines typed are a parameter.

The selection loop runs while `hashtag not in range(1, TREND_LENGTH)`, but a
choice is accepted when it is in `range(1, TREND_LENGTH + 1)`. The two ranges
differ only when the search for an accepted choice raises. Then the loop ends
for `k < TREND_LENGTH` and prompts again for `k == TREND_LENGTH`. `RunExit`
states this as the code behaves.

## Model

| member | source | states |
|---|---|---|
| Continuation.PercentDecode | query.py:104 | `unquote` never lengthens the string |
| Continuation.DecodeNoEscape | query.py:104 | a string without `%` comes back from `unquote` unchanged |
| Continuation.DecodeEncode | query.py:104 | decoding undoes the percent-encoding of any byte string |
| Continuation.Split | query.py:104 | `str.split(sep)` yields at least one piece, and no piece contains the separator |
| Continuation.JoinSplit | query.py:104 | joining the pieces of a split with the separator gives back the string |
| Continuation.SplitJoin | query.py:104 | splitting a join of separator-free pieces gives back the pieces |
| Continuation.SplitCount | query.py:104 | a split yields one more piece than the string has separators |
| Continuation.AddPairs | query.py:104 | `dict(...)` succeeds exactly when every piece splits into two parts on `=` |
| Continuation.AddPairsKeys | query.py:104 | the built map's keys are the accumulator's keys plus every pair's key |
| Continuation.AddPairsKeeps | query.py:104 | a key no pair names keeps its earlier value |
| Continuation.AddPairsLastWins | query.py:104 | a key maps to the value of the last pair naming it |
| Continuation.Tail | query.py:104 | `next_results[1:]` is the string minus its first character |
| Continuation.Pieces | query.py:104 | the decoded query string always yields at least one `&` piece |
| Continuation.ParseKwargsOutcome | query.py:104-117 | the parse succeeds exactly when every piece holds exactly one `=`; a successful parse is never empty, so the `len(...) > 0` test always passes and the fall-through at line 117 is unreachable |
| Continuation.ParseKwargsContents | query.py:104 | a parsed map holds exactly the pieces' keys, each mapped to the value of its last piece |
| Continuation.BareQuestionMarkFails | query.py:104-112 | the bare string `?` does not parse |
| Continuation.EncodedSeparatorDecodes | query.py:104 | `%3D` decodes to `=` before the split |
| Continuation.EncodedSeparatorFails | query.py:104 | an encoded `=` inside a value breaks the pair, so the parse fails |
| Continuation.DecodePlainPrefix | query.py:104 | characters before the first `%` pass through decoding unchanged |
| Continuation.PairOf | query.py:104 | a piece `k=v` without another `=` is a pair with key `k` and value `v` |
| Continuation.FourPairs | query.py:102-104 | a query string shaped like the comment's example parses to its four pairs, with `%23` decoded to `#` |
| Continuation.ExampleParse | query.py:102-104 | the comment's example gives `{max_id: 1089616517329809407, q: #MothersDay, count: 100, include_entities: 1}` |
| Query.Scope | query.py:70-77 | `get_scope` knows exactly `US` and `WORLD`: `US` gives 23424977, `WORLD` gives 1, and any other region gives nothing |
| Query.WoeidFor | query.py:23-27 | the constructor's WOEID is 1 exactly for `WORLD`; every other region, an absent one included, gets 23424977 |
| Query.NextBatch | query.py:79-117 | `get_next_batch` answers True exactly when a cursor parses and the fetch succeeds, and then the batch counter rises by one and the result is the fetched page; otherwise the counter and the result are unchanged |
| Query.FileLoop | query.py:66-67 | the loop only appends to `json_list` |
| Query.ChainedAppend | query.py:66-67 | appending the page that the last page's cursor fetched keeps the pages chained |
| Query.FileLoopChain | query.py:61-67 | the loop appends pages in fetch order and never holds more than the batch limit. It stops either with no further page (`len(json_list) == current_batch + 1`) or at the limit (`current_batch == num_batches == len(json_list)`, the last fetched page not appended) |
| Query.FileLoopStops | query.py:66-67 | the pass on which the loop stops, for lack of a further page or at the batch limit, leaves the accounting `FileLoopChain` states |
| Query.FileModePages | query.py:61-67 | after file mode, `json_list` starts with the first page, is chained, holds one to five pages, and ends in one of the two stop cases |
| Query.NoCursorStopsAtOnce | query.py:66 | a first page without `next_results` leaves `json_list` as that page alone |
| Query.TwitterQuery.constructor | query.py:25-35 | the field set-up: WOEID lookup, batch 0 of 5, empty cursor and `json_list`, `count` defaulting to 100 |
| Query.TwitterQuery.GetNextResultsKwargs | query.py:97-117 | answers True and stores the parsed map exactly when the cursor parses; otherwise answers False and leaves `next_query_kwargs` unchanged |
| Query.TwitterQuery.GetNextBatch | query.py:79-95 | the object's new cursor fields are exactly the `NextBatch` step from the old ones |
| Query.TwitterQuery.SendQuery | query.py:43-68 | non-file mode: one swallowed trends or search call, and `statuses` grows only once the attribute exists. File mode: the first search raises out of the method or starts the loop, and the loop leaves `json_list` and the cursor as `FileLoop` does |
| Query.NewQuery | query.py:25-37 | construction raises exactly when the first file-mode search fails. Otherwise `q`, `count` (100 when absent), `out_file`, the query type and the region's WOEID are the arguments given, `statuses` is empty, and the batch limit is 5. Without a file, a trends query holds the trends response, a search query holds the first search page for `q` and `count`, and any other type holds nothing. File mode holds the `FileLoop` pages |
| Ranking.InsertAdds | main.py:28-30 | inserting adds exactly the one element |
| Ranking.SortDescSorts | main.py:28-30 | the sort is a permutation, in non-increasing key order |
| Ranking.ConsOrdered | main.py:28-30 | a pair whose key is at least the head's, put in front of an ordered list, keeps it ordered |
| Ranking.InsertKeepsOrder | main.py:28-30 | inserting into an ordered list keeps it ordered |
| Ranking.WithKeyAppend | main.py:28-30 | the pairs with one key in a concatenation are those of each part, in order |
| Ranking.InsertWithKey | main.py:28-30 | an inserted pair goes in front of the pairs that share its key |
| Ranking.SortDescStable | main.py:28-30 | the sort is stable: pairs with equal keys keep their input order |
| Ranking.InsertAll | statistics.py:74 | inserting keeps a property that the inserted pair and every listed pair have |
| Ranking.InsertTies | statistics.py:74 | inserting a pair that ranks before every listed pair keeps equal keys in rank order |
| Ranking.SortDescAll | statistics.py:74 | the sort keeps a property that every input pair has |
| Ranking.SortDescTies | statistics.py:74 | when the input is in rank order, the sorted pairs with equal keys are in rank order too |
| Statistics.AllStatuses | statistics.py:33-35 | the flattened statuses number the sum of the per-page counts |
| Statistics.FromStatusesAppend | statistics.py:33-65 | gathering over concatenated statuses concatenates the results |
| Statistics.GatherFlattens | statistics.py:33-65 | each nested comprehension equals the per-status comprehension over the flattened statuses |
| Statistics.FromStatusesMember | statistics.py:33-65 | an item is gathered exactly when some status contributes it |
| Statistics.FromStatusesLength | statistics.py:33-65 | the gathered list is as long as the statuses' contributions together |
| Statistics.TextsOnePerStatus | statistics.py:33-35 | `texts` has one entry per status, in page then status order, as many as the pages hold statuses |
| Statistics.TextsOfStatuses | statistics.py:33-35 | entry `i` of the per-status texts is status `i`'s text |
| Statistics.HashtagsOfStatuses | statistics.py:41-45 | `hashtags` concatenates every status's hashtag texts in order, and a text is present exactly when some status carries it |
| Statistics.ScreenNamesOnePerMention | statistics.py:51-55 | one entry per user mention in order, with None present exactly when some mention lacks `screen_name` |
| Statistics.WordsAreTokens | statistics.py:61-65 | `words` concatenates each text's split in order: no word is empty or holds whitespace, and the count is the sum of per-text word counts |
| Statistics.SplitFromTokens | statistics.py:64 | continuing a split from a partial word yields whitespace-free non-empty words that spell the rest without its whitespace |
| Statistics.ConcatAppend | statistics.py:64 | joining concatenated word lists concatenates the joins |
| Statistics.SplitWordsTokens | statistics.py:64 | `text.split()` words are non-empty and whitespace-free, and together spell the text without its whitespace |
| Statistics.RemoveSpaces | statistics.py:64 | the text with whitespace removed holds no whitespace |
| Statistics.SplitFromPlain | statistics.py:64 | characters that are not whitespace extend the word being read |
| Statistics.SplitFromSpaces | statistics.py:64 | whitespace ends the word being read, if any, and adds no word of its own |
| Statistics.SplitWeave | statistics.py:64 | text made of non-empty whitespace-free words, with whitespace between each two and optional whitespace at either end, splits back into exactly those words |
| Statistics.SplitFromGaps | statistics.py:64 | the word being read plus the rest of the text are the split words with whitespace gaps woven in, non-empty between each two words |
| Statistics.SplitWordsGaps | statistics.py:64 | every text is its `split()` words with whitespace gaps woven in, non-empty between each two words, so the words are the maximal whitespace-free runs |
| Statistics.PrependGap | statistics.py:64 | text put in front of the first gap comes first in the woven text |
| Statistics.PrependWord | statistics.py:64 | a word put in front of the words, behind an empty gap, comes first in the woven text |
| Statistics.SplitJoinWords | statistics.py:64 | splitting non-empty whitespace-free words joined by single spaces gives back the words |
| Statistics.BumpAbsent | statistics.py:73 | counting an item with no entry appends it with count 1 |
| Statistics.BumpAt | statistics.py:73 | counting an item increments its first entry in place |
| Statistics.BumpKeys | statistics.py:73 | counting keeps every entry's item in place and adds at most the counted item, at the end, when no entry holds it |
| Statistics.BumpedCounts | statistics.py:73 | raising one entry's count by one counts one more of its item and keeps the counter exact |
| Statistics.SumCountsAppend | statistics.py:73 | appending an entry adds its count to the total |
| Statistics.SumCountsUpdate | statistics.py:73 | replacing an entry changes the total by the difference of the counts |
| Statistics.BumpNew | statistics.py:73 | counting an unseen item appends it with count 1 and keeps the counter exact |
| Statistics.BumpSeen | statistics.py:73 | counting a seen item increments its one entry and keeps the counter exact |
| Statistics.BumpCounts | statistics.py:73 | counting one more item keeps every count exact and raises the total by one |
| Statistics.TallyCounts | statistics.py:73 | `Counter(v)` holds each item of `v` once with its number of occurrences, and the counts sum to `len(v)` |
| Statistics.FirstIndex | statistics.py:73 | the first occurrence of an item really holds it, with no earlier one |
| Statistics.FirstIndexAppend | statistics.py:73 | appending does not move an item's first occurrence |
| Statistics.BumpFirstSeenOrder | statistics.py:73 | counting one more item keeps the counter's items in first-occurrence order |
| Statistics.TallyFirstSeenOrder | statistics.py:73 | the counter lists items in the order of their first occurrence |
| Statistics.TwiceInMultiset | statistics.py:74 | an element at two positions occurs at least twice |
| Statistics.DistinctKeysOnce | statistics.py:74 | in a list with distinct items, each entry occurs at most once |
| Statistics.DistinctKeysPermutation | statistics.py:74 | reordering keeps the items distinct |
| Statistics.MostCommonCounts | statistics.py:74 | `most_common()` holds each item once with its exact count, in non-increasing count order |
| Statistics.MostCommonTies | statistics.py:73-74 | in `most_common()`, items with equal counts come in the order of their first occurrence |
| Statistics.WindowRows | statistics.py:74 | the `[1:10]` slice of a ranked counter has at most nine distinct, ordered rows with exact counts |
| Statistics.RankedTop | statistics.py:74 | the first entry of a ranked exact counter is a most frequent item |
| Statistics.WindowLeftOut | statistics.py:74 | the slice skips the first entry, and any other item it leaves out occurs at most as often as the ninth row, there being nine rows then |
| Statistics.ReportedRows | statistics.py:73-74 | the printed rows number at most nine, in non-increasing order, with exact counts. The first-ranked item is a most frequent one and is never shown. Any other item not shown occurs at most as often as the ninth row |
| Statistics.WindowTiesFirst | statistics.py:74 | the `[1:10]` slice keeps ties in first-occurrence order, and the skipped first entry occurs earlier than any row with its count |
| Statistics.WindowTiesCut | statistics.py:74 | an item cut off after nine rows with the ninth row's count first occurs after the ninth row's item |
| Statistics.ReportedTies | statistics.py:73-74 | the printed rows keep ties in first-occurrence order. The skipped first-ranked item occurs earlier than every shown row with its count. An item with the ninth row's count that is neither skipped nor shown first occurs after the ninth row's item |
| Statistics.ReportedExample | statistics.py:74 | hashtags `#a, #a, #b` give the single row `(#b, 1)` |
| Statistics.ReportedTieExample | statistics.py:73-74 | items `b, a, a, b` give the single row `(a, 2)`: `b` ties with `a` but occurs first, so it is the one skipped |
| Statistics.TableRows | statistics.py:71-74 | the counting and row-adding loops produce exactly the `most_common()[1:10]` rows |
| Statistics.Statistics.constructor | statistics.py:17-27 | the constructor keeps the pages and fills all four lists |
| Statistics.Statistics.GetTexts | statistics.py:29-35 | `texts` becomes the flattened status texts |
| Statistics.Statistics.GetHashtags | statistics.py:37-45 | `hashtags` becomes the flattened hashtag texts |
| Statistics.Statistics.GetScreenNames | statistics.py:47-55 | `screen_names` becomes the flattened mention names |
| Statistics.Statistics.GetWords | statistics.py:57-65 | `words` becomes the flattened words of the texts |
| Statistics.Statistics.PrintPrettyTable | statistics.py:67-76 | tables only hashtags, screen names and words, never texts, each as its `most_common()[1:10]` rows |
| TrendMenu.Candidates | main.py:28-29 | filtering never adds trends |
| TrendMenu.CandidatesMember | main.py:28-29 | a pair is a candidate exactly when a trend with that name has that non-null volume |
| TrendMenu.CandidatesWithKey | main.py:28-29 | the candidates with volume `n` are those of the trends with volume `n`, in API order |
| TrendMenu.TopTrendsRanked | main.py:28-32 | `top_trends` is a permutation of the candidates in non-increasing volume order, with equal volumes in API order, and its length is `TREND_LENGTH` |
| TrendMenu.FirstTrends | main.py:26-28 | `query_result[0]['trends']` succeeds exactly when the trends call returned a non-empty list |
| TrendMenu.Prompt | main.py:11-20 | `prompt` prints one line per trend, `top_trends[n]` labelled `n + 1` |
| TrendMenu.LabelsNumbering | main.py:19-20 | the printed numbers are exactly the accepted choices `1..TREND_LENGTH`, and line `k` names `top_trends[k-1]` |
| TrendMenu.TurnOutcome | main.py:36-48 | a pass searches exactly when the line is an integer in `1..TREND_LENGTH`, for `top_trends[k-1]`'s name, and prints the tables exactly when that search succeeds. A non-integer is skipped, and after tables or an out-of-range integer the prompting goes on |
| TrendMenu.TurnStops | main.py:35-48 | a pass ends the loop exactly when it is a failed search for a choice below `TREND_LENGTH` |
| TrendMenu.RunExit | main.py:34-48 | the loop ends before the lines run out only after a failed search for `k < TREND_LENGTH`, and every earlier pass kept it going |
| TrendMenu.SearchTrend | main.py:42-44 | the file-mode search for the chosen trend fails exactly when its first call raises. Otherwise the three tables printed are the `most_common()[1:10]` rows of the hashtags, screen names and words of the pages it collected |
| TrendMenu.Pass | main.py:36-48 | one pass of the loop body, with the file-mode query and the statistics tables, does what `TurnFor` and `After` say |
| TrendMenu.RunMenu | main.py:23-48 | `main` fails exactly when `query_result[0]` raises. Otherwise it ranks the trends and makes the passes `Run` gives, from `hashtag = 0` |

## Left out

- `authenticate.py` is not part of this model: it only handles interactive credential entry and builds the OAuth client.
- The HTTP calls are function parameters. `SearchApi` maps a request to a page, and `TrendsApi` maps a WOEID to the places list. `None` stands for a call that raises; the kind of exception and its message are not modelled. Each endpoint is a pure function, so in the model the same request always gets the same page or the same failure, while the real API may answer a repeated request differently.
- File I/O (`tweets.txt`, `json.dumps`, `json.loads`) and `statistics.main`, which only read and write JSON.
- Console output: `print`, the PrettyTable rendering and alignment, and the exception messages. `PrintPrettyTable` returns the rows it would add.
- `__repr__`: it only converts `query_result` to a string.
- Continuation.PercentDecode: decodes each `%XY` to the single character with code `XY`. It does not combine multi-byte UTF-8 sequences or substitute invalid ones as `unquote` does, because there is no Unicode codec to model against.
- Statistics.IsSpace: covers only the ASCII whitespace that `str.split()` recognises, not the Unicode separators such as U+00A0 or U+2028.
- JSON objects without the `statuses`, `entities`, `text` or `search_metadata` keys the statistics read are not modelled. The datatypes always have those fields, and only `screen_name` and `next_results` may be absent. So a `Statistics` construction never raises in the model, and a failed pass comes only from the search.
- Keyword arguments other than `q`, `count` and `out_file` are not modelled: the object stores them but never reads them. `out_file` is modelled by its truth value.
- TrendMenu.RunMenu: the lines typed are a finite sequence, each already read as an integer or not, so the model stops when the lines run out. The program instead prompts for ever, including after end of input, because the bare `except` swallows `EOFError`. Python's integer syntax for `int(input())` is not modelled.
- `TREND_LENGTH` is not modelled as a mutable global: it is `len(top_trends)`, the length of `top` in the model.
