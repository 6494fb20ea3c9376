# Automation news digest — filtering and aggregation core in Dafny

This project models the news-item pipeline of `RSSAutomationNewsDigest`. The pipeline turns the parsed
entries of a fixed list of RSS feeds into a short digest of automation-related news. It has these parts:

- **Relevance filter.** The filter checks two things. First, the text must look English: at least two of ten
  common function words occur as space-delimited words. Second, some keyword must occur in the text as a
  case-insensitive substring.
- **Entry normalisation.** Each entry's description is chosen by field presence: the summary, else the
  description, else the first content block. Its date is chosen in a fixed order: the parsed time, else the
  string date, else today.
- **Cleanup.** Tag-like text is removed with the non-greedy pattern `<.*?>`. The result is then cut to 200
  characters plus `...`.
- **Fetch per feed.** Entries are kept in feed order. One entry without a title fails the whole feed.
- **Aggregation.** The aggregation is a fold over the feeds. A feed's failure affects only that feed.
  Success, failure and entry counters are kept. The result is a stable newest-first sort by date string,
  then Python's slice `[:max_results]`.
- **Secondary keyword filter.** It keeps, in order, the items that mention one of the extra keywords.
- **Grouping for rendering.** Items are grouped by source, with the sources in order of first appearance.
- **Bullet formatting.** In the emailed summary, a `<br>` is inserted before every `•` and `*`.

Everything is immutable datatypes and pure functions over `seq`. The one exception is the `fetch_news`
loop, which is a method whose loop invariants tie it to a reference fold. Modules:
`Wrappers` (Option/Result), `Seqs` (filter, subsequence, Python prefix slice), `Text` (ASCII lower-casing,
substring search), `Relevance`, `Cleanup`, `News` (data model), `Fetcher`, `Order` (Python string order),
`Sorting`, `Aggregation`, `Grouping`, `Bullets`.

Inputs that the original obtains through I/O are parameters here:
- The parser's result for a feed URL is a function `parse: string -> FetchOutcome` (`Failed` or `Parsed(entries)`).
- The current date is a `today` string.
- Each date source of an entry is already formatted: a `DateOutcome` that is either a `YYYY-MM-DD` string or
  `Unparseable`.

## Model

| member | source | states |
|---|---|---|
| Relevance.ActiveKeywords | AL_001_Customized_News_Digest/automation_news_daily.py:26-46 | the active keyword list is never empty. It is the caller's list when that list is given and non-empty, and the 29 default keywords when it is absent or empty |
| Aggregation.NewDigest | AL_001_Customized_News_Digest/automation_news_daily.py:17-72 | a new digest has the active keywords, the given limit, the 15-feed registry and no items |
| Relevance.IsRelatedIff | AL_001_Customized_News_Digest/automation_news_daily.py:86-105 | an entry is accepted iff two distinct markers from the, and, is, in, to, of, for, a, with, that occur as `" "+w+" "` in `" "+lower(title+" "+description)+" "`, and some lower-cased keyword is a substring of `lower(title+" "+description)` |
| Relevance.IsRelated | AL_001_Customized_News_Digest/automation_news_daily.py:86-105 | an empty keyword list accepts nothing. The full verdict is stated by Relevance.IsRelatedIff |
| Relevance.CountAtLeastTwo | AL_001_Customized_News_Digest/automation_news_daily.py:93-97 | the marker count is at least 2 exactly when two different positions of the marker list are found |
| Relevance.CountPositive | AL_001_Customized_News_Digest/automation_news_daily.py:94 | the marker count is at least 1 exactly when some marker is found |
| Relevance.CaseInsensitive | AL_001_Customized_News_Digest/automation_news_daily.py:86-100 | lower-casing the title and description first never changes the verdict |
| Relevance.KeywordCaseInsensitive | AL_001_Customized_News_Digest/automation_news_daily.py:100 | lower-casing every keyword first never changes the verdict |
| Relevance.NonLatinIsRejected | AL_001_Customized_News_Digest/automation_news_daily.py:92-97 | text without ASCII letters finds no marker, so it is rejected whatever keywords it contains |
| Relevance.RejectsJapaneseHeadline | AL_001_Customized_News_Digest/automation_news_daily.py:92-105 | the headline "自動化ツール" is rejected under any keyword list |
| Text.ContainsIff | AL_001_Customized_News_Digest/automation_news_daily.py:100 | the substring test (`k in text`) succeeds exactly when the needle occurs at some position of the haystack |
| Cleanup.CloseOf | AL_001_Customized_News_Digest/automation_news_daily.py:167 | a lazy `.*?>` match from a `<` ends at the first `>` before any newline. No match exists exactly when every `>` comes after a newline |
| Cleanup.StripTags | AL_001_Customized_News_Digest/automation_news_daily.py:167 | the lazy tag pattern never lengthens the text and keeps only characters of the input. Cleanup.StripPlain, Cleanup.StripTagRemoved and Cleanup.StripUnclosedKept fix the result on every input, and the lemmas below state its invariants |
| Cleanup.StripPlain | AL_001_Customized_News_Digest/automation_news_daily.py:167 | a run of text without `<` is copied unchanged, and stripping continues after it |
| Cleanup.StripTagRemoved | AL_001_Customized_News_Digest/automation_news_daily.py:167 | `<`, then text with no `>` and no newline, then `>` is removed entirely, and stripping continues after it |
| Cleanup.StripUnclosedKept | AL_001_Customized_News_Digest/automation_news_daily.py:167 | a `<` with no `>` after it on its line is kept, and stripping continues after it |
| Cleanup.StripIsSubseq | AL_001_Customized_News_Digest/automation_news_daily.py:167 | tag stripping only deletes characters: the result is a subsequence of the input and never longer |
| Cleanup.StripTagFree | AL_001_Customized_News_Digest/automation_news_daily.py:167 | text where no `<` is closed on its own line passes through unchanged |
| Cleanup.StripLeavesTagFree | AL_001_Customized_News_Digest/automation_news_daily.py:167 | no `<` in the stripped text is closed by a later `>` on its line |
| Cleanup.StripKeepsOpen | AL_001_Customized_News_Digest/automation_news_daily.py:167 | stripping cannot close a `<` that was open to the end of its line |
| Cleanup.StripIdempotent | AL_001_Customized_News_Digest/automation_news_daily.py:167 | stripping is idempotent, leaves text unchanged exactly when it is tag-free, and leaves text without `<` unchanged |
| Cleanup.Truncate | AL_001_Customized_News_Digest/automation_news_daily.py:169 | text over 200 characters becomes its first 200 characters plus `...` (length exactly 203). Shorter text is unchanged |
| Cleanup.TagFreeTruncate | AL_001_Customized_News_Digest/automation_news_daily.py:169 | truncating tag-free text and appending the ellipsis keeps it tag-free |
| Cleanup.CleanDescription | AL_001_Customized_News_Digest/automation_news_daily.py:167-169 | the stored description: tags stripped, then cut to 200 characters plus `...`. Its contract is stated by Cleanup.CleanDescriptionProps |
| Cleanup.CleanDescriptionProps | AL_001_Customized_News_Digest/automation_news_daily.py:167-169 | a stored description is at most 203 characters and holds no tag. It starts with the first (up to) 200 stripped characters, and a short `<`-free description is stored as is |
| Fetcher.PickDescription | AL_001_Customized_News_Digest/automation_news_daily.py:140-147 | the description is chosen by attribute presence: summary (even if empty), then description, then the first content block, else empty |
| Fetcher.PickDate | AL_001_Customized_News_Digest/automation_news_daily.py:149-162 | the date is today or the formatted value of a date source. A present, true-like parsed time decides alone (today if it cannot be formatted). Otherwise a present string date decides |
| Fetcher.Normalise | AL_001_Customized_News_Digest/automation_news_daily.py:135-162 | the title, the url (empty when there is no link), the chosen description and the chosen date of an entry. Its contract is carried by Fetcher.PickDescription, Fetcher.PickDate and Fetcher.FetchFeedItems |
| Fetcher.Included | AL_001_Customized_News_Digest/automation_news_daily.py:165 | an entry is kept exactly when its title and url are non-empty and the relevance test accepts title and raw description. Stated per item by Fetcher.FetchFeedItems |
| Fetcher.ToItem | AL_001_Customized_News_Digest/automation_news_daily.py:167-177 | the item holds the entry's title, url and date, the cleaned description and the feed's name. Stated per item by Fetcher.FetchFeedItems |
| Fetcher.ProcessEntries | AL_001_Customized_News_Digest/automation_news_daily.py:134-180 | the entry loop fails, with the missing-title error, exactly when some entry lacks a title |
| Fetcher.ProcessEntriesIsFilter | AL_001_Customized_News_Digest/automation_news_daily.py:134-177 | the loop's items are exactly the normalised entries that pass the inclusion test, in feed order, each turned into an item |
| Fetcher.FetchFeed | AL_001_Customized_News_Digest/automation_news_daily.py:117-190 | a feed fails exactly when parsing failed or some entry lacks a title. On success `entries_count` is the number of parsed entries, however many are kept. So a parsed feed whose entries all have titles succeeds and reports all of them |
| Fetcher.FetchFeedIsFilter | AL_001_Customized_News_Digest/automation_news_daily.py:128-185 | a successful feed's items are the included candidates in entry order |
| Fetcher.FetchFeedItems | AL_001_Customized_News_Digest/automation_news_daily.py:165-177 | every item comes from an entry with non-empty title and url that passes the relevance filter on its raw description. Each item carries the feed's name, the cleaned description, and the entry's title, url and date. There are never more items than entries |
| Seqs.Filter | AL_001_Customized_News_Digest/automation_news_daily.py:247-251 | the kept elements all pass the test, every passing element is kept, and nothing new appears. Each passing value is kept exactly as many times as it occurs, and every other value is dropped |
| Seqs.FilterIsSubseq | AL_001_Customized_News_Digest/automation_news_daily.py:247-251 | filtering keeps the original order (the result is a subsequence) |
| Seqs.FilterAll | AL_001_Customized_News_Digest/automation_news_daily.py:247-251 | filtering changes nothing exactly when every element passes |
| Seqs.FilterAppend | AL_001_Customized_News_Digest/automation_news_daily.py:248-251 | filtering a concatenation filters each part |
| Seqs.Take | AL_001_Customized_News_Digest/automation_news_daily.py:230-231 | `xs[:n]` is a prefix of length min(len, n) for n ≥ 0, and all but the last −n elements for n < 0 |
| Seqs.TakeIsSubseq | AL_001_Customized_News_Digest/automation_news_daily.py:254 | a slice is a subsequence, and it keeps everything once the bound covers the input |
| Seqs.SubseqTrans | AL_001_Customized_News_Digest/automation_news_daily.py:248-254 | filtering then slicing still yields a subsequence of the items |
| Order.LexTotal | AL_001_Customized_News_Digest/automation_news_daily.py:227 | any two date strings are comparable |
| Order.LexTransitive | AL_001_Customized_News_Digest/automation_news_daily.py:227 | the string order is transitive |
| Order.LexAntisymmetric | AL_001_Customized_News_Digest/automation_news_daily.py:227 | two strings each at most the other are equal |
| Sorting.SortByDateDesc | AL_001_Customized_News_Digest/automation_news_daily.py:227 | the sort is a permutation of its input (same length, same multiset) |
| Sorting.SortIsSorted | AL_001_Customized_News_Digest/automation_news_daily.py:227 | the sorted items are newest first: no item is dated after an earlier one |
| Sorting.SortIsStable | AL_001_Customized_News_Digest/automation_news_daily.py:227 | for every date, the items with that date keep their input order |
| Sorting.InsertWithDate | AL_001_Customized_News_Digest/automation_news_daily.py:227 | inserting an item puts it in front of the items of its own date and leaves the other dates' items as they were |
| Sorting.SortedUnique | AL_001_Customized_News_Digest/automation_news_daily.py:227 | two newest-first sequences that agree on each date's items are equal |
| Sorting.SortCharacterisation | AL_001_Customized_News_Digest/automation_news_daily.py:227 | a sequence is the sort of the input exactly when it is newest first and agrees with the input on each date's items, i.e. a stable descending sort |
| Aggregation.FetchNews | AL_001_Customized_News_Digest/automation_news_daily.py:192-240 | the final items are `[:max_results]` of the stable newest-first sort of the earlier items followed by the items gathered in this run. Only `news_items` changes. successful + failed = number of feeds; successful and entries checked equal the reference fold |
| Aggregation.GatheredAppend | AL_001_Customized_News_Digest/automation_news_daily.py:205-224 | gathered items, success counts and entry counts of consecutive runs of feeds add up: items concatenate in feed order |
| Aggregation.FailedFeedContributesNothing | AL_001_Customized_News_Digest/automation_news_daily.py:207-224 | a failing feed adds no items, no entries and no success, wherever it stands in the registry |
| Aggregation.GatheredFromSucceededFeeds | AL_001_Customized_News_Digest/automation_news_daily.py:208-217 | every gathered item carries the name of a feed that succeeded. There are no more gathered items than entries checked |
| Aggregation.FetchNewsResult | AL_001_Customized_News_Digest/automation_news_daily.py:226-231 | the result is newest first and has length min(total, max_results) for a non-negative limit. It is a subsequence of the sorted items, and when nothing is cut it is exactly the stable descending order |
| Aggregation.GatheredItemsFromEntries | AL_001_Customized_News_Digest/automation_news_daily.py:205-217 | every item gathered in a run is what some entry of a successful feed yields: that entry has a title and a url and passed the relevance filter, and the item carries its cleaned description and the feed's name |
| Aggregation.DigestItemsFromEntries | AL_001_Customized_News_Digest/automation_news_daily.py:192-231 | after `fetch_news`, every item of the digest was held before or was yielded by an entry of a successful feed, so no newly added item skipped the relevance filter |
| Aggregation.FilterNews | AL_001_Customized_News_Digest/automation_news_daily.py:242-255 | without extra keywords, the items come back unchanged. Otherwise the result is a prefix of the mentioning items in list order: min(count, max_results) of them for a non-negative limit, and all but the last −max_results for a negative one. Every kept item mentions an extra keyword, and every mentioning item is kept when the limit covers the list |
| Aggregation.Matching | AL_001_Customized_News_Digest/automation_news_daily.py:246-251 | the matching items are an order-preserving subsequence of the digest's items. Each mentions an extra keyword, and each mentioning item is kept as often as it occurs |
| Grouping.RenderPlan | AL_001_Customized_News_Digest/automation_news_daily.py:294-295 | an empty digest renders exactly `<p>No news items found.</p>`, and a non-empty one renders grouped sections |
| Grouping.PlaceShape | AL_001_Customized_News_Digest/automation_news_daily.py:299-303 | with distinct sources, adding an item appends it to its source's group, or opens a new last group |
| Grouping.GroupBySource | AL_001_Customized_News_Digest/automation_news_daily.py:297-303 | the grouping loop. Its contract is stated by Grouping.GroupingIsPermutation and Grouping.GroupingIsWellGrouped |
| Grouping.GroupingIsPermutation | AL_001_Customized_News_Digest/automation_news_daily.py:297-303 | concatenating the groups is a permutation of the items |
| Grouping.GroupingIsWellGrouped | AL_001_Customized_News_Digest/automation_news_daily.py:297-303 | each group holds exactly its source's items in order. Groups follow first appearance, and every item's source has a group |
| Grouping.RenderPlanSections | AL_001_Customized_News_Digest/automation_news_daily.py:294-303 | the sections of a non-empty digest have distinct sources in first-appearance order. Each holds that source's items in list order, and together they hold every item exactly once |
| Bullets.FormatIsExpand | AL_001_Customized_News_Digest/automation_news_daily.py:539 | the two successive replacements equal one pass that puts `<br>` before every `•` and `*` |
| Bullets.FormatSummary | AL_001_Customized_News_Digest/automation_news_daily.py:539 | the two chained replacements. Their contract is stated by Bullets.FormatIsExpand, Bullets.FormatLength and Bullets.UnformatRoundTrip |
| Bullets.FormatLength | AL_001_Customized_News_Digest/automation_news_daily.py:539 | formatting adds exactly four characters per bullet or asterisk |
| Bullets.UnformatRoundTrip | AL_001_Customized_News_Digest/automation_news_daily.py:539 | removing each `<br>` that directly precedes a bullet or asterisk recovers the original summary |

## Left out

- Feed retrieval and parsing (`feedparser.parse`) are network I/O and a foreign library. Each feed's parse result is the input `parse(url)`; a URL is assumed to parse the same way within one run.
- Date formatting (`time.strftime`, `pd.to_datetime(...).strftime`) is library code. Each date source arrives as an already-formatted `DateOutcome`, and `datetime.now()` is the parameter `today`.
- Fetcher.PickDate: it does not check that a formatted date has the `YYYY-MM-DD` shape, because that shape is produced by the formatting libraries, which are not modelled.
- `time.sleep(random.uniform(...))`, the `debug_mode` messages and every `print` are timing and console output with no effect on the result. The run summary that `fetch_news` prints is returned as `Stats`.
- Relevance: Python's full Unicode `str.lower` is modelled as ASCII lower-casing, so non-ASCII upper-case letters are compared as they are.
- Relevance: a concrete "accepted headline" example is not proved. Evaluating the 36-character literal costs more than the verifier's budget. The general iff lemma covers it.
- `get_dataframe`, `save_to_csv`, `save_to_html` and the HTML markup text built in `generate_html` are file output and presentation. Only the grouping step and the empty-digest message are modelled.
- `get_claude_summary`, `setup_email_config`, `send_news_digest_email` (except the bullet replacement) and `send_daily_digest` are HTTP, credential, SMTP and orchestration glue.
- Python's dynamic typing is not modelled: titles, links and descriptions are always strings, and `keywords`/`additional_keywords` are lists or absent.

## Notes on the source's behaviour

- The description is chosen by attribute presence. A present but empty `summary` wins over a non-empty `description`, so the stored description is empty.
- An entry without a `title` attribute raises. The whole feed then fails and none of its entries are kept.
- The relevance test needs at least two English marker words. A text such as "we automated our workflow" contains the default keywords "automate" and "automated" but no marker word, so it is rejected unless the title supplies two markers.
- `fetch_news` does not clear `news_items`. Items already held take part in the sort and the cut.
- `max_results` is an arbitrary integer. With a negative value, the slice `[:max_results]` drops items from the end, and `Seqs.Take` models that.
