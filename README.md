# yourcast, modelled in Dafny

yourcast turns podcast transcripts into searchable take-aways. A scraper
collects podcast and episode links from readablepod.com and pulls each
episode's timed transcript sentences out of the page. A parser concatenates a
transcript and has a language model summarise it into bullet points. A search
API groups the bullet points an index returns into episodes. A React front end
filters the episodes by host, lets the user pick episodes, and shows a
typewriter headline.

This project models the logic of those steps. Each language-model call,
embedding, index, browser, regular-expression engine and file system becomes
an input or a value:

- `Helpers` models the `.json` suffix rule shared by `store_json` and `load_json`, over a map from paths to contents.
- `Crawler` models the post-processing of the podcast-link matches, the paragraph-id timestamp rule, and the sentence extraction. Its `Crawler` class holds the page counter that recycles the browser every 200 pages.
- `ScrapeRecords` and `PodcastLinks` model how episode-link matches become scrape records.
- `EpisodeParser` models the transcript concatenation loop, and `parse`'s order of validating before storing.
- `SearchApi` models the `/search` endpoint: the limit validation, the top-k cut, and the grouping of matches into episodes in first-seen order. A missing summary ends it as an HTTP 500. The grouping loop is proved equal to a reference definition, and the properties of the result are proved about that definition.
- `HostChips` and `IndexPage` model the front end's host filter, its collapsed view, host ids, the selection toggles and the episode filter.
- `Headline` models the typewriter as a step function over its five state variables. The `DynamicHeadline` class keeps those variables as fields. It is proved to keep its invariant, and one full type–pause–delete cycle is proved to move on to the next phrase.
- `Text`, `Seqs` and `Results` hold shared string rules (Python `strip`, the JavaScript `\s` class, lower-casing, `includes`), generic sequence lemmas, and `Option`/`Result`.

## Model

| member | source | states |
|---|---|---|
| Helpers.JsonPath | yourcast/tools/helpers.py:16-18 | the path always ends in `.json`; a name already ending in `.json` is unchanged, otherwise exactly `.json` is appended (length + 5, name kept as prefix) |
| Helpers.JsonPathIdempotent | yourcast/tools/helpers.py:17-18 | normalising a normalised name changes nothing |
| Helpers.StoreJson | yourcast/tools/helpers.py:16-21 | after storing, the normalised path holds the data and every other file is unchanged |
| Helpers.LoadJson | yourcast/tools/helpers.py:24-30 | the document stored at the normalised path; nothing (`FileNotFoundError`) exactly when that path holds no file |
| Helpers.SamePathIff | yourcast/tools/helpers.py:16-26 | two names resolve to the same file exactly when they are equal or one is the other plus `.json` (where the other lacks the suffix) |
| Helpers.StoreThenLoad | yourcast/tools/helpers.py:16-30 | loading under the stored name, or under it with `.json` added, returns what was stored |
| Text.Strip | yourcast/scraper/crawler.py:30 | `str.strip()`: the result is no longer than the input and starts and ends with no whitespace character |
| Text.StripRemovesOuterWhitespace | yourcast/scraper/crawler.py:30 | `str.strip()` returns a slice of the input, and everything it cuts off on either side is whitespace |
| Text.StripStrippedIsIdentity | yourcast/scraper/get_podcast_links.py:27-30 | stripping an already stripped string changes nothing |
| Text.ContainsIffOccurs | frontend/src/components/HostChipsContainer.tsx:26 | `includes` holds exactly when the substring occurs in the string at some index |
| Text.Lower | frontend/src/components/HostChipsContainer.tsx:26 | lower-casing keeps the length and maps each character |
| Crawler.ExtractLinks | yourcast/scraper/crawler.py:25-37 | the loop builds exactly the reference map `Links` of the matches |
| Crawler.LinksKeys | yourcast/scraper/crawler.py:29-32 | a name is a key exactly when some match with a count above 0 strips to it |
| Crawler.LinksLastMatchWins | yourcast/scraper/crawler.py:29-35 | a name's entry is the one built from the last kept match with that name |
| Crawler.LinksValues | yourcast/scraper/crawler.py:31-35 | every entry has `n_transcripts > 0` and a url starting with `https://www.readablepod.com` |
| Crawler.UpTo | yourcast/scraper/crawler.py:83 | `split(c)[0]`: the longest prefix without `c`, followed in the input by `c` when shorter |
| Crawler.TimestampToken | yourcast/scraper/crawler.py:82-83 | the token is the prefix of the id after `start-` that holds neither `-` nor a space and, when it stops early, stops at a `-` or a space |
| Crawler.ReadParagraph | yourcast/scraper/crawler.py:79-94 | a paragraph yields a sentence exactly when it has an id starting with `start-`, its token parses and its stripped text is non-empty; the sentence is then that stripped text, the parsed time and the div's index |
| Crawler.ParagraphSentenceRule | yourcast/scraper/crawler.py:81-94 | the same rule for the reference function the loops are proved against |
| Crawler.ExtractSentences | yourcast/scraper/crawler.py:65-94 | the nested loops build exactly the reference sequence `PageSentences` |
| Crawler.DivSentencesShape | yourcast/scraper/crawler.py:77-94 | within one speaker div, each sentence carries the div's index and comes from a paragraph with a `start-` id whose token parses to its time and whose stripped text is its text; every qualifying paragraph's sentence is present |
| Crawler.DivSentencesAppend | yourcast/scraper/crawler.py:79-94 | the paragraphs of a div are read in order: the sentences of a + b are those of a followed by those of b |
| Crawler.DivSentencesCount | yourcast/scraper/crawler.py:79-94 | one sentence per qualifying paragraph, no more |
| Crawler.PageSentencesPrefix | yourcast/scraper/crawler.py:75-94 | the sentences of the first n divs are a prefix of the page's sentences |
| Crawler.PageSentencesShape | yourcast/scraper/crawler.py:75-94 | every sentence comes from a paragraph of the div its `speaker_id` names, with a `start-` id whose token parses to its time and stripped text equal to its text; every qualifying paragraph yields one; speaker ids never decrease along the output |
| Crawler.Crawler.constructor | yourcast/scraper/crawler.py:41-55 | a new crawler has processed no pages and has not restarted |
| Crawler.Crawler.RestartBrowser | yourcast/scraper/crawler.py:108-113 | a restart, from `crawl` or from any other caller, resets the page counter to 0, counts one more browser launch and leaves the crawler ready for the next crawl |
| Crawler.Crawler.Crawl | yourcast/scraper/crawler.py:57-100 | a page without an article fails and leaves the counter alone; otherwise the result is the page's sentences, the counter becomes (old + 1) mod 200, and the browser restarts exactly when the old count was 199; `0 <= urls_processed < 200` always holds |
| PodcastLinks.ExtractEpisodeInfo | yourcast/scraper/get_podcast_links.py:18-33 | one record per match, in match order, with no filtering |
| PodcastLinks.ScrapeInputFieldsStripped | yourcast/scraper/get_podcast_links.py:26-31 | name, podcast and date are stripped; the url is `https://www.readablepod.com` followed by the stripped path |
| EpisodeParser.ConcatenateSentences | yourcast/parser/episode_parser.py:77-81 | the loop builds exactly the reference transcript: each sentence's text, ` (`, its rendered start time and ` sec) `, in order |
| EpisodeParser.TranscriptAppend | yourcast/parser/episode_parser.py:77-81 | concatenation distributes over appending sentence lists |
| EpisodeParser.SegmentsInOrder | yourcast/parser/episode_parser.py:79-80 | sentence i's segment sits in the transcript at the sum of the earlier segments' lengths |
| EpisodeParser.OffsetsIncrease | yourcast/parser/episode_parser.py:79-80 | for i < j, sentence i's segment ends before sentence j's begins |
| EpisodeParser.TranscriptLength | yourcast/parser/episode_parser.py:78-81 | the length is the sum of the segment lengths (each is text + rendered time + 8); the transcript is empty exactly when there are no sentences |
| EpisodeParser.Parse | yourcast/parser/episode_parser.py:61-75 | success exactly when both completions succeed and the structured reply decodes as `BulletPoints`; then it returns the reply and stores the decoded bullet points under `example_bulletpoints.json`; a failure writes nothing |
| SearchApi.FirstSeen | yourcast/api/api.py:83-97 | the dict's key order: every episode name once, in order of first occurrence |
| SearchApi.FirstSeenNoDuplicates | yourcast/api/api.py:83-97 | no episode name repeats among the keys |
| SearchApi.FirstMissing | yourcast/api/api.py:83-89 | no name is reported exactly when every match's name has a summary; a reported name lacks one and is the name of the first match whose lookup fails |
| SearchApi.GroupMatches | yourcast/api/api.py:75-97 | the loop over a dict of episodes yields exactly the reference result: the KeyError of the first unsummarised name, or the episodes in first-seen order |
| SearchApi.FirstMissingExtends | yourcast/api/api.py:76-89 | once a prefix of the matches raises, later matches do not change which name is reported |
| SearchApi.TakeawaysSumToMatches | yourcast/api/api.py:76-95 | every match contributes exactly one take-away: the take-away counts sum to the number of matches |
| SearchApi.FirstSeenOrdered | yourcast/api/api.py:83-97 | the keys are ordered by the index of their first occurrence |
| SearchApi.EpisodesInFirstSeenOrder | yourcast/api/api.py:75-97 | at most one episode per match, titles distinct and ordered by first occurrence, and every match's name among the titles |
| SearchApi.TakeawaysStartAtFirstMatch | yourcast/api/api.py:84-95 | an episode's first take-away is the one of the first match with its name |
| SearchApi.TakeawaysKeepMatchOrder | yourcast/api/api.py:84-95 | an episode's take-aways are those of its matches, in match order |
| SearchApi.ThreeMatchesTwoEpisodes | yourcast/api/api.py:75-97 | no matches give an empty result; matches [A, B, A] give [A with two take-aways, B with one] |
| SearchApi.TopK | yourcast/api/api.py:69-73 | the query returns the first `min(limit, n)` matches of the ranking |
| SearchApi.SearchBulletpoints | yourcast/api/api.py:55-100 | a limit outside 1..100 is refused; every failure is a 500 whose detail starts with `Error processing search: `; a failed lookup gives that prefix followed by the upstream message; a match whose episode has no summary gives that prefix followed by the quoted name of the first such episode; success exactly when the limit is valid, the lookup succeeds and every match is summarised, and then the results are the grouped episodes, with take-away total = number of matches <= limit |
| HostChips.FilteredHosts | frontend/src/components/HostChipsContainer.tsx:24-28 | exactly the hosts whose lower-cased name contains the lower-cased query, as an order-preserving subsequence that keeps every copy of a kept host |
| HostChips.EmptyQueryKeepsAll | frontend/src/components/HostChipsContainer.tsx:24-28 | an empty query keeps every host |
| HostChips.QueryCaseIgnored | frontend/src/components/HostChipsContainer.tsx:26 | lower-casing the query first changes nothing |
| HostChips.VisibleHosts | frontend/src/components/HostChipsContainer.tsx:30 | a prefix of the filtered hosts: all when expanded, otherwise the first `min(2, n)` |
| HostChips.ChipStates | frontend/src/components/HostChipsContainer.tsx:61-66 | one chip per visible host, selected exactly when its id is among the selected hosts |
| IndexPage.DashRuns | frontend/src/pages/Index.tsx:23 | `replace(/\s+/g, '-')` leaves no whitespace and never lengthens |
| IndexPage.Slug | frontend/src/pages/Index.tsx:23 | a host id has no whitespace and is no longer than the name |
| IndexPage.DashRunsKeepsText | frontend/src/pages/Index.tsx:23 | `replace(/\s+/g, '-')` keeps every character that is neither whitespace nor a dash, in order |
| IndexPage.DashRunsCountsRuns | frontend/src/pages/Index.tsx:23 | the result holds the input's dashes plus one dash per maximal whitespace run |
| IndexPage.DashRunsSplit | frontend/src/pages/Index.tsx:23 | cutting the input where the two neighbouring characters are not both whitespace cuts no run, and the result is the two pieces' results joined, so each dash sits where its run was |
| IndexPage.DashRunsOfRun | frontend/src/pages/Index.tsx:23 | a non-empty run of whitespace becomes a single `-` |
| IndexPage.DashRunsExample | frontend/src/pages/Index.tsx:23 | `"a  b"` becomes `"a-b"` |
| IndexPage.SlugShape | frontend/src/pages/Index.tsx:22-26 | a host id keeps the lower-cased name's other characters in order, with one dash per dash of the name and one per maximal whitespace run |
| IndexPage.SlugIdempotent | frontend/src/pages/Index.tsx:22-26 | slugging an id gives the id back |
| IndexPage.AllHosts | frontend/src/pages/Index.tsx:22-26 | one host per image-table entry, in order, with that entry's name, image and slug id |
| IndexPage.AvailableHosts | frontend/src/pages/Index.tsx:29-35 | all hosts when there are no episodes, otherwise exactly the hosts some episode's host slugs to, every copy of each kept; always an order-preserving subsequence |
| IndexPage.FilteredEpisodes | frontend/src/pages/Index.tsx:80-85 | all episodes when no host is selected, otherwise exactly those whose host slug is selected, every copy of each kept; always an order-preserving subsequence |
| IndexPage.SelectingAvailableHostShowsItsEpisodes | frontend/src/pages/Index.tsx:29-85 | selecting a host offered for non-empty results keeps at least one of its episodes on show |
| IndexPage.Toggle | frontend/src/pages/Index.tsx:37-50 | the id is present afterwards exactly when it was absent, others are unaffected; an absent id is appended, a present one has every occurrence removed |
| IndexPage.ToggleTwiceRestores | frontend/src/pages/Index.tsx:38-42 | toggling an absent id twice restores the list |
| IndexPage.ToggleKeepsNoDuplicates | frontend/src/pages/Index.tsx:38-42 | toggling keeps a duplicate-free list duplicate-free |
| IndexPage.ToggleHost | frontend/src/pages/Index.tsx:37-43 | the selected hosts become `Toggle` of the old list: the host's selection flips, no other host's changes, and no other page state changes |
| IndexPage.ToggleEpisodeSelection | frontend/src/pages/Index.tsx:45-52 | the selected episodes become `Toggle` of the old list: the episode's selection flips, no other episode's changes, and no other page state changes |
| IndexPage.ResetSelectionState | frontend/src/pages/Index.tsx:54-57 | selection mode off and nothing selected; all else unchanged |
| IndexPage.FindEpisode | frontend/src/pages/Index.tsx:166 | `find`: nothing exactly when no episode has the id, otherwise the first episode with that id |
| IndexPage.DataSample | frontend/src/pages/Index.tsx:166 | one lookup per selected id, in selection order |
| Headline.Substring | frontend/src/components/DynamicHeadline.tsx:31 | `substring` within bounds is the slice, and never longer than the string |
| Headline.Next | frontend/src/components/DynamicHeadline.tsx:19-53 | one effect run keeps the invariant (index within the phrase, display = phrase prefix of that length, a pause only on a full phrase and never while deleting); typing adds one character, a full phrase pauses, deleting removes one; the phrase changes only from an emptied deleting state, to the next one mod 6 |
| Headline.Iterate | frontend/src/components/DynamicHeadline.tsx:19-53 | any number of runs keeps the invariant and the phrase index in 0..5 |
| Headline.TypingSteps | frontend/src/components/DynamicHeadline.tsx:28-33 | n typing runs type exactly n more characters |
| Headline.DeletingSteps | frontend/src/components/DynamicHeadline.tsx:37-42 | n deleting runs remove exactly n characters |
| Headline.PauseThenDelete | frontend/src/components/DynamicHeadline.tsx:23-36 | a full phrase pauses, and the pause ends in deleting |
| Headline.AdvanceWord | frontend/src/components/DynamicHeadline.tsx:43-47 | an emptied phrase gives way to the start of the next phrase |
| Headline.TypeAndPause | frontend/src/components/DynamicHeadline.tsx:23-36 | |phrase| + 2 runs from a phrase's start type it in full, pause and turn to deleting |
| Headline.DeleteAndAdvance | frontend/src/components/DynamicHeadline.tsx:37-47 | |phrase| + 1 runs from the full phrase delete it and start the next phrase |
| Headline.CycleAdvancesWord | frontend/src/components/DynamicHeadline.tsx:19-53 | from the start of phrase k, 2·|phrase| + 3 runs reach the start of phrase k + 1 mod 6 |
| Headline.PhraseFullyShown | frontend/src/components/DynamicHeadline.tsx:28-33 | every phrase is displayed in full |
| Headline.DynamicHeadline.constructor | frontend/src/components/DynamicHeadline.tsx:4-8 | the component starts with nothing typed, on the first phrase, typing |
| Headline.DynamicHeadline.Step | frontend/src/components/DynamicHeadline.tsx:19-53 | the setters of one run change the fields exactly as `Next` describes and keep the invariant |

## Left out

- Language-model completions, embeddings, the vector-index query, the browser, the regular expressions and file I/O are not modelled. They enter as parameters or inputs: `freeForm`, `structured` and `decode` in `Parse`, `ranked` in `SearchBulletpoints`, the match tuples of `ExtractLinks` and `ExtractEpisodeInfo`, and the speaker divs in `Crawl`.
- `api.py` imports `make_id` from `yourcast.tools.helpers`, but `helpers.py` does not define it. It is an arbitrary function parameter.
- Floating point: a sentence's `start_time` is a `real`. `float()` on the timestamp token is a `parseFloat` parameter, and the f-string rendering of the time is a `render` parameter.
- Text.Lower: only ASCII `A`–`Z` are lower-cased. JavaScript's `toLowerCase` maps all of Unicode, so `HostChips.FilteredHosts` and `IndexPage.Slug` inherit this limit.
- Crawler.DigitsValue: the transcript count is read as ASCII digits, and `ExtractLinks` requires the pattern's guarantee that the group holds only digits. Python's `\d` and `int()` also accept other Unicode decimal digits.
- SearchApi.Describe: a `KeyError`'s text is the name between single quotes. Python uses `repr`, which picks double quotes or escapes when the name contains quotes or control characters.
- SearchApi.SearchBulletpoints: the limit check FastAPI performs before the handler is modelled as one `ValidationError` outcome. The validation body is not modelled.
- SearchApi.SearchBulletpoints: metadata records are assumed well-formed. `api.py` imports `BulletPointMetadata` from `yourcast.parser.episode_parser`, which does not define it, so its validation is not modelled.
- SearchApi.Takeaway: a take-away is built as `(text, timestamp)`, following `api.py:78-81` and the front end's `BulletPoint` type. The `BulletPoint` class in `episode_parser.py:11-13` names its text field `bullet_point` instead. That mismatch is not modelled.
- IndexPage.AllHosts: the image table is a list of pairs in insertion order. `Object.entries` would move integer-like keys to the front.
- Helpers: `json.dump`/`json.load` are modelled as storing and returning the value itself. The JSON encoding round trip is not modelled.
- Headline: the 300/100/12000 ms timers and React's render batching are not modelled. One run of the effect, with its timer callback, is one atomic step.
- Crawler: navigation, stealth, page creation and `stop_playwright` are not modelled. A missing `<article>` crashes the source before the counter is incremented. The model returns a `Failure` and keeps the counter unchanged.
- Crawler.Links: `extract_links` returns a Python dict, whose keys keep their first-insertion order (an overwrite keeps a key in place). A `map` has no order, and no caller in this model reads that order.
- Logging (`logger` calls in `crawler.py:47,58,70,109` and `console.log` in `Index.tsx:51,71`) has no effect on state and is not modelled.
- These parts are not part of this model:
  - `check_if_valid_url`, a wrapper over `requests`;
  - the scrape orchestration in `run_scrape.py`;
  - the prompt texts and `__main__` blocks;
  - the FastAPI and CORS setup, and the loading of the summaries file;
  - the older `frontend/api.py`;
  - the pure rendering and network components of the front end.
