# swgohsite analysis core in Dafny

A Dafny model of the analysis behind the site's `/analyze` endpoint
(`app.py`). A player id goes in, and a stream of progress events comes out.
It ends with the opponent squads the player most often beat, and was most
often beaten by, on offense in their most recent Grand Arena matches.

The model follows the program's three stages and its controller:

- **Resolver** (`get_gac_match_endings`, module `Resolver`): from the hrefs
  of the match anchors on the player's GAC history page, delete the history
  path, strip `/`, and keep the first `MAX_MATCHES` = 6 tokens. Python's
  `str.strip` and `str.replace(pat, "")` are modelled in module `PyStr`.
- **Extractor** (`extract_offense_battles`, module `Extractor`): a match page
  without a `battles-attack` div yields `([], [])`. Otherwise, for each
  battle wrapper in order, the non-empty texts of all its containers are
  collected (`results_here`). The entries at odd positions of that whole list
  are kept, and they go to the wins when the wrapper has class
  `paper--positive`, to the losses otherwise.
- **Aggregator** (module `Aggregator`): the two `defaultdict(int)` frequency
  maps. They are a class `Totals` whose `Increment` is `totals[label] += 1`.
  Its specification is the label list it has counted (`History`): keys in
  first-seen order, each with its number of occurrences.
- **Top N** (module `TopN`): Python's stable `sorted(..., key=count,
  reverse=True)` is modelled as an insertion sort, followed by the cut to
  `TOP_LIMIT` = 10. Any stable sort by descending count gives the same
  order: `SortByCountDesc` is proved to be a permutation of its input
  (its `multiset` contract), sorted by count (`SortedDesc`) and to keep
  the entries of each count in input order (`SortStable`), and these three
  properties fix the output.
- **Stream controller** (`analyze` and `generate`, module `Stream`): the event
  sequence of one request:
  - an empty id gives one error;
  - a failing resolver gives progress 5 and an error;
  - no endings gives progress 5 and an error;
  - otherwise progress 5 and 15, one progress per match
    (`15 + int((i+1)/total*80)`), then 100 and the final payload.

  `Generate` is the imperative controller. `Events` is its specification
  function, and the lemmas prove that every request's stream is
  well formed. That means rising progress values within 0..100, then exactly
  one terminal event.

The network is a parameter. `HistoryFetcher` maps the history URL to the
anchors' hrefs, or to `None` when the resolver raised. `MatchFetcher` maps
the fetch index and the match URL to a parsed page. A fetch that raised is
the empty markup, and that page has no attack section.

## Model

| member | source | states |
|---|---|---|
| PyStr.StripLeft | app.py:36 | the result is a suffix of the input, everything removed is in the strip set, and the result does not start with a character of the set |
| PyStr.StripRight | app.py:36 | the result is a prefix of the input, everything removed is in the strip set, and the result does not end with a character of the set |
| PyStr.Strip | app.py:89 | the stripped string neither starts nor ends with a character of the strip set |
| PyStr.StripUnique | app.py:89 | a run of strip characters, a core that neither starts nor ends with one, and another run strip to exactly that core |
| PyStr.StripIdempotent | app.py:89 | stripping an already stripped id changes nothing |
| PyStr.RemoveAll | app.py:36 | deleting every occurrence of the pattern never lengthens the string |
| PyStr.RemoveAllAbsent | app.py:36 | a string in which the pattern does not occur is returned unchanged |
| Resolver.HistoryUrl | app.py:19 | the history page URL, under the site's player pages; different ids give different URLs (HistoryUrlInjective) |
| Resolver.HistoryUrlInjective | app.py:19 | two ids with the same history URL are the same id |
| Resolver.MatchUrl | app.py:119 | the match URL lies under the player's history URL and ends with '/'; different endings give different URLs (MatchUrlInjective) |
| Resolver.MatchUrlInjective | app.py:119 | two endings of one player with the same match URL are the same ending |
| Resolver.EndingOf | app.py:35-36 | a token never starts or ends with '/' |
| Resolver.Tokens | app.py:33-37 | one token per anchor, in document order; the k-th is the token of the k-th href |
| Resolver.Endings | app.py:33-39 | the resolver's result: min(6, anchors) tokens, the k-th the token of the k-th href; MatchEndings is proved equal to it |
| Resolver.MatchEndings | app.py:33-39 | the loop returns the tokens of the first min(6, anchors) anchors: a prefix of all tokens, in order, with the k-th from the k-th href; it is empty exactly when there are no anchors |
| Resolver.EndingOfMatchPath | app.py:36 | an ending without '/', linked as history path + ending + "/" (the form the match URL at app.py:119 uses), is recovered exactly |
| Extractor.NonEmpty | app.py:70-72 | the `if text:` filter over one container's texts, in order; what it keeps is stated by NonEmptyMembers and NonEmptyKeepsAll |
| Extractor.Texts | app.py:65-72 | `results_here`: the filtered texts of all containers, container after container; its members are stated by TextsMembers, and CollectTexts is proved equal to it |
| Extractor.NonEmptyMembers | app.py:70-72 | the texts kept from a container are exactly its non-empty texts, never more than there were |
| Extractor.TextsMembers | app.py:65-72 | a text is in `results_here` exactly when it is non-empty and in some container of the wrapper |
| Extractor.OddIndexed | app.py:74 | the odd-position filter keeps floor(n/2) entries; which ones is stated by OddIndexedAt |
| Extractor.OddIndexedAt | app.py:74 | the filter keeps floor(n/2) entries, and entry j is entry 2j+1 of its input |
| Extractor.CollectTexts | app.py:65-72 | the two nested loops build the non-empty texts of all containers, container after container |
| Extractor.Offense | app.py:45-81 | the extractor's `(wins, losses)`: for a page with wrappers, the two lists together hold exactly the labels the wrappers keep, as multisets; ExtractOffenseBattles is proved equal to it |
| Extractor.ExtractOffenseBattles | app.py:45-81 | the loop returns the wins and losses of the page: ([], []) without an attack section, otherwise each wrapper's odd-indexed texts, in wrapper order, on its side |
| Extractor.WinsLossesAppend | app.py:59-79 | splitting the wrappers anywhere splits wins and losses at the same place (wrapper order is kept) |
| Extractor.WinsMembership | app.py:59-77 | a label is a win exactly when some positive wrapper keeps it |
| Extractor.LossesMembership | app.py:59-79 | a label is a loss exactly when some non-positive wrapper keeps it |
| Extractor.WinsLossesPartition | app.py:74-79 | together, wins and losses are every wrapper's kept labels, each counted once (as multisets) |
| Extractor.NonEmptyKeepsAll | app.py:71-72 | a container whose texts are all non-empty contributes all of them |
| Extractor.OddIndexedCons | app.py:74 | the filter keeps the second of the first two entries and continues two further on |
| Extractor.KeptPair | app.py:65-74 | a wrapper whose one container reads a, b keeps [b] |
| Extractor.ParityOverTexts | app.py:65-74 | a container reading a, b, c, d keeps [b, d] |
| Extractor.ParityAcrossContainers | app.py:65-74 | containers [a] and [b] keep [b]: the parity runs over the whole wrapper, where per-container parity would keep nothing |
| Extractor.ParityAfterDroppingEmpty | app.py:65-74 | a container reading a, "", b keeps [b]: empty texts are dropped before the parity is taken |
| Aggregator.FirstSeen | app.py:112-141 | the key order of a defaultdict incremented label by label; stated by FirstSeenMembers, FirstSeenSnoc and FirstSeenOrder |
| Aggregator.CountMap | app.py:112-141 | the defaultdict's contents: a key for exactly the labels counted, each with a count between 1 and the number of labels; CountIsMultiplicity gives each value |
| Aggregator.Tally | app.py:149 | `items()`: one item per key, in key order; its items are stated by TallyMembers, TallyDistinct and TallyCovers |
| Aggregator.Count | app.py:137-141 | a count never exceeds the number of labels and is positive exactly for labels that occur |
| Aggregator.FirstSeenMembers | app.py:137-141 | the keys of a frequency map are distinct and are exactly the labels counted |
| Aggregator.Pairs | app.py:149 | the items of a map listed by its key order: one item per key, each with the key's value |
| Aggregator.TallyMembers | app.py:137-141 | every item of the map is a counted label together with its number of occurrences |
| Aggregator.TallyDistinct | app.py:137-141 | no label has two items in the map |
| Aggregator.TallyCovers | app.py:137-141 | every counted label has its item, with its number of occurrences |
| Aggregator.CountSnoc | app.py:138 | counting one more label raises that label's count by one and no other |
| Aggregator.FirstSeenSnoc | app.py:138 | a new label is appended to the key order; a known one leaves the order unchanged |
| Aggregator.CountMapSnoc | app.py:138 | counting one more label is one `+= 1` on the mapping |
| Aggregator.FirstSeenOrder | app.py:112-141 | keys are ordered by the first occurrence of each label |
| Aggregator.TallySum | app.py:137-141 | the counts add up to the number of labels counted |
| Aggregator.CountIsMultiplicity | app.py:137-141 | a label's count is its multiplicity among the labels counted |
| Aggregator.ConcatAppend | app.py:117-141 | the labels of two runs of matches are those of the first followed by those of the second |
| Aggregator.ConcatPermutation | app.py:117-141 | reordering the matches only permutes the labels counted |
| Aggregator.CountsOrderIndependent | app.py:117-141 | the final counts do not depend on the order in which the matches were processed |
| Aggregator.Totals.constructor | app.py:112-113 | a fresh map is empty |
| Aggregator.Totals.Increment | app.py:138 | `totals[key] += 1`: a known key's count rises by one, a new key is appended with count 1, and the map still reflects every label counted |
| Aggregator.Totals.Items | app.py:149 | `items()` lists every counted label in first-seen order with its number of occurrences |
| Aggregator.CountLabels | app.py:137-141 | the loop counts each label of the list once per occurrence |
| TopN.Insert | app.py:149 | inserting adds exactly the one entry |
| TopN.InsertSorted | app.py:149 | inserting into a list sorted by count keeps it sorted |
| TopN.SortByCountDesc | app.py:149 | the sort returns a permutation of the items, by count from largest down |
| TopN.BandAppend | app.py:149 | the entries of one count in a concatenation are those of the first part, then those of the second |
| TopN.BandSwap | app.py:149 | two entries of different counts never share a band, so their bands commute |
| TopN.BandInsert | app.py:149 | insertion puts the new entry ahead of the equal-count entries that follow it |
| TopN.SortStable | app.py:149 | the sort is stable: the entries of each count come out in their input order |
| TopN.Top | app.py:148-154 | `sorted(...)[:TOP_LIMIT]`: keeps min(10, items) entries; sortedness, membership and stability are stated by TopShape, TopMembers and TopStable |
| TopN.TopShape | app.py:148-154 | the cut keeps min(10, items) entries, sorted by count, each an input entry |
| TopN.TopDropsOnlySmaller | app.py:148-154 | no dropped entry has a higher count than the last one kept |
| TopN.TopStable | app.py:148-154 | among entries of equal count, the kept ones are the first ones of that count in the input, in input order |
| TopN.TopMembers | app.py:148-154 | every kept entry is an input entry |
| TopN.EntryOnce | app.py:149 | in items whose labels are distinct, no item occurs twice |
| TopN.TopOfTallyDistinct | app.py:148-154 | the cut of a frequency map holds no label twice |
| TopN.TopOfTallyKeepsAll | app.py:148-154 | a frequency map with at most 10 labels keeps every one of them through the cut |
| TopN.TopOfTally | app.py:148-154 | for a frequency map, the cut keeps min(10, distinct labels) entries, sorted by count, each a counted label with its own count, no label twice, and every label when there are at most 10 |
| TopN.TopOfTallyDropsOnlySmaller | app.py:148-154 | a counted label left out was counted no more often than the last label kept |
| Stream.QuotientIsFloor | app.py:144 | the progress quotient is floor division |
| Stream.QuotientMonotone | app.py:144 | the quotient grows with the dividend |
| Stream.QuotientOfMultiple | app.py:144 | k*b divided by b is k |
| Stream.ProgressAt | app.py:144 | `15 + int((i + 1) / total * 80)`: 15 plus the largest q with q * total <= 80(i + 1); bounds and growth in ProgressBounds and ProgressStrictlyIncreasing |
| Stream.ProgressBounds | app.py:143-144 | every per-match progress lies in 16..95, and the last match gives 95 |
| Stream.ProgressIncreasing | app.py:144 | each match raises the progress over the previous one |
| Stream.ProgressStrictlyIncreasing | app.py:144 | per-match progress is strictly increasing in the match index |
| Stream.ProgressRun | app.py:143-145 | after k matches, k progress events have been emitted |
| Stream.ProgressRunAt | app.py:143-145 | the i-th per-match event carries the progress of match i |
| Stream.MatchWins | app.py:117-135 | one win list per ending |
| Stream.MatchLosses | app.py:117-135 | one loss list per ending |
| Stream.Milestones | app.py:115-162 | a run over n endings emits n + 2 progress events |
| Stream.CountMatch | app.py:119-141 | one match adds exactly its page's wins to the win totals and its losses to the loss totals |
| Stream.CountMatches | app.py:111-145 | the match loop leaves two distinct fresh maps counting all matches' wins and losses, and it emits the per-match progress run |
| Stream.AnalyzeMatches | app.py:111-163 | with endings: progress 15, the per-match progress, 100, then the top 10 of each map |
| Stream.Events | app.py:88-163 | the events of one request, branch by branch; their shape is stated by EventsOnError, EventsOnSuccess and EventsWellFormed, and Generate is proved to emit them |
| Stream.Generate | app.py:88-163 | the controller emits exactly the events `Events` gives for the id and the fetches |
| Stream.EventsOnError | app.py:89-109 | an empty id gives one error; a failing resolver gives progress 5 and its error; a history without anchors gives progress 5 and "No matches found" |
| Stream.MilestonesShape | app.py:115-162 | the milestones are 15, each match's progress in match order, then 100 |
| Stream.SuccessShape | app.py:115-163 | a successful run is its milestones followed by the payload |
| Stream.EventsOnSuccess | app.py:99-163 | an id whose history has anchors gives progress 5, then the run over the first min(6, anchors) endings |
| Stream.MilestoneInRange | app.py:115-162 | every milestone is a progress event within 15..100 |
| Stream.MilestonesOrdered | app.py:115-162 | a later milestone carries a larger progress than an earlier one |
| Stream.MilestonesRising | app.py:115-162 | the milestones rise strictly and stay within 15..100 |
| Stream.MilestonesWellFormed | app.py:99-163 | progress 5, the milestones and a terminal event form a well-formed stream |
| Stream.SuccessWellFormed | app.py:99-163 | a successful stream is well formed |
| Stream.FailureWellFormed | app.py:89-109 | an error alone, or after progress 5, is a well-formed stream |
| Stream.EventsWellFormed | app.py:88-163 | every request yields rising progress within 0..100 followed by exactly one done event |
| Stream.Final | app.py:147-163 | `final_data`: a done event whose two sides hold at most 10 entries each; their contents are stated by FinalPayload |
| Stream.FinalPayload | app.py:147-163 | the payload holds, per side, min(10, distinct labels) distinct labels from all matches with their counts, largest first, and all of that side's labels when it has at most 10 |
| Stream.OneHrefEnding | app.py:33-39 | a history page with one match anchor resolves to that match's ending |
| Stream.OneMatchOffense | app.py:45-81 | a page with one winning and one losing wrapper, each reading a pair, yields the second text of each on its side |
| Stream.TopOfOne | app.py:137-154 | a label seen once is reported with count 1 |
| Stream.OneMatchFinal | app.py:117-163 | one match with one win and one loss ends with each label at count 1 |
| Stream.OneMatchMilestones | app.py:115-162 | a single match runs 15, 95, 100 |
| Stream.OneMatchSuccess | app.py:115-163 | a single match with one win and one loss gives 15, 95, 100 and that payload |
| Stream.OneMatchEvents | app.py:89-117 | an id without surrounding whitespace whose history links one match gives progress 5 and then the run over that ending |
| Stream.OneMatchRun | app.py:88-163 | end to end: one match with one win and one loss streams 5, 15, 95, 100 and then `{win: 1}`, `{loss: 1}` |

## Left out

- Flask is not modelled: the request object, the `Response`, its headers, and the JSON/server-sent-event framing. Events are values of the `Event` datatype; `Failed` and `Finished` stand for the two kinds of `"done": true` payload.
- The crawler and `asyncio` are not modelled. Fetches are function parameters, and the `html` / `markdown` fallback of a crawl result is not modelled.
- BeautifulSoup parsing and CSS selection are not modelled. A page is given as its battle wrappers, each with its class list and, per container, the texts of the class-less inner divs after `get_text(strip=True)`. If nested class-less divs make `find_all` see one text twice, the container list must hold that text twice.
- An anchor without `href` reads as "" (`tag.get("href", "")`); the model receives that "" in the href list.
- Exceptions are not modelled as such. A resolver that raised is `None`. A match fetch that raised gives the empty markup, which has no attack section, so it is the `None` page.
- Floating point is not modelled. `int((i + 1) / total * 80)` is modelled as the exact integer floor of 80·(i+1)/total (`Quotient`), so float rounding is left out.
- Stream.ProgressBounds, Stream.ProgressIncreasing and the well-formedness lemmas require at most 80 matches; MaxMatches = 6 keeps every run well inside that.
- `dict(...)` of the sorted items is kept as the sorted sequence of `(label, count)` pairs. It has the same keys, in the same order, as the dict the payload serialises: `TopOfTally` proves its labels distinct, so no key of the dict would be overwritten.
- The generator is modelled as the finished sequence of its events; a client that stops reading mid-stream is not modelled.
- PyStr.RemoveAll: its own contract states only the length bound. Its exact behaviour is used through PyStr.RemoveAllAbsent and Resolver.EndingOfMatchPath.
- PyStr.Whitespace lists the characters Python's `str.isspace` accepts. No Unicode database is modelled beyond that list.
