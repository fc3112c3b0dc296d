# A light-novel search bot, modelled in Dafny

The system is a Discord bot that searches the RanobeDB light-novel catalog. It lists the matches in pages of ten, shows the details of a chosen series, and charts a series' volume release dates with a guess at the next release. This project models the deterministic parts between the network and the Discord user interface. It proves what those parts promise.

- `base.dfy` (`Base`): `Option`, `Result`, and the Python exceptions the code can raise (`Failure`).
- `arith.dfy` (`Arith`): facts about multiplication and Euclidean division used by the page and calendar proofs.
- `strings.dfy` (`Strings`): `str(int)`, `int(str)`, `s[:k]`, `"\n".join` and `split`.
- `pydict.dfy` (`PyDict`): a Python dict as an insertion-ordered list of `(key, value)` entries. It provides lookup, store, and the `{k: v for k, v in pairs}` comprehension, where the last pair for a key wins.
- `bot_utils.dfy` (`BotUtils`): the search pipeline of `bot_utils.py`. It covers the request parameters, the dispatch on the result count, the merge of fetched result pages, `paginate_results`, `Series.from_json` and `fetch_series_info`. The network is replaced by two parameters:
  - `catalog` answers a search request given its query parameters;
  - `details` answers the detail request for a series id.
- `graph.dfy` (`Graph`): the arithmetic of `graph.py`:
  - dates and their `toordinal` day numbers;
  - `months_between_vols` and `set_xaxis_interval`;
  - total months, and the average month and day gaps;
  - the next-volume prediction;
  - title truncation.

  `today` is a parameter.
- `bot_ext.dfy` (`BotExt`): the results browser of `bot_ext.py`. It covers serial numbers across pages, the select options and their labels, the lookup performed when an option is chosen, and the listing text of each page.

Three facts about the code that the model keeps:
- The overflow test is `count > 6000` (bot_utils.py:125).
- No date parser is live: `parse_date_safe` is commented out (bot_utils.py:16-25), so release dates arrive as dates.
- Tags are kept exactly as the API gives them (bot_utils.py:44).

## Model

| member | source | states |
|---|---|---|
| Strings.IntToString | bot_ext.py:27 | `str(sn)` of a non-negative serial is its shortest decimal spelling: digits only, no sign, no leading zero. A negative number gets `-` before the shortest spelling of its magnitude. It never holds a newline. |
| Strings.ParseInt | bot_ext.py:36 | `int(value)` succeeds exactly on decimal digits with an optional `+` or `-` in front, and yields the number they spell, negated after `-`; anything else is the `ValueError` case |
| Strings.ParseIntToString | bot_ext.py:26-36 | `int(str(sn)) == sn` for every integer: an option value parses back to its serial |
| Strings.SplitJoin | bot_ext.py:54-55 | splitting `"\n".join(lines)` at newlines gives back `lines` when no line contains a newline |
| PyDict.Get | bot_ext.py:37-38 | a lookup misses exactly when no entry has the key |
| PyDict.GetFound | bot_ext.py:38 | a found value is stored under the looked-up key |
| PyDict.GetEntry | bot_ext.py:37-38 | in a dict every listed entry is what a lookup of its key yields |
| PyDict.Put | bot_utils.py:66 | `d[k] = v`: `k` then maps to `v` and every other key keeps its value. Storing under a present key leaves the key order unchanged; an absent key is appended. |
| PyDict.FromPairs | bot_utils.py:86 | a dict comprehension has no repeated key and no more entries than pairs, and is non-empty for non-empty input |
| PyDict.FromPairsKeys | bot_utils.py:86 | a key is missing from the comprehension exactly when no pair carries it |
| PyDict.PutKeysPrefix | bot_utils.py:66 | storing under a key never moves an existing key: the old keys are a prefix of the new ones |
| PyDict.FromPairsPrefix | bot_utils.py:86 | extending the pairs never moves a key already in the comprehension, so each key keeps the place of its first occurrence. `enumerate(results_dict)` numbers the names in that order at bot_ext.py:19. |
| PyDict.RepeatedKeyKeepsFirstPlace | bot_utils.py:86 | `{k: v for k, v in [("A",1), ("B",2), ("A",3)]}` is `{"A": 3, "B": 2}`: first place, last value |
| PyDict.FromPairsLast | bot_utils.py:86 | a key maps to the id of its last pair, so duplicate names collapse to the last id |
| PyDict.FromPairsDistinct | bot_utils.py:86 | with no repeated name the comprehension keeps every pair, in order |
| BotUtils.SearchParams | bot_utils.py:106-112 | the search parameters always hold `q`, `sort` and `limit=100`, hold `rl='en'` exactly when searching licensed titles, and hold no page number |
| BotUtils.PageParams | bot_utils.py:65-66 | a page request carries its page number and the search parameters unchanged otherwise |
| BotUtils.DisplayEntry | bot_utils.py:77 | the display name is `title` for an English entry and `romaji_orig` otherwise; the id is always the entry's id |
| BotUtils.Merge | bot_utils.py:75-77 | the merged list is as long as all fetched pages' entries together |
| BotUtils.MergeAppend | bot_utils.py:75-77 | merging concatenated page lists is concatenating their merges; entry counts add |
| BotUtils.MergeIndex | bot_utils.py:75-77 | entry `j` of page `p` appears in the merged list right after every entry of the earlier pages, as that entry's display pair |
| BotUtils.FetchAllResults | bot_utils.py:70-78 | the merged list holds as many entries as the fetched pages `1..total_pages` together. Entry `j` of page `p` comes right after every entry of the earlier pages, as its display pair. |
| BotUtils.FetchPages | bot_utils.py:73-74 | the gathered pages are pages `1..total_pages`, page `i+1` at position `i`, each requested with the search parameters plus its page number |
| BotUtils.PageCount | bot_utils.py:82 | `ceil(len / n)`: the fewest pages of `n` that hold `len` items; zero exactly for no items |
| BotUtils.Slice | bot_utils.py:85 | a slice within the list is that run of items. A range whose end is not after its start is empty, a start at or past the list's end gives the empty list, and an end past the list stops at the list's end. |
| BotUtils.ChunksFlatten | bot_utils.py:84-85 | cutting off `n` items at a time and concatenating the cuts gives back the list |
| BotUtils.ChunksLength | bot_utils.py:82-84 | the cuts number `ceil(len / n)` |
| BotUtils.ChunksAt | bot_utils.py:85 | cut `i` is the slice `flat[i*n:(i+1)*n]` |
| BotUtils.ChunkSizes | bot_utils.py:84-85 | every chunk holds 1 to `n` items, and all but the last hold exactly `n` |
| BotUtils.ChunkEntry | bot_utils.py:85 | item `j` of chunk `p` is item `p*n+j` of the flat list |
| BotUtils.EntryPageInRange | bot_utils.py:82-85 | the chunk holding any item of the flat list is a real page |
| BotUtils.Paginate | bot_utils.py:80-88 | `ceil(len / n)` pages keyed `1..` with no gap (none for no results), each holding 1 to `n` distinct names |
| BotUtils.PaginateGet | bot_utils.py:84-86 | page `p` is the comprehension of chunk `p-1` for `1 <= p <= ceil(len / n)`, and no other key exists |
| BotUtils.PaginateConcat | bot_utils.py:80-88 | with no repeated name, the pages' contents in key order concatenate back to the flat list |
| BotUtils.PageHoldsChunk | bot_utils.py:85-86 | with no repeated name, page `p+1` holds chunk `p` unchanged |
| BotUtils.DistinctChunk | bot_utils.py:85 | a chunk of a list without repeated names has none |
| BotUtils.TagNames | bot_utils.py:44 | the tag list is the tags' names in their original order |
| BotUtils.SeriesFromJson | bot_utils.py:42-62 | fails exactly when the tags are `null`, `book_description` is `null`, there is no book, or the first book's image is `null`. The errors follow the order in which the fields are read: `TypeError`, then `AttributeError`, then `IndexError`, then `TypeError`. Otherwise absent tags give an empty list, an absent `book_description` gives no description, and the description is `description_ja` for `ja` and `description` for other languages. The image URL is the endpoint plus the first book's file name, and the other fields are copied. |
| BotUtils.FetchSeriesInfo | bot_utils.py:91-101 | colour 10216 exactly for `ja` and 15204352 otherwise, with the `***romaji***` or `***title_orig \| romaji_orig***` header before the description. A record `Series.from_json` rejects fails with the same error. A missing description fails with `TypeError`. |
| BotUtils.SearchSeries | bot_utils.py:104-130 | no result exactly when `count < 1`; the details of the first listed series, or the error fetching them raised, exactly when `count == 1`; the fixed message exactly when `count > 6000`; otherwise the count with the paginated merge of pages `1..totalPages` |
| BotUtils.SearchSeriesProbeOnly | bot_utils.py:120-126 | when the count is not in `2..6000`, no result page is requested |
| BotUtils.SearchSeriesPagesFetched | bot_utils.py:127-130 | in the paginated case the outcome depends only on the probe and on result pages `1..totalPages` |
| BotUtils.SearchSeriesDetailOnlyForOne | bot_utils.py:122-124 | series details are requested only when exactly one series matches |
| Graph.OrdinalMonotone | graph.py:54 | for valid dates, one date is before another exactly when its day ordinal is smaller, so the clamp on ordinals is the clamp on dates |
| Graph.MonthsBetween | graph.py:20-21 | moving the first date's month forward by the result lands on the second date's month: `12*y1 + m1 + result == 12*y2 + m2` |
| Graph.MonthsBetweenAdditive | graph.py:20-21 | month distances add up: `mb(a,b) + mb(b,c) == mb(a,c)` |
| Graph.MonthsBetweenAntisymmetric | graph.py:20-21 | `mb(a,b) == -mb(b,a)` |
| Graph.MonthsBetweenSign | graph.py:20-21 | the distance is zero exactly within one calendar month, and never negative from an earlier date to a later one |
| Graph.XAxisInterval | graph.py:9-18 | the step is 1 exactly up to 12 months, 2 exactly for 13 to 24, 3 exactly for 25 to 48, and 6 exactly beyond 48 |
| Graph.XAxisIntervalMonotone | graph.py:9-18 | a longer span never gets a smaller step |
| Graph.MonthGaps | graph.py:32 | one gap per consecutive pair of dates, each their month distance |
| Graph.SumMonthGaps | graph.py:32-33 | the month gaps sum to the month distance from the first date to the last |
| Graph.DayGaps | graph.py:51 | one gap per consecutive pair of dates, each their day difference |
| Graph.SumDayGaps | graph.py:51-52 | the day gaps sum to the days from the first date to the last |
| Graph.DayGapsNonNegative | graph.py:51 | dates in order give no negative day gap |
| Graph.MinDate | graph.py:29 | `min(dates)` is one of the dates and not after any of them |
| Graph.MaxDate | graph.py:29 | `max(dates)` is one of the dates and not before any of them |
| Graph.TotalMonths | graph.py:28-29 | `total_months` is at least 1, exceeds the month distance of any two dates, and is one more than the distance of some pair |
| Graph.FloorDivIsDiv | graph.py:52-53 | the floor of the average gap, as a date moved by a fractional `timedelta` takes it, is the Euclidean quotient |
| Graph.Extrapolate | graph.py:53-55 | the predicted day is the larger of today and the last day plus the floored average gap |
| Graph.VolumeGaps | graph.py:51-52 | a volume dict of `n` dates has `n-1` day gaps summing to its last day minus its first |
| Graph.Forecast | graph.py:51-56 | the predicted volume is the last plus one. The predicted day is the clamp of the last day plus the floored mean of the first-to-last span over `n-1`. With dates in order, it is today or lies between the last day and one full span after it. |
| Graph.PredictNext | graph.py:50-56 | `OverflowError` exactly when the last date moved by the floored average gap falls before 0001-01-01 or after 9999-12-31; otherwise the forecast, whose day is a valid date |
| Graph.OrdinalBounds | graph.py:53 | 0001-01-01 has ordinal 1 and 9999-12-31 has ordinal 3652059, the range in which a moved `date` must land |
| Graph.OrdinalRange | graph.py:53-55 | every valid date's ordinal lies in `1..3652059`, so today is always a valid result of the clamp |
| Graph.ExtrapolateBounds | graph.py:52-55 | when the first day is not after the last, the prediction is today or lies between the last day and one full span after it |
| Graph.ChartTitle | graph.py:26 | a title under 90 characters is unchanged; otherwise it is its first 90 characters followed by five dots, 95 in all |
| Graph.GenerateGraph | graph.py:23-33 | `ValueError` exactly for no volumes and `ZeroDivisionError` exactly for one. `OverflowError` exactly when a prediction is asked for and the predicted date leaves the date range. Otherwise the title is truncated, the total months are one more than the distance from the earliest date to the latest, the axis step follows them, the month average is the first-to-last month distance over `n-1`, and a prediction is present exactly when asked for. |
| BotExt.Serial | bot_ext.py:19 | for an entry position `i` in `1..10`, `(sn-1) / 10` recovers the page minus one and `(sn-1) % 10` recovers `i-1`. Serials of different pages or positions therefore never collide. |
| BotExt.SerialDict | bot_ext.py:19 | page `p`'s serials are contiguous from `10*(p-1)+1`, one per entry in entry order, each naming that entry's title |
| BotExt.Label | bot_ext.py:25-31 | a label starts with `"{sn}. "`. It is exactly `"{sn}. {title}"` when that is under 90 characters, otherwise the first 80 title characters followed by six dots. |
| BotExt.LabelIsTruncation | bot_ext.py:28-30 | a label is the full text or a prefix of it followed by six dots |
| BotExt.Options | bot_ext.py:24-32 | one option per entry in entry order, its value `str(sn)` of the entry's serial and parsing back to it, and its label made from that serial and title |
| BotExt.Callback | bot_ext.py:34-38 | a value that is not a number raises `ValueError`; a resolved id is the id of an entry of the page |
| BotExt.SelectionRoundTrip | bot_ext.py:19-38 | choosing any option of a page without repeated names resolves to the id of the entry the option was made for |
| BotExt.CallbackOutsidePage | bot_ext.py:36-37 | a serial outside the page's range raises `KeyError` |
| BotExt.ListingLines | bot_ext.py:54 | one line `"{sn}. {title}"` per entry, with the same serials as the options |
| BotExt.ListingText | bot_ext.py:53-56 | the page text starts with `***Found {count} results***` and a blank line |
| BotExt.ListingSplits | bot_ext.py:53-56 | after the header, splitting the text at newlines gives back one line per entry when no title holds a newline |
| BotExt.ListingMatchesOptions | bot_ext.py:54 | an entry's listing line equals its option label whenever the label was not truncated |
| BotExt.CreateResultsPages | bot_ext.py:50-68 | one shown page per paginated page, in key order, each with its listing text and options |
| BotExt.SerialOnPage | bot_ext.py:19-38 | on a page without repeated names, the serial of entry `j` names that entry and choosing it resolves to its id |
| BotExt.LocateSerial | bot_ext.py:19 | serial `k` is entry `(k-1) % 10` of chunk `(k-1) / 10`, which is the flat list's item `k-1` |
| BotExt.PageOfSerial | bot_utils.py:84-86 | the chunk holding serial `k` is page `(k-1)/10 + 1` of the paginated results, with no repeated name |
| BotExt.SerialNamesFlatEntry | bot_ext.py:19-38 | with pages of ten and no repeated name, serial `k` shown on page `ceil(k/10)` names item `k` of the merged list, and choosing it resolves to that item's id |

## Left out

- HTTP transport (`requests.get`, the aiohttp session, `fetch_page`): network I/O. Search responses and detail records are the function parameters `catalog` and `details`.
- `fetch_page` stores the page number into the one `params` dict that all page requests share. The model gives each request its own copy (`PageParams`). Whether concurrent requests observe each other's page number depends on aiohttp's scheduling, which is not modelled.
- `asyncio.gather`: concurrency. Only its result matters, the list of pages in request order.
- Chart drawing with matplotlib, fonts and the PNG buffer: presentation through a foreign library.
- Float arithmetic. The average month gap is kept as the exact fraction (`Average(total, count)`). Its two-decimal rendering is not modelled.
- Graph.PredictNext: takes the floor of the exact average day gap. Python converts the float average to whole microseconds before dropping the fraction of a day. The two differ only when the average is within half a microsecond below a whole day, which needs more than 86 billion gaps.
- Graph.PredictNext: returns the predicted date as a day ordinal, not as a `date`.
- `datetime.today()`: the clock is the parameter `today`.
- `GenerateGraph` takes release dates that are valid calendar dates (`ValidDate`), as every Python `date` is.
- The Discord layer: `bot.py` entirely, the `SelectOption`/`Page`/`View`/`Embed` objects, deferring the interaction and editing the message. A select option is its label and value; a shown page is its description and options.
- The callback passes the tuple `fetch_series_info` returns as an `embed`, and `create_embed` and `GraphButtonView` are imported without being defined in these files. `BotExt.Callback` stops at the id whose details are requested.
- `parse_date_safe` (bot_utils.py:16-25) is commented out, so no date parsing or `"99"`-day correction is modelled.
- Strings.ParseInt: accepts an optional sign followed by decimal digits, not the whitespace, underscores or non-ASCII digits that `int()` also accepts. The values it parses are the bot's own `str(sn)`.
- `romaji_orig` of a search item and `title` of a series are taken as always present strings. Search items with a null `romaji_orig` are not modelled.
- BotUtils.SearchSeries: takes the keys of search responses and items read with `[...]` as present. These are `result['series']`, `result['totalPages']` and `result['count']` (bot_utils.py:116-118), and each page's `data["series"]` and each item's `id`, `title` and `lang` (bot_utils.py:76-77). The `KeyError` a missing key would raise is not modelled.
- BotUtils.SeriesFromJson: takes the fields the code reads with `[...]` as present and not `null`. These are `series`, `id`, `title`, `lang`, `books`, the first book's `image`, the image's `filename` and each tag's `name`. The `KeyError` or `TypeError` such a record would raise is not modelled. The `null` states of `tags`, `book_description` and the first book's `image` are modelled.
- BotUtils.Paginate: requires a positive page size. A size of 0 would raise `ZeroDivisionError` at `len(flat_list) / items_per_page` (bot_utils.py:82). A negative size would give no pages and return `{}`. Neither case is modelled, because the bot always passes 10.
- BotUtils.SearchSeries: the count is taken as an integer; `int(result['count'])` failing on a non-numeric count is not modelled.
