# Stream selection for a torrent autoplay add-on, in Dafny

This project models the stream-selection engine in `index.js` of the add-on (a
Stremio stream handler). It proves properties of that model. The engine does
five things:

- **Mirror failover** (`fetchWithFailover`). Each provider has a list of mirror
  URLs. They are tried strictly in order, the first answer wins, and one error
  naming the provider is raised only when every mirror fails (module `Mirrors`).
- **Provider adapters**. YTS, EZTV and The Pirate Bay payloads are turned into
  uniform candidates `{title, magnet, seeds, source, resolution}` (module
  `Streams`). This includes the first-match resolution rules for EZTV titles
  and TPB names, and `parseInt` of TPB's seed cell.
- **Scorer** (`scoreStream`). Each candidate gets an integer score (module
  `Scoring`) made of:
  - a resolution tier;
  - seeds capped at 500;
  - a penalty of 10000 for no seeds;
  - a penalty of 5000 for a camcorder/telesync/screener marker.
- **Episode filter**. A series id `tt…:season:episode` is parsed and guarded.
  The season and episode are padded to two digits. EZTV results are then kept
  only if their title matches `S{ss}E{ee}|{season}x{ee}` case-insensitively
  (module `Episodes`).
- **Autoplay selection**. The handler (module `Handler`):
  1. builds the provider tasks;
  2. merges their `Promise.allSettled` outcomes, keeping fulfilled values in
     task order;
  3. scores the candidates and sorts them stably in descending order (module
     `Ranking`);
  4. plays the head of the list unless its score is below -4000.

Supporting modules:

- `Wrappers`: `Option`.
- `Seqs`: an order-preserving `Filter`.
- `Text`: substring search with and without ASCII case folding, and
  `split`/`join`.
- `Numbers`: JavaScript's `parseInt` with radix 10 or with no radix. This
  covers leading white space, the sign, the `0x` prefix when no radix is given,
  and the longest digit run. It also covers the decimal rendering of integers.

How JavaScript behaviour is represented:

- Network calls are parameters. `get` gives the outcome of one mirror request,
  and `Providers` gives the settled outcome of each provider call.
- Payloads arrive already decoded.
- `NaN` is `None`.
- A thrown error that the source catches becomes an empty candidate list.

Behaviour of `index.js` that the proofs make explicit:

- The low-quality test `/CAM|HDCAM|TS|HDTS|SCR/i` is an unanchored,
  case-insensitive substring test.
- Every YTS title starts with `[YTS]`, which contains `TS`. So every YTS
  candidate takes the 5000-point penalty (`Scoring.YtsAlwaysLowQuality`).
- An ordinary word such as "Description" is flagged through `scr`
  (`Scoring.DescriptionIsLowQuality`).
- The `{season}x{ee}` alternative is unanchored, so season 11's `11x02` passes
  the filter for season 1, episode 2 (`Episodes.CrossTagIsUnanchored`).
- Only EZTV results are filtered by episode. The TPB query for a series gets
  ` S{ss}E{ee}` appended (`Handler.EpisodeQuery`), but its results are not filtered.

`index.js` matches low-quality markers as substrings. It has no result cache,
no cached-link attribute, no size-based scoring or filtering (the adapters'
`size` field is never read), no minimum-seed filter, and
it returns one stream rather than a ranked list; the model has none of these
either.

## Model

| member | source | states |
|---|---|---|
| `Mirrors.Failover` | index.js:34-45 | The error is raised exactly when every mirror's attempt failed, and it names the provider; otherwise the data returned is that of the first mirror that answered, every earlier one having failed |
| `Mirrors.FailoverStopsAtFirstSuccess` | index.js:35-39 | Once a mirror answers, the mirrors after it are never consulted: replacing their outcomes changes nothing, and the result is that mirror's data |
| `Mirrors.FetchWithFailover` | index.js:34-45 | The loop requests a prefix of the URL list in order, every URL before the last one requested failed, the last one supplied the data on success, every URL was tried on failure, and the outcome equals the fold over the mirrors' outcomes |
| `Streams.EztvResolution` | index.js:89 | An EZTV torrent is labelled 1080p when its title contains "1080p" (case-sensitive), else 720p when it contains "720p", else 480p; a label other than 480p always occurs in the title |
| `Streams.TpbResolution` | index.js:124 | A TPB result is labelled 2160p when its name contains "2160p", else 1080p when it contains "1080p", else SD; it is never labelled 720p |
| `Streams.YtsStream` | index.js:59-64 | A YTS candidate's title starts with "[YTS] ", its source is YTS, and its resolution and seeds are the torrent's quality and seeds |
| `Streams.YtsStreams` | index.js:58-65 | The flat map over movies fails (the exception the adapter swallows) exactly when some movie has no torrent list; otherwise every candidate is a YTS candidate |
| `Streams.YtsStreamsOfOne` | index.js:58-65 | One movie contributes one candidate per torrent, in list order, each built from the movie title and that torrent; a movie without a torrent list makes the mapping fail |
| `Streams.YtsStreamsConcat` | index.js:58 | `flatMap` order: the candidates for two movie lists joined are those of the first list followed by those of the second, and a malformed movie in either part makes the whole mapping fail |
| `Streams.YtsStreamsSound` | index.js:58-65 | Every candidate is the candidate of some torrent of some movie in the list |
| `Streams.YtsStreamsComplete` | index.js:58-65 | When no movie is malformed, every torrent of every movie yields a candidate |
| `Streams.ScrapeYts` | index.js:47-70 | All mirrors failing, a payload without a movie list, or a malformed movie gives no candidates; otherwise the candidates are exactly the flat map over the movies; every candidate is a YTS candidate with the "[YTS] " prefix |
| `Streams.ScrapeEztv` | index.js:72-95 | No mirror or no torrent list gives no candidates; otherwise there is exactly one candidate per torrent, in order, titled "[EZTV] " + the torrent title, with its magnet link, its seeds, source EZTV and the resolution its title gives |
| `Streams.ScrapeTpb` | index.js:97-133 | All mirrors failing gives no candidates; the header row never yields one; the candidates are those of the listing rows after the header, one each and in table order, each titled "[TPB] " + the row's name, with its magnet link, the seed count read from its cells and the resolution its name gives; every candidate has a magnet link, source TPB and the "[TPB] " prefix |
| `Streams.ScrapeTpbKeepsListings` | index.js:110-127 | Every row after the header with a name and a magnet link becomes a candidate |
| `Streams.ScrapeTpbOnlyListings` | index.js:110-127 | Every candidate comes from a row after the header that has a name and a magnet link |
| `Streams.TpbSeeds` | index.js:114-116 | The seed count is read from the right-aligned cell, or from the third cell when that one is empty; it is 0 exactly when the text read is `NaN` or 0, and otherwise the number `parseInt` returns |
| `Streams.TpbSeedsReadsDecimal` | index.js:114-116 | A seed cell holding an integer written in decimal reads back as that integer |
| `Streams.TpbSeedsFallback` | index.js:114-116 | An empty right-aligned cell falls back to the third cell: a number written there is read as that number, and text without digits counts as 0 seeds |
| `Numbers.NatToString` | index.js:187-189 | The decimal rendering of a number has no leading zero and reads back as that number |
| `Numbers.ParseInt` | index.js:116 | With radix 10, the result is `NaN` exactly when no digit follows the leading white space and optional sign; a negative result needs a leading '-' and a positive one forbids it |
| `Numbers.ParseIntSkipsSpace` | index.js:116 | Leading white space does not change what `parseInt` reads |
| `Numbers.ParseIntRadixAgrees` | index.js:116 | Without a radix, `parseInt` reads the same as with radix 10 unless the digits start with `0x` or `0X` |
| `Numbers.ParseIntOfIntToString` | index.js:181-182 | `parseInt` of an integer's decimal rendering, followed by any text that does not start with a digit (nor, when no radix is given, with `x` or `X`), returns that integer |
| `Text.ContainsCI` | index.js:159 | The case-insensitive unanchored test holds exactly when the pattern occurs somewhere in the text up to ASCII letter case |
| `Text.Contains` | index.js:89 | `includes` holds exactly when the pattern occurs somewhere in the text |
| `Text.Split` | index.js:179 | `split(":")` yields at least one part and no part contains the separator |
| `Text.SplitThenJoin` | index.js:179 | Joining the parts of a split with the separator gives back the original string |
| `Text.JoinThenSplit` | index.js:179 | Splitting a join of separator-free parts gives back those parts |
| `Scoring.ResolutionBonus` | index.js:147-150 | The bonus is 2000 exactly for an exact match and at most 2000; a partial bonus for a non-matching resolution exists only when the preference is "1080p" |
| `Scoring.SeedTerm` | index.js:153 | `Math.min(seeds, 500)`: never above 500 or above the seed count, and equal to one of them |
| `Scoring.Score` | index.js:144-162 | Every score is at most 2500; a stream without seeds scores at most -8000; a flagged stream scores at most -2500; a seeded clean stream scores at least 1 |
| `Scoring.LowQuality` | index.js:159 | Testing CAM, TS and SCR case-insensitively accepts exactly the titles the case-insensitive regex with the five alternatives CAM, HDCAM, TS, HDTS and SCR accepts |
| `Scoring.HdVariantsSubsumed` | index.js:159 | A title containing HDCAM or HDTS already contains CAM or TS |
| `Scoring.TiersAround1080p` | index.js:148-150 | With the 1080p preference the tiers are 2000 for 1080p, 1500 for 2160p, 1000 for 720p and 0 for anything else |
| `Scoring.OnlyExactMatchOtherwise` | index.js:148-150 | With any other preference only the exact match is rewarded |
| `Scoring.SeedsSaturate` | index.js:153 | Seeds beyond 500 do not change the score |
| `Scoring.ScoreMonotoneInSeeds` | index.js:152-156 | More seeds never lower the score |
| `Scoring.AboveFloorIff` | index.js:144-162 | A stream scores at least -4000 exactly when it has a seed and, if flagged, its resolution bonus plus capped seeds reach 1000 |
| `Scoring.YtsAlwaysLowQuality` | index.js:159 | Every title starting "[YTS] " is flagged low quality, so every YTS candidate scores at most -2500 |
| `Scoring.DescriptionIsLowQuality` | index.js:159 | The test is not whole-word: "Description" is flagged |
| `Scoring.AdapterLabelsLimitTiers` | index.js:124 | No TPB candidate can match a 720p preference, and no EZTV candidate a 2160p one |
| `Ranking.SortDesc` | index.js:212 | The sort returns a permutation of its input, in descending key order |
| `Ranking.SortDescIsStable` | index.js:212 | The sort is stable: the elements sharing any one key keep their input order |
| `Ranking.EarliestMax` | index.js:215 | Reference winner: an index whose key is maximal, with every earlier key strictly smaller |
| `Ranking.SortDescHead` | index.js:212-215 | The head of the sorted list is the earliest element with the maximal key |
| `Episodes.ParseSeriesId` | index.js:179-184 | A series id that passes the guard has a non-empty id part without a colon, and a non-zero season and episode |
| `Episodes.ParseSeriesIdRoundTrip` | index.js:179-184 | An id written `imdbId:season:episode`, with a non-empty id and non-zero numbers, reads back as exactly those three values |
| `Episodes.BareIdRejected` | index.js:179-184 | An id without colons creates no series work |
| `Episodes.FalsyNumberRejected` | index.js:181-184 | A season or episode that parses to `NaN` or 0 creates no series work |
| `Episodes.Pad2` | index.js:187-188 | The padded form starts with '0' exactly when the number is below 10; it is two characters for 0 to 99 and the plain rendering from 10 up |
| `Episodes.Pad2ReadsBack` | index.js:187-188 | Padding a non-negative number does not change the value `parseInt` reads from it |
| `Episodes.NegativePadding` | index.js:179-188 | A negative season passes the guard (`tt1:-1:2` reads as season -1, episode 2) and is padded as written: -1 becomes "0-1" |
| `Episodes.IsEpisodeTitle` | index.js:189-190 | A title passes exactly when "S{ss}E{ee}" or "{season}x{ee}" occurs in it, ignoring ASCII letter case |
| `Episodes.EpisodeFilter` | index.js:189-190 | The filter keeps exactly the candidates whose title matches either episode format, in their original order, with every copy of a kept candidate and no copy of a dropped one |
| `Episodes.TagsForS01E02` | index.js:187-189 | Season 1, episode 2 gives the patterns "S01E02" and "1x02" |
| `Episodes.SeasonEpisodeFormatAccepted` | index.js:189-190 | A title containing "S01E02" passes for season 1, episode 2 |
| `Episodes.LowerCaseFormatAccepted` | index.js:189-190 | The match ignores letter case: "s01e02" passes |
| `Episodes.CrossFormatAccepted` | index.js:189-190 | A title containing "1x02" passes |
| `Episodes.CrossTagIsUnanchored` | index.js:189 | "11x02" passes the filter for season 1, episode 2 |
| `Episodes.EpisodeTitleNamesEpisode` | index.js:189-190 | Every title that passes contains the padded episode number |
| `Episodes.EpisodeDigitRequired` | index.js:189-190 | A title without the last digit of the padded episode number is dropped |
| `Episodes.OtherEpisodeRejected` | index.js:189-190 | Another episode of the same season ("S01E01") is dropped when episode 2 is requested |
| `Handler.PreferredResolution` | index.js:165 | A configured non-empty resolution is used as given; a missing or empty one becomes "1080p" |
| `Handler.SearchQuery` | index.js:168-170 | No metadata gives an empty query; otherwise the query is the name, followed by a space and the year when there is a year; it is empty only when both name and year are |
| `Handler.EpisodeQuery` | index.js:195-197 | The TPB search for an episode is the title query followed by a space and `S{ss}E{ee}` |
| `Handler.EpisodeQueryForS01E02` | index.js:195-197 | Season 1, episode 2 of "Show 2020" is searched as "Show 2020 S01E02" |
| `Handler.Tasks` | index.js:172-201 | At most two provider calls are made, and none for a type other than movie or series |
| `Handler.MovieTasks` | index.js:174-176 | A movie always calls YTS first, then TPB with the title query exactly when the query is non-empty |
| `Handler.SeriesTasks` | index.js:177-200 | A series creates work exactly when its id passes the guard: EZTV first, then TPB with the episode query exactly when the query is non-empty |
| `Handler.Run` | index.js:175-198 | YTS and TPB tasks settle as their provider call does; an EZTV task is rejected exactly when the provider rejects, and otherwise yields the provider's results that match the episode, in order, with every copy of a matching result kept and no copy of any other |
| `Handler.MergeComplete` | index.js:204 | Every value of every fulfilled task is in the merged list |
| `Handler.MergeOne` | index.js:204 | A single settled task merges to exactly its own values in their own order, or to nothing when it was rejected; with `Handler.MergeAppend` this fixes the merged list, order and copies included |
| `Handler.MergeSources` | index.js:204 | Every merged candidate comes from a fulfilled task |
| `Handler.MergeAppend` | index.js:204 | The merge distributes over concatenation, so task order is kept |
| `Handler.MergeSkipsRejected` | index.js:203-204 | A rejected task contributes nothing |
| `Handler.MergeByContributions` | index.js:203-204 | Outcome lists with the same per-task contributions merge to the same candidates |
| `Handler.Autoplay` | index.js:208-216 | At most one stream is chosen, and none exactly when every candidate scores below -4000; the chosen one is the earliest candidate with the maximal score (it beats every earlier candidate strictly); it has at least one seed |
| `Handler.StrictlyBestIsChosen` | index.js:211-216 | A candidate at or above the floor that outscores every other one is the one played |
| `Handler.ResolutionOutweighsSeeds` | index.js:144-162 | With the 1080p preference, a clean "1080p" candidate with 40 seeds is played over a "720p" one with 500, in either order |
| `Scoring.CleanTitle` | index.js:159 | A title with neither a C nor an S in any case is never flagged low quality |
| `Handler.HandleStream` | index.js:164-229 | The handler returns at most one stream: none for other media types or an unguarded series id; otherwise none exactly when every merged candidate scores below -4000, and else the earliest best-scoring merged candidate, seeded and scoring at least -4000 |
| `Handler.EztvCandidatesMatchEpisode` | index.js:186-191 | Every EZTV candidate that reaches scoring matches the requested episode's pattern `S{ss}E{ee}` or `{season}x{ee}`, ignoring case and unanchored |
| `Handler.OnlyContributionsMatter` | index.js:203-204 | A provider that rejects is indistinguishable from one that finds nothing: the handler depends on providers only through what they contribute |

## Left out

- HTTP requests: headers, the 5-second timeout and logging are not modelled. A mirror request is reduced to its outcome through the `get` parameter, so the same URL always gives the same outcome within one failover.
- The mirror URL lists are not modelled, nor how they are built: EZTV's numeric id from `parseInt` of the id without "tt", and `encodeURIComponent` of the TPB query. Each adapter takes the failover's result instead.
- JSON decoding and cheerio's HTML parsing are not modelled. The adapters take decoded payloads: YTS movies, EZTV torrents, and TPB rows given as name, magnet, right-aligned cell and third cell.
- Payload fields of the wrong type are not modelled, such as a missing `seeds` (`undefined`). Seeds are integers.
- `size` is not modelled. The adapters compute it but selection never reads it.
- `getMeta` is not modelled because it is a network call. Its result is the `meta` input, with an empty `year` standing for a missing one.
- The manifest, `addonBuilder`, `serveHTTP` and the configuration page are not modelled.
- The display fields of the returned stream are not modelled: `name`, the `url` field name and `behaviorHints`. `Handler.HandleStream` returns the chosen candidate itself.
- `Promise.allSettled` is modelled by its result: the outcomes in task order. Timing and interleaving are not modelled, because the result does not depend on them.
- JavaScript numbers are unbounded integers here. Not modelled: fractional or `NaN` seeds, precision loss beyond 2^53, and exponent notation when large numbers are rendered into text.
- Strings are sequences of characters, not UTF-16 code units. Case-insensitive matching folds ASCII letters only. This is exact for the ASCII patterns used here, because a regex without the `u` flag never folds a non-ASCII character onto an ASCII one.
- The other scrapers under src/scrapers/ (1337x and others) are not part of this model; the handler never calls them.
- `Handler.Tasks`: its own contract only bounds the number of provider calls. Their order and gating are stated by `Handler.MovieTasks` and `Handler.SeriesTasks`.
