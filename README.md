# movie-browser core, modelled in Dafny

movie-browser is a Next.js front end over the TMDB catalogue. Besides its pages and proxy routes
it holds a handful of small pieces of sequential logic, and this project models those and proves
what they promise:

- **the fixed-window rate limiter** (`lib/rateLimit.ts`): a table from client identifier to
  `{count, resetTime}`, at most 25 calls per 1000 ms window, a periodic sweep of expired windows,
  and the choice of client identifier from proxy headers (`rate_limit.dfy`, a class over a `map`);
- **the id obfuscation codec** (`lib/tmdb-client.ts`): an id's decimal text XORed with a cycled
  secret and written in unpadded base64url (section 5 of RFC 4648), its inverse ending in
  `parseInt`, the check that refuses an empty secret, and the JSON walk that replaces numeric
  `id`/`movie_id`/`tv_id`/`series_id` fields except under `genres` (`tmdb_client.dfy`,
  `base64url.dfy`);
- **the watch list** (`lib/watchList.ts`): items stamped with the time they were added, read most
  recent first, re-added at the front, removed by id, compared as `String(id)` (`watch_list.dfy`,
  a class whose field is the storage slot);
- **the decade filter** (`lib/yearRanges.ts`, `year_ranges.dfy`);
- **the embed-URL catalogue** (`lib/mediaplayer.ts`, `mediaplayer.dfy`): the provider lists, the
  movie and TV URL templates, the slugs, and the stream choice of the scraping provider;
- **the recommendations endpoint** (`app/api/recommendations/route.ts`,
  `recommendations_route.dfy`): the order of the request checks, the choice of chat model from a
  "(YYYY)" in the query, the parser of the model's "title,year" reply, the search parameters and
  the reply built from the search hits;
- **the recommendations view** (`components/Recommendations.tsx`, `recommendations_view.dfy`):
  the clean-up of the browser cache and the conversion and de-duplication of the results;
- **the image URL helpers** (`lib/tmdb.ts`, `tmdb_images.dfy`).

Shared pieces: `wrappers.dfy` (`Option`, `Result`), `text.dfy` (the ECMAScript string operations
the code uses: `trim`, `split`, `join`, `lastIndexOf`, `parseInt`, `String(n)`, lower-casing),
`media_types.dfy` (media ids and items).

Clocks, secrets, environment variables, request headers, the presence of a browser window and
the outcomes of network requests are parameters. `localStorage` slots are fields holding what
`JSON.parse` would have produced (or the fact that it threw).

Two behaviours of the code worth knowing:

- the id round trip holds for secrets whose UTF-16 code units are all below 256, not for every
  non-empty secret, because `Buffer.from` keeps only the low byte of each XORed value
  (`TmdbClient.WideSecretLosesId` exhibits an id lost to a wider secret);
- the model for a query naming the current year is "gpt-4.1-mini", which is what the code
  selects; a comment beside that line names another model.

## Model

| member | source | states |
|---|---|---|
| RateLimit.Admit | lib/rateLimit.ts:27-58 | A missing or expired window (reset time strictly before now) is replaced by `{1, now + 1000}` with verdict allowed, remaining 24; otherwise the count grows by exactly one, even for a denied call; a call is allowed iff the new count is at most 25, remaining is 25 - count when allowed and 0 otherwise, and the verdict's reset time is the window's |
| RateLimit.Replay | lib/rateLimit.ts:22-58 | Successive calls for one identifier give one verdict per call |
| RateLimit.LiveWindowReplay | lib/rateLimit.ts:43-58 | Inside a live window that already counted c calls, call j is allowed iff c + j + 1 <= 25, with the rest of the budget as remaining, and the reset time does not change |
| RateLimit.FreshBurst | lib/rateLimit.ts:30-58 | For a new or expired identifier, calls 0..24 within one window are allowed with remaining 24, 23, ..., 0, and every later call is denied with remaining 0, all with the reset time of the window the first call opened |
| RateLimit.Unexpired | lib/rateLimit.ts:13-20 | The sweep keeps exactly the windows whose reset time is not before now, each unchanged |
| RateLimit.SweepUnobservable | lib/rateLimit.ts:13-20 | A sweep at an earlier time changes no later verdict for any identifier |
| RateLimit.AdmitAsWritten | lib/rateLimit.ts:8-58 | With the table as a plain object: an identifier naming an `Object.prototype` property is allowed and stores nothing; any other identifier gets `Admit`'s window and verdict |
| RateLimit.ReplayAsWritten | lib/rateLimit.ts:8-58 | Successive calls as written give one answer per call |
| RateLimit.PrototypeKeyNeverLimited | lib/rateLimit.ts:8-58 | As written, every call from an identifier naming an inherited property is allowed, however many there are |
| RateLimit.OwnKeyAsIntended | lib/rateLimit.ts:8-58 | As written, every other identifier gets exactly the verdicts of the intended table |
| RateLimit.ConstructorBurst | lib/rateLimit.ts:8-58 | 26 calls at one instant from "constructor": the intended table denies the 26th, the code as written allows it |
| RateLimit.RateLimiter.constructor | lib/rateLimit.ts:8 | The table starts empty |
| RateLimit.RateLimiter.RateLimit | lib/rateLimit.ts:22-59 | Only the identifier's window changes, to the window `Admit` gives; the verdict is `Admit`'s; an allowed call has 0 <= remaining < 25; every stored window keeps a count of at least 1 |
| RateLimit.RateLimiter.Sweep | lib/rateLimit.ts:13-20 | The loop deletes exactly the windows with reset time before now and leaves the others unchanged |
| RateLimit.ClientIdentifier | lib/rateLimit.ts:61-80 | The trimmed text before the first comma of a non-empty x-forwarded-for, else a non-empty x-real-ip, else a non-empty cf-connecting-ip, else "unknown" |
| Text.Trim | lib/rateLimit.ts:67 | The trimmed text is no longer than the input and has no whitespace at either end |
| Text.TrimDropsWhitespaceOnly | lib/rateLimit.ts:67 | The trimmed text is a contiguous stretch of the input, and everything before and after that stretch is whitespace |
| Text.TrimOfTrimmed | lib/rateLimit.ts:67 | A text with no whitespace at either end is its own trim |
| Text.TakeUntil | lib/rateLimit.ts:67 | The text before the first separator is a prefix without the separator, followed by the separator or the end |
| Text.SplitFirst | lib/rateLimit.ts:67 | The first piece of `split` is the text before the first separator |
| TmdbClient.LoadSecret | lib/tmdb-client.ts:2-11 | The module loads iff the API key and the id secret are both present and non-empty; the key is checked first; the secret is read as UTF-16 code units |
| TmdbClient.Utf16 | lib/tmdb-client.ts:19 | Every character gives at least one code unit |
| TmdbClient.Xored | lib/tmdb-client.ts:15-22 | The encrypting loop pushes one value per character of the id's text |
| TmdbClient.LowBytes | lib/tmdb-client.ts:24 | `Buffer.from` keeps one byte per value |
| TmdbClient.Encrypted | lib/tmdb-client.ts:14-25 | The token has ceil(4n/3) characters for an id of n decimal characters, and decodes to the payload |
| TmdbClient.Decrypted | lib/tmdb-client.ts:27-41 | "Invalid encrypted ID format" exactly when the token does not decode; NaN exactly when it decodes but `parseInt` of the unmasked text is NaN; otherwise that number |
| TmdbClient.Payload | lib/tmdb-client.ts:14-24 | The payload has exactly as many bytes as the id has characters in decimal |
| TmdbClient.Unmasked | lib/tmdb-client.ts:30-36 | The decrypting loop appends one character per decoded byte |
| TmdbClient.XorEncrypt | lib/tmdb-client.ts:14-25 | The loop's token is the base64url encoding of the payload, and it decodes back to that payload |
| TmdbClient.XorDecrypt | lib/tmdb-client.ts:27-41 | The loop computes the decryption; the format error is raised exactly when the token does not decode |
| TmdbClient.XorXor | lib/tmdb-client.ts:34 | XOR with the same key twice gives the value back |
| TmdbClient.UnmaskPayload | lib/tmdb-client.ts:29-36 | With a secret of byte-sized code units, unmasking the payload gives back the id's decimal text |
| TmdbClient.DecryptEncrypt | lib/tmdb-client.ts:14-51 | Round trip: decrypting the token of any integer id with the same byte-sized secret gives that id, never a default |
| TmdbClient.WideSecretLosesId | lib/tmdb-client.ts:24 | With the secret U+0100 the id 5 decodes to NaN: the low-byte cut breaks the round trip |
| TmdbClient.ObfuscateIds | lib/tmdb-client.ts:54-77 | Scalars and null come back unchanged; an array keeps its length and item i becomes the rewrite of item i, in order; objects keep the same keys in the same order |
| TmdbClient.ObfuscatedField | lib/tmdb-client.ts:59-74 | A numeric id field becomes the token of its value, `genres` is copied verbatim, every other field is rewritten recursively |
| TmdbClient.ObfuscatedHasNoPlainIds | lib/tmdb-client.ts:54-77 | After one pass no id field outside a `genres` subtree holds a number |
| TmdbClient.ObfuscateIdempotent | lib/tmdb-client.ts:54-77 | A second pass changes nothing |
| TmdbClient.GenreIdsStayNumeric | lib/tmdb-client.ts:68-69 | In `{id: 42, genres: [{id: 7, name: "Action"}], movie_id: 99}` the top-level id and movie_id become tokens and the genre id stays 7 |
| Base64Url.Encode | lib/tmdb-client.ts:24 | n bytes become ceil(4n/3) characters of the base64url alphabet |
| Base64Url.Decode | lib/tmdb-client.ts:29 | A decoded text of k characters yields floor(3k/4) bytes |
| Base64Url.DecodeEncode | lib/tmdb-client.ts:24-29 | Decoding inverts encoding, so distinct payloads give distinct tokens |
| Text.ParseIntToString | lib/tmdb-client.ts:37 | `parseInt` reads back every integer that `toString` wrote |
| MediaTypes.IdStringOfNumbers | lib/watchList.ts:37 | Two numeric ids are the same `String(id)` iff they are the same number, and a number and the string of its digits are the same |
| WatchList.Insert | lib/watchList.ts:22 | Inserting into a list in order keeps it in order and adds exactly that item |
| WatchList.Sort | lib/watchList.ts:22 | The read list is ordered by non-increasing `addedAt` and is a permutation of what was stored |
| WatchList.SortStable | lib/watchList.ts:22 | Items added at the same time keep their stored order |
| WatchList.SortSorted | lib/watchList.ts:22 | A list already in order reads back unchanged |
| WatchList.HasKeyPermutation | lib/watchList.ts:84 | Whether an id is present does not depend on the order of the list |
| WatchList.WithoutKey | lib/watchList.ts:70 | Filtering by id keeps exactly the entries with another id and leaves none with that id |
| WatchList.WithoutKeySorted | lib/watchList.ts:43 | What remains of a list in order is in order |
| WatchList.WithoutKeyConcat | lib/watchList.ts:70 | The filter distributes over concatenation, so the kept entries keep their relative order |
| WatchList.WithoutAbsentKey | lib/watchList.ts:40-55 | Filtering out an absent id changes nothing, so both branches of the add store the same list |
| WatchList.WithoutKeyTwice | lib/watchList.ts:43 | Filtering twice by one id is filtering once |
| WatchList.Added | lib/watchList.ts:36-55 | The stored list starts with the item stamped now, holds exactly one entry with its id, keeps every other entry in read order, and grows by one when the id was new |
| WatchList.AddedReadsBack | lib/watchList.ts:14-55 | With a clock that does not run backwards, the next read returns the stored list unchanged, the added item first |
| WatchList.WatchListStore.constructor | lib/watchList.ts:15-18 | The store holds the given slot |
| WatchList.WatchListStore.View | lib/watchList.ts:14-27 | The read list is in order and a permutation of the stored items; it is empty outside a browser, when nothing is stored or when the text does not parse |
| WatchList.WatchListStore.Contains | lib/watchList.ts:80-85 | True iff in a browser some stored entry has the same `String(id)` |
| WatchList.WatchListStore.Add | lib/watchList.ts:32-60 | Outside a browser nothing changes; otherwise the slot becomes `Added` of the list read |
| WatchList.WatchListStore.Remove | lib/watchList.ts:65-75 | Outside a browser nothing changes; otherwise the slot becomes the list read without the id |
| YearRanges.YearRange | lib/yearRanges.ts:1-18 | An upper bound exists exactly for the six offered labels, and a lower bound only with an upper one |
| YearRanges.DecadeRanges | lib/yearRanges.ts:3-12 | Each decade label "Ds" maps to D-01-01 .. (D+9)-12-31 |
| YearRanges.EarlierRange | lib/yearRanges.ts:13-14 | "earlier" has only the upper bound 1969-12-31 |
| YearRanges.TwentyTensUnbounded | lib/yearRanges.ts:15-16 | "2010s", like any other unknown label, sets no bound |
| YearRanges.BoundsOrdered | lib/yearRanges.ts:3-12 | When both bounds exist the lower precedes the upper in date order |
| YearRanges.RangesDisjoint | lib/yearRanges.ts:3-14 | No date lies in the ranges of two different offered labels |
| TmdbImages.ImageUrl | lib/tmdb.ts:4-9 | A missing or empty path gives the placeholder; otherwise the base URL, "/", the size (default w500) and the path, never the placeholder |
| TmdbImages.BackdropUrl | lib/tmdb.ts:11-16 | Empty exactly when the path is missing or empty; otherwise the original-size base URL and the path |
| TmdbImages.ImageUrlRecoversPath | lib/tmdb.ts:8 | The path is the tail of the URL, so different paths give different URLs |
| TmdbImages.BackdropUrlRecoversPath | lib/tmdb.ts:15 | The path is the tail of the backdrop URL, so different paths give different URLs |
| MediaPlayer.MovieTemplate | lib/mediaplayer.ts:108-167 | Every fixed movie template starts with "https://" |
| MediaPlayer.TvTemplate | lib/mediaplayer.ts:214-270 | Every fixed TV template starts with "https://" |
| MediaPlayer.ShowSlug | lib/mediaplayer.ts:231-247 | Without a non-empty name the id; otherwise the name's slug, lower-cased (`ToLower` of the slug, so no ASCII capital remains) for the anime providers and as is for AdminHiHi; never longer than the name and free of whitespace |
| MediaPlayer.MovieEmbed | lib/mediaplayer.ts:98-200 | The only errors before any request are "Provider not recognized." and the filmxy language error, and the latter happens exactly for filmxy without a language |
| MediaPlayer.TvEmbed | lib/mediaplayer.ts:202-310 | The only error before any request is "Provider not recognized." |
| MediaPlayer.OkProvidersLead | lib/mediaplayer.ts:31-96 | Both lists start with the same eight providers, which are exactly the OK providers |
| MediaPlayer.MovieProvidersCovered | lib/mediaplayer.ts:107-198 | A provider is unrecognised for movies iff it is not in the movie list |
| MediaPlayer.TvProvidersCovered | lib/mediaplayer.ts:213-308 | A provider is unrecognised for TV iff it is neither in the TV list nor vidsrcpro |
| MediaPlayer.UnrecognizedProviders | lib/mediaplayer.ts:98-310 | vidsrcpro and flickyanime are unrecognised for movies, vidsrc2 and filmxy for TV, while vidsrcpro has a TV case |
| MediaPlayer.MovieUrlIdentifiesMedia | lib/mediaplayer.ts:107-167 | Every movie template embeds the id verbatim, so different ids give different URLs |
| MediaPlayer.TvUrlIdentifiesMedia | lib/mediaplayer.ts:213-270 | Every TV template embeds the id verbatim in front of season and episode, so for one season and episode different ids give different URLs |
| MediaPlayer.VidsrcXyzMovieUrl | lib/mediaplayer.ts:125-126 | The vidsrc.xyz movie URL is the embed path followed by the id |
| MediaPlayer.VidsrcXyzTvUrl | lib/mediaplayer.ts:222-223 | The vidsrc.xyz TV URL is the embed path, the id, and season and episode as query parameters |
| MediaPlayer.Slug | lib/mediaplayer.ts:144 | The slug has no whitespace, is no longer than its input, and is the input itself when that has no whitespace |
| MediaPlayer.SlugJoin | lib/mediaplayer.ts:144 | A whitespace run between two parts that do not border it with whitespace becomes exactly one "-" between their slugs; with the identity on whitespace-free text this fixes the slug of every text |
| MediaPlayer.SlugIdempotent | lib/mediaplayer.ts:231-248 | A slug is its own slug |
| MediaPlayer.ForceHttps | lib/mediaplayer.ts:188-190 | A text without a scheme is an invalid URL; a special scheme becomes https and keeps the rest; any other scheme is left as it is |
| MediaPlayer.ForceHttpsIdempotent | lib/mediaplayer.ts:299-301 | Forcing https twice is forcing it once |
| MediaPlayer.StreamOf | lib/mediaplayer.ts:185-195 | A stream URL results iff a source was chosen and has a non-empty base URL with a scheme, and it is the base URL plus ".mpd" with its scheme forced to https; no source or a falsy base URL gives the error the caller passes, a base URL without a scheme gives "Invalid URL" |
| MediaPlayer.Find | lib/mediaplayer.ts:181-183 | The index of the first source whose quality is accepted, or none when no source has one |
| MediaPlayer.FilmxyStream | lib/mediaplayer.ts:118-123 | A failed response is the network error; a reply without `streamData` or without `streamData.data` is the `TypeError` of reading `data` or `link`; otherwise the link is the URL iff it is non-empty, and "No m3u8 link found" when it is not |
| MediaPlayer.MovieStream | lib/mediaplayer.ts:172-195 | A failed response is the network error; a reply without `data` is the `TypeError` of `find`; otherwise the stream of the first source in list order that is 2160p or 1080p |
| MediaPlayer.Preferred | lib/mediaplayer.ts:284-290 | The first source with the best quality in 2160p, 1080p, 720p, 360p that any source has; none iff no source has any of them |
| MediaPlayer.SelectTvSource | lib/mediaplayer.ts:284-290 | The loop with its break selects the preferred source |
| MediaPlayer.TvStream | lib/mediaplayer.ts:278-306 | A failed response is the network error, a missing or empty list the no-data error, otherwise the stream of the preferred source |
| MediaPlayer.MovieAndTvPreferDifferently | lib/mediaplayer.ts:181-290 | With a 1080p source listed before a 2160p one, movies take the 1080p source and TV the 2160p one |
| RecommendationsRoute.RetryAfter | app/api/recommendations/route.ts:32-34 | The Retry-After value is the ceiling of the milliseconds to the reset over 1000 |
| RecommendationsRoute.RetryAfterOfLiveWindow | app/api/recommendations/route.ts:33 | For a window ending within 1000 ms the client waits 0 or 1 seconds, and 0 exactly when it ends now |
| RecommendationsRoute.DeniedHeaders | app/api/recommendations/route.ts:31-38 | Four headers in order: Retry-After with the wait written in decimal, X-RateLimit-Limit "25", X-RateLimit-Remaining "0", X-RateLimit-Reset with the window end written in decimal |
| RecommendationsRoute.DeniedHeadersReadBack | app/api/recommendations/route.ts:31-38 | Reading the two numeric headers back with `parseInt` gives the wait in seconds and the window end |
| RecommendationsRoute.Validate | app/api/recommendations/route.ts:20-72 | 429 iff denied; else 500 iff a key is missing (OpenAI first); else 400 iff query or kind is missing (query first); otherwise the request proceeds with the query and kind |
| RecommendationsRoute.DenialComesFirst | app/api/recommendations/route.ts:20-41 | A denied request is refused as such whatever its keys and parameters |
| RecommendationsRoute.Begin | app/api/recommendations/route.ts:18-72 | The client is counted against the limit before any check, so even a request refused for a missing parameter uses up a call |
| RecommendationsRoute.MatchFrom | app/api/recommendations/route.ts:120 | The first "(dddd)" at or after a position, or none after it |
| RecommendationsRoute.QueryYear | app/api/recommendations/route.ts:120-121 | The query year is the value of the four digits of the leftmost "(dddd)", and absent iff there is none |
| RecommendationsRoute.QueryYearExtended | app/api/recommendations/route.ts:120 | Text appended to a query with a year does not change the year |
| RecommendationsRoute.ModelFor | app/api/recommendations/route.ts:120-144 | "gpt-4.1-mini" without a temperature iff the query year is the current year, else "gpt-4o-mini" at temperature 0.7 |
| RecommendationsRoute.ModelIgnoresLaterText | app/api/recommendations/route.ts:120-125 | Only the leftmost "(dddd)" decides the model |
| RecommendationsRoute.ParseLine | app/api/recommendations/route.ts:171-180 | No record iff the line has no comma; otherwise the title is the trimmed text before the last comma and the year is `parseInt` of the trimmed text after it, absent for NaN |
| RecommendationsRoute.MapAt | app/api/recommendations/route.ts:169-180 | `map` gives one entry per entry, and entry `i` is the callback applied to entry `i` |
| RecommendationsRoute.MapConcat | app/api/recommendations/route.ts:169-180 | `map` keeps the order: mapping two joined lists maps the first, then the second |
| RecommendationsRoute.TrimAllAt | app/api/recommendations/route.ts:169 | One line per line, and line `i` is line `i` of the input, trimmed |
| RecommendationsRoute.ParseAllAt | app/api/recommendations/route.ts:171-180 | One parse per line, and entry `i` is the parse of line `i` |
| RecommendationsRoute.NonEmptyMembers | app/api/recommendations/route.ts:170 | Keeps exactly the non-empty lines |
| RecommendationsRoute.PresentMembers | app/api/recommendations/route.ts:181-183 | Keeps exactly the values that are not null |
| RecommendationsRoute.PresentCount | app/api/recommendations/route.ts:181-183 | As many values are kept as there are entries that are not null |
| RecommendationsRoute.ParseReply | app/api/recommendations/route.ts:167-186 | There are never more records than non-empty lines |
| RecommendationsRoute.ParseReplyTrimmed | app/api/recommendations/route.ts:167-186 | Every record's title is trimmed |
| RecommendationsRoute.ParseReplyConcat | app/api/recommendations/route.ts:167-186 | The records of two texts joined by a line break are those of the first followed by those of the second, so records keep line order |
| RecommendationsRoute.ParseReplyOfLine | app/api/recommendations/route.ts:167-186 | A line gives no record when blank or without a comma, else the record of the trimmed line |
| RecommendationsRoute.SearchParams | app/api/recommendations/route.ts:192-196 | The title is always sent; the year only when it is present and non-zero, and its text parses back to the year |
| RecommendationsRoute.SearchHit | app/api/recommendations/route.ts:198-225 | The first result iff the search answered with a non-empty result list whose first entry is not null, else null |
| RecommendationsRoute.Respond | app/api/recommendations/route.ts:229-272 | The count is the number of non-null hits and the length of the list; result i is hit i of the non-null hits with its ids replaced, so order is kept; no result holds a numeric id outside `genres` |
| RecommendationsView.Live | components/Recommendations.tsx:39-44 | Keeps exactly the entries with now < expiry, unchanged, under their own keys |
| RecommendationsView.LiveIdempotent | components/Recommendations.tsx:39-49 | Cleaning again at the same time returns the same cache |
| RecommendationsView.LiveLater | components/Recommendations.tsx:39-44 | An earlier clean-up followed by a later one keeps what the later one alone keeps |
| RecommendationsView.RecommendationCache.constructor | components/Recommendations.tsx:29-32 | The cache holds the given slot |
| RecommendationsView.RecommendationCache.CleanupCache | components/Recommendations.tsx:28-54 | Outside a browser, with nothing stored or when reading throws it returns {} and writes nothing; otherwise it returns the live entries and writes them back |
| RecommendationsView.ToMediaItem | components/Recommendations.tsx:92-103 | The title is the first truthy of title, original_title and name; present votes are carried over and missing ones become 0; a non-empty language is carried over and any other becomes ""; the type is "movie"; id, paths, overview and date are carried over |
| RecommendationsView.ToMediaItems | components/Recommendations.tsx:91-104 | One item per result, in order |
| RecommendationsView.Firsts | components/Recommendations.tsx:106-114 | The items that are the first with their id, in order, drawn from the input |
| RecommendationsView.FirstsKeepIds | components/Recommendations.tsx:106-114 | Every input id appears in the result, and no other |
| RecommendationsView.FirstsDistinct | components/Recommendations.tsx:106-114 | The kept items have pairwise distinct ids |
| RecommendationsView.FirstsOfDistinct | components/Recommendations.tsx:106-114 | Items with distinct ids are all kept, in order |
| RecommendationsView.FirstsIdempotent | components/Recommendations.tsx:106-114 | De-duplicating twice is de-duplicating once |
| RecommendationsView.RecommendedIds | components/Recommendations.tsx:91-114 | The items shown carry every result's id exactly once, and no other id |
| RecommendationsView.DedupeById | components/Recommendations.tsx:106-114 | The filter with its seen-set keeps exactly the first item of each id, in order |
| Text.Split | app/api/recommendations/route.ts:168 | `split` gives at least one piece and no piece holds the separator |
| Text.JoinSplit | app/api/recommendations/route.ts:175 | Joining the pieces of a split with the separator gives the text back |
| Text.SplitSingle | app/api/recommendations/route.ts:174 | A text splits into one piece iff it holds no separator |
| Text.SplitConcat | app/api/recommendations/route.ts:168 | Splitting two texts joined by the separator splits each |
| Text.SplitAtLast | app/api/recommendations/route.ts:173-176 | All pieces but the last join back to the text before the last separator, and the last piece is the text after it |
| Text.LastIndexOf | app/api/recommendations/route.ts:175 | The last position of a character, absent iff it does not occur |

## Findings

| source | as written | input that shows it | evidently intended | confidence | as-written member | corrected member |
|---|---|---|---|---|---|---|
| lib/rateLimit.ts:8-58 | `store` is a plain object, so `store[key]` for "constructor", "toString", "__proto__" and the other `Object.prototype` names finds an inherited value: `!store[key]` is false, `resetTime` is undefined, `count` becomes NaN and `NaN > 25` is false | 26 calls at one instant with `x-forwarded-for: constructor` | every identifier is limited to 25 calls per window | high (not executed) | RateLimit.ConstructorBurst | RateLimit.FreshBurst |

## Left out

- The network: the chat-completion request, the TMDB searches, the scraper requests and every
  other `fetch` are outcomes passed in (`Outcome.Fetch` names the request a provider would make;
  the readers take the response). The `TMDBClient` request methods are not part of this model.
- Supabase caching, the SHA-256 cache key and the `console` logging of the endpoint; the prompt
  text sent to the chat model.
- `setInterval` scheduling of the sweep, `Date.now()` and `new Date().getFullYear()` (parameters);
  the two clock reads of a denied request are taken as one instant.
- The random 2-5 s delay before a scraper request (`Math.random`, `setTimeout`).
- `localStorage` and `JSON.parse`/`JSON.stringify`: a slot holds the parsed value or records that
  reading threw; a cache entry lacking its fields and a failing `setItem` are not modelled.
- Floating point: JSON numbers are integers, vote averages are reals, and `Number#toString`'s
  exponent form for magnitudes of 10^21 and more is not modelled.
- Unicode lower-casing: `ToLower` folds ASCII letters only.
- The URL parser: `ForceHttps` models the protocol setter on the scheme alone; host parsing,
  normalisation and parse errors other than a missing scheme are not modelled.
- Base64Url.Decode: rejects characters outside the alphabet and a lone trailing character, where
  Node's decoder skips them, so `Decoded.InvalidFormat` stands for tokens Node would read leniently.
- MediaPlayer.TvStream: data that is not an array (other than null) is not modelled.
- MediaPlayer.MovieStream: a `data` field that is present but not an array is not modelled; a
  `data` of null throws a `TypeError` whose message says "null" rather than "undefined".
- MediaPlayer.FilmxyStream: a reply body, `streamData` or `data` that is null (rather than
  missing) throws a `TypeError` whose message says "null"; the model gives the "undefined" message.
- MediaPlayer.Find: the sources of a scraper's `data` are records, so a null element, on which the
  `find` callbacks of lib/mediaplayer.ts:181 and :287 throw a `TypeError` before reaching a match
  behind it, is not modelled; the same holds for `SelectTvSource` and `Preferred`.
- RecommendationsRoute.Respond: models the call to `obfuscateIdsInObject` as working. The route
  imports that function from lib/tmdb-client.ts, which declares it without `export`, so as
  written either the type check rejects the build or the binding is undefined, and then any
  non-empty list of hits makes `map` throw and the route answer 500 "Failed to get
  recommendations".
- TmdbClient.ObfuscateIds: an object key "__proto__" is kept under that name. The source writes
  into a plain `{}`, where `result["__proto__"] = …` runs the prototype setter instead, so the
  key is missing from its output (a scalar value is ignored, an object value becomes the
  prototype).
- RecommendationsView.Live: an entry stored under the key "__proto__" is kept under that name,
  here and in `RecommendationsView.RecommendationCache.CleanupCache`. The source fills a plain
  `{}` with `cleaned[id] = entry`, where that key runs the prototype setter, so the entry is
  missing both from the cache it returns and from the text it writes back. Tokens the app writes
  never have that name, but the stored text can hold any key.
- Text.Trim: its own contract states the length bound and the trimmed ends only; that the result
  is a stretch of the input with nothing but whitespace dropped around it is the separate lemma
  `Text.TrimDropsWhitespaceOnly`, which keeps the proofs that unfold `Trim` small.
- RateLimit.Admit: models the table the code evidently intends, with an own entry per
  identifier. The plain object as written also finds the inherited `Object.prototype` properties,
  and `AdmitAsWritten` models that separately (see Findings). The pollution of
  `Object.prototype.count` that a "__proto__" identifier causes is not modelled.
- RateLimit.RateLimiter.RateLimit: updates the table as `Admit` does, so it limits the
  `Object.prototype` names that the code as written never limits (see RateLimit.Admit above and
  Findings).
- The `Name` and `Message` tables record the union's provider names and the thrown messages.
  Nothing is proved about them, because comparing their string literals is beyond the solver
  budget of this model.
- Providers are the `MediaProvider` union as a datatype; the coverage lemmas are stated over that
  union, not over arbitrary strings.
- `URLSearchParams` encoding of the search parameters and the search URL around them.
- `CACHE_DURATION` in components/Recommendations.tsx is declared but never used, and nothing in
  that file writes cache entries, so only the clean-up is modelled.
- React rendering, hooks and loading state of the components.
