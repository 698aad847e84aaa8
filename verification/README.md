# POV landmark backend — a verified model of its decision logic

POV is a landmark-recognition backend. A user photographs a place. The server asks a
vision model what it is, post-processes the answer against the user's age bracket and
interests, caches it, and records the scan. Around this sit four other features:
- nearby places and events, ranked and de-duplicated;
- per-user statistics (places visited, scans this week, a three-day streak);
- a "wrapped" summary of a user's scans;
- a chat about a landmark, whose answer carries suggested follow-up questions.

This project models the deterministic logic between those network and database calls.
It does not model the calls themselves. A reply from the vision model, a places or events
API, or a database query arrives as an argument of the modelled operation. A raised error
is the `Err` arm of a `Result`. The clock and the great-circle distance are parameters, and
so is the ISO-8601 parser.

Modules:
- `Cache` (cache.dfy): the process-wide time-to-live cache. It is a class `TtlCache` over a
  map of entries, and each call receives the current time.
- `IdentifyService` (identify_service.dfy): interest normalisation, the hedging-phrase
  detector, list capping, confidence finalisation, profile resolution, the cache key, and
  the `identify_landmark` flow.
- `PlacesService` (places_service.dfy): the place score, the first-per-key dedupe, ranking,
  and the cached fetch per place type.
- `EventsService` (events_service.dfy): the mapping of one event item, the dedupe on
  (name, venue, day), and the cached fetch.
- `Queries` (queries.dfy): the user statistics with the streak walk, the stored-interest
  parsing, and the most common city.
- `WrappedService` and `WrappedRoute` (wrapped_service.dfy, wrapped_route.dfy): landmark-name
  normalisation, unique counting, first-tag buckets, the top six and palette colours.
- `IdentifyRoute` (identify_route.dfy): upload checks, MIME type, interest splitting, and the
  mapping of errors to HTTP statuses.
- `ChatService` (chat_service.dfy): the prompt built from the history, and the parsing of the
  `SUGGESTED_QUESTIONS:` marker with its fallbacks.
- `Schemas` (schemas.dfy): the response records that the post-processing updates in place.
- Shared modules:
  - `Wrappers`: `Option` and `Result`.
  - `Http`: the HTTP error.
  - `Text`: Python's `strip`, `lower`, `split`, `join`, `in`, `endswith`, `hex()` and
    integer formatting, on ASCII text.
  - `Seqs`: first-occurrence dedupe, Python's stable `sorted(..., reverse=True)`, slicing
    `s[:n]`, and subsequences.

Where the code's behaviour differs from what its surrounding description promises, the
model follows the code:
- `get_user_stats` skips unparseable timestamps (a `ValueError`). A timestamp without a UTC
  offset, however, makes the comparison with the aware `week_ago` raise `TypeError`. That
  error is not caught per scan, so the outer handler turns the whole answer into zeros
  (`Queries.CountScansThisWeek`, `Queries.GetUserStats`).
- The places and events caches treat a cached empty list as a miss.
- An identify result is always truthy, so every live identify entry is a hit.
- `max_results` of `get_nearby_events` is only passed to the API. The service does not
  truncate the list itself.
- `normalize_interests` with `max_n <= 0` still keeps its first interest. The length check
  comes after the append (`IdentifyService.NormalizedInterestsShape`).

## Model

| member | source | states |
|---|---|---|
| Cache.Lookup | backend/services/cache.py:7-19 | a lookup yields a value exactly when the key is present and `now` is not past its expiry, and the value is the stored one |
| Cache.AfterGet | backend/services/cache.py:14-17 | after a lookup only an expired entry for that key is gone; every other entry is unchanged |
| Cache.TtlCache.constructor | backend/services/cache.py:5 | the cache starts empty |
| Cache.TtlCache.Get | backend/services/cache.py:7-19 | `get` answers the live value or None, drops an expired entry, and leaves the cache untouched on a hit |
| Cache.TtlCache.Set | backend/services/cache.py:22-24 | `set` overwrites the key's entry with expiry now+ttl; lookups of every other key answer as before |
| Cache.TtlCache.Delete | backend/services/cache.py:27-28 | `delete` removes only that key; an absent key leaves the cache unchanged |
| Cache.TtlCache.Clear | backend/services/cache.py:31-32 | after `clear` every lookup at any time answers None |
| Cache.LookupAfterSet | backend/services/cache.py:15 | after `set` at time t, every lookup up to and including t+ttl returns the value; a lookup strictly after t+ttl returns None |
| Cache.LookupMissing | backend/services/cache.py:8-10 | looking up a key never set answers None and changes nothing |
| Cache.LookupExpired | backend/services/cache.py:15-17 | looking up an expired key answers None and removes exactly that key |
| Schemas.Personalization.constructor | backend/schemas/identify.py:6-8 | the record holds the age bracket and matched interests given |
| Schemas.FunFacts.constructor | backend/schemas/identify.py:10-12 | the record holds the two fact lists given |
| Schemas.IdentifyResponse.constructor | backend/schemas/identify.py:19-32 | the record holds every field given |
| IdentifyService.Cleaned | backend/services/identify_service.py:16-19 | every kept entry is non-empty, stripped and lower-case |
| IdentifyService.CleanedFrom | backend/services/identify_service.py:17 | every cleaned element is the stripped, lower-cased form of some input entry |
| IdentifyService.CleanedCovers | backend/services/identify_service.py:16-19 | every input entry that is not blank after stripping appears, cleaned |
| IdentifyService.NormalizeInterests | backend/services/identify_service.py:13-26 | the loop, with its `seen` set and early break, returns the first-occurrence dedupe of the cleaned entries, cut at the cap |
| IdentifyService.NormalizeStopsEarly | backend/services/identify_service.py:24-25 | breaking once the cap is reached gives the same list as reading the whole input |
| IdentifyService.NormalizedInterestsShape | backend/services/identify_service.py:13-26 | the interests are non-empty, stripped, lower-case and pairwise distinct, each comes from an input entry, they form a sub-list of the cleaned entries, there are at most max_n of them (one when max_n <= 0 and an entry survives), and below the cap every non-blank entry is among them |
| IdentifyService.NormalizedInterestsOrder | backend/services/identify_service.py:13-26 | the interests are the first ones of the first-occurrence dedupe of the cleaned entries, and they keep first-occurrence order: any cleaned entry equal to a later interest comes after an entry equal to each earlier interest |
| IdentifyService.NormalizeIdempotent | backend/services/identify_service.py:13-26 | normalising a normalised list returns it unchanged |
| IdentifyService.PhraseFrom | backend/services/identify_service.py:34 | a search from position k succeeds exactly when the phrase occurs at word boundaries at or after k |
| IdentifyService.LooksUncertain | backend/services/identify_service.py:29-34 | true exactly when the lower-cased text holds one of the six hedging phrases between word boundaries |
| IdentifyService.SafeLists | backend/services/identify_service.py:37-56 | tags, questions, both fact lists and candidates become prefixes of at most 6, 3, 2, 2 and 3 items (a missing candidate list becomes empty); no other field changes |
| IdentifyService.InferredScore | backend/services/identify_service.py:61-66 | the inferred score is 0.55 or 0.80, and it falls below the threshold exactly when the name is empty or a placeholder or the description hedges |
| IdentifyService.MatchedInterests | backend/services/identify_service.py:79-80 | an interest is matched exactly when it occurs as a substring of the lower-cased, space-joined tags |
| IdentifyService.MatchedInterestsSublist | backend/services/identify_service.py:80 | the matched interests keep the order of the interests (a sub-list) |
| IdentifyService.FinalizeConfidence | backend/services/identify_service.py:59-83 | a present score is kept and an absent one is inferred; `needs_confirmation` is exactly score < 0.65; candidates become `[name]` only when confirmation is needed, none exist and the name is non-empty; the matched interests are set; other fields are unchanged |
| IdentifyService.ResolvedAge | backend/services/identify_service.py:97-105 | an explicit age bracket wins; otherwise the stored profile's for a known user; otherwise "adult" |
| IdentifyService.ResolvedInterests | backend/services/identify_service.py:98-107 | the request's interests, normalised, unless that list is empty and a stored profile exists, in which case the profile's interests are used, normalised |
| IdentifyService.ResolveProfile | backend/services/identify_service.py:96-107 | the resolution step computes exactly the resolved age and interests |
| IdentifyService.CacheKeyInjective | backend/services/identify_service.py:110-111 | two requests share a cache key only if age, interests, image length and first 64 image bytes agree |
| IdentifyService.ProcessedFixpoint | backend/services/identify_service.py:37-83 | the post-processed response is final (lists capped at 6/3/2/2/3, a score present, `needs_confirmation` equal to score < 0.65, a candidate whenever confirmation is needed and the name is non-empty, the matched interests those in the tags), and post-processing changes a response exactly when it is not final |
| IdentifyService.ProcessedIdempotent | backend/services/identify_service.py:37-83 | post-processing an already post-processed response changes nothing |
| IdentifyService.PostProcess | backend/services/identify_service.py:120-122 | every field afterwards is what `safe_lists` then `finalize_confidence` make of the fields before: tags, questions, facts and candidates capped, a present score kept and a missing one inferred from name and description, the flag from the threshold, `[name]` as candidate only when confirmation is needed and none remain, the matched interests read from the capped tags; name, location, description and age bracket untouched |
| IdentifyService.Recognize | backend/services/identify_service.py:116-127 | on a cache miss, a raised recogniser error passes through and leaves the cache alone; a result is returned post-processed exactly as `PostProcess` states, and stored under the key for an hour |
| IdentifyService.IdentifyLandmark | backend/services/identify_service.py:85-127 | a live cache hit is returned with the cache and the recogniser's result unchanged; otherwise a raised error passes through with nothing cached; otherwise the result, post-processed exactly as `PostProcess` states with the resolved interests, is returned and cached under the key for an hour |
| PlacesService.DistanceScore | backend/services/places_service.py:28 | the distance term lies in [0, 1] and is 0 exactly when d >= max(1, radius) |
| PlacesService.ScorePlace | backend/services/places_service.py:25-31 | 0 without a distance; otherwise 0.55·distance term + 0.35·rating/5 + 0.15 when open |
| PlacesService.ScoreBounds | backend/services/places_service.py:28-31 | for d >= 0 and a rating in [0, 5] the score lies in [0, 1.05], and beyond the radius only rating and open bonus count |
| PlacesService.CloserScoresHigher | backend/services/places_service.py:28 | moving a place closer never lowers its score |
| PlacesService.DedupePlaces | backend/services/places_service.py:34-43 | the result is a subsequence of the input with pairwise distinct keys that keeps each key's first item and every key of the input |
| PlacesService.RankPlacesSpec | backend/services/places_service.py:118-119 | the ranking holds exactly min(max_results, number of places) places (that many fewer than all for a negative max_results), drawn from its input, each scoring at least as high as every place left out, in non-increasing score order, and places of equal score keep their input order |
| PlacesService.MergeRanked | backend/services/places_service.py:117-119 | the merge dedupes, then ranks and truncates; the result has distinct keys, is bounded by max_results and is in score order |
| PlacesService.PlaceFromRaw | backend/services/places_service.py:74-100 | a distance exists exactly when both coordinates do; a maps link exactly when the place id is non-empty; the name defaults to "Unknown"; the address is the vicinity, else the formatted address |
| PlacesService.MapPlaces | backend/services/places_service.py:74-100 | one suggestion per API result, in order |
| PlacesService.FetchPlaces | backend/services/places_service.py:46-104 | no key gives [] and leaves the cache alone; a live non-empty cached list is returned; a failed request raises and caches nothing; otherwise the mapped places, ranked and cut, are returned and cached for ten minutes |
| PlacesService.GetNearby | backend/services/places_service.py:114-119 | no key gives []; the answer has distinct keys, at most max_results places, and non-increasing scores |
| PlacesService.GetNearbyLandmarks | backend/services/places_service.py:107-119 | as `GetNearby`, over tourist attractions, museums and parks |
| PlacesService.GetNearbyFood | backend/services/places_service.py:122-134 | as `GetNearby`, over restaurants, cafes and bakeries |
| EventsService.DateOnly | backend/services/events_service.py:56-59 | the day part is the text before the first 'T' of a date-time that has one, else "" |
| EventsService.AddressOf | backend/services/events_service.py:50-54 | None exactly when line, city and state are all missing or empty; otherwise the ", "-join of the non-empty ones in that order |
| EventsService.EventFromRaw | backend/services/events_service.py:45-89 | no venue gives no venue or address; no classification gives no category; the name defaults to "Event" |
| EventsService.CollectEvents | backend/services/events_service.py:44-89 | the loop returns the first event per (name, venue, day) key, in reply order: a subsequence of the mapped items, no longer than the reply, keys pairwise distinct, every first occurrence kept |
| EventsService.GetNearbyEvents | backend/services/events_service.py:11-92 | no key gives [] with the cache unchanged; a live non-empty cached list is returned; a failed request raises and caches nothing; otherwise the collected events are returned and cached for ten minutes |
| Queries.CountDistinctLandmarks | backend/db/queries.py:117-122 | the number of distinct non-empty names, compared exactly, never more than the number of scans |
| Queries.CountRecent | backend/db/queries.py:129-137 | the count of scans whose time parses and is strictly after the bound never exceeds the number of scans |
| Queries.CountScansThisWeek | backend/db/queries.py:124-137 | the loop raises exactly when some parsed time lacks an offset; otherwise it counts the scans strictly after a week ago |
| Queries.CollectScanDates | backend/db/queries.py:143-151 | the loop collects exactly the days of the scans whose time parses |
| Queries.StreakFromWindows | backend/db/queries.py:159-179 | from period k on, the counted periods each hold a scan, the first uncounted one (below the cap) does not, and the walk never passes period 122 |
| Queries.StreakWindows | backend/db/queries.py:159-179 | the streak is the number of leading three-day periods that hold a scan, at most 122, and it is 0 exactly when no scan falls in [today−2, today] |
| Queries.Streak | backend/db/queries.py:153-179 | the `while True` walk terminates and returns that streak |
| Queries.GetUserStats | backend/db/queries.py:98-192 | a failed query or an offset-less time gives all zeros; otherwise distinct names, scans of the last seven days and the streak; each bounded as stated |
| Queries.ParseInterestField | backend/db/queries.py:211-214 | every parsed interest is non-empty, stripped and comma-free |
| Queries.InterestFieldRoundTrip | backend/db/queries.py:211-214 | writing such interests with "," and parsing them back gives the same list |
| Queries.GetProfile | backend/db/queries.py:195-228 | a profile exactly when the query returned a row; its id, age group and parsed interests carried over |
| Queries.MostCommonFrom | backend/db/queries.py:246-247 | the chosen city occurs most often, and no earlier city occurs as often (first among equals) |
| Queries.TopCity | backend/db/queries.py:230-250 | None exactly when the query fails or no city is non-empty; otherwise a non-empty city from the rows with maximal count, the first one met among equals |
| WrappedService.NormLandmark | backend/services/wrapped_service.py:5-12 | "" for a missing or empty name or one that strips and lower-cases to "unknown" or "uncertain"; otherwise the stripped, lower-cased name |
| WrappedService.NormLandmarkIdempotent | backend/services/wrapped_service.py:5-12 | normalising a normalised name changes nothing |
| WrappedService.NormLandmarkIgnoresCaseAndSpace | backend/services/wrapped_service.py:9 | names equal after strip and lower count as one landmark |
| WrappedService.UniqueNamesBound | backend/services/wrapped_service.py:19-25 | there are never more distinct normalised names than scans |
| WrappedService.ItemOf | backend/services/wrapped_service.py:27-33 | the item's name is "Unknown" for a missing or empty name; its tags are [] unless they are a list; its timestamp is the scan's |
| WrappedService.BuildWrapped | backend/services/wrapped_service.py:15-43 | total = number of scans; unique = number of distinct non-empty normalised names, never more than total; the top city; one item per scan in order |
| WrappedRoute.CategoryOf | backend/routes/wrapped.py:17 | a tag list gives its tags joined with ", " (a single tag is itself, none is ""); a text is kept as it is; no tags give "" |
| WrappedRoute.CategoryRoundTrip | backend/routes/wrapped.py:17 | the category of a non-empty list of comma-free tags splits on ", " back into those tags |
| WrappedRoute.BucketKey | backend/routes/wrapped.py:25-26 | a scan's bucket is its first tag when it has a non-empty tag list, else "Landmarks" |
| WrappedRoute.TotalBump | backend/routes/wrapped.py:27 | incrementing one bucket raises the sum of the counts by exactly one |
| WrappedRoute.CountBuckets | backend/routes/wrapped.py:23-27 | the keys are the bucket keys in first-seen order; each count is the number of scans in that bucket; the counts add up to the number of scans |
| WrappedRoute.BucketPairs | backend/routes/wrapped.py:23-29 | each pair's count is the number of scans in its bucket |
| WrappedRoute.Cards | backend/routes/wrapped.py:32-35 | one card per top bucket with its name and count, the i-th coloured with palette entry i mod 6 |
| WrappedRoute.CardColoursDistinct | backend/routes/wrapped.py:29-35 | at most six cards never share a colour |
| WrappedRoute.TopPairsDominate | backend/routes/wrapped.py:29 | each of the six largest buckets holds at least as many scans as every bucket left out |
| WrappedRoute.TopCardsOrdered | backend/routes/wrapped.py:29-35 | there are exactly min(6, number of buckets) cards, in non-increasing count order, of pairwise distinct colours |
| WrappedRoute.TopCardsDominate | backend/routes/wrapped.py:29-35 | every card counts at least as many scans as every bucket left off the cards |
| WrappedRoute.TopCardsCounts | backend/routes/wrapped.py:23-35 | every card carries the number of scans in its bucket |
| WrappedRoute.GetWrapped | backend/routes/wrapped.py:9-37 | one recent-scan entry per scan in order; exactly min(6, number of buckets) cities with non-increasing counts, distinct colours, and counts equal to their bucket sizes |
| IdentifyRoute.MimeType | backend/routes/identify.py:33-36 | "image/png" exactly when the lower-cased name ends in ".png", "image/jpeg" otherwise |
| IdentifyRoute.JpegNamesAreJpeg | backend/routes/identify.py:21-36 | an accepted name given "image/jpeg" ends in ".jpg" or ".jpeg" |
| IdentifyRoute.CheckUpload | backend/routes/identify.py:19-43 | accepted exactly when the type is one of the four allowed, the name has an allowed extension, and the size is in 1..8 MiB (8 MiB itself accepted); each rejection is a 400 with its own message, checked in that order |
| IdentifyRoute.ParseInterests | backend/routes/identify.py:46 | [] for a missing or empty field; otherwise comma-free parts that join back to the field |
| IdentifyRoute.ParseInterestsRoundTrip | backend/routes/identify.py:46 | splitting a ","-join of comma-free parts gives the parts back |
| IdentifyRoute.ToHttp | backend/routes/identify.py:59-62 | a ValueError becomes 400 with its text; anything else becomes 500 with "Identify failed: " before it |
| IdentifyRoute.Identify | backend/routes/identify.py:9-62 | a rejected upload answers its 400 and leaves the cache alone; otherwise the service's outcome, with its errors mapped to HTTP statuses and a fresh result post-processed as `PostProcess` states |
| ChatService.HistoryLine | backend/services/chat_service.py:51-57 | a message is "User: " + content when its role is "user" or missing, "Assistant: " + content otherwise |
| ChatService.BuildPrompt | backend/services/chat_service.py:48-64 | the prompt is the system context, one line per history message in order, "User: msg" and "Assistant:", joined with blank lines |
| ChatService.PromptShape | backend/services/chat_service.py:60-64 | the prompt ends with the user's message and the open assistant turn, each after a blank line |
| ChatService.ParseQuestions | backend/services/chat_service.py:79-81 | the questions are non-empty, stripped and free of "\|" |
| ChatService.QuestionsRoundTrip | backend/services/chat_service.py:79-81 | questions written "\|"-separated are read back exactly |
| ChatService.ParseAnswer | backend/services/chat_service.py:75-91 | with the marker, the reply is the stripped text before its first occurrence and the questions (non-empty, stripped, free of "\|") come from the segment after it; without it, the text itself and three default questions naming the landmark; never more than three questions; a stripped text gives a stripped reply |
| ChatService.ChatReply | backend/services/chat_service.py:71-96 | a failure or empty text gives its apology naming the landmark and no questions; otherwise the answer is read from the stripped text and its reply is stripped; never more than three questions |
| ChatService.ChatAboutLandmark | backend/services/chat_service.py:66-96 | the answer is the model's reply to the built prompt, read as above |
| Text.Strip | backend/services/identify_service.py:17 | the result has no surrounding whitespace and is the input with its leading and trailing whitespace removed |
| Text.Split | backend/services/chat_service.py:77 | the parts join back to the input and none holds the separator; there are two or more parts exactly when the separator occurs, and the first part is the text before its first occurrence |
| Text.SplitJoin | backend/routes/identify.py:46 | splitting a join gives the parts back when no part holds the separator's first character |
| Text.BeforeFirst | backend/services/events_service.py:59 | `split(c, 1)[0]`: the text before the first c, or the whole text without one |
| Text.Present | backend/services/events_service.py:53 | a value is kept exactly when it is present and non-empty, and there are never more values than entries |
| Text.PresentCounts | backend/services/events_service.py:53 | each non-empty value is kept as many times as it occurs, and "" never is |
| Text.PresentSingle | backend/services/events_service.py:53 | one entry gives its value when present and non-empty, nothing otherwise |
| Text.PresentAppend | backend/services/events_service.py:53 | filtering a concatenation concatenates the filtered parts, so the kept values stay in entry order |
| Text.HexRoundTrip | backend/services/identify_service.py:111 | the hex form of the image sample decodes back to the bytes |
| Text.DecimalRoundTrip | backend/services/identify_service.py:111 | the decimal form of the image length reads back as the length |
| Seqs.SliceTo | backend/services/identify_service.py:40 | `s[:n]` is a prefix of length min(n, len) for n >= 0, and drops -n items for n < 0 |
| Seqs.PrefixDominates | backend/services/places_service.py:118-119 | a prefix of a descending-sorted list outscores everything the list holds beyond it |
| Seqs.TopByKeepsHighest | backend/services/places_service.py:118-119 | the items kept by sorting descending and cutting all come from the input and outscore every item left out |
| Seqs.TopBySorted | backend/services/places_service.py:118-119 | the items kept are in non-increasing score order |
| Seqs.TopBySpec | backend/services/places_service.py:118-119 | sorted descending and cut: exactly min(n, len) items (len + n for negative n, at least 0), drawn from the input, outscoring every item left out, in score order, with items of equal score in input order |
| Seqs.DedupeFirstOrder | backend/services/identify_service.py:15-24 | the kept items follow the order in which their keys first appear: an input item with the key of a later kept item comes after each earlier kept item |
| Seqs.DedupeFirstOrderAt | backend/services/identify_service.py:15-24 | the same for one pair of kept items and one input position |
| Seqs.SortDescStable | backend/routes/wrapped.py:29 | the stable descending sort keeps the order of items of equal score |

## Left out

- Network and foreign calls are not modelled. Their outcome is an argument instead. This covers:
  - the Gemini calls in `gemini_identify` and in the chat;
  - the Google Places and Ticketmaster requests;
  - the Supabase queries.
- The persistence calls are not modelled: `upload_scan_image`, `update_scan_image_url`,
  `save_scan` and `get_scans_for_user`. In particular, the `save_scan` call at the end of
  `identify_landmark` is left out. The scans of the wrapped summary are what
  `get_scans_for_user` hands back, which is [] when its query fails.
- The great-circle distance of `_haversine_meters` is floating-point trigonometry. It is the
  parameter `haversine`. The events distance `int(float(distance) * 1000)` arrives already in
  metres.
- `round(lat, 4)` and `round(lng, 4)` in the cache keys are float formatting. The rounded
  coordinates are given as text.
- The clock (`time.time()`, `datetime.now`) is a parameter. So is `datetime.fromisoformat`: a
  function from text to an optional instant, day number and offset flag.
- Scores and ratings are exact reals, not binary floats.
- `str.lower` is modelled for ASCII letters only. The regex `\b` and `\w` of `looks_uncertain`
  are modelled for ASCII word characters only.
- JSON values of unexpected types are not modelled. The model's types exclude the
  `isinstance` failures: a non-list reply, a non-dict row, non-string tags or cities, and an
  event name that is an explicit null rather than absent. For the same reason the
  `except → 500` path of `get_wrapped` has no input that reaches it.
- Concurrency and `async` are not modelled. Each value type has its own `TtlCache`. The source
  shares one dict, but its keys carry distinct prefixes ("identify:", "places:", "events:"),
  so the entries never meet.
- Logging `print` calls, the wording of the recogniser's prompt, and the chat's system-context
  template are not modelled. The filled-in context is the argument `systemContext`.
- In the chat, the `genai.Client` is created outside the `try` block, so an error there
  escapes the function. The model starts at the model call.
- FastAPI's validation of the `AgeBracket` literal and of the form fields is not modelled.
  The latitude and longitude only reach `save_scan`.
- The MIME type handed to the recogniser is not modelled, because the recogniser's reply is
  an argument. `IdentifyRoute.MimeType` states what the route derives.
- PlacesService.GetNearby: states no-key, distinct keys, the bound and the score order, but
  not the answer as a function of the per-type fetches. Each fetch reads the cache state the
  previous one left. `PlacesService.MergeRanked` states the merge exactly.
- PlacesService.GetNearbyLandmarks: weaker in the same way as `GetNearby`.
- PlacesService.GetNearbyFood: weaker in the same way as `GetNearby`.
