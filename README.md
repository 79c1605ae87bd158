# WeatherArt core, modelled in Dafny

WeatherArt is a Streamlit page. It takes a Taiwanese county or city name, fetches the
forecast from the Central Weather Administration, shows a weather image, and recommends
a YouTube song or a movie poster. Within one session it does not repeat a song or a
poster until every one of them has been shown.

This project models the decision logic of `WeatherArt.py`:

- `youtube.dfy` (module `YouTube`, with the string helpers of `text.dfy`):
  `extract_youtube_id`. It covers the leftmost-match semantics of both regular
  expressions, including the backtracking of `\d+` in the googleusercontent pattern,
  and the three substring fallbacks with Python's `split`.
- `images.dfy` (module `Images`): `get_image_path_or_default`. Its two early-return loops
  over the image extensions are modelled against the set of files that exist.
- `forecast.dfy` (module `Forecast`): the selection logic of `get_weather_data`. This is
  the Wx element lookup and the `strptime` filter of the start times. It also covers the
  entry whose start is nearest to now (first among exact ties, to the microsecond), the
  part of the day of its hour, and the PoP, MinT and MaxT period lookups with their different fallback rules.
- `lookup.dfy` (module `Lookup`): `MANUAL_CORRECTIONS`, the fallback list of county
  names, the city resolution of `process_query`, and its weather-code resolution (exact
  description, else the first strictly best fuzzy score).
- `recommend.dfy` (module `Recommend`): the two no-repeat pools kept in the session
  (`get_available_music_indices`, `random_music_recommendation`,
  `find_and_recommend_music`, `random_movie_recommendation`). They form a class
  `Session` whose two set fields the methods update.
- `query.dfy` (module `Query`): `process_query`, which puts the city resolution, the
  weather code, the image choice and the music pick together. The forecast it shows comes
  from a `fetch` parameter: the forecast selection of `forecast.dfy` is not composed into
  the query.

Times are whole microseconds, the resolution of `datetime.now()`, and the current time is a
parameter. Parsed start and end times are whole seconds, but the clock is not, so its
fraction of a second decides between two starts equally far from the whole second
(`Forecast.SubSecondClockDecidesTie`). The forecast fetch
(`city -> response`), the files that exist, and the two fuzzy scores (`fuzz.ratio` and
`fuzz.partial_ratio`, lower-casing included) are parameters too. `random.choice` is an
arbitrary member of its non-empty list.

Where the code and its description disagree, the model follows the code:

- `extract_youtube_id` is not idempotent. A bare 11-character id contains none of the
  markers, so extracting from it gives None (`YouTube.BareIdNotExtracted`).
- Among equally good matches, the song is any one of them, as `random.choice` over the
  top-scoring list allows; uniformity is not modelled.
- "台東市" is corrected to "臺東市", which is not one of the fallback county names
  (`Lookup.TaitungCityCorrection`). With that list, the forecast is fetched for a name
  the service may not know.
- The branches returning "沒有可用的音樂可以隨機推薦了。" cannot be reached. For a
  non-empty catalogue the refilled pool always holds a video
  (`Recommend.CandidatesNonEmpty`), so the model has no such branch.
- MinT and MaxT do not use PoP's `found` flag. They test whether the value is still
  "N/A", so a holding period whose value is "N/A" gives way to the first period
  (`Forecast.TempValueVersusFlag`).

## Model

| member | source | states |
|---|---|---|
| YouTube.ExtractYoutubeId | WeatherArt.py:43-64 | the result is the primary-pattern group, else the googleusercontent group, else the three `split` fallbacks in order, else None |
| YouTube.PrimaryIsFirstMatch | WeatherArt.py:45-47 | when the primary pattern first matches at i, the id is the 11 id characters after the marker at i, and it is a valid video id |
| YouTube.CanonicalUrl | WeatherArt.py:45-47 | for every marker (`v=`, `youtu.be/`, `embed/`, `live/`), every 11-character id and every tail after it (`&t=10s`, `?si=...`), `prefix + marker + id + tail` yields exactly that id when no marker occurs earlier |
| YouTube.MarkersExclusive | WeatherArt.py:45 | at most one of the four alternatives can match at one index, so the regex alternation order never matters |
| YouTube.NoMarkerNoId | WeatherArt.py:43-64 | a URL with none of the four markers and no `googleusercontent.com/youtube.com/` gives None |
| YouTube.NoIdExactly | WeatherArt.py:43-64 | the result is None exactly when the primary pattern matches at no index, the googleusercontent pattern matches at no index, and none of the three fallback substrings is in the URL |
| YouTube.BareIdNotExtracted | WeatherArt.py:43-64 | extraction is not idempotent: a bare video id gives None |
| Images.ImagePathOrDefault | WeatherArt.py:102-117 | the two early-return loops return the chosen image |
| Images.ChosenImageOrder | WeatherArt.py:102-117 | the result exists on disk; the first existing `code.ext` in extension order wins; when none exists, the first existing `default.ext` in extension order is used, and None is returned only when no default exists either |
| Forecast.FindElement | WeatherArt.py:147-149 | an element of the list with the name, and None exactly when no element has it |
| Forecast.FindElementFirst | WeatherArt.py:147 | the element found is the first with the name: every element before it has another name, as `next(...)` gives (also lines 175, 195, 208) |
| Forecast.ValidTimeElements | WeatherArt.py:151-159 | the loop keeps exactly the Wx entries whose start parses, in order |
| Forecast.Nearest | WeatherArt.py:166-167 | the chosen entry's start is at least as near to now as every other entry's, and strictly nearer than every earlier one's (first among ties) |
| Forecast.SubSecondClockDecidesTie | WeatherArt.py:164-167 | with starts 06:00:00 and 18:00:00 and the clock at 12:00:00.25, the later start is the nearest, as the clock's microseconds decide |
| Forecast.HourOf | WeatherArt.py:169-170 | the hour of a timestamp lies in 0..23 |
| Forecast.Bucket | WeatherArt.py:171 | each part of the day holds exactly its hour range: [0,6), [6,12), [12,18), the rest |
| Forecast.BucketOfTime | WeatherArt.py:170-171 | for a real hour the last part is exactly [18,24), and the four labels are distinct |
| Forecast.ScanFrom | WeatherArt.py:179-187 | the scan stops at the first period holding the time, or at the first whose times do not parse; every earlier period parses and does not hold it |
| Forecast.PeriodLookupRule | WeatherArt.py:174-191 | no element or no period gives "N/A"; when all periods parse, the first holding period's value (with the suffix) wins, else the first period's |
| Forecast.TempValueVersusFlag | WeatherArt.py:194-217 | MinT/MaxT agree with the PoP rule except that a holding period valued "N/A" gives way to the first period's value |
| Forecast.LookupPoP | WeatherArt.py:174-191 | the loop with its found flag and break computes the PoP rule, with "%" appended |
| Forecast.LookupTemp | WeatherArt.py:194-217 | the loop with break and the "N/A" test computes the MinT/MaxT rule |
| Forecast.ForecastErrors | WeatherArt.py:147-162 | the selection fails with a missing Wx exactly when there is no Wx element, and for lack of a valid start exactly when none parses |
| Forecast.ForecastIsNearest | WeatherArt.py:164-232 | a report describes a Wx entry with a parsing start that is nearest to now, and its part of the day is the bucket of that start's hour |
| Forecast.SelectForecast | WeatherArt.py:143-232 | the method computes the whole report from the elements and now |
| Lookup.ManualCorrections | WeatherArt.py:424-445 | the 119 corrections of `MANUAL_CORRECTIONS`, key for key and value for value |
| Lookup.FallbackLocationNames | WeatherArt.py:131 | the 22 county and city names `get_location_names` falls back to, in order |
| Lookup.ResolveCity | WeatherArt.py:457-460 | a resolved city is a correction value or a location name, and there is none exactly when the input is in neither |
| Lookup.CorrectionsTakePrecedence | WeatherArt.py:457-460 | a corrected input resolves to its correction whatever the location list; any other input resolves to itself exactly when it is a location name |
| Lookup.TaitungCityCorrection | WeatherArt.py:441 | "台東市" resolves to "臺東市", which is not in the fallback list of line 131 |
| Lookup.TaitungCountyCorrection | WeatherArt.py:441 | "台東縣" resolves to "臺東縣", which is in the fallback list of line 131 |
| Lookup.ExactIndex | WeatherArt.py:473-476 | the first row whose description equals the weather description, and None exactly when none does |
| Lookup.BestIndex | WeatherArt.py:478-484 | the first strictly highest score, above -1; None exactly when every score is at most -1 |
| Lookup.WeatherCodeChoice | WeatherArt.py:470-484 | an exact description wins; otherwise the first strictly highest-scoring row wins; with non-negative scores a non-empty table always yields a code |
| Lookup.ResolveWeatherCode | WeatherArt.py:470-484 | the two loops compute that code |
| Recommend.Refill | WeatherArt.py:313-327 | available is the catalogue minus the recommended set; the set is cleared only when the catalogue is non-empty and fully recommended; a non-empty catalogue always leaves something available |
| Recommend.RefillIdempotent | WeatherArt.py:371-379 | refilling an already refilled pool changes nothing, so the random pick that `find_and_recommend_music` falls back to sees the same pool as its own lookup |
| Recommend.NoRepeatUntilExhausted | WeatherArt.py:313-327 | while the picks do not outnumber what is left, no index repeats, none was already recommended, and the recommended set grows by exactly the picks |
| Recommend.ResetWhenExhausted | WeatherArt.py:322-325 | once every index is recommended, the next pool is the whole catalogue with an empty set |
| Recommend.CandidatesNonEmpty | WeatherArt.py:337-345 | for a non-empty catalogue the refilled pool always holds one of its videos |
| Recommend.Range | WeatherArt.py:407 | `set(range(n))` holds exactly 0..n-1 and has n elements |
| Recommend.MatchesMeaning | WeatherArt.py:347-354 | the matches are exactly the candidates scoring at least 30, each paired with its own score |
| Recommend.TopMatches | WeatherArt.py:356-359 | exactly the matched videos whose score is the best |
| Recommend.ScoreCandidates | WeatherArt.py:347-354 | the loop computes the matches and their maximum score, -1 when none |
| Recommend.Session.AvailableMusicIndices | WeatherArt.py:313-327 | the session's set becomes the refilled set and the refilled pool is returned; a non-empty catalogue gives a non-empty pool |
| Recommend.Session.RandomMusic | WeatherArt.py:374-395 | an empty catalogue gives its message and leaves the set alone; otherwise an available video is picked and recorded, and the text depends on whether its id is usable |
| Recommend.Session.FindAndRecommendMusic | WeatherArt.py:329-371 | when some available video scores at least 30, the pick is one of the best of them, recorded; otherwise it falls back to a random pick |
| Recommend.Session.RandomMovie | WeatherArt.py:397-422 | an empty list gives its message; otherwise a movie is picked from the refilled pool and recorded, and the remaining count is the pool size minus one, which equals what is left unrecommended |
| Query.MatchedCity | WeatherArt.py:455-462 | an input in the correction table is matched, as its correction, exactly when the correction is non-empty; any other input is matched, as itself, exactly when it is a non-empty location name |
| Query.WeatherPicture | WeatherArt.py:486-498 | a usable code whose chosen image exists shows that image captioned with the description, and an image is shown only then; a usable code without an image and a missing code each get their own caption |
| Query.WeatherPictureShown | WeatherArt.py:486-498 | an image is shown exactly when the code is usable and an image of that code or a default image exists, and a shown image exists |
| Query.FailurePictureShown | WeatherArt.py:509-515 | the image is the first default image, in extension order, that exists, and there is none exactly when no default image exists; the caption names the city, with "(無圖片可用)" when there is no image |
| Query.ProcessQuery | WeatherArt.py:447-524 | an empty input only prompts; a failed forecast gives its text and the default image; a forecast gives its text and the code's image and caption, and on request the forecast text, a blank line and the music text, where the song is a best match when some available song scores at least 30 and a random pick otherwise; an unresolved input gives the random-pick text and no image; a drawn song was available and is recorded, and with no song drawn the music set is unchanged |

## Left out

- HTTP requests, JSON parsing and the API key are left out. The fetch result is a parameter of `Query.ProcessQuery`, and `Forecast.ForecastOf` starts from the parsed weather elements. KeyErrors on malformed JSON are not modelled.
- `strptime` is left out: a start or end time is an integer number of microseconds, or None when it does not parse. The model does not require a parsed time to be a whole second. The clock is the `now` parameter.
- The display text of `get_weather_data` (month/day formatting and the Markdown around the values) is left out; the report keeps its parts.
- `fuzz.ratio` and `fuzz.partial_ratio`, with the lower-casing before them, are arbitrary functions passed in. Only their use (the threshold 30, the strict `>` from -1) is modelled.
- `random.choice` is an arbitrary member of its list, and uniformity is not modelled.
- `YouTube.ExtractYoutubeId`: `\d` is taken as the ASCII digits 0-9, while Python's `\d` also matches other Unicode decimal digits.
- The `len(parts) > 1` tests in `extract_youtube_id` always hold after the `in` test that guards them, so the model has no branch for them.
- `Lookup.ResolveWeatherCode`: the code table is a list of rows standing for the dict's items in order. Codes are strings, and Python's truthiness of a code is modelled as non-empty.
- Loading the CSV, the Excel sheet and the movie folder is left out. Loading images as base64 HTML and the background image are also left out. A chosen image path stands for the image shown.
- The Streamlit page, its widgets, `st.info` messages and caching are left out. `reset_recommendation_states` is captured by `Query.ProcessQuery` returning every page field it sets.
- `Lookup.ManualCorrections`: no lemma states a property of all 119 entries at once, only the individual facts in `Lookup.TaitungCityCorrection` and `Lookup.TaitungCountyCorrection`.
- `Recommend.Session.RandomMusic`, `Recommend.Session.FindAndRecommendMusic` and `Query.ProcessQuery` also return the picked video, and `Recommend.Session.RandomMovie` the picked index. The source records these only in the session set.
- `Query.ProcessQuery`: the Outcome has no field for `recommended_image_url`. The query only clears it, to None, and never sets it.
