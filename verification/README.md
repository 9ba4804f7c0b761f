# santa-template: the call-time ledger and its helpers, in Dafny

The application lets a visitor hold a short video call with Santa. Each
visitor gets a daily allowance of 180 seconds of call time. Three serverless
handlers share one in-memory ledger:

- `record-usage` charges a finished call to the caller's IP address.
- `check-usage` reports whether the caller, identified by a cookie, may start
  a call.
- `test-bypass` clears or shows an identifier's usage for today.

A fourth handler, `check-geoblock`, decides whether a request comes from a
blocked country. Around the calls, the front end:

- counts down to Christmas;
- draws a ten-segment naughty/nice meter;
- lays out the call window;
- offers a searchable language picker;
- reads microphone-permission flags;
- strips score tags from the assistant's messages.

The model, file by file:

- `usage_storage.dfy`: the ledger itself.
  - `UsageStore` is a class with a `map` from `identifier:YYYY-MM-DD` to that
    day's record.
  - Its methods are `getUsage`, `canStartSession`, `getRemainingTime`,
    `recordSession`, `reserveTime`, the key deletion and the `cleanup` sweep.
  - The records are kept consistent: each total equals the sum of its
    session log and stays within the allowance.
- `record_usage.dfy`, `check_usage.dfy`, `test_bypass.dfy` and
  `check_geoblock.dfy`: the handlers. Each maps a request, the environment
  and the ledger to a response: status, headers and JSON body.
- `http.dfy`: the shared request and response records, and JavaScript's `||`
  on optional strings.
- `cookie_utils.dfy`: cookie handling.
  - The `Cookie` header fold follows section 4.2.1 of RFC 6265.
  - The `Set-Cookie` value follows section 4.1.1 of RFC 6265.
  - It also proves that the issued cookie round-trips.
- `uri_codec.dfy`: `encodeURIComponent` and a partial
  `decodeURIComponent` over UTF-8 percent escapes, with
  `Decode(Encode(s)) == Some(s)`.
- `js_strings.dfy`: the JavaScript string operations the code uses, namely
  `trim`, `split`, `indexOf`, `includes`, a global literal `replace`, case
  mapping and `<` on strings.
- `iso_dates.dfy`: the `YYYY-MM-DD` day of an ISO timestamp. It proves that
  string order on such days is chronological order.
- `countdown.dfy`, `naughty_nice_bar.dfy`, `window_utils.dfy`,
  `language_selector.dfy`, `haircheck.dfy` and `score_tracking.dfy`: the
  front-end logic.

The clock, the random identifier and the score utilities' storage are
parameters of the operations that use them:

- `isoNow` is the value `new Date().toISOString()` would return.
- The cleanup cutoff date is passed in.
- The Christmas timestamps are passed in.
- `generatedId` is what `generateUserId` would produce.

Two lines of the source do not do what they evidently mean (see
"## Findings"). The model records each as written and proves the intended
version. The ledger is built on the intended version.

## Model

| member | source | states |
|---|---|---|
| UsageStorage.TodayKeyInjective | api/usage-storage.js:8-11 | keys built from different identifiers or different calendar days are different, so each day's record is isolated |
| UsageStorage.TodayKey | api/usage-storage.js:8-11 | definition, no contract: the identifier, `:` and the day of the timestamp; `TodayKeyInjective` and `SplitLastField` state its properties |
| UsageStorage.Remaining | api/usage-storage.js:18 | the remainder is never negative; it completes the used seconds to 180 while the total is within the allowance, and is 0 beyond it |
| UsageStorage.UsageStore.constructor | api/usage-storage.js:4 | the ledger starts empty and satisfies its invariant |
| UsageStorage.UsageStore.GetUsage | api/usage-storage.js:13-21 | the view of today's record for the identifier; an absent key reads as `{0, 180, []}`; remainder >= 0 and used + remaining == 180 within the allowance; the ledger is not written |
| UsageStorage.ReadTwice | api/usage-storage.js:13-21 | two reads with no write between them return equal results |
| UsageStorage.UsageStore.CanStartSession | api/usage-storage.js:23-26 | true exactly when the remainder is positive, that is when today's total is below 180 |
| UsageStorage.UsageStore.GetRemainingTime | api/usage-storage.js:28-31 | equals the remainder `getUsage` reports, and is never negative |
| UsageStorage.Charge | api/usage-storage.js:34-42 | definition, no contract: the request clamped to what remains is added to the total and appended to the log; `ChargeKeepsConsistent` and `ChargeAllIsCappedSum` state its properties |
| UsageStorage.ChargeKeepsConsistent | api/usage-storage.js:37-42 | a charge appends exactly one session, with timestamp `isoNow`, whose duration is what was added to the total; the total stays equal to the log's sum and within 180; a non-negative request never lowers it |
| UsageStorage.UsageStore.RecordSession | api/usage-storage.js:33-50 | only today's key of the identifier is rewritten, with the charged record; every other key is unchanged; it returns the new total and `max(0, 180 - total)`, which add up to 180; the consistency invariant is preserved |
| UsageStorage.ChargeAllIsCappedSum | api/usage-storage.js:35-38 | after a run of non-negative charges, the total is `min(old total + sum requested, 180)` |
| UsageStorage.FreshDayTotal | api/usage-storage.js:35-38 | from a fresh day, the total is the sum of the requests capped at 180 |
| UsageStorage.ChargeIsolatesDays | api/usage-storage.js:34-44 | charging one identifier's day leaves the view of every other (identifier, day) unchanged |
| UsageStorage.UsageStore.ReserveTime | api/usage-storage.js:52-62 | reserved == min(requested, remaining) and reserved + remainingSeconds == remaining; for a non-negative request 0 <= reserved <= remaining; nothing is written |
| UsageStorage.UsageStore.Delete | api/usage-storage.js:65 | exactly the given key is removed; the invariant is kept |
| UsageStorage.Sweep | api/usage-storage.js:73-78 | definition, no contract: the keys that the intended test keeps, with their records; `UsageStore.Cleanup` is proved to leave exactly this map |
| UsageStorage.UsageStore.Cleanup | api/usage-storage.js:68-79 | the loop leaves exactly the keys whose date is not before the cutoff (read from the key's last `:` field, see Findings), each with its record unchanged |
| UsageStorage.Expired | api/usage-storage.js:74-75 | definition, no contract: the test as written, on the key's second `:` field; the next three rows state what it does |
| UsageStorage.ExpiredIsChronological | api/usage-storage.js:74-75 | for an identifier without a colon, the string test deletes a day's key exactly when the day is before the cutoff day |
| UsageStorage.ColonIdentifierExpiresEarly | api/usage-storage.js:74-75 | as written, the key of identifier `::1` is deleted whatever its date |
| UsageStorage.ColonIdentifierNeverExpires | api/usage-storage.js:74-75 | as written, the key of identifier `2001:db8::1` is never deleted |
| UsageStorage.ExpiredByDay | api/usage-storage.js:74-75 | definition, no contract: the intended test, on the key's last `:` field; the next row states what it does |
| UsageStorage.ExpiredByDayIsChronological | api/usage-storage.js:74-75 | testing the key's last field deletes a key exactly when its date is before the cutoff, for every identifier |
| UsageStorage.SplitLastField | api/usage-storage.js:74 | the last `:` field of a key `identifier:date` is the date, whatever the identifier holds, and there are at least two fields |
| UsageStorage.RecordAsWrittenIsNaN | api/usage-storage.js:37-49 | as written, the first session of a day makes the total and the remainder NaN; the intended clamp charges 100 of 180 and leaves 80 |
| IsoDates.FormatDateOrder | api/usage-storage.js:71-75 | `<` on `YYYY-MM-DD` strings holds exactly when the first date is before the second |
| IsoDates.FormatDateInjective | api/usage-storage.js:9 | different dates format differently |
| IsoDates.DayOfTimestamp | api/usage-storage.js:9 | `split('T')[0]` of an ISO timestamp is its `YYYY-MM-DD` day |
| IsoDates.DigitsOrder | api/usage-storage.js:75 | zero-padded numbers of equal width compare as strings as they compare as numbers |
| IsoDates.Digits | api/usage-storage.js:9 | a zero-padded number has exactly the requested width, and every character is a decimal digit |
| IsoDates.DigitsInjective | api/usage-storage.js:9 | different numbers of the same width are written differently |
| IsoDates.FormatDate | api/usage-storage.js:9 | the date is ten characters with `-` at positions 4 and 7, and has no `:` and no `T` |
| IsoDates.MonthDayOrder | api/usage-storage.js:75 | `<` on the `MM-DD` part holds exactly when the month is earlier, or the month is equal and the day earlier |
| JsStrings.Split | api/cookie-utils.js:12 | `split` on one character gives at least one piece, no piece holds the separator, and joining the pieces with it gives the text back |
| JsStrings.SplitJoin | api/usage-storage.js:74 | splitting a join of separator-free pieces gives those pieces back: the other half of the `Split`/`Join` inverse |
| JsStrings.SplitFree | api/cookie-utils.js:12 | text without the separator splits into itself alone |
| JsStrings.SplitPrefix | api/usage-storage.js:74 | a separator-free head followed by the separator becomes the first piece, and the rest splits as before |
| JsStrings.FirstField | api/record-usage.js:29 | `split(sep)[0]` is a separator-free prefix that ends at the first separator, and is the whole text when there is no separator |
| JsStrings.Trim | api/cookie-utils.js:13 | `trim()` never lengthens, its result neither starts nor ends with white space, and text whose ends are not white space is left as it is |
| JsStrings.TrimDropsWhitespace | api/cookie-utils.js:13 | the trimmed text is one contiguous slice of the input, and everything cut off on either side is white space |
| JsStrings.TrimAdmitsNothingNew | api/record-usage.js:29 | trimming brings in no character that the input lacked |
| JsStrings.IndexOf | api/cookie-utils.js:14 | -1 exactly when the character is absent, otherwise the position of its first occurrence |
| JsStrings.Contains | src/components/LanguageSelector/LanguageSelector.jsx:117 | `includes` holds exactly when the query occurs at some position |
| JsStrings.RemoveAll | src/hooks/useScoreTracking.js:89 | a global `replace` by the empty string never lengthens the text, shortens it by at least the pattern's length when the pattern occurs, and changes it exactly when the pattern occurs |
| JsStrings.ToUpper | api/check-geoblock.js:26 | keeps the length and maps each character with `UpperChar`, which upper-cases ASCII letters only (see `JsStrings.ToUpper` under Left out) |
| JsStrings.ToLower | src/components/LanguageSelector/LanguageSelector.jsx:117 | keeps the length and maps each character with `LowerChar`, over the ranges listed under Left out (see `JsStrings.ToLower` there) |
| JsStrings.ToUpperIdempotent | api/check-geoblock.js:26-36 | upper-casing twice is upper-casing once, so a code already in upper case matches the normalized list unchanged |
| JsStrings.JoinWith | api/cookie-utils.js:42 | `join('; ')` starts with the first part, puts the separator between that part and the join of the rest, and is at least as long as any part |
| JsStrings.LexLessCommonHead | api/usage-storage.js:75 | `<` on two strings with a common head is decided by the tails |
| JsStrings.LexLessDifferentHeads | api/usage-storage.js:75 | when two equal-length heads differ, `<` is decided by the heads alone |
| JsStrings.LexLessIrreflexive | api/usage-storage.js:75 | no string is `<` itself |
| Http.Or | api/record-usage.js:29-31 | `a or b` in JavaScript is `a` when `a` is a non-empty string, `b` otherwise; the result is truthy exactly when one of them is |
| Http.FirstTruthy | api/record-usage.js:29-32 | a chain of JavaScript `or` operators yields the first non-empty candidate, or the fallback when none is; with a non-empty fallback, it is never empty |
| Http.FirstTruthyOfThree | api/record-usage.js:29-32 | the nested chain of a, b, c and the fallback equals the first-truthy rule over `[a, b, c]` |
| Http.FirstForwarded | api/record-usage.js:29 | absent exactly when `x-forwarded-for` is absent; otherwise it holds no comma |
| Http.FixedCorsHeaders | api/record-usage.js:3-7 | definition, no contract: the five headers that the recording, test and geoblock routes write before any routing, with the route's own methods; the next row states what they allow |
| Http.WildcardWithCredentials | api/record-usage.js:3-4 | credentials are always allowed; the allowed origin is `*` exactly when `FRONTEND_URL` is unset, empty or itself `*`, so without it these routes pair the wildcard with credentials, which browsers refuse for credentialed requests; otherwise the origin is `FRONTEND_URL` |
| RecordUsage.ClientIdentifier | api/record-usage.js:29-32 | the first non-empty of the trimmed first `x-forwarded-for` entry, `x-vercel-ip` and the remote address, else `unknown`; never empty |
| RecordUsage.ValidDuration | api/record-usage.js:22-26 | a duration is accepted exactly when the body holds a number for it that is not negative |
| RecordUsage.Handle | api/record-usage.js:1-49 | OPTIONS gives an empty 200, other non-POST methods 405, a missing body 500, an invalid duration 400, and none of these writes the ledger; a valid POST charges exactly today's key of the client identifier and returns 200 with the new total and remainder, which sum to 180 |
| CheckUsage.SelectOrigin | api/check-usage.js:5-11 | the `Origin` header, else `FRONTEND_URL`, else `proto://host` when a host is present; there is an origin exactly when one of the three is non-empty |
| CheckUsage.CorsHeaders | api/check-usage.js:13-24 | with an origin, it is echoed and credentials and exposed headers are allowed; without one, `*` and neither credentials nor exposed headers; always `GET, OPTIONS` and `no-store` |
| CheckUsage.CredentialsOnlyWithOrigin | api/check-usage.js:13-20 | credentials are allowed exactly when there is an origin, and then only for that origin, so `*` comes with credentials only when the chosen origin is itself `*` |
| CheckUsage.Handle | api/check-usage.js:27-71 | OPTIONS gives an empty 200 and other non-GET methods 405; GET reports `canStart == (remaining > 0)` and the usage of the cookie identifier's day, adds `Set-Cookie` only when an identifier was issued, and turns a decoding failure into 500; it never writes the ledger |
| TestBypass.UserIdentifier | api/test-bypass.js:24-27 | the `identifier` query, else the trimmed first forwarded address, else `x-vercel-ip`, else `unknown`; never empty |
| TestBypass.StatusBody | api/test-bypass.js:42-46 | five members in order: the identifier, `getUsage`'s used and remaining seconds, its sessions (the i-th JSON session is the i-th stored session) and the allowance of 180 |
| TestBypass.Handle | api/test-bypass.js:10-52 | OPTIONS gives an empty 200; `clear` deletes exactly the key `identifier:today`; `status` reports the usage; any other action gives 400 listing `clear` and `status`; only `clear` writes the ledger |
| TestBypass.ClearThenStatus | api/test-bypass.js:29-46 | after `clear`, `status` reports `{0, 180, []}` for the identifier |
| TestBypass.ClearTwice | api/test-bypass.js:29-39 | clearing twice leaves the ledger as clearing once and answers the same |
| CookieUtils.SplitPair | api/cookie-utils.js:14-18 | a piece gives a pair exactly when it has an `=` that is neither its first nor its last character; the name is the part before the first `=`, and the value is everything after it |
| CookieUtils.Pairs | api/cookie-utils.js:12-13 | each `;`-separated piece is trimmed and split at its first `=` |
| CookieUtils.Fold | api/cookie-utils.js:12-23 | a fold that fails fails with the URI error; a fold that succeeds keeps every name already accumulated |
| CookieUtils.FoldThrows | api/cookie-utils.js:19 | parsing throws exactly when some accepted value has a malformed escape |
| CookieUtils.FoldValue | api/cookie-utils.js:16-19 | a name's value is the decoding of the last pair with that name; a name is present exactly when some pair carries it |
| CookieUtils.ParseCookies | api/cookie-utils.js:12-23 | definition, no contract: no header gives no cookies, otherwise the fold over the pairs; `FoldThrows`, `FoldValue` and `NoHeaderNoCookies` state its properties |
| CookieUtils.NoHeaderNoCookies | api/cookie-utils.js:12-23 | a missing header parses to the empty map |
| CookieUtils.GetOrCreateUserId | api/cookie-utils.js:8-48 | it throws exactly when parsing throws; a non-empty `santa_user_id` is returned with no `Set-Cookie`; otherwise the generated id is returned with one `Set-Cookie` |
| CookieUtils.CookieOptions | api/cookie-utils.js:35-41 | definition, no contract: the cookie's attributes in order; `SecureOnlyInProduction` states them |
| CookieUtils.SetCookieValue | api/cookie-utils.js:35-42 | definition, no contract: the attributes joined by `; `; `IssuedPairIsNameValue` states its first field |
| CookieUtils.SecureOnlyInProduction | api/cookie-utils.js:34-43 | the attributes are `name=value; HttpOnly; SameSite=Strict; Path=/; Max-Age=31536000`, plus `Secure` exactly when `NODE_ENV` is `production` |
| CookieUtils.IssuedPairIsNameValue | api/cookie-utils.js:36-43 | the first `;` field of the `Set-Cookie` value is `santa_user_id=<encoded id>` |
| CookieUtils.NameValueParses | api/cookie-utils.js:12-36 | the issued pair parses back to the cookie name and the encoded id |
| CookieUtils.IssuedCookieRoundTrip | api/cookie-utils.js:12-47 | a browser that returns the issued pair is given the same identifier and no new cookie |
| CookieUtils.NameValueHasNoSemicolon | api/cookie-utils.js:12-36 | the issued pair has no `;`, so as a header it is a single piece |
| CookieUtils.NameValueIsTrimmed | api/cookie-utils.js:13-36 | trimming the issued pair leaves it unchanged |
| CookieUtils.NameValueEnds | api/cookie-utils.js:13-36 | the issued pair neither starts nor ends with white space |
| CookieUtils.SplitPairOfNameValue | api/cookie-utils.js:14-18 | a name without `=` and a non-empty value, joined by `=`, split back into that name and value |
| CookieUtils.IssuedPairs | api/cookie-utils.js:12-36 | a header holding only the issued pair yields one pair: the cookie's name and the encoded identifier |
| CookieUtils.FoldOne | api/cookie-utils.js:12-23 | one pair whose value decodes gives a map holding that one cookie with its decoded value |
| UriCodec.Encode | api/cookie-utils.js:36 | `encodeURIComponent` yields only unreserved characters and `%`, and is never shorter than its input |
| UriCodec.HexRoundTrip | api/cookie-utils.js:19-36 | a hex digit decodes back to its value |
| UriCodec.DecodeEncode | api/cookie-utils.js:19-36 | decoding an encoded string gives the string back |
| UriCodec.Decode | api/cookie-utils.js:19 | definition, no contract: `decodeURIComponent`, absent where it throws; `DecodeEncode` and `DecodeWithoutEscapes` state its properties |
| UriCodec.DecodeWithoutEscapes | api/cookie-utils.js:19 | a value without `%` decodes to itself |
| UriCodec.EncodeUnreserved | api/cookie-utils.js:36 | a string of unreserved characters encodes to itself; this covers every id `generateUserId` can produce |
| UriCodec.Utf8 | api/cookie-utils.js:36 | a character is encoded in one to four bytes, each below 256 |
| UriCodec.EscapeAlphabet | api/cookie-utils.js:36 | escapes are written with `%` and hex digits only, and end in a digit |
| UriCodec.EncodeChar | api/cookie-utils.js:36 | an unreserved character stands for itself; any other becomes escapes starting with `%`; either way only unreserved characters and `%` appear, and the last is unreserved |
| UriCodec.EncodeEndsUnreserved | api/cookie-utils.js:36 | the encoding of a non-empty string ends in an unreserved character |
| UriCodec.ByteAtEscape | api/cookie-utils.js:19-36 | the `j`-th escape of a byte sequence reads back as the `j`-th byte, whatever follows it |
| UriCodec.DecodeOneEscape | api/cookie-utils.js:19-36 | the escapes of one character's UTF-8 bytes decode to that character, taking three characters per byte |
| CheckGeoblock.CountryCode | api/check-geoblock.js:23-24 | the `testCountry` query, else `x-vercel-ip-country`, else `x-vercel-ip-country-code` |
| CheckGeoblock.Normalize | api/check-geoblock.js:25-32 | each list entry is trimmed and upper-cased, in order |
| CheckGeoblock.MapEach | api/check-geoblock.js:26-31 | `map` builds a new list of the same length whose i-th entry is the function applied to the i-th entry, in order |
| CheckGeoblock.Entries | api/check-geoblock.js:26 | a list variable always has at least one entry, even when it holds no comma; `Normalize` states what each entry is |
| CheckGeoblock.CountryList | api/check-geoblock.js:25-32 | a set variable gives its normalized entries; an unset one gives the default |
| CheckGeoblock.CountriesToCheck | api/check-geoblock.js:34 | definition, no contract: the test list exactly when `testCountry` is given, otherwise `BLOCKED_COUNTRIES`; `TestModeIgnoresHeaders` and `UnconfiguredNeverBlocks` state its use |
| CheckGeoblock.Blocked | api/check-geoblock.js:36 | definition, no contract: a country is known, the list is not empty and holds the upper-cased code; `Handle` answers 403 exactly when it holds |
| CheckGeoblock.Handle | api/check-geoblock.js:10-47 | OPTIONS gives an empty 200 and other non-GET methods 405; GET gives 403 `geoblocked` exactly when the code is non-empty and its upper-case form is in the chosen non-empty list, and otherwise 200 `{geoblocked: false}` |
| CheckGeoblock.UnconfiguredNeverBlocks | api/check-geoblock.js:25-36 | with `BLOCKED_COUNTRIES` unset and no `testCountry`, no request is blocked |
| CheckGeoblock.TestModeIgnoresHeaders | api/check-geoblock.js:34 | in test mode only the simulated country and the test list decide |
| CheckGeoblock.ListedCountryBlocked | api/check-geoblock.js:36 | an entry of `BLOCKED_COUNTRIES` blocks the code it names, whatever the spacing and letter case |
| CheckGeoblock.DefaultTestList | api/check-geoblock.js:30-32 | with `TEST_BLOCKED_COUNTRIES` unset, `testCountry=cn` is blocked and `testCountry=US` is not |
| Countdown.Target | src/hooks/useCountdown.js:11-16 | the target is this year's Christmas unless now is strictly after it, in which case it is next year's; the target is never in the past |
| Countdown.JsRem | src/hooks/useCountdown.js:21-23 | JavaScript `%` agrees with the Euclidean remainder on non-negative operands, and takes the dividend's sign otherwise |
| Countdown.Decompose | src/hooks/useCountdown.js:20-23 | for a difference that is not negative: days >= 0, hours < 24, minutes < 60, seconds < 60, and the recombined fields fall within one second below the difference |
| Countdown.Recombine | src/hooks/useCountdown.js:20-23 | the four floor/remainder fields recombine to the difference rounded down to a whole second |
| Countdown.RecombineAny | src/hooks/useCountdown.js:20-23 | for any non-negative difference, hours, minutes and seconds are in range, and the fields recombine to within one second below the difference |
| Countdown.ModOfProduct | src/hooks/useCountdown.js:21-23 | a remainder by a unit, divided by a smaller unit, is the quotient by the smaller unit reduced modulo the ratio |
| Countdown.TimeUntilChristmas | src/hooks/useCountdown.js:8-26 | every field is in range whenever now is not after next year's Christmas |
| Countdown.ChristmasMidnight | src/hooks/useCountdown.js:14-23 | at Christmas midnight all fields are 0, and one millisecond later the target is next year |
| Countdown.CountdownIsExactToTheSecond | src/hooks/useCountdown.js:18-23 | the displayed time never exceeds the time left and is less than a second short of it |
| NaughtyNiceBar.SegmentCount | src/components/NaughtyNiceBar/NaughtyNiceBar.jsx:16 | the segment count is exactly half the score |
| NaughtyNiceBar.JsRemOne | src/components/NaughtyNiceBar/NaughtyNiceBar.jsx:54-69 | `x % 1` is the fractional part, carrying the sign of `x` |
| NaughtyNiceBar.GetSegmentState | src/components/NaughtyNiceBar/NaughtyNiceBar.jsx:46-77 | a positive score lights exactly the indices `i >= 5` with `2(i-5) < score`; a negative score lights exactly the indices `i <= 4` with `2(4-i) < -score`; a zero score lights none; unlit segments report fill 1; lit segments are full, except the outermost one of an odd score, which is half full |
| NaughtyNiceBar.NeutralScoreLightsNothing | src/components/NaughtyNiceBar/NaughtyNiceBar.jsx:46-76 | a zero score lights no segment |
| NaughtyNiceBar.IsVeryNaughty | src/components/NaughtyNiceBar/NaughtyNiceBar.jsx:19 | definition, no contract: `score <= -6`; `VeryNaughtyIsThirdNaughtySegmentFull` ties it to the meter |
| NaughtyNiceBar.IsVeryNice | src/components/NaughtyNiceBar/NaughtyNiceBar.jsx:20 | definition, no contract: `score >= 6`; `VeryNiceIsThirdNiceSegmentFull` ties it to the meter |
| NaughtyNiceBar.VeryNiceIsThirdNiceSegmentFull | src/components/NaughtyNiceBar/NaughtyNiceBar.jsx:20-58 | `score >= 6` exactly when segment 7 is lit and full |
| NaughtyNiceBar.VeryNaughtyIsThirdNaughtySegmentFull | src/components/NaughtyNiceBar/NaughtyNiceBar.jsx:19-73 | `score <= -6` exactly when segment 2 is lit and full |
| NaughtyNiceBar.ActiveIsRun | src/components/NaughtyNiceBar/NaughtyNiceBar.jsx:46-77 | the lit segments form one run next to the middle, `ceil(abs(score)/2)` long |
| NaughtyNiceBar.Halves | src/components/NaughtyNiceBar/NaughtyNiceBar.jsx:16-69 | half an integer has the integer's half as its floor, and is a whole number or a whole number plus 0.5 according to parity |
| NaughtyNiceBar.ActiveCountPrefix | src/components/NaughtyNiceBar/NaughtyNiceBar.jsx:46-77 | among the first `n` segments, the lit ones are exactly those of the lit run below `n` |
| NaughtyNiceBar.LitSegmentsAreHalfTheScore | src/components/NaughtyNiceBar/NaughtyNiceBar.jsx:16-89 | for scores from -10 to 10, `ceil(abs(score)/2)` of the ten segments are lit |
| WindowUtils.IsMobile | src/utils/windowUtils.js:65 | definition, no contract: a window exists and is at most 768 px wide |
| WindowUtils.DesktopPosition | src/utils/windowUtils.js:6-11 | the window is centred: equal gaps on the left and right, and at the top and bottom |
| WindowUtils.DesktopDimensions | src/utils/windowUtils.js:70-75 | the width is 750 or the content width minus 80, whichever is smaller; the height is 10/16 of the width |
| WindowUtils.DesktopWindowKeepsMargin | src/utils/windowUtils.js:6-75 | the sized, centred desktop window keeps at least 40 px from each side of the content |
| WindowUtils.MinimizedPosition | src/utils/windowUtils.js:55-60 | the minimised 120-px window ends 20 px from the right edge and sits 20 px below the top |
| WindowUtils.TextBottom | src/utils/windowUtils.js:17-24 | the hero text's bottom plus 20 when the element exists, otherwise a fifth of the viewport height |
| WindowUtils.IconsTop | src/utils/windowUtils.js:27 | an absent or zero icon top falls back to the viewport height minus 260 |
| WindowUtils.MobilePosition | src/utils/windowUtils.js:16-50 | null exactly when the band is at most 100 px high; otherwise the window is centred in the band vertically and in the viewport horizontally, and its size is echoed |
| WindowUtils.MobileDimensions | src/utils/windowUtils.js:80-85 | the width is nine tenths of the viewport; the height is the band minus 20 px on each side |
| WindowUtils.MobileWindowFillsBand | src/utils/windowUtils.js:16-85 | a window sized for the band is always placed, 20 px inside each edge of the band, with 5% side margins |
| LanguageSelector.Filter | src/components/LanguageSelector/LanguageSelector.jsx:116-118 | a language is in the result exactly when it is an option whose lower-cased name contains the lower-cased query; the result is never longer than the options (the order is stated by the next two rows) |
| LanguageSelector.FilterAppend | src/components/LanguageSelector/LanguageSelector.jsx:116-118 | filtering a concatenation is the concatenation of the filtered parts, so the kept languages stay in table order |
| LanguageSelector.FilterSingle | src/components/LanguageSelector/LanguageSelector.jsx:117 | a single language is kept exactly when its name matches the query |
| LanguageSelector.FilteredLanguages | src/components/LanguageSelector/LanguageSelector.jsx:116-118 | definition, no contract: the filter applied to the 42-entry table; its properties are those of `Filter` and `EmptySearchListsTable` |
| LanguageSelector.EmptySearchListsTable | src/components/LanguageSelector/LanguageSelector.jsx:5-118 | an empty search lists all 42 languages in table order |
| LanguageSelector.TypingNarrowsTheList | src/components/LanguageSelector/LanguageSelector.jsx:116-118 | extending the query never brings back a language that the shorter query filtered out |
| LanguageSelector.EmptyQueryKeepsAll | src/components/LanguageSelector/LanguageSelector.jsx:116-118 | an empty search keeps every option, in order |
| LanguageSelector.ToLowerAppend | src/components/LanguageSelector/LanguageSelector.jsx:117 | lower-casing a concatenation lower-cases each part |
| LanguageSelector.ContainsPrefixOfMatch | src/components/LanguageSelector/LanguageSelector.jsx:117 | a name containing a longer query contains each of its prefixes |
| LanguageSelector.Find | src/components/LanguageSelector/LanguageSelector.jsx:120 | when some option has the code, the result is an option at a position before which no option has the code, so the first such option; otherwise the fallback |
| LanguageSelector.SelectedLang | src/components/LanguageSelector/LanguageSelector.jsx:120 | the language with the selected code, or English when no language has it |
| LanguageSelector.Picker.constructor | src/components/LanguageSelector/LanguageSelector.jsx:51-52 | the picker starts closed, with an empty search |
| LanguageSelector.Picker.ClickButton | src/components/LanguageSelector/LanguageSelector.jsx:127-132 | while disabled, nothing changes; otherwise the open state toggles and the search is cleared |
| LanguageSelector.Picker.Search | src/components/LanguageSelector/LanguageSelector.jsx:157 | typing sets the query and leaves the open state alone |
| LanguageSelector.Picker.Choose | src/components/LanguageSelector/LanguageSelector.jsx:167-171 | choosing a listed language reports its code, closes the list and clears the search |
| LanguageSelector.Picker.ClickOutside | src/components/LanguageSelector/LanguageSelector.jsx:59-67 | a press outside closes the list and keeps the search |
| LanguageSelector.Picker.SyncDisabled | src/components/LanguageSelector/LanguageSelector.jsx:79-83 | a disabled picker is closed; an enabled one keeps its state |
| Haircheck.QueriedPermission | src/components/cvi/hooks/use-start-haircheck.jsx:10-27 | a state is known exactly when the Permissions API exists and answers |
| Haircheck.IsPermissionsPrompt | src/components/cvi/hooks/use-start-haircheck.jsx:45-47 | definition, no contract: the state is `prompt`; `FlagsExclusive` relates it to the others |
| Haircheck.IsPermissionsLoading | src/components/cvi/hooks/use-start-haircheck.jsx:49-55 | definition, no contract: the branch on a missing state; `ReportedStateDecides` and `MicStateDecides` state both branches |
| Haircheck.IsPermissionsGranted | src/components/cvi/hooks/use-start-haircheck.jsx:57-63 | definition, no contract: the branch on a missing state; `ReportedStateDecides` and `MicStateDecides` state both branches |
| Haircheck.IsPermissionsDenied | src/components/cvi/hooks/use-start-haircheck.jsx:65-67 | definition, no contract: the state is `denied`; `FlagsExclusive` relates it to the others |
| Haircheck.ReportedStateDecides | src/components/cvi/hooks/use-start-haircheck.jsx:49-63 | with a reported state: granted exactly when it is `granted`; loading exactly when it is `granted` and the microphone is idle, so loading implies granted |
| Haircheck.MicStateDecides | src/components/cvi/hooks/use-start-haircheck.jsx:45-67 | without a state: granted exactly when the microphone is `granted`, loading exactly when it is `idle` or `loading`, and never both; never prompt or denied |
| Haircheck.FlagsExclusive | src/components/cvi/hooks/use-start-haircheck.jsx:45-67 | granted and denied never hold together; neither do prompt and denied, nor prompt and granted |
| Haircheck.RequestPermissions | src/components/cvi/hooks/use-start-haircheck.jsx:29-43 | nothing without a call object; otherwise camera and microphone both start from the default source with noise cancellation |
| ScoreTracking.StripTags | src/hooks/useScoreTracking.js:89 | the stripped text is never longer, and equals the input exactly when the input contains neither tag |
| ScoreTracking.NestedTagSurvives | src/hooks/useScoreTracking.js:89 | each pass runs once, so `<+<->>` is displayed as `<+>` |
| ScoreTracking.NestedHasNoNiceTag | src/hooks/useScoreTracking.js:89 | the first pass finds no nice tag in `<+<->>` and leaves it as it is |
| ScoreTracking.NestedLosesNaughtyTag | src/hooks/useScoreTracking.js:89 | the second pass removes the naughty tag from `<+<->>`, leaving `<+>` |
| ScoreTracking.ScoreTracker.constructor | src/hooks/useScoreTracking.js:19-21 | the initial score is 0, the percentage 50 and the session start 0 |
| ScoreTracking.ScoreTracker.Mount | src/hooks/useScoreTracking.js:24-36 | the stored score becomes the current score and the session start; the percentage is its mapping |
| ScoreTracking.Processable | src/hooks/useScoreTracking.js:44 | definition, no contract: a non-empty string; `ScoreTracker.ProcessMessage` returns any other message unchanged |
| ScoreTracking.ScoreTracker.ProcessMessage | src/hooks/useScoreTracking.js:43-94 | an empty or non-string message is returned as is; the score changes only when the tags sum to a non-zero change, and then becomes `updateScore`'s total with its mapped percentage; the session start never moves; the returned text is the tag-stripped message |

## Left out

- The clock is left out. `new Date()` in `getTodayKey`, `recordSession`, `cleanup` and `test-bypass`, and the hourly `setInterval(cleanup)`, are replaced by the `isoNow` and cutoff parameters.
- Calendar arithmetic is left out. `setDate(getDate() - 2)` and `new Date(year, 11, 25)` in local time are represented by their results, which are passed in.
- `generateUserId` is a parameter, because it reads the clock and `Math.random`.
- JavaScript numbers are not modelled beyond the NaN of line 37.
  - Durations are `real`, so NaN and Infinity durations, which pass the `typeof` check, are not modelled.
  - The countdown's times are integers, as millisecond timestamps are.
  - The meter's score is taken to be an integer. The score comes from the score utilities, which are not part of this model, and the `score = 0` default prop is represented by passing 0.
- RecordUsage.ValidDuration: a body field that is any other JavaScript value is represented by one `OtherValue` case.
- RecordUsage.Handle: the 500 for a missing body carries V8's `TypeError` text. Other engines word it differently, and the failure of a dynamic `import()` is not modelled.
- The window layout uses exact real arithmetic, so IEEE double rounding is not modelled. For example, `3 * 0.20` is `0.6000000000000001` in JavaScript but 0.6 here, so equalities such as `5.0 * b == vp.innerHeight` hold in the model but may be off by one unit in the last place in the browser.
- Query parameters are single strings. A repeated parameter, which Node presents as an array, is not modelled.
- JsStrings.ToUpper: upper-casing covers ASCII letters only. Every other character is left unchanged, and length-changing mappings such as ß to SS are not modelled.
  - In `CheckGeoblock`, a code or list entry with non-ASCII letters is therefore compared without the upper-casing JavaScript applies. For example, JavaScript upper-cases `cı` to `CI`, while the model keeps `Cı`.
- JsStrings.ToLower: lower-casing covers only these one-to-one mappings. Every other character is left unchanged.
  - The ranges: A-Z, U+00C0-U+00DE except U+00D7, the Latin Extended-A pairs from U+0100 to U+017E, U+0178, the Greek capitals U+0386, U+0388-U+038A, U+038C, U+038E-U+038F and U+0391-U+03AB (except the unassigned U+03A2), and the Cyrillic capitals U+0400-U+042F.
  - U+0130 (capital I with dot) is left unchanged, because `toLowerCase` turns it into two characters and `ToLower` keeps the length.
  - Final sigma is not modelled: capital sigma always becomes σ, never ς at the end of a word.
  - In `LanguageSelector.Filter`, a query with a capital outside these ranges does not match the name that JavaScript would match. For example, `VIỆT` (U+1EC6) lists nothing, where the component lists Tiếng Việt.
  - The 42 names of the language table themselves need no mapping beyond these ranges.
- Strings are sequences of Unicode scalar values, not UTF-16 code units.
- UriCodec.Decode accepts every escape sequence that `Encode` produces, and rejects truncated or non-hex escapes and bad UTF-8 lead bytes. Its validation of overlong forms is stated only for the sequences `Encode` emits.
- Logging (`console.*`) and the mechanics of `res.setHeader`, `res.status`, `res.json` and `res.end` are left out. Responses are returned values.
- Concurrency between serverless instances is left out. So is any durable store, which the code does not have.
- The meter's noise and wiggle animation and the language picker's portal, positioning and focus are rendering and are left out.
- Haircheck.QueriedPermission models only the state the mount effect first settles on. The `onchange` subscription, which resets the state on every later browser change, enters the model only as a new `permissionState` input to the four flag predicates.
- The Daily SDK call that `requestPermissions` makes is left out. It is represented by the options the call would receive.
- ScoreTracking.ScoreTracker.ProcessMessage: `extractScoreTags`, `updateScore` and `scoreToNicePercentage` are not part of this model and are passed in as functions. `updateScore` is represented by the total it reports; the local storage it writes is left out.

## Findings

| source | as written | input that shows it | evidently intended | confidence | as-written member | corrected member |
|---|---|---|---|---|---|---|
| api/usage-storage.js:37 | `Math.min(durationSeconds, usage.remainingSeconds)` reads a field that stored records never have, so the charge, the total and the remainder become NaN | any first `recordSession` of a day, e.g. 100 seconds on a fresh day | clamp to `max(0, 180 - usedSeconds)`, as `reserveTime` does at lines 55-56 | high, not executed | UsageStorage.RecordAsWrittenIsNaN | UsageStorage.ChargeKeepsConsistent |
| api/usage-storage.js:74 | `key.split(':')[1]` takes the second colon-separated field, which for an IPv6 identifier is part of the address, not the date | identifier `::1` (swept even on its own day) or `2001:db8::1` (never swept) | compare the key's last field, its date | high, not executed | UsageStorage.ColonIdentifierExpiresEarly | UsageStorage.ExpiredByDayIsChronological |
