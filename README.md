# URL shortener front end — a Dafny model

This project models the logic of a React URL shortener and states what that logic guarantees.
Users fill in a form of up to five rows, each with a long URL, an optional custom short code
and a validity in minutes. The page turns the form into link records, all or nothing. Each
record holds an id, the original URL, a short code, a short URL, a creation time, an expiry
time, a click count and a click history. Three pages share one list of records:

- the shortener page creates records and lets the user test a link;
- the redirect page follows a short code and counts the visit;
- the statistics page counts active and expired links and clicks, and deletes links.

A telemetry `Logger` checks each log line against a fixed taxonomy and posts it to a
collection server, retrying a bounded number of times.

The model has seven modules:

| file | module | what it holds |
|---|---|---|
| `basics.dfy` | `Basics` | `Option` and `Result` |
| `text.dfy` | `Text` | `toLowerCase`, `trim`, `join`, decimal rendering |
| `registry.dfy` | `Registry` | `LinkRecord`; the shared list as the `Store` class; lookup by code and click recording, shared by the "test" and "redirect" paths |
| `shortener.dfy` | `ShortenerPage` | the form rows and batch creation, as the `URLShortener` class |
| `statistics.dfy` | `StatisticsPage` | the derived counts and the `Statistics` class |
| `redirect.dfy` | `RedirectPage` | the `Redirect` class |
| `logger.dfy` | `Logging` | the taxonomy, the payload, the request and the `Logger` class |

Each handler that replaces React state is a method. It changes the fields of its class, or the
shared `Store`, and its postcondition gives the new state in terms of a pure function of the
old state. The properties are lemmas about those functions.

Things outside the program become parameters:

- `new URL(...)` parsing is an `isValidUrl` function.
- The text that `Math.random().toString(36)` produces for the k-th kept row is `draw(k)`.
- The id of the k-th new record is `mintId(k)`.
- The clock is one integer millisecond reading `now` per operation.
- Whether attempt k of a log line succeeds is `serverOk(k)`. Success means the attempt's `try` block runs to its end: the response is `ok` and its body parses as JSON other than `null`. A 2xx answer with an empty, non-JSON or `null` body throws while the result is read. That attempt counts as failed and is retried, even though the server may already have stored the line.

Behaviour of the code that the model makes explicit:

- **Collisions abort the batch.** A chosen code that is already stored aborts the whole batch
  with `Code "…" already exists`. No new code is drawn.
- **Codes are not unique.** The collision check looks only at stored records, not at codes
  minted earlier in the same batch. `SameBatchMayRepeatCode` exhibits a custom code and a
  generated code that coincide and are both stored.
- **The validity default applies only to falsy values.** `(validity || 30)` replaces only the
  number 0 and the empty input. The typed text "0" gives a link that expires at creation, and
  a negative count gives one that expires before it.
- **A huge validity gives an Invalid Date.** `new Date(t)` is the Invalid Date once `t` is more
  than 8.64e15 ms from the epoch, either way. A typed validity of 143,970,666,667 minutes or
  more does that for a link made at 1,760,000,000,000 ms, and so does -200,000,000,000. Every
  comparison with the Invalid Date is false. Such a link is never refused as expired, is
  counted neither as active nor as expired, and shows "Active" (`UndatedLinkShownActive`).
- **Expiry boundary.** A visit is refused only when `now > expiryDate`. The statistics page
  counts a link as expired when `now >= expiryDate`. At the exact expiry instant a link is
  listed as "Expired" and still resolves (`ExpiryBoundaryDisagrees`).
- **Shared row ids.** `removeUrl` removes every row with the given id. The row count stays
  within 1..5 only while row ids are distinct. Two rows that share an id are both removed
  (`RemoveRowWithSharedIdEmptiesForm`).

In three places a user might expect something other than what the code does, and the model
follows the code:

- after a collision a user might expect a new code to be drawn, but the code aborts the batch;
- a user might expect short codes to be unique, but one batch can repeat a code;
- a user might expect every non-positive validity to fall back to 30 minutes, but only falsy
  ones do.

`toLowerCase` is modelled for every character whose lower case is an ASCII letter: 'A'..'Z'
and the Kelvin sign U+212A. Any other character keeps its case in the model. Its real lower
case is never an ASCII letter, so every whitelist decision of the logger comes out the same.

## Model

| member | source | states |
|---|---|---|
| Text.Lower | Frontend/my-url-shortener/src/utils/logger.js:94 | `toLowerCase`, character by character, keeping the length; LowerMatchesIffSpells and LowerIdempotent carry its properties |
| Text.Trim | Frontend/my-url-shortener/src/components/URLshortener.jsx:27 | `trim`: white space removed at both ends; TrimEmptyIffBlank carries its properties |
| Text.Join | Frontend/my-url-shortener/src/components/URLshortener.jsx:43 | `join`: the parts with the separator between neighbours |
| Text.LowerMatchesIffSpells | Frontend/my-url-shortener/src/utils/logger.js:94 | comparing `s.toLowerCase()` with a lower-case word holds exactly when `s` spells that word letter by letter in either case |
| Text.LowerIdempotent | Frontend/my-url-shortener/src/utils/logger.js:33-38 | lower-casing twice is lower-casing once |
| Text.TrimEmptyIffBlank | Frontend/my-url-shortener/src/components/URLshortener.jsx:27 | `trim()` yields the empty (falsy) string exactly when every character is white space |
| Text.DecimalString | Frontend/my-url-shortener/src/components/URLshortener.jsx:68 | the rendered count is a non-empty string of decimal digits that denotes the count (`DigitsValue`), with no leading zero |
| Registry.Store.constructor | Frontend/my-url-shortener/src/App.jsx:12 | the shared list of records starts empty |
| Registry.MakeDate | Frontend/my-url-shortener/src/components/URLshortener.jsx:61 | `new Date(t)`: a valid date with time value `t` exactly when `t` is within 8.64e15 ms of the epoch, the Invalid Date otherwise |
| Registry.FindCode | Frontend/my-url-shortener/src/components/URLshortener.jsx:88 | `find` returns nothing exactly when no record carries the code, otherwise the first record that does |
| Registry.RecordClick | Frontend/my-url-shortener/src/components/Redirect.jsx:25-29 | the click update keeps the number of records |
| Registry.Click | Frontend/my-url-shortener/src/components/Redirect.jsx:27 | one click on one record: `clicks + 1` and the event appended to `clickHistory`; RecordClickEffect carries its properties |
| Registry.RecordClickAt | Frontend/my-url-shortener/src/components/Redirect.jsx:26-28 | each record carrying the code gets the click, and every other record is kept as it was |
| Registry.RecordClickEffect | Frontend/my-url-shortener/src/components/URLshortener.jsx:99-103 | every record with the code gets `clicks + 1` and exactly one event appended, and every other record is unchanged |
| Registry.RecordClickKeepsClickCount | Frontend/my-url-shortener/src/components/Redirect.jsx:27 | a record whose click count equals its history length keeps that equality after the click |
| Registry.Visit | Frontend/my-url-shortener/src/components/Redirect.jsx:11-29 | an unknown code is refused; the first record decides refusal, exactly when its expiry is a valid date and `now > expiryDate`; otherwise the first record is the target and the list gets the click |
| Registry.ResolvesAtExpiryInstant | Frontend/my-url-shortener/src/components/Redirect.jsx:19 | at `now == expiryDate` of a valid date the link still resolves |
| Registry.UndatedLinkAlwaysResolves | Frontend/my-url-shortener/src/components/Redirect.jsx:19 | a first record whose expiry is the Invalid Date is followed at every clock, and is the target |
| StatisticsPage.TotalClicks | Frontend/my-url-shortener/src/components/Statistics.jsx:12 | the `reduce` sum of `clicks`; TotalClicksAppend and TotalClicksAfterClick carry its properties |
| StatisticsPage.StatusText | Frontend/my-url-shortener/src/components/Statistics.jsx:97-98 | "Expired" when `now >= expiryDate` holds for a valid date, otherwise "Active" (always for the Invalid Date); StatusAgreesWithCounts carries its properties |
| StatisticsPage.ActiveUrls | Frontend/my-url-shortener/src/components/Statistics.jsx:10 | every listed active record is a record with a valid expiry date and `now < expiryDate` |
| StatisticsPage.ExpiredUrls | Frontend/my-url-shortener/src/components/Statistics.jsx:11 | every listed expired record is a record with a valid expiry date and `now >= expiryDate` |
| StatisticsPage.ActiveExpiredPartition | Frontend/my-url-shortener/src/components/Statistics.jsx:10-11 | for one clock reading, the active count, the expired count and the number of records with an Invalid Date add up to the number of records; the first two alone do so exactly when no expiry is invalid |
| StatisticsPage.ActiveExpiredMembers | Frontend/my-url-shortener/src/components/Statistics.jsx:10-11 | a record is active exactly when its expiry is a valid date with `now < expiryDate`, and expired exactly when it is a valid date with `now >= expiryDate`; a record with the Invalid Date is in neither list |
| StatisticsPage.StatusAgreesWithCounts | Frontend/my-url-shortener/src/components/Statistics.jsx:97-98 | a row shows "Expired" exactly when its record is among the expired ones, and "Active" exactly when it is among the active ones or its expiry is the Invalid Date |
| StatisticsPage.ExpiryBoundaryDisagrees | Frontend/my-url-shortener/src/components/Statistics.jsx:11 | at the instant of a valid expiry date a record is counted and shown as expired, yet a visit still resolves |
| StatisticsPage.UndatedLinkShownActive | Frontend/my-url-shortener/src/components/Statistics.jsx:10-11 | a record whose expiry is the Invalid Date is in neither list, its row reads "Active", and a visit to it resolves, whatever the clock |
| StatisticsPage.TotalClicksAppend | Frontend/my-url-shortener/src/components/Statistics.jsx:12 | the click total of a concatenation is the sum of the totals |
| StatisticsPage.TotalClicksAfterClick | Frontend/my-url-shortener/src/components/Statistics.jsx:12 | a visit raises the click total by the number of records carrying the code |
| StatisticsPage.WithoutId | Frontend/my-url-shortener/src/components/Statistics.jsx:18 | deleting by id never lengthens the list |
| StatisticsPage.WithoutIdMembers | Frontend/my-url-shortener/src/components/Statistics.jsx:18 | a record survives deletion exactly when it was present and its id differs |
| StatisticsPage.WithoutIdAppend | Frontend/my-url-shortener/src/components/Statistics.jsx:18 | deletion works piecewise, so the survivors keep their order |
| StatisticsPage.WithoutUnknownId | Frontend/my-url-shortener/src/components/Statistics.jsx:16-21 | deleting an id no record has leaves the list as it is |
| StatisticsPage.Statistics.DeleteUrl | Frontend/my-url-shortener/src/components/Statistics.jsx:14-23 | reports whether the id was found, and leaves exactly the records with another id, in order |
| StatisticsPage.Statistics.ClearAllUrls | Frontend/my-url-shortener/src/components/Statistics.jsx:25-29 | the list is empty afterwards |
| StatisticsPage.Statistics.constructor | Frontend/my-url-shortener/src/components/Statistics.jsx:4 | the page works on the shared list it is given |
| RedirectPage.Redirect.constructor | Frontend/my-url-shortener/src/components/Redirect.jsx:6-7 | the page starts "loading", with no destination |
| RedirectPage.Redirect.HandleRedirect | Frontend/my-url-shortener/src/components/Redirect.jsx:10-37 | unknown code: status error and the list unchanged; past a valid expiry date: status expired and the list unchanged; otherwise the click recorded with source "Direct Access", status redirecting, and the destination set to the first matching record's URL |
| RedirectPage.RedirectEffect | Frontend/my-url-shortener/src/components/Redirect.jsx:19-35 | for a stored code, a visit is refused exactly when the expiry is a valid date and `now > expiryDate`; otherwise it leads to the first record's URL, every record with the code gains one click and one "Direct Access" event at `now`, the others are untouched, and a click count equal to the history length stays equal |
| RedirectPage.FollowTwice | Frontend/my-url-shortener/src/components/Redirect.jsx:25-29 | two visits to a fresh link not yet past its expiry at the second visit give two clicks and a history of the two visits in order |
| ShortenerPage.AddRow | Frontend/my-url-shortener/src/components/URLshortener.jsx:11-15 | appends a blank row with id `now` while there are fewer than five; AddRowBounded carries its properties |
| ShortenerPage.RemoveRow | Frontend/my-url-shortener/src/components/URLshortener.jsx:17-19 | removes the rows with the id while there is more than one row; RemoveRowBounded and RemoveRowWithSharedIdEmptiesForm carry its properties |
| ShortenerPage.UpdateRow | Frontend/my-url-shortener/src/components/URLshortener.jsx:21-23 | sets one field of the rows with the id; UpdateRowChangesOneField carries its properties |
| ShortenerPage.WithoutRow | Frontend/my-url-shortener/src/components/URLshortener.jsx:18 | removing rows by id never lengthens the form |
| ShortenerPage.AddRowBounded | Frontend/my-url-shortener/src/components/URLshortener.jsx:11-15 | the old rows are kept as a prefix, one row is added exactly while there are fewer than five, and a fresh id keeps a well-formed form (1..5 rows, distinct ids) well-formed |
| ShortenerPage.WithoutRowMembers | Frontend/my-url-shortener/src/components/URLshortener.jsx:18 | a row survives removal exactly when it was present and its id differs |
| ShortenerPage.WithoutRowDistinct | Frontend/my-url-shortener/src/components/URLshortener.jsx:18 | removal keeps the row ids distinct |
| ShortenerPage.WithoutRowLength | Frontend/my-url-shortener/src/components/URLshortener.jsx:18 | with distinct ids, removing a present id drops exactly one row, and removing an absent one drops none |
| ShortenerPage.RemoveRowBounded | Frontend/my-url-shortener/src/components/URLshortener.jsx:17-19 | removal keeps a well-formed form well-formed; with more than one row it keeps exactly the rows with another id, and a single row is never removed |
| ShortenerPage.RemoveRowWithSharedIdEmptiesForm | Frontend/my-url-shortener/src/components/URLshortener.jsx:18 | two rows sharing an id are both removed, which leaves an empty form |
| ShortenerPage.UpdateRowChangesOneField | Frontend/my-url-shortener/src/components/URLshortener.jsx:21-23 | only the named field of the rows with the id changes, and every other row and field is kept |
| ShortenerPage.NonBlank | Frontend/my-url-shortener/src/components/URLshortener.jsx:27 | the blank filter never lengthens the form |
| ShortenerPage.NonBlankMembers | Frontend/my-url-shortener/src/components/URLshortener.jsx:27 | the kept rows are exactly those with a non-space character in the URL |
| ShortenerPage.CustomCodes | Frontend/my-url-shortener/src/components/URLshortener.jsx:39 | the non-empty codes of the kept rows, in order; CustomCodesMembers and CustomCodesPositions carry its properties |
| ShortenerPage.IndexOf | Frontend/my-url-shortener/src/components/URLshortener.jsx:40 | `indexOf` is -1 exactly when the code is absent, and otherwise the first position of the code |
| ShortenerPage.Duplicates | Frontend/my-url-shortener/src/components/URLshortener.jsx:40 | the codes whose `indexOf` is not their own position; DuplicatesAreRepeats carries its properties |
| ShortenerPage.DuplicatesFromMembers | Frontend/my-url-shortener/src/components/URLshortener.jsx:40 | a code is listed from position i on exactly when it occurs twice with the later occurrence at i or beyond |
| ShortenerPage.DuplicatesFromCounts | Frontend/my-url-shortener/src/components/URLshortener.jsx:40 | from position i on, the duplicate filter keeps each code as often as it occurs from i on, less its first occurrence when that lies at i or beyond |
| ShortenerPage.DuplicatesAreRepeats | Frontend/my-url-shortener/src/components/URLshortener.jsx:39-42 | the duplicate list is empty exactly when no custom code repeats; it lists exactly the repeated codes, each once per occurrence after its first (three rows with "a" give "a, a") |
| ShortenerPage.GenerateCode | Frontend/my-url-shortener/src/components/URLshortener.jsx:8 | a generated code has at most six characters: characters 2..8 of the random text |
| ShortenerPage.ChosenCode | Frontend/my-url-shortener/src/components/URLshortener.jsx:49 | `u.code or generateCode()`: the custom code when it is non-empty, otherwise the generated one; AcceptedBatch carries its properties |
| ShortenerPage.EffectiveMinutes | Frontend/my-url-shortener/src/components/URLshortener.jsx:61 | the fallback `(validity or 30)`: 30 for the number 0 and the empty input, the given count otherwise; ValidityFallsBackOnlyWhenFalsy carries its properties |
| ShortenerPage.NewRecord | Frontend/my-url-shortener/src/components/URLshortener.jsx:55-64 | the record for one row, with expiry `new Date(now + minutes * 60000)`, the Invalid Date beyond 8.64e15 ms; AcceptedBatch, ValidityFallsBackOnlyWhenFalsy and HugeValidityMakesInvalidDate state its fields |
| ShortenerPage.MessageText | Frontend/my-url-shortener/src/components/URLshortener.jsx:30-95 | the text the page shows for each message, from the empty message to "URL expired" |
| ShortenerPage.Shorten | Frontend/my-url-shortener/src/components/URLshortener.jsx:25-76 | the decision of `shortenUrls`: the four checks in order, then the records; BlankBatchRejected, InvalidUrlRejected, DuplicateCodeRejected, ExistingCodeAbortsBatch, AcceptedExactlyWhen and AcceptedBatch carry its properties |
| ShortenerPage.CheckCodes | Frontend/my-url-shortener/src/components/URLshortener.jsx:39-76 | the checks on codes once every kept URL parses: repeated custom codes first, then minting; ShortenPastUrlChecks states that a form with a kept row and only parsing URLs reaches them, and DuplicateCodeRejected, ExistingCodeAbortsBatch and AcceptedBatch carry their properties |
| ShortenerPage.ShortenPastUrlChecks | Frontend/my-url-shortener/src/components/URLshortener.jsx:27-37 | a form with a non-blank row whose non-blank URLs all parse passes both URL checks, and its outcome is that of the code checks on its kept rows |
| ShortenerPage.Mint | Frontend/my-url-shortener/src/components/URLshortener.jsx:48-65 | a successful mapping yields one record per kept row |
| ShortenerPage.MintSucceedsIffNoCollision | Frontend/my-url-shortener/src/components/URLshortener.jsx:49-53 | the mapping goes through exactly when no row's chosen code is already stored |
| ShortenerPage.MintRecords | Frontend/my-url-shortener/src/components/URLshortener.jsx:55-64 | each minted record is the record for its row, in row order |
| ShortenerPage.MintFailsAtFirstCollision | Frontend/my-url-shortener/src/components/URLshortener.jsx:51-53 | an aborted mapping names the code of the first colliding row |
| ShortenerPage.RepeatedRowsRepeatCode | Frontend/my-url-shortener/src/components/URLshortener.jsx:39 | a custom code on two non-blank rows appears twice among the custom codes |
| ShortenerPage.RepeatedCodeHasTwoRows | Frontend/my-url-shortener/src/components/URLshortener.jsx:39 | a custom code that appears twice is non-empty and sits on two non-blank rows |
| ShortenerPage.NoDuplicatesIffDistinct | Frontend/my-url-shortener/src/components/URLshortener.jsx:39-45 | the duplicate check passes exactly when no custom code is on two non-blank rows |
| ShortenerPage.BlankBatchRejected | Frontend/my-url-shortener/src/components/URLshortener.jsx:27-32 | the batch is refused with "Please enter at least one URL" exactly when every URL is blank |
| ShortenerPage.InvalidUrlRejected | Frontend/my-url-shortener/src/components/URLshortener.jsx:34-37 | the batch is refused as invalid exactly when some non-blank URL fails to parse |
| ShortenerPage.DuplicateCodeRejected | Frontend/my-url-shortener/src/components/URLshortener.jsx:39-45 | a custom code on two non-blank rows of a parsable batch refuses it; the message lists that code, every listed code is on two non-blank rows, and each custom code is listed once per occurrence after its first |
| ShortenerPage.ExistingCodeAbortsBatch | Frontend/my-url-shortener/src/components/URLshortener.jsx:48-53 | a batch passing the earlier checks in which some chosen code is stored is refused, naming a stored code of the first colliding row |
| ShortenerPage.AcceptedExactlyWhen | Frontend/my-url-shortener/src/components/URLshortener.jsx:25-67 | a batch is accepted exactly when it has a non-blank row, all non-blank URLs parse, no custom code repeats and no chosen code is stored |
| ShortenerPage.AcceptedBatch | Frontend/my-url-shortener/src/components/URLshortener.jsx:55-64 | an accepted batch makes one record per non-blank row, in order, with the row's URL, its custom or generated code (not yet stored), no clicks, an empty history, and as expiry the date `now + (validity or 30) * 60000`, which is the Invalid Date when that lies beyond 8.64e15 ms either way |
| ShortenerPage.SameBatchMayRepeatCode | Frontend/my-url-shortener/src/components/URLshortener.jsx:49-51 | a custom code and a generated code in one batch may coincide, and both records are accepted |
| ShortenerPage.ValidityFallsBackOnlyWhenFalsy | Frontend/my-url-shortener/src/components/URLshortener.jsx:61 | only 0 and an empty input fall back to 30 minutes; "0" expires at creation; a negative validity expires before creation while the date stays in range, and otherwise gives the Invalid Date |
| ShortenerPage.HugeValidityMakesInvalidDate | Frontend/my-url-shortener/src/components/URLshortener.jsx:61 | at clock 1,760,000,000,000 ms, validities of 200,000,000,000 and -200,000,000,000 minutes give the Invalid Date, and the boundary lies between 143,970,666,666 (valid) and 143,970,666,667 (invalid) |
| ShortenerPage.URLShortener.constructor | Frontend/my-url-shortener/src/components/URLshortener.jsx:5-6 | the form starts with the single blank row of id 1 and an empty message |
| ShortenerPage.URLShortener.AddUrl | Frontend/my-url-shortener/src/components/URLshortener.jsx:11-15 | a blank row is appended only while there are fewer than five, and a well-formed form with a fresh id stays well-formed |
| ShortenerPage.URLShortener.RemoveUrl | Frontend/my-url-shortener/src/components/URLshortener.jsx:17-19 | rows with the id are removed only while there is more than one row, and a well-formed form stays well-formed |
| ShortenerPage.URLShortener.UpdateUrl | Frontend/my-url-shortener/src/components/URLshortener.jsx:21-23 | the named field of the rows with the id is set, and the form stays well-formed |
| ShortenerPage.URLShortener.ShortenUrls | Frontend/my-url-shortener/src/components/URLshortener.jsx:25-76 | a refused batch sets its message and changes neither the form nor the list; an accepted one appends its records after the existing ones, reports the count and resets the form |
| ShortenerPage.URLShortener.TestUrl | Frontend/my-url-shortener/src/components/URLshortener.jsx:87-106 | unknown code: "URL not found", nothing changes; past a valid expiry date: "URL expired", nothing changes; otherwise the click recorded with source "Test" and the link opened at its original URL |
| Logging.IsValidStack | Frontend/my-url-shortener/src/utils/logger.js:92-95 | the lower-cased stack is "frontend" or "backend"; StackIsCaseInsensitive carries its properties |
| Logging.IsValidLevel | Frontend/my-url-shortener/src/utils/logger.js:100-103 | the lower-cased level is one of the five levels; LevelIsCaseInsensitive carries its properties |
| Logging.PackagesFor | Frontend/my-url-shortener/src/utils/logger.js:118-120 | the front-end and shared packages when the lower-cased stack is "frontend", the back-end and shared ones otherwise |
| Logging.IsValidPackage | Frontend/my-url-shortener/src/utils/logger.js:108-123 | the lower-cased package is in the stack's list; PackageIsCaseInsensitive carries its properties |
| Logging.Prepare | Frontend/my-url-shortener/src/utils/logger.js:16-38 | the checks of `log` in order, then the lower-cased payload; PrepareChecksInOrder, PreparedPayloadIsCanonical and PrepareIdempotent carry its properties |
| Logging.LowerInIffSpellsOne | Frontend/my-url-shortener/src/utils/logger.js:94 | looking a lower-cased text up in a lower-case list is a case-insensitive search of the list |
| Logging.StackIsCaseInsensitive | Frontend/my-url-shortener/src/utils/logger.js:92-95 | a stack is accepted exactly when it spells "frontend" or "backend" in any case |
| Logging.LevelIsCaseInsensitive | Frontend/my-url-shortener/src/utils/logger.js:100-103 | a level is accepted exactly when it spells debug, info, warn, error or fatal in any case |
| Logging.PackageIsCaseInsensitive | Frontend/my-url-shortener/src/utils/logger.js:108-123 | a package is accepted exactly when it spells a shared package, a front-end one under a stack spelling "frontend", or a back-end one under any other stack |
| Logging.PackageListsDisjoint | Frontend/my-url-shortener/src/utils/logger.js:110-116 | no package name is in two of the three lists |
| Logging.ConvenienceLevelsAreValid | Frontend/my-url-shortener/src/utils/logger.js:136-154 | the fixed level each convenience method passes is accepted |
| Logging.PrepareChecksInOrder | Frontend/my-url-shortener/src/utils/logger.js:18-31 | `log` reports the first failing check in the order stack, level, package, and builds a payload exactly when all pass |
| Logging.PreparedPayloadIsCanonical | Frontend/my-url-shortener/src/utils/logger.js:33-38 | the payload's stack, level and package are the inputs in lower case, from the lists, with a package of the stack's side, and the message is unchanged |
| Logging.PrepareIdempotent | Frontend/my-url-shortener/src/utils/logger.js:33-38 | logging an already normalised payload sends it unchanged |
| Logging.Authorization | Frontend/my-url-shortener/src/utils/logger.js:57-59 | a header is attached exactly when the token is truthy, and it is "Bearer " followed by the token |
| Logging.LogsEndpoint | Frontend/my-url-shortener/src/utils/logger.js:61 | the address `<baseUrl>/logs` every attempt posts to; DefaultLoggerTriesThreeTimes carries its properties |
| Logging.MaxAttempts | Frontend/my-url-shortener/src/utils/logger.js:78 | exactly `retryAttempts` attempts when that is positive, and exactly one (the first attempt, with no retry) otherwise |
| Logging.TextOr | Frontend/my-url-shortener/src/utils/logger.js:3 | a missing or empty base URL takes the default |
| Logging.NumberOr | Frontend/my-url-shortener/src/utils/logger.js:5-6 | a missing or zero count takes the default |
| Logging.Logger.constructor | Frontend/my-url-shortener/src/utils/logger.js:2-7 | every missing or falsy setting takes its default: the evaluation service URL, no token, 3 attempts, 1000 ms |
| Logging.Logger.SetToken | Frontend/my-url-shortener/src/utils/logger.js:128-131 | the token is replaced |
| Logging.Logger.RequestFor | Frontend/my-url-shortener/src/utils/logger.js:52-65 | the request an attempt sends: the logs endpoint of the base URL, the bearer header of the current token, the payload as body; TokenChangesBetweenAttempts and DefaultLoggerTriesThreeTimes carry its properties |
| Logging.Logger.SendToServer | Frontend/my-url-shortener/src/utils/logger.js:50-87 | one attempt posts the payload to `<baseUrl>/logs` with the bearer header exactly when the token is truthy, and schedules attempt k + 1 exactly when attempt k failed and k < retryAttempts |
| Logging.Logger.Deliver | Frontend/my-url-shortener/src/utils/logger.js:67-85 | a chain sends between 1 and MaxAttempts identical requests, every attempt before the last failed, it is delivered exactly when the last attempt succeeded, and an undelivered chain made all MaxAttempts attempts |
| Logging.Logger.Log | Frontend/my-url-shortener/src/utils/logger.js:16-45 | a line failing a check sends nothing and reports that check; a valid line sends its normalised payload in 1..MaxAttempts identical requests, stops at the first successful attempt, and makes all MaxAttempts attempts when none succeeds |
| Logging.CreatedLinePasses | Frontend/my-url-shortener/src/components/URLshortener.jsx:70 | the line the shortener page logs after creating any number of links passes every check and is sent as given |
| Logging.CreatedMessage | Frontend/my-url-shortener/src/components/URLshortener.jsx:70 | the message `Created <count> URLs` |
| Logging.AcceptedLineIsSentOnce | Frontend/my-url-shortener/src/utils/logger.js:67-70 | the created-links line, for any count, whose first attempt succeeds is sent exactly once |
| Logging.TokenChangesBetweenAttempts | Frontend/my-url-shortener/src/utils/logger.js:78-82 | a token set between a failed attempt and its retry changes the retry's header, not its payload |
| Logging.DefaultLoggerTriesThreeTimes | Frontend/my-url-shortener/src/utils/logger.js:5 | with the defaults, a server that never answers `ok` sees exactly three identical requests to the default endpoint without a header |

## Left out

- I/O is not modelled: `fetch` and `response.json`, `console` output, `window.open`, `window.location`, `navigator.clipboard` (`copyUrl`), and `localStorage` (`clearAllUrls` removes the saved copy).
- `setTimeout` delays are not modelled: the 500 ms before a redirect is handled, the 1000 ms before navigation, and the retry delay. `retryDelay` is stored but has no effect in the model.
- `src/App.jsx` is not part of this model. It holds the router, the loading and saving of records, and the reading of the token from the environment.
- JSX rendering, styles, the last-three-clicks display and the logger calls inside the pages are not modelled. Those calls only write telemetry.
- `Registry.Visit`: the clock is read once per operation. The source reads it separately for the expiry check, the event timestamp, `createdAt` and `expiryDate`. The statistics page calls `new Date()` once per record in each filter and in each row's status, while `ActiveUrls`, `ExpiredUrls`, `StatusText` and `ActiveExpiredPartition` use one reading for all records.
- Dates are whole milliseconds: a creation time is the clock reading, and an expiry is a `Date`, a time value or the Invalid Date. Clock readings are assumed to be valid dates. Record ids (`Date.now() + Math.random()`, a fraction) are modelled as integers supplied by `mintId`.
- `Registry.MakeDate`: the expiry is computed with exact integers, not with double-precision numbers. The two agree for every clock reading from the epoch to 8.64e15 ms: they differ only where the product passes 2^53, and there the date is the Invalid Date either way.
- `ShortenerPage.Validity`: only integer validities are modelled, including those large enough to give the Invalid Date. Fractional, exponent or non-numeric input text is not modelled, and neither is the `NaN` time value that non-numeric text produces.
- A saved Invalid Date is written out as `null` and read back by `src/App.jsx` as the epoch. That reload is not modelled, because `src/App.jsx` is not part of this model.
- `Text.Lower` covers only the characters whose lower case is an ASCII letter. That is exact for the whitelist checks, but a payload field never includes another character anyway.
- `RedirectPage.Redirect.HandleRedirect`: one run of the handler is modelled. The effect depends on the record list, so the source runs it again after its own click update. That re-run is not modelled. It records one more visit every 500 ms until the page unloads.
- `Logging.Logger.Deliver`: a chain of attempts is modelled without a `setToken` between attempts. `TokenChangesBetweenAttempts` shows a single retry with one.
- `Logging.Logger.Log`: `log` returns before its retries finish. The model returns the whole chain, as the scheduled retries would make it.
- The convenience methods `debug`, `info`, `warn`, `error` and `fatal` are not modelled separately. Each calls `log` with a fixed level, and `ConvenienceLevelsAreValid` covers that level.
- The JSON serialisation of the body is not modelled. The body is the `Payload` value.
- A thrown `toLowerCase` on a non-string argument is not modelled. Arguments are strings.
- A caller might expect a new code to be drawn after a collision. That is not modelled, because the code aborts the batch instead.
