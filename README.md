# LoveLock core in Dafny

LoveLock turns a photo into a paid, shareable swap puzzle. A sender uploads an image,
picks a difficulty tier (a 3×3, 4×4 or 5×5 grid with a fixed price in kobo), writes a
message, and pays through a hosted checkout. The recipient opens the share link, gets 24
hours to swap the tiles back into place, and then sees the whole picture and the message.

This project models the logic at the centre of that flow:

- **the tile permutations** (`PuzzleLib`, `Types`): the Fisher–Yates shuffle, with its
  random indices taken as an input, and the fix-up that never hands out a solved board;
  the solved check and the correct-tile counter; the difficulty table;
- **the request helpers** (`Utils`): image validation by declared type, size and magic
  bytes; the fixed-window rate limiter over a keyed map, with its cleanup sweep; and the
  HTML-escaping sanitizer and its inverse;
- **puzzle creation** (`CreateRoute`): the rate limit, the validation chain in its fixed
  order, and the row that gets inserted;
- **the payment state machine** (`Store`, `PaymentInitialize`, `PaymentVerify`,
  `PaymentCallback`, `CronExpire`, `Reconciliation`): the `puzzles` and `payments`
  tables as two maps in a `Db` class; a handler per route as a method that runs that
  route's guarded writes in order; the opened → expired sweep as a loop over the rows;
  the webhook and the browser callback for one reference, arriving in either order;
- **the client pages** (`PuzzlePageClient`, `PuzzleLocked`, `PuzzleTile`): the solving
  page's `HH:MM:SS` countdown, and its state (board, status, expiry, the two ref flags)
  as a class whose methods are the swap handler and the open, tick and completion
  effects; the locked page's days/hours/minutes/seconds split; the tile → picture-cell
  mapping.

Values the program gets from outside are parameters:
- timestamps are integers, in milliseconds since the epoch;
- the shuffle's draws;
- fresh ids, tokens and reference suffixes;
- the outcome of the webhook signature check;
- the payment provider's initialize and verify answers;
- whether a payments upsert succeeded;
- the `CRON_SECRET` setting.

`JsText` holds the JavaScript string built-ins the routes use, written over Dafny strings.
`Arith` holds one fact about division and remainder.

Some behaviours of the code worth knowing, all modelled as written:
- the callback takes the token from the provider's metadata first and queries the table
  only as a fallback;
- the callback writes a payments row only when the metadata names a puzzle;
- the cron guard lets a request without an `Authorization` header through when no secret
  is configured (`CronExpire.UnsetSecretAdmitsBareRequests`);
- the initialize handler keeps the new reference on the puzzle even when it then fails
  with a 500.

The difficulty check in the create route is an object-property lookup, which also admits
keys inherited from `Object.prototype` (see Findings). The modelled handler
(`CreateRoute.Validate` and through it `Handle`, `Create` and `Post`) uses the strict
three-tier check instead, the corrected half of that finding.

The prices follow the table in `src/types/index.ts`. The expectations of 50000, 80000
and 150000 in `src/lib/puzzle.test.ts:47-49` are stale and contradict that table.

## Model

| member | source | states |
|---|---|---|
| Types.ParseStatus | src/types/index.ts:3-8 | exactly the five status names are accepted, and each reads back as the status it names |
| Types.ParseDifficulty | src/types/index.ts:1 | a tier is read exactly from `easy`, `medium` or `hard`, and its name is the text read |
| Types.ParseDifficultyName | src/types/index.ts:1 | every tier's name reads back as that tier |
| Types.ConfigTable | src/types/index.ts:17-36 | grid sizes are 3, 4, 5 and prices 100000, 200000, 350000 kobo, strictly rising with difficulty |
| Types.DescriptionsStatePieceCount | src/types/index.ts:17-36 | each tier's description names its grid size and that size squared as the piece count (9, 16, 25) |
| PuzzleLib.Swapped | src/lib/puzzle.ts:9 | the two entries trade places, the length is kept and every other entry is unchanged |
| PuzzleLib.SwapPermutes | src/lib/puzzle.ts:9 | a swap keeps the multiset of entries |
| PuzzleLib.SwapTwice | src/components/puzzle/PuzzlePageClient.tsx:176-184 | swapping the same two positions twice restores the board |
| PuzzleLib.ShuffleStepsPermute | src/lib/puzzle.ts:7-10 | the descending loop of swaps, each with some `j` in `0..i`, keeps the multiset of entries |
| PuzzleLib.AvoidSolved | src/lib/puzzle.ts:12-16 | the fix-up keeps the multiset, never leaves a solved board of more than one tile, touches only positions 0 and 1, and changes something only when the board was solved |
| PuzzleLib.ShuffledOrderProperties | src/lib/puzzle.ts:4-18 | the result is a permutation of `0..n-1`; for `n > 1` it is not solved; for `n <= 1` it is `[0..n)` |
| PuzzleLib.GenerateShuffledOrder | src/lib/puzzle.ts:4-19 | the in-place array version returns the shuffle's result, a permutation that is unsolved for more than one tile |
| PuzzleLib.IsPuzzleSolved | src/lib/puzzle.ts:22-24 | true exactly when the order is the identity `[0, 1, ..., n-1]`, so also for the empty order |
| PuzzleLib.CountCorrectTiles | src/lib/puzzle.ts:37-39 | the count of fixed points is at most the length, and equals it exactly when the board is solved |
| PuzzleLib.CountCorrectTilesExample | src/lib/puzzle.test.ts:32-40 | `[0,2,1,3]` has 2 correct tiles; `[0,1,2,3]` and `[]` are solved |
| PuzzleLib.PlacingTileRaisesCount | src/lib/puzzle.ts:37-39 | on a permutation, swapping a misplaced tile into its own slot raises the count by 1, or by 2 when the displaced tile lands home as well |
| PuzzleLib.PermutationFacts | src/lib/puzzle.test.ts:10-23 | a permutation of `0..n-1` has length `n`, entries in range, no repeats, and every value of the range |
| PuzzleLib.GetGridSize | src/lib/puzzle.ts:27-29 | the tier's table entry, between 3 and 5 |
| PuzzleLib.GetPrice | src/lib/puzzle.ts:32-34 | the tier's table price, between 100000 and 350000 |
| PuzzleLib.HarderCostsMore | src/types/index.ts:17-36 | a harder tier has a larger grid and a strictly higher price |
| JsText.Trim | src/lib/utils.ts:94 | `trim` gives the slice `s[a..b]` left after removing only whitespace before `a` and after `b`; the slice neither starts nor ends with whitespace, and it is all of `s` when `s` has no whitespace |
| JsText.DecimalRoundTrip | src/components/puzzle/PuzzlePageClient.tsx:32-34 | `String(n)` reads back as `n` |
| JsText.TwoDigitsValue | src/components/puzzle/PuzzlePageClient.tsx:32-34 | a zero-padded field is all digits and reads back as its number, and it has exactly two characters exactly when the number is below 100 |
| JsText.ReplaceFirstWithoutMatch | src/app/api/cron/expire-puzzles/route.ts:5 | `replace` with a string pattern that does not occur returns the text unchanged |
| Utils.ValidateImageFile | src/lib/utils.ts:8-16 | the type error exactly for a type outside jpeg/png/webp; otherwise the size error exactly above 5242880 bytes; otherwise no error |
| Utils.SignatureMeaning | src/lib/utils.ts:30-47 | the signature passes exactly for a `FF D8` prefix, an `89 50 4E 47` prefix, or `57 45 42 50` at bytes 8 to 11; a buffer under 2 bytes never passes |
| Utils.ValidateImageBuffer | src/lib/utils.ts:18-50 | the first failing check in the order declared type, the declared `size` argument, magic bytes, with each error stated exactly |
| Utils.RateStepCases | src/lib/utils.ts:55-74 | an absent or lapsed entry (strictly past `resetAt`) restarts at count 1 and is allowed; a live entry is refused unchanged at the limit and counted up otherwise; no other key changes |
| Utils.RateLimiter.CheckRateLimit | src/lib/utils.ts:55-74 | the verdict and the new store are one rate-limit step on the old store |
| Utils.LiveWindowBound | src/lib/utils.ts:68-73 | in a live window with count `c`, later calls up to the reset time are allowed at most `maxRequests - c` times |
| Utils.OneWindowBound | src/lib/utils.ts:55-74 | within one window opened by the first call, a key is allowed at most `max(maxRequests, 1)` times |
| Utils.RateLimiter.Cleanup | src/lib/utils.ts:78-85 | the sweep deletes exactly the entries with `now > resetAt` and keeps the rest unchanged |
| Utils.CleanupInvisible | src/lib/utils.ts:76-86 | a rate-limit check made no earlier than the sweep decides the same with or without it |
| Utils.ReplacementsEscape | src/lib/utils.ts:88-93 | the four global replacements, in source order, are the character-by-character HTML escape |
| Utils.SanitizeIsEscapeOfTrim | src/lib/utils.ts:88-95 | `Utils.SanitizeText(s)` (`sanitizeText`) is the escape of `trim(s)` |
| Utils.SanitizedHasNoMarkup | src/lib/utils.ts:88-95 | sanitized text contains none of `<`, `>`, `"`, `'` |
| Utils.UnsanitizeEscape | src/lib/utils.ts:97-103 | `Utils.UnsanitizeText` (`unsanitizeText`) undoes the escape of any text without `&` |
| Utils.SanitizeRoundTrip | src/lib/utils.ts:88-103 | for text without `&`, unsanitizing the sanitized text gives the trimmed text |
| Utils.EntityInInputDoesNotRoundTrip | src/lib/utils.ts:88-103 | text that already spells `&lt;` is sanitized unchanged and unsanitized to `<`, so the `&` condition is needed |
| Store.SingleByReference | src/app/api/payment/verify/route.ts:31-36 | `.single()` gives a row exactly when one row holds the reference, and it is that row |
| Store.ActivateEffect | src/app/api/payment/verify/route.ts:59-66 | `Store.Activate`, the guarded update: exactly the rows pending payment under the reference become active with `paid_at = now`; no other field or row changes |
| Store.ActivateIdempotent | src/app/api/payment/verify/route.ts:58-66 | after one activation no row awaits it, and a later activation with the same reference at any time changes nothing |
| Store.StaleReferenceMissesRow | src/app/api/payment/initialize/route.ts:32-35 | once a row points at a new reference, activation with any earlier reference leaves it as it is |
| Store.ExpireLapsedEffect | src/app/api/cron/expire-puzzles/route.ts:14-19 | `Store.ExpireLapsed`, the bulk update: it sets to expired exactly the opened rows whose expiry is strictly before now, changes nothing else, leaves no lapsed row, and repeating it changes nothing |
| CreateRoute.EmailMatcherIsPattern | src/app/api/puzzles/route.ts:36-39 | the matcher accepts exactly the strings of the pattern `^[^\s@]+@[^\s@]+\.[^\s@]+$` |
| CreateRoute.ValidEmailShape | src/app/api/puzzles/route.ts:71 | an accepted address has no whitespace, so `trim` changes nothing, and it holds exactly one `@` |
| CreateRoute.InheritedKeyPassesDifficultyCheck | src/app/api/puzzles/route.ts:23-25 | the lookup as written lets `constructor` through although it names no tier |
| CreateRoute.InheritedKeyRejected | src/app/api/puzzles/route.ts:23-25 | with the strict tier check, `constructor` is refused as an invalid difficulty |
| CreateRoute.ValidateChecksInOrder | src/app/api/puzzles/route.ts:19-52 | `CreateRoute.Validate`, the check chain: the first failing check decides the 400, in source order; success means no check fails and carries the fields sent, with the inclusive limits 500 and 100 and a reveal time within 30 days |
| CreateRoute.NewPuzzleProperties | src/app/api/puzzles/route.ts:54-76 | the new row awaits payment, has the tier's grid and price, holds an unsolved permutation of `gridSize²` tiles and markup-free text, and stores the address lower-cased |
| CreateRoute.Create | src/app/api/puzzles/route.ts:14-93 | past the rate limit: a body that is not JSON gives 500, a failed check gives 400 with its message and no insert, otherwise one new row and the id, token and price |
| CreateRoute.Post | src/app/api/puzzles/route.ts:8-94 | the limiter takes a step on `create:<ip or "unknown">` with 10 per 60000 ms; a refusal gives 429 before the body is read; the payments table never changes |
| PaymentInitialize.NewReferenceAwaitsActivation | src/app/api/payment/initialize/route.ts:28-35 | after the reference update the row awaits activation by exactly that reference, and that activation makes it active |
| PaymentInitialize.Post | src/app/api/payment/initialize/route.ts:6-76 | a body that is not JSON gives 500, and 400 and 404 leave the store unchanged; otherwise the reference is overwritten with `ll_` + the suffix, a pending payment with the puzzle's amount is inserted unless the reference exists (a 500 that keeps the update), and the checkout answer, when there is one, returns the puzzle's token, otherwise 500 |
| PaymentVerify.ResolvePuzzleId | src/app/api/payment/verify/route.ts:28-37 | the metadata id when present, otherwise the one row holding the reference, otherwise none |
| PaymentVerify.Post | src/app/api/payment/verify/route.ts:5-78 | a missing or invalid signature gives 401, an unreadable event or missing data 500, another event type 200 and a missing reference 400, all changing nothing; a charge runs the guarded activation and upserts the success row under its reference when a puzzle id resolves, then answers 200 |
| PaymentCallback.ResolveToken | src/app/api/payment/callback/route.ts:53-63 | the metadata token when present, otherwise the token of the one row holding the reference, otherwise none |
| PaymentCallback.Get | src/app/api/payment/callback/route.ts:5-74 | no reference gives 400 and a failed or unsuccessful verification 500 or 400, changing nothing; otherwise guarded activation, the upsert only with a metadata puzzle id, then the token or 404 |
| PaymentCallback.TokenLookupUnaffectedByActivation | src/app/api/payment/callback/route.ts:27-63 | the token found after the activation is the one that would have been found before it |
| CronExpire.AuthorizationCases | src/app/api/cron/expire-puzzles/route.ts:5-9 | `CronExpire.Authorized`, the secret comparison: a `Bearer` header passes exactly when its token is the secret; a header without the prefix is compared as it stands; no header fails while a secret is set |
| CronExpire.UnsetSecretAdmitsBareRequests | src/app/api/cron/expire-puzzles/route.ts:5-9 | with no secret configured, a request without the header passes and one with it fails |
| CronExpire.ExpireAll | src/app/api/cron/expire-puzzles/route.ts:14-19 | the row-by-row loop leaves exactly the sweep's result, changes no payment, and counts exactly the rows it changed |
| CronExpire.Get | src/app/api/cron/expire-puzzles/route.ts:4-34 | unauthorized gives 401 and no change; otherwise the sweep, and an answer with the number of expired rows and the time |
| Reconciliation.WebhookThenCallback | src/app/api/payment/verify/route.ts:40-66 | webhook then callback: one activation stamped by the webhook, both answer 200 and the callback returns the token |
| Reconciliation.CallbackThenWebhook | src/app/api/payment/callback/route.ts:30-51 | callback then webhook: one activation stamped by the callback, both answer 200 |
| Reconciliation.OneActivationEitherOrder | src/app/api/payment/verify/route.ts:58-66 | two activations for a reference amount to the first, which stamps `paid_at` on every waiting row |
| PuzzleTile.TilePos | src/components/puzzle/PuzzleTile.tsx:34-38 | `row * gridSize + col` gives back the tile index, `col < gridSize`, and `row < gridSize` for an index on the board |
| PuzzleTile.TilePosUnique | src/components/puzzle/PuzzleTile.tsx:35-36 | the mapping is the only row and column in range that recombine to the index |
| PuzzleTile.TilePosInjective | src/components/puzzle/PuzzleTile.tsx:34-38 | distinct tile indices map to distinct cells |
| PuzzleTile.BoardShowsEveryCellOnce | src/components/puzzle/PuzzleBoard.tsx:59-64 | with a permutation tile order, the board shows each cell of the picture at exactly one position |
| PuzzleLocked.GetTimeRemaining | src/components/puzzle/PuzzleLocked.tsx:11-23 | none exactly when the target is reached; otherwise hours < 24, minutes and seconds < 60, and the fields account for the time left to within the last partial second |
| PuzzleLocked.Decomposition | src/components/puzzle/PuzzleLocked.tsx:17-20 | the nested remainders recombine to the time left, with each field below its radix |
| PuzzleLocked.RemainingUnique | src/components/puzzle/PuzzleLocked.tsx:17-20 | any fields within those bounds that account for the time left are the ones computed |
| PuzzleLocked.Units | src/components/puzzle/PuzzleLocked.tsx:42-49 | no units when nothing remains; otherwise four, labelled days, hrs, min, sec, showing exactly the days, hours, minutes and seconds remaining |
| PuzzlePageClient.CountdownClock | src/components/puzzle/PuzzlePageClient.tsx:25-31 | none exactly when the target is reached; otherwise minutes and seconds below 60 and `3600h + 60m + s` equal to the whole seconds left |
| PuzzlePageClient.CountdownReadsBack | src/components/puzzle/PuzzlePageClient.tsx:25-35 | `PuzzlePageClient.FormatCountdown` (`formatCountdown`): the text is null exactly when the target is reached; otherwise it parses back as the clock of the whole seconds left |
| PuzzlePageClient.ClockRoundTrip | src/components/puzzle/PuzzlePageClient.tsx:32-34 | a clock with minutes and seconds below 60 survives formatting and reading back |
| PuzzlePageClient.SubSecondShowsZeros | src/components/puzzle/PuzzlePageClient.tsx:26-34 | 1 to 999 ms left shows `00:00:00`, not null |
| PuzzlePageClient.HoursNotCapped | src/components/puzzle/PuzzlePageClient.tsx:29-34 | 100 hours left shows `100:00:00` |
| PuzzlePageClient.PuzzleView.constructor | src/components/puzzle/PuzzlePageClient.tsx:48-59 | the initial state from the props: the countdown when there is an expiry, and the overlay and the completion flag set exactly for a completed puzzle |
| PuzzlePageClient.PuzzleView.OnSwap | src/components/puzzle/PuzzlePageClient.tsx:176-184 | the board becomes the swap of the two positions, a permutation of the old one; nothing else changes |
| PuzzlePageClient.PuzzleView.OpenEffect | src/components/puzzle/PuzzlePageClient.tsx:72-76 | the open request is sent exactly when the status is active and no attempt is outstanding, and the attempt is then marked |
| PuzzlePageClient.PuzzleView.OpenSucceeded | src/components/puzzle/PuzzlePageClient.tsx:84-90 | the status becomes opened; an expiry in the answer replaces the expiry and restarts the countdown |
| PuzzlePageClient.PuzzleView.OpenFailed | src/components/puzzle/PuzzlePageClient.tsx:77-94 | the attempt flag is cleared and the answer's error, or `Failed to open puzzle`, is shown |
| PuzzlePageClient.PuzzleView.Tick | src/components/puzzle/PuzzlePageClient.tsx:97-108 | while there is an expiry and the board is not disabled (completed or expired), the text is refreshed and the status turns expired exactly when the expiry is reached; otherwise nothing changes; the board ends up disabled exactly when it was or the expiry is reached |
| PuzzlePageClient.PuzzleView.CompletionEffect | src/components/puzzle/PuzzlePageClient.tsx:110-122 | completion fires exactly for a solved board that is not disabled and has no completion recorded; it then records it, sets completed and shows the overlay; the board ends up disabled exactly when it was or completion fired |
| PuzzlePageClient.CompletionFiresOnce | src/components/puzzle/PuzzlePageClient.tsx:110-117 | once the completion has fired, it does not fire again after a further move |
| PuzzlePageClient.LateOpenAnswerCannotRecomplete | src/components/puzzle/PuzzlePageClient.tsx:84-117 | when the open answer arrives after completion, the status returns to opened on a solved, enabled board, and the completion ref alone keeps completion from firing again |

## Left out

- Input and output are outside the model: the database client, storage uploads and signed URLs, the payment provider's HTTP calls, e-mail, logging and the React rendering. Their outcomes are parameters.
- **Database failures** are left out, except for the two modelled as flags: the upsert flag in the webhook and the callback, and the duplicate reference in initialize. The 500 answers of the other failed updates are therefore absent. This covers the creation insert, the reference update in initialize, the activation in the webhook and the cron update.
- The webhook signature (HMAC-SHA512 with a constant-time comparison) is the boolean `signatureValid`; the provider's verify answer is a record, or None when the call fails.
- Concurrency: each handler is one atomic step on the store, and interleavings are whole handlers one after another. The database's row-level atomicity is not modelled.
- Date parsing is an input: `reveal_at` carries the instant it parses to. `setDate(getDate() + 30)` is taken as 30 × 86400000 ms, which ignores daylight-saving shifts.
- Timers are left out: the countdown intervals and the rate-limit sweep are method calls at a given time. The locked page's `window.location.reload` is also left out.
- **Text**:
  - strings are sequences of Unicode scalar values, so `length` counts those rather than UTF-16 code units;
  - `toLowerCase` is modelled on ASCII letters only;
  - `trim` and `\s` use the ECMAScript whitespace set written out in `JsText`.
- CreateRoute.Validate: keys inherited from `Object.prototype` (`constructor`, `toString`, `hasOwnProperty` and the rest) pass the create route's difficulty check as written and lead to an insert with an undefined grid size and price; the handler model refuses them as an invalid difficulty, and `CreateRoute.InheritedKeyPassesDifficultyCheck` records the code as written.
- JSON fields of the wrong type (a number where a string is expected, and the exceptions that follow) are left out; every field is a string or absent.
- Floating point is left out: `formatNaira`, the progress percentage and the canvas rectangle arithmetic of `PuzzleTile`. `Math.floor` of a non-negative quotient is integer division.
- The server-side open, GET and PATCH handlers for a puzzle are not part of this model. Neither are the upload, `mine` and auth routes.
- The solving page's image loading, its error message, the confetti, the PATCH it fires on completion and the overlay's close button are presentation only.
- PuzzlePageClient.PuzzleView.OpenFailed: a network failure, or an unreadable success body, reaches the handler with the runtime's own error message. Only the error field of a failed answer is modelled.
- PuzzleLib.GenerateShuffledOrder: uniformity of the shuffle is not stated. The draws are any indices `j` with `0 <= j <= i`.

## Findings

| source | as written | input that shows it | evidently intended | confidence | as-written member | corrected member |
|---|---|---|---|---|---|---|
| src/app/api/puzzles/route.ts:23 | `DIFFICULTY_CONFIG[difficulty]` is looked up on a plain object, so a key inherited from `Object.prototype` yields a truthy value and passes the check | `difficulty: "constructor"` with the other required fields present | only `easy`, `medium` and `hard` are accepted | not executed | CreateRoute.InheritedKeyPassesDifficultyCheck | CreateRoute.InheritedKeyRejected |
