# gaarijua marketplace core, modelled in Dafny

gaarijua is a Ugandan car rental and sales marketplace (Next.js front end over a Supabase
store, plus Node and Python maintenance scripts). This project models the decision logic of
its core and proves it:

- **Listing visibility** (`ListingVisibility`): which listings are public. A closed listing
  stays visible for a grace window of one day after its close time.
- **Compare tray** (`CompareTray`): the provider that holds up to four cars to compare. Its
  add/remove/clear updaters, the "tray is full" message and the compare link.
- **Realtime lists** (`Realtime`, `CarsList`, `PartsList`): the search/filter predicates and
  the reducer that folds INSERT/UPDATE/DELETE change events into the displayed list.
- **Car detail page** (`CarDetail`): booking-day toggling, price total, booking batches,
  the month window of the calendar, gallery navigation, listing normalisation for the tray,
  the feature list, and "add to compare".
- **Manage ads panel** (`ManageAds`): slug generation, the create payload, the per-listing
  pending edits and the update diff, and the active/closed split.
- **Currency** (`Currency`): currency detection from a record and the formatting fallbacks.
- **Sign-in page** (`SignIn`): the magic-link form's states.
- **Scripts**:
  - the two `.env.local` line parsers (`SeedCars` for the non-overwriting variant,
    `RunSqlFile` for the overwriting one);
  - the database connection string, including `encodeURIComponent` of the credentials;
  - the SQL-file runner's argument loop;
  - the seed transforms (`SeedCars`, `SeedUgListings`, `SeedRentals`);
  - the press-photo URL pickers (`ExtractImagesJs`, `ExtractImagesPy`).

Shared modules: `Wrappers` (Option/Result), `JsText` (JavaScript string operations: ASCII
case mapping, `\s` whitespace and `trim`, `includes`, `split`/`join`, decimal digits),
`JsValues` (loosely typed record values, truthiness, `??`) and `Sequences` (filter,
first-occurrence de-duplication, subsequences, `slice(0, n)`).

JavaScript semantics are written out where they matter:
- `||` and `??` defaulting, and truthiness of strings and numbers;
- `%` truncating toward zero (`CarDetail.JsRem`);
- regular expressions worked out character by character, including backtracking;
- splitting on `/\r?\n/` (`JsText.SplitLines`).

Clocks, random ids, `Date.parse`, `Number()`, `Intl.NumberFormat`, file existence, database
results and authentication responses are parameters of the operations that use them.

## Model

| member | source | states |
|---|---|---|
| ListingVisibility.CloseTime | lib/listing-visibility.ts:11-12 | the close time is a non-empty `closed_at` if there is one, and is never the empty string |
| ListingVisibility.ClosedVisibleIffWithinWindow | lib/listing-visibility.ts:1-15 | a closed listing is visible exactly when its status lower-cases to "closed", its close time parses, and `now` is at most one day (86 400 000 ms) after it |
| ListingVisibility.GraceBoundary | lib/listing-visibility.ts:1-15 | visible exactly 24 h after closing, hidden at 24 h + 1 ms, for both the closed check and public visibility |
| ListingVisibility.VisibilityMonotone | lib/listing-visibility.ts:15 | visibility only goes from true to false as time passes; a close time in the future counts as visible |
| ListingVisibility.MissingOrUnparsableIsHidden | lib/listing-visibility.ts:11-14 | no close time, or an unparsable one, hides the listing |
| ListingVisibility.ClosedAtTakesPrecedence | lib/listing-visibility.ts:11 | when `closed_at` is set and non-empty, `updated_at` has no influence |
| ListingVisibility.OnlyClosedStatusQualifies | lib/listing-visibility.ts:10-26 | without status "closed" (any case), neither the closed check nor the display check holds |
| ListingVisibility.DraftNeverVisible | lib/listing-visibility.ts:19-20 | a "draft" status in any letter case is never public, whatever the timestamps |
| ListingVisibility.OtherStatusesVisible | lib/listing-visibility.ts:19-22 | a missing or empty status (read as "active"), or any status other than draft/closed, is public |
| ListingVisibility.ClosedDefersToGraceWindow | lib/listing-visibility.ts:21 | for a closed listing, public visibility is exactly the grace-window check |
| ListingVisibility.ForDisplayMeansVisible | lib/listing-visibility.ts:25-27 | the for-display check equals the closed check, and implies public visibility |
| CompareTray.Ids | components/CompareTrayProvider.tsx:82 | the id list has one entry per tray item, in tray order |
| CompareTray.AddUpdate | components/CompareTrayProvider.tsx:59-70 | the tray only ever grows at the end, by at most one item; it grows exactly when the id is new and the tray holds fewer than 4, and then by that item |
| CompareTray.RemoveUpdate | components/CompareTrayProvider.tsx:72-74 | no entry with the id is left, every other entry stays with its multiplicity, in its original order |
| CompareTray.CompareTarget | components/CompareTrayProvider.tsx:80-99 | there is no target with fewer than 2 items; otherwise the target is a `/compare?ids=` link |
| CompareTray.AddExistingIsNoOp | components/CompareTrayProvider.tsx:61-63 | adding an id already present changes nothing and does not report a full tray |
| CompareTray.AddToFullIsNoOp | components/CompareTrayProvider.tsx:64-67 | adding to a tray of 4 or more changes nothing; the full message is set exactly when the id is new |
| CompareTray.AddAppends | components/CompareTrayProvider.tsx:68 | a new id on a tray with room is appended after all earlier items |
| CompareTray.AddPreservesInvariant | components/CompareTrayProvider.tsx:59-70 | at most 4 items and distinct ids survive an add; the item's id is present afterwards exactly when the add was not rejected as full |
| CompareTray.RemovePreservesInvariant | components/CompareTrayProvider.tsx:72-74 | at most 4 items and distinct ids survive a removal |
| CompareTray.DistinctIdsSubsequence | components/CompareTrayProvider.tsx:73 | dropping entries from a tray with distinct ids keeps the ids distinct |
| CompareTray.CompareLinkListsIds | components/CompareTrayProvider.tsx:82-83 | the link is `/compare?ids=` and the ids joined by ","; splitting its query on "," gives back the ids in tray order |
| CompareTray.Provider.constructor | components/CompareTrayProvider.tsx:30-31 | the provider starts with an empty tray and no message |
| CompareTray.Provider.RestoreTray | components/CompareTrayProvider.tsx:38-41 | a restored tray is taken as stored, without the cap |
| CompareTray.Provider.AddItem | components/CompareTrayProvider.tsx:59-70 | the new tray is the add update of the old one; the message becomes "Tray is full" exactly when a new id was rejected |
| CompareTray.Provider.RemoveItem | components/CompareTrayProvider.tsx:72-74 | the new tray is the removal update; the message is untouched |
| CompareTray.Provider.ClearTray | components/CompareTrayProvider.tsx:76-78 | the tray becomes empty; the message is untouched |
| CompareTray.Provider.CompareDisabled | components/CompareTrayProvider.tsx:99 | the compare button is disabled exactly when there is no compare target |
| CompareTray.Provider.HandleCompareNow | components/CompareTrayProvider.tsx:80-84 | nothing happens with fewer than 2 items; otherwise it navigates to `/compare?ids=` with the ids in tray order |
| Realtime.ReplaceById | components/CarsList.tsx:99 | the list keeps its length and order, and each entry with the record's id is replaced by it |
| Realtime.RemoveById | components/CarsList.tsx:100-104 | each entry with the id is gone, every other entry stays with its multiplicity and its order, and a list without the id is unchanged |
| Realtime.ReduceMeetsSpecification | components/CarsList.tsx:92-106 | INSERT prepends a matching record, or changes nothing; UPDATE replaces a matching record in place, or removes every entry with its id; DELETE removes every entry with the old id (removals keep the other entries with their multiplicity and order); other events change nothing; a null record whose id is read is an error exactly when the list is non-empty, and an empty list stays empty |
| Realtime.ReplayIsIdempotent | components/CarsList.tsx:97-104 | delivering the same UPDATE or DELETE twice has the effect of delivering it once |
| CarsList.ApplyChange | components/CarsList.tsx:92-106 | the cars reducer, with the cars match predicate, meets the reducer specification |
| CarsList.NullNeverMatches | components/CarsList.tsx:80 | a null record never matches |
| CarsList.MatchNeedsSubstring | components/CarsList.tsx:81-88 | with a non-blank query, a record matches exactly when the lower-cased query occurs in the title or location and the filter accepts it |
| CarsList.BlankQueryMatchesByFilter | components/CarsList.tsx:81-88 | with a blank query only the rent/sale filter decides |
| CarsList.FiltersPartition | components/CarsList.tsx:87-88 | "all" accepts exactly what "rent" or "sale" accepts, and no record passes both |
| CarsList.QueryCaseInsensitive | components/CarsList.tsx:81-82 | lower-casing the query first changes no match |
| CarsList.VerbatimTitleMatches | components/CarsList.tsx:81-86 | a query that occurs in the title matches under filter "all" |
| CarsList.InsertPrependsOnlyMatches | components/CarsList.tsx:93-96 | INSERT puts a matching record at the front and ignores a non-matching one |
| PartsList.ApplyChange | components/PartsList.tsx:71-82 | the parts reducer, with the parts match predicate, meets the reducer specification |
| PartsList.MatchNeedsSubstring | components/PartsList.tsx:60-67 | with a non-blank query, a part matches exactly when it is non-null and the lower-cased query occurs in its title or category |
| PartsList.BlankQueryMatchesAll | components/PartsList.tsx:62-68 | with a blank query every non-null part matches |
| PartsList.QueryCaseInsensitive | components/PartsList.tsx:61-63 | lower-casing the query first changes no match |
| PartsList.DeleteDropsId | components/PartsList.tsx:80 | DELETE keeps exactly the parts whose id differs from the deleted one |
| CarDetail.CountSelectionBatches | components/CarDetailLayout.tsx:489-501 | the loop counts the batches: 0 for no days, else 1 plus the gaps of more than one day |
| CarDetail.BreaksBound | components/CarDetailLayout.tsx:491-499 | a non-empty selection has fewer gaps than days |
| CarDetail.BatchCountAtMostDays | components/CarDetailLayout.tsx:489-501 | never more batches than days, and at least one for a non-empty selection |
| CarDetail.ConsecutiveHasNoBreaks | components/CarDetailLayout.tsx:495-496 | consecutive days contain no gap |
| CarDetail.ConsecutiveIsOneBatch | components/CarDetailLayout.tsx:489-501 | a run of consecutive days is one batch |
| CarDetail.SeparatedRunsAdd | components/CarDetailLayout.tsx:489-501 | two runs separated by more than a day count as the sum of their batches |
| CarDetail.ToggleDay | components/CarDetailLayout.tsx:79-88 | a disabled day changes nothing; otherwise a new day is appended at the end, a selected one is removed keeping the rest in order, and every other day keeps its count |
| CarDetail.ToggleKeepsDistinct | components/CarDetailLayout.tsx:83-86 | the selection never gains a duplicate |
| CarDetail.ToggleTwiceRestores | components/CarDetailLayout.tsx:83-86 | clicking an unselected day twice restores the selection exactly |
| CarDetail.ToggleChangesTotalByOneNight | components/CarDetailLayout.tsx:63-88 | each click moves the total by exactly one day's price, up or down |
| CarDetail.JsRem | components/CarDetailLayout.tsx:132-139 | JavaScript remainder: strictly between -n and n, equal to the mathematical remainder for a non-negative dividend |
| CarDetail.GalleryImages | components/CarDetailLayout.tsx:51 | the gallery is never empty, and is the listing's own images when it has any |
| CarDetail.GalleryStaysInRange | components/CarDetailLayout.tsx:132-139 | previous and next stay within the gallery, and each undoes the other |
| CarDetail.WrapOnce | components/CarDetailLayout.tsx:139 | `(i + 1) % n` wraps past the end back to 0 |
| CarDetail.MonthChangeStaysInWindow | components/CarDetailLayout.tsx:56-100 | a month step is taken only if it stays within the earliest month and 5 months after; otherwise the month is kept |
| CarDetail.ArrowsMatchMonthChange | components/CarDetailLayout.tsx:439-445 | the previous/next arrows are enabled exactly when pressing them changes the month |
| CarDetail.ShortTitle | components/CarDetailLayout.tsx:394 | titles of at most 15 characters are kept; longer ones become their first 15 characters and "…" |
| CarDetail.DisplayTitle | components/CarDetailLayout.tsx:390 | the display title is never empty |
| CarDetail.NormalizedIdentity | components/CarDetailLayout.tsx:383-399 | the tray id is the listing id, else its slug, else the fresh id; the slug falls back to the id |
| CarDetail.NormalizedTitle | components/CarDetailLayout.tsx:390-394 | the title is the listing title; else, for an untitled listing with a brand not starting and a model not ending in a space, "brand model"; else, with no brand and no model, "Rental"; it is never empty and the short title is derived from it |
| CarDetail.FeatureCandidates | components/CarDetailLayout.tsx:401-409 | the candidate list always ends with the three fixed features |
| CarDetail.BuildFeatures | components/CarDetailLayout.tsx:401-409 | the pushed features are the candidates with later repeats removed |
| CarDetail.FeaturesDistinctAndComplete | components/CarDetailLayout.tsx:408-409 | the features have no duplicates, lose no candidate, and always include the fixed features |
| CarDetail.FeaturesInFirstOccurrenceOrder | components/CarDetailLayout.tsx:408-409 | the features keep first-occurrence order: the deduplicated first k candidates, which hold exactly those candidates, are a prefix of the features for every k; distinct candidates come through unchanged |
| CarDetail.AddToTray | components/CarDetailLayout.tsx:68-77 | the tray receives the current listing and then the normalised compared listing, each by the provider's add; the "tray is full" message is set exactly when one of the two adds is refused for lack of room |
| CarDetail.CurrentQueuedBeforeCompared | components/CarDetailLayout.tsx:71-74 | with room for both and neither present, the current listing lands before the compared one |
| CarDetail.AddToTrayPreservesInvariant | components/CarDetailLayout.tsx:68-77 | "add to compare" keeps the tray at most 4 items with distinct ids |
| ManageAds.DropLeadingDashes | components/ManageAdsPanel.tsx:62 | the result is a suffix of the input, everything removed in front of it is "-", and it does not start with "-" |
| ManageAds.DropTrailingDashes | components/ManageAdsPanel.tsx:62 | the result is a prefix of the input, everything removed after it is "-", and it does not end with "-" |
| ManageAds.LastFour | components/ManageAdsPanel.tsx:63 | `slice(-4)` is the last 4 characters, or all of a shorter string |
| ManageAds.CollapseRunsShape | components/ManageAdsPanel.tsx:61 | after replacing runs of disallowed characters, no two "-" are adjacent |
| ManageAds.SlugBodyWellFormed | components/ManageAdsPanel.tsx:58-62 | the slug body has only `[a-z0-9-]`, no leading or trailing "-", and no "--" |
| ManageAds.DashesTrimmed | components/ManageAdsPanel.tsx:62 | text with only `[a-z0-9-]` and no "--" keeps both properties once its dashes are cut from both ends, and then neither starts nor ends with "-" |
| ManageAds.SlugShape | components/ManageAdsPanel.tsx:58-63 | the slug is the body, "-", and the last digits of the clock (4 of them once it is at least 1000) |
| ManageAds.CollapseRunsOfCollapsed | components/ManageAdsPanel.tsx:61 | collapsing an already collapsed string changes nothing |
| ManageAds.SlugBodyIdempotent | components/ManageAdsPanel.tsx:58-62 | slugifying a slug body gives it back |
| ManageAds.NoAlphanumericGivesBareSuffix | components/ManageAdsPanel.tsx:58-63 | a title without letters or digits slugs to just "-" and the clock digits |
| ManageAds.NoAlphanumericCollapses | components/ManageAdsPanel.tsx:61 | a string with no allowed character collapses to "" or one "-" |
| ManageAds.ListingSlug | components/ManageAdsPanel.tsx:174 | the fallback word "listing" is its own slug body, so its slug is "listing-" and the clock digits |
| ManageAds.CreateSlug | components/ManageAdsPanel.tsx:174 | an empty title gives "listing-" and the clock digits; any other title gives its own slug body, which is well formed, "-" and the clock digits |
| ManageAds.TrimmedOrNull | components/ManageAdsPanel.tsx:169-170 | a field is its trimmed text, or null exactly when that is empty |
| ManageAds.TruthyNumber | components/ManageAdsPanel.tsx:178-179 | `Number(price) \|\| null` keeps a non-zero number and maps 0 and NaN to null |
| ManageAds.CreatePayloadPrice | components/ManageAdsPanel.tsx:177-179 | `is_for_rent` iff type rent; at most one price column is set, the one the type selects; 0 or NaN gives no price |
| ManageAds.CreatePayloadDefaults | components/ManageAdsPanel.tsx:168-176 | an empty location becomes "Kampala, Uganda"; brand and model are trimmed or null; the title is trimmed |
| ManageAds.CreatePayloadSlug | components/ManageAdsPanel.tsx:174 | the create payload's slug is the one chosen from the form's title: "listing-" and the clock digits for an empty title, otherwise the title's own well-formed body, "-" and the clock digits |
| ManageAds.PriceValue | components/ManageAdsPanel.tsx:216-221 | a pending price becomes null exactly when it does not parse |
| ManageAds.UpdatesPayload | components/ManageAdsPanel.tsx:208-222 | description present iff edited (empty gives null, else trimmed); status present iff it differs; the price goes to `price_per_day` for rentals and `price_buy` otherwise |
| ManageAds.BuildUpdatesPayload | components/ManageAdsPanel.tsx:208-222 | the field-by-field build yields that payload |
| ManageAds.SameStatusIsNoUpdate | components/ManageAdsPanel.tsx:212-214 | re-selecting the current status produces an empty payload |
| ManageAds.ManageAdsPanel.constructor | components/ManageAdsPanel.tsx:71-75 | the panel starts with no listings, no pending edits and no message |
| ManageAds.ManageAdsPanel.EditStatus | components/ManageAdsPanel.tsx:475-479 | only that listing's pending status changes |
| ManageAds.ManageAdsPanel.EditPrice | components/ManageAdsPanel.tsx:495-499 | only that listing's pending price changes |
| ManageAds.ManageAdsPanel.EditDescription | components/ManageAdsPanel.tsx:509-513 | only that listing's pending description changes |
| ManageAds.ManageAdsPanel.HandleListingUpdate | components/ManageAdsPanel.tsx:200-241 | signed out: nothing; no pending entry: "No changes detected."; empty diff: "No updates to save."; otherwise writes exactly the diff, and on success removes only that listing's pending entry and reports success, on failure keeps it and reports the error |
| ManageAds.ManageAdsPanel.ActiveListings | components/ManageAdsPanel.tsx:135-138 | the active list holds exactly the listings not closed |
| ManageAds.ManageAdsPanel.ClosedListings | components/ManageAdsPanel.tsx:139-142 | the closed list holds exactly the closed listings |
| ManageAds.ActiveClosedPartition | components/ManageAdsPanel.tsx:135-142 | active and closed together are a permutation of the listings, and each keeps the original order |
| Currency.DetectCurrencyFromRecord | lib/currency.ts:22-28 | the loop returns what the first-hit specification gives |
| Currency.DetectFindsFirstHit | lib/currency.ts:22-28 | none for a null record or when no key is truthy; otherwise the upper-cased value of the first truthy key in list order |
| Currency.DetectNoneIffNoHit | lib/currency.ts:22-28 | no currency is detected exactly when the record is null or none of the keys is present with a truthy value |
| Currency.DetectIndex | lib/currency.ts:24-26 | a detected currency comes from some key that is present and truthy, no earlier key is, and the result is that value as a string, upper-cased |
| Currency.DetectIsUpperCase | lib/currency.ts:25 | a detected code is already upper case |
| Currency.EarlyReturns | lib/currency.ts:2-4 | no value or "" formats to ""; a string that does not parse is returned as given |
| Currency.StringFormatsLikeNumber | lib/currency.ts:3-5 | a numeric string formats like its number |
| Currency.CurrencyDefaultsAndCase | lib/currency.ts:6 | the currency is case-insensitive, and a missing or empty one means UGX |
| Currency.FallbackShapes | lib/currency.ts:14-18 | without Intl: "UGX n", "$n" for USD, otherwise "CODE n"; the amount always ends the text |
| Currency.FormattedByRequest | lib/currency.ts:8-13 | when Intl succeeds its text is the result, for a request with the chosen currency and amount, locale en-UG and no decimals exactly for UGX |
| SignIn.StatusCopy | app/auth/sign-in/page.tsx:39-50 | idle shows nothing, sending a fixed text, sent and error the feedback |
| SignIn.CanSubmitIffHasAt | app/auth/sign-in/page.tsx:14 | the form can be submitted exactly when the email contains "@" |
| SignIn.SignInPage.constructor | app/auth/sign-in/page.tsx:10-12 | the page starts idle, with an empty email and no feedback |
| SignIn.SignInPage.SetEmail | app/auth/sign-in/page.tsx:75 | typing changes only the email |
| SignIn.SignInPage.BeginSubmit | app/auth/sign-in/page.tsx:16-20 | an invalid email changes nothing; a valid one is submitted, status becomes sending, feedback is cleared and the button is disabled |
| SignIn.SignInPage.CompleteSubmit | app/auth/sign-in/page.tsx:28-36 | an error sets status error and its message and keeps the email; success sets status sent, feedback naming the email, and clears the email, so the form cannot be submitted and the button is disabled |
| JsText.SplitLinesJoin | scripts/seed-cars.js:10 | lines without line feeds (and without a CR ending any but the last) joined with "\n" split back into exactly those lines |
| JsText.IncludesAt | extract_images.js:8-12 | `includes` holds exactly when the needle occurs at some index of the text, so the empty needle is in every string |
| SeedCars.StripQuotes | scripts/seed-cars.js:13-16 | a value both starting and ending with the same quote loses one character at each end; any other value is kept |
| SeedCars.SplitKey | scripts/seed-cars.js:11 | the key is a non-empty run of `[A-Za-z0-9_]` after leading spaces, taken greedily; no key iff the line is blank or starts with another character |
| SeedCars.ValueToEnd | scripts/seed-cars.js:11 | the captured value is the remainder up to its first line terminator (the whole remainder when it has none, which always matches) |
| SeedCars.LoadEnv | scripts/seed-cars.js:5-20 | the loop over the lines gives the environment the line-by-line definition gives |
| SeedCars.ParsedKeyIsWord | scripts/seed-cars.js:11-12 | a parsed key is non-empty and made of `[A-Za-z0-9_]` |
| SeedCars.NonKeyStartSkipped | scripts/seed-cars.js:11-12 | a blank line, or one starting with a non-key character, is skipped |
| SeedCars.PlainAssignmentMatches | scripts/seed-cars.js:11 | `KEY=value`, with any spaces before the key and around "=", yields that key and the whole value |
| SeedCars.PlainAssignmentParses | scripts/seed-cars.js:11-16 | an unquoted `KEY=value`, with any spaces before the key and around "=", sets that key to that value |
| SeedCars.QuotedAssignmentParses | scripts/seed-cars.js:11-16 | `KEY="inner"` or `KEY='inner'`, with any spaces before the key and around "=", sets the key to the inner text |
| SeedCars.NoEqualsSkipped | scripts/seed-cars.js:11-12 | a line without "=" is skipped |
| SeedCars.NeverOverwrites | scripts/seed-cars.js:17-19 | a variable already set to a non-empty value keeps it |
| SeedCars.LoadOnlyAdds | scripts/seed-cars.js:10-19 | no variable disappears, and each new one comes from a line that parses to that key |
| SeedCars.NormalizeRow | scripts/seed-cars.js:273-277 | the row gains both price columns and keeps every other field |
| SeedCars.NormalizeRows | scripts/seed-cars.js:273 | one row per listing, in order |
| SeedCars.NormalizedPrices | scripts/seed-cars.js:275-276 | rentals get `price_buy` null and keep `price_per_day`; sales get `price_per_day` null and a defined `price_buy` that is the listing's own when present |
| RunSqlFile.MatchValue | scripts/run-sql-file.js:14-15 | a `"…"` or `'…'` value gives its inner text; otherwise the raw value, if it has no line terminator |
| RunSqlFile.SplitAtEquals | scripts/run-sql-file.js:14 | the line splits at its first "=" with a non-empty part before it; no split iff there is no "=" or the line starts with one |
| RunSqlFile.LoadEnv | scripts/run-sql-file.js:5-20 | the loop over the lines gives the environment the line-by-line definition gives |
| RunSqlFile.CommentsAndBlanksSkipped | scripts/run-sql-file.js:13 | blank lines and lines whose trimmed form starts with "#" are skipped |
| RunSqlFile.NoKeySkipped | scripts/run-sql-file.js:14-16 | a line without "=" or starting with "=" is skipped |
| RunSqlFile.ParsedKeyIsTrimmedPrefix | scripts/run-sql-file.js:14-17 | a parsed key is the trimmed text before the first "=" |
| RunSqlFile.QuotedValueParses | scripts/run-sql-file.js:14-18 | `KEY = "inner"` or `KEY = 'inner'` sets the trimmed key to the inner text |
| RunSqlFile.RawValueParses | scripts/run-sql-file.js:14-18 | `KEY = value` sets the trimmed key to the value as written |
| RunSqlFile.ParsedLineOverwrites | scripts/run-sql-file.js:18 | a parsed line always sets its key, whatever was there |
| RunSqlFile.OtherKeysUntouched | scripts/run-sql-file.js:10-19 | lines that do not define a key leave it as it was |
| RunSqlFile.LastDefinitionWins | scripts/run-sql-file.js:10-19 | a key ends with the value of its last definition |
| RunSqlFile.ApplyLinesAppend | scripts/run-sql-file.js:12 | loading two blocks of lines is loading the first and then the second |
| RunSqlFile.HexRoundTrip | scripts/run-sql-file.js:40 | each upper-case hex digit reads back as its value |
| RunSqlFile.Utf8Bytes | scripts/run-sql-file.js:40 | a character is 1 to 4 bytes; ASCII is its own byte, and other characters use only high bytes |
| RunSqlFile.PercentBytes | scripts/run-sql-file.js:40 | each byte becomes "%" and two upper-case hex digits |
| RunSqlFile.EncodeChar | scripts/run-sql-file.js:40 | an unreserved character is kept; every output character is unreserved, "%" or a hex digit |
| RunSqlFile.EncodeURIComponent | scripts/run-sql-file.js:40 | the encoded text has no ":", "@" or "/" |
| RunSqlFile.EncodeUnreservedIsIdentity | scripts/run-sql-file.js:40 | text made of unreserved characters is unchanged |
| RunSqlFile.EncodeAppend | scripts/run-sql-file.js:40 | encoding works character by character |
| RunSqlFile.DecodeEncodedChar | scripts/run-sql-file.js:40 | decoding an encoded ASCII character gives it back |
| RunSqlFile.EncodeAsciiRoundTrip | scripts/run-sql-file.js:40 | decoding recovers ASCII credentials exactly |
| RunSqlFile.FirstTruthyIsFirst | scripts/run-sql-file.js:23-28 | a candidate is found iff some name in the chain is set and non-empty, and it is the first such one |
| RunSqlFile.CandidateUsed | scripts/run-sql-file.js:29-31 | a found candidate other than "postgres" is the connection string |
| RunSqlFile.MissingCredentialsAbort | scripts/run-sql-file.js:32-39 | with no usable candidate and no host or password, the script aborts with its message |
| RunSqlFile.FallbackAssembled | scripts/run-sql-file.js:32-40 | otherwise the URL is built from the variables, with user and database defaulting to "postgres" |
| RunSqlFile.UrlSeparatesCredentials | scripts/run-sql-file.js:40 | in the URL, the first ":" after the scheme ends the user and the next "@" ends the password |
| RunSqlFile.FallbackUrlSeparatesCredentials | scripts/run-sql-file.js:40 | thanks to the encoding, any user and password are read back from the URL at the right delimiters |
| RunSqlFile.RunSqlFileResult | scripts/run-sql-file.js:43-63 | a file finishes exactly when it exists, a connection string is found and the query succeeds |
| RunSqlFile.RunSqlFiles | scripts/run-sql-file.js:65-75 | no arguments gives the usage message; otherwise the files run in order until the first failure, which stops the run with that file and reason, and all run when all finish |
| SeedUgListings.ListingTitle | scripts/seed-ug-listings.js:341 | the title starts with make, " ", model, " ", ends with the year, and is exactly that long, so it is `make model year` |
| SeedUgListings.TransformListing | scripts/seed-ug-listings.js:337-351 | the title is the listing title; rent iff type "rent"; exactly the selected price column holds the price; slug is the id; `created_at` is the shared time; description, location and year are copied; images hold the URL exactly when it is non-empty |
| SeedUgListings.TransformListings | scripts/seed-ug-listings.js:337 | one row per listing, in order |
| SeedUgListings.ExactlyOnePrice | scripts/seed-ug-listings.js:343-344 | every row has exactly one price column set |
| SeedUgListings.SharedTimestampAndSlugs | scripts/seed-ug-listings.js:335-349 | all rows share `created_at`, and the slugs are the ids in order |
| SeedUgListings.DistinctIdsGiveDistinctSlugs | scripts/seed-ug-listings.js:340 | distinct ids give distinct slugs |
| SeedRentals.Projection | scripts/seed-rentals.js:104-109 | a key is present iff it is allowed and defined in the listing, with the listing's value |
| SeedRentals.Simplify | scripts/seed-rentals.js:106-108 | the key-by-key copy yields that projection |
| SeedRentals.ProjectionUnique | scripts/seed-rentals.js:107 | the projection is the only record with those keys and values |
| SeedRentals.SimplifyRows | scripts/seed-rentals.js:105 | one projected row per listing, in order |
| SeedRentals.UnlistedFieldsDropped | scripts/seed-rentals.js:45-104 | `type`, `promoted` and `created_at` never reach the fallback rows |
| SeedRentals.ProjectionIdempotent | scripts/seed-rentals.js:104-109 | projecting twice is projecting once, and no key is invented |
| ExtractImagesJs.SelectCarImages | extract_images.js:5-20 | the press photos are the first 5 distinct qualifying URLs; the fallback list is a first-seen prefix of the distinct URLs, all of them when no press photo was found; the output is the selection |
| ExtractImagesJs.SelectionBounded | extract_images.js:16-20 | the output has at most 20 URLs, no duplicates, and only input URLs |
| ExtractImagesJs.TakeKeepsDistinct | extract_images.js:20 | a slice of a duplicate-free list is duplicate-free |
| ExtractImagesJs.PressPhotosPreferred | extract_images.js:9-20 | when any URL qualifies, the output is 1 to 5 qualifying URLs in first-seen order |
| ExtractImagesJs.FallbackWhenNoPressPhotos | extract_images.js:8-20 | with no qualifying URL, the output is the first 20 distinct URLs |
| ExtractImagesPy.SelectSeen | extract_images.py:5-12 | `seen` is the first 10 distinct press-host URLs, and exactly those are printed |
| ExtractImagesPy.SeenProperties | extract_images.py:7-12 | at most 10 URLs, no duplicates, each from a press host, in input order |

## Left out

- Network and I/O: all Supabase traffic, realtime subscriptions, storage upload, `pg` queries, `https.get`, file reads, `process.exit` and console output. Their results enter as parameters (`writeError`, `authError`, `fileExists`, `queryOk`).
- The `fs.existsSync(.env.local)` check and the surrounding `try/catch` of both env loaders: file access, so the loaders start from the file's text.
- Timers and browser state: debounce, message expiry, sessionStorage persistence of the tray, `router.push`, scroll listeners, and the `fetchAds` refresh after a save.
- Query builders and server-side search (`fetchFiltered`, CarsExplorer, PartsExplorer): they live in the store's client library.
- The similar-rentals and recommended-sales ranking: it is computed in a page loader that is not part of this model.
- Locale and Date APIs: `Intl.NumberFormat` is an abstract parameter, `Date.parse` an `Option<int>` parameter, and month arithmetic and calendars use integer days and months.
- CarDetail.CountSelectionBatches: works on day numbers, so a 25 h day of a daylight-saving change, where the source's `diff > 1` check on fractional days invents a gap between consecutive days, is not modelled. A 23 h day keeps consecutive days together, and a real gap of two or more days is always counted.
- CarDetail.CountSelectionBatches: the caller's sort of the selected ISO dates (components/CarDetailLayout.tsx:60) is not modelled; the days are taken in the given order.
- ManageAds.ManageAdsPanel.HandleListingUpdate: the save is one atomic step. The source awaits the write and then drops the listing's pending edits with a functional `setUpdates` updater (components/ManageAdsPanel.tsx:229-239), so edits to other listings made during the await survive; the model has no interleaving.
- Floating-point numbers: prices and amounts are integers, ratings are tenths, and `Number()` is an abstract parser returning a number or NaN. No IEEE rounding.
- Non-determinism: `crypto.randomUUID`, `Date.now` and `new Date().toISOString()` are parameters (`freshId`, `nowMs`, `now`).
- Case mapping: `toLowerCase`/`toUpperCase` are ASCII only. Non-ASCII letters are left as they are.
- CarDetail.ShortTitle: counts Unicode scalar values, not UTF-16 code units, so titles with characters outside the Basic Multilingual Plane are cut differently.
- RunSqlFile.EncodeURIComponent: characters are Unicode scalar values, so the `URIError` for a lone surrogate cannot arise.
- RunSqlFile.DecodeAscii: decodes one-byte escapes only, so its round trip covers ASCII credentials.
- SeedRentals.Projection: a map, so the key order of the JavaScript object is not modelled.
- Regex extraction of image URLs from the HTML file: the URL list is an input. The `console.log` loop of extract_images.js is output only.
- The other copies of the two env parsers in the remaining scripts, and the connection fallbacks of list-tables.js and run-sql.js: the logic is the same as the two modelled copies, with other name orders.
- The `NODE_TLS_REJECT_UNAUTHORIZED` assignment in run-sql-file.js: an environment write with no effect on the modelled logic.
- Pure rendering components, app pages and layout, eslint configuration and the static seed data arrays: no logic beyond labels.
- Record fields that no modelled operation reads are not part of the record types.
- Array- and object-valued fields of the seed rows (the `images` arrays of scripts/seed-rentals.js and whatever the `...listing` spread of scripts/seed-cars.js copies) are not values of the `Value` type: the projections and the spread are modelled over the scalar fields only.
