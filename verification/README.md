# Mood2Movie watchlist and search model

Mood2Movie is a browser page. A free-text mood is sent to an AI model, which
answers with a list of film titles. The first eight titles are looked up on
OMDb, and the films found are shown as cards ranked by a "value" score. That
score is the IMDb rating per hundred minutes of runtime. A film can be added to
a watchlist kept in the browser's local storage. The watchlist dropdown shows
the total runtime and the films in score order. The optimizer panel shows the
films in the stored order, flags the ones that overflow a time budget, and lets
the user drag them into a new order that is then stored.

The model is written in Dafny, one module per concern:

- `Js` (js.dfy): the JavaScript string and number primitives the page relies
  on. These are `trim` with ECMA-262 white space, `parseInt` (decimal and
  `0x` hex), `parseFloat` (decimal with fraction and exponent), the `/\d+/`
  match, and `%` on integers (truncating).
- `Ranking` (ranking.dfy): the score comparator, as `parseFloat(rating) || 0`
  over `parseInt(runtime) || 120` per hundred minutes, with 0 for a
  non-positive runtime. `Array.prototype.sort` with that comparator is
  modelled as a stable descending sort.
- `Watchlist` (watchlist.dfy): the stored records, and `WatchlistStore`, a
  class whose field is the value under the `watchlist` key. It has add, remove
  and store-in-order, plus the dropdown panel (total runtime and ranked list).
- `Optimizer` (optimizer.dfy): the budget reading of a runtime (first digit
  run, else 120). It covers `renderOptimizerList`'s running totals and
  "May Drop" flags, and the Optimize button handler.
- `DragReorder` (drag.dfy): the optimizer list as the page's DOM list. It has
  `getDragAfterElement`, and `dragstart`/`dragover`/`dragend` as methods of the
  `OptimizerList` class, whose rows are element handles.
- `Suggestions` (suggestions.dfy): the parsing of the AI reply into titles.
  This is the numbering strip, newline-to-comma, split, trim and filter, plus
  the error messages.
- `Search` (search.dfy): `searchMovies` and `displayResults` of
  dynamicRendering.js. This covers the blank-query prompt, the at-most-eight
  lookups, the in-place sort of the found films and the `'N/A'` normalisation
  of a card.

The network, the clock and DOM markup are not modelled. The AI reply and each
OMDb lookup are inputs: a `Reply` value and a function from title to an
optional film. The local storage entry is a field that the mutating methods
reassign.

## Model

| member | source | states |
|---|---|---|
| Js.TrimStart | script.js:123-126 | the result is no longer than the input; everything cut from the front is white space; the result does not start with white space |
| Js.TrimStartIsSuffix | script.js:123 | what TrimStart keeps is the tail of its input |
| Js.TrimEnd | dynamicRendering.js:3 | the result is no longer than the input; everything cut from the back is white space; the result does not end with white space |
| Js.TrimEndIsPrefix | dynamicRendering.js:3 | what TrimEnd keeps is the head of its input |
| Js.Trim | dynamicRendering.js:3 | the result has no white space at either end, and is empty exactly when the input is all white space; that it is the input with the white space at both ends cut is Js.TrimCutsOnlySpace |
| Js.TrimCutsOnlySpace | dynamicRendering.js:3 | trim keeps one contiguous stretch of the input, and everything it cuts before and after that stretch is white space |
| Js.TrimBothEnds | dynamicRendering.js:3 | trimming the front then the back gives a trimmed text, empty exactly when the input is all white space |
| Js.TrimmedIsFixed | script.js:56 | trimming an already trimmed text changes nothing |
| Js.TrimSkipsLeadingSpace | script.js:52 | leading white space does not change the trimmed text |
| Js.TrimStartSkipsSpace | script.js:123 | leading white space in front of a text that starts with a non-space is dropped exactly |
| Js.DigitPrefix | script.js:125 | the length of the longest run of digits at the front: all of it digits, and the next character (if any) not a digit |
| Js.HexPrefix | script.js:125 | the longest run of hex digits at the front, and the next character not a hex digit |
| Js.AfterSign | script.js:123 | drops at most one character, and drops one exactly when the text starts with '+' or '-' |
| Js.AfterSignIsTail | script.js:123 | what is left after the sign is the tail of the text |
| Js.NotANumber | script.js:123-126 | text (or the empty text) starting with neither white space, a sign, a dot nor a digit is NaN to the model's parsers (the page's parseFloat also reads `Infinity`; see Js.ParseFloat under Left out) |
| Js.ParseInt | script.js:125 | no contract of its own; Js.ParseIntNeedsDigit, Js.LeadingNumeralParsesToItsValue and Js.NotANumber state what it reads |
| Js.ParseIntNeedsDigit | script.js:125 | parseInt gives a number only when the text holds a digit, and a negative one only when it holds a '-' |
| Js.UnsignedInt | script.js:125 | a number is read after the sign only when the text there starts with a digit |
| Js.SignedPartIsSuffix | script.js:123-125 | what the parsers read after the white space and the sign is the tail of the text, and a negative sign is a '-' in the text |
| Js.LeadingNumeralParsesToItsValue | script.js:125 | parseInt of a decimal numeral followed by a non-digit is the numeral's value (unless it is a 0x prefix) |
| Js.DigitPrefixOfNumeral | script.js:125 | the digit run at the front of a numeral followed by a non-digit is exactly the numeral |
| Js.ParseFloat | script.js:308 | parseFloat is NaN exactly when, after white space and a sign, the text starts with neither a digit nor a dot followed by a digit |
| Js.UnsignedDecimal | script.js:308 | an unsigned decimal is absent exactly when the text starts with neither a digit nor a dot followed by a digit |
| Js.DecimalParsesToItsValue | script.js:123 | parseFloat of whole.frac is whole + frac / 10^len(frac) |
| Js.ZeroFractionParsesToWhole | script.js:123 | parseFloat of a numeral, a dot and a fraction worth zero is the numeral's value |
| Js.UnsignedDecimalOfLiteral | script.js:123 | an unsigned whole.frac literal reads as whole + frac / 10^len(frac) |
| Js.JsRemainder | script.js:117 | JavaScript's %: the result has the sign of the dividend, lies within the divisor, and completes the truncated division |
| Js.FirstDigitIndex | script.js:169 | the index of the first digit: no digit before it, a digit at it unless there is none |
| Js.MatchDigits | script.js:169 | /\d+/ fails exactly when the text has no digit; when it matches, the match is a non-empty run of digits |
| Js.MatchDigitsFindsFirstRun | script.js:169 | the match is the first maximal run of digits, wherever it stands |
| Ranking.RatingValue | script.js:123-124 | parseFloat(rating) or 0: 0 exactly when parseFloat gives NaN or 0, the parsed value otherwise |
| Ranking.RankingRuntime | script.js:125-126 | parseInt(runtime) or 120: 120 when parseInt gives NaN and when it gives 0, the parsed value otherwise, never 0 |
| Ranking.Ratio | script.js:127-128 | 0 for a non-positive runtime and for a zero rating; its meaning as rating per hundred minutes is Ranking.RatioIsPerHundredMinutes |
| Ranking.RatioIsPerHundredMinutes | script.js:127-128 | for a positive runtime, score times runtime is rating times 100 |
| Ranking.ValueRatio | script.js:122-129 | a rating that parseFloat cannot read scores 0, and a runtime that parseInt cannot read scores as 120 minutes |
| Ranking.RatioByCrossProduct | script.js:127-129 | a non-positive runtime scores 0; with positive runtimes, scores compare as rating x other runtime, with no division |
| Ranking.CrossMultiply | script.js:127-128 | rating/(runtime/100) comparisons equal cross-multiplied comparisons for positive runtimes |
| Ranking.InsertMembers | script.js:122-130 | inserting one element adds exactly that element |
| Ranking.InsertKeepsOrder | script.js:122-130 | inserting into a descending sequence keeps it descending |
| Ranking.SortDesc | script.js:122-130 | no contract of its own; Ranking.SortDescIsOrderedPermutation, Ranking.SortDescIsStable and Ranking.StableOrderIsUnique show it is the stable descending sort by score |
| Ranking.SortDescIsOrderedPermutation | script.js:122-130 | the sort's output is descending by score and a permutation of its input |
| Ranking.InsertWithKey | script.js:122-130 | insertion puts the new element ahead of all elements with the same score |
| Ranking.SortDescIsStable | script.js:122-130 | elements of equal score keep their input order |
| Ranking.TiedPairStays | script.js:122-130 | two elements of equal score keep their order |
| Ranking.HeadHasLargestKey | script.js:122-130 | in a descending sequence the first element has the largest score |
| Ranking.StableOrderIsUnique | script.js:122-130 | two descending sequences with the same equal-score runs are equal, so the stable order is unique |
| Ranking.SortDescIsIdempotent | script.js:122-130 | sorting an already ranked list does not change it |
| Watchlist.Ids | script.js:84 | the ids of the records, one per record, in order |
| Watchlist.Find | script.js:84 | find fails exactly when no record has the id; otherwise it returns a stored record with that id, the first one by Watchlist.FindIsFirst |
| Watchlist.FindIsFirst | script.js:84 | find returns the record at the first position holding the id |
| Watchlist.WithoutId | script.js:96 | the filter keeps exactly the records whose id differs |
| Watchlist.Reorder | script.js:222 | mapping an id order back to records yields only stored records |
| Watchlist.WithoutIdDistributes | script.js:96 | filtering distributes over concatenation, so kept records keep their order |
| Watchlist.WithoutAbsentId | script.js:94-97 | removing an id that is not stored leaves the list equal |
| Watchlist.RemoveUndoesAdd | script.js:82-97 | removing the id just added restores the list before the add |
| Watchlist.WithoutIdKeepsUnique | script.js:96 | removal keeps ids unique |
| Watchlist.AppendKeepsUnique | script.js:84-85 | appending a record with a new id keeps ids unique |
| Watchlist.ReorderFollowsOrder | script.js:222 | the stored ids after a reorder are the new order with unknown ids dropped |
| Watchlist.KnownIdsOfKnownOrder | script.js:222 | an order made only of stored ids loses nothing |
| Watchlist.ItemCount | script.js:222 | with unique ids, each record occurs as often as its id |
| Watchlist.ReorderCount | script.js:222 | with unique ids, a reorder holds each record as often as the order names its id |
| Watchlist.ReorderIsPermutation | script.js:216-223 | when the new order is a permutation of the stored ids, the stored ids become exactly that order and the records are permuted |
| Watchlist.WatchlistStore.constructor | script.js:80 | the store starts with the given saved value (absent or a list) |
| Watchlist.WatchlistStore.Current | script.js:79-81 | an absent value reads as the empty watchlist; a saved value reads as itself |
| Watchlist.WatchlistStore.Add | script.js:82-92 | true exactly when the id is new; then the record is appended and saved; otherwise nothing changes; the id is stored afterwards and uniqueness is kept |
| Watchlist.WatchlistStore.Remove | script.js:94-100 | the saved list is the old one with every record of that id filtered out; absent ids change nothing; uniqueness is kept |
| Watchlist.WatchlistStore.SaveOrder | script.js:221-223 | the saved list is the new order mapped to records, unknown ids dropped |
| Watchlist.WatchlistStore.Panel | script.js:102-147 | "No items" exactly for an empty list; otherwise the count, the parseInt-or-0 total, hours and minutes as floor and %, and the ranked order, without writing storage |
| Watchlist.PanelMinutes | script.js:113 | parseInt(runtime) or 0: 0 exactly when parseInt gives NaN or 0, the parsed value otherwise |
| Watchlist.TotalMinutes | script.js:111-115 | the loop's total is the sum of parseInt-or-0 over the list (PanelTotal) |
| Watchlist.ItemRatio | script.js:122-129 | no contract of its own; the comparator's score of a record, whose use is stated by Watchlist.RankItemsIsStableSort and Watchlist.TiedPairKeepsOrder |
| Watchlist.RankItems | script.js:121-130 | no contract of its own; Watchlist.RankItemsIsStableSort states the order |
| Watchlist.RankItemsIsStableSort | script.js:121-130 | the dropdown order is descending by score, the same records, equal scores in stored order |
| Watchlist.RuntimeOfTwoHours | script.js:125 | "120 min" reads as 120 minutes |
| Watchlist.RuntimeOfNinetyMinutes | script.js:125 | "90 min" reads as 90 minutes |
| Watchlist.RatingOfWholeDigit | script.js:123 | a rating "d.0" reads as d |
| Watchlist.TiedPairKeepsOrder | script.js:122-130 | two records of equal score stay in stored order |
| Optimizer.BudgetRuntime | script.js:169-170 | no contract of its own; Optimizer.BudgetRuntimeIsParseIntOfRun and Optimizer.BudgetRuntimeReadsFirstRun state what it reads |
| Optimizer.BudgetRuntimeIsParseIntOfRun | script.js:169-170 | the budget runtime is 120 exactly when there is no digit, and otherwise parseInt of the first digit run |
| Optimizer.BudgetRuntimeReadsFirstRun | script.js:169-170 | the budget runtime of text with a first digit run is that run's value |
| Optimizer.RuntimeReadingsAgree | script.js:169-170 | for a runtime that starts with a non-zero numeral, the optimizer and the ranking read the same minutes |
| Optimizer.BudgetRuntimeOfNumeral | script.js:169-170 | a runtime starting with a numeral reads as that numeral |
| Optimizer.RankingRuntimeOfNumeral | script.js:125 | the ranking reads a non-zero leading numeral as its value |
| Optimizer.Cumulative | script.js:165-173 | no contract of its own; the running total, which Optimizer.CumulativeIsMonotone and Optimizer.RenderOptimizerList speak about |
| Optimizer.CumulativeIsMonotone | script.js:165-174 | running totals never decrease along the list |
| Optimizer.RenderOptimizerList | script.js:162-174 | one row per record in order, each with the running total including it; flagged exactly when that total exceeds the budget; no flags without a budget; once flagged, every later row is flagged |
| Optimizer.FlagsPersist | script.js:173-174 | rows flagged by the running-total rule are flagged from the first flagged row to the end |
| Optimizer.MayDropPersists | script.js:173-174 | if item i overflows the budget, so does every later item |
| Optimizer.ValidHours | script.js:308-313 | hours are accepted exactly when parseFloat gives a positive number |
| Optimizer.MinutesPart | script.js:333-334 | overflow % 60 on a non-negative value lies in [0, 60) and completes floor division by 60 |
| Optimizer.SumRuntimes | script.js:318-323 | the forEach adds up every record's budget runtime: the result is the total of the list |
| Optimizer.Report | script.js:325-337 | hours and minutes of the total add back up to it; "all set" exactly when the total fits the budget; otherwise the shortfall is positive, total minus budget, split into whole hours and the minutes left |
| Optimizer.Optimize | script.js:307-339 | invalid hours are rejected with nothing rendered; otherwise the total, its hours and minutes, the flagged rows, all-set exactly when total <= hours*60, else overflow = total - hours*60 |
| Optimizer.SecondTitleOverflowsBudget | script.js:318-335 | with 150 minutes, a 120-min film fits, adding a 90-min one overflows by 60 |
| DragReorder.DragAfterAmong | script.js:240-253 | none exactly when no centre lies below the pointer; otherwise the nearest centre below it, the first such on ties |
| DragReorder.DragAfter | script.js:240-253 | over all rows: none exactly when no centre lies below the pointer; otherwise the nearest centre below it, the first such on ties |
| DragReorder.Range | script.js:168 | the first rendering has one row per record, the i-th row being handle i |
| DragReorder.WithoutCounts | script.js:231 | taking a row out removes all of its occurrences and leaves every other row as often as it was |
| DragReorder.IndexOf | script.js:233 | the position of a present row |
| DragReorder.Name | script.js:179 | a row's dataset.id is the id it was rendered with |
| DragReorder.IdsOf | script.js:219 | one id per row, the i-th being the dataset.id of the i-th row |
| DragReorder.MoveToEnd | script.js:231 | the dragged row ends up last; DragReorder.MoveToEndIsPermutation and DragReorder.MoveToEndKeepsOtherRows state that the other rows keep their order and nothing else changes |
| DragReorder.MoveToEndIsPermutation | script.js:231 | appendChild of a row already in the list permutes the rows |
| DragReorder.InsertAboveAddsRow | script.js:233 | inserting a row adds exactly that row |
| DragReorder.MoveBefore | script.js:233 | no contract of its own; DragReorder.MoveBeforeIsPermutation, DragReorder.InsertAbovePlacesRow and DragReorder.MoveBeforeKeepsOtherRows state where the row goes |
| DragReorder.MoveBeforeIsPermutation | script.js:233 | insertBefore of a row already in the list permutes the rows |
| DragReorder.InsertAbovePlacesRow | script.js:233 | the inserted row sits immediately above the target |
| DragReorder.MoveToEndKeepsOtherRows | script.js:231 | moving a row to the end keeps the other rows in order |
| DragReorder.InsertAboveKeepsOtherRows | script.js:233 | inserting a row keeps the other rows in order |
| DragReorder.MoveBeforeKeepsOtherRows | script.js:233 | moving a row above another keeps the other rows in order |
| DragReorder.IdsOfPermutation | script.js:219 | permuted rows read as permuted ids |
| DragReorder.MoveToEndKeepsRows | script.js:231 | appending the dragged row keeps every rendered row exactly once |
| DragReorder.MoveBeforeKeepsRows | script.js:233 | inserting the dragged row keeps every rendered row exactly once |
| DragReorder.IdsOfRange | script.js:166-179 | the freshly rendered list reads back the stored ids in order |
| DragReorder.OptimizerList.constructor | script.js:162-209 | the list shows the stored ids in order, nothing dragged |
| DragReorder.OptimizerList.DragStart | script.js:212-215 | the row becomes the dragged element; the order does not change |
| DragReorder.OptimizerList.DragOver | script.js:227-235 | nothing moves before a drag starts; with no row below the pointer the dragged row is appended, else put above the chosen row, which may be itself; other rows keep their order |
| DragReorder.OptimizerList.NewOrder | script.js:218-219 | the ids read from the rows in screen order |
| DragReorder.OptimizerList.DragEnd | script.js:216-224 | the stored list becomes the screen order mapped to records, unknown ids dropped |
| DragReorder.DropStoresScreenOrder | script.js:216-224 | when the rows hold each stored title once, in whatever order earlier drops on the same rendering left them, the stored order after a drop is exactly the screen order and the records are permuted |
| Suggestions.StripNumbering | script.js:54 | never longer than the input, and text not starting with a numbered label keeps its first character |
| Suggestions.StripNumberingLeavesNoNumeral | script.js:54 | after the replace no digit is followed by a dot |
| Suggestions.StripNumberingKeepsPlainText | script.js:54 | text with no digit followed by a dot is unchanged |
| Suggestions.StripNumberingIsIdempotent | script.js:54 | replacing twice is replacing once |
| Suggestions.StripsLeadingNumeral | script.js:54 | a leading "N." label and the white space after it are cut |
| Suggestions.StripPlainPrefix | script.js:54 | a label-free part in front of the text is kept as it is |
| Suggestions.NoNumberingConcat | script.js:54 | joining two label-free texts leaves no label unless a digit meets a dot |
| Suggestions.NewlinesToCommas | script.js:54 | each newline becomes a comma, every other character is kept, and no newline is left |
| Suggestions.NewlinesToCommasConcat | script.js:54 | the replace works piece by piece |
| Suggestions.NewlinesToCommasKeepsLine | script.js:54 | a single line is unchanged |
| Suggestions.Split | script.js:56 | split always yields at least one piece; Suggestions.JoinSplit, Suggestions.SplitAt and Suggestions.SplitAvoids characterise the pieces |
| Suggestions.JoinSplit | script.js:56 | joining the pieces with the separator gives the text back |
| Suggestions.SplitPlain | script.js:56 | text without the separator splits into itself |
| Suggestions.SplitAt | script.js:56 | the first piece ends at the first separator |
| Suggestions.SplitAvoids | script.js:56 | no piece contains the separator, nor any character absent from the text |
| Suggestions.TrimAll | script.js:56 | one piece per piece, the i-th being the i-th input piece trimmed |
| Suggestions.NonEmptyOnly | script.js:56 | the filter never lengthens the list and keeps exactly the non-empty pieces; with NonEmptyOnlyDistributes and NonEmptyOnlyKeepsNonEmpty it keeps them in order and with their repeats |
| Suggestions.NonEmptyOnlyDistributes | script.js:56 | the filter works piece by piece, so the kept pieces stay in their order with their repeats |
| Suggestions.NonEmptyOnlyKeepsNonEmpty | script.js:56 | a list with no empty piece passes the filter unchanged, duplicates included |
| Suggestions.Plain | script.js:52-54 | the text before the split has no newline |
| Suggestions.Entries | script.js:52-56 | no contract of its own; Suggestions.EntriesAreClean, Suggestions.ParseOfCommaListing and Suggestions.ParseOfNumberedListing state what it yields |
| Suggestions.EntriesAreClean | script.js:52-56 | every parsed title is non-empty, trimmed, and has no comma or newline |
| Suggestions.CleanEntries | script.js:56 | pieces without commas and newlines clean up to proper entries |
| Suggestions.ParseSuggestions | script.js:46-64 | titles exactly when a candidate's text yields some entry, and then all clean; an API error gives "API Error: " and its message, or "Unknown error" when it has none; every other failure gives the no-suggestions error |
| Suggestions.PiecesOfJoin | script.js:56 | comma-and-space separated titles split and clean back to the titles |
| Suggestions.PieceOfTitle | script.js:56 | a title behind white space cleans back to itself |
| Suggestions.NewlinesOfJoin | script.js:54 | newlines in a separator become commas and titles are untouched |
| Suggestions.StripOfJoin | script.js:54 | label-free titles joined by ", " pass the numbering replace unchanged |
| Suggestions.ParseOfCommaListing | script.js:51-60 | a reply in the requested "A, B, C" form parses back to exactly its titles |
| Suggestions.StripOfNumberedJoin | script.js:54 | numbered lines lose exactly their labels |
| Suggestions.ParseOfNumberedListing | script.js:51-60 | a reply of numbered lines "1. A", "2. B" parses to exactly the titles |
| Search.Shown | dynamicRendering.js:90-94 | 'N/A' shows blank and any other value as itself |
| Search.CardOf | dynamicRendering.js:88-94 | poster 'N/A' becomes the stock image, rating 'N/A' a dash, the other 'N/A' fields blank; present values are kept |
| Search.Cards | dynamicRendering.js:85-95 | one card per film, in order |
| Search.MovieRatio | dynamicRendering.js:76-83 | no contract of its own; the comparator's score of a film, related to the watchlist score by Search.WatchlistEntryKeepsScore and used by Search.DisplayResults |
| Search.WatchlistEntry | dynamicRendering.js:121 | the stored record has the film's id, title and year and the card's poster, runtime and rating |
| Search.MissingRatingReadsAsZero | dynamicRendering.js:77-78 | a rating of 'N/A' is not a number to parseFloat and scores as rating 0 |
| Search.DashReadsAsZero | dynamicRendering.js:89 | the dash a card shows for a missing rating also scores as rating 0 |
| Search.MissingRuntimeReadsAsDefault | dynamicRendering.js:79-80 | a runtime of 'N/A' is not a number to parseInt and scores as 120 minutes |
| Search.BlankRuntimeReadsAsDefault | dynamicRendering.js:91 | the blank a card shows for a missing runtime also scores as 120 minutes |
| Search.WatchlistEntryKeepsScore | dynamicRendering.js:121 | a film added from its card scores in the watchlist exactly as it scored in the results |
| Search.DisplayResults | dynamicRendering.js:74-85 | the array is sorted in place into the stable descending order by score, and one card is made per film in that order |
| Search.Found | dynamicRendering.js:49-60 | never more films than titles looked up |
| Search.RenderCards | dynamicRendering.js:85-128 | the forEach makes one card per film, in array order |
| Search.LookUpAll | dynamicRendering.js:49-60 | the loop keeps exactly the successful lookups, in title order |
| Search.FoundConcat | dynamicRendering.js:50-56 | looking up two runs of titles finds the first run's films, then the second's |
| Search.FoundMembers | dynamicRendering.js:49-60 | a film is kept exactly when some title's lookup returned it |
| Search.FoundNothing | dynamicRendering.js:61-66 | nothing is found exactly when every lookup failed |
| Search.FirstEight | dynamicRendering.js:50 | at most eight titles, the first ones; all of them when there are fewer than eight |
| Search.ShowFound | dynamicRendering.js:49-66 | "No movies" shows exactly when none of the first eight titles was found; otherwise the cards of the found films in ranked order |
| Search.SearchPage.constructor | script.js:22 | the search history starts empty |
| Search.SearchPage.SearchMovies | dynamicRendering.js:2-71 | a blank query shows the prompt and changes nothing; a suggestion error shows its message; otherwise the titles join the history and, from the first eight, no film found shows "No movies", else the cards of the found films in ranked order |

## Left out

- The network calls: the Gemini request, the OMDb requests, `loadRecommended` and `displayRecommended`. Their answers are inputs (`Reply`, the `lookup` function). A request that throws is a lookup returning none.
- `async`/`await` ordering and the loading markup shown between steps.
- Local storage and JSON serialisation. The stored value is an `Option` field. Malformed JSON, on which `JSON.parse` throws, is not modelled.
- All DOM markup, CSS classes, modal and dropdown handlers (`showMovieDetails`, `closeMovieModal`), and the `drop` handler, which only prevents the default.
- `updateOptimizerUI` hiding the panel for an empty list. Its render call is `RenderOptimizerList` without a budget.
- The remove button's 500 ms delay before `removeFromWatchlist`, and `createBalloonAnimation` and animation.js: timers, randomness and drawing. animation.js is not part of this model.
- `updateWatchlistUI` re-rendering after add, remove and drag end. Its result is `WatchlistStore.Panel`, a separate call.
- Js.ParseFloat: does not read `Infinity`, and values are exact reals rather than IEEE doubles, so rounding of long fractions and of `hours * 60` is not modelled.
- Js.ParseInt: exact integers; precision loss above 2^53 is not modelled.
- Ranking.Ratio: the division is exact, while the page divides doubles, so rounding can break ties that are exact in the model. A rating "8.0" with "120 min" and a rating "6.0" with "90 min" tie exactly here (Watchlist.TiedPairKeepsOrder keeps them in stored order), but in doubles 8/1.2 is 6.666666666666667 and 6/0.9 is 6.666666666666666, so the page ranks the 120-minute film first.
- Strings are sequences of code points, not UTF-16 units. No contract depends on the difference.
- Suggestions.ParseSuggestions: a candidate whose content has no `parts` or no `text` throws a `TypeError` in the page, with the engine's own message. The model has no such reply shape. A failed Gemini request, whose message comes from the browser, is not modelled either.
- Suggestions.StripNumbering: follows the code as written. Any digit run followed by a dot is cut wherever it stands, so a title containing "2." loses that numeral; the model keeps that behaviour.
- DragReorder.OptimizerList.DragOver: rows are handles into one rendering. A re-render during a drag, which leaves `draggedElement` pointing at a detached element, is not modelled.
- DragReorder.DragAfterAmong: bounding boxes are reduced to integer centres (`top + height / 2`).
- Behaviour of the code that the model keeps:
  - `removeFromWatchlist` filters out every record with the id.
  - A `dragstart` during a drag just replaces the dragged element.
  - The `.dragging` class is never set, so the dragged row is itself a candidate in `getDragAfterElement`.
