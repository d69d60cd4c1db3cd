# Food storage app — verified model of its core logic

The food storage app is a Next.js front end for a household pantry. You scan an
article's barcode (GTIN), look at or edit the article's record (name, keywords,
target amount), and take stock out of stored batches or add new ones. This
project models, in Dafny, the five pieces of logic in that front end that do more
than wiring:

- **Barcode read acceptance** (`QuaggaScanner`). The barcode library reports a
  detection with a list of decoded checkpoints, and each may carry an error
  score. The median of the defined scores is taken: the scores are copied into
  an array, sorted in place, and the middle element or the mean of the two
  middle elements is taken. The detection is passed to the `onDetected` handler
  only when that median is strictly below 0.075. An empty score list gives NaN
  in JavaScript, which is modelled as "no median", and such a detection is never
  accepted.
- **Article editing** (`ArticleInfoTable`). Keywords are shown joined by `", "`.
  Typed text is parsed by splitting at `,`, trimming each piece and dropping
  empty pieces. Releasing the `,` key appends a `" "` placeholder keyword. Each
  input replaces exactly one field of the edit state, and saving hands back the
  edit state.
- **Inline edit label** (`EditableLabel`). A small state machine: click, type,
  leave. It reports `transformer(draft)` to its parent only when that differs
  from the value that was shown before editing.
- **Stock rules** (`StorageItemService`). Taking items out of a batch rejects
  counts below one, then writes the batch back with `amount - itemCount` and
  every other field kept. Storing adds one record. The back end's resources are
  modelled as an in-memory store of records; a record's resource is its position.
  The article page adds up the amounts of an article's batches with a `reduce`
  starting at 0 (`src/pages/articles/[gtin].tsx`, lines 62-63);
  `StorageItemService.TotalAmount` is that sum, and the stock lemmas are stated
  with it.
- **Article cache** (`ArticleCache`). A map from GTIN to article that starts
  empty. `setArticle` sets one entry by object spread.

Two helper modules model the JavaScript built-ins the app relies on:

- `JsArray`: `Array.prototype.sort` with a numeric comparator, as an in-place
  insertion sort. Its contract pins the result to the unique sorted permutation.
- `StringMethods`: `split(',')`, `trim`, `join`.

The other modules are `Model` (record shapes) and `Wrappers` (Option/Result/Outcome).

JavaScript numbers are modelled as `real`. Dates are opaque strings passed in by
the caller.

The scanner judges each detection on its own against the constant 0.075; nothing
is accumulated across detections. The comment beside the threshold speaks of 92.75% certainty; the constant itself
corresponds to 92.5%, and the model uses the constant.

## Model

| member | source | states |
|---|---|---|
| JsArray.SortSeq | src/components/QuaggaScanner.tsx:6 | the reference sort: its result is ascending and a permutation of its input |
| JsArray.InsertSorted | src/components/QuaggaScanner.tsx:6 | inserting a number into an ascending sequence keeps it ascending |
| JsArray.SortedUnique | src/components/QuaggaScanner.tsx:6 | two ascending sequences with the same multiset of elements are equal, so the sorted result is unique |
| JsArray.SortSeqUnique | src/components/QuaggaScanner.tsx:6 | any ascending permutation of `s` is `SortSeq(s)`, whatever algorithm produced it |
| JsArray.Swap | src/components/QuaggaScanner.tsx:6 | exchanging two cells changes exactly those two cells and keeps the multiset |
| JsArray.SortAscending | src/components/QuaggaScanner.tsx:6 | sorting in place leaves the array ascending, a permutation of the old contents, and equal to `SortSeq` of them |
| QuaggaScanner.GetMedian | src/components/QuaggaScanner.tsx:5-12 | the caller's array ends sorted and permuted; odd length gives the element at index n/2, even nonzero length gives the mean of the elements at n/2-1 and n/2, empty gives no median; the result is `Median` of the old contents |
| QuaggaScanner.MedianOfSorted | src/components/QuaggaScanner.tsx:7-11 | on a sorted array: the middle element for odd length, the mean of the two middle elements for even length; there is no median exactly when the array is empty |
| QuaggaScanner.Median | src/components/QuaggaScanner.tsx:5-12 | the reference median: `MedianOfSorted` of the ascending permutation; no contract of its own, its properties are the lemmas below |
| QuaggaScanner.DefinedErrors | src/components/QuaggaScanner.tsx:15 | no more scores are kept than there are checkpoints |
| QuaggaScanner.DefinedErrorsMembers | src/components/QuaggaScanner.tsx:15 | the kept scores are exactly the scores some checkpoint reports |
| QuaggaScanner.DefinedErrorsAppend | src/components/QuaggaScanner.tsx:15 | the filter distributes over concatenation, so order is kept |
| QuaggaScanner.UndefinedErrorIgnored | src/components/QuaggaScanner.tsx:15 | a checkpoint without an error score does not change the kept scores |
| QuaggaScanner.DefinedErrorsRemoveAt | src/components/QuaggaScanner.tsx:15 | taking out one checkpoint takes out exactly its own defined score, if any |
| QuaggaScanner.DefinedErrorsPermutation | src/components/QuaggaScanner.tsx:15 | reordering checkpoints reorders the kept scores and nothing more |
| QuaggaScanner.GetMedianOfCodeErrors | src/components/QuaggaScanner.tsx:14-18 | the result is the median of the defined error scores |
| QuaggaScanner.Accepted | src/components/QuaggaScanner.tsx:35 | the acceptance test: a median of the defined scores exists and is strictly below 0.075; no contract of its own, its properties are the lemmas below |
| QuaggaScanner.ErrorCheck | src/components/QuaggaScanner.tsx:29-38 | the detection is forwarded, unchanged, if and only if a handler exists and the median of its defined scores is below 0.075 |
| QuaggaScanner.MedianOrderIndependent | src/components/QuaggaScanner.tsx:5-12 | the median depends only on the multiset of its inputs |
| QuaggaScanner.SortedMedianBounds | src/components/QuaggaScanner.tsx:7-11 | on a nonempty sorted array the median exists and lies between the first and last elements |
| QuaggaScanner.MedianOfArrangement | src/components/QuaggaScanner.tsx:6-11 | the median is read off any sorted arrangement of the inputs |
| QuaggaScanner.MedianBounds | src/components/QuaggaScanner.tsx:5-12 | for nonempty input the median exists and lies between the minimum and the maximum |
| QuaggaScanner.MedianNoneIffEmpty | src/components/QuaggaScanner.tsx:8-11 | there is no median exactly when the input is empty (NaN in JavaScript) |
| QuaggaScanner.MedianOfTwoIsMean | src/components/QuaggaScanner.tsx:7-11 | the median of two numbers is their mean, in either order |
| QuaggaScanner.MedianOfThreeIsMiddle | src/components/QuaggaScanner.tsx:7-10 | the median of three numbers is the middle one, in any order |
| QuaggaScanner.MedianSingleExample | src/components/QuaggaScanner.tsx:8-10 | [0.9] gives 0.9 |
| QuaggaScanner.MedianEvenExample | src/components/QuaggaScanner.tsx:7-11 | [0.1, 0.9] gives 0.5 |
| QuaggaScanner.MedianOddExample | src/components/QuaggaScanner.tsx:6-10 | [0.05, 0.06, 0.04] gives 0.05 |
| QuaggaScanner.AcceptedDependsOnlyOnDefinedErrors | src/components/QuaggaScanner.tsx:15-35 | two detections with the same multiset of defined scores get the same decision |
| QuaggaScanner.AcceptedOrderIndependent | src/components/QuaggaScanner.tsx:15-35 | the decision does not depend on the order of the checkpoints |
| QuaggaScanner.AllUndefinedNoErrors | src/components/QuaggaScanner.tsx:15 | when no checkpoint has a score, no score is kept |
| QuaggaScanner.NoDefinedErrorsRejected | src/components/QuaggaScanner.tsx:11-35 | a detection with no defined score is never accepted |
| QuaggaScanner.AcceptedIffBelowThreshold | src/components/QuaggaScanner.tsx:35 | with median m, the detection is accepted if and only if m < 0.075 |
| QuaggaScanner.AcceptedIgnoresUndefinedError | src/components/QuaggaScanner.tsx:15-35 | inserting a checkpoint without a score never changes the decision |
| QuaggaScanner.BoundaryMedianRejected | src/components/QuaggaScanner.tsx:35 | scores 0.09 and 0.06 have median exactly 0.075, and that detection is rejected |
| QuaggaScanner.BelowBoundaryAccepted | src/components/QuaggaScanner.tsx:35 | three scores with median 0.07 are accepted |
| QuaggaScanner.GapDoesNotChangeDecision | src/components/QuaggaScanner.tsx:15-35 | the same three scores with an unscored checkpoint among them are still accepted |
| StringMethods.TrimStart | src/components/ArticleInfoTable.tsx:64 | the leading half of `trim`: no longer than the input and not starting with whitespace |
| StringMethods.TrimEnd | src/components/ArticleInfoTable.tsx:64 | the result is a prefix of the input, the dropped tail is all whitespace, and the result does not end in whitespace |
| StringMethods.Trim | src/components/ArticleInfoTable.tsx:64 | the result is no longer than the input and neither starts nor ends with whitespace |
| StringMethods.Split | src/components/ArticleInfoTable.tsx:64 | splitting gives at least one piece and no piece contains a comma |
| StringMethods.TrimStartIsSuffix | src/components/ArticleInfoTable.tsx:64 | trimming the start removes a whitespace-only prefix |
| StringMethods.TrimIsSlice | src/components/ArticleInfoTable.tsx:64 | a trimmed string is a contiguous slice of the input with only whitespace before and after it |
| StringMethods.TrimIdempotent | src/components/ArticleInfoTable.tsx:64 | trimming twice is trimming once |
| StringMethods.TrimLeadingWhitespace | src/components/ArticleInfoTable.tsx:64 | leading whitespace does not change the trimmed result |
| StringMethods.TrimAllWhitespace | src/components/ArticleInfoTable.tsx:64 | a whitespace-only string trims to the empty string |
| StringMethods.TrimKeepsNoComma | src/components/ArticleInfoTable.tsx:64 | trimming a comma-free string keeps it comma-free |
| StringMethods.SplitNoComma | src/components/ArticleInfoTable.tsx:64 | a comma-free string splits into itself alone |
| StringMethods.SplitCons | src/components/ArticleInfoTable.tsx:64 | a leading comma starts a new empty piece; any other leading character extends the first piece |
| StringMethods.SplitAtComma | src/components/ArticleInfoTable.tsx:64 | splitting `a + "," + b` is splitting `a` followed by splitting `b` |
| StringMethods.Join | src/components/ArticleInfoTable.tsx:60 | `Array.prototype.join`: the joined text starts with the first piece |
| StringMethods.JoinSplit | src/components/ArticleInfoTable.tsx:60-64 | joining the pieces of a split with `,` gives back the text |
| StringMethods.SplitJoin | src/components/ArticleInfoTable.tsx:60-64 | splitting a `,`-join of a nonempty list of comma-free pieces gives back the pieces |
| StringMethods.JoinSnoc | src/components/ArticleInfoTable.tsx:60 | joining one more piece appends the separator and the piece |
| ArticleInfoTable.FormatKeywords | src/components/ArticleInfoTable.tsx:60 | the displayed text: empty for no keywords, and otherwise starting with the first keyword |
| ArticleInfoTable.ParseKeywords | src/components/ArticleInfoTable.tsx:64 | split, trim, drop empties: at most one keyword per comma-separated piece |
| ArticleInfoTable.WellFormedKeyword | src/components/ArticleInfoTable.tsx:64 | the shape parsing gives a keyword: nonempty, comma-free and equal to its trim; a predicate without a contract, used by the round-trip lemmas |
| ArticleInfoTable.WellFormed | src/components/ArticleInfoTable.tsx:64 | every keyword of a list is well formed; a predicate without a contract |
| ArticleInfoTable.TrimAll | src/components/ArticleInfoTable.tsx:64 | each piece is replaced by its trim, and the count is kept |
| ArticleInfoTable.DropEmpty | src/components/ArticleInfoTable.tsx:64 | the kept pieces are nonempty, no more than before, and each comes from the input |
| ArticleInfoTable.TrimAllAppend | src/components/ArticleInfoTable.tsx:64 | trimming distributes over concatenation of piece lists |
| ArticleInfoTable.DropEmptyAppend | src/components/ArticleInfoTable.tsx:64 | dropping empties distributes over concatenation of piece lists |
| ArticleInfoTable.ParseAtComma | src/components/ArticleInfoTable.tsx:64 | parsing `a + "," + b` is parsing `a` followed by parsing `b` |
| ArticleInfoTable.ParseNoComma | src/components/ArticleInfoTable.tsx:64 | text without a comma parses to its trim, or to nothing if that is empty |
| ArticleInfoTable.ParseWellFormed | src/components/ArticleInfoTable.tsx:64 | every parsed keyword is nonempty, comma-free and equal to its own trim |
| ArticleInfoTable.ParseBlank | src/components/ArticleInfoTable.tsx:64 | text made only of commas and whitespace, including the empty text, parses to no keywords |
| ArticleInfoTable.ParseSingleKeyword | src/components/ArticleInfoTable.tsx:64 | a well-formed keyword after leading whitespace parses to itself alone |
| ArticleInfoTable.ParseFormattedHead | src/components/ArticleInfoTable.tsx:60-64 | parsing a formatted list peels off its first keyword |
| ArticleInfoTable.ParseFormatted | src/components/ArticleInfoTable.tsx:60-64 | a formatted list of well-formed keywords, after any leading whitespace, parses back to the list |
| ArticleInfoTable.FormatParseRoundTrip | src/components/ArticleInfoTable.tsx:60-64 | for well-formed keywords, parsing the displayed text gives back the keywords |
| ArticleInfoTable.ParseFormatIdempotent | src/components/ArticleInfoTable.tsx:60-64 | displaying and reparsing parsed keywords changes nothing |
| ArticleInfoTable.PlaceholderReparse | src/components/ArticleInfoTable.tsx:60-73 | reparsing the displayed text once the placeholder is appended gives the keywords without it |
| ArticleInfoTable.PlaceholderThenTyping | src/components/ArticleInfoTable.tsx:60-73 | typing after the placeholder adds the parsed typed text to the existing keywords |
| ArticleInfoTable.ParseLeadingWhitespace | src/components/ArticleInfoTable.tsx:64 | leading whitespace does not change the parse |
| ArticleInfoTable.OnNameChange | src/components/ArticleInfoTable.tsx:41 | the name becomes the typed value and no other field changes |
| ArticleInfoTable.OnKeywordsChange | src/components/ArticleInfoTable.tsx:61-66 | the keywords become the parse of the typed text, which is well formed, and no other field changes |
| ArticleInfoTable.OnKeywordsKeyUp | src/components/ArticleInfoTable.tsx:67-73 | releasing `,` appends exactly one `" "` after the kept keywords; any other key changes nothing |
| ArticleInfoTable.OnTargetAmountChange | src/components/ArticleInfoTable.tsx:90 | the target amount becomes the input's number and no other field changes |
| ArticleInfoTable.Apply | src/components/ArticleInfoTable.tsx:33-90 | no edit event changes the GTIN |
| ArticleInfoTable.Saved | src/components/ArticleInfoTable.tsx:112 | the saved article keeps the GTIN; with no edits it is the given article |
| ArticleInfoTable.SavedAppend | src/components/ArticleInfoTable.tsx:112 | the edit state after two runs of events is the second run applied to the state after the first |
| ArticleInfoTable.NameOnlyByNameEvents | src/components/ArticleInfoTable.tsx:41-90 | without name edits the saved name is the original one |
| ArticleInfoTable.KeywordsOnlyByKeywordEvents | src/components/ArticleInfoTable.tsx:41-90 | with no keyword edit and no release of `,` the saved keywords are the original ones |
| ArticleInfoTable.TargetAmountOnlyByItsEvents | src/components/ArticleInfoTable.tsx:41-90 | without amount edits the saved target amount is the original one |
| ArticleInfoTable.LastNameWins | src/components/ArticleInfoTable.tsx:41 | the saved name is the last name typed |
| ArticleInfoTable.PlaceholderCanBeSaved | src/components/ArticleInfoTable.tsx:64-73 | save right after releasing `,` hands back the parsed keywords plus `" "`, which is not a well-formed keyword |
| EditableLabel.Identity | src/components/EditableLabel.tsx:12 | the default transformer, the draft as typed; no contract of its own, its property is IdentityNeverFires |
| EditableLabel.Label.constructor | src/components/EditableLabel.tsx:15-18 | a new label is not editing, and its draft and remembered value are empty |
| EditableLabel.Label.OnStartEdit | src/components/EditableLabel.tsx:20-24 | clicking copies the value into the draft and the remembered value and starts editing; nothing is reported |
| EditableLabel.Label.OnChangeInput | src/components/EditableLabel.tsx:26-28 | typing changes only the draft |
| EditableLabel.Label.OnBlurInput | src/components/EditableLabel.tsx:30-38 | leaving always ends editing; the transformed draft is reported once if it differs from the remembered value, and otherwise nothing is reported |
| EditableLabel.StartThenBlur | src/components/EditableLabel.tsx:12-38 | click then leave reports nothing when the transformer keeps the value, so with the identity never, and reports the transformed value otherwise |
| EditableLabel.EditOnce | src/components/EditableLabel.tsx:20-38 | click, type, leave reports at most once: the transformed text exactly when it differs from the value shown before |
| EditableLabel.IdentityNeverFires | src/components/EditableLabel.tsx:12-35 | with the default identity transformer, click then leave never reports |
| EditableLabel.UnchangedDraftCanFire | src/components/EditableLabel.tsx:33-35 | with `trim` as transformer, leaving `" milk"` untouched reports `"milk"`, because the comparison is with the untransformed value |
| StorageItemService.Withdrawal | src/service/StorageItemService.ts:7-17 | counts below one are rejected; otherwise the amount drops by the count and the other fields are kept, with no bound by the stock |
| StorageItemService.NewBatch | src/service/StorageItemService.ts:24-29 | the new record holds the count, the best-before date, the storage time and the article |
| StorageItemService.Store.constructor | src/service/StorageItemService.ts:5 | the store holds the given records |
| StorageItemService.Store.RemoveItemFromStorage | src/service/StorageItemService.ts:6-20 | a count below one fails first with the store unchanged; a missing batch fails with the store unchanged; otherwise only the targeted batch is rewritten, as its withdrawal |
| StorageItemService.Store.StoreItem | src/service/StorageItemService.ts:22-33 | exactly one record is appended, as the new batch, and its position is returned |
| StorageItemService.TotalAfterUpdate | src/service/StorageItemService.ts:12-17 | rewriting one batch changes the total stock, summed as the article page sums it, by the difference of the amounts |
| StorageItemService.TotalAfterWithdrawal | src/service/StorageItemService.ts:10-17 | a successful withdrawal lowers the total stock by exactly the count |
| StorageItemService.TotalAfterStore | src/service/StorageItemService.ts:23-30 | storing a batch raises the total stock by its count |
| StorageItemService.WithdrawalsCompose | src/service/StorageItemService.ts:10 | two withdrawals from one batch equal one withdrawal of both counts |
| StorageItemService.OverdrawAccepted | src/service/StorageItemService.ts:7-10 | taking 3 from a batch of 1 is accepted and leaves -2 |
| ArticleCache.SetArticle | src/pages/_app.tsx:18-20 | the article is stored under its GTIN, every other entry is kept, and the keys gain only that GTIN |
| ArticleCache.SetArticleSize | src/pages/_app.tsx:19 | the cache grows by one exactly when the GTIN was new, and otherwise keeps its size |
| ArticleCache.SetArticleIdempotent | src/pages/_app.tsx:19 | setting the same article twice is setting it once |
| ArticleCache.LastSetWins | src/pages/_app.tsx:19 | for one GTIN the second article set replaces the first |
| ArticleCache.SetArticleCommutes | src/pages/_app.tsx:19 | articles with different GTINs can be set in either order |
| ArticleCache.SetArticles | src/pages/_app.tsx:14-20 | a run of calls never loses a key |
| ArticleCache.SetArticlesSnoc | src/pages/_app.tsx:19 | one more call acts on the cache the earlier calls left |
| ArticleCache.UntouchedGtin | src/pages/_app.tsx:19 | a GTIN no call mentions keeps its entry, or its absence |
| ArticleCache.LastUpdateWins | src/pages/_app.tsx:19 | after any history a GTIN maps to the last article set for it |
| ArticleCache.SetArticlesAppend | src/pages/_app.tsx:19 | a history of calls can be split anywhere |
| ArticleCache.CachedGtins | src/pages/_app.tsx:19 | the cached GTINs are the earlier ones plus those set |
| ArticleCache.CachedFromEmpty | src/pages/_app.tsx:14-19 | starting from the empty cache, the cached GTINs are exactly those set |

## Left out

- The barcode library (initialisation, start and stop, handler registration, reader configuration, workers) is a foreign library with worker concurrency. The checkpoints and their error scores are inputs to the model.
- Camera access, canvas drawing and image encoding are device I/O.
- Page layout, the scan modal, the home page, the article image and keyword pages, navigation, file selection and toasts render UI and call the network; none of them holds logic of its own beyond wiring.
- The bounds on counts in the take and store modals are properties of the number input widgets, not code.
- The article context module holds only a type and a no-op default.
- The HTTP client's caching behaviour (`get`, `put`, `post`, `refresh`, `clearCache`) is not modelled. The store is an in-memory sequence of records, and a record's resource is its position.
- StorageItemService.Store.RemoveItemFromStorage: a resource that cannot be read is modelled as a `NotFound` failure that leaves the store unchanged. The original rejects the promise raised by the client; the error itself is not modelled.
- Network failures, concurrency between requests, and the asynchronous ordering of reads and writes are not modelled; each operation is atomic.
- Dates: the ISO conversion of the best-before date and the local time of storage are opaque strings passed in by the caller.
- Floating point: JavaScript numbers are `real`, with no IEEE rounding, no infinities and no NaN. The NaN that the median of no scores gives is modelled as `None`.
- StorageItemService.Withdrawal: a NaN count passes the `itemCount < 1` guard (src/service/StorageItemService.ts:7), and the new amount computed at line 10 and written at line 14 is then NaN; counts are reals, so this is not modelled.
- ArticleInfoTable.OnTargetAmountChange: the input's `valueAsNumber` is NaN when the field is empty or invalid, and that NaN becomes the target amount; the model takes a real, so this is not modelled.
- StringMethods.IsWhitespace: a fixed set of common whitespace characters stands in for the full Unicode whitespace and line-terminator set of JavaScript's `trim`.
- JsArray.SortAscending: the engine's actual sort algorithm is not modelled, only its result; ties are equal reals, so stability does not matter.
- React's asynchronous state batching and re-rendering are not modelled. Each handler sees the state the previous handler left, and the edit table's functional updaters are applied in order.
- The cancel button of the article table just calls the parent's callback and is not modelled.
- The record type definitions are not part of this model. The shapes of the article and storage records follow their use at src/components/ArticleInfoTable.tsx:23 and src/service/StorageItemService.ts:24-29.
