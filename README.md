# Steam game association rules: the rule pipeline

This project models the data path of a small association-rule explorer for
Steam games. It starts from the game catalogue and ends at the rows the
scatter plot shows:

- `dataProcessing.py`
  - derives the review columns (total reviews, percent positive, log rating);
  - drops games with fewer than 25 reviews;
  - extracts tags;
  - one-hot encodes themes and genres;
  - cuts the log rating into twenty 5-point review bins;
  - builds the transaction rows;
  - renders each mined rule's item sets as `", "`-joined sorted strings;
  - keeps only the rules whose antecedent holds a review-table column.
- `visualise.py` relabels the review-bin items inside `antecedents_str`
  (`review_bin_80-85` becomes `Review Score: 80-85`).
- `app.py`
  - reads the review range back out of an antecedent string;
  - filters the rules table by the dashboard's sliders, tag selections and
    rule direction.

Modules:

- `Text` covers the string primitives: `str()`/`int()` of naturals, `", "`
  split/join, `splitlines`, and the `'([^']+)'` scan.
- `Order` gives the code-point order on strings and the sorted listing of a
  set.
- `Seqs` holds the boolean-mask filter and subsequences.
- There is one module per source file: `DataProcessing`, `Visualise` and
  `App`.
- `Pipeline` holds the properties that cross files. A bin's column name,
  relabelled, parses back to the bin's bounds. When the mined item sets are
  column names of the transaction table (no `", "` inside, never "appID" or
  "name"), every rule the post-processing keeps has a parseable review range
  after relabelling, which is what the filter callback needs.

The theme and genre vocabularies are parameters. Nothing assumes they are
disjoint: the literal lists share labels such as "Survival", "Stealth" and
"Heist". `App.SharedLabelInConsequent` shows what that sharing does to the
direction filter.

## Model

| member | source | states |
|---|---|---|
| DataProcessing.PercentPositive | dataProcessing.py:31-33 | 0 when there is no positive review. Otherwise it is in (0, 100], and it is exactly 100 iff there is no negative review. |
| DataProcessing.PullTowardsHalf | dataProcessing.py:37 | `p - (p - 0.5) * k` with 0 < k < 1 moves p towards 0.5 without passing it. The result is 0.5 iff p is. |
| DataProcessing.LogRating | dataProcessing.py:37-38 | 0 without positive reviews. Otherwise it lies between percent_positive and 0.5. It always lies in [0, 100]. |
| DataProcessing.LargerFactorPullsHarder | dataProcessing.py:37 | For factors k1 <= k2 in (0, 1), p moved by k2 lies between 0.5 and p moved by k1. |
| DataProcessing.LargerFactorRatesCloserToHalf | dataProcessing.py:35-38 | A larger factor rates a game closer to 0.5. The factor `2 ** (-log10(n + 50))` grows as the review count n falls, so fewer reviews shrink the score harder. |
| DataProcessing.TotalReviews | dataProcessing.py:28 | At least each of the two counts, and positive whenever there is a positive review (the denominator of lines 31-33 is then nonzero). |
| DataProcessing.KeepReviewed | dataProcessing.py:47 | Keeps exactly the games with more than 24 reviews (both directions), in their original order, with every copy of a kept row kept and no copy of a dropped one. |
| DataProcessing.AddToList | dataProcessing.py:94-95 | No resulting label contains a line boundary. |
| Text.SplitLinesJoinLines | dataProcessing.py:94-95 | `splitlines` undoes `"\n".join` for a nonempty list of boundary-free lines whose last line is nonempty. |
| DataProcessing.ColumnSet | dataProcessing.py:447-449 | A table's column set is exactly its one-hot labels plus "appID" and "name". |
| Text.SplitLines | dataProcessing.py:94-95 | No line holds one of Python's line boundaries. |
| DataProcessing.QuoteKey | dataProcessing.py:343 | `repr` of a key is wrapped in matching quotes. It uses double quotes iff the key holds `'` and no `"`. A key without `'` is wrapped in single quotes unchanged. |
| DataProcessing.DictText | dataProcessing.py:343 | `str(dict)` is braced, and is `{}` for an empty dict. |
| DataProcessing.ProcessTags | dataProcessing.py:340-349 | As written: every extracted tag is nonempty and free of `'`; a value neither str nor dict gives no tags. |
| Text.FindQuoted | dataProcessing.py:345 | Every item `re.findall(r"'([^']+)'")` returns is nonempty and contains no `'`. |
| Text.FindQuotedItem | dataProcessing.py:345 | A quoted quote-free run is found, followed by whatever is found in the rest. |
| DataProcessing.ProcessTagsDictKeys | dataProcessing.py:340-349 | For a dict whose keys are nonempty and free of `'`, processTags returns the keys in insertion order. |
| DataProcessing.ProcessTagsListText | dataProcessing.py:340-349 | For the str form of a list of `'`-free tags, processTags returns the list. |
| DataProcessing.ApostropheLabelNeverExtracted | dataProcessing.py:345 | No tag value ever yields a label containing `'`, such as "Beat 'em up", "Shoot 'Em Up" or "1990's". |
| DataProcessing.SingleApostropheKeyLost | dataProcessing.py:340-349 | A dict whose one key contains a single `'` yields no tag at all. The corrected extraction yields the key. |
| DataProcessing.BeatEmUpLost | dataProcessing.py:173 | The listed genre "Beat 'em up", as a dict key, is dropped by processTags. |
| DataProcessing.ExtractTags | dataProcessing.py:338-349 | Corrected extraction: a dict gives its keys, in order. Strings and other values are handled as processTags handles them. |
| DataProcessing.ExtractTagsAgrees | dataProcessing.py:340-349 | Wherever processTags was right, the corrected extraction returns the same list. |
| DataProcessing.ProcessedTagColumn | dataProcessing.py:349 | As written: one tag list per game, every tag free of `'`, and no tags for a value neither str nor dict. |
| DataProcessing.TagColumn | dataProcessing.py:349 | Each game's tag list is the corrected extraction of its tag value. |
| DataProcessing.TagColumnsAgree | dataProcessing.py:349 | The two tag columns are equal when no tag dict has a key with `'`. |
| DataProcessing.EncodeColumns | dataProcessing.py:364-370 | One column per label. A cell is true iff the label is among that game's tags. Every column has one cell per game. |
| DataProcessing.OneHotEncoding | dataProcessing.py:364-370 | The theme and genre tables hold one such column per theme and per genre. |
| DataProcessing.TransactionItems | dataProcessing.py:398-408 | A game's row holds every listed genre or theme among its tags and the column of its score's bin. Every non-bin item is such a tag, and a score outside [0, 100] adds no bin. |
| DataProcessing.Transactions | dataProcessing.py:398-408 | One row per game, in order: the items of its tag list and its log rating. |
| DataProcessing.TransactionTable | dataProcessing.py:398-408 | df_final as written: one row per game that passes the 25-review cut, in order, from the tags processTags extracted and the game's log rating. |
| DataProcessing.CorrectedTransactionTable | dataProcessing.py:398-408 | The same table built from the corrected extraction. |
| DataProcessing.ApostropheLabelNeverInTransactions | dataProcessing.py:349-408 | In df_final as written, no label containing `'` is ever among a game's items. |
| DataProcessing.TransactionTablesAgree | dataProcessing.py:349-408 | The table as written and the corrected one are equal when no tag dict has a key with `'`. |
| DataProcessing.EveryTransactionHasOneBin | dataProcessing.py:388-408 | Assume no theme or genre label is a bin name. Then every transaction row, from any tag lists (so in both tables), holds exactly one review-bin item: the bin of its game's log rating. |
| DataProcessing.EdgesAreMultiplesOfFive | dataProcessing.py:380 | There are 21 bin edges, and edge i is 5i. |
| DataProcessing.ReviewBin | dataProcessing.py:388 | pd.cut returns a bin index below 20, or NaN (None). |
| DataProcessing.ReviewBinSpec | dataProcessing.py:380-388 | Bin k is returned iff x lies in [0, 5] for k = 0, or in (5k, 5k+5] otherwise. None is returned iff x < 0 or x > 100. |
| DataProcessing.BinLabelShape | dataProcessing.py:382-383 | Label k is the text "5k-(5k+5)". |
| DataProcessing.BinItem | dataProcessing.py:392 | The get_dummies column of bin k is `review_bin_` followed by its label. |
| DataProcessing.BinItemInjective | dataProcessing.py:392 | Different bins have different column names. |
| DataProcessing.BinItems | dataProcessing.py:392 | The set of bin column names is exactly the 20 bins' names. |
| DataProcessing.OneReviewBinPerTransaction | dataProcessing.py:398-408 | Assume no theme or genre label is a bin name. Then a game scored in bin k has exactly one review item in its transaction, and it is bin k's. |
| Order.SortedElems | dataProcessing.py:441 | `sorted(list(x))` has one entry per element of the set. |
| Order.SortedElemsSpec | dataProcessing.py:441 | `sorted(list(x))` is strictly increasing and holds exactly the set's elements. |
| Order.SortedElemsUnique | dataProcessing.py:441 | It is the only such sequence. |
| DataProcessing.RenderItems | dataProcessing.py:441-442 | Splitting the rendered string on ", " gives a strictly sorted list with exactly the set's members, for nonempty sets of separator-free items. |
| Text.Split | visualise.py:46 | `str.split(", ")` gives at least one piece, and no piece holds ", ". |
| Text.Join | dataProcessing.py:441 | `", ".join` of nothing is empty. Otherwise the result starts with the first piece, followed by ", " when there are more. |
| Text.SplitJoin | dataProcessing.py:441 | Splitting on ", " undoes joining pieces that contain no ", ". |
| Text.JoinSplit | visualise.py:46 | Joining with ", " undoes splitting on ", ". |
| DataProcessing.AddStringColumns | dataProcessing.py:441-442 | Fills both string columns from the item sets and changes no other field. |
| DataProcessing.RenderRules | dataProcessing.py:441-442 | Renders every row, keeping the row count and order. |
| DataProcessing.ContainsReview | dataProcessing.py:452-473 | A rule passes iff some antecedent item is a column of the review table. |
| DataProcessing.KeepReviewRules | dataProcessing.py:452-477 | Keeps exactly the rules whose antecedent meets the review columns (both directions), in order, with every copy of a kept row kept. |
| DataProcessing.PostProcessRules | dataProcessing.py:441-477 | Every kept rule is a rendered mined rule with a review-table column in its antecedent. Every rendered mined rule with one is kept. Rows keep the mined order, and every copy of a kept row is kept. |
| Visualise.MatchedRange | visualise.py:40 | The captured group is digits '-' digits. It sits right after `review_bin_`, and it is not followed by a digit. |
| Visualise.Reformat | visualise.py:39-43 | A string matching the anchored pattern becomes "Review Score: " plus the captured range. Any other string is unchanged. |
| Visualise.ReformatBinItem | visualise.py:39-43 | `review_bin_a-b` followed by a non-digit (or nothing) becomes `Review Score: a-b`. |
| Visualise.ReformatOfBinItem | visualise.py:39-43 | The relabelled column of bin k is "Review Score: 5k-(5k+5)". |
| Visualise.ReformatIdempotent | visualise.py:39-43 | Relabelling twice is the same as relabelling once. |
| Visualise.ReformatKeepsPiece | visualise.py:42 | Relabelling never introduces ", ". |
| Visualise.RewriteAntecedents | visualise.py:46 | The rewritten string splits into as many pieces, in order, each the relabelled original piece. |
| Visualise.RewriteWithoutBins | visualise.py:46 | A string with no bin piece is left as it is. |
| Visualise.RewriteIdempotent | visualise.py:46 | Rewriting twice is the same as rewriting once. |
| Visualise.RelabelRule | visualise.py:46 | Only antecedents_str changes. Item sets, consequents_str and metrics keep their values. |
| Visualise.RelabelRules | visualise.py:46 | Every row is relabelled, keeping the row count and order. |
| Visualise.RewriteAntecedentsColumn | visualise.py:46 | The in-place column update leaves the table equal to the relabelled old table. |
| App.ScoreMatch | app.py:34 | The pattern matches at the start of t iff t starts with "Review Score: " followed by digits, '-' and a digit. |
| App.ScoreMatchOf | app.py:34-36 | "Review Score: a-b" followed by a non-digit gives back (a, b). |
| App.GetReviewScoreRange | app.py:33-37 | (None, None) iff the pattern matches at no position of the string. |
| App.LeftmostScore | app.py:34-36 | re.search returns the match at the leftmost matching position. |
| App.ScoreOfLabel | app.py:33-37 | A relabelled range alone parses to its two numbers. |
| App.InRanges | app.py:96-99 | A passing rule has occurrences, confidence and lift inside their sliders, at both ends, and an antecedent string that holds a review range. |
| App.OnOneSide | app.py:105-111 | An empty selection passes every rule. A rule that passes holds every selected tag among its items. |
| App.FilterDirection | app.py:116-151 | A direction other than the two named ones passes every rule. With nothing selected, 'themes>genres' passes only rules with a theme in the antecedent, no theme in the consequent and a genre in the consequent. |
| App.Displayed | app.py:96-154 | The displayed rows are exactly the rules passing every mask (both directions), in table order, with every copy of a passing row kept. |
| App.FilterScatter | app.py:89-154 | Produces the displayed rows: the range mask, then each nonempty selection, then the direction filter. Every antecedent string must hold a review range. |
| App.DisplayedIdempotent | app.py:96-154 | Filtering the displayed rows again with the same inputs changes nothing. |
| App.NarrowerShowsFewer | app.py:96-99 | Narrowing sliders, with the rest unchanged, only removes rows, keeping the order of the rest. |
| App.NoSelectionOnlyRanges | app.py:105-141 | With no selection and a direction other than the two named ones, only the range mask applies. |
| App.PermissiveShowsAll | app.py:96-154 | A query that constrains nothing (every row inside the sliders, nothing selected, no named direction) shows the whole table unchanged. |
| App.DisplayedWithinSliders | app.py:96-99 | Every displayed rule has occurrences, confidence and lift inside their sliders. The lower bound of its review range is inside the review slider. |
| App.UpperBoundIgnored | app.py:99 | The upper bound of a review range is never compared. |
| App.DisplayedHoldsSelection | app.py:105-111 | With a selection, each displayed rule holds all selected themes on one side. It also holds all selected genres on one side. |
| App.SelectedThemesLead | app.py:144-146 | With a selection and 'themes>genres', selected themes are all antecedents and selected genres all consequents. |
| App.DirectionsSymmetric | app.py:116-151 | 'genres>themes' is 'themes>genres' with the vocabularies and the selections swapped. |
| App.SharedLabelInConsequent | app.py:135-139 | A label in both vocabularies that appears in the consequent excludes the rule from both base direction filters. |
| Pipeline.BinLabelRoundTrip | app.py:33-37 | Bin k's column name, relabelled as at visualise.py:42, parses back to (5k, 5k+5). |
| Pipeline.ScoreWithinParsedBounds | dataProcessing.py:388 | A score in bin k lies between the bounds its relabelled bin name parses to (app.py:34-36). |
| Pipeline.ScoreInJoin | app.py:34 | A joined string with a relabelled bin name as one piece holds a review range. |
| Pipeline.RelabelledRuleParses | visualise.py:46 | A rendered antecedent holding a bin item, once relabelled, holds a range that app.py:34 finds. |
| Pipeline.KeptRuleParses | dataProcessing.py:477 | A rendered mined rule with a review-table column in its antecedent parses after relabelling, when the mined item sets are column names. |
| Pipeline.DisplayedTableParses | app.py:99 | When the mined item sets are column names (no ", " inside, never "appID" or "name"), the table left by dataProcessing.py:477 and relabelled at visualise.py:46 meets the precondition of the filter callback. |
| Pipeline.SingleBinAntecedent | visualise.py:46 | A rule whose antecedent is one bin reads back as exactly that bin's bounds. |

## Left out

- Association-rule mining (fpgrowth, association_rules) is not modelled. Mined rules are an input.
- CSV loading, printing, printGameInfo and generateCombinations are not modelled. They are I/O or diagnostics.
- The Dash/Plotly layout, the callbacks' figure building and pages/scatter.py are not modelled. They are presentation.
- The round trip of the rules table through rules.csv is not modelled. Rules carry their item sets as sets, and reading them back with remove_frozen_string (visualise.py:22-26) is taken to be the identity. That function also deletes every `)` inside a label; no listed label contains one. The membership tests of app.py:106-118 then run on those sets.
- The occurrences column (visualise.py:16) is a given field of a rule. Its float rounding of support is not modelled.
- DataProcessing.PercentPositive: the rounding to 3 decimals is not modelled. Real arithmetic is exact here, so "exactly 100 iff no negative review" holds only for the unrounded value. With 1000000 positive and 1 negative review the source rounds to 100.0, while the model stays below 100.
- DataProcessing.LogRating: the factor `2 ** (-log10(total_reviews + 50))` is a parameter constrained to (0, 1), not computed. Floating point is not modelled.
- pd.concat of df_genres and df_themes duplicates the appID and name columns. A label in both lists ("Survival", "Stealth", "Heist", ...) also becomes two same-named columns of df_final. Only the set of item names is modelled (DataProcessing.TransactionItems), which merges each such pair into one item.
- `\d` is modelled as the ASCII digits 0-9. Python's `\d` also accepts other Unicode decimal digits.
- The literal theme and genre lists (dataProcessing.py:98-334) are not reproduced. Vocabularies are parameters.
- DataProcessing.ApostropheLabelNeverExtracted and App.UpperBoundIgnored follow from the definitions alone. They record behaviour rather than carry a proof.
- DataProcessing.QuoteKey: of the escapes `repr` applies to a str, only the quote handling is modelled. Backslashes and non-printable characters, which `repr` also escapes, are copied as they are.
- In a dict with several keys, the lone `'` of an apostrophe key pairs with the quote of a later key, so later keys can be lost too. That case is not characterised: only the single-key case is proved, and ApostropheLabelNeverInTransactions covers the apostrophe labels themselves.
- App.FilterScatter requires every antecedent string to hold a review range. The source would raise a TypeError on a string without one. Pipeline.DisplayedTableParses shows that no such string reaches it when the mined item sets are column names.
- App.FilterScatter models pandas boolean masks as order-preserving filters on a sequence. Index labels and reset_index are not modelled.

## Findings

| source | as written | input that shows it | evidently intended | confidence | as-written member | corrected member |
|---|---|---|---|---|---|---|
| dataProcessing.py:340-349 | processTags runs `'([^']+)'` over `str(tag)`. A dict key containing `'` is printed by Python inside double quotes, so the regex never captures it. The labels "Beat 'em up" (line 173), "Shoot 'Em Up" (line 208) and "1990's" (line 231) can therefore never be one-hot encoded. | `{"Beat 'em up": 3}` gives `[]` instead of `["Beat 'em up"]` | The comment above processTags says the tags are the dict's keys | not executed | DataProcessing.SingleApostropheKeyLost, DataProcessing.BeatEmUpLost, DataProcessing.ApostropheLabelNeverInTransactions | DataProcessing.ExtractTags, DataProcessing.ExtractTagsAgrees, DataProcessing.CorrectedTransactionTable |
