# Visual fear index pipeline — a Dafny model

This project models the three-stage pipeline that turns a folder of news
images into a "visual fear index" and sets it against the CBOE volatility
index (VIX).

1. **Batch emotion scoring** (`BatchEmotion`, batch.dfy). The directory
   listing is filtered by image extension. Each candidate is decoded and
   classified, and one record is built per image that gets through. A
   record holds the file name, the classifier's dominant label, the fear
   score and every emotion probability. The fear score is the rounded sum
   of `fear`, `angry`, `sad` and `surprise`.
2. **Volatility series** (`MarketData`, market.dfy). `fetch_vix_data`
   returns `None` when the provider raises or returns nothing. Otherwise
   it returns the two-column frame `date, vix_close`, sorted by date.
   `latest_vix_value` returns the close of the final row.
3. **Merge** (`MergeData`, merge.dfy). The emotion table's schema is
   checked first and the series is fetched second. On success, one rounded
   closing value and one timestamp are broadcast onto every row, together
   with the per-row gap `fear_score - vix_close`. The output file is
   replaced only on success.

Supporting modules:

- `Wrappers` (wrappers.dfy) provides `Option`, `Result`, an
  order-preserving `FilterMap`, and the `Tracks` invariant for it.
- `Rounding` (rounding.dfy) provides `round(x, 2)`.
- `Tables` (tables.dfy) provides cells, rows as maps, rectangular tables,
  and pandas' column assignment.

External capabilities are parameters:

- the image decoder is `decode: string -> Option<Img>`;
- the emotion classifier is `classify: Img -> Result<seq<Analysis>, string>`, one `Analysis` per detected face;
- the market-data provider's answer is a `Download`;
- the clock reading is a `stamp` string;
- the previous contents of the output file are `prior`.

Where the field names or the flow suggest more than the code does, the
model follows the code:

- **Fear score.** The code rounds the raw sum of the four probabilities,
  so `fear_score` need not equal the sum of the four rounded cells stored
  beside it. `FearScoreNotSumOfRoundedCells` gives an example, and
  `FearScoreCloseToCells` proves the two are within 0.025 of each other.
- **Dominant label.** `dominant_emotion` is copied from the classifier and
  is not recomputed as the arg-max of the emotion map.
- **Empty batch.** A batch that yields no record writes a CSV file with no
  header (src/batch_emotion_analysis.py:53-54). `read_csv` then raises
  before the schema check (src/merge_data.py:31), and the generic handler
  returns `None` (src/merge_data.py:72-74). The model folds this read
  failure into a `SchemaViolation` on the column-less `Table([], [])`.
  `MergeOfEmptyBatch` states that outcome, including that the output file
  keeps its previous contents.
- **Sorting.** The sort by date is not stable. The model states it as
  "sorted and a permutation" and proves that the result is unique when the
  dates are distinct (`FetchVixRowsDetermined`).

## Model

| member | source | states |
|---|---|---|
| Rounding.Round2 | src/batch_emotion_analysis.py:44-45 | `round(x, 2)` yields a value with two decimal places within half a hundredth of `x` |
| Rounding.Round2Idempotent | src/batch_emotion_analysis.py:44-45 | a property of `round(x, 2)` itself: rounding an already rounded value changes nothing |
| Tables.SetColumn | src/merge_data.py:53-60 | assigning a column keeps every existing column in place and appends a new name at the end |
| BatchEmotion.IsImageName | src/batch_emotion_analysis.py:13 | a name passes when its ASCII-lower-cased form ends in `.jpg`, `.png` or `.jpeg` |
| BatchEmotion.ImageNameDependsOnSuffix | src/batch_emotion_analysis.py:13-14 | only the end of a name decides the extension filter: any prefix before an accepted name keeps it accepted |
| BatchEmotion.ImageNameExamples | src/batch_emotion_analysis.py:13-14 | the filter ignores case (`.JPG`, `.Jpeg`), and rejects names where the image extension is not last (`photo.jpg.bak`) or has no dot (`jpg`) |
| BatchEmotion.MakeRecord | src/batch_emotion_analysis.py:31-46 | a record exists exactly when the four fear labels are present. Its keys are the three fixed keys plus the emotion labels, and every emotion is stored rounded. Without label collisions it holds the file name, the dominant label copied unchanged and the rounded fear sum |
| BatchEmotion.FearScoreNotSumOfRoundedCells | src/batch_emotion_analysis.py:34-45 | probabilities 0.004, 0.004, 0.004, 0 give fear score 0.01 while all four stored cells are 0.00 |
| BatchEmotion.FearScoreCloseToCells | src/batch_emotion_analysis.py:34-45 | the fear score is within 0.025 of the sum of the four stored cells, and it is non-negative when the probabilities are |
| BatchEmotion.ProcessFile | src/batch_emotion_analysis.py:13-49 | an entry yields a record exactly when it has an image extension, decodes, classifies successfully with at least one face, and has the fear labels. The record is the one built from the first face |
| BatchEmotion.RecordFields | src/batch_emotion_analysis.py:31-44 | when the classifier's labels never collide with the fixed keys, every record names its file, copies the dominant label and carries the rounded fear sum |
| BatchEmotion.Candidates | src/batch_emotion_analysis.py:12-14 | the candidates are exactly the listing entries with an image extension, and there are no more of them than entries |
| BatchEmotion.BatchOfCandidates | src/batch_emotion_analysis.py:12-49 | scoring only the candidates gives the same records as scoring the whole listing, so there are never more records than candidates |
| BatchEmotion.BatchAppend | src/batch_emotion_analysis.py:12-46 | the records of a concatenated listing are the records of each part, in listing order |
| BatchEmotion.BatchProvenance | src/batch_emotion_analysis.py:12-49 | record `j` is what entry `sources[j]` yields; positions strictly increase; every entry that yields a record is among them |
| BatchEmotion.RunBatch | src/batch_emotion_analysis.py:8-49 | the loop's records are the in-order filter of the listing, each tied to the position it came from |
| MarketData.Normalise | src/market_data.py:29-30 | the two-column selection keeps one row per quote, in order, with the quote's date and its close as `vix_close` |
| MarketData.Insert | src/market_data.py:39 | inserting into a sorted frame keeps it sorted and adds exactly the new row |
| MarketData.SortByDate | src/market_data.py:39 | sorting yields a frame ordered by date that is a permutation of its input |
| MarketData.SortedPermutationUnique | src/market_data.py:39 | two date-sorted permutations of rows with distinct dates are equal |
| MarketData.FetchVix | src/market_data.py:15-45 | the result is `None` exactly when the provider raised or returned no rows. Otherwise the columns are `date, vix_close` in that order, the rows are sorted by date, and they are a permutation of the provider's rows, none lost |
| MarketData.FetchVixRowsDetermined | src/market_data.py:24-39 | with distinct dates, every date-sorted permutation of the provider's rows is the fetched frame |
| MarketData.LatestVixValue | src/market_data.py:65-75 | the value is the close of some row, and on a sorted frame a close of the latest date. An empty frame is excluded, as `iloc[-1]` fails there |
| MarketData.LatestAfterFetch | src/market_data.py:65-75 | after a fetch, the latest value is the close of a provider quote whose date no other quote exceeds |
| MarketData.LatestIsCloseOfLatestQuote | src/market_data.py:65-75 | with distinct dates, the latest value is the close of the latest quote, whatever order the provider used |
| MarketData.ExampleSorted | src/market_data.py:38-41 | quotes delivered with dates 2, 3, 1 come back ordered 1, 2, 3 |
| MarketData.LatestIsNeitherMaxNorFirst | src/market_data.py:75 | on that example the latest value is 15.0, while the first row holds 20.0 and another row holds the larger 30.0 |
| MergeData.NumericFearScores | src/merge_data.py:56 | the subtraction accepts a fear score that is a number or missing, and raises on text |
| MergeData.MergeRaisesOnTextFearScore | src/merge_data.py:56-74 | with a valid schema and provider data, the run fails with the subtraction error exactly when some row's fear score is text, and then the output file keeps its previous contents |
| MergeData.GapCell | src/merge_data.py:56 | the gap is the fear score minus the broadcast close and may be negative; a missing fear score gives a missing gap |
| MergeData.WidenRow | src/merge_data.py:53-60 | a widened row gains exactly the three new cells, holding the close, the gap and the timestamp, and keeps every other cell |
| MergeData.Broadcast | src/merge_data.py:52-60 | the broadcast keeps the row count and widens every row with the same close and timestamp |
| MergeData.BroadcastWellFormed | src/merge_data.py:52-60 | the broadcast table is still rectangular |
| MergeData.BroadcastRows | src/merge_data.py:52-60 | every result row has its original keys plus the three new ones, the shared close and timestamp, its own gap, and its original cells unchanged |
| MergeData.Merge | src/merge_data.py:28-74 | there are four failure cases: a missing input, a schema violation naming the missing columns, no market data, and a non-numeric fear score. Each leaves the output file as it was. On an already parsed input, success occurs exactly when none of them applies, and the file then holds the returned table |
| MergeData.MergeVixFromProvider | src/merge_data.py:42-60 | a successful result has one row per input row. Every row's `vix_close` is the close of a provider quote that no other quote post-dates, rounded to two places. Every row has the same timestamp, and its `fear_vix_gap` is its fear score minus that rounded close, possibly negative |
| MergeData.MergeBroadcastIdentity | src/merge_data.py:53-60 | any two rows of one successful run share `vix_close` and `analysis_timestamp` |
| MergeData.WidenedColumnsFacts | src/merge_data.py:53-60 | the old columns stay in place and exactly the three new names are added, appended in assignment order when absent |
| MergeData.MergeSchema | src/merge_data.py:52-67 | a successful result is rectangular and keeps the input's columns first. It adds exactly `vix_close`, `fear_vix_gap` and `analysis_timestamp` |
| MergeData.MergeRerunStable | src/merge_data.py:52-60 | two successful runs on one input differ at most in the three added cells |
| MergeData.MergeExample | src/merge_data.py:49-60 | fear scores 42.10 and 10.00 against a close of 18.50 give gaps 23.60 and -8.50, and the written file equals the result |
| MergeData.BatchRecordsPassMergeChecks | src/merge_data.py:35-38 | every batch record carries `image` and a numeric `fear_score`, as the merge requires |
| MergeData.MergeOfEmptyBatch | src/merge_data.py:35-38 | a table without columns fails the schema check, naming both required columns, and leaves the output file unchanged |

## Left out

- DeepFace inference is an opaque library call inside the guarded block (src/batch_emotion_analysis.py:24-49). It is the `classify` parameter, and `classify` returning `Failure` stands for any exception it raises.
- `cv2.imread` is an opaque library call (src/batch_emotion_analysis.py:18). It is the `decode` parameter, and `decode` returning `None` stands for `imread` returning `None` (src/batch_emotion_analysis.py:20-22). `imread` runs outside the guarded block, so an exception escaping it would stop the whole batch. That case is not modelled, because `decode` is total.
- The yfinance download and the MultiIndex flattening are network access and library reshaping. `Download` is either `Raised`, which stands for any exception in the fetch or the normalisation, or the list of quotes.
- CSV reading and writing and `save_vix_data` (src/market_data.py:47-63) are file I/O. The output file is the `written` / `prior` state of a merge, and a missing input file is `None`.
- The DataFrame construction and CSV round trip between the batch and merge stages are not modelled. A batch record is a `Row`, but the merge takes a well-formed `Table`, so rows missing some emotion column are not padded with missing values.
- `datetime.now` and its formatting are a clock. The timestamp is the `stamp` parameter, read once per run.
- Logging `print`s and the `__main__` blocks have no logic beyond output.
- app.py, src/analysis.py and src/emotion_detector.py are UI, plotting and a one-image demo, and are not part of this model.
- MergeData.Merge: does not model `read_csv` failing for reasons other than a missing file (parse, decoding or empty-file errors at src/merge_data.py:31). It also does not model `to_csv` raising at src/merge_data.py:64, which may leave a truncated output file. Both return `None` through src/merge_data.py:72-74, and the input is taken as an already parsed table.
- An empty batch makes `read_csv` raise an empty-data error at src/merge_data.py:31. The model represents the result as a `SchemaViolation` on a column-less table, not as a read failure.
- Floating-point arithmetic: the fear sum (src/batch_emotion_analysis.py:34-39) and the gap (src/merge_data.py:56) are computed on reals. A NaN provider close, which would propagate NaN into `vix_close` and `fear_vix_gap` (src/market_data.py:33, src/merge_data.py:49-56), cannot be represented, because `Quote.close` is a `real`.
- Rounding.Round2: works on exact reals with ties to even. It does not model binary floating-point, where a decimal like 2.675 is stored just below the half and rounds down.
- BatchEmotion.IsImageName: lower-cases ASCII letters only. Python's `str.lower` also folds non-ASCII letters.
- BatchEmotion.MakeRecord: the record is a map, so the key order of the dict literal (and hence the column order) is not modelled.
- MarketData.FetchVix: dates are integer day numbers and closes are reals. The `astype(float)` and `to_datetime` conversions are identities.
