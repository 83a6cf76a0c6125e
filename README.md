# Ride-hailing review classifier: a Dafny model of its core

`OlaUberRapido.py` is a batch script. It reads ride-hailing app reviews from a
CSV file and labels each review with eight category columns (`Sentiment`,
`Cancellation & Wait Time`, ..., `Others`). It then writes the labelled table back
out. This project models and proves the script's deterministic core:

- **Text cleaning** (`clean_review_text`), module `Text`:
  - NaN and empty input become `""`;
  - otherwise the text is NFKD-decomposed and control characters are dropped (except `\n`, `\r`, `\t`);
  - `"` and the quotation marks U+201C, U+201D, U+2018 and U+2019 are replaced by `'`. The file spells these four marks as mis-decoded three-character literals, which can never match after NFKD; the model keeps that chain as written beside the intended one (see Findings);
  - whitespace runs collapse to one space, and the result is trimmed.
- **Per-review classification** (`classify_review`), module `Classify`:
  - blank input gives the empty record;
  - a single-word review from one of two fixed vocabularies is decided on the spot;
  - any other review goes to the inference backend, with at most `MAX_RETRIES` attempts and an exponential backoff between them;
  - an exhausted budget gives an `Error` record that names the last failure.
  - The backend is an oracle `nat -> Outcome`: attempt `k` yields `backend(k)`.
  - The retry loop is a method that returns the record, the number of calls and the delays slept. It is proved equal to the function `LlmFrom`.
- **Partitioning and batch processing**, module `Batch`:
  - `chunk_size = max(1, N // MAX_WORKERS)`;
  - the label list is cut into consecutive chunks;
  - `process_batch` pairs each label of a chunk with its record.
- **Reconciliation**, modules `Frames`, `Pipeline` and `Job`:
  - `Frames.Frame` is a class with a row index and label-addressed columns. The job updates it in place.
  - The category columns of the copied-out first rows start as `''`.
  - Each chunk's results are written cell by cell, with the chunks arriving in any completion order (a permutation).
  - `completed` accumulates the batch lengths.
  - The category columns are copied back into the full table by label.
  - `Job.ClassifyAndReconcile` runs the whole stage. It proves the full table ends equal to `Job.Reconciled`: each processed row holds its own record's value, and every other row and column is unchanged.

`Settings` holds the configuration, `Config(maxWorkers, maxRetries, retryDelay)`,
whose script values are `Config(4, 3, 2)`. It also holds `REVIEW_COLUMN` and the
eight `CATEGORIES`.

Two behaviours of the code worth knowing:

- The chunk size is `N // MAX_WORKERS`, rounded down. A ceiling division would cap the number of chunks at `MAX_WORKERS`; the floor division does not. Ten rows on four workers give five chunks (`Batch.TenRowsFourWorkers`), and in general there are up to `2 * MAX_WORKERS - 1` chunks (`Batch.ChunkCountBound`).
- The cleaner applies NFKD only (`OlaUberRapido.py:98`) and never recomposes, so accented letters reach the prompt as a base letter followed by combining marks.

## Model

| member | source | states |
|---|---|---|
| `Settings.CategoriesDistinct` | OlaUberRapido.py:40-49 | no category name appears twice in `CATEGORIES` |
| `Text.Split` | OlaUberRapido.py:101 | `split()` yields only non-empty tokens without whitespace |
| `Text.SplitKeepsText` | OlaUberRapido.py:101 | `split()` loses nothing but whitespace: its tokens, concatenated in order, are exactly the input's non-whitespace characters |
| `Text.SplitAtSpace` | OlaUberRapido.py:101 | `split()` breaks at every whitespace character: the text on either side of it splits independently |
| `Text.KeepPrintable` | OlaUberRapido.py:99 | every kept character is outside category C or is `\n`, `\r` or `\t`, and comes from the input; each such character is kept as often as it occurs, every other character is dropped |
| `Text.KeepPrintableAppend` | OlaUberRapido.py:99 | the filter keeps the surviving characters in input order: filtering a concatenation concatenates the filtered parts |
| `Text.CleanReviewText` | OlaUberRapido.py:92-103 | NaN or `""` gives `""`. Otherwise: no `"` and none of the four quotation marks; spaces are the only whitespace; no leading, trailing or doubled space; the same words as the decomposed, filtered, quote-replaced text |
| `Text.SplitChars` | OlaUberRapido.py:101 | every character of every token of `split()` occurs in the input |
| `Text.JoinChars` | OlaUberRapido.py:101 | every character of `sep.join(ws)` is a separator character or a character of some word |
| `Text.JoinCollapsed` | OlaUberRapido.py:101 | `" ".join` of whitespace-free tokens has single inner spaces and none at either end |
| `Text.StripCollapsed` | OlaUberRapido.py:101-103 | the final `strip()` leaves a collapsed text unchanged |
| `Text.SplitWordSpace` | OlaUberRapido.py:101 | a word followed by a space splits off as the first token |
| `Text.SplitWord` | OlaUberRapido.py:117-118 | a whitespace-free non-empty text splits into itself alone |
| `Text.SplitJoin` | OlaUberRapido.py:101 | splitting `" ".join(ws)` gives `ws` back (round trip) |
| `Text.CollapseIdempotent` | OlaUberRapido.py:101 | collapsing whitespace twice equals collapsing once |
| `Text.ReplaceChars` | OlaUberRapido.py:100 | `replace` introduces no character absent from the text and the replacement |
| `Text.ReplaceRemovesChar` | OlaUberRapido.py:100 | after `replace(c, rep)` with `c` not in `rep`, `c` no longer occurs |
| `Text.NoQuoteSurvives` | OlaUberRapido.py:100 | no `"` and none of U+201C, U+201D, U+2018, U+2019 is left after the intended chain of replacements |
| `Text.InertPattern` | OlaUberRapido.py:100 | a pattern whose second character is U+00C4 never matches a text without U+00C4: `replace` returns the text |
| `Text.AsWrittenReplacesOnlyDoubleQuote` | OlaUberRapido.py:100 | on text without U+00C4 the chain as written equals the single `"` replacement |
| `Text.AsWrittenCleanerIgnoresCurlyQuotes` | OlaUberRapido.py:98-100 | when NFKD decomposes U+00C4, the cleaner as written replaces only `"` after filtering |
| `Text.CurlyQuotesSurviveAsWritten` | OlaUberRapido.py:98-100 | the review `“ok”` comes out of the as-written replacements unchanged |
| `Text.CurlyQuotesReplacedAsIntended` | OlaUberRapido.py:98-100 | the same review comes out of the intended replacements as `'ok'` |
| `Classify.BackoffsFrom` | OlaUberRapido.py:160 | the j-th delay after attempt k is `RETRY_DELAY * 2^(k+j)` |
| `Classify.ReadCategories` | OlaUberRapido.py:153-154 | the copy loop yields, for every category, the stripped value with default `''`, whatever the record held before |
| `Classify.AttemptStep` | OlaUberRapido.py:141-206 | one attempt: a parsed object ends the loop; a failure before the last attempt sleeps `RETRY_DELAY * 2^k` and continues; the last failure ends with the error record |
| `Classify.ClassifyWithBackend` | OlaUberRapido.py:139-208 | the retry loop's record, call count and delays equal `LlmFrom` from attempt 0 |
| `Classify.ClassifyReview` | OlaUberRapido.py:105-208 | the method's record, call count and delays equal `Classification` |
| `Classify.FixedRecordsWellShaped` | OlaUberRapido.py:119-128 | the empty, positive, negative and error records have exactly the eight category keys |
| `Classify.LlmWellShaped` | OlaUberRapido.py:139-208 | the retry loop's record always has exactly the eight category keys |
| `Classify.ClassificationWellShaped` | OlaUberRapido.py:105-208 | on every path the result has exactly the eight keys, and the backend is called at most `MAX_RETRIES` times |
| `Classify.LlmSchedule` | OlaUberRapido.py:141-199 | from attempt k: at most `MAX_RETRIES - k` calls, at least one iff `k < MAX_RETRIES`, and one delay fewer than calls. The j-th delay is `RETRY_DELAY * 2^(k+j)`. Every attempt followed by a delay failed |
| `Classify.RetryBound` | OlaUberRapido.py:141-199 | between 1 and `MAX_RETRIES` calls (when the budget is positive), and the delays are exactly the first `calls - 1` backoffs |
| `Classify.LlmSucceedsAt` | OlaUberRapido.py:150-155 | failures on attempts k..n-1 and a parsed object on attempt n give that object's record after n-k+1 calls, with the delays of attempts k..n-1 |
| `Classify.FirstSuccessWins` | OlaUberRapido.py:141-155 | the first parsed object, on attempt n, decides the record. n+1 calls, n delays, no later attempt |
| `Classify.LlmExhaustedFrom` | OlaUberRapido.py:157-206 | failures on every attempt from k on give the error record of the last failure, after all the remaining attempts |
| `Classify.AllAttemptsFail` | OlaUberRapido.py:167-206 | all `MAX_RETRIES` attempts failing gives `Sentiment='Error'` with `Others` named by the last failure, after `MAX_RETRIES` calls and `MAX_RETRIES - 1` delays |
| `Classify.ErrorRecordContents` | OlaUberRapido.py:170-171 | the error record: `Sentiment` is `Error`, `Others` is the reason, the six other categories are `''` |
| `Classify.LlmConsultsOnlyAttempted` | OlaUberRapido.py:141-155 | two backends that agree on the attempts made give the same trace: no answer after the deciding one is consulted |
| `Classify.ZeroBudgetFallback` | OlaUberRapido.py:208 | with no attempts allowed the result is the empty record, with no calls |
| `Classify.StripTrimmed` | OlaUberRapido.py:154 | `strip()` of a text with no whitespace at either end is the text itself |
| `Classify.StripIdempotent` | OlaUberRapido.py:154 | `strip()` twice equals `strip()` once |
| `Classify.FromFieldsContents` | OlaUberRapido.py:153-154 | the record from a parsed object has the eight keys. A missing key gives `''`, a present one its stripped value, and every value is already trimmed |
| `Classify.BlankGivesEmptyResult` | OlaUberRapido.py:107-112 | NaN, blank, or cleaned-to-empty input gives `EMPTY_RESULT` without calling the backend |
| `Classify.PositiveKeyword` | OlaUberRapido.py:117-124 | a one-word review in the positive list gives `Positive` / `Positive Experience` and `''` elsewhere, without calls or delays, whatever the backend |
| `Classify.NegativeKeyword` | OlaUberRapido.py:125-128 | a one-word review in the negative list gives `Negative` and `''` elsewhere, without calls or delays, whatever the backend |
| `Classify.VocabulariesDisjoint` | OlaUberRapido.py:120-125 | no word is in both keyword lists, so the branch order does not matter |
| `Classify.OtherReviewsUseBackend` | OlaUberRapido.py:114-141 | a non-blank review that is not a single keyword is decided by the retry loop |
| `Classify.ThreeParseFailures` | OlaUberRapido.py:157-172 | with the script's settings, three parse errors give `Others='JSON Parse Error'` after 3 calls and sleeps of 2 s and 4 s |
| `Classify.SuccessOnSecondAttempt` | OlaUberRapido.py:141-165 | with the script's settings, a parse error then an object give that object's record after 2 calls and one 2 s sleep |
| `Frames.HeadCount` | OlaUberRapido.py:263 | `head(n)` keeps min(n, N) rows: never more than asked for or than there are, and one of the two; for negative n it drops -n rows from the end, or all when there are fewer |
| `Frames.DistinctPrefix` | OlaUberRapido.py:263 | the first rows of a uniquely labelled table are uniquely labelled, and their labels are among the table's |
| `Frames.Frame.Head` | OlaUberRapido.py:263 | the copy holds the first min(n, N) rows of the index (all but the last -n for negative n) and every column restricted to them |
| `Frames.Frame.SetColumn` | OlaUberRapido.py:270 | only column `name` changes, to the filled column |
| `Frames.Frame.SetCell` | OlaUberRapido.py:292 | `.at[l, name] = v` changes that one cell only |
| `Frames.Frame.AssignByLabel` | OlaUberRapido.py:309 | only column `name` changes, to `Assigned` of its prior content |
| `Frames.AssignedIdempotent` | OlaUberRapido.py:309 | assigning the same values by label twice equals assigning once |
| `Batch.ChunkSize` | OlaUberRapido.py:278 | the chunk size is at least 1 |
| `Batch.Partition` | OlaUberRapido.py:277-283 | the submission loop yields exactly `Chunks(labels, max(1, N // workers))` |
| `Batch.ChunksFirst` | OlaUberRapido.py:280-281 | the first chunk is the first `chunk_size` labels, or all of them when fewer |
| `Batch.ChunksFlatten` | OlaUberRapido.py:280-281 | the chunks concatenated give the label list back exactly |
| `Batch.ChunksShape` | OlaUberRapido.py:278-281 | every chunk is non-empty and at most `chunk_size` long, all but the last exactly `chunk_size`. There are ceil(N / chunk_size) of them, and none iff N = 0 |
| `Batch.ChunkAt` | OlaUberRapido.py:280-281 | chunk i is `labels[i*size : (i+1)*size]`, cut at N |
| `Batch.TenRowsFourWorkers` | OlaUberRapido.py:278-280 | 10 rows and 4 workers give a chunk size of 2 and 5 chunks |
| `Batch.ChunkCountBound` | OlaUberRapido.py:278-283 | at most `2 * workers - 1` chunks are submitted |
| `Batch.CountFromShape` | OlaUberRapido.py:278 | chunks of `max(1, n // w)` that start below n number at most `2w - 1` |
| `Batch.FloorChunkFits` | OlaUberRapido.py:278 | for `w <= n`, n rows fit in `2w - 1` chunks of `n // w` |
| `Batch.ProcessBatch` | OlaUberRapido.py:210-216 | one `(label, record)` pair per label, in chunk order, each record what `classify_review` gives that row |
| `Pipeline.PermutationMembers` | OlaUberRapido.py:286 | a completion order names each task exactly once, and only existing tasks |
| `Pipeline.FlattenConcat` | OlaUberRapido.py:286-289 | the pairs of two runs of batches are the pairs of each, one after the other |
| `Pipeline.FlattenMember` | OlaUberRapido.py:289 | a pair is merged iff it is in some batch |
| `Pipeline.PermuteFlattenLength` | OlaUberRapido.py:286-294 | two completion orders naming the same tasks deliver the same number of results |
| `Pipeline.CompletedTotal` | OlaUberRapido.py:285-294 | any completion order delivers as many results as all batches hold |
| `Pipeline.WritePairsConcat` | OlaUberRapido.py:289-292 | writing two runs of results one after the other equals writing them together |
| `Pipeline.WritePairsOverlay` | OlaUberRapido.py:289-292 | writing results that agree with a record function equals overlaying that function on the rows they name |
| `Pipeline.OverlayIdempotent` | OlaUberRapido.py:289-292 | writing the same records twice equals writing them once |
| `Pipeline.PermutedLabels` | OlaUberRapido.py:286-289 | every completion order writes exactly the rows of all batches |
| `Pipeline.MergeOrderIndependent` | OlaUberRapido.py:286-292 | any two completion orders leave the same table: the processed rows' cells hold their records |
| `Pipeline.InitCellsContents` | OlaUberRapido.py:269-270 | each category column holds `''` in every row of the index and nowhere else, and every other column is unchanged |
| `Pipeline.InitCategoryColumns` | OlaUberRapido.py:269-270 | the loop leaves the table equal to `InitCells` of its old columns |
| `Pipeline.WriteRecord` | OlaUberRapido.py:290-292 | the loop over categories writes `cls.get(cat, '')` into row l of each category column, and nothing else |
| `Pipeline.WritePairsKeys` | OlaUberRapido.py:289-292 | writing results adds or removes no column |
| `Pipeline.MergeBatch` | OlaUberRapido.py:289-292 | the loop over one batch writes its pairs in order |
| `Pipeline.Counts` | OlaUberRapido.py:294 | the m-th progress value is the number of results that have arrived after m+1 batches |
| `Pipeline.MergeResults` | OlaUberRapido.py:285-294 | the merge loop leaves the table as written in completion order; `completed` is the total number of results and the progress values are `Counts` |
| `Pipeline.ArrivedAll` | OlaUberRapido.py:285-294 | after the last batch, the arrived results are all the results |
| `Pipeline.CountsOrdered` | OlaUberRapido.py:294 | the progress counter never decreases and never exceeds the total |
| `Pipeline.TransferColumns` | OlaUberRapido.py:307-309 | the loop leaves the full table equal to `TransferCells` of its old columns |
| `Job.ReconciledCells` | OlaUberRapido.py:269-309 | processed rows hold their record's value in every category; other rows keep their old cell (none if the column is new); non-category columns are unchanged |
| `Job.ReconciledIdempotent` | OlaUberRapido.py:307-309 | running the same stage twice equals running it once |
| `Job.ReconciledRecordEntries` | OlaUberRapido.py:289-309 | with well-shaped records, each processed row's category cell is exactly its record's entry |
| `Job.PairsConcat` | OlaUberRapido.py:213-215 | pairing two label runs one after the other equals pairing them together |
| `Job.FlattenPairs` | OlaUberRapido.py:280-289 | the batches of all chunks, concatenated, pair every processed label with its record |
| `Job.Pairs` | OlaUberRapido.py:213-215 | the pairs of a chunk are one per label, name exactly the chunk's labels and carry the record the classifier gives each |
| `Job.MergedColumns` | OlaUberRapido.py:269-292 | after initialisation and the merge, each category column of the processed frame holds, in each row, its record's value |
| `Job.TransferredIsReconciled` | OlaUberRapido.py:307-309 | copying the merged category columns back by label gives `Reconciled` |
| `Job.RestrictedClassifier` | OlaUberRapido.py:263-282 | a row keeps its review in the copied-out frame and so gets the same record |
| `Job.BatchLabels` | OlaUberRapido.py:280-289 | every returned label is a processed row, and there are as many results as rows |
| `Job.MergedBatches` | OlaUberRapido.py:277-292 | merging the batches in any completion order writes each processed row's record |
| `Job.ClassifyChunks` | OlaUberRapido.py:280-283 | every submitted chunk is classified by `process_batch` |
| `Job.ClassifyRows` | OlaUberRapido.py:275-294 | the processed frame ends with each row's record in the category columns. `completed` is the row count, and progress is monotone and ends there |
| `Job.ClassifyAndReconcile` | OlaUberRapido.py:263-309 | the full table ends equal to `Reconciled` for the first `rows_to_process` rows and their records. `completed` equals that row count, and progress never decreases, never exceeds it, and ends at it |

## Findings

| source | as written | input that shows it | evidently intended | confidence | as-written member | corrected member |
|---|---|---|---|---|---|---|
| OlaUberRapido.py:100 | the four curly-quote literals are mis-decoded three-character strings with U+00C4 in the middle; NFKD on line 98 always decomposes U+00C4, so these `replace` calls never match and only `"` is replaced | the review `“ok”`: the quotation marks are not of category C and NFKD keeps them, so they reach the prompt | replace U+201C, U+201D, U+2018 and U+2019 by `'` | medium, not executed: if the file's bytes are the UTF-8 curly quotes rather than their Mac Roman mis-decoding, the calls match and this finding does not apply | `Text.CurlyQuotesSurviveAsWritten` | `Text.NoQuoteSurvives` |

`Text.NormaliseQuotesAsWritten` keeps the chain as written. `Text.NormaliseQuotes` is the intended chain, and `Text.CleanReviewText` uses it.

## Left out

- The Ollama client (`ollama.list`, `ollama.generate`) and the prompt text: each attempt's outcome is a parameter, `backend(k)`.
- `json.loads` and `str()` of non-string JSON values: a parsed object is a map from key to the value's `str()` rendering. A non-object result is `OkNotObject`, whose `.get` raises `AttributeError`.
- The thread pool and `as_completed`: chunks are classified one after another, and completion order is a permutation parameter. Interleaving and locking are not modelled.
- `time.sleep`, `time.time`, the rate and the ETA: the delays are recorded in a list instead of being slept, and the float rate/ETA log lines are omitted.
- Logging, the CSV load and save, `reset_index`, the server ping, and the abort when the file cannot be read: I/O. `Job.ClassifyAndReconcile` requires the review column to exist, in place of the abort at `OlaUberRapido.py:243-245`.
- The interactive row-count prompt: `rowsToProcess` is a parameter, and `head` handles any integer.
- The summary statistics and theme counts (`OlaUberRapido.py:311-325`): logging with float division.
- The Unicode tables behind `unicodedata.normalize('NFKD', ...)`, `unicodedata.category` and `str.lower`: they are uninterpreted functions, fields of `Text.Unicode`.
- pandas details: labels are integers (after `reset_index`), cell values are strings, and NaN is an absent entry. `Frames.Frame.SetCell` requires the label to exist, because every written label is one of the processed rows, so pandas' row enlargement never occurs.
- `Classify.ClassificationWellShaped`: `ParseError` lumps two cases: `json.loads` failing on line 151, and `ollama.generate` itself raising `JSONDecodeError` on a non-JSON reply. In the second case on the final attempt, with no earlier attempt having bound `response`, line 168 raises `UnboundLocalError`. That error escapes `classify_review` and aborts the run at `future.result()` (line 287). The model returns the `JSON Parse Error` record instead, so "a well-shaped record on every path" promises more than the source does there.
- Column order: `Frames.Columns` is a map keyed by column name, so the order of the output columns is not modelled. In pandas the new category columns are appended after the existing ones, in `CATEGORIES` order (lines 269-270 and 307-309).
