# movie-sentiment: the per-movie ingestion session, modelled in Dafny

This project models the core of movie-sentiment: one `MovieSentiment` session of
sentiment.go. A session starts from a seed locator and reads each review
resource (an `http` or `file` URL) in 1024-byte chunks. It rebuilds lines across
chunk boundaries and classifies each review line against a fixed list of ten
negative keywords. Each match is buffered, and the buffer is flushed to the
movie's output file whenever it reaches 1 KiB. The session follows the
continuation locator that may end each resource, until a resource has none.

The model has two layers:

- Functions on values state what each operation does:
  - `Sink`: the match buffer and the output file.
  - `Session`: the pending partial line, the sink and the discovered locator.
  - `Split`: what one chunk's lines do.
- The class `Sentiment.MovieSentiment` keeps the source's fields. It has one
  method per Go method, and each is proved to change the fields exactly as its
  function says. The loops of `persistNegativeReviews`, `analyzeReview`,
  `parseLines`, `handleReviewsForEndpoint` and `Process` are `while` loops
  whose invariants tie them to those functions.

Modules:

- `Text`: ASCII lower-casing, substring search, and `bufio.ScanLines` over a
  whole chunk.
- `Classifier`: the keyword list and matching.
- `MatchBuffer`: `handleNegativeReview`, `persistNegativeReviews` and the
  keyword loop as functions on a `Sink`.
- `LineReconstructor`: the line loop of `parseLines`.
- `Opener`: locators, read streams and `newReadCloserFromURL`.
- `Pipeline`: feeding chunks, resolving the final partial line, draining a
  resource and following continuations.
- `Sentiment`: the class.

The outside world is a value of type `Opener.Environment`. It supplies
`url.Parse`, the HTTP GET and the opening of a file. An opened resource is the
sequence of results its successive `Read` calls return, so a short read in the
middle of a resource is modelled as such. Every read past the recorded ones
returns no bytes. Whether the output file can be opened for appending is a
per-session flag, `outputWritable`. The output file is the sequence of lines
written to it. Each is written followed by a newline.

The model follows the code as written, and several of its behaviours are proved
as lemmas:

- Chunking is not transparent. When a chunk ends right after a newline, the
  next chunk's first line is glued onto the last line of this one.
  `LineReconstructor.ChunkBoundaryAfterNewlineJoinsLines` shows this.
- An empty line after the first line of a chunk does not replace the line held
  so far, so that line is analyzed a second time.
  `LineReconstructor.EmptyFragmentRepeatsLine` shows this.
- A review line is buffered once per keyword it matches. `parseLines` ignores
  analysis failures.
- The end-of-resource flush happens only when a review line is left pending. A
  session can therefore finish successfully with matches still buffered and
  never written. `Pipeline.EmptyLastPageLeavesMatchesUnwritten` shows this.

## Model

| member | source | states |
|---|---|---|
| Sentiment.MovieSentiment.constructor | sentiment.go:33-46 | The output file is named `negative_sentiment_<movie>.txt` and starts empty. The buffer starts empty with a 1024-byte threshold. Nothing is pending and no locator is stored. The invariant `Valid` holds. |
| Sentiment.MovieSentiment.PersistNegativeReviews | sentiment.go:200-221 | Its loop appends the buffered reviews one by one, and the method's new buffer and result are exactly `Flush` of the old buffer. Pending line and locator are unchanged. `Valid` is kept. |
| Sentiment.MovieSentiment.HandleNegativeReview | sentiment.go:189-198 | The new buffer and the result are exactly `Record` of the old buffer and the review. Pending line and locator are unchanged. `Valid` is kept. |
| Sentiment.MovieSentiment.AnalyzeReview | sentiment.go:178-187 | Its loop over the keyword list leaves exactly `Analyze` of the old buffer, stopping at the first failed flush. Pending line and locator are unchanged. `Valid` is kept. |
| Sentiment.MovieSentiment.ParseLines | sentiment.go:111-143 | The new session state is exactly `Feed` of the old one and the chunk. The loop invariant ties it to `Carry` over the remaining fragments and `AnalyzeLines` of the lines still to analyze. `Valid` is kept. |
| Sentiment.MovieSentiment.CleanupPartialLine | sentiment.go:145-171 | The new state and the status are exactly `Resolve` of the old state. `Valid` is kept. |
| Sentiment.MovieSentiment.HandleReviewsForEndpoint | sentiment.go:71-109 | The new state and the returned locator or error are exactly `Visit` of the old state. The read loop's invariant is that draining from the current read gives what draining from the first read gave. `Valid` is kept. |
| Sentiment.MovieSentiment.Process | sentiment.go:48-61 | The new state and the result are exactly `Processed` of the old state and the seed locator. `Valid` is kept. |
| Text.Lower | sentiment.go:180 | Lower-casing keeps the length, maps each upper-case ASCII letter to its lower-case letter, leaves no upper-case letter, and changes no other character. |
| Text.LowerIdempotent | sentiment.go:180 | Lower-casing twice gives the same text as lower-casing once. |
| Text.ContainsIffOccurs | sentiment.go:180 | The substring test holds exactly when the part occurs at some index of the text. |
| Text.LineEnd | sentiment.go:123 | The index found is the first newline, or the length when there is none. |
| Text.ScanLinesCount | sentiment.go:112-124 | The line scanner yields one token per newline in the chunk, plus one when the chunk does not end in a newline, so none for an empty chunk. |
| Text.ScanLinesHaveNoNewline | sentiment.go:123-124 | No token the line scanner yields contains a newline. |
| Text.UnlinesOfScanLines | sentiment.go:123-124 | For text without carriage returns, writing the tokens back one per line gives the text again, with a final newline added if it lacked one. |
| Text.ScanLinesOfUnlines | sentiment.go:123-124 | Lines without newlines or carriage returns, written one per line, scan back to exactly those lines. |
| Classifier.MatchesIffOccurs | sentiment.go:180 | A review matches a keyword exactly when the lower-cased keyword occurs at some index of the lower-cased review. |
| Classifier.MatchesIgnoresCase | sentiment.go:180 | Matching ignores case: lower-casing the review or the keyword first changes no answer. |
| Classifier.MatchedKeywords | sentiment.go:173-187 | No more keywords are reported than the list holds, and every reported keyword matches the review. |
| Classifier.MatchedKeywordsMultiplicity | sentiment.go:179-180 | A keyword is reported as often as it is listed if the review contains it, ignoring case, and never otherwise. |
| Classifier.MatchedKeywordsAppend | sentiment.go:179 | Matching keeps list order: it distributes over concatenation of keyword lists. |
| MatchBuffer.Flush | sentiment.go:200-221 | An empty buffer is a successful no-op. Otherwise the call succeeds exactly when the file can be opened. On success the buffered lines are appended to the file in order and the buffer and counter are cleared. On failure nothing changes. All recorded lines (file then buffer) are preserved. |
| MatchBuffer.Record | sentiment.go:189-198 | The review is recorded once. Below the threshold it is appended to the buffer. At or above it, a successful flush moves the whole buffer, review included, to the file. The call fails only when the threshold is reached and the file cannot be opened. After a success the counter equals the buffer's byte length and is below the threshold. |
| MatchBuffer.Analyze | sentiment.go:178-187 | With a writable file the analysis of a review succeeds, and it keeps the counter's agreement with the buffer. |
| MatchBuffer.AnalyzeWith | sentiment.go:179-185 | Keeps the threshold, the writability and the counter's agreement with the buffer. |
| MatchBuffer.AnalyzeRecordsEachMatch | sentiment.go:178-187 | A successful analysis records the review once per matching keyword. A failed one has recorded it between once and that many times. With a writable file it never fails. |
| MatchBuffer.AnalyzeKeepsBound | sentiment.go:192-196 | A successful analysis leaves a buffer that was below the threshold still below it. |
| MatchBuffer.AnalyzeLines | sentiment.go:123-134 | Analyzing lines while ignoring failures keeps the configuration and the counter's agreement with the buffer. |
| MatchBuffer.ExpectedAppend | sentiment.go:123-134 | The reports for two runs of lines are the reports of each run, one after the other. |
| MatchBuffer.AnalyzeLinesRecordsAll | sentiment.go:123-134 | With a writable file, analyzing lines records exactly the classifier's reports, in order. Nothing is lost, duplicated or reordered between buffer and file. |
| MatchBuffer.AnalyzeLinesKeepsBound | sentiment.go:192-196 | With a writable file, the buffer stays below the threshold across analyses. |
| LineReconstructor.Carry | sentiment.go:123-134 | The loop analyzes one line per remaining fragment. |
| LineReconstructor.Reconstruct | sentiment.go:111-143 | One line is analyzed per fragment after the first, and none when there are no fragments. |
| LineReconstructor.CarryFollowsCurrent | sentiment.go:122-134 | From fragment k on, the loop analyzes the positional values `Current(k)`, `Current(k+1)`, … and leaves `Current` of the last fragment pending. |
| LineReconstructor.ReconstructFollowsCurrent | sentiment.go:111-143 | The i-th analyzed line is `Current(i)`, the value `lastLine` holds after fragment i. The pending line is `Current` of the last fragment. |
| LineReconstructor.PendingAfterChunk | sentiment.go:114-117 | With no fragments the old partial line stays pending. With one fragment the old partial line plus it is pending. With several fragments, a non-empty last fragment becomes the pending line. |
| LineReconstructor.EmptyFragmentRepeatsLine | sentiment.go:125-130 | An empty fragment after the first makes the previous line be analyzed again, or stay pending if it is the chunk's last fragment. |
| LineReconstructor.LaterFragmentIsAnalyzed | sentiment.go:125-130 | A non-empty fragment after the first, and not the last, is analyzed as it is. |
| LineReconstructor.CurrentDependsOnPrefix | sentiment.go:122-134 | The line held after fragment j depends on no later fragment. |
| LineReconstructor.FinalFragmentNotAnalyzed | sentiment.go:136-138 | The chunk's final fragment is never analyzed within `parseLines`: replacing it changes no analyzed line. |
| LineReconstructor.ChunkBoundaryAfterNewlineJoinsLines | sentiment.go:114-117 | `a\nb\n` read as one chunk analyzes `a` and leaves `b` pending. Read as `a\n` then `b\n`, it analyzes nothing and leaves `a+b` pending. |
| Opener.Open | utils.go:13-40 | `http` locators are fetched and `file` locators opened, each succeeding exactly when the collaborator does. Any other scheme fails as unsupported. |
| Pipeline.IsLocator | sentiment.go:151 | A line is a locator exactly when its first four characters are `http` or `file`. |
| Pipeline.Feed | sentiment.go:111-143 | Feeding a chunk keeps the stored locator, the sink's configuration and the counter's agreement with the buffer. |
| Pipeline.FeedStep | sentiment.go:125-131 | Analyzing the held line and moving to the next fragment leaves the same pending line and the same lines still to analyze. |
| Pipeline.FeedRecordsAll | sentiment.go:111-143 | With a writable file, feeding a chunk records exactly the reports for the lines it completes, in order, and leaves the reconstructed partial line pending. |
| Pipeline.FeedKeepsBound | sentiment.go:111-143 | With a writable file, feeding a chunk leaves a buffer that was below the threshold still below it. |
| Pipeline.Resolve | sentiment.go:145-171 | Resolving keeps the sink's configuration and the counter's agreement with the buffer. |
| Pipeline.ResolveLocator | sentiment.go:151-157 | A pending locator leaves the sink untouched and succeeds exactly when it parses. It then stores the parsed locator and clears the pending line. |
| Pipeline.ResolveReview | sentiment.go:158-169 | A pending review line is analyzed and then flushed. With a writable file this succeeds. Success empties the buffer, records the line's reports, clears the pending line and keeps the stored locator. |
| Pipeline.ResolveCases | sentiment.go:145-171 | The three cases: an empty partial line is a no-op with no flush, a locator is stored without analysis or flush, and a review line is analyzed and flushed. Success always clears the pending line. |
| Pipeline.ResolveKeepsBound | sentiment.go:145-171 | With a writable file, resolving the final partial line leaves a buffer that was below the threshold still below it. |
| Pipeline.ResolveRecordsFinalLine | sentiment.go:158-166 | A successful resolution records exactly the reports for the final review line, if there is one. |
| Pipeline.Drain | sentiment.go:80-108 | Draining keeps the sink's configuration and the counter's agreement with the buffer. |
| Pipeline.Finish | sentiment.go:94-108 | Finishing a resource keeps the sink's configuration and the counter's agreement with the buffer. |
| Pipeline.FinishCases | sentiment.go:94-108 | On success nothing is left pending, the locator field is cleared, and the locator handed back is the parsed final line if that is a locator, else the stored one. A final review line forces a flush. With a writable file, finishing fails exactly when the final line is a locator that does not parse. |
| Pipeline.Visit | sentiment.go:71-109 | Visiting a resource keeps the sink's configuration and the counter's agreement with the buffer. |
| Pipeline.DrainFollowsScan | sentiment.go:80-108 | On success, no read failed before the first short read. Nothing is left pending, the locator field is cleared, and the locator returned is the parsed final line if that is a locator, else the stored one. A final review line forces a flush. |
| Pipeline.DrainFailsOnlyOnInput | sentiment.go:80-99 | With a writable file, draining fails exactly when a read fails or the final partial line is a locator that does not parse. |
| Pipeline.DrainRecordsAll | sentiment.go:80-99 | With a writable file, a drained resource has recorded exactly the reports for every line it analyzed, the final review line included, in order. |
| Pipeline.DrainKeepsBound | sentiment.go:80-99 | With a writable file, the buffer stays below the threshold while a resource is drained. |
| Pipeline.VisitFollowsContinuation | sentiment.go:71-109 | The locator a successful visit returns depends only on the resource's text, not on the buffer. The visit leaves nothing pending and no locator stored. |
| Pipeline.VisitShortensChain | sentiment.go:53-59 | A visit that returns a locator leaves a continuation chain one page shorter. |
| Pipeline.Run | sentiment.go:53-60 | With no locator left the run ends successfully with the session untouched. Every run keeps the sink's configuration and the counter's agreement with the buffer. |
| Pipeline.Processed | sentiment.go:48-61 | A seed locator that does not parse fails with `SeedUrlInvalid` and changes nothing. Processing keeps the sink's configuration and the counter's agreement with the buffer. |
| Pipeline.RunStep | sentiment.go:53-59 | One loop step: a failed visit ends the run with its error, a visit returning no locator ends it successfully, and one returning a locator continues from it. |
| Pipeline.RunFinishesClean | sentiment.go:53-60 | A successful run ends with nothing pending and no locator stored. |
| Pipeline.VisitKeepsBound | sentiment.go:71-109 | With a writable file, the buffer stays below the threshold through a visit. |
| Pipeline.RunKeepsBound | sentiment.go:48-61 | With a writable file, the buffer stays below the threshold for the whole run. |
| Pipeline.EmptyLastPageLeavesMatchesUnwritten | sentiment.go:94-98 | Reaching an empty resource with nothing pending ends the run successfully with the session untouched, so buffered matches stay unwritten. |

## Left out

- main.go's worker pool, task channel, wait group and error list. Concurrency is not modelled; one session is modelled on its own.
- The generator under test/ is random synthetic data and is not part of this model.
- `url.Parse`, the HTTP client, `filepath.Abs` and `os.Open` are left abstract as functions of `Opener.Environment`. A `Url` keeps only its scheme and the rest of the address.
- Sentiment.MovieSentiment.constructor: the removal of an earlier output file is modelled as always succeeding. The logged failure of `os.Remove`, which would keep the old contents, is not modelled.
- Sentiment.MovieSentiment.PersistNegativeReviews: failures of `WriteString` (ignored by the source) and of `Close` are not modelled. The only failure is that the file cannot be opened, a flag fixed for the whole session.
- Text.Lower: lower-cases ASCII letters only, not the full Unicode case mapping of `strings.ToLower`. One character stands for one byte.
- `bufio.Scanner`'s 64 KiB token limit is not modelled. A chunk holds at most 1024 bytes, so the limit is never reached.
- Logging and the wording of error messages are left out. Errors are the constructors of `Pipeline.Error`.
- Sentiment.MovieSentiment.Process: requires the chain of continuation locators to end within the ghost bound `pages`. On a cycle of locators the source loops for ever, which a terminating method cannot express.
- The deferred `Close` of the opened resource is not modelled.
- An opened resource is a finite sequence of reads, each of which returns at once. A read that blocks, or a resource that never stops returning full chunks, is not modelled.
- A `Data` read is not bounded by the 1024-byte buffer. A longer one is fed whole and treated like a full read, which a real `Read` into that buffer cannot return.
