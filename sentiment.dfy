/**
 * `MovieSentiment` of sentiment.go: one movie's ingestion session, whose
 * methods update its fields in place. Each method is proved to change the
 * object's state exactly as the corresponding function on `Session`/`Sink`
 * values says; the properties of those functions are proved in their modules.
 */
module Sentiment {
  import opened Wrappers
  import opened Text
  import opened Classifier
  import opened MatchBuffer
  import opened LineReconstructor
  import opened Opener
  import opened Pipeline

  class MovieSentiment {
    /** Movie identifier, used for the output file name. */
    const movie: string
    /** The locator processing starts from, as text. */
    const seedURL: string
    /** Buffered matching reviews and their total byte length. */
    var negativeSentiment: seq<string>
    var negativeSentimentBytes: int
    /** Buffer size at which the matches are flushed to the output file. */
    const maxNegativeSentimentSizeBytes: int
    /** Name of the output file. */
    const negativeSentimentFilename: string
    /** The lines the output file holds. */
    var outputFile: seq<string>
    /** Whether the output file can be opened for appending. */
    const outputWritable: bool
    /** The partial line carried from one chunk to the next. */
    var lastStringPart: string
    /** The continuation locator discovered in the current resource, if any. */
    var nextURL: Option<Url>

    /** The match buffer with its output file, as a value. */
    function Buffer(): Sink
      reads this
    {
      Sink(negativeSentiment, negativeSentimentBytes, maxNegativeSentimentSizeBytes, outputFile, outputWritable)
    }

    /** The whole mutable state of the session, as a value. */
    function State(): Session
      reads this
    {
      Session(lastStringPart, Buffer(), nextURL)
    }

    /** The byte counter agrees with the buffer and the threshold is positive. */
    predicate Valid()
      reads this
    {
      Buffer().Valid()
    }

    /**
     * `NewMovieSentiment`: an empty buffer with a 1 KiB threshold, an output
     * file named after the movie whose earlier contents are removed, nothing
     * pending and no continuation locator.
     */
    constructor (movie: string, firstURL: string, outputWritable: bool)
      ensures this.movie == movie && seedURL == firstURL
      ensures negativeSentimentFilename == "negative_sentiment_" + movie + ".txt"
      ensures this.outputWritable == outputWritable
      ensures State() == Session("", Sink([], 0, MaxNegativeSentimentSizeBytes, [], outputWritable), None)
      ensures Valid()
    {
      this.movie := movie;
      seedURL := firstURL;
      negativeSentiment := [];
      negativeSentimentBytes := 0;
      maxNegativeSentimentSizeBytes := MaxNegativeSentimentSizeBytes;
      negativeSentimentFilename := "negative_sentiment_" + movie + ".txt";
      outputFile := [];
      this.outputWritable := outputWritable;
      lastStringPart := "";
      nextURL := None;
    }

    /**
     * `persistNegativeReviews`: append every buffered review, in order, as a
     * line of the output file, then clear the buffer; fails, changing nothing,
     * when the file cannot be opened.
     */
    method PersistNegativeReviews() returns (ok: bool)
      requires Valid()
      modifies this
      ensures Valid()
      ensures Buffer() == Flush(old(Buffer())).sink && ok == Flush(old(Buffer())).ok
      ensures lastStringPart == old(lastStringPart) && nextURL == old(nextURL)
    {
      if |negativeSentiment| == 0 {
        return true;
      }
      if !outputWritable {
        return false;
      }
      var i := 0;
      while i < |negativeSentiment|
        invariant 0 <= i <= |negativeSentiment|
        invariant outputFile == old(outputFile) + negativeSentiment[..i]
        invariant negativeSentiment == old(negativeSentiment) && negativeSentimentBytes == old(negativeSentimentBytes)
        invariant lastStringPart == old(lastStringPart) && nextURL == old(nextURL)
      {
        outputFile := outputFile + [negativeSentiment[i]];
        i := i + 1;
      }
      assert negativeSentiment[..i] == negativeSentiment;
      negativeSentiment := [];
      negativeSentimentBytes := 0;
      return true;
    }

    /** `handleNegativeReview`: buffer the review, and flush once the buffer reaches the threshold. */
    method HandleNegativeReview(review: string) returns (ok: bool)
      requires Valid()
      modifies this
      ensures Valid()
      ensures Buffer() == Record(old(Buffer()), review).sink && ok == Record(old(Buffer()), review).ok
      ensures lastStringPart == old(lastStringPart) && nextURL == old(nextURL)
    {
      negativeSentiment := negativeSentiment + [review];
      negativeSentimentBytes := negativeSentimentBytes + |review|;
      ok := true;
      if negativeSentimentBytes >= maxNegativeSentimentSizeBytes {
        ok := PersistNegativeReviews();
      }
    }

    /**
     * `analyzeReview`: buffer the review once for each keyword it contains,
     * ignoring case, and stop at the first failed flush.
     */
    method AnalyzeReview(review: string) returns (ok: bool)
      requires Valid()
      modifies this
      ensures Valid()
      ensures Buffer() == Analyze(old(Buffer()), review).sink && ok == Analyze(old(Buffer()), review).ok
      ensures lastStringPart == old(lastStringPart) && nextURL == old(nextURL)
    {
      var remaining := Keywords;
      while remaining != []
        invariant Valid()
        invariant AnalyzeWith(Buffer(), review, remaining) == Analyze(old(Buffer()), review)
        invariant lastStringPart == old(lastStringPart) && nextURL == old(nextURL)
      {
        var keyword := remaining[0];
        if Matches(review, keyword) {
          var recorded := HandleNegativeReview(review);
          if !recorded {
            return false;
          }
        }
        remaining := remaining[1..];
      }
      return true;
    }

    /**
     * `parseLines`: split the chunk into lines, glue the first onto the pending
     * partial line, analyze the line held so far whenever a later line arrives
     * (ignoring failures; an empty line keeps the held line), and keep the last
     * line as the new partial line.
     */
    method ParseLines(chunk: string)
      requires Valid()
      modifies this
      ensures Valid()
      ensures State() == Feed(old(State()), chunk)
    {
      var fragments := ScanLines(chunk);
      ghost var split := Reconstruct(old(lastStringPart), fragments);
      var lastLine := "";
      if lastStringPart != "" {
        lastLine := lastStringPart;
        lastStringPart := "";
      }
      var i := 0;
      while i < |fragments|
        invariant 0 <= i <= |fragments|
        invariant Valid()
        invariant lastStringPart == "" && nextURL == old(nextURL)
        invariant i == 0 ==> lastLine == old(lastStringPart) && Buffer() == old(Buffer())
        invariant i > 0 ==>
          var c := Carry(lastLine, fragments[i..]);
          c.pending == split.pending && AnalyzeLines(Buffer(), c.analyzed) == AnalyzeLines(old(Buffer()), split.analyzed)
      {
        if i > 0 {
          assert fragments[i..][0] == fragments[i] && fragments[i..][1..] == fragments[i + 1..];
          FeedStep(Buffer(), lastLine, fragments[i..]);
          var _ := AnalyzeReview(lastLine);
          if fragments[i] != "" {
            lastLine := fragments[i];
          }
        } else {
          lastLine := lastLine + fragments[i];
          assert Carry(lastLine, fragments[1..]) == split;
        }
        i := i + 1;
      }
      lastStringPart := lastLine;
    }

    /**
     * `cleanupPartialLine`: a pending locator becomes the continuation locator;
     * a pending review line is analyzed and the buffer flushed. The partial
     * line is cleared only on success.
     */
    method CleanupPartialLine(env: Environment) returns (status: Result<(), Error>)
      requires Valid()
      modifies this
      ensures Valid()
      ensures State() == Resolve(old(State()), env).session && status == Resolve(old(State()), env).result
    {
      if lastStringPart == "" {
        return Ok(());
      }
      if "http" <= lastStringPart || "file" <= lastStringPart {
        var parsed := env.parse(lastStringPart);
        if parsed.None? {
          return Err(NextUrlInvalid(lastStringPart));
        }
        nextURL := parsed;
      } else {
        var analyzed := AnalyzeReview(lastStringPart);
        if !analyzed {
          return Err(PersistFailed);
        }
        var persisted := PersistNegativeReviews();
        if !persisted {
          return Err(PersistFailed);
        }
      }
      lastStringPart := "";
      return Ok(());
    }

    /**
     * `handleReviewsForEndpoint`: open the resource and read it chunk by chunk;
     * after the first chunk shorter than the buffer, resolve the partial line
     * and hand back (and clear) the continuation locator found.
     */
    method HandleReviewsForEndpoint(env: Environment, endpointURL: Url) returns (result: Result<Option<Url>, Error>)
      requires Valid()
      modifies this
      ensures Valid()
      ensures State() == Visit(old(State()), endpointURL, env).session
      ensures result == Visit(old(State()), endpointURL, env).result
    {
      var rc := Open(env, endpointURL);
      if rc.Err? {
        return Err(OpenFailed(rc.error));
      }
      var stream := rc.value;
      var readCount := 0;
      while true
        invariant Valid()
        invariant Drain(State(), stream, readCount, env) == Drain(old(State()), stream, 0, env)
        decreases |stream| - readCount
      {
        var read := ReadAt(stream, readCount);
        if read.ReadFailure? {
          return Err(ReadFailed);
        }
        ParseLines(read.bytes);
        if |read.bytes| < BatchReadBytesSize {
          var status := CleanupPartialLine(env);
          if status.Err? {
            return Err(status.error);
          }
          break;
        }
        readCount := readCount + 1;
      }
      var next := None;
      if nextURL.Some? {
        next := nextURL;
        nextURL := None;
      }
      return Ok(next);
    }

    /**
     * `Process`: parse the seed locator, then handle one resource after another
     * for as long as each hands back a continuation locator, stopping at the
     * first error. `pages` bounds the length of the continuation chain.
     */
    method Process(env: Environment, ghost pages: nat) returns (result: Result<(), Error>)
      requires SeedChainEnds(State(), seedURL, env, pages)
      requires Valid()
      modifies this
      ensures Valid()
      ensures State() == Processed(old(State()), seedURL, env, pages).session
      ensures result == Processed(old(State()), seedURL, env, pages).result
    {
      ghost var target := Processed(State(), seedURL, env, pages);
      var processURL := env.parse(seedURL);
      if processURL.None? {
        return Err(SeedUrlInvalid(seedURL));
      }
      ghost var left := pages;
      while processURL.Some?
        invariant Valid()
        invariant RunsTo(State(), processURL, env, left, target)
        decreases if processURL.Some? then left + 1 else 0
      {
        ghost var before := State();
        var u := processURL.value;
        RunStep(before, u, env, left, target);
        var next := HandleReviewsForEndpoint(env, u);
        ghost var visited := Visit(before, u, env);
        if next.Err? {
          return Err(next.error);
        }
        processURL := next.value;
        if processURL.Some? {
          left := left - 1;
        }
      }
      return Ok(());
    }
  }
}
