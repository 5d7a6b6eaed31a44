/**
 * One movie's ingestion session as functions on a `Session` value: feeding a
 * chunk (`parseLines`), resolving the final partial line
 * (`cleanupPartialLine`), draining a resource (`handleReviewsForEndpoint`) and
 * following continuation locators (`Process`). The class in sentiment.dfy is
 * proved to behave as these functions say.
 */
module Pipeline {
  import opened Wrappers
  import opened Text
  import opened Classifier
  import opened MatchBuffer
  import opened LineReconstructor
  import opened Opener

  /** `BatchReadBytesSize`: the size of the chunk buffer each read fills. */
  const BatchReadBytesSize: nat := 1024

  /** The flush threshold every session starts with. */
  const MaxNegativeSentimentSizeBytes: int := 1024

  /** The errors a session can end with. */
  datatype Error =
    | SeedUrlInvalid(text: string)
    | OpenFailed(reason: OpenError)
    | ReadFailed
    | NextUrlInvalid(text: string)
    | PersistFailed

  /**
   * The mutable part of a `MovieSentiment`: the pending partial line
   * (`lastStringPart`), the match buffer with its output file, and the
   * discovered continuation locator (`nextURL`).
   */
  datatype Session = Session(pending: string, sink: Sink, next: Option<Url>)

  /** A session after an operation, and the operation's result or error. */
  datatype Outcome<+T> = Outcome(session: Session, result: Result<T, Error>)

  /** The final partial line is a continuation locator when it starts with `http` or `file`. */
  function IsLocator(line: string): (b: bool)
    ensures b <==> |line| >= 4 && (line[..4] == "http" || line[..4] == "file")
  {
    "http" <= line || "file" <= line
  }

  /** `parseLines` on one chunk: reconstruct its lines and analyze the complete ones, ignoring failures. */
  function Feed(s: Session, chunk: string): (r: Session)
    ensures r.next == s.next && SameConfig(r.sink, s.sink)
    ensures s.sink.Valid() ==> r.sink.Valid()
  {
    var split := Reconstruct(s.pending, ScanLines(chunk));
    s.(pending := split.pending, sink := AnalyzeLines(s.sink, split.analyzed))
  }

  /**
   * One step of the line loop of `parseLines`: analyzing the held line and
   * moving on to the next fragment leaves the same lines still to analyze and
   * the same line to keep pending.
   */
  lemma FeedStep(b: Sink, held: string, rest: seq<string>)
    requires rest != []
    ensures var c, tail := Carry(held, rest), Carry(if rest[0] == "" then held else rest[0], rest[1..]);
      tail.pending == c.pending && AnalyzeLines(Analyze(b, held).sink, tail.analyzed) == AnalyzeLines(b, c.analyzed)
  {
    var tail := Carry(if rest[0] == "" then held else rest[0], rest[1..]);
    CarryStep(held, rest);
    AnalyzeLinesStep(b, held, tail.analyzed);
  }

  /**
   * `cleanupPartialLine`: nothing to do without a partial line; a locator is
   * parsed and recorded as the continuation; any other line is analyzed and the
   * buffer flushed. The partial line is cleared only on success.
   */
  function Resolve(s: Session, env: Environment): (r: Outcome<()>)
    ensures SameConfig(r.session.sink, s.sink)
    ensures s.sink.Valid() ==> r.session.sink.Valid()
  {
    if s.pending == "" then Outcome(s, Ok(()))
    else if IsLocator(s.pending) then
      match env.parse(s.pending)
      case None => Outcome(s, Err(NextUrlInvalid(s.pending)))
      case Some(u) => Outcome(s.(pending := "", next := Some(u)), Ok(()))
    else
      var analyzed := Analyze(s.sink, s.pending);
      if !analyzed.ok then Outcome(s.(sink := analyzed.sink), Err(PersistFailed))
      else
        var flushed := Flush(analyzed.sink);
        if !flushed.ok then Outcome(s.(sink := flushed.sink), Err(PersistFailed))
        else Outcome(s.(pending := "", sink := flushed.sink), Ok(()))
  }

  /** A pending locator only sets the continuation, and succeeds exactly when it parses. */
  lemma ResolveLocator(s: Session, env: Environment)
    requires s.pending != "" && IsLocator(s.pending)
    ensures var r := Resolve(s, env);
      r.session.sink == s.sink
      && (r.result.Ok? <==> env.parse(s.pending).Some?)
      && (r.result.Ok? ==> r.session.next == env.parse(s.pending) && r.session.pending == "")
  {
  }

  /**
   * A pending review line is analyzed and the buffer flushed: with a writable
   * output file this succeeds, and success leaves the buffer empty with the
   * line's reports recorded.
   */
  lemma ResolveReview(s: Session, env: Environment)
    requires s.pending != "" && !IsLocator(s.pending)
    ensures var r := Resolve(s, env);
      r.session.next == s.next
      && (s.sink.writable ==> r.result.Ok?)
      && (r.result.Ok? ==>
            r.session.pending == "" && r.session.sink.entries == []
            && r.session.sink.Recorded() == s.sink.Recorded() + Expected([s.pending]))
  {
    var analyzed := Analyze(s.sink, s.pending);
    AnalyzeRecordsEachMatch(s.sink, s.pending, Keywords);
    ExpectedSingle(s.pending);
    if analyzed.ok {
      var flushed := Flush(analyzed.sink);
      assert flushed.sink.Recorded() == analyzed.sink.Recorded();
    }
  }

  /** The three ways the final partial line is resolved. */
  lemma ResolveCases(s: Session, env: Environment)
    ensures s.pending == "" ==> Resolve(s, env) == Outcome(s, Ok(()))
    ensures IsLocator(s.pending) ==>
      var r := Resolve(s, env);
      r.session.sink == s.sink
      && (r.result.Ok? <==> env.parse(s.pending).Some?)
      && (r.result.Ok? ==> r.session.next == env.parse(s.pending))
    ensures s.pending != "" && !IsLocator(s.pending) ==>
      var r := Resolve(s, env);
      r.session.next == s.next
      && (s.sink.writable ==> r.result.Ok?)
      && (r.result.Ok? ==>
            r.session.sink.entries == [] && r.session.sink.Recorded() == s.sink.Recorded() + Expected([s.pending]))
    ensures Resolve(s, env).result.Ok? ==> Resolve(s, env).session.pending == ""
  {
    if s.pending != "" {
      if IsLocator(s.pending) {
        ResolveLocator(s, env);
      } else {
        ResolveReview(s, env);
      }
    }
  }

  /** A successful resolution records exactly the classifier's reports for the final review line, if any. */
  lemma ResolveRecordsFinalLine(s: Session, env: Environment)
    ensures var r := Resolve(s, env);
      r.result.Ok? ==> r.session.sink.Recorded() == s.sink.Recorded() + Expected(FinalLine(s.pending))
  {
    ResolveCases(s, env);
    if FinalLine(s.pending) == [] {
      assert Expected(FinalLine(s.pending)) == [];
      assert s.sink.Recorded() + [] == s.sink.Recorded();
    }
  }

  /**
   * The loop of `handleReviewsForEndpoint` from read `k` on: feed each chunk;
   * after the first chunk shorter than the buffer, resolve the partial line and
   * hand back (and clear) the discovered continuation locator.
   */
  function Drain(s: Session, stream: Stream, k: nat, env: Environment): (r: Outcome<Option<Url>>)
    ensures SameConfig(r.session.sink, s.sink)
    ensures s.sink.Valid() ==> r.session.sink.Valid()
    decreases |stream| - k
  {
    match ReadAt(stream, k)
    case ReadFailure => Outcome(s, Err(ReadFailed))
    case Data(bytes) =>
      var fed := Feed(s, bytes);
      if |bytes| < BatchReadBytesSize then Finish(fed, env)
      else Drain(fed, stream, k + 1, env)
  }

  /** The end of `handleReviewsForEndpoint`: resolve the partial line, then hand back and clear the continuation locator. */
  function Finish(s: Session, env: Environment): (r: Outcome<Option<Url>>)
    ensures SameConfig(r.session.sink, s.sink)
    ensures s.sink.Valid() ==> r.session.sink.Valid()
  {
    var resolved := Resolve(s, env);
    if resolved.result.Err? then Outcome(resolved.session, Err(resolved.result.error))
    else Outcome(resolved.session.(next := None), Ok(resolved.session.next))
  }

  /** `handleReviewsForEndpoint`: open the resource, then drain it. */
  function Visit(s: Session, u: Url, env: Environment): (r: Outcome<Option<Url>>)
    ensures SameConfig(r.session.sink, s.sink)
    ensures s.sink.Valid() ==> r.session.sink.Valid()
  {
    match Open(env, u)
    case Err(e) => Outcome(s, Err(OpenFailed(e)))
    case Ok(stream) => Drain(s, stream, 0, env)
  }

  /**
   * What the reads of a resource do to the partial line, whatever the match
   * buffer: the lines analyzed up to the first short read and the partial line
   * left then, or None when a read fails first.
   */
  function Scan(pending: string, stream: Stream, k: nat): Option<Split>
    decreases |stream| - k
  {
    match ReadAt(stream, k)
    case ReadFailure => None
    case Data(bytes) =>
      var split := Reconstruct(pending, ScanLines(bytes));
      if |bytes| < BatchReadBytesSize then Some(split)
      else
        match Scan(split.pending, stream, k + 1)
        case None => None
        case Some(more) => Some(Split(split.analyzed + more.analyzed, more.pending))
  }

  /**
   * Finishing a resource hands back the parsed final partial line when that is
   * a locator and the stored locator otherwise, leaving nothing pending or
   * stored; with a writable output file it fails only on a locator that does
   * not parse.
   */
  lemma FinishCases(s: Session, env: Environment)
    ensures var r := Finish(s, env);
      (r.result.Ok? ==>
        r.session.pending == "" && r.session.next == None
        && (IsLocator(s.pending) ==> env.parse(s.pending).Some?)
        && r.result.value == (if IsLocator(s.pending) then env.parse(s.pending) else s.next)
        && (FinalLine(s.pending) != [] ==> r.session.sink.entries == []))
      && (s.sink.writable ==> (r.result.Ok? <==> (IsLocator(s.pending) ==> env.parse(s.pending).Some?)))
  {
    ResolveCases(s, env);
  }

  /** The final partial line as a review line: none when it is empty or a locator. */
  function FinalLine(pending: string): seq<string>
  {
    if pending == "" || IsLocator(pending) then [] else [pending]
  }

  /**
   * Draining follows `Scan`: on success the partial line is resolved exactly
   * once, so nothing is left pending; the locator handed back is the parsed
   * final partial line when that is a locator and the previously discovered one
   * otherwise, and the field is cleared; a final review line forces a flush.
   */
  lemma {:induction false} DrainFollowsScan(s: Session, stream: Stream, k: nat, env: Environment)
    ensures var r := Drain(s, stream, k, env);
      r.result.Ok? ==>
        Scan(s.pending, stream, k).Some?
        && var final := Scan(s.pending, stream, k).value.pending;
        r.session.pending == "" && r.session.next == None
        && (IsLocator(final) ==> env.parse(final).Some?)
        && r.result.value == (if IsLocator(final) then env.parse(final) else s.next)
        && (FinalLine(final) != [] ==> r.session.sink.entries == [])
    decreases |stream| - k
  {
    match ReadAt(stream, k)
    case ReadFailure =>
    case Data(bytes) =>
      var fed := Feed(s, bytes);
      if |bytes| < BatchReadBytesSize {
        FinishCases(fed, env);
      } else {
        DrainFollowsScan(fed, stream, k + 1, env);
      }
  }

  /**
   * With a writable output file, draining fails exactly when a read fails or the
   * final partial line is a locator that does not parse.
   */
  lemma {:induction false} DrainFailsOnlyOnInput(s: Session, stream: Stream, k: nat, env: Environment)
    requires s.sink.writable
    ensures Drain(s, stream, k, env).result.Ok? <==>
      Scan(s.pending, stream, k).Some?
      && var final := Scan(s.pending, stream, k).value.pending;
      IsLocator(final) ==> env.parse(final).Some?
    decreases |stream| - k
  {
    match ReadAt(stream, k)
    case ReadFailure =>
    case Data(bytes) =>
      var fed := Feed(s, bytes);
      if |bytes| < BatchReadBytesSize {
        FinishCases(fed, env);
      } else {
        DrainFailsOnlyOnInput(fed, stream, k + 1, env);
      }
  }

  /**
   * With a writable output file, a drained resource has recorded exactly the
   * classifier's reports for the lines it analyzed, the final review line
   * included, in order.
   */
  lemma {:induction false} DrainRecordsAll(s: Session, stream: Stream, k: nat, env: Environment)
    requires s.sink.writable
    ensures var r := Drain(s, stream, k, env);
      r.result.Ok? ==>
        Scan(s.pending, stream, k).Some?
        && var scan := Scan(s.pending, stream, k).value;
        r.session.sink.Recorded() == s.sink.Recorded() + Expected(scan.analyzed + FinalLine(scan.pending))
    decreases |stream| - k
  {
    match ReadAt(stream, k)
    case ReadFailure =>
    case Data(bytes) =>
      var split := Reconstruct(s.pending, ScanLines(bytes));
      var fed := Feed(s, bytes);
      FeedRecordsAll(s, bytes);
      if |bytes| < BatchReadBytesSize {
        ResolveRecordsFinalLine(fed, env);
        ExpectedAppend(split.analyzed, FinalLine(split.pending));
        AppendAssociative(s.sink.Recorded(), Expected(split.analyzed), Expected(FinalLine(split.pending)));
      } else {
        DrainRecordsAll(fed, stream, k + 1, env);
        var r := Drain(fed, stream, k + 1, env);
        if r.result.Ok? {
          var more := Scan(split.pending, stream, k + 1).value;
          var tail := more.analyzed + FinalLine(more.pending);
          AppendAssociative(split.analyzed, more.analyzed, FinalLine(more.pending));
          ExpectedAppend(split.analyzed, tail);
          AppendAssociative(s.sink.Recorded(), Expected(split.analyzed), Expected(tail));
        }
      }
  }

  /** With a writable output file, feeding a chunk records exactly the reports for the lines it completes. */
  lemma FeedRecordsAll(s: Session, chunk: string)
    requires s.sink.writable
    ensures var split, fed := Reconstruct(s.pending, ScanLines(chunk)), Feed(s, chunk);
      fed.pending == split.pending && fed.sink.writable
      && fed.sink.Recorded() == s.sink.Recorded() + Expected(split.analyzed)
  {
    AnalyzeLinesRecordsAll(s.sink, Reconstruct(s.pending, ScanLines(chunk)).analyzed);
  }

  /** With a writable output file, feeding a chunk leaves the buffer below the threshold. */
  lemma FeedKeepsBound(s: Session, chunk: string)
    requires s.sink.Valid() && s.sink.Below() && s.sink.writable
    ensures Feed(s, chunk).sink.Below()
  {
    AnalyzeLinesKeepsBound(s.sink, Reconstruct(s.pending, ScanLines(chunk)).analyzed);
  }

  /** With a writable output file, resolving the final partial line leaves the buffer below the threshold. */
  lemma ResolveKeepsBound(s: Session, env: Environment)
    requires s.sink.Valid() && s.sink.Below() && s.sink.writable
    ensures Resolve(s, env).session.sink.Below()
  {
    if s.pending != "" {
      if IsLocator(s.pending) {
        ResolveLocator(s, env);
      } else {
        ResolveReview(s, env);
      }
    }
  }

  /** With a writable output file, the buffer stays below the threshold while a resource is drained. */
  lemma {:induction false} DrainKeepsBound(s: Session, stream: Stream, k: nat, env: Environment)
    requires s.sink.Valid() && s.sink.Below() && s.sink.writable
    ensures var r := Drain(s, stream, k, env); r.session.sink.Valid() && r.session.sink.Below()
    decreases |stream| - k
  {
    match ReadAt(stream, k)
    case ReadFailure =>
    case Data(bytes) =>
      var fed := Feed(s, bytes);
      FeedKeepsBound(s, bytes);
      if |bytes| < BatchReadBytesSize {
        ResolveKeepsBound(fed, env);
      } else {
        DrainKeepsBound(fed, stream, k + 1, env);
      }
  }

  /**
   * The continuation locator a resource leads to, found from its text alone:
   * None when opening, reading or parsing the locator fails, otherwise
   * Some of the locator handed back.
   */
  function ContinuationOf(env: Environment, pending: string, next: Option<Url>, u: Url): Option<Option<Url>>
  {
    match Open(env, u)
    case Err(_) => None
    case Ok(stream) =>
      match Scan(pending, stream, 0)
      case None => None
      case Some(scan) =>
        if IsLocator(scan.pending) then
          match env.parse(scan.pending)
          case None => None
          case Some(v) => Some(Some(v))
        else Some(next)
  }

  /**
   * Which page is followed next depends only on the resource's text, not on the
   * match buffer; a visited resource leaves nothing pending and no locator stored.
   */
  lemma VisitFollowsContinuation(s: Session, u: Url, env: Environment)
    ensures var r := Visit(s, u, env);
      r.result.Ok? ==>
        ContinuationOf(env, s.pending, s.next, u) == Some(r.result.value)
        && r.session.pending == "" && r.session.next == None
  {
    match Open(env, u)
    case Err(_) =>
    case Ok(stream) =>
      DrainFollowsScan(s, stream, 0, env);
  }

  /** The chain of continuation pages from `u` ends within `n` further pages. */
  predicate ChainEnds(env: Environment, pending: string, next: Option<Url>, u: Url, n: nat)
    decreases n
  {
    match ContinuationOf(env, pending, next, u)
    case Some(Some(v)) => n > 0 && ChainEnds(env, "", None, v, n - 1)
    case _ => true
  }

  /** A visit that hands back a locator leaves a chain one page shorter to follow. */
  lemma VisitShortensChain(s: Session, u: Url, env: Environment, n: nat)
    requires ChainEnds(env, s.pending, s.next, u, n)
    ensures var v := Visit(s, u, env);
      v.result.Ok? && v.result.value.Some? ==>
        n > 0 && ChainEnds(env, v.session.pending, v.session.next, v.result.value.value, n - 1)
  {
    VisitFollowsContinuation(s, u, env);
  }

  /**
   * The loop of `Process` from the locator `u` on: visit it, and keep following
   * the locator each visit hands back until there is none or an error occurs.
   */
  function Run(s: Session, u: Option<Url>, env: Environment, n: nat): (r: Outcome<()>)
    requires u.Some? ==> ChainEnds(env, s.pending, s.next, u.value, n)
    ensures u.None? ==> r == Outcome(s, Ok(()))
    ensures SameConfig(r.session.sink, s.sink)
    ensures s.sink.Valid() ==> r.session.sink.Valid()
    decreases n
  {
    if u.None? then Outcome(s, Ok(()))
    else
      var visited := Visit(s, u.value, env);
      if visited.result.Err? then Outcome(visited.session, Err(visited.result.error))
      else if visited.result.value.None? then Outcome(visited.session, Ok(()))
      else
        VisitShortensChain(s, u.value, env, n);
        Run(visited.session, visited.result.value, env, n - 1)
  }

  /** Running from `u` with at most `n` further pages is well defined and ends with `target`. */
  predicate RunsTo(s: Session, u: Option<Url>, env: Environment, n: nat, target: Outcome<()>)
  {
    (u.Some? ==> ChainEnds(env, s.pending, s.next, u.value, n)) && Run(s, u, env, n) == target
  }

  /**
   * One step of the run: a failed visit ends it with the visit's error, a visit
   * handing back no locator ends it successfully, and one handing back a locator
   * continues from it, with a shorter chain.
   */
  lemma RunStep(s: Session, u: Url, env: Environment, n: nat, target: Outcome<()>)
    requires RunsTo(s, Some(u), env, n, target)
    ensures var v := Visit(s, u, env);
      && (v.result.Err? ==> target == Outcome(v.session, Err(v.result.error)))
      && (v.result.Ok? && v.result.value.None? ==> target == Outcome(v.session, Ok(())))
      && (v.result.Ok? && v.result.value.Some? ==> n > 0 && RunsTo(v.session, v.result.value, env, n - 1, target))
  {
    VisitFollowsContinuation(s, u, env);
  }

  /** The chain from the seed locator ends within `n` pages, or the seed does not parse. */
  predicate SeedChainEnds(s: Session, seed: string, env: Environment, n: nat)
  {
    env.parse(seed).Some? ==> ChainEnds(env, s.pending, s.next, env.parse(seed).value, n)
  }

  /** `Process`: parse the seed locator, then run from it. */
  function Processed(s: Session, seed: string, env: Environment, n: nat): (r: Outcome<()>)
    requires SeedChainEnds(s, seed, env, n)
    ensures env.parse(seed).None? ==> r == Outcome(s, Err(SeedUrlInvalid(seed)))
    ensures SameConfig(r.session.sink, s.sink)
    ensures s.sink.Valid() ==> r.session.sink.Valid()
  {
    match env.parse(seed)
    case None => Outcome(s, Err(SeedUrlInvalid(seed)))
    case Some(u) => Run(s, Some(u), env, n)
  }

  /** A finished run has resolved its last partial line and holds no continuation locator. */
  lemma {:induction false} RunFinishesClean(s: Session, u: Url, env: Environment, n: nat)
    requires ChainEnds(env, s.pending, s.next, u, n)
    ensures var r := Run(s, Some(u), env, n);
      r.result.Ok? ==> r.session.pending == "" && r.session.next == None
    decreases n
  {
    var visited := Visit(s, u, env);
    VisitFollowsContinuation(s, u, env);
    if visited.result.Ok? && visited.result.value.Some? {
      RunFinishesClean(visited.session, visited.result.value.value, env, n - 1);
    }
  }

  /** With a writable output file, the buffer stays below the threshold while a resource is visited. */
  lemma VisitKeepsBound(s: Session, u: Url, env: Environment)
    requires s.sink.Valid() && s.sink.Below() && s.sink.writable
    ensures var r := Visit(s, u, env);
      r.session.sink.Valid() && r.session.sink.Below() && r.session.sink.writable
  {
    match Open(env, u)
    case Err(_) =>
    case Ok(stream) =>
      DrainKeepsBound(s, stream, 0, env);
  }

  /** With a writable output file, the buffer stays below the threshold for the whole run. */
  lemma {:induction false} RunKeepsBound(s: Session, u: Option<Url>, env: Environment, n: nat)
    requires u.Some? ==> ChainEnds(env, s.pending, s.next, u.value, n)
    requires s.sink.Valid() && s.sink.Below() && s.sink.writable
    ensures Run(s, u, env, n).session.sink.Valid() && Run(s, u, env, n).session.sink.Below()
    decreases n
  {
    if u.Some? {
      var visited := Visit(s, u.value, env);
      VisitKeepsBound(s, u.value, env);
      VisitFollowsContinuation(s, u.value, env);
      if visited.result.Ok? && visited.result.value.Some? {
        RunKeepsBound(visited.session, visited.result.value, env, n - 1);
      }
    }
  }

  /**
   * The end-of-stream flush is skipped when the last partial line is empty: a
   * session that reaches an empty page with nothing pending (as after a page
   * ending in a continuation locator) finishes successfully with its session,
   * buffered matches included, untouched, so those matches are never written.
   */
  lemma EmptyLastPageLeavesMatchesUnwritten(s: Session, u: Url, env: Environment)
    requires s.pending == "" && s.next == None
    requires u.scheme == "file" && env.openFile(u) == Some([])
    ensures ChainEnds(env, s.pending, s.next, u, 0)
    ensures Run(s, Some(u), env, 0) == Outcome(s, Ok(()))
  {
  }
}
