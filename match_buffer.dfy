/**
 * The match buffer and its sink: `handleNegativeReview` and
 * `persistNegativeReviews` of sentiment.go, and the keyword loop of
 * `analyzeReview` that feeds them, as functions on a `Sink` value.
 */
module MatchBuffer {
  import opened Classifier

  /** Sum of the byte lengths of the entries. */
  function TotalLength(entries: seq<string>): nat
  {
    if entries == [] then 0 else TotalLength(entries[..|entries| - 1]) + |entries[|entries| - 1]|
  }

  /** Concatenation of sequences is associative. */
  lemma AppendAssociative<T>(a: seq<T>, b: seq<T>, c: seq<T>)
    ensures a + b + c == a + (b + c)
  {
  }

  /** `line` repeated `n` times. */
  function Copies(line: string, n: nat): seq<string>
  {
    seq(n, _ => line)
  }

  /**
   * The buffered matches (`negativeSentiment`), their byte count
   * (`negativeSentimentBytes`), the flush threshold
   * (`maxNegativeSentimentSizeBytes`), the lines the output file holds, and
   * whether the output file can be opened for appending.
   */
  datatype Sink = Sink(entries: seq<string>, bytes: int, threshold: int, file: seq<string>, writable: bool)
  {
    /** The byte counter agrees with the buffer and the threshold is positive. */
    predicate Valid()
    {
      bytes == TotalLength(entries) && threshold > 0
    }

    /** The buffer holds fewer bytes than the threshold. */
    predicate Below()
    {
      bytes < threshold
    }

    /** Every line recorded so far, in order: first those in the file, then those still buffered. */
    function Recorded(): seq<string>
    {
      file + entries
    }
  }

  /** The configuration parts of two sinks agree. */
  predicate SameConfig(a: Sink, b: Sink)
  {
    a.threshold == b.threshold && a.writable == b.writable
  }

  /** A sink after an operation that may fail, and whether it succeeded. */
  datatype Attempt = Attempt(sink: Sink, ok: bool)

  /**
   * `persistNegativeReviews`: nothing to do for an empty buffer; otherwise the
   * buffered lines are appended to the file, in buffer order, and the buffer and
   * its counter are cleared. Failing to open the file leaves everything as it was.
   */
  function Flush(s: Sink): (r: Attempt)
    ensures SameConfig(r.sink, s)
    ensures r.sink.Recorded() == s.Recorded()
    ensures r.ok <==> s.entries == [] || s.writable
    ensures r.ok ==> r.sink.entries == [] && r.sink.file == s.file + s.entries
    ensures !r.ok ==> r.sink == s
    ensures s.Valid() ==> r.sink.Valid()
  {
    if s.entries == [] then Attempt(s, true)
    else if !s.writable then Attempt(s, false)
    else Attempt(s.(entries := [], bytes := 0, file := s.file + s.entries), true)
  }

  /**
   * `handleNegativeReview`: buffer the review and count its bytes; once the
   * count reaches the threshold, flush.
   */
  function Record(s: Sink, review: string): (r: Attempt)
    ensures SameConfig(r.sink, s)
    ensures r.sink.Recorded() == s.Recorded() + [review]
    ensures s.Valid() ==> r.sink.Valid()
    ensures s.Valid() && r.ok ==> r.sink.Below()
    ensures r.ok <==> s.bytes + |review| < s.threshold || s.writable
    ensures s.bytes + |review| < s.threshold ==> r.sink.entries == s.entries + [review] && r.sink.file == s.file
    ensures s.bytes + |review| >= s.threshold && r.ok ==> r.sink.entries == [] && r.sink.file == s.file + s.entries + [review]
  {
    var added := s.(entries := s.entries + [review], bytes := s.bytes + |review|);
    assert added.entries[..|added.entries| - 1] == s.entries;
    if added.bytes >= added.threshold then Flush(added) else Attempt(added, true)
  }

  /**
   * The keyword loop of `analyzeReview` over `keywords`: record the review once
   * for each keyword it matches, stopping at the first failed record.
   */
  function AnalyzeWith(s: Sink, review: string, keywords: seq<string>): (r: Attempt)
    ensures SameConfig(r.sink, s)
    ensures s.Valid() ==> r.sink.Valid()
    decreases |keywords|
  {
    if keywords == [] then Attempt(s, true)
    else if Matches(review, keywords[0]) then
      var a := Record(s, review);
      if a.ok then AnalyzeWith(a.sink, review, keywords[1..]) else a
    else AnalyzeWith(s, review, keywords[1..])
  }

  /** `analyzeReview` over the fixed keyword list. */
  function Analyze(s: Sink, review: string): (r: Attempt)
    ensures s.writable ==> r.ok
    ensures s.Valid() ==> r.sink.Valid()
  {
    AnalyzeRecordsEachMatch(s, review, Keywords);
    AnalyzeWith(s, review, Keywords)
  }

  /**
   * Analyzing a review records it once per matching keyword. A failed analysis
   * has still recorded it once for each keyword up to the one whose flush failed.
   * A writable sink never fails.
   */
  lemma {:induction false} AnalyzeRecordsEachMatch(s: Sink, review: string, keywords: seq<string>)
    ensures var r := AnalyzeWith(s, review, keywords);
      r.ok ==> r.sink.Recorded() == s.Recorded() + Copies(review, |MatchedKeywords(review, keywords)|)
    ensures var r := AnalyzeWith(s, review, keywords);
      !r.ok ==> exists n :: 0 < n <= |MatchedKeywords(review, keywords)| && r.sink.Recorded() == s.Recorded() + Copies(review, n)
    ensures s.writable ==> AnalyzeWith(s, review, keywords).ok
    decreases |keywords|
  {
    if keywords != [] {
      var rest := MatchedKeywords(review, keywords[1..]);
      if Matches(review, keywords[0]) {
        assert MatchedKeywords(review, keywords) == [keywords[0]] + rest;
        var a := Record(s, review);
        if a.ok {
          AnalyzeRecordsEachMatch(a.sink, review, keywords[1..]);
          var r := AnalyzeWith(a.sink, review, keywords[1..]);
          if r.ok {
            assert [review] + Copies(review, |rest|) == Copies(review, |rest| + 1);
          } else {
            var n :| 0 < n <= |rest| && r.sink.Recorded() == a.sink.Recorded() + Copies(review, n);
            assert [review] + Copies(review, n) == Copies(review, n + 1);
            assert r.sink.Recorded() == s.Recorded() + Copies(review, n + 1);
          }
        } else {
          assert [review] == Copies(review, 1);
          assert a.sink.Recorded() == s.Recorded() + Copies(review, 1);
        }
      } else {
        assert MatchedKeywords(review, keywords) == rest;
        AnalyzeRecordsEachMatch(s, review, keywords[1..]);
      }
    }
  }

  /** A successful analysis of a review leaves a buffer that was below the threshold below it. */
  lemma {:induction false} AnalyzeKeepsBound(s: Sink, review: string, keywords: seq<string>)
    requires s.Valid() && s.Below()
    ensures var r := AnalyzeWith(s, review, keywords); r.ok ==> r.sink.Below()
    decreases |keywords|
  {
    if keywords != [] {
      if Matches(review, keywords[0]) {
        var a := Record(s, review);
        if a.ok {
          AnalyzeKeepsBound(a.sink, review, keywords[1..]);
        }
      } else {
        AnalyzeKeepsBound(s, review, keywords[1..]);
      }
    }
  }

  /** Analyze `lines` in order, ignoring failures (as `parseLines` does). */
  function AnalyzeLines(s: Sink, lines: seq<string>): (r: Sink)
    ensures SameConfig(r, s)
    ensures s.Valid() ==> r.Valid()
    decreases |lines|
  {
    if lines == [] then s else AnalyzeLines(Analyze(s, lines[0]).sink, lines[1..])
  }

  /** Analyzing a line and then more lines is analyzing them all. */
  lemma AnalyzeLinesStep(s: Sink, line: string, lines: seq<string>)
    ensures AnalyzeLines(s, [line] + lines) == AnalyzeLines(Analyze(s, line).sink, lines)
  {
    assert ([line] + lines)[1..] == lines;
  }

  /** The matches the classifier reports for `lines`: each line once per keyword it matches, in line order. */
  function Expected(lines: seq<string>): seq<string>
  {
    if lines == [] then [] else Copies(lines[0], |MatchedKeywords(lines[0], Keywords)|) + Expected(lines[1..])
  }

  /** The reports for a single line are that line once per keyword it matches. */
  lemma ExpectedSingle(line: string)
    ensures Expected([line]) == Copies(line, |MatchedKeywords(line, Keywords)|)
  {
    var lines := [line];
    assert lines[0] == line && lines[1..] == [];
    var reported := Copies(line, |MatchedKeywords(line, Keywords)|);
    assert Expected(lines) == reported + Expected([]);
    assert reported + [] == reported;
  }

  /** The reports for consecutive runs of lines are the reports for each run, one after the other. */
  lemma {:induction false} ExpectedAppend(front: seq<string>, back: seq<string>)
    ensures Expected(front + back) == Expected(front) + Expected(back)
    decreases |front|
  {
    if front == [] {
      assert front + back == back;
    } else {
      assert (front + back)[0] == front[0];
      assert (front + back)[1..] == front[1..] + back;
      ExpectedAppend(front[1..], back);
    }
  }

  /**
   * With a writable output file, analyzing lines records exactly the reports of
   * the classifier, in order: nothing is lost, duplicated or reordered between
   * the buffer and the file.
   */
  lemma {:induction false} AnalyzeLinesRecordsAll(s: Sink, lines: seq<string>)
    requires s.writable
    ensures AnalyzeLines(s, lines).Recorded() == s.Recorded() + Expected(lines)
    decreases |lines|
  {
    if lines != [] {
      var a := Analyze(s, lines[0]);
      var reported := Copies(lines[0], |MatchedKeywords(lines[0], Keywords)|);
      AnalyzeRecordsEachMatch(s, lines[0], Keywords);
      assert a.ok && a.sink.Recorded() == s.Recorded() + reported;
      AnalyzeLinesRecordsAll(a.sink, lines[1..]);
      assert AnalyzeLines(s, lines) == AnalyzeLines(a.sink, lines[1..]);
      var before, later := s.Recorded(), Expected(lines[1..]);
      assert Expected(lines) == reported + later;
      AppendAssociative(before, reported, later);
    }
  }

  /** With a writable output file, the buffer stays below the threshold across analyses. */
  lemma {:induction false} AnalyzeLinesKeepsBound(s: Sink, lines: seq<string>)
    requires s.Valid() && s.Below() && s.writable
    ensures AnalyzeLines(s, lines).Below()
    decreases |lines|
  {
    if lines != [] {
      var a := Analyze(s, lines[0]);
      AnalyzeRecordsEachMatch(s, lines[0], Keywords);
      AnalyzeKeepsBound(s, lines[0], Keywords);
      AnalyzeLinesKeepsBound(a.sink, lines[1..]);
    }
  }
}
