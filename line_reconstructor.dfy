/**
 * Line reconstruction across chunks: the loop of `parseLines` in sentiment.go,
 * which glues the first fragment of a chunk onto the pending partial line,
 * analyzes the line held so far each time a later fragment arrives, and keeps
 * the last line as the new pending partial line.
 */
module LineReconstructor {
  import opened Text

  /** The lines one `parseLines` call analyzes, in order, and the line it leaves pending. */
  datatype Split = Split(analyzed: seq<string>, pending: string)

  /**
   * The loop of `parseLines` from its second fragment on: `lastLine` is analyzed
   * once per remaining fragment; an empty fragment leaves `lastLine` as it is,
   * any other fragment replaces it.
   */
  function Carry(lastLine: string, rest: seq<string>): (r: Split)
    ensures |r.analyzed| == |rest|
    decreases |rest|
  {
    if rest == [] then Split([], lastLine)
    else
      var tail := Carry(if rest[0] == "" then lastLine else rest[0], rest[1..]);
      Split([lastLine] + tail.analyzed, tail.pending)
  }

  /** One step of the loop: the held line is analyzed, then the next fragment decides the line held. */
  lemma CarryStep(lastLine: string, rest: seq<string>)
    requires rest != []
    ensures var tail := Carry(if rest[0] == "" then lastLine else rest[0], rest[1..]);
      Carry(lastLine, rest) == Split([lastLine] + tail.analyzed, tail.pending)
  {
  }

  /**
   * `parseLines` on a chunk scanned into `fragments`, starting from the pending
   * partial line `pending`: one line is analyzed per fragment after the first.
   */
  function Reconstruct(pending: string, fragments: seq<string>): (r: Split)
    ensures |r.analyzed| == if fragments == [] then 0 else |fragments| - 1
  {
    if fragments == [] then Split([], pending) else Carry(pending + fragments[0], fragments[1..])
  }

  /**
   * Reference definition by position: the value `lastLine` holds once fragment
   * `j` has been scanned. The first fragment extends the pending line; a later
   * fragment replaces it unless it is empty.
   */
  function Current(pending: string, fragments: seq<string>, j: nat): string
    requires j < |fragments|
    decreases j
  {
    if j == 0 then pending + fragments[0]
    else if fragments[j] == "" then Current(pending, fragments, j - 1)
    else fragments[j]
  }

  /** The loop from fragment `k` on analyzes the positional values `Current(k)`, `Current(k + 1)`, .... */
  lemma {:induction false} CarryFollowsCurrent(pending: string, fragments: seq<string>, k: nat)
    requires k < |fragments|
    ensures var r := Carry(Current(pending, fragments, k), fragments[k + 1..]);
      (forall i :: 0 <= i < |fragments| - 1 - k ==> r.analyzed[i] == Current(pending, fragments, k + i))
      && r.pending == Current(pending, fragments, |fragments| - 1)
    decreases |fragments| - k
  {
    if k + 1 < |fragments| {
      var rest := fragments[k + 1..];
      assert rest[0] == fragments[k + 1];
      assert rest[1..] == fragments[k + 2..];
      CarryFollowsCurrent(pending, fragments, k + 1);
      var r := Carry(Current(pending, fragments, k), rest);
      var tail := Carry(Current(pending, fragments, k + 1), fragments[k + 2..]);
      assert r.analyzed == [Current(pending, fragments, k)] + tail.analyzed;
      forall i | 0 < i < |fragments| - 1 - k
        ensures r.analyzed[i] == Current(pending, fragments, k + i)
      {
        assert r.analyzed[i] == tail.analyzed[i - 1];
      }
    } else {
      assert fragments[k + 1..] == [];
    }
  }

  /**
   * Within one chunk, the line analyzed when fragment `i + 1` arrives is the
   * positional value `Current(i)`, and the line left pending is `Current` of the
   * last fragment.
   */
  lemma ReconstructFollowsCurrent(pending: string, fragments: seq<string>)
    requires fragments != []
    ensures var r := Reconstruct(pending, fragments);
      (forall i :: 0 <= i < |r.analyzed| ==> r.analyzed[i] == Current(pending, fragments, i))
      && r.pending == Current(pending, fragments, |fragments| - 1)
  {
    CarryFollowsCurrent(pending, fragments, 0);
  }

  /**
   * The pending slot after a chunk: the old partial line when the chunk yields no
   * fragment, the old partial line extended by the only fragment, or the last
   * fragment when there are several and the last is not empty.
   */
  lemma PendingAfterChunk(pending: string, fragments: seq<string>)
    ensures fragments == [] ==> Reconstruct(pending, fragments).pending == pending
    ensures |fragments| == 1 ==> Reconstruct(pending, fragments).pending == pending + fragments[0]
    ensures |fragments| > 1 && fragments[|fragments| - 1] != "" ==>
              Reconstruct(pending, fragments).pending == fragments[|fragments| - 1]
  {
    if fragments != [] {
      ReconstructFollowsCurrent(pending, fragments);
    }
  }

  /**
   * An empty fragment after the first does not replace the line held so far, so
   * that line is analyzed again when the next fragment arrives, or stays pending
   * when the empty fragment is the chunk's last.
   */
  lemma EmptyFragmentRepeatsLine(pending: string, fragments: seq<string>, i: nat)
    requires 0 < i < |fragments| && fragments[i] == ""
    ensures var r := Reconstruct(pending, fragments);
      (i < |fragments| - 1 ==> r.analyzed[i] == r.analyzed[i - 1])
      && (i == |fragments| - 1 ==> r.pending == r.analyzed[i - 1])
  {
    ReconstructFollowsCurrent(pending, fragments);
  }

  /** A non-empty fragment after the first is analyzed, as it is, when the next fragment arrives. */
  lemma LaterFragmentIsAnalyzed(pending: string, fragments: seq<string>, i: nat)
    requires 0 < i < |fragments| - 1 && fragments[i] != ""
    ensures Reconstruct(pending, fragments).analyzed[i] == fragments[i]
  {
    ReconstructFollowsCurrent(pending, fragments);
  }

  /** `Current(j)` depends on no fragment after `j`. */
  lemma {:induction false} CurrentDependsOnPrefix(pending: string, f: seq<string>, g: seq<string>, j: nat)
    requires j < |f| && j < |g| && f[..j + 1] == g[..j + 1]
    ensures Current(pending, f, j) == Current(pending, g, j)
    decreases j
  {
    assert f[j] == f[..j + 1][j] && g[j] == g[..j + 1][j];
    if j > 0 {
      assert f[..j] == f[..j + 1][..j] && g[..j] == g[..j + 1][..j];
      CurrentDependsOnPrefix(pending, f, g, j - 1);
    } else {
      assert f[0] == g[0];
    }
  }

  /**
   * The chunk's final fragment is never analyzed by `parseLines`: whatever it is,
   * the lines analyzed are the same.
   */
  lemma FinalFragmentNotAnalyzed(pending: string, fragments: seq<string>, last: string, other: string)
    ensures Reconstruct(pending, fragments + [last]).analyzed == Reconstruct(pending, fragments + [other]).analyzed
  {
    var f, g := fragments + [last], fragments + [other];
    ReconstructFollowsCurrent(pending, f);
    ReconstructFollowsCurrent(pending, g);
    forall i | 0 <= i < |fragments|
      ensures Current(pending, f, i) == Current(pending, g, i)
    {
      assert f[..i + 1] == fragments[..i + 1] == g[..i + 1];
      CurrentDependsOnPrefix(pending, f, g, i);
    }
  }

  /**
   * Chunking is not transparent: when a chunk ends right after a newline, its
   * last line stays pending and the next chunk's first line is glued onto it.
   * For lines a and b (b not empty), "a\nb\n" read as one chunk analyzes a and leaves b
   * pending; read as "a\n" then "b\n" it analyzes nothing and leaves a + b.
   */
  lemma {:induction false} ChunkBoundaryAfterNewlineJoinsLines(a: string, b: string)
    requires '\n' !in a && '\r' !in a && '\n' !in b && '\r' !in b && b != ""
    ensures Reconstruct("", ScanLines(a + "\n" + b + "\n")) == Split([a], b)
    ensures Reconstruct(Reconstruct("", ScanLines(a + "\n")).pending, ScanLines(b + "\n")) == Split([], a + b)
  {
    var both, first, second := [a, b], [a], [b];
    assert Unlines(second) == b + "\n" by {
      assert Unlines(second[1..]) == "";
    }
    assert Unlines(first) == a + "\n" by {
      assert Unlines(first[1..]) == "";
    }
    assert Unlines(both) == a + "\n" + b + "\n" by {
      assert both[1..] == second;
    }
    ScanLinesOfUnlines(both);
    ScanLinesOfUnlines(first);
    ScanLinesOfUnlines(second);
    assert "" + a == a;
    assert both[1..] == second;
    assert Reconstruct("", both) == Carry(a, second);
    assert Reconstruct("", first).pending == a;
  }



}
