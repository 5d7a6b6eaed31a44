/**
 * The pieces of Go's `strings` and `bufio` packages that the pipeline relies on:
 * lower-casing, prefix and substring tests, and `bufio.ScanLines` run over a
 * whole chunk. Text is a sequence of characters, one character per byte.
 */
module Text {

  /** ASCII lower-casing of one character. */
  function LowerChar(c: char): char
  {
    if 'A' <= c <= 'Z' then (c as int + 32) as char else c
  }

  /** `strings.ToLower`, restricted to ASCII letters. */
  function Lower(s: string): (r: string)
    ensures |r| == |s|
    ensures forall i :: 0 <= i < |r| ==> !('A' <= r[i] <= 'Z')
    ensures forall i :: 0 <= i < |r| && !('A' <= s[i] <= 'Z') ==> r[i] == s[i]
    ensures forall i :: 0 <= i < |r| && 'A' <= s[i] <= 'Z' ==> r[i] == (s[i] as int + 32) as char
  {
    seq(|s|, i requires 0 <= i < |s| => LowerChar(s[i]))
  }

  /** Lower-casing twice is lower-casing once. */
  lemma LowerIdempotent(s: string)
    ensures Lower(Lower(s)) == Lower(s)
  {
    var l := Lower(s);
    assert forall i :: 0 <= i < |l| ==> Lower(l)[i] == l[i];
  }

  /** `part` occurs in `text` starting at index `i`. */
  predicate OccursAt(text: string, part: string, i: nat)
  {
    i + |part| <= |text| && text[i..i + |part|] == part
  }

  /** `strings.Contains(text, part)`, defined by walking along `text`. */
  predicate Contains(text: string, part: string)
    decreases |text|
  {
    part <= text || (|text| > 0 && Contains(text[1..], part))
  }

  /** The walking definition of Contains agrees with "occurs at some index". */
  lemma {:induction false} ContainsIffOccurs(text: string, part: string)
    ensures Contains(text, part) <==> exists i: nat :: OccursAt(text, part, i)
    decreases |text|
  {
    if part <= text {
      assert OccursAt(text, part, 0);
    } else if |text| > 0 {
      ContainsIffOccurs(text[1..], part);
      if Contains(text[1..], part) {
        var i: nat :| OccursAt(text[1..], part, i);
        assert text[1..][i..i + |part|] == text[i + 1..i + 1 + |part|];
        assert OccursAt(text, part, i + 1);
      }
      if i: nat :| OccursAt(text, part, i) {
        assert i != 0;
        assert text[1..][i - 1..i - 1 + |part|] == text[i..i + |part|];
        assert OccursAt(text[1..], part, i - 1);
      }
    }
  }

  /** `bytes.IndexByte(s, '\n')`, or `|s|` when `s` holds no newline. */
  function LineEnd(s: string): (i: nat)
    ensures i <= |s|
    ensures i < |s| ==> s[i] == '\n'
    ensures forall j :: 0 <= j < i ==> s[j] != '\n'
    decreases |s|
  {
    if s == [] || s[0] == '\n' then 0 else 1 + LineEnd(s[1..])
  }

  /** bufio's `dropCR`: removes one trailing carriage return. */
  function DropCR(s: string): string
  {
    if |s| > 0 && s[|s| - 1] == '\r' then s[..|s| - 1] else s
  }

  /**
   * The tokens a `bufio.Scanner` using `ScanLines` yields for the whole of `s`:
   * split on '\n', one trailing '\r' dropped from each token, no empty final
   * token when `s` ends in '\n', and no token at all for empty input.
   */
  function ScanLines(s: string): seq<string>
    decreases |s|
  {
    if s == [] then []
    else
      var i := LineEnd(s);
      if i == |s| then [DropCR(s)] else [DropCR(s[..i])] + ScanLines(s[i + 1..])
  }

  /**
   * The scanner yields one token per newline, and one more for text that does
   * not end in a newline.
   */
  lemma {:induction false} ScanLinesCount(s: string)
    ensures |ScanLines(s)| == multiset(s)['\n'] + if s == [] || s[|s| - 1] == '\n' then 0 else 1
    decreases |s|
  {
    if s != [] {
      var i := LineEnd(s);
      if i == |s| {
        assert multiset(s)['\n'] == 0;
      } else {
        var rest := s[i + 1..];
        NewlineSplit(s, i);
        assert |ScanLines(s)| == 1 + |ScanLines(rest)|;
        ScanLinesCount(rest);
        if rest != [] {
          assert s[|s| - 1] == rest[|rest| - 1];
        }
      }
    }
  }

  /** Cutting the text at its first newline splits its newline count. */
  lemma NewlineSplit(s: string, i: nat)
    requires i < |s| && s[i] == '\n'
    requires forall j :: 0 <= j < i ==> s[j] != '\n'
    ensures multiset(s)['\n'] == multiset(s[i + 1..])['\n'] + 1
  {
    assert s == s[..i] + [s[i]] + s[i + 1..];
    assert '\n' !in s[..i];
  }

  /** The text made of each line followed by a newline. */
  function Unlines(lines: seq<string>): string
  {
    if lines == [] then "" else lines[0] + "\n" + Unlines(lines[1..])
  }

  /** No token the scanner yields contains a newline. */
  lemma {:induction false} ScanLinesHaveNoNewline(s: string)
    ensures forall k :: 0 <= k < |ScanLines(s)| ==> '\n' !in ScanLines(s)[k]
    decreases |s|
  {
    if s != [] {
      var i := LineEnd(s);
      if i == |s| {
        assert '\n' !in s;
      } else {
        assert '\n' !in s[..i];
        ScanLinesHaveNoNewline(s[i + 1..]);
      }
    }
  }

  /**
   * Scanning loses nothing but the line terminators: for text without carriage
   * returns, writing the tokens back one per line gives the text again, with a
   * final newline added when the text lacked one.
   */
  lemma {:induction false} UnlinesOfScanLines(s: string)
    requires '\r' !in s
    ensures Unlines(ScanLines(s)) == if s == [] || s[|s| - 1] == '\n' then s else s + "\n"
    decreases |s|
  {
    if s != [] {
      var i := LineEnd(s);
      if i == |s| {
        assert DropCR(s) == s;
      } else {
        var line, rest := s[..i], s[i + 1..];
        assert s == line + "\n" + rest;
        assert DropCR(line) == line by {
          assert line == [] || line[|line| - 1] == s[i - 1];
        }
        assert ScanLines(s) == [line] + ScanLines(rest);
        var r := Unlines(ScanLines(rest));
        assert Unlines(ScanLines(s)) == line + "\n" + r;
        UnlinesOfScanLines(rest);
        if rest == [] {
          assert s[|s| - 1] == '\n';
        } else {
          assert s[|s| - 1] == rest[|rest| - 1];
          if rest[|rest| - 1] != '\n' {
            assert line + "\n" + (rest + "\n") == s + "\n";
          }
        }
      }
    }
  }

  /**
   * Conversely, scanning text written one line per line gives the lines back,
   * provided no line holds a line terminator.
   */
  lemma {:induction false} ScanLinesOfUnlines(lines: seq<string>)
    requires forall k :: 0 <= k < |lines| ==> '\n' !in lines[k] && '\r' !in lines[k]
    ensures ScanLines(Unlines(lines)) == lines
    decreases |lines|
  {
    if lines != [] {
      var first := lines[0];
      var rest := Unlines(lines[1..]);
      var s := Unlines(lines);
      assert s == first + "\n" + rest;
      assert s[|first|] == '\n';
      var i := LineEnd(s);
      assert forall j :: 0 <= j < |first| ==> s[j] == first[j];
      assert i == |first|;
      assert s[..i] == first;
      assert s[i + 1..] == rest;
      assert DropCR(first) == first;
      ScanLinesOfUnlines(lines[1..]);
    }
  }
}
