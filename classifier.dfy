/**
 * The keyword classifier of sentiment.go: a review is negative for every
 * keyword whose lower-cased form occurs in the lower-cased review.
 */
module Classifier {
  import opened Text

  /** The fixed negative-keyword list, in the order `analyzeReview` tries it. */
  const Keywords: seq<string> := [
    "Waste Of time", "Boring", "Terrible acting", "Predictable", "Hated it",
    "Too long", "Bad movie", "Disappointing", "Overrated", "Awful"
  ]

  /** `strings.Contains(strings.ToLower(review), strings.ToLower(keyword))`. */
  predicate Matches(review: string, keyword: string)
  {
    Contains(Lower(review), Lower(keyword))
  }

  /** A review matches a keyword exactly when the lower-cased keyword occurs somewhere in the lower-cased review. */
  lemma MatchesIffOccurs(review: string, keyword: string)
    ensures Matches(review, keyword) <==> exists i: nat :: OccursAt(Lower(review), Lower(keyword), i)
  {
    ContainsIffOccurs(Lower(review), Lower(keyword));
  }

  /** Matching ignores case: lower-casing the review or the keyword changes nothing. */
  lemma MatchesIgnoresCase(review: string, keyword: string)
    ensures Matches(Lower(review), keyword) == Matches(review, keyword)
    ensures Matches(review, Lower(keyword)) == Matches(review, keyword)
  {
    LowerIdempotent(review);
    LowerIdempotent(keyword);
  }

  /** The keywords of `keywords` that `review` matches, in list order. */
  function MatchedKeywords(review: string, keywords: seq<string>): (matched: seq<string>)
    ensures |matched| <= |keywords|
    ensures forall k :: 0 <= k < |matched| ==> Matches(review, matched[k])
    decreases |keywords|
  {
    if keywords == [] then []
    else (if Matches(review, keywords[0]) then [keywords[0]] else []) + MatchedKeywords(review, keywords[1..])
  }

  /**
   * Every keyword is reported exactly as often as it appears in the list when
   * the review matches it, and never otherwise.
   */
  lemma {:induction false} MatchedKeywordsMultiplicity(review: string, keywords: seq<string>, keyword: string)
    ensures multiset(MatchedKeywords(review, keywords))[keyword]
         == if Matches(review, keyword) then multiset(keywords)[keyword] else 0
    decreases |keywords|
  {
    if keywords != [] {
      MatchedKeywordsMultiplicity(review, keywords[1..], keyword);
      assert keywords == [keywords[0]] + keywords[1..];
    }
  }

  /** Matching keeps list order: it distributes over concatenation of keyword lists. */
  lemma {:induction false} MatchedKeywordsAppend(review: string, front: seq<string>, back: seq<string>)
    ensures MatchedKeywords(review, front + back) == MatchedKeywords(review, front) + MatchedKeywords(review, back)
    decreases |front|
  {
    if front == [] {
      assert front + back == back;
    } else {
      assert (front + back)[0] == front[0];
      assert (front + back)[1..] == front[1..] + back;
      MatchedKeywordsAppend(review, front[1..], back);
    }
  }
}
