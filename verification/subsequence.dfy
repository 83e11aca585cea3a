/** The fuzzy "subsequence" test of the scorer (core/scoring.go `isSubsequence`): the
    declarative definition, the facts the scorer's bands rest on, and the source's greedy
    scan proved to decide it. */
module Subsequence {

  /** `q` is obtained from `t` by deleting characters: the first character of `t` is
      either used for the first character of `q` or skipped. */
  predicate IsSubsequence(q: string, t: string)
    decreases |t|
  {
    q == [] || (t != [] && ((q[0] == t[0] && IsSubsequence(q[1..], t[1..])) || IsSubsequence(q, t[1..])))
  }

  /** Dropping the first character of the pattern keeps it a subsequence. */
  lemma {:induction false} DropPatternHead(q: string, t: string)
    requires q != [] && IsSubsequence(q, t)
    ensures IsSubsequence(q[1..], t)
    decreases |t|
  {
    if q[0] == t[0] && IsSubsequence(q[1..], t[1..]) {
      SkipTextHead(q[1..], t);
    } else {
      DropPatternHead(q, t[1..]);
      SkipTextHead(q[1..], t);
    }
  }

  lemma SkipTextHead(q: string, t: string)
    requires t != [] && IsSubsequence(q, t[1..])
    ensures IsSubsequence(q, t)
  {
  }

  /** Matching a character greedily never loses a match: when the heads agree, the whole
      question reduces to the tails. */
  lemma GreedyIsSafe(q: string, t: string)
    requires q != [] && t != [] && q[0] == t[0]
    ensures IsSubsequence(q, t) <==> IsSubsequence(q[1..], t[1..])
  {
    if IsSubsequence(q, t) && !IsSubsequence(q[1..], t[1..]) {
      DropPatternHead(q, t[1..]);
    }
  }

  /** A subsequence is never longer than the text, and one of the same length is the
      text itself. */
  lemma {:induction false} SubsequenceLength(q: string, t: string)
    requires IsSubsequence(q, t)
    ensures |q| <= |t|
    ensures |q| == |t| ==> q == t
    decreases |t|
  {
    if q != [] {
      if q[0] == t[0] && IsSubsequence(q[1..], t[1..]) {
        SubsequenceLength(q[1..], t[1..]);
        if |q| == |t| {
          assert q == [q[0]] + q[1..];
          assert t == [t[0]] + t[1..];
        }
      } else {
        SubsequenceLength(q, t[1..]);
      }
    }
  }

  /** Every text is a subsequence of itself. */
  lemma {:induction false} SubsequenceReflexive(t: string)
    ensures IsSubsequence(t, t)
    decreases |t|
  {
    if t != [] {
      SubsequenceReflexive(t[1..]);
    }
  }

  /** A prefix of the text is a subsequence of it. */
  lemma {:induction false} PrefixIsSubsequence(q: string, t: string)
    requires q <= t
    ensures IsSubsequence(q, t)
    decreases |t|
  {
    if q != [] {
      assert q[1..] <= t[1..];
      PrefixIsSubsequence(q[1..], t[1..]);
    }
  }

  /** A subsequence of a suffix of the text is a subsequence of the text. */
  lemma {:induction false} SubsequenceOfSuffix(q: string, t: string, k: nat)
    requires k <= |t| && IsSubsequence(q, t[k..])
    ensures IsSubsequence(q, t)
    decreases k
  {
    if k > 0 {
      assert t[1..][k - 1..] == t[k..];
      SubsequenceOfSuffix(q, t[1..], k - 1);
    }
  }

  /** A contiguous piece of the text is a subsequence of it. */
  lemma SubstringIsSubsequence(q: string, t: string, k: nat)
    requires k + |q| <= |t| && t[k..k + |q|] == q
    ensures IsSubsequence(q, t)
  {
    assert q <= t[k..];
    PrefixIsSubsequence(q, t[k..]);
    SubsequenceOfSuffix(q, t, k);
  }

  /** The source's scan: walk the text once, advancing in the query on every match. */
  method IsSubsequenceScan(query: string, text: string) returns (b: bool)
    ensures query == [] ==> b
    ensures query != [] && text == [] ==> !b
    ensures b <==> IsSubsequence(query, text)
  {
    if |query| == 0 {
      return true;
    }
    if |text| == 0 {
      return false;
    }
    var queryIdx := 0;
    var i := 0;
    while i < |text| && queryIdx < |query|
      invariant 0 <= i <= |text| && 0 <= queryIdx <= |query|
      invariant IsSubsequence(query, text) <==> IsSubsequence(query[queryIdx..], text[i..])
    {
      var q, t := query[queryIdx..], text[i..];
      assert t[1..] == text[i + 1..];
      if text[i] == query[queryIdx] {
        assert q[1..] == query[queryIdx + 1..];
        GreedyIsSafe(q, t);
        queryIdx := queryIdx + 1;
      }
      i := i + 1;
    }
    b := queryIdx == |query|;
  }
}
