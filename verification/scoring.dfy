/** The ranking engine of core/scoring.go: date-prefix stripping, the text-score cascade,
    the clamped time score and their weighted combination. Scores are exact reals; the
    exponential decay of the time score and the wall clock are a parameter. */
module Scoring {
  import opened Text
  import opened Subsequence
  import opened EditDistance
  import opened Tokens

  // ---------------------------------------------------------------- names

  /** The checks `ExtractNameFromDirectory` makes: longer than 11 characters with dashes
      at positions 4, 7 and 10. The digits are not checked. */
  predicate HasDatePrefix(dirName: string) {
    |dirName| > 11 && dirName[4] == '-' && dirName[7] == '-' && dirName[10] == '-'
  }

  /** `ExtractNameFromDirectory`: the name is always a suffix of the directory name; it is
      exactly 11 characters shorter when the date prefix is present and the whole
      directory name otherwise. */
  function ExtractNameFromDirectory(dirName: string): (name: string)
    ensures |name| <= |dirName| && dirName[|dirName| - |name|..] == name
    ensures |name| == |dirName| - 11 <==> HasDatePrefix(dirName)
    ensures !HasDatePrefix(dirName) ==> name == dirName
  {
    if HasDatePrefix(dirName) then dirName[11..] else dirName
  }

  /** A date of the `YYYY-MM-DD` shape. */
  predicate IsDateShaped(date: string) {
    |date| == 10 && date[4] == '-' && date[7] == '-'
  }

  /** Prefixing a non-empty name with `<date>-` and extracting gives the name back. */
  lemma ExtractDatedName(date: string, name: string)
    requires IsDateShaped(date) && name != []
    ensures ExtractNameFromDirectory(date + "-" + name) == name
  {
    assert (date + "-" + name)[11..] == name;
  }

  /** The cases the source's tests list. */
  lemma ExtractNameExamples()
    ensures ExtractNameFromDirectory("2025-08-30-my-project") == "my-project"
    ensures ExtractNameFromDirectory("2025-01-01-test") == "test"
    ensures ExtractNameFromDirectory("not-a-date") == "not-a-date"
    ensures ExtractNameFromDirectory("2025-08-30") == "2025-08-30"
    ensures ExtractNameFromDirectory("") == ""
  {
    ExtractDatedName("2025-08-30", "my-project");
    assert "2025-08-30" + "-" + "my-project" == "2025-08-30-my-project";
    ExtractDatedName("2025-01-01", "test");
    assert "2025-01-01" + "-" + "test" == "2025-01-01-test";
    assert |"not-a-date"| == 10 && |"2025-08-30"| == 10;
  }

  // ---------------------------------------------------------------- text score

  function Max(a: nat, b: nat): nat {
    if a > b then a else b
  }

  /** The token branch applies: either side splits into several tokens and some query
      token begins a name token. */
  predicate TokenBranch(q: string, n: string) {
    (|Tokenize(q)| > 1 || |Tokenize(n)| > 1) && TokenScore(Tokenize(q), Tokenize(n)) > 0.0
  }

  /** `calculateTextScore`: an empty query scores 0.5; otherwise both texts are
      lower-cased and matched by the cascade below. */
  function TextScore(name: string, query: string): (r: real)
    ensures query == [] ==> r == 0.5
    ensures 0.0 <= r <= 1.0
    ensures query != [] ==> (r == 1.0 <==> Lower(name) == Lower(query))
  {
    if query == [] then 0.5 else Cascade(Lower(name), Lower(query))
  }

  /** The cascade on lower-cased texts: the first applicable rule of exact, prefix,
      substring, subsequence, token and edit-distance matching decides the score, and each
      rule keeps to its own band. */
  function Cascade(n: string, q: string): (r: real)
    requires q != []
    ensures 0.0 <= r <= 1.0
    ensures r == 1.0 <==> n == q
    ensures n != q && q <= n ==> 0.8 < r < 1.0
    ensures !(q <= n) && Contains(n, q) ==> 0.5 < r < 1.0
    ensures !Contains(n, q) && IsSubsequence(q, n) ==> 0.3 < r < 0.7
    ensures !IsSubsequence(q, n) ==> r <= 0.7
    ensures !IsSubsequence(q, n) && TokenBranch(q, n) ==> 0.0 < r
    ensures !IsSubsequence(q, n) && !TokenBranch(q, n) ==>
              r < 0.2 && (r > 0.0 <==> 3 * Levenshtein(q, n) <= Max(|q|, |n|))
  {
    if n == q then
      SubsequenceReflexive(q);
      1.0
    else if q <= n then
      PrefixIsSubsequence(q, n);
      PrefixScore(|q|, |n|)
    else if Contains(n, q) then
      var position := IndexOf(n, q).value;
      assert position != 0;
      SubstringIsSubsequence(q, n, position);
      SubstringScore(position, |q|, |n|)
    else if IsSubsequence(q, n) then
      SubsequenceLength(q, n);
      SubsequenceScore(|q|, |n|)
    else
      SubsequenceReflexive(q);
      var queryTokens, nameTokens := Tokenize(q), Tokenize(n);
      if (|queryTokens| > 1 || |nameTokens| > 1) && TokenScore(queryTokens, nameTokens) > 0.0 then
        TokenScore(queryTokens, nameTokens) * 0.7
      else
        FuzzyScore(q, n)
  }

  /** A proper prefix scores 0.8 plus up to 0.2 for the share of the name it covers. */
  function PrefixScore(q: nat, n: nat): (r: real)
    requires 0 < q < n
    ensures 0.8 < r < 1.0
  {
    Ratio(q, n);
    0.8 + 0.2 * ((q as real) / (n as real))
  }

  /** A match at a position other than 0 scores strictly between 0.5 and 1: earlier and
      longer matches score more. */
  function SubstringScore(position: nat, q: nat, n: nat): (r: real)
    requires 0 < position && 0 < q && position + q <= n
    ensures 0.5 < r < 1.0
  {
    var positionScore := 1.0 - (position as real) / (n as real);
    var lengthScore := (q as real) / (n as real);
    ShareSum(position, q, n);
    0.5 + 0.3 * positionScore + 0.2 * lengthScore
  }

  /** A scattered match scores 0.3 plus up to 0.4 for the share of the name it covers. */
  function SubsequenceScore(q: nat, n: nat): (r: real)
    requires 0 < q < n
    ensures 0.3 < r < 0.7
  {
    Ratio(q, n);
    0.3 + 0.4 * ((q as real) / (n as real))
  }

  /** The last rule: different texts whose edit distance is at most a third of the longer
      length score below 0.2, nearer texts more; all others score 0. */
  function FuzzyScore(q: string, n: string): (r: real)
    requires q != [] && q != n
    ensures 0.0 <= r < 0.2
    ensures r > 0.0 <==> 3 * Levenshtein(q, n) <= Max(|q|, |n|)
  {
    var distance := Levenshtein(q, n);
    var maxLen := Max(|q|, |n|);
    LevenshteinFacts(q, n);
    if distance <= maxLen / 3 then
      Ratio(distance, maxLen);
      0.2 * (1.0 - (distance as real) / (maxLen as real))
    else 0.0
  }

  /** Two disjoint shares of a length add up to at most the whole. */
  lemma ShareSum(a: nat, b: nat, n: nat)
    requires 0 < a && 0 < b && a + b <= n
    ensures 0.0 < (a as real) / (n as real) && 0.0 < (b as real) / (n as real)
    ensures (a as real) / (n as real) + (b as real) / (n as real) <= 1.0
  {
    var x, y := (a as real) / (n as real), (b as real) / (n as real);
    assert x * (n as real) == a as real;
    assert y * (n as real) == b as real;
    assert (x + y) * (n as real) == x * (n as real) + y * (n as real);
    assert (x + y) * (n as real) == (a + b) as real;
  }

  lemma Ratio(a: nat, b: nat)
    requires 0 < a < b
    ensures 0.0 < (a as real) / (b as real) < 1.0
  {
  }

  // ---------------------------------------------------------------- combined score

  /** `math.Max(0, math.Min(1, x))`. */
  function Clamp01(x: real): (r: real)
    ensures 0.0 <= r <= 1.0
    ensures 0.0 <= x <= 1.0 ==> r == x
  {
    if x < 0.0 then 0.0 else if x > 1.0 then 1.0 else x
  }

  /** `calculateTimeScore`: the decayed age `decay(modTime)` (the exponential of the source,
      read against the wall clock) clamped to [0, 1]. */
  function TimeScore(modTime: int, decay: int -> real): (r: real)
    ensures 0.0 <= r <= 1.0
  {
    Clamp01(decay(modTime))
  }

  /** The `Score` record of core/scoring.go. */
  datatype Score = Score(path: string, name: string, score: real, textScore: real,
                         timeScore: real, modTime: int)

  /** `ScoreDirectory`: the name is the date-stripped directory name, both parts lie in
      [0, 1], and the combined score is 0.7 text + 0.3 time, so it lies in [0, 1] and is
      positive exactly when one of its parts is. */
  function ScoreDirectory(dirName: string, query: string, modTime: int, decay: int -> real): (s: Score)
    ensures s.path == dirName && s.modTime == modTime
    ensures s.name == ExtractNameFromDirectory(dirName)
    ensures s.textScore == TextScore(s.name, query)
    ensures s.timeScore == TimeScore(modTime, decay)
    ensures s.score == 0.7 * s.textScore + 0.3 * s.timeScore
    ensures 0.0 <= s.score <= 1.0
    ensures s.score > 0.0 <==> s.textScore > 0.0 || s.timeScore > 0.0
    ensures query == [] ==> s.score == 0.35 + 0.3 * s.timeScore
  {
    var name := ExtractNameFromDirectory(dirName);
    var textScore := TextScore(name, query);
    var timeScore := TimeScore(modTime, decay);
    Score(dirName, name, textScore * 0.7 + timeScore * 0.3, textScore, timeScore, modTime)
  }

  /** The scorer lower-cases both texts before tokenizing, so on the scoring path the tokens
      are always the plain fields and camel-case splitting adds nothing. */
  lemma ScoringTokensAreFields(text: string)
    ensures Tokenize(Lower(text)) == Fields(Lower(text))
  {
    LowerIsLowerCase(text);
    TokenizeLowerCase(Lower(text));
  }

  /** An exact match beats every other rule for the same name and query. */
  lemma ExactBeatsEverything(name: string, name': string, query: string)
    requires query != [] && Lower(name) == Lower(query) && Lower(name') != Lower(query)
    ensures TextScore(name', query) < TextScore(name, query)
  {
  }
}
