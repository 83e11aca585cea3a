/** Unit-cost Levenshtein distance (core/scoring.go `levenshteinDistance`): the recursive
    definition over prefixes and the source's two-dimensional table proved to compute it. */
module EditDistance {

  function Min3(a: nat, b: nat, c: nat): (m: nat)
    ensures m <= a && m <= b && m <= c
    ensures m == a || m == b || m == c
  {
    if a <= b && a <= c then a else if b <= c then b else c
  }

  /** The edit distance between the prefixes `a[..i]` and `b[..j]`, where inserting,
      deleting or substituting one character each cost 1. */
  function Dist(a: string, b: string, i: nat, j: nat): nat
    requires i <= |a| && j <= |b|
    decreases i + j
  {
    if i == 0 then j
    else if j == 0 then i
    else Min3(Dist(a, b, i - 1, j) + 1,
              Dist(a, b, i, j - 1) + 1,
              Dist(a, b, i - 1, j - 1) + (if a[i - 1] == b[j - 1] then 0 else 1))
  }

  /** The edit distance between two whole strings. */
  function Levenshtein(a: string, b: string): nat {
    Dist(a, b, |a|, |b|)
  }

  /** Distance zero means the two prefixes are the same text. */
  lemma {:induction false} DistZeroMeansEqual(a: string, b: string, i: nat, j: nat)
    requires i <= |a| && j <= |b|
    requires Dist(a, b, i, j) == 0
    ensures a[..i] == b[..j]
    decreases i + j
  {
    if i > 0 && j > 0 {
      DistZeroMeansEqual(a, b, i - 1, j - 1);
      assert a[..i] == a[..i - 1] + [a[i - 1]];
      assert b[..j] == b[..j - 1] + [b[j - 1]];
    }
  }

  /** Equal prefixes are at distance zero. */
  lemma {:induction false} DistOfSamePrefix(a: string, i: nat)
    requires i <= |a|
    ensures Dist(a, a, i, i) == 0
  {
    if i > 0 {
      DistOfSamePrefix(a, i - 1);
    }
  }

  /** The distance is zero exactly when the strings are equal; against the empty string it
      is the other string's length. */
  lemma LevenshteinFacts(a: string, b: string)
    ensures Levenshtein(a, b) == 0 <==> a == b
    ensures Levenshtein("", b) == |b|
    ensures Levenshtein(a, "") == |a|
  {
    if Levenshtein(a, b) == 0 {
      DistZeroMeansEqual(a, b, |a|, |b|);
      assert a[..|a|] == a && b[..|b|] == b;
    }
    if a == b {
      DistOfSamePrefix(a, |a|);
    }
  }

  /** The source's dynamic programme: a (|s1|+1) x (|s2|+1) table whose first column and
      first row hold the distances to the empty prefix, filled row by row. */
  method LevenshteinTable(s1: string, s2: string) returns (d: nat)
    ensures d == Levenshtein(s1, s2)
  {
    if |s1| == 0 {
      return |s2|;
    }
    if |s2| == 0 {
      return |s1|;
    }
    var matrix := new nat[|s1| + 1, |s2| + 1];
    var i := 0;
    while i <= |s1|
      invariant 0 <= i <= |s1| + 1
      invariant forall p :: 0 <= p < i ==> matrix[p, 0] == p
    {
      matrix[i, 0] := i;
      i := i + 1;
    }
    var j := 0;
    while j <= |s2|
      invariant 0 <= j <= |s2| + 1
      invariant forall p :: 0 <= p <= |s1| ==> matrix[p, 0] == p
      invariant forall q :: 0 <= q < j ==> matrix[0, q] == q
    {
      matrix[0, j] := j;
      j := j + 1;
    }
    i := 1;
    while i <= |s1|
      invariant 1 <= i <= |s1| + 1
      invariant RowDone(matrix, s1, s2, i - 1)
      invariant forall p :: i <= p <= |s1| ==> matrix[p, 0] == p
    {
      FillRow(matrix, s1, s2, i);
      i := i + 1;
    }
    d := matrix[|s1|, |s2|];
  }

  /** Row `p` of the table holds the distances from `s1[..p]` to every prefix of `s2`. */
  ghost predicate RowDone(matrix: array2<nat>, s1: string, s2: string, p: nat)
    reads matrix
  {
    && matrix.Length0 == |s1| + 1 && matrix.Length1 == |s2| + 1 && p <= |s1|
    && forall q {:trigger matrix[p, q]} :: 0 <= q <= |s2| ==> matrix[p, q] == Dist(s1, s2, p, q)
  }

  /** Fills row `i` of the table from row `i - 1`; the first column below it is kept. */
  method FillRow(matrix: array2<nat>, s1: string, s2: string, i: nat)
    requires 1 <= i <= |s1|
    requires RowDone(matrix, s1, s2, i - 1)
    requires matrix[i, 0] == i
    modifies matrix
    ensures RowDone(matrix, s1, s2, i)
    ensures forall p :: i < p <= |s1| ==> matrix[p, 0] == old(matrix[p, 0])
  {
    var j := 1;
    while j <= |s2|
      invariant 1 <= j <= |s2| + 1
      invariant RowDone(matrix, s1, s2, i - 1)
      invariant forall q {:trigger matrix[i, q]} :: 0 <= q < j ==> matrix[i, q] == Dist(s1, s2, i, q)
      invariant forall p :: i < p <= |s1| ==> matrix[p, 0] == old(matrix[p, 0])
    {
      var cost := if s1[i - 1] != s2[j - 1] then 1 else 0;
      var up, left, diag := matrix[i - 1, j], matrix[i, j - 1], matrix[i - 1, j - 1];
      assert up == Dist(s1, s2, i - 1, j) && diag == Dist(s1, s2, i - 1, j - 1);
      matrix[i, j] := Min3(up + 1, left + 1, diag + cost);
      assert matrix[i, j] == Dist(s1, s2, i, j);
      j := j + 1;
    }
  }

  /** The distances the source's tests expect. */
  lemma KnownDistances()
    ensures Levenshtein("", "") == 0
    ensures Levenshtein("a", "") == 1
    ensures Levenshtein("", "a") == 1
    ensures Levenshtein("abc", "abd") == 1
  {
    AbcAbd("abc", "abd");
  }

  /** "abc" against "abd", cell by cell. */
  lemma AbcAbd(a: string, b: string)
    requires a == "abc" && b == "abd"
    ensures Dist(a, b, 3, 3) == 1
  {
    Cell(a, b, 1, 1); Cell(a, b, 1, 2); Cell(a, b, 1, 3);
    Cell(a, b, 2, 1); Cell(a, b, 2, 2); Cell(a, b, 2, 3);
    Cell(a, b, 3, 1); Cell(a, b, 3, 2); Cell(a, b, 3, 3);
  }

  /** One cell of the table: the recurrence unfolded once. */
  lemma Cell(a: string, b: string, i: nat, j: nat)
    requires 1 <= i <= |a| && 1 <= j <= |b|
    ensures Dist(a, b, i, j) == Min3(Dist(a, b, i - 1, j) + 1, Dist(a, b, i, j - 1) + 1,
                                     Dist(a, b, i - 1, j - 1) + (if a[i - 1] == b[j - 1] then 0 else 1))
  {
  }

  /** Row `i` of the table for "kitten" against "sitting" follows from row `i - 1`; the
      strings are parameters so that each cell unfolds the recurrence only once. */
  lemma KittenRow1(a: string, b: string)
    requires a == "kitten" && b == "sitting"
    ensures Dist(a, b, 1, 1) == 1 && Dist(a, b, 1, 2) == 2 && Dist(a, b, 1, 3) == 3 && Dist(a, b, 1, 4) == 4 && Dist(a, b, 1, 5) == 5 && Dist(a, b, 1, 6) == 6 && Dist(a, b, 1, 7) == 7
  {
    Cell(a, b, 1, 1);
    Cell(a, b, 1, 2);
    Cell(a, b, 1, 3);
    Cell(a, b, 1, 4);
    Cell(a, b, 1, 5);
    Cell(a, b, 1, 6);
    Cell(a, b, 1, 7);
  }

  lemma KittenRow2(a: string, b: string)
    requires a == "kitten" && b == "sitting"
    requires Dist(a, b, 1, 1) == 1 && Dist(a, b, 1, 2) == 2 && Dist(a, b, 1, 3) == 3 && Dist(a, b, 1, 4) == 4 && Dist(a, b, 1, 5) == 5 && Dist(a, b, 1, 6) == 6 && Dist(a, b, 1, 7) == 7
    ensures Dist(a, b, 2, 1) == 2 && Dist(a, b, 2, 2) == 1 && Dist(a, b, 2, 3) == 2 && Dist(a, b, 2, 4) == 3 && Dist(a, b, 2, 5) == 4 && Dist(a, b, 2, 6) == 5 && Dist(a, b, 2, 7) == 6
  {
    Cell(a, b, 2, 1);
    Cell(a, b, 2, 2);
    Cell(a, b, 2, 3);
    Cell(a, b, 2, 4);
    Cell(a, b, 2, 5);
    Cell(a, b, 2, 6);
    Cell(a, b, 2, 7);
  }

  lemma KittenRow3(a: string, b: string)
    requires a == "kitten" && b == "sitting"
    requires Dist(a, b, 2, 1) == 2 && Dist(a, b, 2, 2) == 1 && Dist(a, b, 2, 3) == 2 && Dist(a, b, 2, 4) == 3 && Dist(a, b, 2, 5) == 4 && Dist(a, b, 2, 6) == 5 && Dist(a, b, 2, 7) == 6
    ensures Dist(a, b, 3, 1) == 3 && Dist(a, b, 3, 2) == 2 && Dist(a, b, 3, 3) == 1 && Dist(a, b, 3, 4) == 2 && Dist(a, b, 3, 5) == 3 && Dist(a, b, 3, 6) == 4 && Dist(a, b, 3, 7) == 5
  {
    Cell(a, b, 3, 1);
    Cell(a, b, 3, 2);
    Cell(a, b, 3, 3);
    Cell(a, b, 3, 4);
    Cell(a, b, 3, 5);
    Cell(a, b, 3, 6);
    Cell(a, b, 3, 7);
  }

  lemma KittenRow4(a: string, b: string)
    requires a == "kitten" && b == "sitting"
    requires Dist(a, b, 3, 1) == 3 && Dist(a, b, 3, 2) == 2 && Dist(a, b, 3, 3) == 1 && Dist(a, b, 3, 4) == 2 && Dist(a, b, 3, 5) == 3 && Dist(a, b, 3, 6) == 4 && Dist(a, b, 3, 7) == 5
    ensures Dist(a, b, 4, 1) == 4 && Dist(a, b, 4, 2) == 3 && Dist(a, b, 4, 3) == 2 && Dist(a, b, 4, 4) == 1 && Dist(a, b, 4, 5) == 2 && Dist(a, b, 4, 6) == 3 && Dist(a, b, 4, 7) == 4
  {
    Cell(a, b, 4, 1);
    Cell(a, b, 4, 2);
    Cell(a, b, 4, 3);
    Cell(a, b, 4, 4);
    Cell(a, b, 4, 5);
    Cell(a, b, 4, 6);
    Cell(a, b, 4, 7);
  }

  lemma KittenRow5(a: string, b: string)
    requires a == "kitten" && b == "sitting"
    requires Dist(a, b, 4, 1) == 4 && Dist(a, b, 4, 2) == 3 && Dist(a, b, 4, 3) == 2 && Dist(a, b, 4, 4) == 1 && Dist(a, b, 4, 5) == 2 && Dist(a, b, 4, 6) == 3 && Dist(a, b, 4, 7) == 4
    ensures Dist(a, b, 5, 1) == 5 && Dist(a, b, 5, 2) == 4 && Dist(a, b, 5, 3) == 3 && Dist(a, b, 5, 4) == 2 && Dist(a, b, 5, 5) == 2 && Dist(a, b, 5, 6) == 3 && Dist(a, b, 5, 7) == 4
  {
    Cell(a, b, 5, 1);
    Cell(a, b, 5, 2);
    Cell(a, b, 5, 3);
    Cell(a, b, 5, 4);
    Cell(a, b, 5, 5);
    Cell(a, b, 5, 6);
    Cell(a, b, 5, 7);
  }

  lemma KittenRow6(a: string, b: string)
    requires a == "kitten" && b == "sitting"
    requires Dist(a, b, 5, 1) == 5 && Dist(a, b, 5, 2) == 4 && Dist(a, b, 5, 3) == 3 && Dist(a, b, 5, 4) == 2 && Dist(a, b, 5, 5) == 2 && Dist(a, b, 5, 6) == 3 && Dist(a, b, 5, 7) == 4
    ensures Dist(a, b, 6, 1) == 6 && Dist(a, b, 6, 2) == 5 && Dist(a, b, 6, 3) == 4 && Dist(a, b, 6, 4) == 3 && Dist(a, b, 6, 5) == 3 && Dist(a, b, 6, 6) == 2 && Dist(a, b, 6, 7) == 3
  {
    Cell(a, b, 6, 1);
    Cell(a, b, 6, 2);
    Cell(a, b, 6, 3);
    Cell(a, b, 6, 4);
    Cell(a, b, 6, 5);
    Cell(a, b, 6, 6);
    Cell(a, b, 6, 7);
  }

  /** The classic example of the source's tests: "kitten" and "sitting" are 3 edits apart. */
  lemma KittenSitting()
    ensures Levenshtein("kitten", "sitting") == 3
  {
    var a, b := "kitten", "sitting";
    KittenRow1(a, b);
    KittenRow2(a, b);
    KittenRow3(a, b);
    KittenRow4(a, b);
    KittenRow5(a, b);
    KittenRow6(a, b);
  }
}
