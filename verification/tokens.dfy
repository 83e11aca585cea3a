/** Word splitting for the scorer's token branch (core/scoring.go `tokenize`,
    `splitCamelCase`, `calculateTokenScore`). */
module Tokens {
  import opened Text

  /** The characters `tokenize` splits on. */
  predicate IsSeparator(c: char) {
    c == '-' || c == '_' || c == ' ' || c == '.'
  }

  predicate NoSeparator(s: string) {
    forall i :: 0 <= i < |s| ==> !IsSeparator(s[i])
  }

  /** The text with every separator deleted. */
  function RemoveSeparators(s: string): string {
    if s == [] then []
    else (if IsSeparator(s[0]) then [] else [s[0]]) + RemoveSeparators(s[1..])
  }

  function Concat(pieces: seq<string>): string {
    if pieces == [] then [] else pieces[0] + Concat(pieces[1..])
  }

  lemma ConcatAppend(a: seq<string>, b: seq<string>)
    ensures Concat(a + b) == Concat(a) + Concat(b)
  {
    if a != [] {
      assert (a + b)[1..] == a[1..] + b;
      ConcatAppend(a[1..], b);
      calc {
        Concat(a + b);
        a[0] + Concat(a[1..] + b);
        a[0] + (Concat(a[1..]) + Concat(b));
        (a[0] + Concat(a[1..])) + Concat(b);
      }
    } else {
      assert a + b == b;
    }
  }

  // ---------------------------------------------------------------- fields

  /** `strings.FieldsFunc(s, IsSeparator)` continued from a run `cur` already collected. */
  function FieldsFrom(s: string, cur: string): (fs: seq<string>)
    requires NoSeparator(cur)
    ensures forall k :: 0 <= k < |fs| ==> fs[k] != [] && NoSeparator(fs[k])
    ensures Concat(fs) == cur + RemoveSeparators(s)
    decreases |s|
  {
    if s == [] then
      if cur == [] then [] else [cur]
    else if IsSeparator(s[0]) then
      var rest := FieldsFrom(s[1..], []);
      ConcatAppend(if cur == [] then [] else [cur], rest);
      (if cur == [] then [] else [cur]) + rest
    else
      FieldsFrom(s[1..], cur + [s[0]])
  }

  /** `strings.FieldsFunc(s, IsSeparator)`: the maximal runs between separators. It never
      yields an empty field, no field holds a separator, and the fields put together are
      the text without its separators. */
  function Fields(s: string): (fs: seq<string>)
    ensures forall k :: 0 <= k < |fs| ==> fs[k] != [] && NoSeparator(fs[k])
    ensures Concat(fs) == RemoveSeparators(s)
  {
    FieldsFrom(s, [])
  }

  /** Text with no separator continues the current run to its end. */
  lemma {:induction false} FieldsFromWord(s: string, cur: string)
    requires NoSeparator(cur) && NoSeparator(s)
    ensures FieldsFrom(s, cur) == if cur + s == [] then [] else [cur + s]
    decreases |s|
  {
    if s != [] {
      assert !IsSeparator(s[0]);
      assert cur + s == (cur + [s[0]]) + s[1..];
      FieldsFromWord(s[1..], cur + [s[0]]);
    } else {
      assert cur + s == cur;
    }
  }

  /** A separator ends the current run and the text after it starts afresh. */
  lemma {:induction false} FieldsFromSplit(a: string, c: char, b: string, cur: string)
    requires NoSeparator(cur) && IsSeparator(c)
    ensures FieldsFrom(a + [c] + b, cur) == FieldsFrom(a, cur) + FieldsFrom(b, [])
    decreases |a|
  {
    var head := if cur == [] then [] else [cur];
    if a == [] {
      assert a + [c] + b == [c] + b && ([c] + b)[1..] == b;
    } else {
      assert (a + [c] + b)[0] == a[0] && (a + [c] + b)[1..] == a[1..] + [c] + b;
      if IsSeparator(a[0]) {
        FieldsFromSplit(a[1..], c, b, []);
        assert head + (FieldsFrom(a[1..], []) + FieldsFrom(b, []))
            == (head + FieldsFrom(a[1..], [])) + FieldsFrom(b, []);
      } else {
        FieldsFromSplit(a[1..], c, b, cur + [a[0]]);
      }
    }
  }

  /** A non-empty text without separators is a single field. */
  lemma FieldsOfWord(s: string)
    requires s != [] && NoSeparator(s)
    ensures Fields(s) == [s]
  {
    FieldsFromWord(s, []);
    assert [] + s == s;
  }

  /** The fields around a separator are the fields of each side; with `Fields("") == []`
      and `FieldsOfWord` this determines `Fields` on every text. */
  lemma FieldsSplitAt(a: string, c: char, b: string)
    requires IsSeparator(c)
    ensures Fields(a + [c] + b) == Fields(a) + Fields(b)
    ensures Fields([]) == []
  {
    FieldsFromSplit(a, c, b, []);
  }

  // ---------------------------------------------------------------- camel case

  /** Every piece is non-empty and every piece after the first starts with a capital. */
  predicate CamelPieces(pieces: seq<string>) {
    && (forall k :: 0 <= k < |pieces| ==> pieces[k] != [])
    && (forall k :: 1 <= k < |pieces| ==> IsUpper(pieces[k][0]))
  }

  /** The rule of core/scoring.go:200: an upper-case letter other than the first starts a
      new piece when the next letter is not upper-case or the previous one is not. */
  predicate StartsPiece(s: string, i: nat, current: string)
    requires i < |s|
  {
    i > 0 && IsUpper(s[i])
    && ((i + 1 < |s| && !IsUpper(s[i + 1])) || (|current| > 0 && !IsUpper(current[|current| - 1])))
  }

  /** The same rule read off the text alone: position `i` starts a piece when its letter is
      upper-case and the next letter is not, or the previous one is not. */
  predicate Boundary(s: string, i: nat)
    requires 0 < i < |s|
  {
    IsUpper(s[i]) && ((i + 1 < |s| && !IsUpper(s[i + 1])) || !IsUpper(s[i - 1]))
  }

  /** One mark per character of the joined pieces: true where a non-empty piece starts. */
  function StartMarks(pieces: seq<string>): (marks: seq<bool>)
    ensures |marks| == |Concat(pieces)|
  {
    if pieces == [] then []
    else
      var head := if pieces[0] == [] then [] else [true] + seq(|pieces[0]| - 1, _ => false);
      head + StartMarks(pieces[1..])
  }

  lemma {:induction false} StartMarksAppend(a: seq<string>, b: seq<string>)
    ensures StartMarks(a + b) == StartMarks(a) + StartMarks(b)
  {
    if a != [] {
      assert (a + b)[0] == a[0] && (a + b)[1..] == a[1..] + b;
      StartMarksAppend(a[1..], b);
    } else {
      assert a + b == b;
    }
  }

  /** Growing the last piece by one character marks that character as no start. */
  lemma StartMarksExtend(result: seq<string>, current: string, c: char)
    requires current != []
    ensures StartMarks(result + [current + [c]]) == StartMarks(result + [current]) + [false]
  {
    StartMarksAppend(result, [current + [c]]);
    StartMarksAppend(result, [current]);
    assert [current + [c]][1..] == [] && [current][1..] == [];
  }

  /** A new one-character piece marks that character as a start. */
  lemma StartMarksPush(result: seq<string>, c: char)
    ensures StartMarks(result + [[c]]) == StartMarks(result) + [true]
  {
    StartMarksAppend(result, [[c]]);
    assert [[c]][1..] == [];
  }

  /** The pieces cover the first `n` characters of `s` and start exactly at its boundaries. */
  ghost predicate CutAtBoundaries(s: string, pieces: seq<string>, n: nat)
    requires n <= |s|
  {
    var marks := StartMarks(pieces);
    |marks| == n && forall j :: 0 < j < n ==> (marks[j] <==> Boundary(s, j))
  }

  /** The loop of `splitCamelCase` from position `i`, with the pieces emitted so far and
      the piece being collected. */
  function CamelFrom(s: string, i: nat, result: seq<string>, current: string): (pieces: seq<string>)
    requires i <= |s|
    requires Concat(result) + current == s[..i]
    requires i == 0 ==> result == [] && current == []
    requires i > 0 ==> current != [] && CutAtBoundaries(s, result + [current], i)
    requires CamelPieces(result + [current]) || i == 0
    ensures CamelPieces(pieces)
    ensures Concat(pieces) == s
    ensures CutAtBoundaries(s, pieces, |s|)
    decreases |s| - i
  {
    if i == |s| then
      ConcatAppend(result, [current]);
      assert s[..i] == s;
      if current != [] then result + [current] else result
    else
      var r := s[i];
      assert s[..i + 1] == s[..i] + [r];
      if StartsPiece(s, i, current) && |current| > 0 then
        ConcatAppend(result, [current]);
        CamelCut(s, i, result, current);
        CamelFrom(s, i + 1, result + [current], [r])
      else
        ExtendLastPiece(result, current, r);
        CamelGrow(s, i, result, current);
        CamelFrom(s, i + 1, result, current + [r])
  }

  /** Before position `i > 0` the piece being collected ends with the previous character,
      so the loop's test is `Boundary`. */
  lemma CamelTest(s: string, i: nat, result: seq<string>, current: string)
    requires 0 < i < |s| && current != []
    requires Concat(result) + current == s[..i]
    ensures StartsPiece(s, i, current) <==> Boundary(s, i)
  {
    assert s[..i][i - 1] == (Concat(result) + current)[i - 1];
  }

  /** Starting a new piece at a boundary keeps the pieces cut at the boundaries. */
  lemma CamelCut(s: string, i: nat, result: seq<string>, current: string)
    requires i < |s|
    requires Concat(result) + current == s[..i]
    requires i > 0 ==> current != [] && CutAtBoundaries(s, result + [current], i)
    requires StartsPiece(s, i, current) && |current| > 0
    ensures CutAtBoundaries(s, result + [current] + [[s[i]]], i + 1)
  {
    CamelTest(s, i, result, current);
    StartMarksPush(result + [current], s[i]);
  }

  /** Growing the piece elsewhere keeps the pieces cut at the boundaries. */
  lemma CamelGrow(s: string, i: nat, result: seq<string>, current: string)
    requires i < |s|
    requires Concat(result) + current == s[..i]
    requires i == 0 ==> result == [] && current == []
    requires i > 0 ==> current != [] && CutAtBoundaries(s, result + [current], i)
    requires !(StartsPiece(s, i, current) && |current| > 0)
    ensures CutAtBoundaries(s, result + [current + [s[i]]], i + 1)
  {
    if i == 0 {
      assert current + [s[i]] == [s[i]];
      assert result + [current + [s[i]]] == [] + [[s[i]]];
      StartMarksPush([], s[i]);
    } else {
      CamelTest(s, i, result, current);
      StartMarksExtend(result, current, s[i]);
    }
  }

  lemma ExtendLastPiece(result: seq<string>, current: string, c: char)
    requires (CamelPieces(result + [current]) && current != []) || (result == [] && current == [])
    ensures CamelPieces(result + [current + [c]])
  {
    var before, after := result + [current], result + [current + [c]];
    assert forall k :: 0 <= k < |result| ==> after[k] == before[k];
    if current != [] {
      assert after[|result|][0] == before[|result|][0];
    }
  }

  /** `splitCamelCase`: the pieces are non-empty, put back together they give the input,
      each piece after the first begins with an upper-case letter, and a piece starts at
      position `i > 0` exactly when `Boundary(s, i)` holds. */
  function SplitCamelCase(s: string): (pieces: seq<string>)
    ensures CamelPieces(pieces)
    ensures Concat(pieces) == s
    ensures |StartMarks(pieces)| == |s|
    ensures forall i :: 0 < i < |s| ==> (StartMarks(pieces)[i] <==> Boundary(s, i))
  {
    CamelFrom(s, 0, [], [])
  }

  /** The first piece's marks: a start, then no start up to the next piece. */
  lemma StartMarksHead(pieces: seq<string>)
    requires pieces != [] && pieces[0] != []
    ensures StartMarks(pieces)[0]
    ensures forall j :: 0 < j < |pieces[0]| ==> !StartMarks(pieces)[j]
    ensures StartMarks(pieces)[|pieces[0]|..] == StartMarks(pieces[1..])
  {
  }

  /** Non-empty pieces are fixed by the text they make up and where they start. */
  lemma {:induction false} MarksDetermine(p: seq<string>, q: seq<string>)
    requires forall k :: 0 <= k < |p| ==> p[k] != []
    requires forall k :: 0 <= k < |q| ==> q[k] != []
    requires Concat(p) == Concat(q) && StartMarks(p) == StartMarks(q)
    ensures p == q
    decreases |p|
  {
    if p != [] && q != [] {
      StartMarksHead(p);
      StartMarksHead(q);
      FirstPieceLength(p, q);
      FirstPieceLength(q, p);
      assert p[0] == Concat(p)[..|p[0]|] && q[0] == Concat(q)[..|q[0]|];
      assert Concat(p[1..]) == Concat(p)[|p[0]|..] && Concat(q[1..]) == Concat(q)[|q[0]|..];
      MarksDetermine(p[1..], q[1..]);
      assert p == [p[0]] + p[1..] && q == [q[0]] + q[1..];
    }
  }

  /** The first piece of one split cannot be shorter than that of another with the same
      text and marks. */
  lemma FirstPieceLength(p: seq<string>, q: seq<string>)
    requires forall k :: 0 <= k < |p| ==> p[k] != []
    requires p != [] && q != [] && q[0] != []
    requires Concat(p) == Concat(q) && StartMarks(p) == StartMarks(q)
    ensures |q[0]| <= |p[0]|
  {
    StartMarksHead(q);
    assert |Concat(q)| == |q[0]| + |Concat(q[1..])|;
    assert |Concat(p)| == |p[0]| + |Concat(p[1..])|;
    if |p[0]| < |Concat(p)| {
      assert p[1..] != [];
      StartMarksHead(p);
      StartMarksHead(p[1..]);
      assert StartMarks(p)[|p[0]|];
    }
  }

  /** A word of capitals only is never split: "ABC" is one piece. */
  lemma CapitalsStayTogether(s: string)
    requires s != [] && forall i :: 0 <= i < |s| ==> IsUpper(s[i])
    ensures SplitCamelCase(s) == [s]
  {
    var pieces := SplitCamelCase(s);
    forall j | 0 < j < |s|
      ensures StartMarks(pieces)[j] == StartMarks([s])[j]
    {
      StartMarksHead([s]);
    }
    StartMarksHead([s]);
    assert [s][1..] == [];
    assert Concat([s]) == s;
    assert StartMarks(pieces) == StartMarks([s]);
    MarksDetermine(pieces, [s]);
  }

  /** Text without capitals is never split: it is one piece, or none when empty. */
  lemma {:induction false} CamelOfLowerCase(s: string)
    requires IsLowerCase(s)
    ensures SplitCamelCase(s) == (if s == [] then [] else [s])
  {
    if s != [] {
      assert !StartsPiece(s, 0, []);
      assert s[..1] == [s[0]];
      assert SplitCamelCase(s) == CamelFrom(s, 1, [], [s[0]]);
      CamelFromLowerCase(s, 1, [s[0]]);
    }
  }

  lemma {:induction false} CamelFromLowerCase(s: string, i: nat, current: string)
    requires IsLowerCase(s) && 1 <= i <= |s| && current == s[..i]
    ensures CamelFrom(s, i, [], current) == [s]
    decreases |s| - i
  {
    if i < |s| {
      assert !StartsPiece(s, i, current);
      assert s[..i + 1] == current + [s[i]];
      CamelFromLowerCase(s, i + 1, current + [s[i]]);
    } else {
      assert s[..i] == s;
    }
  }

  // ---------------------------------------------------------------- tokenize

  function LowerAll(parts: seq<string>): (r: seq<string>)
    ensures |r| == |parts|
    ensures forall k :: 0 <= k < |parts| ==> r[k] == Lower(parts[k])
  {
    seq(|parts|, k requires 0 <= k < |parts| => Lower(parts[k]))
  }

  /** The tokens are non-empty, lower-case and pairwise distinct from position `from` on. */
  predicate GoodTokens(tokens: seq<string>, from: nat) {
    && (forall k :: 0 <= k < |tokens| ==> tokens[k] != [] && IsLowerCase(tokens[k]))
    && (forall k :: from <= k < |tokens| ==> tokens[k] !in tokens[..k])
  }

  /** Appends each lower-cased piece that is not already a token. */
  function AddPieces(pieces: seq<string>, tokens: seq<string>, from: nat): (r: seq<string>)
    requires GoodTokens(tokens, from)
    ensures GoodTokens(r, from)
    ensures tokens <= r
    ensures forall k :: 0 <= k < |pieces| && pieces[k] != [] ==> Lower(pieces[k]) in r
    ensures forall t :: t in r ==> t in tokens || exists k :: 0 <= k < |pieces| && t == Lower(pieces[k])
  {
    if pieces == [] then tokens
    else
      var next := AddPiece(pieces[0], tokens, from);
      var r := AddPieces(pieces[1..], next, from);
      assert forall k :: 1 <= k < |pieces| ==> pieces[k] == pieces[1..][k - 1];
      r
  }

  /** One step of that loop: the lower-cased piece is appended unless it is empty or
      already a token. */
  function AddPiece(p: string, tokens: seq<string>, from: nat): (r: seq<string>)
    requires GoodTokens(tokens, from)
    ensures GoodTokens(r, from)
    ensures tokens <= r
    ensures p != [] ==> Lower(p) in r
    ensures forall t :: t in r ==> t in tokens || t == Lower(p)
  {
    LowerIsLowerCase(p);
    if p != [] && Lower(p) !in tokens then
      var r := tokens + [Lower(p)];
      assert r[..|tokens|] == tokens;
      r
    else tokens
  }

  /** `t` is the lower-cased form of a camel-case piece of one of the parts. */
  ghost predicate IsCamelToken(parts: seq<string>, t: string) {
    exists k, j :: 0 <= k < |parts| && 0 <= j < |SplitCamelCase(parts[k])| && t == Lower(SplitCamelCase(parts[k])[j])
  }

  /** The second loop of `tokenize`: the camel-case pieces of every field. */
  function AddCamelPieces(parts: seq<string>, tokens: seq<string>, from: nat): (r: seq<string>)
    requires GoodTokens(tokens, from)
    ensures GoodTokens(r, from)
    ensures tokens <= r
    ensures forall k, j :: 0 <= k < |parts| && 0 <= j < |SplitCamelCase(parts[k])| ==>
              Lower(SplitCamelCase(parts[k])[j]) in r
    ensures forall t :: t in r ==> t in tokens || IsCamelToken(parts, t)
  {
    if parts == [] then tokens
    else
      var next := AddPieces(SplitCamelCase(parts[0]), tokens, from);
      var r := AddCamelPieces(parts[1..], next, from);
      assert forall k :: 1 <= k < |parts| ==> parts[k] == parts[1..][k - 1];
      CamelTokensStep(parts);
      r
  }

  /** The camel-case tokens of the first part, and those of the others, are camel-case
      tokens of all the parts. */
  lemma CamelTokensStep(parts: seq<string>)
    requires parts != []
    ensures forall t :: IsCamelToken(parts[1..], t) ==> IsCamelToken(parts, t)
    ensures forall j :: 0 <= j < |SplitCamelCase(parts[0])| ==> IsCamelToken(parts, Lower(SplitCamelCase(parts[0])[j]))
  {
    forall t | IsCamelToken(parts[1..], t)
      ensures IsCamelToken(parts, t)
    {
      var k, j :| 0 <= k < |parts[1..]| && 0 <= j < |SplitCamelCase(parts[1..][k])|
                  && t == Lower(SplitCamelCase(parts[1..][k])[j]);
      assert parts[1..][k] == parts[k + 1];
    }
  }

  /** `tokenize`: the lower-cased fields in order, then every lower-cased camel-case piece
      of every field that is not already a token, and nothing else. */
  function Tokenize(text: string): (tokens: seq<string>)
    ensures |Fields(text)| <= |tokens|
    ensures tokens[..|Fields(text)|] == LowerAll(Fields(text))
    ensures GoodTokens(tokens, |Fields(text)|)
    ensures forall k, j :: 0 <= k < |Fields(text)| && 0 <= j < |SplitCamelCase(Fields(text)[k])| ==>
              Lower(SplitCamelCase(Fields(text)[k])[j]) in tokens
    ensures forall k :: |Fields(text)| <= k < |tokens| ==> IsCamelToken(Fields(text), tokens[k])
  {
    var parts := Fields(text);
    var lowered := LowerAll(parts);
    forall k | 0 <= k < |lowered|
      ensures lowered[k] != [] && IsLowerCase(lowered[k])
    {
      LowerIsLowerCase(parts[k]);
    }
    AddCamelPieces(parts, lowered, |parts|)
  }

  lemma {:induction false} AddPiecesOfLowerCase(pieces: seq<string>, tokens: seq<string>, from: nat)
    requires GoodTokens(tokens, from)
    requires forall k :: 0 <= k < |pieces| ==> pieces[k] in tokens && IsLowerCase(pieces[k])
    ensures AddPieces(pieces, tokens, from) == tokens
  {
    if pieces != [] {
      LowerOfLowerCase(pieces[0]);
      AddPiecesOfLowerCase(pieces[1..], tokens, from);
    }
  }

  lemma {:induction false} AddCamelOfLowerCase(parts: seq<string>, tokens: seq<string>, from: nat)
    requires GoodTokens(tokens, from)
    requires forall k :: 0 <= k < |parts| ==> parts[k] in tokens && IsLowerCase(parts[k])
    ensures AddCamelPieces(parts, tokens, from) == tokens
  {
    if parts != [] {
      CamelOfLowerCase(parts[0]);
      AddPiecesOfLowerCase(SplitCamelCase(parts[0]), tokens, from);
      AddCamelOfLowerCase(parts[1..], tokens, from);
    }
  }

  /** On lower-case text, as the scorer always passes, no camel-case piece is ever added:
      the tokens are just the fields. */
  lemma TokenizeLowerCase(text: string)
    requires IsLowerCase(text)
    ensures Tokenize(text) == Fields(text)
  {
    var parts := Fields(text);
    FieldsOfLowerCase(text, []);
    forall k | 0 <= k < |parts|
      ensures LowerAll(parts)[k] == parts[k]
    {
      LowerOfLowerCase(parts[k]);
    }
    assert LowerAll(parts) == parts;
    AddCamelOfLowerCase(parts, parts, |parts|);
  }

  lemma {:induction false} FieldsOfLowerCase(s: string, cur: string)
    requires IsLowerCase(s) && IsLowerCase(cur) && NoSeparator(cur)
    ensures forall k :: 0 <= k < |FieldsFrom(s, cur)| ==> IsLowerCase(FieldsFrom(s, cur)[k])
    decreases |s|
  {
    if s != [] {
      if IsSeparator(s[0]) {
        FieldsOfLowerCase(s[1..], []);
      } else {
        FieldsOfLowerCase(s[1..], cur + [s[0]]);
      }
    }
  }

  /** The pieces "API" and "Client" of "APIClient": a run of capitals stays together and
      the capital before a lower-case letter starts the next piece. */
  lemma SplitAPIClient(s: string)
    requires s == "APIClient"
    ensures SplitCamelCase(s) == ["API", "Client"]
  {
    var p := ["API", "Client"];
    assert p[1..] == ["Client"] && p[1..][1..] == [];
    assert Concat(p) == "API" + "Client" == s;
    assert StartMarks(p) == [true, false, false] + [true, false, false, false, false, false];
    forall i | 0 < i < |s|
      ensures Boundary(s, i) <==> i == 3
    {
    }
    MarksDetermine(SplitCamelCase(s), p);
  }

  /** The pieces "My" and "Project" of "MyProject". */
  lemma SplitMyProject(s: string)
    requires s == "MyProject"
    ensures SplitCamelCase(s) == ["My", "Project"]
  {
    var p := ["My", "Project"];
    assert p[1..] == ["Project"] && p[1..][1..] == [];
    assert Concat(p) == "My" + "Project" == s;
    assert StartMarks(p) == [true, false] + [true, false, false, false, false, false, false];
    forall i | 0 < i < |s|
      ensures Boundary(s, i) <==> i == 2
    {
    }
    MarksDetermine(SplitCamelCase(s), p);
  }

  /** A single camel-case word gives its lower-cased whole, then its lower-cased pieces. */
  lemma TokenizeCamelWord(s: string, a: string, b: string)
    requires s != [] && NoSeparator(s) && SplitCamelCase(s) == [a, b]
    requires Lower(a) != Lower(b) && Lower(a) != Lower(s) && Lower(b) != Lower(s) && a != [] && b != []
    ensures Tokenize(s) == [Lower(s), Lower(a), Lower(b)]
  {
    FieldsOfWord(s);
    TokenizeOneField(s);
    LowerIsLowerCase(s);
    AddTwoPieces(a, b, [Lower(s)]);
  }

  /** A text that is one field gives that field lower-cased, then its new pieces. */
  lemma TokenizeOneField(s: string)
    requires Fields(s) == [s] && s != []
    ensures GoodTokens([Lower(s)], 1)
    ensures Tokenize(s) == AddPieces(SplitCamelCase(s), [Lower(s)], 1)
  {
    LowerIsLowerCase(s);
    assert LowerAll([s]) == [Lower(s)];
    assert [s][1..] == [];
    var next := AddPieces(SplitCamelCase(s), [Lower(s)], 1);
    assert AddCamelPieces([s], [Lower(s)], 1) == AddCamelPieces([], next, 1);
  }

  /** Two new pieces are appended in order. */
  lemma AddTwoPieces(a: string, b: string, t0: seq<string>)
    requires |t0| == 1 && t0[0] != [] && IsLowerCase(t0[0])
    requires Lower(a) != Lower(b) && Lower(a) != t0[0] && Lower(b) != t0[0] && a != [] && b != []
    ensures AddPieces([a, b], t0, 1) == t0 + [Lower(a), Lower(b)]
  {
    var t1 := AddPiece(a, t0, 1);
    assert t1 == t0 + [Lower(a)];
    var t2 := AddPiece(b, t1, 1);
    assert t2 == t0 + [Lower(a), Lower(b)];
    assert [a, b][1..] == [b] && [b][1..] == [];
    assert AddPieces([b], t1, 1) == AddPieces([], t2, 1);
  }

  /** The `tokenize` cases of core/scoring_test.go for camel-case words. */
  lemma TokenizeExamples(s1: string, s2: string)
    requires s1 == "MyProject" && s2 == "APIClient"
    ensures Tokenize(s1) == ["myproject", "my", "project"]
    ensures Tokenize(s2) == ["apiclient", "api", "client"]
  {
    TokenizeMyProject(s1);
    TokenizeAPIClient(s2);
  }

  lemma TokenizeMyProject(s: string)
    requires s == "MyProject"
    ensures Tokenize(s) == ["myproject", "my", "project"]
  {
    SplitMyProject(s);
    assert Lower("My") == "my" && Lower("Project") == "project" && Lower(s) == "myproject";
    TokenizeCamelWord(s, "My", "Project");
  }

  lemma TokenizeAPIClient(s: string)
    requires s == "APIClient"
    ensures Tokenize(s) == ["apiclient", "api", "client"]
  {
    SplitAPIClient(s);
    assert Lower("API") == "api" && Lower("Client") == "client" && Lower(s) == "apiclient";
    TokenizeCamelWord(s, "API", "Client");
  }

  // ---------------------------------------------------------------- token score

  /** Query token `q` is a prefix of some name token. */
  predicate PrefixOfSome(q: string, names: seq<string>) {
    exists k :: 0 <= k < |names| && q <= names[k]
  }

  /** The number of query tokens that are a prefix of some name token. */
  function CountMatched(queryTokens: seq<string>, nameTokens: seq<string>): (n: nat)
    ensures n <= |queryTokens|
  {
    if queryTokens == [] then 0
    else (if PrefixOfSome(queryTokens[0], nameTokens) then 1 else 0) + CountMatched(queryTokens[1..], nameTokens)
  }

  lemma {:induction false} CountMatchedBounds(queryTokens: seq<string>, nameTokens: seq<string>)
    ensures CountMatched(queryTokens, nameTokens) > 0 <==>
              exists i :: 0 <= i < |queryTokens| && PrefixOfSome(queryTokens[i], nameTokens)
    ensures CountMatched(queryTokens, nameTokens) == |queryTokens| <==>
              forall i :: 0 <= i < |queryTokens| ==> PrefixOfSome(queryTokens[i], nameTokens)
  {
    if queryTokens != [] {
      CountMatchedBounds(queryTokens[1..], nameTokens);
      assert forall i :: 1 <= i < |queryTokens| ==> queryTokens[i] == queryTokens[1..][i - 1];
    }
  }

  /** `calculateTokenScore`: 0 when either side has no tokens, otherwise the fraction of
      query tokens that begin some name token. It is positive exactly when one query token
      matches, and 1 exactly when all do. */
  function TokenScore(queryTokens: seq<string>, nameTokens: seq<string>): (r: real)
    ensures queryTokens == [] || nameTokens == [] ==> r == 0.0
    ensures 0.0 <= r <= 1.0
    ensures r > 0.0 <==> nameTokens != [] && exists i :: 0 <= i < |queryTokens| && PrefixOfSome(queryTokens[i], nameTokens)
    ensures r == 1.0 <==>
              (queryTokens != [] && nameTokens != [] &&
               forall i :: 0 <= i < |queryTokens| ==> PrefixOfSome(queryTokens[i], nameTokens))
  {
    if |queryTokens| == 0 || |nameTokens| == 0 then 0.0
    else
      CountMatchedBounds(queryTokens, nameTokens);
      var m := CountMatched(queryTokens, nameTokens);
      FractionFacts(m, |queryTokens|);
      m as real / |queryTokens| as real
  }

  lemma FractionFacts(m: nat, n: nat)
    requires 0 < n && m <= n
    ensures 0.0 <= m as real / n as real <= 1.0
    ensures m as real / n as real > 0.0 <==> m > 0
    ensures m as real / n as real == 1.0 <==> m == n
  {
  }
}
