/** The slice of Go's `path/filepath` package the core relies on, for Unix paths:
    `Clean`, `Join` and `Base`. */
module Paths {
  import opened Text

  /** A single path element that names an entry: not empty, not "." or "..", and without
      a slash. Directory listings only ever return such names. */
  predicate IsPlainElement(e: string) {
    e != [] && e != "." && e != ".." && '/' !in e
  }

  /** An element that can sit on the stack of the lexical walk: ".." is allowed, since a
      relative path keeps the ones it cannot resolve. */
  predicate IsStackElement(e: string) {
    e != [] && e != "." && '/' !in e
  }

  /** One element of the lexical walk of `filepath.Clean`: empty and "." elements vanish;
      ".." removes the element before it when that is a name, is dropped at the top of an
      absolute path, and is kept at the front of a relative one; a name is pushed. */
  function Push(stack: seq<string>, e: string, rooted: bool): (r: seq<string>)
    requires '/' !in e
    requires forall k :: 0 <= k < |stack| ==> IsStackElement(stack[k])
    ensures forall k :: 0 <= k < |r| ==> IsStackElement(r[k])
    ensures IsPlainElement(e) ==> r == stack + [e]
  {
    if e == [] || e == "." then stack
    else if e == ".." then
      if stack != [] && Last(stack) != ".." then stack[..|stack| - 1]
      else if rooted then stack
      else stack + [".."]
    else stack + [e]
  }

  /** The walk over a list of elements, left to right. */
  function Resolve(elems: seq<string>, rooted: bool, stack: seq<string>): (r: seq<string>)
    requires forall k :: 0 <= k < |elems| ==> '/' !in elems[k]
    requires forall k :: 0 <= k < |stack| ==> IsStackElement(stack[k])
    ensures forall k :: 0 <= k < |r| ==> IsStackElement(r[k])
    decreases |elems|
  {
    if elems == [] then stack else Resolve(elems[1..], rooted, Push(stack, elems[0], rooted))
  }

  /** Walking one more element at the end is one more push. */
  lemma {:induction false} ResolveSnoc(elems: seq<string>, e: string, rooted: bool, stack: seq<string>)
    requires forall k :: 0 <= k < |elems| ==> '/' !in elems[k]
    requires '/' !in e
    requires forall k :: 0 <= k < |stack| ==> IsStackElement(stack[k])
    ensures Resolve(elems + [e], rooted, stack) == Push(Resolve(elems, rooted, stack), e, rooted)
    decreases |elems|
  {
    if elems == [] {
      assert [e][1..] == [];
    } else {
      assert (elems + [e])[1..] == elems[1..] + [e];
      ResolveSnoc(elems[1..], e, rooted, Push(stack, elems[0], rooted));
    }
  }

  /** The elements joined with slashes; nothing for no elements. */
  function JoinElements(elems: seq<string>): string {
    if elems == [] then "" else Join(elems, '/')
  }

  /** A non-empty stack joins to a text that is neither "", "." nor "/". */
  lemma JoinedStack(stack: seq<string>)
    requires stack != []
    requires forall k :: 0 <= k < |stack| ==> IsStackElement(stack[k])
    ensures var t := JoinElements(stack); t != [] && t != "." && t != "/"
  {
    if |stack| > 1 {
      assert JoinElements(stack) == stack[0] + "/" + Join(stack[1..], '/');
    }
  }

  /** `filepath.Clean` on a Unix path: the shortest lexically equivalent path. Repeated
      slashes collapse, "." elements vanish, ".." removes the name before it (and at the top
      of an absolute path, itself), and the empty result is ".". */
  function Clean(p: string): (r: string)
    ensures r != []
    ensures p != [] && p[0] == '/' <==> r[0] == '/'
  {
    if p == [] then "."
    else
      var stack := Resolve(Split(p, '/'), p[0] == '/', []);
      if p[0] == '/' then "/" + JoinElements(stack)
      else if stack == [] then "."
      else
        JoinedStack(stack);
        assert stack[0] != [] && '/' !in stack[0];
        assert JoinElements(stack)[0] == stack[0][0] by {
          if |stack| > 1 {
            assert JoinElements(stack) == stack[0] + "/" + Join(stack[1..], '/');
          }
        }
        JoinElements(stack)
  }

  /** A stack the walk can leave behind: ".." elements only in front, and none at all
      in an absolute path. */
  predicate IsNormalStack(stack: seq<string>, rooted: bool) {
    && (forall k :: 0 <= k < |stack| ==> IsStackElement(stack[k]))
    && (forall i, j :: 0 <= i < j < |stack| && stack[j] == ".." ==> stack[i] == "..")
    && (rooted ==> forall k :: 0 <= k < |stack| ==> stack[k] != "..")
  }

  /** The walk only ever leaves a normal stack. */
  lemma {:induction false} ResolveIsNormal(elems: seq<string>, rooted: bool, stack: seq<string>)
    requires forall k :: 0 <= k < |elems| ==> '/' !in elems[k]
    requires IsNormalStack(stack, rooted)
    ensures IsNormalStack(Resolve(elems, rooted, stack), rooted)
    decreases |elems|
  {
    if elems != [] {
      ResolveIsNormal(elems[1..], rooted, Push(stack, elems[0], rooted));
    }
  }

  /** Walking a normal stack again gives it back. */
  lemma {:induction false} ResolveNormal(stack: seq<string>, rooted: bool)
    requires IsNormalStack(stack, rooted)
    ensures Resolve(stack, rooted, []) == stack
    decreases |stack|
  {
    if stack != [] {
      var init := stack[..|stack| - 1];
      var e := Last(stack);
      assert stack == init + [e];
      assert IsNormalStack(init, rooted);
      ResolveNormal(init, rooted);
      ResolveSnoc(init, e, rooted, []);
      if e == ".." {
        assert init != [] ==> Last(init) == "..";
      }
    }
  }

  /** Cleaning a clean path changes nothing. */
  lemma CleanIdempotent(p: string)
    ensures Clean(Clean(p)) == Clean(p)
  {
    if p == [] {
      CleanOfDot();
    } else {
      var rooted := p[0] == '/';
      var stack := Resolve(Split(p, '/'), rooted, []);
      ResolveIsNormal(Split(p, '/'), rooted, []);
      if rooted {
        assert Clean(p) == "/" + JoinElements(stack);
        CleanOfRootedStack(stack);
      } else if stack == [] {
        assert Clean(p) == ".";
        CleanOfDot();
      } else {
        assert Clean(p) == JoinElements(stack);
        CleanOfRelativeStack(stack);
      }
    }
  }

  lemma CleanOfDot()
    ensures Clean(".") == "."
  {
    SplitWithoutSeparator(".", '/');
    assert Resolve(["."], false, []) == Resolve([], false, []);
  }

  /** An absolute path made of a normal stack is clean. */
  lemma CleanOfRootedStack(stack: seq<string>)
    requires IsNormalStack(stack, true)
    ensures Clean("/" + JoinElements(stack)) == "/" + JoinElements(stack)
  {
    var c := "/" + JoinElements(stack);
    if stack == [] {
      assert c == [] + "/" + [];
      SplitConcat([], '/', []);
      assert Split(c, '/') == ["", ""];
      assert Resolve(["", ""], true, []) == Resolve([""], true, []) == [];
    } else {
      SplitJoin(stack, '/');
      assert c == [] + "/" + Join(stack, '/');
      SplitConcat([], '/', Join(stack, '/'));
      assert Split(c, '/') == [""] + stack;
      assert Resolve(Split(c, '/'), true, []) == Resolve(stack, true, []);
      ResolveNormal(stack, true);
      assert c[0] == '/';
    }
  }

  /** A relative path made of a non-empty normal stack is clean. */
  lemma CleanOfRelativeStack(stack: seq<string>)
    requires stack != [] && IsNormalStack(stack, false)
    ensures Clean(JoinElements(stack)) == JoinElements(stack)
  {
    JoinedStack(stack);
    SplitJoin(stack, '/');
    ResolveNormal(stack, false);
    var c := JoinElements(stack);
    assert c[0] != '/' by {
      if |stack| > 1 {
        assert c == stack[0] + "/" + Join(stack[1..], '/');
      }
      assert c[0] == stack[0][0];
    }
  }

  /** `filepath.Join(dir, name)`: the non-empty arguments joined with a slash and cleaned;
      "" when both are empty. */
  function JoinPath(dir: string, name: string): (r: string)
    ensures dir == [] && name == [] <==> r == []
  {
    if dir == [] then (if name == [] then "" else Clean(name))
    else Clean(dir + "/" + name)
  }

  /** Joining a plain element to a directory appends it to the cleaned directory. */
  lemma JoinPlainElement(dir: string, name: string)
    requires dir != [] && IsPlainElement(name)
    ensures var c := Clean(dir);
            JoinPath(dir, name) == if c == "/" then "/" + name else if c == "." then name else c + "/" + name
  {
    var rooted := dir[0] == '/';
    var stack := Resolve(Split(dir, '/'), rooted, []);
    ResolvePlainAppended(dir, name);
    assert (dir + "/" + name)[0] == dir[0];
    if stack == [] {
      assert JoinElements(stack + [name]) == name;
    } else {
      JoinSnoc(stack, name, '/');
      JoinedStack(stack);
    }
  }

  /** The walk over `dir/name` is the walk over `dir` with the plain `name` pushed. */
  lemma ResolvePlainAppended(dir: string, name: string)
    requires dir != [] && IsPlainElement(name)
    ensures var rooted := dir[0] == '/';
            Resolve(Split(dir + "/" + name, '/'), rooted, []) == Resolve(Split(dir, '/'), rooted, []) + [name]
  {
    var rooted := dir[0] == '/';
    var elems := Split(dir, '/');
    SplitConcat(dir, '/', name);
    SplitWithoutSeparator(name, '/');
    assert Split(dir + "/" + name, '/') == elems + [name];
    ResolveSnoc(elems, name, rooted, []);
  }

  /** A directory that is already clean, other than "/" and ".". */
  predicate IsCleanDir(dir: string) {
    Clean(dir) == dir && dir != "/" && dir != "."
  }

  /** Under a clean directory a plain element is joined with a single slash. */
  lemma JoinUnderCleanDir(dir: string, name: string)
    requires IsCleanDir(dir) && IsPlainElement(name)
    ensures JoinPath(dir, name) == dir + "/" + name
  {
    JoinPlainElement(dir, name);
  }

  /** ".." elements in the joined name climb out of the directory: `a/../../x` joined to
      `/t` is `/x`, which is not under `/t`. */
  lemma DotDotLeavesDir(t: string, a: string, x: string)
    requires IsPlainElement(t) && IsPlainElement(a) && IsPlainElement(x)
    ensures JoinPath("/" + t, a + "/../../" + x) == "/" + x
    ensures !("/" + t + "/" <= JoinPath("/" + t, a + "/../../" + x))
  {
    SplitClimbing(t, a, x);
    ResolveClimbing(t, a, x);
    assert JoinElements([x]) == x;
    assert ("/" + t + "/")[|t| + 1] == '/';
    if |t| + 2 <= |"/" + x| {
      assert ("/" + x)[|t| + 1] == x[|t|];
    }
  }

  lemma SplitClimbing(t: string, a: string, x: string)
    requires IsPlainElement(t) && IsPlainElement(a) && IsPlainElement(x)
    ensures Split("/" + t + "/" + (a + "/../../" + x), '/') == ["", t, a, "..", "..", x]
  {
    var tail := ".." + "/" + x;
    var tail2 := ".." + "/" + tail;
    var tail3 := a + "/" + tail2;
    var tail4 := t + "/" + tail3;
    assert "/" + t + "/" + (a + "/../../" + x) == [] + "/" + tail4;
    SplitConcat([], '/', tail4);
    SplitAtFirst(t, '/', tail3);
    SplitAtFirst(a, '/', tail2);
    SplitAtFirst("..", '/', tail);
    SplitAtFirst("..", '/', x);
    SplitWithoutSeparator(x, '/');
  }

  lemma ResolveClimbing(t: string, a: string, x: string)
    requires IsPlainElement(t) && IsPlainElement(a) && IsPlainElement(x)
    ensures Resolve(["", t, a, "..", "..", x], true, []) == [x]
  {
    var e0, e1, e2 := ["", t, a, "..", "..", x], [t, a, "..", "..", x], [a, "..", "..", x];
    assert e0[1..] == e1 && e1[1..] == e2;
    assert Push([], t, true) == [t];
    assert Push([t], a, true) == [t, a];
    assert Resolve(e0, true, []) == Resolve(e1, true, []);
    assert Resolve(e1, true, []) == Resolve(e2, true, [t]);
    assert Resolve(e2, true, [t]) == Resolve(["..", "..", x], true, [t, a]);
    ResolveClimbingTail(t, a, x);
  }

  lemma ResolveClimbingTail(t: string, a: string, x: string)
    requires IsPlainElement(t) && IsPlainElement(a) && IsPlainElement(x)
    ensures Resolve(["..", "..", x], true, [t, a]) == [x]
  {
    var e3, e4 := ["..", "..", x], ["..", x];
    assert e3[1..] == e4 && e4[1..] == [x];
    assert Resolve(e3, true, [t, a]) == Resolve(e4, true, [t]);
    assert Resolve(e4, true, [t]) == Resolve([x], true, []);
    assert Push([], x, true) == [x] && [x][1..] == [];
    assert Resolve([x], true, []) == Resolve([], true, [x]);
  }

  /** A directory written with a leading "./" loses it: `x` joined to `./t` is `t/x`, which
      does not start with `./t`. */
  lemma DotPrefixIsCleaned(t: string, x: string)
    requires IsPlainElement(t) && IsPlainElement(x)
    ensures JoinPath("./" + t, x) == t + "/" + x
    ensures !("./" + t <= JoinPath("./" + t, x))
  {
    SplitDotPrefixed(t, x);
    ResolveDotPrefixed(t, x);
    assert [t, x][1..] == [x] && Join([x], '/') == x;
    assert Join([t, x], '/') == t + ['/'] + Join([x], '/');
    if |t| >= 2 {
      assert (t + "/" + x)[1] == t[1];
    } else {
      assert t == [t[0]];
    }
  }

  lemma SplitDotPrefixed(t: string, x: string)
    requires IsPlainElement(t) && IsPlainElement(x)
    ensures Split("./" + t + "/" + x, '/') == [".", t, x]
  {
    assert "./" + t + "/" + x == "." + "/" + (t + "/" + x);
    SplitAtFirst(".", '/', t + "/" + x);
    SplitAtFirst(t, '/', x);
    SplitWithoutSeparator(x, '/');
  }

  lemma ResolveDotPrefixed(t: string, x: string)
    requires IsPlainElement(t) && IsPlainElement(x)
    ensures Resolve([".", t, x], false, []) == [t, x]
  {
    var e0, e1 := [".", t, x], [t, x];
    assert e0[1..] == e1 && e1[1..] == [x] && [x][1..] == [];
    assert Resolve(e0, false, []) == Resolve(e1, false, []);
    assert Push([], t, false) == [t] && Push([t], x, false) == [t, x];
    assert Resolve(e1, false, []) == Resolve([x], false, [t]);
    assert Resolve([x], false, [t]) == Resolve([], false, [t, x]);
  }

  function TrimTrailing(s: string, c: char): (r: string)
    ensures r <= s
    ensures r == [] || r[|r| - 1] != c
    ensures forall i :: |r| <= i < |s| ==> s[i] == c
  {
    if s != [] && s[|s| - 1] == c then TrimTrailing(s[..|s| - 1], c) else s
  }

  /** `filepath.Base` on a Unix path: the last element after trailing slashes are removed,
      "." for the empty path and "/" for a path of slashes only. */
  function Base(path: string): (r: string)
    ensures r != []
    ensures path == [] ==> r == "."
    ensures path != [] && TrimTrailing(path, '/') == [] ==> r == "/"
    ensures path != [] && TrimTrailing(path, '/') != [] ==>
              var t := TrimTrailing(path, '/');
              && '/' !in r && |r| <= |t| && t[|t| - |r|..] == r
              && (|r| == |t| || t[|t| - |r| - 1] == '/')
  {
    if path == [] then "."
    else
      var t := TrimTrailing(path, '/');
      if t == [] then "/" else LastNonEmpty(t)
  }

  /** The last piece of a text that does not end with a slash is never empty. */
  function LastNonEmpty(t: string): (r: string)
    requires t != [] && t[|t| - 1] != '/'
    ensures r != [] && '/' !in r
    ensures |r| <= |t| && t[|t| - |r|..] == r && (|r| == |t| || t[|t| - |r| - 1] == '/')
  {
    LastPieceIsTail(t, '/');
    Last(Split(t, '/'))
  }
}
