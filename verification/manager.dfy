/** The naming and path helpers of core/manager.go: dated directory names that avoid
    existing ones, the repository name of a clone URL, the root guard of deletion and the
    `gitdir:` line of a worktree's `.git` file. The clock, the file system and `git` are inputs. */
module Manager {
  import opened Wrappers
  import opened Text
  import opened Paths
  import opened Scoring
  import opened Scanner

  // ---------------------------------------------------------------- dated names

  /** The name part of a new directory: "experiment" for an empty name, spaces turned
      into dashes, lower-cased. */
  function NormalizeName(name: string): (r: string)
    ensures |r| >= 1
    ensures ' ' !in r
    ensures IsLowerCase(r)
    ensures name == [] ==> r == "experiment"
    ensures name != [] ==> |r| == |name|
    ensures name != [] ==> forall i :: 0 <= i < |name| ==>
              r[i] == (if name[i] == ' ' then '-' else LowerChar(name[i]))
  {
    var named := if name == [] then "experiment" else name;
    var dashed := ReplaceChar(named, ' ', '-');
    LowerIsLowerCase(dashed);
    Lower(dashed)
  }

  /** `<date>-<name>`, the first choice of `GenerateDatedName`. */
  function BaseName(name: string, date: string): (r: string)
    ensures date + "-" <= r
  {
    date + "-" + NormalizeName(name)
  }

  /** The `k`-th choice: the base itself, then `base-1`, `base-2`, and so on. */
  function Candidate(base: string, k: nat): (r: string)
    ensures base <= r
    ensures k == 0 <==> |r| == |base|
  {
    if k == 0 then base else base + "-" + NatToString(k)
  }

  /** Different counters give different names. */
  lemma CandidateInjective(base: string, j: nat, k: nat)
    requires Candidate(base, j) == Candidate(base, k)
    ensures j == k
  {
    if j != 0 && k != 0 {
      var cj, ck := Candidate(base, j), Candidate(base, k);
      assert cj[|base| + 1..] == NatToString(j);
      assert ck[|base| + 1..] == NatToString(k);
      NatToStringInjective(j, k);
    }
  }

  /** The choices before the `k`-th. */
  function Below(base: string, k: nat): set<string> {
    set j | 0 <= j < k :: Candidate(base, j)
  }

  /** The `k`-th choice is not among the earlier ones. */
  lemma CandidateNotBelow(base: string, k: nat)
    ensures Candidate(base, k) !in Below(base, k)
  {
    if Candidate(base, k) in Below(base, k) {
      var j :| 0 <= j < k && Candidate(base, j) == Candidate(base, k);
      CandidateInjective(base, j, k);
    }
  }

  /** The counter of the first free choice from the `k`-th on. The search ends because
      every taken choice is a different existing name and there are finitely many. */
  function FirstFree(base: string, existing: set<string>, k: nat): (r: nat)
    ensures k <= r
    ensures Candidate(base, r) !in existing
    ensures forall j :: k <= j < r ==> Candidate(base, j) in existing
    decreases existing - Below(base, k)
  {
    if Candidate(base, k) !in existing then k
    else
      CandidateNotBelow(base, k);
      assert Below(base, k + 1) == Below(base, k) + {Candidate(base, k)};
      FirstFree(base, existing, k + 1)
  }

  /** `GenerateDatedName`, with today's date and the names already present under the try
      root as inputs: the first of base, base-1, base-2, ... that is not taken. */
  function GenerateDatedName(name: string, date: string, existing: set<string>): (r: string)
    ensures r !in existing
    ensures BaseName(name, date) !in existing ==> r == BaseName(name, date)
    ensures exists k: nat :: r == Candidate(BaseName(name, date), k)
              && forall j :: 0 <= j < k ==> Candidate(BaseName(name, date), j) in existing
  {
    var base := BaseName(name, date);
    Candidate(base, FirstFree(base, existing, 0))
  }

  /** The directory name of a fresh dated directory reads back as the normalized name,
      followed by the counter suffix when the base was taken. */
  lemma DatedNameReadsBack(name: string, date: string, existing: set<string>)
    requires IsDateShaped(date)
    ensures NormalizeName(name) <= ExtractNameFromDirectory(GenerateDatedName(name, date, existing))
    ensures BaseName(name, date) !in existing ==>
              ExtractNameFromDirectory(GenerateDatedName(name, date, existing)) == NormalizeName(name)
  {
    var r := GenerateDatedName(name, date, existing);
    var n := NormalizeName(name);
    assert r[..11] == date + "-";
    assert HasDatePrefix(r);
    assert r[11..11 + |n|] == n;
  }

  /** A dated name is a single path element as long as neither the date nor the name
      holds a slash. */
  lemma DatedNameIsPlain(name: string, date: string, existing: set<string>)
    requires '/' !in name && '/' !in date
    ensures IsPlainElement(GenerateDatedName(name, date, existing))
  {
    var r := GenerateDatedName(name, date, existing);
    var n := NormalizeName(name);
    assert '/' !in n by {
      if name != [] {
        forall i | 0 <= i < |n|
          ensures n[i] != '/'
        {
          assert name[i] != '/';
        }
      }
    }
    var k: nat :| r == Candidate(BaseName(name, date), k);
    if k > 0 {
      assert forall i :: 0 <= i < |NatToString(k)| ==> IsDigit(NatToString(k)[i]);
    }
    assert r[|date|] == '-';
  }

  /** `CreateDirectory` with the outcomes of making the root and the new directory as
      inputs: on success, `filepath.Join` of the root and the fresh dated name, which is
      the root, a slash and the name when the root is clean and no slash was typed. */
  function CreateDirectory(root: string, name: string, date: string, existing: set<string>,
                           rootOk: bool, mkdirOk: bool): (r: Result<string, string>)
    ensures r.Success? <==> rootOk && mkdirOk
    ensures r.Success? ==> r.value == JoinPath(root, GenerateDatedName(name, date, existing))
    ensures r.Success? && IsCleanDir(root) && '/' !in name && '/' !in date ==>
              r.value == root + "/" + GenerateDatedName(name, date, existing)
  {
    if !rootOk then Failure("failed to ensure try directory")
    else
      var dirName := GenerateDatedName(name, date, existing);
      if !mkdirOk then Failure("failed to create directory")
      else if IsCleanDir(root) && '/' !in name && '/' !in date then
        DatedNameIsPlain(name, date, existing);
        JoinUnderCleanDir(root, dirName);
        Success(JoinPath(root, dirName))
      else Success(JoinPath(root, dirName))
  }

  /** A name with ".." elements leaves the root: `try new a/../../x` under `/t` creates
      `/x`. Nothing between the name and `filepath.Join` stops it. */
  lemma CreateDirectoryCanLeaveRoot(t: string, a: string, x: string, date: string, existing: set<string>)
    requires IsPlainElement(t) && IsPlainElement(a) && IsPlainElement(x) && '/' !in date
    requires IsLowerCase(a) && IsLowerCase(x) && ' ' !in a && ' ' !in x
    requires BaseName(a + "/../../" + x, date) !in existing
    ensures CreateDirectory("/" + t, a + "/../../" + x, date, existing, true, true) == Success("/" + x)
  {
    var front := date + "-" + a;
    ClimbingDatedName(a, x, date, existing);
    assert front[|date|] == '-';
    assert IsPlainElement(front);
    DotDotLeavesDir(t, front, x);
  }

  /** A lower-case name with ".." elements keeps them behind the date. */
  lemma ClimbingDatedName(a: string, x: string, date: string, existing: set<string>)
    requires IsLowerCase(a) && IsLowerCase(x) && ' ' !in a && ' ' !in x
    requires BaseName(a + "/../../" + x, date) !in existing
    ensures GenerateDatedName(a + "/../../" + x, date, existing) == (date + "-" + a) + "/../../" + x
  {
    var name := a + "/../../" + x;
    assert NormalizeName(name) == name by {
      LowerOfLowerCase(name);
    }
  }

  // ---------------------------------------------------------------- clone URLs

  /** `ExtractNameFromGitURL`. The `://` branch assigns the name it already has, and
      the final "repo" is unreachable since a split always has a piece. */
  function ExtractNameFromGitURL(url: string): (name: string)
    ensures '/' !in name
    ensures var u := TrimSuffix(url, ".git");
            Contains(u, "://") || !("git@" <= u) || |Split(u, ':')| == 1 ==> name == Last(Split(u, '/'))
    ensures var u := TrimSuffix(url, ".git");
            !Contains(u, "://") && "git@" <= u && |Split(u, ':')| > 1 ==>
              name == Last(Split(Split(u, ':')[1], '/'))
  {
    var u := TrimSuffix(url, ".git");
    var parts := Split(u, '/');
    if |parts| > 0 then
      var name := Last(parts);
      if Contains(u, "://") then
        if |parts| > 1 then Last(parts) else name
      else if "git@" <= u then
        var colonParts := Split(u, ':');
        if |colonParts| > 1 then
          var pathParts := Split(colonParts[1], '/');
          if |pathParts| > 0 then Last(pathParts) else name
        else name
      else name
    else "repo"
  }

  /** The last `/`-piece of a text is what follows its last slash. */
  lemma LastSegment(prefix: string, segment: string)
    requires '/' !in segment
    ensures Last(Split(prefix + "/" + segment, '/')) == segment
  {
    var s := prefix + "/" + segment;
    var t := Last(Split(s, '/'));
    LastPieceIsTail(s, '/');
    assert s[|prefix|] == '/';
    SuffixAvoids(s, t, '/', |prefix|);
    assert s[|s| - |t| - 1] == '/';
    assert s[|s| - |segment|..] == segment;
    SuffixAvoids(s, segment, '/', |s| - |t| - 1);
  }

  /** A character that a suffix does not contain sits before that suffix. */
  lemma SuffixAvoids(s: string, t: string, c: char, i: nat)
    requires |t| <= |s| && s[|s| - |t|..] == t && c !in t
    requires i < |s| && s[i] == c
    ensures i < |s| - |t|
  {
    assert forall k :: |s| - |t| <= k < |s| ==> s[k] == t[k - (|s| - |t|)];
  }

  /** A web URL of a repository gives back the repository's name. */
  lemma NameOfWebURL(site: string, repo: string)
    requires '/' !in repo && repo != []
    requires !("git@" <= site + "/" + repo)
    ensures ExtractNameFromGitURL(site + "/" + repo + ".git") == repo
  {
    var url := site + "/" + repo + ".git";
    assert TrimSuffix(url, ".git") == site + "/" + repo;
    LastSegment(site, repo);
  }

  /** An scp-style `git@host:owner/repo.git` URL gives back the repository's name. */
  lemma NameOfScpURL(host: string, owner: string, repo: string)
    requires ':' !in host && ':' !in owner && ':' !in repo
    requires owner != [] && owner[0] != '/'
    requires '/' !in repo && repo != []
    ensures ExtractNameFromGitURL("git@" + host + ":" + owner + "/" + repo + ".git") == repo
  {
    var u := "git@" + host + ":" + owner + "/" + repo;
    assert TrimSuffix(u + ".git", ".git") == u;
    assert "git@" <= u;
    var path := owner + "/" + repo;
    assert ':' !in path;
    assert u == ("git@" + host) + [':'] + path;
    forall j | 0 <= j && j + 1 < |u| && u[j] == ':'
      ensures u[j + 1] != '/'
    {
      assert j == |host| + 4;
      assert u[j + 1] == owner[0];
    }
    NoColonSlashSlash(u);
    SplitAtFirst("git@" + host, ':', path);
    SplitWithoutSeparator(path, ':');
    LastSegment(owner, repo);
  }

  /** A text in which no colon is followed by a slash does not contain "://". */
  lemma NoColonSlashSlash(u: string)
    requires forall j :: 0 <= j && j + 1 < |u| && u[j] == ':' ==> u[j + 1] != '/'
    ensures !Contains(u, "://")
  {
    forall j | 0 <= j
      ensures !OccursAt(u, "://", j)
    {
      if j + 3 <= |u| {
        assert u[j..j + 3][0] == u[j] && u[j..j + 3][1] == u[j + 1];
      }
    }
  }

  // ---------------------------------------------------------------- worktree gitdir files

  const GitdirPrefix: string := "gitdir: "
  const WorktreesMarker: string := "/.git/worktrees/"

  datatype GitdirError = InvalidFormat | UnexpectedFormat(gitdir: string) | NoRepoPath

  /** The parse of a worktree's `.git` file inside `removeWorktree`: the text with white
      space trimmed goes to `ParseGitdirLine`. */
  function ParseGitdir(content: string): (r: Result<string, GitdirError>)
    ensures r == ParseGitdirLine(TrimSpace(content))
  {
    ParseGitdirLine(TrimSpace(content))
  }

  /** The line must start with "gitdir: ", the rest must contain "/.git/worktrees/", and the
      main repository is the non-empty text before the first occurrence. */
  function ParseGitdirLine(line: string): (r: Result<string, GitdirError>)
    ensures r == Failure(InvalidFormat) <==> !(GitdirPrefix <= line)
    ensures r.Failure? && r.error.UnexpectedFormat? <==>
              GitdirPrefix <= line && !Contains(line[|GitdirPrefix|..], WorktreesMarker)
    ensures r == Failure(NoRepoPath) <==>
              GitdirPrefix <= line && OccursAt(line[|GitdirPrefix|..], WorktreesMarker, 0)
    ensures r.Success? ==>
              && r.value != []
              && GitdirPrefix + r.value <= line
              && OccursAt(line[|GitdirPrefix|..], WorktreesMarker, |r.value|)
              && !Contains(r.value, WorktreesMarker)
    ensures r.Success? ==>
              forall j :: 0 <= j < |r.value| ==> !OccursAt(line[|GitdirPrefix|..], WorktreesMarker, j)
  {
    if !(GitdirPrefix <= line) then Failure(InvalidFormat)
    else
      var gitdir := line[|GitdirPrefix|..];
      match IndexOf(gitdir, WorktreesMarker)
      case None => Failure(UnexpectedFormat(gitdir))
      case Some(i) =>
        var mainRepoPath := gitdir[..i];
        if mainRepoPath == [] then Failure(NoRepoPath)
        else
          assert line == GitdirPrefix + gitdir;
          FirstOccurrencePrefix(gitdir, WorktreesMarker, i);
          Success(mainRepoPath)
  }

  /** The repository ends at the first marker even when another one follows and overlaps
      it: with `rest` = ".git/worktrees/n", `gitdir: X/.git/worktrees/.git/worktrees/n`
      names `X`, not `X/.git/worktrees`. */
  lemma ParseGitdirTakesFirstMarker(x: char, rest: string)
    requires x != '/'
    ensures ParseGitdirLine(GitdirPrefix + [x] + WorktreesMarker + rest) == Success([x])
  {
    var line := GitdirPrefix + [x] + WorktreesMarker + rest;
    var gitdir := [x] + WorktreesMarker + rest;
    assert GitdirPrefix <= line;
    assert line[|GitdirPrefix|..] == gitdir;
    assert gitdir[1..1 + |WorktreesMarker|] == WorktreesMarker;
    assert OccursAt(gitdir, WorktreesMarker, 1);
    assert gitdir[0] != WorktreesMarker[0];
    var r := ParseGitdirLine(line);
    assert r.Success?;
    assert |r.value| == 1;
    assert r.value == line[|GitdirPrefix|..|GitdirPrefix| + 1];
    assert line[|GitdirPrefix|] == x;
    assert r.value == [x];
  }

  /** The text before the first occurrence of a pattern does not contain it. */
  lemma FirstOccurrencePrefix(s: string, pat: string, i: nat)
    requires pat != [] && i <= |s|
    requires forall j :: 0 <= j < i ==> !OccursAt(s, pat, j)
    ensures !Contains(s[..i], pat)
  {
    if Contains(s[..i], pat) {
      var j := IndexOf(s[..i], pat).value;
      assert s[j..j + |pat|] == s[..i][j..j + |pat|];
      assert OccursAt(s, pat, j);
    }
  }

  /** A gitdir line followed by a line break trims to the line itself. */
  lemma TrimLineBreak(line: string)
    requires line != [] && !IsSpace(line[0]) && !IsSpace(line[|line| - 1])
    ensures TrimSpace(line + "\n") == line
  {
    assert TrimLeft(line + "\n") == line + "\n";
    assert (line + "\n")[..|line + "\n"| - 1] == line;
  }

  /** A line `gitdir: <repo>/.git/worktrees/<name>` reads back as `<repo>`,
      provided the marker does not already occur earlier. */
  lemma ParseWorktreeLine(repo: string, name: string)
    requires repo != []
    requires forall j :: 0 <= j < |repo| ==> !OccursAt(repo + WorktreesMarker + name, WorktreesMarker, j)
    ensures ParseGitdirLine(GitdirPrefix + repo + WorktreesMarker + name) == Success(repo)
  {
    var gitdir := repo + WorktreesMarker + name;
    var line := GitdirPrefix + gitdir;
    assert line[|GitdirPrefix|..] == gitdir;
    assert OccursAt(gitdir, WorktreesMarker, |repo|);
    assert IndexOf(gitdir, WorktreesMarker) == Some(|repo|);
    assert gitdir[..|repo|] == repo;
    assert line == GitdirPrefix + repo + WorktreesMarker + name;
  }

  /** The same line as a `.git` file, ending in a line break. */
  lemma ParseGitdirOfWorktreeFile(repo: string, name: string)
    requires repo != []
    requires name == [] || !IsSpace(name[|name| - 1])
    requires forall j :: 0 <= j < |repo| ==> !OccursAt(repo + WorktreesMarker + name, WorktreesMarker, j)
    ensures ParseGitdir(GitdirPrefix + repo + WorktreesMarker + name + "\n") == Success(repo)
  {
    var line := GitdirPrefix + repo + WorktreesMarker + name;
    assert line[0] == 'g';
    assert line[|line| - 1] == if name == [] then '/' else name[|name| - 1];
    TrimLineBreak(line);
    ParseWorktreeLine(repo, name);
  }

  // ---------------------------------------------------------------- deletion

  /** What the `git worktree remove` step reports, as `removeWorktree` sees it: the
      `.git` file could not be read, its gitdir line did not parse, or `git` failed with and
      without `-f`. */
  datatype UnregisterError = ReadFailed | BadGitdir(e: GitdirError) | GitFailed

  /** `removeWorktree` with the `.git` file's content (`None` when it cannot be read) and
      the outcome of the two `git worktree remove` attempts as inputs: on success, the
      main repository in which `git` ran. */
  function RemoveWorktree(content: Option<string>, gitOk: bool): (r: Result<string, UnregisterError>)
    ensures content.None? ==> r == Failure(ReadFailed)
    ensures content.Some? && ParseGitdir(content.value).Failure? ==>
              r == Failure(BadGitdir(ParseGitdir(content.value).error))
    ensures r.Success? <==> content.Some? && ParseGitdir(content.value).Success? && gitOk
    ensures r.Success? ==> r.value == ParseGitdir(content.value).value
  {
    match content
    case None => Failure(ReadFailed)
    case Some(text) =>
      match ParseGitdir(text)
      case Failure(e) => Failure(BadGitdir(e))
      case Success(mainRepoPath) => if gitOk then Success(mainRepoPath) else Failure(GitFailed)
  }

  datatype DeleteError = OutsideRoot(root: string) | RemoveFailed

  /** The outcome of `DeleteDirectory`: on success, whether a warning about the worktree
      was printed. */
  datatype Deletion = Deletion(warned: bool)

  /** `DeleteDirectory` with the state of `<path>/.git`, the worktree inputs of
      `RemoveWorktree` and the outcome of removing the tree as inputs. A path that does not
      start with the root text is refused before anything else; a failure to unregister a
      worktree is reported as a warning and removal goes ahead. */
  function DeleteDirectory(root: string, path: string, marker: GitMarker, content: Option<string>,
                           gitOk: bool, removeOk: bool): (r: Result<Deletion, DeleteError>)
    ensures r == Failure(OutsideRoot(root)) <==> !(root <= path)
    ensures root <= path ==> (r.Success? <==> removeOk)
    ensures r.Success? && r.value.warned ==> marker == GitFile
  {
    if !(root <= path) then Failure(OutsideRoot(root))
    else
      var warned := marker == GitFile && RemoveWorktree(content, gitOk).Failure?;
      if removeOk then Success(Deletion(warned)) else Failure(RemoveFailed)
  }

  /** Whether the tree is removed never depends on the worktree step. */
  lemma UnregisterOnlyWarns(root: string, path: string, marker: GitMarker, content: Option<string>,
                            gitOk: bool, content': Option<string>, gitOk': bool, removeOk: bool)
    ensures DeleteDirectory(root, path, marker, content, gitOk, removeOk).Success? ==
            DeleteDirectory(root, path, marker, content', gitOk', removeOk).Success?
  {
  }

  /** The guard is a plain text prefix: the root itself and a sibling whose name extends
      the root's pass it. */
  lemma GuardIsTextPrefix(root: string, suffix: string)
    ensures DeleteDirectory(root, root, NoGit, None, false, true).Success?
    ensures DeleteDirectory(root, root + suffix, NoGit, None, false, true).Success?
  {
  }

  /** Under a clean root every listed directory passes the guard. */
  lemma CleanRootAdmitsListed(root: string, e: Entry, marker: GitMarker, content: Option<string>,
                              gitOk: bool, removeOk: bool)
    requires IsCleanDir(root) && IsPlainElement(e.name)
    ensures DeleteDirectory(root, FromEntry(root, e).path, marker, content, gitOk, removeOk).Success? <==> removeOk
  {
  }

  /** Under a root written as `./t` no listed directory passes the guard: the scan's
      paths are cleaned to `t/<name>`, which does not start with `./t`. */
  lemma DotRootRefusesListed(t: string, e: Entry, marker: GitMarker, content: Option<string>,
                             gitOk: bool, removeOk: bool)
    requires IsPlainElement(t) && IsPlainElement(e.name)
    ensures DeleteDirectory("./" + t, FromEntry("./" + t, e).path, marker, content, gitOk, removeOk)
            == Failure(OutsideRoot("./" + t))
  {
    DotPrefixIsCleaned(t, e.name);
  }
}
