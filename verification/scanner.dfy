/** The directory list of core/scanner.go: the `Directory` record and the git flags a scan
    derives, filtering and scoring against a query, the two orderings, and the relative-age
    label. Times are integer nanoseconds; the reading of the file system is an input. */
module Scanner {
  import opened Text
  import opened Paths
  import opened Scoring

  /** A try directory. `CreatedTime` and `AccessTime`, which the scan sets to the
      modification time and nothing reads, are left out. */
  datatype Directory = Directory(
    name: string,
    path: string,
    modifiedTime: int,
    score: real,
    textScore: real,
    timeScore: real,
    isGitRepo: bool,
    isWorktree: bool)

  // ---------------------------------------------------------------- selections

  /** `r` lists the elements of `xs` at the strictly increasing positions `idx`. */
  ghost predicate Selects<T>(xs: seq<T>, r: seq<T>, idx: seq<nat>) {
    && |idx| == |r|
    && (forall k :: 0 <= k < |idx| ==> idx[k] < |xs| && r[k] == xs[idx[k]])
    && (forall k, l :: 0 <= k < l < |idx| ==> idx[k] < idx[l])
  }

  /** Putting an earlier position in front of a selection. */
  lemma SelectsCons<T>(xs: seq<T>, r: seq<T>, idx: seq<nat>, i: nat)
    requires Selects(xs, r, idx) && i < |xs|
    requires forall k :: 0 <= k < |idx| ==> i < idx[k]
    ensures Selects(xs, [xs[i]] + r, [i] + idx)
  {
  }

  // ---------------------------------------------------------------- scanning

  /** What `os.Stat` reports for `<dir>/.git`: nothing (or an error), a directory, or a
      file (a worktree, whose `.git` file holds a `gitdir:` line). */
  datatype GitMarker = NoGit | GitDirectory | GitFile

  /** One entry of the try root as the scan sees it. */
  datatype Entry = Entry(name: string, isDir: bool, infoOk: bool, modTime: int, marker: GitMarker)

  /** The `Directory` the scan builds for one entry: a `.git` directory marks a repository,
      a `.git` file marks a worktree, and never both. The path is `filepath.Join` of the
      root and the name, so under a clean root it is the root, a slash and the name. */
  function FromEntry(root: string, e: Entry): (d: Directory)
    ensures !(d.isGitRepo && d.isWorktree)
    ensures d.isGitRepo <==> e.marker == GitDirectory
    ensures d.isWorktree <==> e.marker == GitFile
    ensures d.name == e.name && d.path == JoinPath(root, e.name) && d.modifiedTime == e.modTime
    ensures IsCleanDir(root) && IsPlainElement(e.name) ==> d.path == root + "/" + e.name
    ensures d.score == 0.0 && d.textScore == 0.0 && d.timeScore == 0.0
  {
    var d := Directory(e.name, JoinPath(root, e.name), e.modTime, 0.0, 0.0, 0.0,
                       e.marker == GitDirectory, e.marker == GitFile);
    if IsCleanDir(root) && IsPlainElement(e.name) then JoinUnderCleanDir(root, e.name); d else d
  }

  /** The scan skips entries that are not directories and those whose information cannot
      be read. */
  predicate Scanned(e: Entry) {
    e.isDir && e.infoOk
  }

  /** `ScanDirectories` after the root has been listed: one directory per readable
      sub-directory, in listing order, with at most one git flag. `ScanIsSelection` states
      exactly which entries it keeps. */
  function Scan(root: string, entries: seq<Entry>): (dirs: seq<Directory>)
    ensures |dirs| <= |entries|
    ensures forall k :: 0 <= k < |dirs| ==> !(dirs[k].isGitRepo && dirs[k].isWorktree)
    ensures forall k :: 0 <= k < |dirs| ==> dirs[k].path == JoinPath(root, dirs[k].name)
    ensures (forall i :: 0 <= i < |entries| ==> Scanned(entries[i])) ==> |dirs| == |entries|
    ensures (forall i :: 0 <= i < |entries| ==> !Scanned(entries[i])) ==> dirs == []
  {
    if entries == [] then []
    else
      var rest := Scan(root, entries[1..]);
      if Scanned(entries[0]) then [FromEntry(root, entries[0])] + rest else rest
  }

  /** The positions, counted from `from`, of the entries the scan keeps. */
  function ScannedIndices(entries: seq<Entry>, from: nat): (idx: seq<nat>)
    requires from <= |entries|
    ensures forall k :: 0 <= k < |idx| ==> from <= idx[k] < |entries|
    decreases |entries| - from
  {
    if from == |entries| then []
    else
      var rest := ScannedIndices(entries, from + 1);
      if Scanned(entries[from]) then [from] + rest else rest
  }

  /** The directory of every entry, kept or not. */
  function AllFromEntries(root: string, entries: seq<Entry>): (r: seq<Directory>)
    ensures |r| == |entries|
    ensures forall i :: 0 <= i < |entries| ==> r[i] == FromEntry(root, entries[i])
  {
    seq(|entries|, i requires 0 <= i < |entries| => FromEntry(root, entries[i]))
  }

  /** The scan from position `from` on selects, in order, the directories of the entries
      at the positions `ScannedIndices` lists. */
  lemma {:induction false} ScanSelectsScanned(root: string, entries: seq<Entry>, from: nat)
    requires from <= |entries|
    ensures Selects(AllFromEntries(root, entries), Scan(root, entries[from..]), ScannedIndices(entries, from))
    decreases |entries| - from
  {
    if from < |entries| {
      ScanSelectsScanned(root, entries, from + 1);
      assert entries[from..][1..] == entries[from + 1..];
      var xs := AllFromEntries(root, entries);
      var idx, rest := ScannedIndices(entries, from + 1), Scan(root, entries[from + 1..]);
      assert xs[from] == FromEntry(root, entries[from]);
      if Scanned(entries[from]) {
        assert Scan(root, entries[from..]) == [xs[from]] + rest;
        assert ScannedIndices(entries, from) == [from] + idx;
        SelectsCons(xs, rest, idx, from);
      } else {
        assert Scan(root, entries[from..]) == rest;
        assert ScannedIndices(entries, from) == idx;
      }
    }
  }

  /** `ScannedIndices` lists exactly the positions of the entries the scan keeps. */
  lemma {:induction false} ScannedIndicesExact(entries: seq<Entry>, from: nat)
    requires from <= |entries|
    ensures forall i :: from <= i < |entries| ==> (i in ScannedIndices(entries, from) <==> Scanned(entries[i]))
    decreases |entries| - from
  {
    if from < |entries| {
      ScannedIndicesExact(entries, from + 1);
    }
  }

  /** The whole-listing form of `ScanSelectsScanned`. */
  lemma ScanIsSelection(root: string, entries: seq<Entry>)
    ensures var idx := ScannedIndices(entries, 0);
            && Selects(AllFromEntries(root, entries), Scan(root, entries), idx)
            && (forall i :: 0 <= i < |entries| ==> (i in idx <==> Scanned(entries[i])))
  {
    ScanSelectsScanned(root, entries, 0);
    ScannedIndicesExact(entries, 0);
    assert entries[0..] == entries;
  }

  // ---------------------------------------------------------------- filtering

  /** The directory with the scorer's three scores written into it. */
  function Rescore(d: Directory, query: string, decay: int -> real): (r: Directory)
    ensures r.name == d.name && r.path == d.path && r.modifiedTime == d.modifiedTime
    ensures r.isGitRepo == d.isGitRepo && r.isWorktree == d.isWorktree
    ensures var s := ScoreDirectory(d.name, query, d.modifiedTime, decay);
            r.score == s.score && r.textScore == s.textScore && r.timeScore == s.timeScore
    ensures 0.0 <= r.score <= 1.0
  {
    var s := ScoreDirectory(d.name, query, d.modifiedTime, decay);
    d.(score := s.score, textScore := s.textScore, timeScore := s.timeScore)
  }

  /** The filter keeps every directory for an empty query and otherwise those with a
      positive combined score. */
  predicate Kept(d: Directory, query: string, decay: int -> real) {
    query == [] || ScoreDirectory(d.name, query, d.modifiedTime, decay).score > 0.0
  }

  /** With a query, a directory survives exactly when its text score or its time score is
      positive: a name that does not match at all is still listed while it is recent. */
  lemma KeptByEitherScore(d: Directory, query: string, decay: int -> real)
    requires query != []
    ensures var s := ScoreDirectory(d.name, query, d.modifiedTime, decay);
            Kept(d, query, decay) <==> s.textScore > 0.0 || s.timeScore > 0.0
  {
  }

  /** `FilterAndScoreDirectories`. */
  function FilterAndScore(dirs: seq<Directory>, query: string, decay: int -> real): (r: seq<Directory>)
    ensures |r| <= |dirs|
    ensures query == [] ==> |r| == |dirs|
    ensures forall k :: 0 <= k < |r| ==> query == [] || r[k].score > 0.0
    ensures forall k :: 0 <= k < |r| ==> 0.0 <= r[k].score <= 1.0
  {
    if dirs == [] then []
    else
      var rest := FilterAndScore(dirs[1..], query, decay);
      if Kept(dirs[0], query, decay) then
        var d := Rescore(dirs[0], query, decay);
        KeptIsPositive(dirs[0], query, decay);
        ConsScored(d, rest, query);
        [d] + rest
      else rest
  }

  /** Putting a scored directory in front of scored ones keeps every score in range and,
      for a non-empty query, positive. */
  lemma ConsScored(d: Directory, rest: seq<Directory>, query: string)
    requires (query == [] || d.score > 0.0) && 0.0 <= d.score <= 1.0
    requires forall k :: 0 <= k < |rest| ==> query == [] || rest[k].score > 0.0
    requires forall k :: 0 <= k < |rest| ==> 0.0 <= rest[k].score <= 1.0
    ensures forall k :: 0 <= k < |[d] + rest| ==> query == [] || ([d] + rest)[k].score > 0.0
    ensures forall k :: 0 <= k < |[d] + rest| ==> 0.0 <= ([d] + rest)[k].score <= 1.0
  {
  }

  /** A kept directory, rescored, has a positive score unless the query is empty. */
  lemma KeptIsPositive(d: Directory, query: string, decay: int -> real)
    ensures Kept(d, query, decay) ==> query == [] || Rescore(d, query, decay).score > 0.0
  {
  }

  /** The positions, counted from `from`, of the directories the filter keeps. */
  function KeptIndices(dirs: seq<Directory>, query: string, decay: int -> real, from: nat): (idx: seq<nat>)
    requires from <= |dirs|
    ensures forall k :: 0 <= k < |idx| ==> from <= idx[k] < |dirs|
    decreases |dirs| - from
  {
    if from == |dirs| then []
    else
      var rest := KeptIndices(dirs, query, decay, from + 1);
      if Kept(dirs[from], query, decay) then [from] + rest else rest
  }

  /** Every directory with the scorer's scores written into it. */
  function RescoreAll(dirs: seq<Directory>, query: string, decay: int -> real): (r: seq<Directory>)
    ensures |r| == |dirs|
    ensures forall i :: 0 <= i < |dirs| ==> r[i] == Rescore(dirs[i], query, decay)
  {
    seq(|dirs|, i requires 0 <= i < |dirs| => Rescore(dirs[i], query, decay))
  }

  /** The filter's result is an order-preserving selection of its input: the rescored
      directories at exactly the positions the filter keeps. */
  lemma {:induction false} FilterSelectsKept(dirs: seq<Directory>, query: string, decay: int -> real, from: nat)
    requires from <= |dirs|
    ensures var idx := KeptIndices(dirs, query, decay, from);
            && Selects(RescoreAll(dirs, query, decay), FilterAndScore(dirs[from..], query, decay), idx)
            && (forall i :: from <= i < |dirs| ==> (i in idx <==> Kept(dirs[i], query, decay)))
    decreases |dirs| - from
  {
    if from < |dirs| {
      FilterSelectsKept(dirs, query, decay, from + 1);
      assert dirs[from..][1..] == dirs[from + 1..];
      var xs := RescoreAll(dirs, query, decay);
      var idx, rest := KeptIndices(dirs, query, decay, from + 1), FilterAndScore(dirs[from + 1..], query, decay);
      if Kept(dirs[from], query, decay) {
        SelectsCons(xs, rest, idx, from);
      }
    }
  }

  /** The whole-list form of `FilterSelectsKept`. */
  lemma FilterIsSelection(dirs: seq<Directory>, query: string, decay: int -> real)
    ensures var idx := KeptIndices(dirs, query, decay, 0);
            && Selects(RescoreAll(dirs, query, decay), FilterAndScore(dirs, query, decay), idx)
            && (forall i :: 0 <= i < |dirs| ==> (i in idx <==> Kept(dirs[i], query, decay)))
  {
    FilterSelectsKept(dirs, query, decay, 0);
    assert dirs[0..] == dirs;
  }

  // ---------------------------------------------------------------- ordering

  /** The two orders of the source: by score, newer first among equal scores, and by
      modification time alone. */
  datatype Order = ByScore | ByTime

  /** The `less` function handed to `sort.Slice`: `a` must come before `b`. */
  predicate Before(o: Order, a: Directory, b: Directory) {
    match o
    case ByScore => a.score > b.score || (a.score == b.score && a.modifiedTime > b.modifiedTime)
    case ByTime => a.modifiedTime > b.modifiedTime
  }

  /** No element must come before one that precedes it. */
  predicate Sorted(o: Order, s: seq<Directory>) {
    forall i, j :: 0 <= i < j < |s| ==> !Before(o, s[j], s[i])
  }

  /** "Does not have to come before" is transitive for both orders. */
  lemma NotBeforeTransitive(o: Order, a: Directory, b: Directory, c: Directory)
    requires !Before(o, a, b) && !Before(o, b, c)
    ensures !Before(o, a, c)
  {
  }

  /** Places `x` after every element that must precede it. */
  function Insert(o: Order, x: Directory, s: seq<Directory>): (r: seq<Directory>)
    ensures multiset(r) == multiset(s) + multiset{x}
    ensures forall y :: y in r <==> y in s || y == x
  {
    if s == [] then [x]
    else if Before(o, s[0], x) then
      assert s == [s[0]] + s[1..];
      [s[0]] + Insert(o, x, s[1..])
    else
      [x] + s
  }

  /** Inserting into a sorted list keeps it sorted. */
  lemma {:induction false} InsertKeepsSorted(o: Order, x: Directory, s: seq<Directory>)
    requires Sorted(o, s)
    ensures Sorted(o, Insert(o, x, s))
  {
    if s != [] {
      var r := Insert(o, x, s);
      if Before(o, s[0], x) {
        InsertKeepsSorted(o, x, s[1..]);
        forall j | 1 <= j < |r|
          ensures !Before(o, r[j], r[0])
        {
          assert r[j] in Insert(o, x, s[1..]);
          if r[j] != x {
            var k :| 0 <= k < |s[1..]| && s[1..][k] == r[j];
            assert s[k + 1] == r[j];
          }
        }
      } else {
        forall j | 1 <= j < |r|
          ensures !Before(o, r[j], x)
        {
          assert r[j] == s[j - 1];
          if j > 1 {
            NotBeforeTransitive(o, s[j - 1], s[0], x);
          }
        }
      }
    }
  }

  /** `sort.Slice` under the order `o`. The source's sort is not stable, so the relative
      order of directories with equal keys is unspecified; this model keeps their input
      order, which is one of the permitted outcomes. */
  function SortBy(o: Order, s: seq<Directory>): (r: seq<Directory>)
    ensures multiset(r) == multiset(s) && |r| == |s|
    ensures Sorted(o, r)
  {
    if s == [] then []
    else
      assert s == [s[0]] + s[1..];
      var rest := SortBy(o, s[1..]);
      InsertKeepsSorted(o, s[0], rest);
      Insert(o, s[0], rest)
  }

  /** `SortDirectoriesByScore`: a rearrangement with descending scores, and newer
      directories first among equal scores. */
  lemma SortByScoreOrder(s: seq<Directory>)
    ensures var r := SortBy(ByScore, s);
            && multiset(r) == multiset(s)
            && (forall i, j :: 0 <= i < j < |r| ==> r[i].score >= r[j].score)
            && (forall i, j :: 0 <= i < j < |r| && r[i].score == r[j].score ==>
                  r[i].modifiedTime >= r[j].modifiedTime)
  {
  }

  /** `SortDirectoriesByTime`: a rearrangement with descending modification times. */
  lemma SortByTimeOrder(s: seq<Directory>)
    ensures var r := SortBy(ByTime, s);
            && multiset(r) == multiset(s)
            && (forall i, j :: 0 <= i < j < |r| ==> r[i].modifiedTime >= r[j].modifiedTime)
  {
  }

  // ---------------------------------------------------------------- relative age

  const Minute: int := 60_000_000_000
  const Hour: int := 60 * Minute
  const Day: int := 24 * Hour

  /** The unit and count `GetRelativeAge` settles on. */
  datatype Age = JustNow | Minutes(n: nat) | Hours(n: nat) | Days(n: nat) | Weeks(n: nat)
               | Months(n: nat) | Years(n: nat)

  /** The bucket of an elapsed time: the first unit whose bound the duration stays under,
      with the count of whole units elapsed. Months are 30 days and years 365. */
  function AgeOf(duration: int): (a: Age)
    ensures a.JustNow? <==> duration < Minute
    ensures a.Minutes? <==> Minute <= duration < Hour
    ensures a.Hours? <==> Hour <= duration < Day
    ensures a.Days? <==> Day <= duration < 7 * Day
    ensures a.Weeks? <==> 7 * Day <= duration < 30 * Day
    ensures a.Months? <==> 30 * Day <= duration < 365 * Day
    ensures a.Years? <==> 365 * Day <= duration
    ensures !a.JustNow? ==> a.n >= 1 && a.n * UnitOf(a) <= duration < (a.n + 1) * UnitOf(a)
  {
    if duration < Minute then JustNow
    else if duration < Hour then Minutes(duration / Minute)
    else if duration < Day then Hours(duration / Hour)
    else if duration < 7 * Day then Days(duration / Day)
    else if duration < 30 * Day then Weeks(duration / (7 * Day))
    else if duration < 365 * Day then Months(duration / (30 * Day))
    else Years(duration / (365 * Day))
  }

  /** The length of one unit of a bucket. */
  function UnitOf(a: Age): int
    requires !a.JustNow?
  {
    match a
    case Minutes(_) => Minute
    case Hours(_) => Hour
    case Days(_) => Day
    case Weeks(_) => 7 * Day
    case Months(_) => 30 * Day
    case Years(_) => 365 * Day
  }

  /** The singular and plural words of a unit. */
  function UnitWord(a: Age): string
    requires !a.JustNow?
  {
    match a
    case Minutes(_) => "minute"
    case Hours(_) => "hour"
    case Days(_) => "day"
    case Weeks(_) => "week"
    case Months(_) => "month"
    case Years(_) => "year"
  }

  /** The label of a bucket: a count of exactly one takes the singular. */
  function Label(a: Age): (r: string)
    ensures a.JustNow? ==> r == "just now"
    ensures !a.JustNow? && a.n == 1 ==> r == "1 " + UnitWord(a) + " ago"
    ensures !a.JustNow? && a.n != 1 ==> r == NatToString(a.n) + " " + UnitWord(a) + "s ago"
  {
    if a.JustNow? then "just now"
    else if a.n == 1 then "1 " + UnitWord(a) + " ago"
    else NatToString(a.n) + " " + UnitWord(a) + "s ago"
  }

  /** `GetRelativeAge`: the label of the time elapsed from `t` to `now`. A time in the
      future reads "just now". */
  function RelativeAge(t: int, now: int): (r: string)
    ensures now - t < Minute <==> r == "just now"
    ensures t > now ==> r == "just now"
  {
    var a := AgeOf(now - t);
    OnlyJustNowReadsJustNow(a);
    Label(a)
  }

  /** Every label other than "just now" starts with a digit. */
  lemma OnlyJustNowReadsJustNow(a: Age)
    ensures Label(a) == "just now" <==> a.JustNow?
  {
    if !a.JustNow? {
      assert IsDigit(Label(a)[0]) by {
        if a.n != 1 {
          assert Label(a)[0] == NatToString(a.n)[0];
        }
      }
      assert !IsDigit("just now"[0]);
    }
  }
}
