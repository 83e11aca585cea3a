/** The state of the interactive picker (ui/model.go): the list it shows, the query, the
    delete, clone and worktree modes with their input buffers, and the operations the key
    handler uses. The list widget is reduced to its items and an externally chosen cursor. */
module PickerModel {
  import opened Wrappers
  import opened Text
  import opened Scoring
  import opened Scanner
  import opened Manager
  import opened Paths

  /** One row of the list: a directory, or the "create new" row, whose `Path` is empty. */
  datatype Item =
    | DirItem(dir: Directory)
    | CreateNewItem(title: string, createQuery: string)
  {
    function Path(): string {
      if DirItem? then dir.path else ""
    }

    function Name(): string {
      if DirItem? then dir.name else title
    }
  }

  /** What went wrong in a handler; the picker keeps the last one. */
  datatype PickerError =
    | CreateFailed(reason: string)
    | CloneFailed
    | WorktreeFailed
    | DeleteFailed(e: DeleteError)

  /** The picker's state. The list widget's own state, the window size, and the `creating`
      flag that nothing reads are left out. */
  datatype Model = Model(
    directories: seq<Directory>,
    filteredDirs: seq<Directory>,
    items: seq<Item>,
    query: string,
    deleting: bool,
    deleteConfirm: bool,
    deleteInput: string,
    selectedForDelete: int,
    showHelp: bool,
    cloning: bool,
    cloneInput: string,
    creatingWorktree: bool,
    worktreeInput: string,
    worktreeRepo: string,
    initializingGit: bool,
    gitInitConfirm: bool,
    explicitCreating: bool,
    err: Option<PickerError>)

  /** `NewModel`: nothing loaded, nothing selected for deletion, no mode active. */
  function Init(): (m: Model)
    ensures m.query == [] && m.items == [] && m.selectedForDelete == -1 && m.err.None?
    ensures !m.deleting && !m.cloning && !m.creatingWorktree && !m.showHelp
  {
    Model([], [], [], "", false, false, "", -1, false, false, "", false, "", "", false, false, false, None)
  }

  /** The inputs that scoring and naming read: the try root, today's date, the names
      already under the root and the time-decay oracle. */
  datatype Context = Context(root: string, date: string, existing: set<string>, decay: int -> real)

  // ---------------------------------------------------------------- filtering

  /** `HasExactMatch`: some listed directory's name without its date prefix equals the
      query, ignoring case. An empty query never matches. */
  function HasExactMatch(query: string, dirs: seq<Directory>): (b: bool)
    ensures b <==> query != [] &&
                   exists i :: 0 <= i < |dirs| && Lower(ExtractNameFromDirectory(dirs[i].name)) == Lower(query)
  {
    if query == [] || dirs == [] then false
    else if Lower(ExtractNameFromDirectory(dirs[0].name)) == Lower(query) then true
    else
      var rest := HasExactMatch(query, dirs[1..]);
      assert forall i :: 1 <= i < |dirs| ==> dirs[i] == dirs[1..][i - 1];
      rest
  }

  /** The label of the "create new" row. */
  function CreateLabel(query: string, ctx: Context): string {
    "\U{2728} Create new: " + GenerateDatedName(query, ctx.date, ctx.existing)
  }

  /** The items shown for a list of directories: one row per directory, in order, then one
      "create new" row exactly when the query is non-empty and matches no directory. */
  ghost predicate ItemsShow(items: seq<Item>, dirs: seq<Directory>, query: string) {
    && |items| == |dirs| + (if query != [] && !HasExactMatch(query, dirs) then 1 else 0)
    && (forall i :: 0 <= i < |dirs| ==> items[i] == DirItem(dirs[i]))
    && (|items| > |dirs| ==> items[|dirs|].CreateNewItem? && items[|dirs|].createQuery == query)
  }

  function DirItems(dirs: seq<Directory>): (items: seq<Item>)
    ensures |items| == |dirs|
    ensures forall i :: 0 <= i < |dirs| ==> items[i] == DirItem(dirs[i])
  {
    seq(|dirs|, i requires 0 <= i < |dirs| => DirItem(dirs[i]))
  }

  /** The rows for a sorted list of directories and the query. */
  function BuildItems(dirs: seq<Directory>, query: string, ctx: Context): (items: seq<Item>)
    ensures ItemsShow(items, dirs, query)
    ensures |items| > |dirs| ==> items[|dirs|] == CreateNewItem(CreateLabel(query, ctx), query)
  {
    var rows := DirItems(dirs);
    if query != [] && !HasExactMatch(query, dirs) then rows + [CreateNewItem(CreateLabel(query, ctx), query)]
    else rows
  }

  /** By time for an empty query, by score otherwise. */
  function OrderFor(query: string): Order {
    if query == [] then ByTime else ByScore
  }

  /** The list is up to date: it holds exactly the directories the filter keeps for the
      query, scored, in the order for the query, and the items show them. */
  ghost predicate Refiltered(m: Model, ctx: Context) {
    && multiset(m.filteredDirs) == multiset(FilterAndScore(m.directories, m.query, ctx.decay))
    && Sorted(OrderFor(m.query), m.filteredDirs)
    && ItemsShow(m.items, m.filteredDirs, m.query)
  }

  /** `updateFiltered`: scores and filters the directories against the query, orders them
      by time for an empty query and by score otherwise, and rebuilds the items. Nothing
      else changes. */
  function UpdateFiltered(m: Model, ctx: Context): (r: Model)
    ensures r == m.(filteredDirs := r.filteredDirs, items := r.items)
    ensures multiset(r.filteredDirs) == multiset(FilterAndScore(m.directories, m.query, ctx.decay))
    ensures Sorted(OrderFor(m.query), r.filteredDirs)
    ensures ItemsShow(r.items, r.filteredDirs, m.query)
    ensures |r.items| > |r.filteredDirs| ==> r.items[|r.filteredDirs|] == CreateNewItem(CreateLabel(m.query, ctx), m.query)
    ensures Refiltered(r, ctx)
  {
    var kept := FilterAndScore(m.directories, m.query, ctx.decay);
    var sorted := SortBy(OrderFor(m.query), kept);
    m.(filteredDirs := sorted, items := BuildItems(sorted, m.query, ctx))
  }

  // ---------------------------------------------------------------- the query

  /** `SetQuery`: replaces the query, clears the explicit-create request and refilters. */
  function SetQuery(m: Model, q: string, ctx: Context): (r: Model)
    ensures r.query == q && !r.explicitCreating
    ensures Refiltered(r, ctx)
    ensures r.directories == m.directories && r.err == m.err && r.showHelp == m.showHelp
    ensures r.deleting == m.deleting && r.deleteInput == m.deleteInput && r.selectedForDelete == m.selectedForDelete
    ensures r.cloning == m.cloning && r.cloneInput == m.cloneInput
    ensures r.creatingWorktree == m.creatingWorktree && r.worktreeInput == m.worktreeInput
    ensures r.worktreeRepo == m.worktreeRepo && r.deleteConfirm == m.deleteConfirm
    ensures r.initializingGit == m.initializingGit && r.gitInitConfirm == m.gitInitConfirm
    ensures r == m.(query := q, explicitCreating := false, filteredDirs := r.filteredDirs, items := r.items)
  {
    UpdateFiltered(m.(query := q, explicitCreating := false), ctx)
  }

  /** `AppendToQuery`: the query grows by one character. */
  function AppendToQuery(m: Model, c: char, ctx: Context): (r: Model)
    ensures r.query == m.query + [c] && |r.query| == |m.query| + 1
    ensures r == SetQuery(m, m.query + [c], ctx)
  {
    SetQuery(m, m.query + [c], ctx)
  }

  /** `DeleteFromQuery`: drops the last character; an empty query leaves the model as it
      is, without refiltering. */
  function DeleteFromQuery(m: Model, ctx: Context): (r: Model)
    ensures m.query == [] ==> r == m
    ensures m.query != [] ==> r == SetQuery(m, m.query[..|m.query| - 1], ctx)
    ensures m.query != [] ==> |r.query| == |m.query| - 1 && r.query <= m.query
  {
    if |m.query| > 0 then SetQuery(m, m.query[..|m.query| - 1], ctx) else m
  }

  /** Typing a character and deleting it again restores the query. */
  lemma AppendThenDelete(m: Model, c: char, ctx: Context)
    ensures DeleteFromQuery(AppendToQuery(m, c, ctx), ctx).query == m.query
  {
    assert (m.query + [c])[..|m.query|] == m.query;
  }

  // ---------------------------------------------------------------- selection

  /** The list's selected row for a cursor position chosen by the list widget: none when
      the cursor is outside the items. */
  function Selected(m: Model, cursor: int): (r: Option<Item>)
    ensures r.Some? <==> 0 <= cursor < |m.items|
    ensures r.Some? ==> r.value == m.items[cursor]
  {
    if 0 <= cursor < |m.items| then Some(m.items[cursor]) else None
  }

  /** The first listed directory with the given path. */
  function FirstWithPath(dirs: seq<Directory>, path: string): (r: Option<nat>)
    ensures r.Some? ==> r.value < |dirs| && dirs[r.value].path == path
    ensures r.Some? ==> forall j :: 0 <= j < r.value ==> dirs[j].path != path
    ensures r.None? <==> forall j :: 0 <= j < |dirs| ==> dirs[j].path != path
  {
    if dirs == [] then None
    else if dirs[0].path == path then Some(0)
    else match FirstWithPath(dirs[1..], path)
      case None => None
      case Some(i) => Some(i + 1)
  }

  // ---------------------------------------------------------------- deleting

  /** `StartDelete`: a selected directory row enters delete mode on the first listed
      directory with the same path; no selection, or the "create new" row, changes
      nothing. */
  function StartDelete(m: Model, cursor: int): (r: Model)
    ensures Selected(m, cursor).None? || Selected(m, cursor).value.CreateNewItem? ==> r == m
    ensures r.deleting && !m.deleting ==>
              && 0 <= r.selectedForDelete < |m.filteredDirs|
              && m.filteredDirs[r.selectedForDelete].path == Selected(m, cursor).value.Path()
    ensures r.deleting != m.deleting ==> r == m.(deleting := true, selectedForDelete := r.selectedForDelete)
    ensures (ItemsShow(m.items, m.filteredDirs, m.query) && Selected(m, cursor).Some? &&
             Selected(m, cursor).value.DirItem?) ==> r.deleting
  {
    match Selected(m, cursor)
    case None => m
    case Some(item) =>
      if item.CreateNewItem? then m
      else
        match FirstWithPath(m.filteredDirs, item.Path())
        case None => m
        case Some(i) => m.(deleting := true, selectedForDelete := i)
  }

  /** `CancelDelete`: leaves delete mode and forgets its buffer and selection. */
  function CancelDelete(m: Model): (r: Model)
    ensures !r.deleting && !r.deleteConfirm && r.deleteInput == [] && r.selectedForDelete == -1
    ensures r.(deleting := m.deleting, deleteConfirm := m.deleteConfirm, deleteInput := m.deleteInput,
               selectedForDelete := m.selectedForDelete) == m
  {
    m.(deleting := false, deleteConfirm := false, deleteInput := "", selectedForDelete := -1)
  }

  /** The file-system outcomes `DeleteDirectory` depends on. */
  datatype DeleteWorld = DeleteWorld(marker: GitMarker, content: Option<string>, gitOk: bool, removeOk: bool)

  /** The directories other than those with the given path, in their order. */
  function WithoutPath(dirs: seq<Directory>, path: string): (r: seq<Directory>)
    ensures |r| <= |dirs|
    ensures forall d :: d in r <==> d in dirs && d.path != path
    ensures multiset(r) <= multiset(dirs)
  {
    if dirs == [] then []
    else
      assert dirs == [dirs[0]] + dirs[1..];
      var rest := WithoutPath(dirs[1..], path);
      if dirs[0].path != path then [dirs[0]] + rest else rest
  }

  /** Removing a path from a concatenation removes it from each part, so the survivors keep
      their relative order. */
  lemma {:induction false} WithoutPathAppend(a: seq<Directory>, b: seq<Directory>, path: string)
    ensures WithoutPath(a + b, path) == WithoutPath(a, path) + WithoutPath(b, path)
  {
    if a != [] {
      assert (a + b)[0] == a[0];
      assert (a + b)[1..] == a[1..] + b;
      WithoutPathAppend(a[1..], b, path);
      var head := if a[0].path != path then [a[0]] else [];
      assert WithoutPath(a, path) == head + WithoutPath(a[1..], path);
      assert WithoutPath(a + b, path) == head + WithoutPath(a[1..] + b, path);
      assert head + (WithoutPath(a[1..], path) + WithoutPath(b, path))
          == (head + WithoutPath(a[1..], path)) + WithoutPath(b, path);
    } else {
      assert a + b == b;
    }
  }

  /** `ConfirmDelete`: with the selection in range, deletes that directory through
      `DeleteDirectory`; on success the directories lose every entry with its path, the
      list is refiltered and the delete state is reset, and nothing else changes; on failure the model is unchanged and the error
      is returned. A selection out of range does nothing. */
  function ConfirmDelete(m: Model, ctx: Context, w: DeleteWorld): (r: (Model, Option<DeleteError>))
    ensures !(0 <= m.selectedForDelete < |m.filteredDirs|) ==> r == (m, None)
    ensures r.1.Some? ==> r.0 == m
    ensures 0 <= m.selectedForDelete < |m.filteredDirs| ==>
              var path := m.filteredDirs[m.selectedForDelete].path;
              (r.1.None? <==> DeleteDirectory(ctx.root, path, w.marker, w.content, w.gitOk, w.removeOk).Success?)
    ensures 0 <= m.selectedForDelete < |m.filteredDirs| && r.1.None? ==>
              && r.0.directories == WithoutPath(m.directories, m.filteredDirs[m.selectedForDelete].path)
              && Refiltered(r.0, ctx)
              && r.0 == m.(directories := r.0.directories, filteredDirs := r.0.filteredDirs, items := r.0.items,
                           deleting := false, deleteConfirm := false, deleteInput := "", selectedForDelete := -1)
  {
    if 0 <= m.selectedForDelete < |m.filteredDirs| then
      var dir := m.filteredDirs[m.selectedForDelete];
      match DeleteDirectory(ctx.root, dir.path, w.marker, w.content, w.gitOk, w.removeOk)
      case Failure(e) => (m, Some(e))
      case Success(_) =>
        var refreshed := UpdateFiltered(m.(directories := WithoutPath(m.directories, dir.path)), ctx);
        (CancelDelete(refreshed), None)
    else (m, None)
  }

  // ---------------------------------------------------------------- other requests

  /** The selection is a directory that is neither a repository nor a worktree. */
  predicate GitInitAllowed(m: Model, cursor: int) {
    && Selected(m, cursor).Some?
    && Selected(m, cursor).value.DirItem?
    && !Selected(m, cursor).value.dir.isGitRepo
    && !Selected(m, cursor).value.dir.isWorktree
  }

  /** `StartGitInit`: only a selected directory that is neither a repository nor a
      worktree asks for `git init`. */
  function StartGitInit(m: Model, cursor: int): (r: Model)
    ensures GitInitAllowed(m, cursor) ==> r == m.(initializingGit := true, gitInitConfirm := true)
    ensures !GitInitAllowed(m, cursor) ==> r == m
  {
    match Selected(m, cursor)
    case Some(DirItem(d)) =>
      if !d.isGitRepo && !d.isWorktree then m.(initializingGit := true, gitInitConfirm := true) else m
    case _ => m
  }

  /** `StartExplicitCreate`: asks for creation only when there is a query. */
  function StartExplicitCreate(m: Model): (r: Model)
    ensures m.query == [] ==> r == m
    ensures m.query != [] ==> r == m.(explicitCreating := true)
  {
    if m.query != [] then m.(explicitCreating := true) else m
  }
}
