/** The key handling of the picker (the `tea.KeyMsg` branch of `Model.Update` in
    ui/update.go) as a step function. Everything the handler asks of the outside world --
    the list cursor, `git`, the file system and the directory rescan -- arrives as an
    input, and the writes to the cd file and the request to quit come back as outputs. */
module PickerUpdate {
  import opened Wrappers
  import opened Text
  import opened Paths
  import opened Scanner
  import opened Manager
  import opened PickerModel

  /** A key press, spelled as `KeyMsg.String()` spells it: "enter", "esc", "ctrl+d", or
      the typed character itself. */
  type Key = string

  /** A single character from space to tilde, the only text the input fields accept. */
  predicate Printable(key: Key) {
    |key| == 1 && 32 <= key[0] as int < 127
  }

  /** The outcomes of the collaborators for one key press: the cursor the list widget
      settles on, whether a path is a git repository, whether `git worktree add` and
      `git clone` succeed, whether the try root and a new directory can be made, the state
      deletion finds, and the result of rescanning the try root. */
  datatype Env = Env(
    ctx: Context,
    cursor: int,
    isGitRepository: string -> bool,
    worktreeOk: bool,
    cloneOk: bool,
    rootOk: bool,
    mkdirOk: bool,
    deletion: DeleteWorld,
    rescan: Option<seq<Directory>>)

  /** The new state, the path written to the cd file if any, and whether the program
      quits. */
  datatype Outcome = Outcome(model: Model, cdPath: Option<string>, quit: bool)

  /** What holds of every state the picker reaches: at most one input mode, the delete
      flags agree and select a listed directory, the buffers of inactive modes are empty,
      help shows only over normal mode, and the items show the filtered directories. */
  ghost predicate Inv(m: Model) {
    && (m.creatingWorktree ==> !m.cloning && !m.deleting)
    && (m.cloning ==> !m.deleting)
    && m.deleteConfirm == m.deleting
    && (m.deleting ==> 0 <= m.selectedForDelete < |m.filteredDirs|)
    && (!m.deleting ==> m.deleteInput == [] && m.selectedForDelete == -1)
    && (!m.creatingWorktree ==> m.worktreeInput == [] && m.worktreeRepo == [])
    && (!m.cloning ==> m.cloneInput == [])
    && (m.showHelp ==> !m.deleting && !m.cloning && !m.creatingWorktree)
    && ItemsShow(m.items, m.filteredDirs, m.query)
  }

  lemma InitSatisfiesInv()
    ensures Inv(Init())
  {
  }

  /** No input mode and no help screen. */
  predicate NormalMode(m: Model) {
    !m.showHelp && !m.creatingWorktree && !m.cloning && !(m.deleting && m.deleteConfirm)
  }

  /** One of the three text-input modes. */
  predicate InputMode(m: Model) {
    !m.showHelp && (m.creatingWorktree || m.cloning || (m.deleting && m.deleteConfirm))
  }

  /** A buffer after backspace: one character shorter, or empty as it was. */
  function Backspace(s: string): (r: string)
    ensures s == [] ==> r == []
    ensures s != [] ==> r + [s[|s| - 1]] == s
  {
    if |s| > 0 then s[..|s| - 1] else s
  }

  /** A buffer after a key that is not handled otherwise: printable characters are
      appended, everything else is ignored. */
  function Typed(s: string, key: Key): (r: string)
    ensures Printable(key) ==> r == s + key
    ensures !Printable(key) ==> r == s
  {
    if Printable(key) then s + key else s
  }

  /** `LoadDirectories`: a successful rescan replaces the directories and refilters; a
      failed one leaves the model as it is. */
  function Reload(m: Model, env: Env): (r: Model)
    ensures env.rescan.None? ==> r == m
    ensures r == m.(directories := r.directories, filteredDirs := r.filteredDirs, items := r.items)
    ensures env.rescan.Some? ==> r.directories == env.rescan.value && Refiltered(r, env.ctx)
    ensures ItemsShow(m.items, m.filteredDirs, m.query) ==> ItemsShow(r.items, r.filteredDirs, r.query)
  {
    match env.rescan
    case None => m
    case Some(dirs) => UpdateFiltered(m.(directories := dirs), env.ctx)
  }

  /** What no key undoes: an error once set stays set, and the explicit-create request is
      never raised by a key. */
  predicate Keeps(m: Model, r: Model) {
    (m.err.Some? ==> r.err.Some?) && (r.explicitCreating ==> m.explicitCreating)
  }

  /** A key that touched only an input buffer: the query and the lists are as they were,
      nothing is written to the cd file and the program goes on. */
  predicate Isolated(m: Model, o: Outcome) {
    && o.model.query == m.query && o.model.directories == m.directories
    && o.model.filteredDirs == m.filteredDirs && o.model.items == m.items
    && o.cdPath.None? && !o.quit
  }

  // ---------------------------------------------------------------- worktree mode

  /** The name `createWorktreeFromPath` dates: the buffer, or when it is empty the
      repository's base name followed by "-worktree". */
  function WorktreeName(repo: string, name: string): string {
    if name == [] then Base(repo) + "-worktree" else name
  }

  /** The directory `createWorktreeFromPath` adds: `filepath.Join` of the root and a fresh
      dated name, which under a clean root and without a slash in the name is the root, a
      slash and the dated name. */
  function WorktreePath(repo: string, name: string, ctx: Context): (r: string)
    ensures var dated := GenerateDatedName(WorktreeName(repo, name), ctx.date, ctx.existing);
            && r == JoinPath(ctx.root, dated)
            && (IsCleanDir(ctx.root) && '/' !in WorktreeName(repo, name) && '/' !in ctx.date ==>
                  r == ctx.root + "/" + dated)
  {
    var effective := WorktreeName(repo, name);
    var dated := GenerateDatedName(effective, ctx.date, ctx.existing);
    if IsCleanDir(ctx.root) && '/' !in effective && '/' !in ctx.date then
      DatedNameIsPlain(effective, ctx.date, ctx.existing);
      JoinUnderCleanDir(ctx.root, dated);
      JoinPath(ctx.root, dated)
    else JoinPath(ctx.root, dated)
  }

  /** A worktree name typed as `a/../../x` under the root `/t` puts the worktree at `/x`,
      outside the root. */
  lemma TypedWorktreeNameCanLeaveRoot(repo: string, t: string, a: string, x: string, ctx: Context)
    requires ctx.root == "/" + t && '/' !in ctx.date
    requires IsPlainElement(t) && IsPlainElement(a) && IsPlainElement(x)
    requires IsLowerCase(a) && IsLowerCase(x) && ' ' !in a && ' ' !in x
    requires BaseName(a + "/../../" + x, ctx.date) !in ctx.existing
    ensures WorktreePath(repo, a + "/../../" + x, ctx) == "/" + x
  {
    CreateDirectoryCanLeaveRoot(t, a, x, ctx.date, ctx.existing);
  }

  /** Keys in worktree mode: enter adds the worktree (on failure the error is kept and the
      mode stays; on success the mode ends, the cd file names the new worktree and the
      directories reload), esc leaves the mode, and otherwise only the buffer changes. */
  function WorktreeKey(m: Model, key: Key, env: Env): (o: Outcome)
    requires Inv(m) && !m.showHelp && m.creatingWorktree
    ensures Inv(o.model) && !o.quit
    ensures Keeps(m, o.model) && !o.model.cloning && !o.model.deleting
    ensures (o.cdPath.Some? ==> key == "enter") && (key != "enter" ==> Isolated(m, o))
    ensures key == "enter" && !env.worktreeOk ==> o == Outcome(m.(err := Some(WorktreeFailed)), None, false)
    ensures key == "enter" && env.worktreeOk ==>
              && o.cdPath == Some(WorktreePath(m.worktreeRepo, m.worktreeInput, env.ctx))
              && o.model == Reload(m.(creatingWorktree := false, worktreeInput := "", worktreeRepo := ""), env)
    ensures key == "esc" ==> o == Outcome(m.(creatingWorktree := false, worktreeInput := "", worktreeRepo := ""), None, false)
    ensures key == "backspace" ==> o == Outcome(m.(worktreeInput := Backspace(m.worktreeInput)), None, false)
    ensures key != "enter" && key != "esc" && key != "backspace" ==>
              o == Outcome(m.(worktreeInput := Typed(m.worktreeInput, key)), None, false)
  {
    if key == "enter" then
      if !env.worktreeOk then Outcome(m.(err := Some(WorktreeFailed)), None, false)
      else
        var left := m.(creatingWorktree := false, worktreeInput := "", worktreeRepo := "");
        Outcome(Reload(left, env), Some(WorktreePath(m.worktreeRepo, m.worktreeInput, env.ctx)), false)
    else if key == "esc" then
      Outcome(m.(creatingWorktree := false, worktreeInput := "", worktreeRepo := ""), None, false)
    else if key == "backspace" then
      Outcome(m.(worktreeInput := Backspace(m.worktreeInput)), None, false)
    else
      Outcome(m.(worktreeInput := Typed(m.worktreeInput, key)), None, false)
  }

  // ---------------------------------------------------------------- clone mode

  /** The directory `cloneRepository` clones into: `filepath.Join` of the root and a fresh
      dated name from the repository's name in the URL. That name never holds a slash, so
      under a clean root the path is the root, a slash and the dated name. */
  function ClonePath(url: string, ctx: Context): (r: string)
    ensures var dated := GenerateDatedName(ExtractNameFromGitURL(url), ctx.date, ctx.existing);
            && r == JoinPath(ctx.root, dated)
            && (IsCleanDir(ctx.root) && '/' !in ctx.date ==> r == ctx.root + "/" + dated)
  {
    var dated := GenerateDatedName(ExtractNameFromGitURL(url), ctx.date, ctx.existing);
    if IsCleanDir(ctx.root) && '/' !in ctx.date then
      DatedNameIsPlain(ExtractNameFromGitURL(url), ctx.date, ctx.existing);
      JoinUnderCleanDir(ctx.root, dated);
      JoinPath(ctx.root, dated)
    else JoinPath(ctx.root, dated)
  }

  /** Keys in clone mode: enter with an empty buffer does nothing, otherwise it clones (on
      failure the error is kept and the mode stays; on success the mode ends, the cd file
      names the clone and the directories reload); esc leaves the mode; otherwise only
      the buffer changes. */
  function CloneKey(m: Model, key: Key, env: Env): (o: Outcome)
    requires Inv(m) && !m.showHelp && !m.creatingWorktree && m.cloning
    ensures Inv(o.model) && !o.quit
    ensures Keeps(m, o.model) && !o.model.creatingWorktree && !o.model.deleting
    ensures (o.cdPath.Some? ==> key == "enter") && (key != "enter" ==> Isolated(m, o))
    ensures key == "enter" && m.cloneInput == [] ==> o == Outcome(m, None, false)
    ensures key == "enter" && m.cloneInput != [] && !env.cloneOk ==> o == Outcome(m.(err := Some(CloneFailed)), None, false)
    ensures key == "enter" && m.cloneInput != [] && env.cloneOk ==>
              && o.cdPath == Some(ClonePath(m.cloneInput, env.ctx))
              && o.model == Reload(m.(cloning := false, cloneInput := ""), env)
    ensures key == "esc" ==> o == Outcome(m.(cloning := false, cloneInput := ""), None, false)
    ensures key == "backspace" ==> o == Outcome(m.(cloneInput := Backspace(m.cloneInput)), None, false)
    ensures key != "enter" && key != "esc" && key != "backspace" ==>
              o == Outcome(m.(cloneInput := Typed(m.cloneInput, key)), None, false)
  {
    if key == "enter" then
      if m.cloneInput == [] then Outcome(m, None, false)
      else if !env.cloneOk then Outcome(m.(err := Some(CloneFailed)), None, false)
      else Outcome(Reload(m.(cloning := false, cloneInput := ""), env), Some(ClonePath(m.cloneInput, env.ctx)), false)
    else if key == "esc" then
      Outcome(m.(cloning := false, cloneInput := ""), None, false)
    else if key == "backspace" then
      Outcome(m.(cloneInput := Backspace(m.cloneInput)), None, false)
    else
      Outcome(m.(cloneInput := Typed(m.cloneInput, key)), None, false)
  }

  // ---------------------------------------------------------------- delete mode

  /** The confirmation that lets a deletion go ahead: "yes", or the selected directory's
      full name, date prefix included, with case. */
  predicate Confirms(input: string, dir: Directory) {
    input == "yes" || input == dir.name
  }

  /** Keys in delete-confirmation mode: enter deletes the selected directory when the
      buffer confirms it, keeping the error of a failed deletion, and always leaves the
      mode; esc leaves the mode; otherwise only the buffer changes. */
  function DeleteKey(m: Model, key: Key, env: Env): (o: Outcome)
    requires Inv(m) && NormalOrDelete(m) && m.deleting
    ensures Inv(o.model) && !o.quit && o.cdPath.None?
    ensures Keeps(m, o.model) && !o.model.creatingWorktree && !o.model.cloning
    ensures key != "enter" ==> Isolated(m, o)
    ensures key == "enter" ==> !o.model.deleting && o.model.deleteInput == [] && o.model.selectedForDelete == -1
    ensures key == "enter" && !Confirms(m.deleteInput, m.filteredDirs[m.selectedForDelete]) ==>
              o.model == CancelDelete(m)
    ensures key == "enter" && Confirms(m.deleteInput, m.filteredDirs[m.selectedForDelete]) ==>
              var r := ConfirmDelete(m, env.ctx, env.deletion);
              o.model == CancelDelete(if r.1.Some? then r.0.(err := Some(DeleteFailed(r.1.value))) else r.0)
    ensures key == "esc" ==> o.model == CancelDelete(m)
    ensures key == "backspace" ==> o.model == m.(deleteInput := Backspace(m.deleteInput))
    ensures key != "enter" && key != "esc" && key != "backspace" ==>
              o.model == m.(deleteInput := Typed(m.deleteInput, key))
  {
    if key == "enter" then
      var dir := m.filteredDirs[m.selectedForDelete];
      var attempted :=
        if Confirms(m.deleteInput, dir) then
          var r := ConfirmDelete(m, env.ctx, env.deletion);
          if r.1.Some? then r.0.(err := Some(DeleteFailed(r.1.value))) else r.0
        else m;
      Outcome(CancelDelete(attempted), None, false)
    else if key == "esc" then
      Outcome(CancelDelete(m), None, false)
    else if key == "backspace" then
      Outcome(m.(deleteInput := Backspace(m.deleteInput)), None, false)
    else
      Outcome(m.(deleteInput := Typed(m.deleteInput, key)), None, false)
  }

  /** Neither help, nor the worktree or clone mode. */
  predicate NormalOrDelete(m: Model) {
    !m.showHelp && !m.creatingWorktree && !m.cloning
  }

  // ---------------------------------------------------------------- normal mode

  /** The keys the list widget handles by itself. */
  predicate NavigationKey(key: Key) {
    key == "ctrl+j" || key == "ctrl+k" || key == "ctrl+p" || key == "ctrl+n"
  }

  /** Enter in normal mode: with an explicit-create request, make the directory the query
      names and quit into it (a failure is kept as the error); otherwise quit into the
      selected item's path, which is empty for the "create new" row. */
  function EnterKey(m: Model, env: Env): (o: Outcome)
    requires Inv(m) && NormalMode(m)
    ensures Inv(o.model) && Keeps(m, o.model)
    ensures o.model.query == m.query && o.model.items == m.items && o.model.filteredDirs == m.filteredDirs
    ensures o.model == m || o.model == m.(err := o.model.err)
    ensures !m.explicitCreating && Selected(m, env.cursor).Some? ==>
              o == Outcome(m, Some(Selected(m, env.cursor).value.Path()), true)
    ensures !m.explicitCreating && Selected(m, env.cursor).None? ==> o == Outcome(m, None, false)
    ensures !m.explicitCreating && Selected(m, env.cursor).Some? && Selected(m, env.cursor).value.CreateNewItem? ==>
              o == Outcome(m, Some(""), true)
    ensures m.explicitCreating ==>
              var c := CreateDirectory(env.ctx.root, m.query, env.ctx.date, env.ctx.existing, env.rootOk, env.mkdirOk);
              o == (if c.Success? then Outcome(m, Some(c.value), true)
                    else Outcome(m.(err := Some(CreateFailed(c.error))), None, false))
  {
    if m.explicitCreating then
      match CreateDirectory(env.ctx.root, m.query, env.ctx.date, env.ctx.existing, env.rootOk, env.mkdirOk)
      case Failure(e) => Outcome(m.(err := Some(CreateFailed(e))), None, false)
      case Success(path) => Outcome(m, Some(path), true)
    else
      match Selected(m, env.cursor)
      case Some(item) => Outcome(m, Some(item.Path()), true)
      case None => Outcome(m, None, false)
  }

  /** The keys that open a mode from normal mode: ctrl+d asks to delete the selected
      directory, ctrl+w starts a worktree of the selected item when it is a git
      repository, and ctrl+g starts a clone. */
  function ModeKey(m: Model, key: Key, env: Env): (o: Outcome)
    requires Inv(m) && NormalMode(m) && (key == "ctrl+d" || key == "ctrl+w" || key == "ctrl+g")
    ensures Inv(o.model) && Keeps(m, o.model) && o.cdPath.None? && !o.quit
    ensures o.model.query == m.query && o.model.items == m.items && o.model.filteredDirs == m.filteredDirs
    ensures o.model.creatingWorktree ==> key == "ctrl+w"
    ensures o.model.cloning ==> key == "ctrl+g"
    ensures o.model.deleting ==> key == "ctrl+d"
    ensures key == "ctrl+g" ==> o.model == m.(cloning := true)
    ensures key == "ctrl+w" && o.model.creatingWorktree ==>
              && Selected(m, env.cursor).Some?
              && env.isGitRepository(Selected(m, env.cursor).value.Path())
              && o.model == m.(creatingWorktree := true, worktreeRepo := Selected(m, env.cursor).value.Path(),
                               worktreeInput := Base(Selected(m, env.cursor).value.Path()) + "-worktree")
    ensures key == "ctrl+w" && !o.model.creatingWorktree ==> o.model == m
  {
    if key == "ctrl+d" then
      var started := StartDelete(m, env.cursor);
      Outcome(if started.deleting then started.(deleteConfirm := true) else started, None, false)
    else if key == "ctrl+w" then
      match Selected(m, env.cursor)
      case Some(item) =>
        if env.isGitRepository(item.Path()) then
          Outcome(m.(creatingWorktree := true, worktreeRepo := item.Path(),
                     worktreeInput := Base(item.Path()) + "-worktree"), None, false)
        else Outcome(m, None, false)
      case None => Outcome(m, None, false)
    else Outcome(m.(cloning := true), None, false)
  }

  /** The keys that replace the query in normal mode: tab completes to the first listed
      directory's full name when there is a query; ctrl+u clears it; esc clears it, or
      quits when it is already empty. */
  function QueryKey(m: Model, key: Key, env: Env): (o: Outcome)
    requires Inv(m) && NormalMode(m) && (key == "tab" || key == "ctrl+u" || key == "esc")
    ensures Inv(o.model) && Keeps(m, o.model) && o.cdPath.None?
    ensures !o.model.creatingWorktree && !o.model.cloning && !o.model.deleting
    ensures o.quit ==> key == "esc"
    ensures key == "tab" && m.filteredDirs != [] && m.query != [] ==>
              o == Outcome(SetQuery(m, m.filteredDirs[0].name, env.ctx), None, false)
    ensures key == "tab" && (m.filteredDirs == [] || m.query == []) ==> o == Outcome(m, None, false)
    ensures key == "ctrl+u" ==> o == Outcome(SetQuery(m, "", env.ctx), None, false)
    ensures key == "esc" && m.query != [] ==> o == Outcome(SetQuery(m, "", env.ctx), None, false)
    ensures key == "esc" && m.query == [] ==> o == Outcome(m, None, true)
  {
    if key == "tab" then
      if |m.filteredDirs| > 0 && m.query != [] then Outcome(SetQuery(m, m.filteredDirs[0].name, env.ctx), None, false)
      else Outcome(m, None, false)
    else if key == "ctrl+u" then Outcome(SetQuery(m, "", env.ctx), None, false)
    else if m.query != [] then Outcome(SetQuery(m, "", env.ctx), None, false)
    else if m.deleting then Outcome(CancelDelete(m), None, false)
    else Outcome(m, None, true)
  }

  /** The remaining keys of normal mode: navigation keys are left to the list, backspace
      drops the query's last character, and any other printable character is typed into
      the query; everything else is ignored. */
  function TypingKey(m: Model, key: Key, env: Env): (o: Outcome)
    requires Inv(m) && NormalMode(m)
    ensures Inv(o.model) && Keeps(m, o.model) && o.cdPath.None? && !o.quit
    ensures !o.model.creatingWorktree && !o.model.cloning && !o.model.deleting
    ensures o.model.query != m.query ==> key == "backspace" || Printable(key)
    ensures NavigationKey(key) ==> o == Outcome(m, None, false)
    ensures key == "backspace" ==> o == Outcome(DeleteFromQuery(m, env.ctx), None, false)
    ensures Printable(key) ==> o == Outcome(AppendToQuery(m, key[0], env.ctx), None, false)
  {
    if NavigationKey(key) then Outcome(m, None, false)
    else if key == "backspace" then Outcome(DeleteFromQuery(m, env.ctx), None, false)
    else if Printable(key) then Outcome(AppendToQuery(m, key[0], env.ctx), None, false)
    else Outcome(m, None, false)
  }

  /** Keys in normal mode: q and ctrl+c quit, ? opens the help, so neither reaches the
      query; "/" is typed like any other character. */
  function NormalKey(m: Model, key: Key, env: Env): (o: Outcome)
    requires Inv(m) && NormalMode(m)
    ensures Inv(o.model) && Keeps(m, o.model)
    ensures o.model.creatingWorktree ==> key == "ctrl+w"
    ensures o.model.cloning ==> key == "ctrl+g"
    ensures o.model.deleting ==> key == "ctrl+d"
    ensures o.quit ==> key == "q" || key == "ctrl+c" || key == "esc" || key == "enter"
    ensures o.cdPath.Some? ==> key == "enter"
    ensures key == "q" || key == "ctrl+c" ==> o == Outcome(m, None, true)
    ensures key == "?" ==> o == Outcome(m.(showHelp := true), None, false)
    ensures Printable(key) && key != "q" && key != "?" ==>
              o == Outcome(AppendToQuery(m, key[0], env.ctx), None, false)
  {
    if key == "ctrl+c" || key == "q" then Outcome(m, None, true)
    else if key == "?" then Outcome(m.(showHelp := true), None, false)
    else if key == "/" then Outcome(AppendToQuery(m, '/', env.ctx), None, false)
    else if key == "enter" then EnterKey(m, env)
    else if key == "ctrl+d" || key == "ctrl+w" || key == "ctrl+g" then ModeKey(m, key, env)
    else if key == "tab" || key == "ctrl+u" || key == "esc" then QueryKey(m, key, env)
    else TypingKey(m, key, env)
  }

  /** Tab completes to the first listed directory's full name, date prefix included. */
  lemma TabCopiesFullName(m: Model, env: Env)
    requires Inv(m) && NormalMode(m) && m.filteredDirs != [] && m.query != []
    ensures Step(m, "tab", env).model.query == m.filteredDirs[0].name
  {
  }

  // ---------------------------------------------------------------- the step

  /** `Update` on a key press: help swallows the key, then the worktree, clone and delete
      modes take it in that order, and normal mode gets the rest. Every reachable state
      stays reachable: the invariant is kept, so in particular the selection for deletion
      at ui/update.go line 111 is always in range. */
  function Step(m: Model, key: Key, env: Env): (o: Outcome)
    requires Inv(m)
    ensures Inv(o.model)
    ensures m.showHelp ==> o == Outcome(m.(showHelp := false), None, false)
    ensures Keeps(m, o.model)
    ensures o.model.creatingWorktree && !m.creatingWorktree ==> NormalMode(m) && key == "ctrl+w"
    ensures o.model.cloning && !m.cloning ==> NormalMode(m) && key == "ctrl+g"
    ensures o.model.deleting && !m.deleting ==> NormalMode(m) && key == "ctrl+d"
    ensures o.quit ==> NormalMode(m) && (key == "q" || key == "ctrl+c" || key == "esc" || key == "enter")
    ensures o.cdPath.Some? ==> key == "enter"
    ensures InputMode(m) && key != "enter" ==> Isolated(m, o)
  {
    if m.showHelp then Outcome(m.(showHelp := false), None, false)
    else if m.creatingWorktree then WorktreeKey(m, key, env)
    else if m.cloning then CloneKey(m, key, env)
    else if m.deleting && m.deleteConfirm then DeleteKey(m, key, env)
    else NormalKey(m, key, env)
  }

}
