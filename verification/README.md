# try — a verified model of the directory picker's core

`try` keeps experiment directories under one root (`~/src/tries`), each named
`YYYY-MM-DD-<name>`. A terminal picker scores every directory against the typed query,
lists the matches best first, offers a "create new" row when no directory matches
exactly, and on a key press writes the chosen path to a cd file, creates a dated
directory, clones a repository, adds a git worktree or deletes a directory.

This project models that core in Dafny and proves properties of it:

- `wrappers.dfy`, `text.dfy`: `Option`/`Result`, and the string functions the Go code takes
  from `strings` and `strconv` (ASCII lower-casing, `Split`, `Index`, `TrimSpace`, decimal
  formatting).
- `paths.dfy`: `filepath.Clean`, `filepath.Join` and `filepath.Base` for Unix paths. `Join`
  cleans its result lexically: repeated slashes collapse, "." elements vanish and ".."
  removes the element before it.
- `subsequence.dfy`, `edit_distance.dfy`, `tokens.dfy`: the matching primitives of
  core/scoring.go: the greedy subsequence scan, proved to decide a declarative
  subsequence relation; the Levenshtein table, proved equal to the recursive distance;
  tokenisation and token scoring.
- `scoring.dfy`: the text-score cascade (exact, prefix, substring, subsequence, token,
  edit distance), the time score and the combined `ScoreDirectory`.
- `scanner.dfy`: building directory records from a directory listing, filtering and
  scoring, both sort orders, and the relative-age label.
- `manager.dfy`: dated-name generation with its counter, directory creation, repository
  names from git URLs, the parse of a worktree's `.git` file and directory deletion.
- `picker_model.dfy`: the picker's state and the methods of ui/model.go that change it.
- `picker_update.dfy`: the key handler of ui/update.go as a step function `Step`, with an
  invariant `Inv` that `Init` establishes and `Step` keeps.

Scores are exact reals. Everything the Go code reads from the outside world is an
input: the clock becomes a date string and a decay oracle (`decay: int -> real`, the raw
value of `exp(-λ·days)` for a modification time); the file system becomes the set of
names already under the root, a directory listing and success flags; `git` becomes
success flags; the list widget's cursor is an integer. Writing the cd file and quitting
are outputs of `Step`.

Where the prose description of the tool and the Go code disagree, the model follows the
code:

- With an empty query the combined score is `0.7·0.5 + 0.3·time`, not the time score
  alone.
- The filter keeps directories whose combined score is positive. The time score alone
  keeps a directory even when its text score is 0.
- Enter on the "create new" row writes that row's empty path and quits; it does not
  create a directory. Only the explicit-create request creates one, and no key sets that
  request (`PickerUpdate.Step` keeps it unset).
- Tab completes to the first listed directory's full name, date prefix included.
- Tokenising runs on already lower-cased text, so its camel-case splitting never adds a
  token (`Scoring.ScoringTokensAreFields`).
- For an scp-style URL, the repository name comes from the text between the first and
  second `:`, not from everything after the first `:`.

Two consequences of `filepath.Join` cleaning its result are modelled as the code has them:

- A typed directory or worktree name is joined to the root unchecked, so a name such as
  `a/../../x` places the new directory outside the root
  (`Manager.CreateDirectoryCanLeaveRoot`, `PickerUpdate.TypedWorktreeNameCanLeaveRoot`).
- The deletion guard compares the listed path with the root as written. Listed paths are
  cleaned, so under a root written as `./t` every listed directory is refused
  (`Manager.DotRootRefusesListed`). Under a clean root every listed directory passes
  (`Manager.CleanRootAdmitsListed`).

## Model

| member | source | states |
|---|---|---|
| Text.Lower | core/scoring.go:64-65 | lower-cases each ASCII upper-case letter and keeps every other character, position by position |
| Text.LowerIdempotent | core/scoring.go:64-65 | lower-casing twice equals lower-casing once |
| Text.JoinSplit | core/manager.go:157 | splitting on a separator loses nothing: joining the pieces with it gives back the string |
| Text.LastPieceIsTail | core/manager.go:157-159 | the last piece of a split is the text after the last separator |
| Text.ParseNatToString | core/manager.go:50 | the decimal counter suffix reads back as the number it was made from |
| Text.NatToStringInjective | core/manager.go:50 | different counters give different suffixes |
| Paths.Base | ui/update.go:191 | "." for an empty path, "/" for slashes only, otherwise the text after the last slash once trailing slashes are dropped, never empty and slash-free |
| Paths.CleanIdempotent | core/scanner.go:43 | cleaning a path that is already clean changes nothing |
| Paths.JoinPlainElement | core/scanner.go:43 | joining a single plain element to a directory appends it to the cleaned directory: after "/" with no extra slash, alone for ".", else after a slash |
| Paths.JoinUnderCleanDir | core/scanner.go:43 | under a clean directory other than "/" and ".", a plain element is joined with exactly one slash |
| Paths.DotDotLeavesDir | core/manager.go:63 | ".." elements in the joined name climb out: `a/../../x` joined to `/t` is `/x`, which is not under `/t/` |
| Paths.DotPrefixIsCleaned | core/scanner.go:43 | a `./` in front of the directory is cleaned away: `x` joined to `./t` is `t/x`, which does not start with `./t` |
| Subsequence.IsSubsequenceScan | core/scoring.go:148-164 | the greedy one-pass scan answers exactly the subsequence question, true for an empty query and false for an empty text |
| Subsequence.GreedyIsSafe | core/scoring.go:157-160 | matching equal heads never loses a match, which is why the scan may be greedy |
| Subsequence.SubsequenceLength | core/scoring.go:88-91 | a subsequence is no longer than the text, and one of equal length is the text |
| Subsequence.PrefixIsSubsequence | core/scoring.go:72-92 | every prefix match is also a subsequence match |
| Subsequence.SubstringIsSubsequence | core/scoring.go:78-92 | every substring match is also a subsequence match |
| EditDistance.LevenshteinTable | core/scoring.go:217-256 | the dynamic-programming table computes the edit distance defined by the usual recurrence |
| EditDistance.LevenshteinFacts | core/scoring.go:217-256 | distance 0 exactly for equal strings; from or to the empty string the distance is the length |
| EditDistance.KittenSitting | core/scoring_test.go:202 | "kitten" and "sitting" are 3 edits apart |
| EditDistance.KnownDistances | core/scoring_test.go:191-201 | the distances the tests expect for empty, one-letter and "abc"/"abd" inputs |
| Tokens.Fields | core/scoring.go:171-173 | splits on `-`, `_`, space and `.`: the fields are non-empty, hold no separator and concatenate to the text without separators |
| Tokens.FieldsOfWord | core/scoring.go:171-173 | a non-empty text without separators is one field, itself |
| Tokens.FieldsSplitAt | core/scoring.go:171-173 | the fields around a separator are the fields of each side, and the empty text has none; with `FieldsOfWord` this fixes the fields of every text |
| Tokens.SplitCamelCase | core/scoring.go:195-214 | the pieces concatenate back to the word and are non-empty, and a new piece starts at position `i > 0` exactly when the character there is upper-case and either the next one is not or the previous one is not |
| Tokens.MarksDetermine | core/scoring.go:195-214 | non-empty pieces are fixed by their concatenation and their start positions, so the boundary condition of `SplitCamelCase` determines its result |
| Tokens.CapitalsStayTogether | core/scoring.go:198-200 | a word of capitals only is one piece: "ABC" is not split |
| Tokens.Tokenize | core/scoring.go:167-192 | the lower-cased fields come first in order; after them every lower-cased camel-case piece of every field is present, and nothing else: each added token is such a piece and none repeats one before it |
| Tokens.TokenizeExamples | core/scoring_test.go:175-177 | "MyProject" gives `myproject`, `my`, `project` and "APIClient" gives `apiclient`, `api`, `client` |
| Tokens.TokenizeLowerCase | core/scoring.go:167-192 | on lower-case text the tokens are exactly the fields |
| Tokens.TokenScore | core/scoring.go:128-145 | 0 without tokens; in [0,1]; positive exactly when some query token prefixes a name token; 1 exactly when every one does |
| Tokens.CountMatchedBounds | core/scoring.go:133-141 | the count of matched query tokens is positive, or full, exactly when some, or every, query token prefixes a name token |
| Scoring.ExtractNameFromDirectory | core/scoring.go:293-298 | strips the 11-character date prefix exactly when the name has a `YYYY-MM-DD-` shape, else returns the name unchanged; the result is a suffix |
| Scoring.ExtractDatedName | core/scoring.go:293-298 | a dated name built from a date and a non-empty name gives the name back |
| Scoring.ExtractNameExamples | core/scoring_test.go:218-240 | the expected results for dated, undated, date-only and empty names |
| Scoring.TextScore | core/scoring.go:59-112 | 0.5 for an empty query; always in [0,1]; 1 exactly when the name equals the query ignoring case |
| Scoring.Cascade | core/scoring.go:67-111 | the bands: exact 1, prefix in (0.8,1), substring in (0.5,1), subsequence in (0.3,0.7), token match positive and at most 0.7, edit-distance match below 0.2 and positive exactly when the distance is at most a third of the longer length |
| Scoring.PrefixScore | core/scoring.go:73-76 | a proper prefix scores strictly between 0.8 and 1 |
| Scoring.SubstringScore | core/scoring.go:79-85 | an inner substring scores strictly between 0.5 and 1 |
| Scoring.SubsequenceScore | core/scoring.go:88-92 | a scattered match scores strictly between 0.3 and 0.7 |
| Scoring.FuzzyScore | core/scoring.go:104-111 | below 0.2, and positive exactly when the edit distance is at most a third (integer division) of the longer length |
| Scoring.ExactBeatsEverything | core/scoring.go:67-111 | a name equal to the query outscores every name that is not |
| Scoring.ScoringTokensAreFields | core/scoring.go:94-97 | tokenising the lower-cased texts yields just their fields |
| Scoring.TimeScore | core/scoring.go:115-125 | the decay value clamped into [0,1] |
| Scoring.ScoreDirectory | core/scoring.go:34-56 | the name is the date-stripped directory name; the score is 0.7·text + 0.3·time, lies in [0,1], is positive exactly when one part is, and is 0.35 + 0.3·time for an empty query |
| Scanner.FromEntry | core/scanner.go:43-67 | the path is the root joined with the name, which under a clean root is the root, a slash and the name; name and time from the entry, zero scores; a `.git` directory marks a repository and a `.git` file a worktree, never both |
| Scanner.Scan | core/scanner.go:24-73 | at most one directory per entry, each path the root joined with its name, none both repository and worktree; all entries kept when all are readable directories, none when none is |
| Scanner.ScanIsSelection | core/scanner.go:38-70 | the scan's result is, in listing order, the directory built from each entry that is a directory with readable information, and from no other |
| Scanner.Rescore | core/scanner.go:79-88 | only the three scores change, and they are those of `ScoreDirectory` |
| Scanner.FilterAndScore | core/scanner.go:75-92 | never more directories; all of them for an empty query; otherwise only positive scores; all scores in [0,1] |
| Scanner.FilterIsSelection | core/scanner.go:75-92 | the result is exactly the rescored directories with positive score (all for an empty query), in their original order |
| Scanner.KeptByEitherScore | core/scanner.go:83 | with a query, a directory is kept exactly when its text or its time score is positive |
| Scanner.InsertKeepsSorted | core/scanner.go:94-108 | inserting into a sorted list keeps it sorted |
| Scanner.SortBy | core/scanner.go:94-108 | the result is a permutation of the input, sorted by the chosen order |
| Scanner.SortByScoreOrder | core/scanner.go:94-102 | by score: higher scores first, newer first among equal scores |
| Scanner.SortByTimeOrder | core/scanner.go:104-108 | by time: newer first |
| Scanner.AgeOf | core/scanner.go:110-152 | the unit is chosen by the thresholds 1 minute, 1 hour, 1 day, 7 days, 30 days, 365 days, and the count is the whole number of units elapsed, at least 1 |
| Scanner.Label | core/scanner.go:113-151 | "just now", the singular form for one unit, else the count and the plural unit |
| Scanner.RelativeAge | core/scanner.go:110-114 | "just now" exactly when less than a minute has passed, including times in the future |
| Scanner.OnlyJustNowReadsJustNow | core/scanner.go:113-151 | no elapsed age other than "just now" is labelled "just now" |
| Manager.NormalizeName | core/manager.go:31-36 | "experiment" for an empty name; otherwise the name character by character with spaces turned into dashes and letters lower-cased; never empty, no spaces |
| Manager.CandidateInjective | core/manager.go:42-52 | the names tried by the counter loop are pairwise different |
| Manager.FirstFree | core/manager.go:42-52 | the counter loop stops at the first name not already taken |
| Manager.GenerateDatedName | core/manager.go:30-55 | the result is not taken; it is the plain dated name when that is free, else the dated name with the first free counter |
| Manager.DatedNameReadsBack | core/manager.go:30-55 | stripping the date prefix from a generated name starts with the normalised name, and is that name when the base is free |
| Manager.DatedNameIsPlain | core/manager.go:30-55 | without a slash in the name or the date, the generated name is a single path element |
| Manager.CreateDirectory | core/manager.go:57-70 | succeeds exactly when the root and the directory can be made, and then returns the root joined with the generated name; under a clean root and for a name and date without slashes, that is the root, a slash and the generated name |
| Manager.CreateDirectoryCanLeaveRoot | core/manager.go:62-69 | a name `a/../../x` under the root `/t` creates `/x`, outside the root |
| Manager.ExtractNameFromGitURL | core/manager.go:154-178 | after dropping `.git`: the last slash piece for web URLs and other text; for scp-style `git@` URLs, the last slash piece of the text between the first and second `:`; never contains a slash |
| Manager.NameOfWebURL | core/manager.go:154-164 | `https://host/owner/repo.git` gives `repo` |
| Manager.NameOfScpURL | core/manager.go:165-172 | `git@host:owner/repo.git` gives `repo` |
| Manager.ParseGitdirLine | core/manager.go:114-134 | invalid format exactly without the `gitdir: ` prefix, unexpected format exactly without `/.git/worktrees/`, no repository exactly when the marker starts the path; otherwise the text before the first marker: the marker follows it and occurs nowhere earlier |
| Manager.ParseGitdirTakesFirstMarker | core/manager.go:122-125 | when a second marker overlaps the first on its slash, the repository still ends at the first one: `X/.git/worktrees/.git/worktrees/n` names `X` |
| Manager.ParseGitdirOfWorktreeFile | core/manager.go:112-134 | the `.git` file git writes for a worktree parses to its repository |
| Manager.RemoveWorktree | core/manager.go:104-152 | fails when the file cannot be read or parsed or git fails both attempts, and otherwise names the repository |
| Manager.DeleteDirectory | core/manager.go:72-89 | refuses exactly the paths that do not start with the root; otherwise succeeds exactly when removal does; a warning comes only from a worktree |
| Manager.UnregisterOnlyWarns | core/manager.go:80-88 | a failed worktree unregistration never stops the deletion |
| Manager.GuardIsTextPrefix | core/manager.go:75-77 | the guard is a text prefix test: the root itself and any sibling whose name extends the root's pass it |
| Manager.CleanRootAdmitsListed | core/manager.go:72-89 | under a clean root, deleting any listed directory succeeds exactly when removal does |
| Manager.DotRootRefusesListed | core/manager.go:75-77 | under a root written as `./t`, deleting any listed directory is refused as outside the root |
| PickerModel.Init | ui/model.go:202-241 | the empty picker: no query, no items, no mode, no error, no selection for deletion |
| PickerModel.HasExactMatch | ui/model.go:336-349 | some listed directory's date-stripped name equals the query ignoring case, and never for an empty query |
| PickerModel.BuildItems | ui/model.go:265-282 | one row per directory in order, then a "create new" row carrying the query exactly when the query is non-empty and matches no directory |
| PickerModel.UpdateFiltered | ui/model.go:254-285 | only the filtered list and the items change; the filtered list is a permutation of `FilterAndScore`, by time for an empty query and by score otherwise; the items show it |
| PickerModel.SetQuery | ui/model.go:287-291 | the query is replaced and the explicit-create request cleared; the filtered list becomes a permutation of `FilterAndScore` of the directories for the new query, in the order for that query, and the items show it; every other field, every mode and every buffer included, is unchanged |
| PickerModel.AppendToQuery | ui/model.go:293-297 | the query grows by the character, as `SetQuery` of the longer query |
| PickerModel.DeleteFromQuery | ui/model.go:299-305 | an empty query changes nothing; otherwise the query loses its last character |
| PickerModel.AppendThenDelete | ui/model.go:293-305 | typing a character and deleting it restores the query |
| PickerModel.Selected | ui/model.go:307-315 | an item exactly when the cursor is on a row, and then that row |
| PickerModel.FirstWithPath | ui/model.go:360-366 | the first listed directory with the path, or none when no directory has it |
| PickerModel.StartDelete | ui/model.go:357-368 | a selected directory row enters delete mode on a listed directory with the same path; no selection or the "create new" row changes nothing |
| PickerModel.CancelDelete | ui/model.go:370-375 | leaves delete mode with an empty buffer and no selection, and changes nothing else |
| PickerModel.WithoutPath | ui/model.go:384-391 | keeps exactly the directories with another path, never adding any |
| PickerModel.WithoutPathAppend | ui/model.go:384-391 | removal works piecewise, so the survivors keep their order |
| PickerModel.ConfirmDelete | ui/model.go:377-397 | with the selection in range it succeeds exactly when `DeleteDirectory` does; success drops that path from the directories, refilters and re-sorts the list for the unchanged query, leaves delete mode with an empty buffer and no selection, and changes nothing else; failure changes nothing |
| PickerModel.StartGitInit | ui/model.go:399-407 | only a selected directory that is neither repository nor worktree asks for `git init` |
| PickerModel.StartExplicitCreate | ui/model.go:414-418 | the explicit-create request is set only when there is a query |
| PickerUpdate.InitSatisfiesInv | ui/model.go:218-240 | the initial picker satisfies the picker invariant |
| PickerUpdate.Reload | ui/model.go:243-252 | a failed rescan changes nothing; a successful one replaces the directories and refilters and re-sorts the list for the current query, nothing else |
| PickerUpdate.WorktreePath | ui/update.go:327-334 | the root joined with a fresh dated name of the typed name, or of the repository's base name and `-worktree`; under a clean root and without slashes, the root, a slash and that dated name |
| PickerUpdate.TypedWorktreeNameCanLeaveRoot | ui/update.go:327-334 | a worktree name `a/../../x` under the root `/t` puts the worktree at `/x` |
| PickerUpdate.ClonePath | ui/update.go:304-310 | the root joined with a fresh dated name of the repository's name; under a clean root and a slash-free date, the root, a slash and that dated name |
| PickerUpdate.WorktreeKey | ui/update.go:42-73 | enter adds the worktree and leaves the mode, or keeps the error and the mode; esc leaves the mode; other keys edit only the buffer |
| PickerUpdate.CloneKey | ui/update.go:75-106 | enter with an empty URL does nothing, else clones and leaves the mode, or keeps the error and the mode; esc leaves; other keys edit only the buffer |
| PickerUpdate.DeleteKey | ui/update.go:108-136 | enter deletes only when the buffer is "yes" or the selected directory's full name, and always leaves delete mode; other keys edit only the buffer |
| PickerUpdate.EnterKey | ui/update.go:153-170 | explicit creation quits into the new directory or keeps the error; otherwise quits into the selected row's path, which is empty for the "create new" row, and does nothing without a selection |
| PickerUpdate.ModeKey | ui/update.go:179-198 | ctrl+d, ctrl+w and ctrl+g open only their own mode; ctrl+w only on a git repository, prefilled with its base name and `-worktree` |
| PickerUpdate.QueryKey | ui/update.go:172-237 | tab completes to the first listed directory's full name when there is a query; ctrl+u clears the query; esc clears it, and only on an empty query quits |
| PickerUpdate.TypingKey | ui/update.go:204-248 | navigation keys change nothing; backspace deletes from the query; other printable keys are typed into it; no other key touches the query, opens a mode or quits |
| PickerUpdate.NormalKey | ui/update.go:139-248 | q and ctrl+c quit and ? opens the help, so none of them reaches the query; each mode is opened only by its key |
| PickerUpdate.Step | ui/update.go:29-250 | keeps the invariant, so the index at ui/update.go:111 is in range; help swallows one key; errors stay set; modes are entered only from normal mode by their keys; quitting and cd writes happen only as listed; in an input mode only enter reaches beyond the buffer |
| PickerUpdate.TabCopiesFullName | ui/update.go:172-177 | tab makes the query the first listed directory's full dated name |

## Left out

- File-system and process I/O: `os.Stat`, `os.ReadDir`, `os.MkdirAll`, `os.RemoveAll`, reading the
  `.git` file, running `git`, and writing the cd file are inputs or outputs of the functions.
- The clock: `time.Now` becomes a date string, `time.Since` the difference of two integers
  in nanoseconds, and `math.Exp` the decay oracle; no floating-point rounding is modelled.
- Scoring.TimeScore: states only the clamp, because the exponential decay and its
  half-life constant are an oracle parameter.
- Scanner.AgeOf: does not model the float conversions of `duration.Hours()`; counts are
  exact integer divisions of nanoseconds.
- Scanner.SortBy: `sort.Slice` is not stable, so the order among directories with equal
  keys is unspecified; the model returns one admissible order.
- Directory records keep one timestamp; `CreatedTime` and `AccessTime` are copies of it and
  are dropped, as is the unused `creating` flag.
- Lengths are counted in characters, and lower-casing is ASCII only; Go counts bytes
  and lower-cases all of Unicode. The two agree on ASCII names.
- The worktree branch name, which includes the current Unix time, is not modelled.
- The list widget: cursor movement, paging (ctrl+j/k/p/n and other keys passed to the
  list), window size and rendering. The cursor is an input to `Step`.
- Non-key messages of the update loop (window size, asynchronous loads, errors) and
  ui/view.go, ui/help.go, the shell integration, cmd/ and core/scorer.go are not part of
  this model.
- Manager.GenerateDatedName: stat errors other than "does not exist" are not modelled. On
  them the Go loop at core/manager.go:45-52 never ends. The model treats a name as taken
  exactly when it is in the set of existing names.
- Manager.GenerateDatedName: the existence check stats the root joined with the candidate;
  the model looks the candidate itself up, which agrees for names without slashes.
- Windows paths: `filepath` is modelled with `/` as the only separator and no volume names.
- Manager.ExtractNameFromGitURL: the `"repo"` fallback is unreachable, because splitting
  always yields at least one piece.
