# autocode: shell history, line editing, ignore rules and export, in Dafny

This project models the parts of the `autocode` coding agent that have deterministic logic, and proves properties of that model. All of them are bookkeeping and text handling around processes, files and language-model calls:

- **Shell history and session registry** (`src/autocode/terminal.py`, module `ShellTerminal`). A `Shell` appends one `(timestamp, command, output)` record per command. It renders the last 20 records, each result clipped at 2000 characters. A `Terminal` is a name-to-shell dict that refuses duplicate and missing names.
- **The older shell and list-based terminal** (`run.py`, module `RunScript`).
- **Line-oriented editing** (`src/autocode/code_editor.py`, module `CodeEditing`):
  - `read_file`: right-justified, 1-based line numbers;
  - `edit_file`: a list splice with Python's slice and `insert` index rules;
  - `search_files`: substring matching with previews of at most 100 characters.
- **The older `CodeEditor`** (root `code_editor.py`, module `LegacyEditor`): its `read_file`, and the newline normalisation at the start of `apply_diff`.
- **Ignore rules** (`src/autocode/directory_utils.py`, module `DirectoryUtils`):
  - `.gitignore` lines become glob patterns;
  - `should_ignore` walks a file's ancestors;
  - `list_non_gitignore_files` filters the files.
- **Repository export** (`src/autocode/export.py`, module `Export`):
  - the pruned folder tree and its bullet rendering;
  - the sorted, summarised file contents;
  - the token estimate and the assembled export text.

Supporting modules:

- `Text` holds the Python `str` operations the code uses (`strip`, `rstrip`, `rjust`, `join`, `in`, `str(int)`, string order).
- `Sorting` is `sorted` as a stable insertion sort under a total preorder.
- `Wrappers` holds `Option` and `Result`.

Paths are sequences of components below the filesystem root. `fnmatch` is a function parameter. Everything the code reads from the outside world is an input:

- directory listings;
- file lines;
- process outcomes;
- timestamps;
- `id(shell)`.

The Python code is imperative where it mutates state, and the model follows it:

- `Shell.history`, `Terminal.shells` and the older terminal's list are class fields that the methods reassign.
- Loops that build lists or strings are `method`s with loop invariants, proved against specification functions.
- The recursive generator and the pure helpers are functions.

Where the repository's tests and the code disagree, the model follows the code. `tests/test_terminal.py:33-47` drives a `subprocess.Popen`-based runner and expects "Command is still running..." for a long command, but `src/autocode/terminal.py` runs each command to completion with `subprocess.run`.

## Model

| member | source | states |
|---|---|---|
| Text.Strip | src/autocode/code_editor.py:71 | `str.strip()`: the result is a window of the input with only whitespace before and after it, and it neither starts nor ends with whitespace |
| Text.RStrip | src/autocode/code_editor.py:83 | `str.rstrip()`: a prefix of the input, only whitespace removed, no trailing whitespace left |
| Text.RJust | src/autocode/code_editor.py:13 | `str.rjust(width)`: length is `max(len, width)`, the text ends the result, and the padding is spaces |
| Text.ContainsIff | src/autocode/code_editor.py:69 | the `in` test used on lines holds exactly when some window of the line equals the search text |
| Text.NatToStringRoundTrip | src/autocode/export.py:70 | `str(n)` for a line count parses back to `n` |
| Text.NatToStringLengthMonotone | src/autocode/code_editor.py:11-13 | a smaller number never has more digits, so a width of `len(str(end_line))` fits every shown number |
| Text.StrLeTotal | src/autocode/export.py:27 | Python's string order is total |
| Text.StrLeTransitive | src/autocode/export.py:27 | Python's string order is transitive |
| Text.StrLeAntisymmetric | src/autocode/export.py:77 | two strings each `<=` the other are equal |
| Sorting.Insert | src/autocode/export.py:77 | inserting into a sorted list keeps it sorted and adds exactly that element |
| Sorting.SortBy | src/autocode/export.py:77 | `sorted`: the result is ordered and a permutation of the input |
| ShellTerminal.LastN | src/autocode/terminal.py:18 | `history[-20:]`: `min(20, len)` elements, the last ones, in stored order |
| ShellTerminal.Clip | src/autocode/terminal.py:20-22 | a result of at most 2000 characters is shown unchanged; a longer one is its first 2000 characters followed by `"\n...\n"` |
| ShellTerminal.Render | src/autocode/terminal.py:12-25 | the `__repr__` loop builds exactly the rendering function's text; an empty history gives "No commands executed yet" |
| ShellTerminal.BlockLinesCount | src/autocode/terminal.py:19-23 | one header line per shown record plus one line per non-empty result: an empty result adds no line |
| ShellTerminal.BlockLinesPrefix | src/autocode/terminal.py:18-23 | the lines of earlier records are a prefix of the lines of all records |
| ShellTerminal.EntryBlockInPlace | src/autocode/terminal.py:18-23 | record `k`'s header and result sit right after the lines of records `0..k-1`: stored order |
| ShellTerminal.RenderOnlyLast20 | src/autocode/terminal.py:18 | records older than the last 20 never change the rendering |
| ShellTerminal.RenderEndsWithNewest | src/autocode/terminal.py:17-25 | the newest record is always shown and its block closes the rendered lines |
| ShellTerminal.Entries | src/autocode/terminal.py:18-19 | each record is rendered under the header `"{timestamp} $ {command}"` with its own output, one pair per record, in order |
| ShellTerminal.RunIsRenderedLast | src/autocode/terminal.py:44-52 | after `run_command`, the rendering ends with that command's header and clipped output |
| ShellTerminal.Shell.constructor | src/autocode/terminal.py:8-10 | a new shell has an empty history |
| ShellTerminal.Shell.Repr | src/autocode/terminal.py:12-25 | `__repr__` is the rendering of the stored history, and "No commands executed yet" when it is empty |
| ShellTerminal.Shell.RunCommand | src/autocode/terminal.py:39-52 | exactly one record `(timestamp, command, output)` is appended on the success and on the exception path, with output = stdout if non-empty, else stderr, else the exception text; earlier records are unchanged; the return value is `"{timestamp} $ {command}\n{output}"` |
| ShellTerminal.Without | src/autocode/terminal.py:85 | removing a key keeps every other name and only those |
| ShellTerminal.WithoutKeepsDistinct | src/autocode/terminal.py:85 | removing a name keeps the registry's names free of repetitions |
| ShellTerminal.DistinctCardinality | src/autocode/terminal.py:64 | a name list without repetitions has as many names as the registry has keys |
| ShellTerminal.Terminal.constructor | src/autocode/terminal.py:58-60 | a new terminal has no shells |
| ShellTerminal.Terminal.Describe | src/autocode/terminal.py:62-64 | the listing starts with "Shells:\n" |
| ShellTerminal.Terminal.CreateShell | src/autocode/terminal.py:70-79 | a name already present gives the "already exists" error and leaves the dict unchanged; otherwise exactly one entry is added under that name (or the shell's identity when no name is given), holding a new shell with an empty history, which is returned |
| ShellTerminal.Terminal.CloseShell | src/autocode/terminal.py:81-85 | an absent name gives the "does not exist" error and changes nothing; a present name is removed and every other entry is kept |
| ShellTerminal.DescribeListsEveryShell | src/autocode/terminal.py:64 | the listing has one `"- {name}"` line per shell, and a line for name `n` exactly when `n` is registered |
| RunScript.Entries | run.py:17-18 | each `(command, output)` entry is rendered under `"$ {command}"` with its output, in order |
| RunScript.RenderShowsLast20 | run.py:17 | entries older than the last 20 never change the rendering |
| RunScript.RenderShowsNewest | run.py:16-24 | the newest entry's header and clipped output close the rendered lines |
| RunScript.Shell.constructor | run.py:7-9 | a new shell has an empty history |
| RunScript.Shell.Repr | run.py:11-24 | `__repr__` is the shared rendering with `"$ {command}"` headers; an empty history gives "No commands executed yet" |
| RunScript.Shell.RunCommand | run.py:38-49 | exactly one `(command, output)` entry is appended and the same output is returned: stdout if non-empty, else stderr, or the exception text |
| RunScript.FirstIndex | run.py:70 | the position `list.remove` deletes: an occurrence with none before it |
| RunScript.FirstIndexUnique | run.py:70 | that position is the only occurrence with no earlier occurrence |
| RunScript.Renderings | run.py:61 | one rendering per shell, in list order |
| RunScript.Terminal.Describe | run.py:59-61 | `__repr__` of the older terminal: empty with no shells, otherwise ending with the newest shell's rendering |
| RunScript.DescribeAppends | run.py:59-61 | adding a shell at the end appends a newline and its rendering to the terminal's text, leaving the earlier text unchanged |
| RunScript.Terminal.constructor | run.py:55-57 | a new terminal has no shells |
| RunScript.Terminal.CreateShell | run.py:63-66 | a new shell with an empty history is appended and returned; the earlier shells stay in place |
| RunScript.Terminal.CloseShell | run.py:68-70 | an absent shell gives `ValueError` and changes nothing; otherwise its first occurrence is removed and the others keep their order |
| CodeEditing.PyIndex | src/autocode/code_editor.py:39-40 | slice and `insert` positions are clamped to `0..len`, negative ones counting from the end; an in-range position is used as is |
| CodeEditing.ReadFile | src/autocode/code_editor.py:4-14 | the loop's text is the rows of the slice `lines[start_line-1:end]`, numbered from `start_line` and joined by newlines |
| CodeEditing.NumberedAt | src/autocode/code_editor.py:12-13 | row `k` of the `enumerate(..., start=first)` loop is line `k` formatted under the number `first + k` |
| CodeEditing.NumberRows | src/autocode/code_editor.py:10-13 | the `enumerate` loop appends exactly the numbered rows of the shown lines, in order |
| CodeEditing.ReadFileShowsRange | src/autocode/code_editor.py:9-13 | with a 1-based start, the rows are exactly those of the lines `start_line..min(end, n)`, numbered from `start_line`, and none when the start lies past the end; an omitted or zero end means the last line |
| CodeEditing.RowLayout | src/autocode/code_editor.py:13 | a row whose number fits the width is the number right-justified to exactly `width` characters, then the three-character separator (space, bar, space), then the line |
| CodeEditing.ReadFileRowsAligned | src/autocode/code_editor.py:11-13 | for `start_line >= 1` and `end_line` omitted or `>= 0`: every shown number has at most as many digits as `str(end_line)`, so every number field is exactly that wide and the separators line up |
| CodeEditing.NegativeEndMisaligns | src/autocode/code_editor.py:9-13 | a negative `end_line` is kept: on 101 lines, `end_line=-1` shows 100 rows padded to the width of `"-1"`, so row 99's separator starts at the third character and row 100's at the fourth: the separators do not line up |
| CodeEditing.ZeroStartShowsLastLine | src/autocode/code_editor.py:9-13 | `start_line=0` slices from -1: only the last line is shown, numbered 0 |
| CodeEditing.EditFile | src/autocode/code_editor.py:23-45 | the written text equals the returned text; with a 1-based start and a non-negative count it is `lines[..s-1] + [insert_text] + lines[s-1+count..]` joined by newlines, the deletion clamped at the end of the file |
| CodeEditing.EditFileSplice | src/autocode/code_editor.py:36-40 | lines before the start are untouched; a count of 0 is a pure insertion that adds exactly one line and shifts the rest |
| CodeEditing.Preview | src/autocode/code_editor.py:71-73 | the preview is the stripped line when it has at most 100 characters, otherwise its first 97 characters plus "...", so never longer than 100 |
| CodeEditing.MatchRowsComplete | src/autocode/code_editor.py:68-74 | every line containing the search text is reported as `"  Line {i}: ..."` with its 1-based number |
| CodeEditing.MatchRowsSound | src/autocode/code_editor.py:68-74 | every report line belongs to a line that contains the search text |
| CodeEditing.NoMatchNoRows | src/autocode/code_editor.py:76-79 | a file has no report lines exactly when none of its lines contains the search text |
| CodeEditing.MatchLines | src/autocode/code_editor.py:67-74 | the inner loop collects exactly the report lines of the matching lines of one file, in line order |
| CodeEditing.SearchFiles | src/autocode/code_editor.py:58-83 | the nested loops build the per-file report; the result has no trailing whitespace |
| LegacyEditor.NormalizeDiff | code_editor.py:29-31 | the diff always ends in a newline; at most one character is appended, and none when a newline is already there |
| LegacyEditor.NormalizeDiffIdempotent | code_editor.py:30-31 | normalising twice is normalising once |
| LegacyEditor.CodeEditor.constructor | code_editor.py:2-3 | the editor starts with an empty `files` dict |
| LegacyEditor.CodeEditor.ReadFile | code_editor.py:5-21 | the method's rows are those of the module-level `read_file`: the same slice, numbering and width |
| DirectoryUtils.Anchor | src/autocode/directory_utils.py:15-19 | a kept line becomes a non-empty pattern that does not end in `/` |
| DirectoryUtils.NormalizeLine | src/autocode/directory_utils.py:11-19 | a blank line or a line starting with `#` after stripping gives no pattern; any other line gives a non-empty pattern that does not end in `/` |
| DirectoryUtils.NormalizeLineExamples | src/autocode/directory_utils.py:15-19 | `/build/` becomes `build/**`, and `/` becomes `**`: the trailing slash is expanded before the leading slash is dropped |
| DirectoryUtils.ReadGitignore | src/autocode/directory_utils.py:5-26 | a missing file gives no patterns; otherwise the loop produces the patterns of the lines in order |
| DirectoryUtils.PatternsArePairs | src/autocode/directory_utils.py:21-24 | every kept line contributes exactly two patterns, `p` then `"**/" + p`, so there are twice as many patterns as kept lines |
| DirectoryUtils.PatternsAppend | src/autocode/directory_utils.py:10-24 | the patterns of a file are those of its parts, in order |
| DirectoryUtils.SkippedLineAddsNothing | src/autocode/directory_utils.py:11-13 | a blank or comment line, wherever it stands, contributes no pattern |
| DirectoryUtils.NoPatternEndsInSlash | src/autocode/directory_utils.py:15-19 | no pattern read from a `.gitignore` ends in `/` |
| DirectoryUtils.ShouldIgnore | src/autocode/directory_utils.py:33-46 | ignored exactly when some ancestor has a pattern matching the relative path (a pattern ending in `/` also with `**` appended, any other also as a directory prefix), or the relative path starts with `.git/` |
| DirectoryUtils.GitDirectoryAlwaysIgnored | src/autocode/directory_utils.py:44-45 | a file whose path relative to an ancestor starts with `.git/` is ignored, whatever the patterns |
| DirectoryUtils.BuildPatternTable | src/autocode/directory_utils.py:48-57 | the dict holds each `.gitignore`'s patterns under its directory, a later file for the same directory replacing an earlier one, and the root's list is extended by `.git/` and `**/.git/` |
| DirectoryUtils.CollectedHasNoSlashPattern | src/autocode/directory_utils.py:49-52 | patterns collected from `.gitignore` files never end in `/` |
| DirectoryUtils.OnlyGitPatternsEndInSlash | src/autocode/directory_utils.py:54-57 | in the finished dict only the two added `.git` patterns, at the end of the root's list, end in `/` |
| DirectoryUtils.UnignoredMembers | src/autocode/directory_utils.py:59-66 | a file is listed exactly when it is a regular file below the root that is not ignored |
| DirectoryUtils.ListNonIgnored | src/autocode/directory_utils.py:29-66 | the listing as written: the non-ignored candidates, in `rglob` order |
| DirectoryUtils.GitignoreFileIsListed | src/autocode/directory_utils.py:29-66 | as written, a `.gitignore` file with no patterns in it is listed |
| DirectoryUtils.TrackedMembers | src/autocode/directory_utils.py:30 | in the corrected listing, a file appears exactly when it is a candidate, not ignored and not a `.gitignore` file |
| DirectoryUtils.ListTrackedFiles | src/autocode/directory_utils.py:29-66 | the corrected listing: the candidates that are neither ignored nor `.gitignore` files, in `rglob` order |
| Export.NameOrder | src/autocode/export.py:27 | ordering directory entries by name is a total preorder |
| Export.SortedItems | src/autocode/export.py:27 | `sorted(iterdir())`: the entries ordered by name, a permutation of the listing |
| Export.BuildTreeStructure | src/autocode/export.py:21-35 | the loop and the recursion build exactly the specified tree |
| Export.TreeIsPruned | src/autocode/export.py:28-34 | every leaf is a tracked file, and no folder is empty or named `.git` |
| Export.TreeIsComplete | src/autocode/export.py:28-34 | every tracked file of a directory is a leaf of its dict, and every directory other than `.git` with a non-empty tree is a folder holding that tree |
| Export.SomeTrackedFile | src/autocode/export.py:28-34 | every non-empty pruned tree, and so every folder, holds a tracked file below its path |
| Export.FillStep | src/autocode/export.py:27-34 | each directory entry adds at most one key, named after it, and keeps the earlier keys |
| Export.FillInSortedOrder | src/autocode/export.py:27-34 | the keys are names of the directory's entries, in sorted order |
| Export.TreeInSortedOrder | src/autocode/export.py:27 | the keys of every built dict are in sorted order |
| Export.TreeLinesFollowOutline | src/autocode/export.py:38-49 | `print_tree_structure` yields exactly one line `"{prefix}- {name}"` per node, in pre-order, three spaces deeper per level |
| Export.SubLinesFollowOutline | src/autocode/export.py:47-49 | a file yields no further lines; a folder's lines are its children's, under the prefix plus three spaces |
| Export.Indented | src/autocode/export.py:49 | adding three spaces to the prefix is going one level deeper |
| Export.OutlineCountsNodes | src/autocode/export.py:45-49 | the pre-order walk has one item per node, so the line count is the node count |
| Export.LastDot | src/autocode/export.py:62 | the position of the last `.` of a name, or -1 |
| Export.LockSuffix | src/autocode/export.py:61-63 | a file is skipped as a lock file exactly when its name ends in `.lock` after at least one more character |
| Export.ContentKeepsOrSummarises | src/autocode/export.py:68-70 | a file of at most 1000 lines keeps its text; a longer one becomes `"compiled - {n} lines"`, from which `n` reads back |
| Export.LongFileExample | tests/test_export.py:9-12 | a file of 2198 lines is recorded as "compiled - 2198 lines" |
| Export.RelativePathInjective | src/autocode/export.py:71 | two files below the root with the same relative path are the same file |
| Export.PathLeTotal | src/autocode/export.py:77 | the order on relative paths is total |
| Export.PathLeTransitive | src/autocode/export.py:77 | the order on relative paths is transitive |
| Export.PathLeAntisymmetric | src/autocode/export.py:77 | two relative paths each `<=` the other are equal |
| Export.RecordOrder | src/autocode/export.py:77 | tuple order on `(rel_path, content)` is a total preorder |
| Export.CollectFilesContent | src/autocode/export.py:52-77 | the result is sorted; it holds exactly one record `(rel_path, content)` per tracked file that is not a lock file, is readable and is below the root, and holds each record once |
| Export.RecordLeAntisymmetric | src/autocode/export.py:77 | two records each `<=` the other are equal |
| Export.CollectionUnique | src/autocode/export.py:59-77 | whatever order the set yields its files in, the sorted collection is the same list, so the export text is fixed |
| Export.EstimateTokenCount | src/autocode/export.py:80-85 | `4 * tokens <= len(text) < 4 * (tokens + 1)` |
| Export.EstimateMonotone | src/autocode/export.py:80-85 | a longer text never has a smaller estimate |
| Export.SectionsInOrder | src/autocode/export.py:104-106 | every file's section follows the sections of the files before it |
| Export.AppendSections | src/autocode/export.py:104-106 | the `+=` loop appends one `"\n### file: {rel_path}\n{content}"` section per record, in order |
| Export.AssembleExport | src/autocode/export.py:96-106 | the export is the title, the rendered tree of the given files and the sections of the sorted collection of their contents, each file once |
| Export.PrepareExport | src/autocode/export.py:88-118 | as written: the files are those of `list_non_gitignore_files` as written, `.gitignore` files included, and the export is assembled from them |
| Export.PrepareTrackedExport | src/autocode/export.py:88-118 | the same export over the corrected listing, without `.gitignore` files |
| Export.TrackedSetDropsGitignoreFiles | src/autocode/export.py:94 | the corrected file set is exactly the as-written set without its `.gitignore` files |

## Left out

- Spawning processes is not modelled: `subprocess.run` in `run_command`, `scroll_up`/`scroll_down` (`tput`), `git apply` in `apply_diff`, and ruff in `code_editor_utils.py`. A command's stdout, stderr or exception text is a parameter (`RunOutcome`).
- The timestamp from `datetime.now()` and the default name `str(id(shell))` are parameters.
- The non-blocking, time-budgeted runner ("Command is still running...") is concurrency and timing, and the modelled `terminal.py` does not have it.
- `Terminal.repr` only calls `__repr__` and has no member of its own.
- `src/autocode/git.py`, `github_issue_server.py`, `render.py` and the agent wiring are not part of this model: they are process, network, foreign-library and interactive glue. That wiring is `main.py`, `agent_dev.py`, `agent_manager.py`, `dual_agent.py`, `cli.py`, `dev.py` and `__main__.py`.
- `rglob`, `iterdir`, `is_file`/`is_dir`, `open`, `splitlines`/`readlines` and `fnmatch` are not reimplemented:
  - a directory is an `FsEntry` value;
  - a file is its lines, or a `FileText` with its line count;
  - a file that cannot be read is `None`, or absent from the map;
  - `fnmatch` is a parameter.
- `_read_gitignore` is given each `.gitignore`'s lines. The error raised when an existing `.gitignore` path cannot be opened (for example a directory of that name) is not modelled.
- `write_file`, the file writes of `edit_file`, and `CodeEditor.__init__` only perform I/O or store references, so they are not modelled. `CodeEditing.EditFile` returns the text it would write.
- `CodeEditor.__repr__` in `src/autocode/code_editor.py` reads an attribute the class never sets, so it has no defined behaviour to model.
- `CodeEditing.SearchFiles` takes the listed files and their lines as input. The listing is `list_non_gitignore_files` as written (`DirectoryUtils.ListNonIgnored`), so `.gitignore` files are searched too. The lines are those of `readlines()`, each keeping its line terminator.
- CodeEditing.ReadFileRowsAligned is stated only for `start_line >= 1` and an `end_line` that is omitted or `>= 0`. Outside those bounds the rows need not line up, as `CodeEditing.NegativeEndMisaligns` shows for `end_line=-1`. `CodeEditing.ReadFile` itself covers every integer.
- CodeEditing.ReadFileShowsRange is stated only for the same bounds. A zero start shows only the last line, numbered 0, as `CodeEditing.ZeroStartShowsLastLine` shows; a negative start or end counts from the end of the file, as `CodeEditing.PyIndex` says.
- `Export.BuildTreeStructure` appends a key for each kept entry. `tree[item.name] = ...` would overwrite an existing key, but names within one directory are distinct, so it always adds a new one.
- `Export.PrepareExport`:
  - the `print` and logging calls, including the token-limit warning, are left out;
  - the result is stated for some collection satisfying `IsCollection`, because iterating a Python `set` has no fixed order (by `Export.CollectionUnique` only one such collection exists, so the text is fixed);
  - `main` and the `.dump` file write are left out.
- `Export.CollectFilesContent` orders relative paths by their component lists, which is how `PurePosixPath` compares. Only the paths that `relative_to` accepts are recorded.

## Findings

| source | as written | input that shows it | evidently intended | confidence | as-written member | corrected member |
|---|---|---|---|---|---|---|
| src/autocode/directory_utils.py:29-66 | `.gitignore` files are listed like any other file; nothing filters them out | root `/r` holding a `.gitignore` with no patterns: `/r/.gitignore` is returned | leave `.gitignore` files out, as the docstring on line 30 says and tests/test_directory_utils.py:44-55 expects | not executed | DirectoryUtils.GitignoreFileIsListed | DirectoryUtils.ListTrackedFiles |
