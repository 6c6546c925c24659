/** `directory_utils.py`: reading `.gitignore` files into glob patterns and
    deciding, ancestor by ancestor, whether a file is ignored. Paths are
    sequences of components below the filesystem root (`[]` is `/`), the
    results of `rglob` are inputs, and `fnmatch` is a parameter. */
module DirectoryUtils {
  import opened Wrappers
  import Text

  /** An absolute path as its components. */
  type Path = seq<string>

  /** `as_posix()` of a relative path given by its components. */
  function Posix(parts: seq<string>): string
  {
    Text.Join(parts, "/")
  }

  // ---------------------------------------------------------------------
  // `_read_gitignore`
  // ---------------------------------------------------------------------

  /** A kept line made into a pattern: a trailing `/` is expanded by
      appending `**`, then a leading `/` is removed. */
  function Anchor(line: string): (p: string)
    requires line != ""
    ensures p != "" && p[|p| - 1] != '/'
  {
    var expanded := if line[|line| - 1] == '/' then line + "**" else line;
    assert expanded[|expanded| - 1] != '/';
    if expanded[0] == '/' then expanded[1..] else expanded
  }

  /** What one raw line of a `.gitignore` becomes: nothing for a blank or
      comment line, otherwise the stripped line made into a pattern. */
  function NormalizeLine(raw: string): (p: Option<string>)
    ensures p.None? <==> Text.Strip(raw) == "" || Text.Strip(raw)[0] == '#'
    ensures p.Some? ==> p.value != "" && !Text.EndsWith(p.value, "/")
  {
    var line := Text.Strip(raw);
    if line == "" || line[0] == '#' then None
    else
      var p := Anchor(line);
      assert p[|p| - 1..] == [p[|p| - 1]];
      Some(p)
  }

  /** The expansion of a trailing `/` happens before a leading `/` is dropped:
      `/build/` anchors a whole directory and a lone `/` matches everything. */
  lemma NormalizeLineExamples()
    ensures NormalizeLine("/build/") == Some("build/**")
    ensures NormalizeLine("/") == Some("**")
  {
    assert Text.RStrip("/build/") == "/build/" && Text.LStrip("/build/") == "/build/";
    assert Text.Strip("/build/") == "/build/";
    assert ("/build/" + "**")[1..] == "build/**";
    assert Anchor("/build/") == "build/**";
    assert Text.RStrip("/") == "/" && Text.LStrip("/") == "/";
    assert Text.Strip("/") == "/";
    assert ("/" + "**")[1..] == "**";
    assert Anchor("/") == "**";
  }

  /** The patterns one line contributes: none, or the pattern followed by its
      deep variant (`**` and a slash put in front). */
  function LinePatterns(p: Option<string>): seq<string>
  {
    match p
    case None => []
    case Some(q) => [q, "**/" + q]
  }

  /** The patterns of a whole file, line by line. */
  function Patterns(rawLines: seq<string>): seq<string>
  {
    if |rawLines| == 0 then []
    else Patterns(rawLines[..|rawLines| - 1]) + LinePatterns(NormalizeLine(rawLines[|rawLines| - 1]))
  }

  /** The normalised lines that are kept (blank and comment lines dropped). */
  function Kept(rawLines: seq<string>): (kept: seq<string>)
    ensures |kept| <= |rawLines|
  {
    if |rawLines| == 0 then []
    else
      var front := Kept(rawLines[..|rawLines| - 1]);
      match NormalizeLine(rawLines[|rawLines| - 1])
      case None => front
      case Some(q) => front + [q]
  }

  /** `_read_gitignore`: a missing file gives no patterns; otherwise the
      lines are read in order and each kept line appends its pattern and the
      deep variant (`**` and a slash put in front). */
  method ReadGitignore(contents: Option<seq<string>>) returns (patterns: seq<string>)
    ensures patterns == if contents.None? then [] else Patterns(contents.value)
  {
    patterns := [];
    if contents.Some? {
      var rawLines := contents.value;
      var i := 0;
      while i < |rawLines|
        invariant 0 <= i <= |rawLines|
        invariant patterns == Patterns(rawLines[..i])
      {
        PatternsOfPrefix(rawLines, i);
        var normalized := NormalizeLine(rawLines[i]);
        if normalized.Some? {
          patterns := patterns + [normalized.value, "**/" + normalized.value];
        }
        i := i + 1;
      }
      assert rawLines[..i] == rawLines;
    }
  }

  /** One more line read: its patterns follow those of the lines before it. */
  lemma PatternsOfPrefix(rawLines: seq<string>, i: nat)
    requires i < |rawLines|
    ensures Patterns(rawLines[..i + 1]) == Patterns(rawLines[..i]) + LinePatterns(NormalizeLine(rawLines[i]))
  {
    var seen := rawLines[..i + 1];
    assert |seen| == i + 1 && seen[i] == rawLines[i] && seen[..i] == rawLines[..i];
  }

  /** Every kept line contributes exactly two patterns, the line's own first
      and its deep variant second, so there are twice as many patterns as
      kept lines. */
  lemma {:induction false} PatternsArePairs(rawLines: seq<string>)
    ensures |Patterns(rawLines)| == 2 * |Kept(rawLines)|
    ensures forall k :: 0 <= k < |Kept(rawLines)| ==>
      Patterns(rawLines)[2 * k] == Kept(rawLines)[k] && Patterns(rawLines)[2 * k + 1] == "**/" + Kept(rawLines)[k]
  {
    if |rawLines| > 0 {
      var front := rawLines[..|rawLines| - 1];
      PatternsArePairs(front);
      var p := NormalizeLine(rawLines[|rawLines| - 1]);
      if p.Some? {
        PairsStep(Patterns(front), Kept(front), p.value);
        assert Patterns(rawLines) == Patterns(front) + [p.value, "**/" + p.value];
        assert Kept(rawLines) == Kept(front) + [p.value];
      } else {
        assert Patterns(rawLines) == Patterns(front) && Kept(rawLines) == Kept(front);
      }
    }
  }

  /** Appending a kept line and its pair of patterns keeps the pairing. */
  lemma PairsStep(patterns: seq<string>, kept: seq<string>, q: string)
    requires |patterns| == 2 * |kept|
    requires forall k :: 0 <= k < |kept| ==> patterns[2 * k] == kept[k] && patterns[2 * k + 1] == "**/" + kept[k]
    ensures var ps, ks := patterns + [q, "**/" + q], kept + [q];
      forall k :: 0 <= k < |ks| ==> ps[2 * k] == ks[k] && ps[2 * k + 1] == "**/" + ks[k]
  {
    var ps, ks := patterns + [q, "**/" + q], kept + [q];
    forall k | 0 <= k < |ks|
      ensures ps[2 * k] == ks[k] && ps[2 * k + 1] == "**/" + ks[k]
    {
      if k < |kept| {
        assert ps[2 * k] == patterns[2 * k] && ps[2 * k + 1] == patterns[2 * k + 1];
      }
    }
  }

  /** Reading a file is reading its parts one after the other. */
  lemma {:induction false} PatternsAppend(a: seq<string>, b: seq<string>)
    ensures Patterns(a + b) == Patterns(a) + Patterns(b)
    decreases |b|
  {
    if |b| > 0 {
      var front := b[..|b| - 1];
      assert (a + b)[..|a + b| - 1] == a + front;
      assert (a + b)[|a + b| - 1] == b[|b| - 1];
      PatternsAppend(a, front);
    } else {
      assert a + b == a;
    }
  }

  /** A blank or comment line, wherever it stands, contributes no pattern. */
  lemma SkippedLineAddsNothing(before: seq<string>, raw: string, after: seq<string>)
    requires Text.Strip(raw) == "" || Text.Strip(raw)[0] == '#'
    ensures Patterns(before + [raw] + after) == Patterns(before + after)
  {
    assert NormalizeLine(raw).None?;
    var withRaw := before + [raw];
    assert withRaw[..|withRaw| - 1] == before;
    assert Patterns(withRaw) == Patterns(before);
    PatternsAppend(withRaw, after);
    PatternsAppend(before, after);
  }

  /** No pattern read from a `.gitignore` ends in `/`. */
  lemma {:induction false} NoPatternEndsInSlash(rawLines: seq<string>)
    ensures forall k :: 0 <= k < |Patterns(rawLines)| ==> !Text.EndsWith(Patterns(rawLines)[k], "/")
  {
    if |rawLines| > 0 {
      var front := rawLines[..|rawLines| - 1];
      NoPatternEndsInSlash(front);
      var p := NormalizeLine(rawLines[|rawLines| - 1]);
      if p.Some? {
        DeepVariantKeepsEnd(p.value);
        assert Patterns(rawLines) == Patterns(front) + [p.value, "**/" + p.value];
      } else {
        assert Patterns(rawLines) == Patterns(front);
      }
    }
  }

  /** A pattern and its deep variant end alike: neither ends in `/` when the
      pattern does not. */
  lemma DeepVariantKeepsEnd(q: string)
    requires q != "" && !Text.EndsWith(q, "/")
    ensures !Text.EndsWith("**/" + q, "/")
  {
    var deep := "**/" + q;
    assert deep[|deep| - 1..] == [q[|q| - 1]];
    assert q[|q| - 1..] == [q[|q| - 1]];
  }

  // ---------------------------------------------------------------------
  // `should_ignore`
  // ---------------------------------------------------------------------

  /** The `gitignore_patterns.get(str(parent), [])` lookup. */
  function PatternsAt(table: map<Path, seq<string>>, dir: Path): seq<string>
  {
    if dir in table then table[dir] else []
  }

  /** One pattern hides the relative path: a pattern ending in `/` is matched
      as is and with `**` appended; any other pattern is matched or taken as
      a directory prefix of the path. */
  predicate PatternHides(rel: string, pattern: string, fnmatch: (string, string) -> bool)
  {
    if Text.EndsWith(pattern, "/") then fnmatch(rel, pattern) || fnmatch(rel, pattern + "**")
    else fnmatch(rel, pattern) || Text.StartsWith(rel, pattern + "/")
  }

  /** The ancestor `file[..k]` hides the file: one of its patterns hides the
      path relative to it, or that relative path lies inside `.git`. */
  ghost predicate HiddenBy(file: Path, k: int, table: map<Path, seq<string>>, fnmatch: (string, string) -> bool)
  {
    && 0 <= k < |file|
    && var rel := Posix(file[k..]);
       || (exists pattern :: pattern in PatternsAt(table, file[..k]) && PatternHides(rel, pattern, fnmatch))
       || Text.StartsWith(rel, ".git/")
  }

  /** The reference meaning of `should_ignore`: some ancestor hides the file. */
  ghost predicate Ignored(file: Path, table: map<Path, seq<string>>, fnmatch: (string, string) -> bool)
  {
    exists k :: HiddenBy(file, k, table, fnmatch)
  }

  /** `should_ignore`: the ancestors are tried nearest first, each one's
      patterns in order, and the first hit answers `True`. */
  method ShouldIgnore(file: Path, table: map<Path, seq<string>>, fnmatch: (string, string) -> bool)
    returns (ignored: bool)
    ensures ignored == Ignored(file, table, fnmatch)
  {
    var k := |file| - 1;
    while k >= 0
      invariant -1 <= k < |file|
      invariant forall k' :: k < k' < |file| ==> !HiddenBy(file, k', table, fnmatch)
    {
      var parentPatterns := PatternsAt(table, file[..k]);
      var rel := Posix(file[k..]);
      var j := 0;
      while j < |parentPatterns|
        invariant 0 <= j <= |parentPatterns|
        invariant forall j' :: 0 <= j' < j ==> !PatternHides(rel, parentPatterns[j'], fnmatch)
      {
        var pattern := parentPatterns[j];
        if Text.EndsWith(pattern, "/") {
          if fnmatch(rel, pattern) || fnmatch(rel, pattern + "**") {
            assert pattern in parentPatterns && PatternHides(rel, pattern, fnmatch);
            assert HiddenBy(file, k, table, fnmatch);
            return true;
          }
        } else if fnmatch(rel, pattern) || Text.StartsWith(rel, pattern + "/") {
          assert pattern in parentPatterns && PatternHides(rel, pattern, fnmatch);
          assert HiddenBy(file, k, table, fnmatch);
          return true;
        }
        j := j + 1;
      }
      if Text.StartsWith(rel, ".git/") {
        assert HiddenBy(file, k, table, fnmatch);
        return true;
      }
      k := k - 1;
    }
    return false;
  }

  /** Whatever the patterns, a file whose path relative to one of its
      ancestors starts with `.git/` is ignored. */
  lemma GitDirectoryAlwaysIgnored(file: Path, k: nat, table: map<Path, seq<string>>, fnmatch: (string, string) -> bool)
    requires k < |file| && Text.StartsWith(Posix(file[k..]), ".git/")
    ensures Ignored(file, table, fnmatch)
  {
    assert HiddenBy(file, k, table, fnmatch);
  }

  // ---------------------------------------------------------------------
  // `list_non_gitignore_files`
  // ---------------------------------------------------------------------

  /** A `.gitignore` found by `rglob`: the directory holding it and its lines. */
  datatype IgnoreFile = IgnoreFile(dir: Path, lines: seq<string>)

  /** The patterns the root directory always gets in addition to its own. */
  const GitPatterns: seq<string> := [".git/", "**/.git/"]

  /** The dict filled by the `rglob(".gitignore")` loop: a later file for the
      same directory replaces an earlier one. */
  function Collected(ignoreFiles: seq<IgnoreFile>): map<Path, seq<string>>
  {
    if |ignoreFiles| == 0 then map[]
    else
      var last := ignoreFiles[|ignoreFiles| - 1];
      Collected(ignoreFiles[..|ignoreFiles| - 1])[last.dir := Patterns(last.lines)]
  }

  /** The complete `gitignore_patterns` dict: the collected one with the root's
      entry extended by the two `.git` patterns. */
  function PatternTable(root: Path, ignoreFiles: seq<IgnoreFile>): map<Path, seq<string>>
  {
    var collected := Collected(ignoreFiles);
    collected[root := PatternsAt(collected, root) + GitPatterns]
  }

  /** Building the dict: one `_read_gitignore` per file, then the in-place
      `extend` of the root's list. */
  method BuildPatternTable(root: Path, ignoreFiles: seq<IgnoreFile>) returns (table: map<Path, seq<string>>)
    ensures table == PatternTable(root, ignoreFiles)
  {
    table := map[];
    for i := 0 to |ignoreFiles|
      invariant table == Collected(ignoreFiles[..i])
    {
      var patterns := ReadGitignore(Some(ignoreFiles[i].lines));
      assert ignoreFiles[..i + 1][..i] == ignoreFiles[..i];
      table := table[ignoreFiles[i].dir := patterns];
    }
    assert ignoreFiles[..|ignoreFiles|] == ignoreFiles;
    var rootPatterns := PatternsAt(table, root);
    rootPatterns := rootPatterns + GitPatterns;
    table := table[root := rootPatterns];
  }

  /** The patterns read from `.gitignore` files never end in `/`. */
  lemma {:induction false} CollectedHasNoSlashPattern(ignoreFiles: seq<IgnoreFile>, dir: Path)
    requires dir in Collected(ignoreFiles)
    ensures forall k :: 0 <= k < |Collected(ignoreFiles)[dir]| ==> !Text.EndsWith(Collected(ignoreFiles)[dir][k], "/")
  {
    var last := ignoreFiles[|ignoreFiles| - 1];
    if dir == last.dir {
      NoPatternEndsInSlash(last.lines);
    } else {
      CollectedHasNoSlashPattern(ignoreFiles[..|ignoreFiles| - 1], dir);
    }
  }

  /** In the finished table the only patterns ending in `/` are the two added
      for `.git`, at the end of the root's list. */
  lemma OnlyGitPatternsEndInSlash(root: Path, ignoreFiles: seq<IgnoreFile>, dir: Path, k: int)
    requires dir in PatternTable(root, ignoreFiles)
    requires 0 <= k < |PatternTable(root, ignoreFiles)[dir]|
    requires Text.EndsWith(PatternTable(root, ignoreFiles)[dir][k], "/")
    ensures dir == root && k >= |PatternTable(root, ignoreFiles)[root]| - |GitPatterns|
  {
    var collected := Collected(ignoreFiles);
    if dir != root {
      CollectedHasNoSlashPattern(ignoreFiles, dir);
    } else if root in collected {
      CollectedHasNoSlashPattern(ignoreFiles, root);
      assert PatternTable(root, ignoreFiles)[root] == collected[root] + GitPatterns;
    }
  }

  /** The files the listing keeps, in `rglob` order. */
  ghost function Unignored(candidates: seq<Path>, table: map<Path, seq<string>>, fnmatch: (string, string) -> bool): seq<Path>
  {
    if |candidates| == 0 then []
    else
      var front := Unignored(candidates[..|candidates| - 1], table, fnmatch);
      var file := candidates[|candidates| - 1];
      if Ignored(file, table, fnmatch) then front else front + [file]
  }

  /** A file is listed exactly when it is a candidate and is not ignored. */
  lemma {:induction false} UnignoredMembers(candidates: seq<Path>, table: map<Path, seq<string>>, fnmatch: (string, string) -> bool, file: Path)
    ensures file in Unignored(candidates, table, fnmatch) <==> file in candidates && !Ignored(file, table, fnmatch)
  {
    if |candidates| > 0 {
      var front := candidates[..|candidates| - 1];
      assert candidates == front + [candidates[|candidates| - 1]];
      UnignoredMembers(front, table, fnmatch, file);
    }
  }

  /** `list_non_gitignore_files` as written: the pattern table, then every
      regular file under the root (`candidates`, in `rglob` order) that
      `should_ignore` does not reject. */
  method ListNonIgnored(root: Path, ignoreFiles: seq<IgnoreFile>, candidates: seq<Path>, fnmatch: (string, string) -> bool)
    returns (files: seq<Path>)
    ensures files == Unignored(candidates, PatternTable(root, ignoreFiles), fnmatch)
  {
    var table := BuildPatternTable(root, ignoreFiles);
    files := [];
    for i := 0 to |candidates|
      invariant files == Unignored(candidates[..i], table, fnmatch)
    {
      var ignored := ShouldIgnore(candidates[i], table, fnmatch);
      assert candidates[..i + 1][..i] == candidates[..i];
      if !ignored {
        files := files + [candidates[i]];
      }
    }
    assert candidates[..|candidates|] == candidates;
  }

  /** As written, a `.gitignore` file is listed: with a root `.gitignore` that
      holds no pattern, and an `fnmatch` that (like Python's) does not match
      `.gitignore` against the `.git` patterns, the listing of `/r` returns
      `/r/.gitignore`. */
  lemma GitignoreFileIsListed(fnmatch: (string, string) -> bool)
    requires !fnmatch(".gitignore", ".git/") && !fnmatch(".gitignore", ".git/**")
    requires !fnmatch(".gitignore", "**/.git/") && !fnmatch(".gitignore", "**/.git/**")
    ensures var root := ["r"];
      var table := PatternTable(root, [IgnoreFile(root, [])]);
      Unignored([root + [".gitignore"]], table, fnmatch) == [root + [".gitignore"]]
  {
    var root := ["r"];
    var file := root + [".gitignore"];
    var table := PatternTable(root, [IgnoreFile(root, [])]);
    EmptyRootTable();
    GitignoreNotHiddenAtRoot(fnmatch);
    GitignoreNotHiddenAbove(fnmatch);
    assert file == ["r", ".gitignore"];
    assert !Ignored(file, table, fnmatch);
    var listed: seq<Path> := [file];
    assert listed[..0] == [];
  }

  /** A root whose `.gitignore` has no patterns gets only the `.git` ones. */
  lemma EmptyRootTable()
    ensures PatternTable(["r"], [IgnoreFile(["r"], [])]) == map[["r"] := GitPatterns]
  {
    var root := ["r"];
    var ignoreFiles := [IgnoreFile(root, [])];
    assert ignoreFiles[..0] == [];
    assert Collected(ignoreFiles) == map[root := []];
    assert PatternsAt(Collected(ignoreFiles), root) + GitPatterns == GitPatterns;
  }

  /** Relative to the root, `.gitignore` matches none of the `.git` patterns. */
  lemma GitignoreNotHiddenAtRoot(fnmatch: (string, string) -> bool)
    requires !fnmatch(".gitignore", ".git/") && !fnmatch(".gitignore", ".git/**")
    requires !fnmatch(".gitignore", "**/.git/") && !fnmatch(".gitignore", "**/.git/**")
    ensures !HiddenBy(["r", ".gitignore"], 1, map[["r"] := GitPatterns], fnmatch)
  {
    var file := ["r", ".gitignore"];
    assert file[..1] == ["r"] && file[1..] == [".gitignore"];
    assert Posix(file[1..]) == ".gitignore";
    assert ".gitignore"[..5][4] != ".git/"[4];
    assert ".git/" + "**" == ".git/**";
    assert "**/.git/" + "**" == "**/.git/**";
    assert Text.EndsWith(".git/", "/") && Text.EndsWith("**/.git/", "/");
    forall pattern | pattern in GitPatterns
      ensures !PatternHides(".gitignore", pattern, fnmatch)
    {
    }
  }

  /** Above the root there are no patterns, and `r/.gitignore` does not start
      with `.git/`. */
  lemma GitignoreNotHiddenAbove(fnmatch: (string, string) -> bool)
    ensures !HiddenBy(["r", ".gitignore"], 0, map[["r"] := GitPatterns], fnmatch)
  {
    var file := ["r", ".gitignore"];
    var table := map[["r"] := GitPatterns];
    assert file[..0] == [] && [] !in table;
    assert file[0..] == file;
    assert Text.Join(["r"], "/") == "r";
    assert Posix(file) == "r" + "/" + ".gitignore";
    assert ("r" + "/" + ".gitignore")[0] != ".git/"[0];
  }

  /** A path that names a `.gitignore` file. */
  predicate IsGitignoreFile(file: Path)
  {
    |file| > 0 && file[|file| - 1] == ".gitignore"
  }

  /** The listing the documentation of `list_non_gitignore_files` promises:
      the files neither ignored nor `.gitignore` files themselves. */
  ghost function Tracked(candidates: seq<Path>, table: map<Path, seq<string>>, fnmatch: (string, string) -> bool): seq<Path>
  {
    if |candidates| == 0 then []
    else
      var front := Tracked(candidates[..|candidates| - 1], table, fnmatch);
      var file := candidates[|candidates| - 1];
      if Ignored(file, table, fnmatch) || IsGitignoreFile(file) then front else front + [file]
  }

  /** A file is in the corrected listing exactly when it is a candidate, not
      ignored and not a `.gitignore` file. */
  lemma {:induction false} TrackedMembers(candidates: seq<Path>, table: map<Path, seq<string>>, fnmatch: (string, string) -> bool, file: Path)
    ensures file in Tracked(candidates, table, fnmatch) <==>
      file in candidates && !Ignored(file, table, fnmatch) && !IsGitignoreFile(file)
  {
    if |candidates| > 0 {
      var front := candidates[..|candidates| - 1];
      assert candidates == front + [candidates[|candidates| - 1]];
      TrackedMembers(front, table, fnmatch, file);
    }
  }

  /** The corrected `list_non_gitignore_files`: as written, except that
      `.gitignore` files are left out as its documentation says. */
  method ListTrackedFiles(root: Path, ignoreFiles: seq<IgnoreFile>, candidates: seq<Path>, fnmatch: (string, string) -> bool)
    returns (files: seq<Path>)
    ensures files == Tracked(candidates, PatternTable(root, ignoreFiles), fnmatch)
  {
    var table := BuildPatternTable(root, ignoreFiles);
    files := [];
    for i := 0 to |candidates|
      invariant files == Tracked(candidates[..i], table, fnmatch)
    {
      var ignored := ShouldIgnore(candidates[i], table, fnmatch);
      assert candidates[..i + 1][..i] == candidates[..i];
      if !ignored && !IsGitignoreFile(candidates[i]) {
        files := files + [candidates[i]];
      }
    }
    assert candidates[..|candidates|] == candidates;
  }
}
