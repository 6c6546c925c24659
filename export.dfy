/** `export.py`: the export of a repository as one text, made of the folder
    tree of the tracked files and the contents of those files. The directory
    is an inductive value (what `iterdir` would list), file contents are a
    map from path to text, and the tracked files come from
    `list_non_gitignore_files` as written (`PrepareExport`) or corrected
    (`PrepareTrackedExport`). */
module Export {
  import Text
  import Sorting
  import DirectoryUtils

  type Path = DirectoryUtils.Path

  /** A file longer than this many lines is summarised. */
  const LongFileThreshold: nat := 1000
  /** Characters per token in the token estimate. */
  const CharsPerToken: nat := 4

  // ---------------------------------------------------------------------
  // `build_tree_structure`
  // ---------------------------------------------------------------------

  /** What `iterdir` lists: a regular file, a directory with its own
      entries, or anything that is neither (a broken link, a socket). */
  datatype FsEntry =
    | File(name: string)
    | Dir(name: string, children: seq<FsEntry>)
    | Other(name: string)

  /** A value of the nested dict: `None` for a file, a dict for a folder. */
  datatype Node = Leaf | Folder(entries: seq<TreeEntry>)

  /** One key of the nested dict with its value, in insertion order. */
  datatype TreeEntry = TreeEntry(name: string, node: Node)

  /** `sorted` on the paths of one directory's entries: they share their
      parent, so they are ordered by name. */
  predicate NameLe(a: FsEntry, b: FsEntry)
  {
    Text.StrLe(a.name, b.name)
  }

  lemma NameOrder()
    ensures Sorting.TotalPreorder(NameLe)
  {
    forall a: FsEntry, b: FsEntry
      ensures NameLe(a, b) || NameLe(b, a)
    {
      Text.StrLeTotal(a.name, b.name);
    }
    forall a: FsEntry, b: FsEntry, c: FsEntry | NameLe(a, b) && NameLe(b, c)
      ensures NameLe(a, c)
    {
      Text.StrLeTransitive(a.name, b.name, c.name);
    }
  }

  /** The entries of a directory, sorted by name. */
  function SortedItems(items: seq<FsEntry>): (sorted: seq<FsEntry>)
    ensures Sorting.Sorted(sorted, NameLe)
    ensures multiset(sorted) == multiset(items)
    ensures forall x :: x in sorted ==> x in items
  {
    NameOrder();
    var sorted := Sorting.SortBy(items, NameLe);
    assert forall x :: x in sorted ==> x in multiset(items);
    sorted
  }

  /** The dict `build_tree_structure` returns for the directory at `path`
      whose entries are `items`. */
  function Tree(path: Path, items: seq<FsEntry>, tracked: set<Path>): seq<TreeEntry>
    decreases items, 1
  {
    Fill(path, SortedItems(items), tracked, items)
  }

  /** The dict after the loop has seen the (sorted) entries `sorted`: a
      tracked file becomes a leaf, a directory other than `.git` becomes a
      folder when its own tree is not empty, and anything else is skipped.
      `orig` is the list `sorted` was drawn from. */
  function Fill(path: Path, sorted: seq<FsEntry>, tracked: set<Path>, ghost orig: seq<FsEntry>): seq<TreeEntry>
    requires forall x :: x in sorted ==> x in orig
    decreases orig, 0, |sorted|
  {
    if |sorted| == 0 then []
    else
      var front := Fill(path, sorted[..|sorted| - 1], tracked, orig);
      var item := sorted[|sorted| - 1];
      match item
      case File(name) =>
        if path + [name] in tracked then front + [TreeEntry(name, Leaf)] else front
      case Dir(name, children) =>
        if name == ".git" then front
        else
          assert item in orig;
          var subtree := Tree(path + [name], children, tracked);
          if subtree != [] then front + [TreeEntry(name, Folder(subtree))] else front
      case Other(_) => front
  }

  /** `build_tree_structure`: the entries in sorted order, one recursive call
      per directory. */
  method BuildTreeStructure(path: Path, items: seq<FsEntry>, tracked: set<Path>) returns (tree: seq<TreeEntry>)
    ensures tree == Tree(path, items, tracked)
    decreases items
  {
    var sorted := SortedItems(items);
    tree := [];
    for i := 0 to |sorted|
      invariant tree == Fill(path, sorted[..i], tracked, items)
    {
      assert sorted[..i + 1][..i] == sorted[..i];
      var item := sorted[i];
      assert item in items;
      match item {
        case File(name) =>
          if path + [name] in tracked {
            tree := tree + [TreeEntry(name, Leaf)];
          }
        case Dir(name, children) =>
          if name != ".git" {
            var subtree := BuildTreeStructure(path + [name], children, tracked);
            if subtree != [] {
              tree := tree + [TreeEntry(name, Folder(subtree))];
            }
          }
        case Other(_) =>
      }
    }
    assert sorted[..|sorted|] == sorted;
  }

  /** The shape `build_tree_structure` promises: every leaf is a tracked
      file, and every folder is non-empty, not named `.git` and of the same
      shape. */
  ghost predicate Pruned(path: Path, entries: seq<TreeEntry>, tracked: set<Path>)
    decreases entries
  {
    forall i :: 0 <= i < |entries| ==>
      match entries[i].node
      case Leaf => path + [entries[i].name] in tracked
      case Folder(sub) =>
        entries[i].name != ".git" && sub != [] && Pruned(path + [entries[i].name], sub, tracked)
  }

  lemma {:induction false} TreeIsPruned(path: Path, items: seq<FsEntry>, tracked: set<Path>)
    ensures Pruned(path, Tree(path, items, tracked), tracked)
    decreases items, 1
  {
    FillIsPruned(path, SortedItems(items), tracked, items);
  }

  lemma {:induction false} FillIsPruned(path: Path, sorted: seq<FsEntry>, tracked: set<Path>, orig: seq<FsEntry>)
    requires forall x :: x in sorted ==> x in orig
    ensures Pruned(path, Fill(path, sorted, tracked, orig), tracked)
    decreases orig, 0, |sorted|
  {
    if |sorted| > 0 {
      var front := sorted[..|sorted| - 1];
      FillIsPruned(path, front, tracked, orig);
      var item := sorted[|sorted| - 1];
      if item.Dir? && item.name != ".git" {
        assert item in orig;
        TreeIsPruned(path + [item.name], item.children, tracked);
      }
    }
  }

  /** The converse of `TreeIsPruned`: every tracked file of the directory is
      a leaf of its dict, and every directory other than `.git` whose own
      tree is not empty is a folder holding that tree. */
  lemma TreeIsComplete(path: Path, items: seq<FsEntry>, tracked: set<Path>, item: FsEntry)
    requires item in items
    ensures item.File? && path + [item.name] in tracked ==>
      TreeEntry(item.name, Leaf) in Tree(path, items, tracked)
    ensures item.Dir? && item.name != ".git" && Tree(path + [item.name], item.children, tracked) != [] ==>
      TreeEntry(item.name, Folder(Tree(path + [item.name], item.children, tracked))) in Tree(path, items, tracked)
  {
    var sorted := SortedItems(items);
    assert item in multiset(sorted);
    FillIsComplete(path, sorted, tracked, items, item);
  }

  lemma {:induction false} FillIsComplete(path: Path, sorted: seq<FsEntry>, tracked: set<Path>, orig: seq<FsEntry>, item: FsEntry)
    requires forall x :: x in sorted ==> x in orig
    requires item in sorted
    ensures item.File? && path + [item.name] in tracked ==>
      TreeEntry(item.name, Leaf) in Fill(path, sorted, tracked, orig)
    ensures item.Dir? && item.name != ".git" && Tree(path + [item.name], item.children, tracked) != [] ==>
      TreeEntry(item.name, Folder(Tree(path + [item.name], item.children, tracked))) in Fill(path, sorted, tracked, orig)
    decreases |sorted|
  {
    var front := sorted[..|sorted| - 1];
    var before := Fill(path, front, tracked, orig);
    var tree := Fill(path, sorted, tracked, orig);
    FillStep(path, sorted, tracked, orig);
    if item != sorted[|sorted| - 1] {
      assert item in front;
      FillIsComplete(path, front, tracked, orig, item);
      forall e | e in before
        ensures e in tree
      {
        var k :| 0 <= k < |before| && before[k] == e;
        assert tree[..|before|][k] == e;
      }
    }
  }

  /** A tracked file found in a pruned, non-empty tree: every folder of the
      export holds at least one tracked file. */
  function SomeTrackedFile(path: Path, entries: seq<TreeEntry>, tracked: set<Path>): (file: Path)
    requires entries != [] && Pruned(path, entries, tracked)
    ensures file in tracked
    ensures |file| > |path| && file[..|path|] == path
    decreases entries
  {
    var e := entries[0];
    match e.node
    case Leaf => path + [e.name]
    case Folder(sub) =>
      var file := SomeTrackedFile(path + [e.name], sub, tracked);
      assert file[..|path|] == file[..|path| + 1][..|path|];
      file
  }

  /** The names of a list of entries. */
  function Names(items: seq<FsEntry>): (names: seq<string>)
    ensures |names| == |items| && forall k :: 0 <= k < |items| ==> names[k] == items[k].name
  {
    seq(|items|, k requires 0 <= k < |items| => items[k].name)
  }

  /** Every dict lists its keys in sorted order, each key the name of one of
      the directory's entries. */
  lemma {:induction false} FillInSortedOrder(path: Path, sorted: seq<FsEntry>, tracked: set<Path>, orig: seq<FsEntry>)
    requires forall x :: x in sorted ==> x in orig
    requires Sorting.Sorted(sorted, NameLe)
    ensures var tree := Fill(path, sorted, tracked, orig);
      && (forall i :: 0 <= i < |tree| ==> tree[i].name in Names(sorted))
      && (forall i, j :: 0 <= i < j < |tree| ==> Text.StrLe(tree[i].name, tree[j].name))
    decreases |sorted|
  {
    if |sorted| > 0 {
      var front := sorted[..|sorted| - 1];
      var last := sorted[|sorted| - 1];
      FillInSortedOrder(path, front, tracked, orig);
      FillStep(path, sorted, tracked, orig);
      var before := Fill(path, front, tracked, orig);
      var tree := Fill(path, sorted, tracked, orig);
      KeysBeforeLast(sorted, before);
      forall i | 0 <= i < |before|
        ensures tree[i] == before[i]
      {
      }
      if |tree| > |before| {
        assert Names(sorted)[|sorted| - 1] == tree[|before|].name;
      }
    }
  }

  /** The keys drawn from all but the last entry are names of the entries and
      come no later than the last entry's name. */
  lemma KeysBeforeLast(sorted: seq<FsEntry>, before: seq<TreeEntry>)
    requires |sorted| > 0 && Sorting.Sorted(sorted, NameLe)
    requires forall i :: 0 <= i < |before| ==> before[i].name in Names(sorted[..|sorted| - 1])
    ensures forall i :: 0 <= i < |before| ==>
      before[i].name in Names(sorted) && Text.StrLe(before[i].name, sorted[|sorted| - 1].name)
  {
    var front := sorted[..|sorted| - 1];
    forall i | 0 <= i < |before|
      ensures before[i].name in Names(sorted) && Text.StrLe(before[i].name, sorted[|sorted| - 1].name)
    {
      var k :| 0 <= k < |front| && Names(front)[k] == before[i].name;
      assert Names(sorted)[k] == before[i].name;
      assert NameLe(sorted[k], sorted[|sorted| - 1]);
    }
  }

  /** One more entry seen adds at most one key, named after the entry. */
  lemma FillStep(path: Path, sorted: seq<FsEntry>, tracked: set<Path>, orig: seq<FsEntry>)
    requires |sorted| > 0 && forall x :: x in sorted ==> x in orig
    ensures var before := Fill(path, sorted[..|sorted| - 1], tracked, orig);
      var tree := Fill(path, sorted, tracked, orig);
      && |before| <= |tree| <= |before| + 1
      && tree[..|before|] == before
      && (|tree| > |before| ==> tree[|before|].name == sorted[|sorted| - 1].name)
  {
    var before := Fill(path, sorted[..|sorted| - 1], tracked, orig);
    var tree := Fill(path, sorted, tracked, orig);
    var item := sorted[|sorted| - 1];
    assert tree == before || tree == before + [TreeEntry(item.name, tree[|tree| - 1].node)];
  }

  /** Directory entries are visited in sorted order. */
  lemma TreeInSortedOrder(path: Path, items: seq<FsEntry>, tracked: set<Path>)
    ensures var tree := Tree(path, items, tracked);
      forall i, j :: 0 <= i < j < |tree| ==> Text.StrLe(tree[i].name, tree[j].name)
  {
    FillInSortedOrder(path, SortedItems(items), tracked, items);
    assert Tree(path, items, tracked) == Fill(path, SortedItems(items), tracked, items);
  }

  // ---------------------------------------------------------------------
  // `print_tree_structure`
  // ---------------------------------------------------------------------

  /** The lines `print_tree_structure` yields: per entry, `{prefix}- {name}`,
      then, for a folder, its own lines under a prefix three spaces longer. */
  function TreeLines(entries: seq<TreeEntry>, prefix: string): seq<string>
    decreases entries
  {
    if |entries| == 0 then []
    else
      var e := entries[|entries| - 1];
      TreeLines(entries[..|entries| - 1], prefix) + [prefix + "- " + e.name] + SubLines(e, prefix)
  }

  /** The lines below an entry: none for a file. */
  function SubLines(e: TreeEntry, prefix: string): seq<string>
    decreases e, 0
  {
    match e.node
    case Leaf => []
    case Folder(sub) => TreeLines(sub, prefix + "   ")
  }

  /** One node in a pre-order walk, with its depth below the top level. */
  datatype OutlineItem = OutlineItem(depth: nat, name: string)

  /** The reference enumeration of a tree: every node in pre-order. */
  function Outline(entries: seq<TreeEntry>): seq<OutlineItem>
    decreases entries
  {
    if |entries| == 0 then []
    else
      var e := entries[|entries| - 1];
      Outline(entries[..|entries| - 1]) + [OutlineItem(0, e.name)] + SubOutline(e)
  }

  function SubOutline(e: TreeEntry): seq<OutlineItem>
    decreases e, 0
  {
    match e.node
    case Leaf => []
    case Folder(sub) => Deeper(Outline(sub))
  }

  /** The same nodes one level further down. */
  function Deeper(items: seq<OutlineItem>): (r: seq<OutlineItem>)
    ensures |r| == |items|
    ensures forall k :: 0 <= k < |items| ==> r[k] == OutlineItem(items[k].depth + 1, items[k].name)
  {
    seq(|items|, k requires 0 <= k < |items| => OutlineItem(items[k].depth + 1, items[k].name))
  }

  /** The line of a node at `depth`. */
  function OutlineLine(prefix: string, item: OutlineItem): string
  {
    prefix + Text.Spaces(3 * item.depth) + "- " + item.name
  }

  lemma Indented(prefix: string, item: OutlineItem)
    ensures OutlineLine(prefix + "   ", item) == OutlineLine(prefix, OutlineItem(item.depth + 1, item.name))
  {
    assert "   " + Text.Spaces(3 * item.depth) == Text.Spaces(3 * (item.depth + 1));
  }

  /** `print_tree_structure` yields exactly one line per node, in pre-order,
      each indented by three spaces per level below the top. */
  lemma {:induction false} TreeLinesFollowOutline(entries: seq<TreeEntry>, prefix: string)
    ensures |TreeLines(entries, prefix)| == |Outline(entries)|
    ensures forall k :: 0 <= k < |Outline(entries)| ==> TreeLines(entries, prefix)[k] == OutlineLine(prefix, Outline(entries)[k])
    decreases entries
  {
    if |entries| > 0 {
      var e := entries[|entries| - 1];
      TreeLinesFollowOutline(entries[..|entries| - 1], prefix);
      SubLinesFollowOutline(e, prefix);
      assert OutlineLine(prefix, OutlineItem(0, e.name)) == prefix + "- " + e.name;
    }
  }

  lemma {:induction false} SubLinesFollowOutline(e: TreeEntry, prefix: string)
    ensures |SubLines(e, prefix)| == |SubOutline(e)|
    ensures forall k :: 0 <= k < |SubOutline(e)| ==> SubLines(e, prefix)[k] == OutlineLine(prefix, SubOutline(e)[k])
    decreases e, 0
  {
    match e.node
    case Leaf =>
    case Folder(sub) =>
      TreeLinesFollowOutline(sub, prefix + "   ");
      var outline := Outline(sub);
      forall k | 0 <= k < |outline|
        ensures SubLines(e, prefix)[k] == OutlineLine(prefix, SubOutline(e)[k])
      {
        Indented(prefix, outline[k]);
      }
  }

  /** The number of nodes of a tree. */
  function NodeCount(entries: seq<TreeEntry>): nat
    decreases entries
  {
    if |entries| == 0 then 0
    else
      var e := entries[|entries| - 1];
      NodeCount(entries[..|entries| - 1]) + 1 + (match e.node case Leaf => 0 case Folder(sub) => NodeCount(sub))
  }

  /** The pre-order walk visits each node once: one line per node. */
  lemma {:induction false} OutlineCountsNodes(entries: seq<TreeEntry>)
    ensures |Outline(entries)| == NodeCount(entries)
    decreases entries
  {
    if |entries| > 0 {
      var e := entries[|entries| - 1];
      OutlineCountsNodes(entries[..|entries| - 1]);
      match e.node
      case Leaf =>
      case Folder(sub) => OutlineCountsNodes(sub);
    }
  }

  // ---------------------------------------------------------------------
  // `collect_files_content`
  // ---------------------------------------------------------------------

  /** What opening and reading a file gives: its text and the number of
      lines `splitlines` finds in it. A path missing from the map cannot be
      read. */
  datatype FileText = FileText(text: string, lineCount: nat)

  /** One `(rel_path, content)` pair; the relative path as its components. */
  datatype FileRecord = FileRecord(path: seq<string>, content: string)

  /** The last `.` of `s`, or -1 (`str.rfind`). */
  function LastDot(s: string): (i: int)
    ensures -1 <= i < |s|
    ensures i >= 0 ==> s[i] == '.'
    ensures forall k :: i < k < |s| ==> s[k] != '.'
  {
    if |s| == 0 then -1
    else if s[|s| - 1] == '.' then |s| - 1
    else LastDot(s[..|s| - 1])
  }

  /** `Path.suffix`: the part of the name from its last `.`, unless that dot
      is the first or the last character. */
  function Suffix(file: Path): string
  {
    var name := if |file| == 0 then "" else file[|file| - 1];
    var i := LastDot(name);
    if 0 < i < |name| - 1 then name[i..] else ""
  }

  /** A file is skipped as a lock file exactly when its name ends in `.lock`
      after at least one other character: `.lock` itself has no suffix. */
  lemma LockSuffix(file: Path)
    requires |file| > 0
    ensures var name := file[|file| - 1];
      Suffix(file) == ".lock" <==> |name| > 5 && Text.EndsWith(name, ".lock")
  {
    var name := file[|file| - 1];
    var i := LastDot(name);
    if |name| > 5 && Text.EndsWith(name, ".lock") {
      assert name[|name| - 5..] == ".lock";
      assert name[|name| - 5] == '.';
      forall k | |name| - 5 < k < |name|
        ensures name[k] != '.'
      {
        assert name[k] == ".lock"[k - (|name| - 5)];
      }
      assert i == |name| - 5;
    }
    if Suffix(file) == ".lock" {
      assert name[i..] == ".lock";
    }
  }

  /** The content recorded for a file: its text, or a summary for a file of
      more than 1000 lines. */
  function Content(f: FileText): string
  {
    if f.lineCount > LongFileThreshold then "compiled - " + Text.NatToString(f.lineCount) + " lines"
    else f.text
  }

  /** A file of at most 1000 lines keeps its text verbatim; a longer one is
      replaced by a summary from which its line count can be read back. */
  lemma ContentKeepsOrSummarises(f: FileText)
    ensures f.lineCount <= LongFileThreshold ==> Content(f) == f.text
    ensures f.lineCount > LongFileThreshold ==>
      var c := Content(f);
      var digits := c[|"compiled - "|..|c| - |" lines"|];
      && Text.StartsWith(c, "compiled - ") && Text.EndsWith(c, " lines")
      && (forall k :: 0 <= k < |digits| ==> '0' <= digits[k] <= '9')
      && Text.ParseDigits(digits) == f.lineCount
  {
    if f.lineCount > LongFileThreshold {
      var n := Text.NatToString(f.lineCount);
      var c := Content(f);
      assert c[|"compiled - "|..|c| - |" lines"|] == n;
      Text.NatToStringRoundTrip(f.lineCount);
    }
  }

  /** The file of 2198 lines summarised as in the repository's test. */
  lemma LongFileExample(text: string)
    ensures Content(FileText(text, 2198)) == "compiled - 2198 lines"
  {
    assert Text.NatToString(2198) == "2198" by {
      assert Text.NatToString(2) == "2";
      assert Text.NatToString(21) == "21";
      assert Text.NatToString(219) == "219";
    }
  }

  /** Whether `root` is a leading part of `file` (`relative_to` succeeds). */
  predicate Under(root: Path, file: Path)
  {
    |root| <= |file| && file[..|root|] == root
  }

  /** A tracked file yields a record unless it is a lock file, it cannot be
      read, or it is not below the root. */
  predicate Collectable(root: Path, file: Path, contents: map<Path, FileText>)
  {
    Suffix(file) != ".lock" && file in contents && Under(root, file)
  }

  function RecordOf(root: Path, file: Path, contents: map<Path, FileText>): FileRecord
    requires Collectable(root, file, contents)
  {
    FileRecord(file[|root|..], Content(contents[file]))
  }

  /** The records the collected list holds, as a set. */
  ghost function Expected(root: Path, files: set<Path>, contents: map<Path, FileText>): set<FileRecord>
  {
    set file | file in files && Collectable(root, file, contents) :: RecordOf(root, file, contents)
  }

  /** Python's `<=` on lists of strings. */
  predicate PathLe(a: seq<string>, b: seq<string>)
  {
    if |a| == 0 then true
    else if |b| == 0 then false
    else if a[0] != b[0] then Text.StrLe(a[0], b[0])
    else PathLe(a[1..], b[1..])
  }

  lemma {:induction false} PathLeTotal(a: seq<string>, b: seq<string>)
    ensures PathLe(a, b) || PathLe(b, a)
  {
    if |a| > 0 && |b| > 0 {
      if a[0] != b[0] {
        Text.StrLeTotal(a[0], b[0]);
      } else {
        PathLeTotal(a[1..], b[1..]);
      }
    }
  }

  lemma {:induction false} PathLeTransitive(a: seq<string>, b: seq<string>, c: seq<string>)
    requires PathLe(a, b) && PathLe(b, c)
    ensures PathLe(a, c)
  {
    if |a| > 0 && |b| > 0 && |c| > 0 {
      if a[0] == b[0] && b[0] == c[0] {
        PathLeTransitive(a[1..], b[1..], c[1..]);
      } else if a[0] != b[0] && b[0] != c[0] {
        Text.StrLeTransitive(a[0], b[0], c[0]);
        if a[0] == c[0] {
          Text.StrLeAntisymmetric(a[0], b[0]);
        }
      }
    }
  }

  lemma {:induction false} PathLeAntisymmetric(a: seq<string>, b: seq<string>)
    requires PathLe(a, b) && PathLe(b, a)
    ensures a == b
  {
    if |a| > 0 && |b| > 0 {
      if a[0] != b[0] {
        Text.StrLeAntisymmetric(a[0], b[0]);
      } else {
        PathLeAntisymmetric(a[1..], b[1..]);
        assert a == [a[0]] + a[1..];
        assert b == [b[0]] + b[1..];
      }
    }
  }

  /** Python's `<=` on `(rel_path, content)` tuples. */
  predicate RecordLe(x: FileRecord, y: FileRecord)
  {
    if x.path != y.path then PathLe(x.path, y.path) else Text.StrLe(x.content, y.content)
  }

  lemma RecordOrder()
    ensures Sorting.TotalPreorder(RecordLe)
  {
    forall x: FileRecord, y: FileRecord
      ensures RecordLe(x, y) || RecordLe(y, x)
    {
      PathLeTotal(x.path, y.path);
      Text.StrLeTotal(x.content, y.content);
    }
    forall x: FileRecord, y: FileRecord, z: FileRecord | RecordLe(x, y) && RecordLe(y, z)
      ensures RecordLe(x, z)
    {
      if x.path == y.path && y.path == z.path {
        Text.StrLeTransitive(x.content, y.content, z.content);
      } else if x.path == y.path || y.path == z.path {
      } else {
        PathLeTransitive(x.path, y.path, z.path);
        if x.path == z.path {
          PathLeAntisymmetric(x.path, y.path);
        }
      }
    }
  }

  /** Two files below the same root with the same relative path are one file. */
  lemma RelativePathInjective(root: Path, a: Path, b: Path)
    requires Under(root, a) && Under(root, b) && a[|root|..] == b[|root|..]
    ensures a == b
  {
    assert a == a[..|root|] + a[|root|..];
    assert b == b[..|root|] + b[|root|..];
  }

  /** What the collected list is: sorted, holding exactly the expected
      records, each of them once. */
  ghost predicate IsCollection(records: seq<FileRecord>, root: Path, tracked: set<Path>, contents: map<Path, FileText>)
  {
    && Sorting.Sorted(records, RecordLe)
    && (forall r :: r in records <==> r in Expected(root, tracked, contents))
    && (forall r :: multiset(records)[r] <= 1)
  }

  /** One round of the collecting loop: the file taken from `remaining` adds
      its record, which is new, or nothing. */
  lemma CollectStep(root: Path, tracked: set<Path>, contents: map<Path, FileText>,
                    remaining: set<Path>, found: seq<FileRecord>, file: Path)
    requires file in remaining && remaining <= tracked
    requires forall r :: r in found <==> r in Expected(root, tracked - remaining, contents)
    requires forall r :: multiset(found)[r] <= 1
    ensures var next := if Collectable(root, file, contents) then found + [RecordOf(root, file, contents)] else found;
      && (forall r :: r in next <==> r in Expected(root, tracked - (remaining - {file}), contents))
      && (forall r :: multiset(next)[r] <= 1)
  {
    var done := tracked - remaining;
    assert tracked - (remaining - {file}) == done + {file};
    if Collectable(root, file, contents) {
      var record := RecordOf(root, file, contents);
      if record in found {
        var other :| other in done && Collectable(root, other, contents) && record == RecordOf(root, other, contents);
        RelativePathInjective(root, file, other);
        assert false;
      }
    }
  }

  /** `collect_files_content`: every tracked file, in whatever order the set
      yields them, is skipped or recorded once; the records are then sorted. */
  method CollectFilesContent(root: Path, tracked: set<Path>, contents: map<Path, FileText>)
    returns (records: seq<FileRecord>)
    ensures IsCollection(records, root, tracked, contents)
  {
    var found: seq<FileRecord> := [];
    var remaining := tracked;
    while remaining != {}
      invariant remaining <= tracked
      invariant forall r :: r in found <==> r in Expected(root, tracked - remaining, contents)
      invariant forall r :: multiset(found)[r] <= 1
      decreases |remaining|
    {
      var file :| file in remaining;
      CollectStep(root, tracked, contents, remaining, found, file);
      if Suffix(file) != ".lock" && file in contents && Under(root, file) {
        var text := contents[file];
        var content := text.text;
        if text.lineCount > LongFileThreshold {
          content := "compiled - " + Text.NatToString(text.lineCount) + " lines";
        }
        var record := FileRecord(file[|root|..], content);
        assert record == RecordOf(root, file, contents);
        found := found + [record];
      }
      remaining := remaining - {file};
    }
    assert tracked - remaining == tracked;
    RecordOrder();
    records := Sorting.SortBy(found, RecordLe);
    forall r
      ensures r in records <==> r in found
    {
      assert r in records <==> r in multiset(records);
    }
  }

  /** Two records each `<=` the other are the same record. */
  lemma RecordLeAntisymmetric()
    ensures Sorting.Antisymmetric(RecordLe)
  {
    forall x: FileRecord, y: FileRecord | RecordLe(x, y) && RecordLe(y, x)
      ensures x == y
    {
      if x.path == y.path {
        Text.StrLeAntisymmetric(x.content, y.content);
      } else {
        PathLeAntisymmetric(x.path, y.path);
      }
    }
  }

  /** The collection does not depend on the order the set yields its files:
      there is only one sorted list holding exactly the expected records
      once each, so the export text is fixed. */
  lemma CollectionUnique(a: seq<FileRecord>, b: seq<FileRecord>, root: Path, tracked: set<Path>, contents: map<Path, FileText>)
    requires IsCollection(a, root, tracked, contents) && IsCollection(b, root, tracked, contents)
    ensures a == b
  {
    forall r
      ensures multiset(a)[r] == multiset(b)[r]
    {
      assert r in a <==> r in b;
      assert r in a <==> r in multiset(a);
      assert r in b <==> r in multiset(b);
    }
    assert multiset(a) == multiset(b);
    RecordLeAntisymmetric();
    Sorting.SortedUnique(a, b, RecordLe);
  }

  // ---------------------------------------------------------------------
  // `estimate_token_count`
  // ---------------------------------------------------------------------

  /** `len(text) // 4`. */
  function EstimateTokenCount(text: string): (tokens: nat)
    ensures CharsPerToken * tokens <= |text| < CharsPerToken * (tokens + 1)
  {
    |text| / CharsPerToken
  }

  /** A longer text never has a smaller estimate. */
  lemma EstimateMonotone(a: string, b: string)
    requires |a| <= |b|
    ensures EstimateTokenCount(a) <= EstimateTokenCount(b)
  {
  }

  // ---------------------------------------------------------------------
  // `prepare_export`
  // ---------------------------------------------------------------------

  /** `str` of an absolute path. */
  function PathString(p: Path): string
  {
    "/" + Text.Join(p, "/")
  }

  /** `str` of a relative path: `.` when it has no component. */
  function RelString(p: seq<string>): string
  {
    if |p| == 0 then "." else Text.Join(p, "/")
  }

  /** The heading and content of one file in the export. */
  function Section(r: FileRecord): string
  {
    "\n### file: " + RelString(r.path) + "\n" + r.content
  }

  /** The sections of all records, in order. */
  function Sections(records: seq<FileRecord>): string
  {
    if |records| == 0 then ""
    else Sections(records[..|records| - 1]) + Section(records[|records| - 1])
  }

  /** The export up to the file sections: the title, the folder structure
      and the heading of the contents. */
  function Head(root: Path, tree: seq<TreeEntry>): string
  {
    "Export of " + PathString(root) + "\n\n" + "Folder structure:\n"
    + Text.Join(TreeLines(tree, ""), "\n") + "\nAggregated file contents:\n"
  }

  /** The whole export text. */
  function ExportText(root: Path, tree: seq<TreeEntry>, records: seq<FileRecord>): string
  {
    Head(root, tree) + Sections(records)
  }

  /** The sections appear in the order of the records: the export ends in a
      text that starts with the sections before record `i`, followed by
      record `i`'s own. */
  lemma {:induction false} SectionsInOrder(records: seq<FileRecord>, i: nat)
    requires i < |records|
    ensures Text.StartsWith(Sections(records), Sections(records[..i]) + Section(records[i]))
    decreases |records|
  {
    var front := records[..|records| - 1];
    if i == |records| - 1 {
      assert records[..i] == front;
    } else {
      SectionsInOrder(front, i);
      assert front[..i] == records[..i];
      var p := Sections(front[..i]) + Section(front[i]);
      assert Sections(records) == Sections(front) + Section(records[|records| - 1]);
      assert Sections(records)[..|p|] == Sections(front)[..|p|];
    }
  }

  /** The set `prepare_export` builds from `list_non_gitignore_files` as
      written: `.gitignore` files that no pattern hides are in it. */
  ghost function ListedSet(root: Path, ignoreFiles: seq<DirectoryUtils.IgnoreFile>, candidates: seq<Path>, fnmatch: (string, string) -> bool): set<Path>
  {
    var listed := DirectoryUtils.Unignored(candidates, DirectoryUtils.PatternTable(root, ignoreFiles), fnmatch);
    set file | file in listed
  }

  /** The same set built from the corrected listing. */
  ghost function TrackedSet(root: Path, ignoreFiles: seq<DirectoryUtils.IgnoreFile>, candidates: seq<Path>, fnmatch: (string, string) -> bool): set<Path>
  {
    var listed := DirectoryUtils.Tracked(candidates, DirectoryUtils.PatternTable(root, ignoreFiles), fnmatch);
    set file | file in listed
  }

  /** One more record: its section follows those of the records before it. */
  lemma SectionsOfPrefix(records: seq<FileRecord>, i: nat)
    requires i < |records|
    ensures Sections(records[..i + 1]) == Sections(records[..i]) + Section(records[i])
  {
    var seen := records[..i + 1];
    assert |seen| == i + 1 && seen[i] == records[i] && seen[..i] == records[..i];
  }

  /** The two `+=` of one loop round add record `i`'s section. */
  lemma SectionAppended(text: string, head: string, records: seq<FileRecord>, i: nat)
    requires i < |records| && text == head + Sections(records[..i])
    ensures text + "\n### file: " + RelString(records[i].path) + "\n" + records[i].content
      == head + Sections(records[..i + 1])
  {
    SectionsOfPrefix(records, i);
    AppendFour(text, "\n### file: ", RelString(records[i].path), "\n", records[i].content);
    Text.ConcatAssoc(head, Sections(records[..i]), Section(records[i]));
  }

  /** Four appends in a row add their concatenation. */
  lemma AppendFour(t: string, x: string, r: string, y: string, c: string)
    ensures t + x + r + y + c == t + (x + r + y + c)
  {
    Text.ConcatAssoc(t, x, r);
    Text.ConcatAssoc(t, x + r, y);
    Text.ConcatAssoc(t, x + r + y, c);
  }

  /** The `+=` loop over the collected files: one section per record. */
  method AppendSections(head: string, files: seq<FileRecord>) returns (text: string)
    ensures text == head + Sections(files)
  {
    text := head;
    for i := 0 to |files|
      invariant text == head + Sections(files[..i])
    {
      SectionAppended(text, head, files, i);
      text := text + "\n### file: " + RelString(files[i].path) + "\n";
      text := text + files[i].content;
    }
    assert files[..|files|] == files;
  }

  /** Everything `prepare_export` does after the listing: the title, the
      tree of the tracked files below `rootItems` (what `iterdir` shows of
      the root), then every collected file as a section, assembled by
      repeated `+=`. The result is the export text of the tree of the
      tracked files and of the (unique, by `CollectionUnique`) collection of
      their contents. */
  method AssembleExport(root: Path, rootItems: seq<FsEntry>, tracked: set<Path>, contents: map<Path, FileText>)
    returns (text: string)
    ensures exists records ::
      IsCollection(records, root, tracked, contents) && text == ExportText(root, Tree(root, rootItems, tracked), records)
  {
    text := "Export of " + PathString(root) + "\n\n";
    text := text + "Folder structure:\n";
    var tree := BuildTreeStructure(root, rootItems, tracked);
    text := text + Text.Join(TreeLines(tree, ""), "\n");
    text := text + "\nAggregated file contents:\n";
    assert text == Head(root, tree);
    var files := CollectFilesContent(root, tracked, contents);
    text := AppendSections(text, files);
    assert IsCollection(files, root, tracked, contents) && text == ExportText(root, tree, files);
  }

  /** `prepare_export` as written: the files of `list_non_gitignore_files`,
      `.gitignore` files included, make up the tree and the sections. */
  method PrepareExport(root: Path, rootItems: seq<FsEntry>, ignoreFiles: seq<DirectoryUtils.IgnoreFile>,
                       candidates: seq<Path>, fnmatch: (string, string) -> bool, contents: map<Path, FileText>)
    returns (text: string)
    ensures var tracked := ListedSet(root, ignoreFiles, candidates, fnmatch);
      exists records :: IsCollection(records, root, tracked, contents)
        && text == ExportText(root, Tree(root, rootItems, tracked), records)
  {
    var listed := DirectoryUtils.ListNonIgnored(root, ignoreFiles, candidates, fnmatch);
    var tracked := set file | file in listed;
    assert tracked == ListedSet(root, ignoreFiles, candidates, fnmatch);
    text := AssembleExport(root, rootItems, tracked, contents);
  }

  /** `prepare_export` over the corrected listing, which leaves `.gitignore`
      files out of the tree and the sections. */
  method PrepareTrackedExport(root: Path, rootItems: seq<FsEntry>, ignoreFiles: seq<DirectoryUtils.IgnoreFile>,
                              candidates: seq<Path>, fnmatch: (string, string) -> bool, contents: map<Path, FileText>)
    returns (text: string)
    ensures var tracked := TrackedSet(root, ignoreFiles, candidates, fnmatch);
      exists records :: IsCollection(records, root, tracked, contents)
        && text == ExportText(root, Tree(root, rootItems, tracked), records)
  {
    var listed := DirectoryUtils.ListTrackedFiles(root, ignoreFiles, candidates, fnmatch);
    var tracked := set file | file in listed;
    assert tracked == TrackedSet(root, ignoreFiles, candidates, fnmatch);
    text := AssembleExport(root, rootItems, tracked, contents);
  }

  /** The two listings differ exactly in the `.gitignore` files: the
      corrected set is the as-written set without them. */
  lemma TrackedSetDropsGitignoreFiles(root: Path, ignoreFiles: seq<DirectoryUtils.IgnoreFile>, candidates: seq<Path>,
                                      fnmatch: (string, string) -> bool, file: Path)
    ensures file in TrackedSet(root, ignoreFiles, candidates, fnmatch)
      <==> file in ListedSet(root, ignoreFiles, candidates, fnmatch) && !DirectoryUtils.IsGitignoreFile(file)
  {
    var table := DirectoryUtils.PatternTable(root, ignoreFiles);
    DirectoryUtils.UnignoredMembers(candidates, table, fnmatch, file);
    DirectoryUtils.TrackedMembers(candidates, table, fnmatch, file);
  }
}
