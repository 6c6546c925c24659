/** The line-oriented editing helpers of `src/autocode/code_editor.py`. A file
    is the list of its lines: what `splitlines()` gives for `read_file` and
    `edit_file`, without line terminators, and what `readlines()` gives for
    `search_files`, each line keeping its terminator. Opening, reading and
    writing the file happen outside the model. */
module CodeEditing {
  import opened Wrappers
  import Text

  /** How Python normalises a slice bound or an `insert` position `i` for a
      list of length `n`: negative values count from the end, and anything
      out of range is clamped to `0..n`. */
  function PyIndex(i: int, n: nat): (k: nat)
    ensures k <= n
    ensures 0 <= i <= n ==> k == i
    ensures i > n ==> k == n
  {
    if i < 0 then (if i + n < 0 then 0 else i + n)
    else if i > n then n
    else i
  }

  /** `s[a:b]`. */
  function PySlice<T>(s: seq<T>, a: int, b: int): seq<T>
  {
    var lo, hi := PyIndex(a, |s|), PyIndex(b, |s|);
    if lo < hi then s[lo..hi] else []
  }

  /** `del s[a:b]`. */
  function DelSlice<T>(s: seq<T>, a: int, b: int): seq<T>
  {
    var lo, hi := PyIndex(a, |s|), PyIndex(b, |s|);
    if lo < hi then s[..lo] + s[hi..] else s
  }

  /** `s.insert(i, x)`. */
  function InsertAt<T>(s: seq<T>, i: int, x: T): seq<T>
  {
    var k := PyIndex(i, |s|);
    s[..k] + [x] + s[k..]
  }

  /** `end_line or len(lines)`: an omitted or zero end line means the last line. */
  function EffectiveEnd(endLine: Option<int>, lineCount: nat): int
  {
    if endLine.None? || endLine.value == 0 then lineCount else endLine.value
  }

  /** One displayed row: the line number right-justified to `width`, then the line. */
  function Row(number: int, width: nat, line: string): string
  {
    Text.RJust(Text.IntToString(number), width) + " | " + line
  }

  /** `Row` for a fixed width, as a function of the number and the line. */
  function RowFormat(width: nat): (int, string) -> string
  {
    (number: int, line: string) => Row(number, width, line)
  }

  /** The lines of `shown` formatted by `row` and numbered from `first`: what
      the `enumerate(..., start=first)` loop appends. */
  function Numbered(shown: seq<string>, first: int, row: (int, string) -> string): (rows: seq<string>)
    ensures |rows| == |shown|
  {
    if |shown| == 0 then []
    else Numbered(shown[..|shown| - 1], first, row) + [row(first + |shown| - 1, shown[|shown| - 1])]
  }

  /** Row `k` shows line `k` under the number `first + k`. */
  lemma {:induction false} NumberedAt(shown: seq<string>, first: int, row: (int, string) -> string)
    ensures forall k :: 0 <= k < |shown| ==> Numbered(shown, first, row)[k] == row(first + k, shown[k])
  {
    if |shown| > 0 {
      var front := shown[..|shown| - 1];
      NumberedAt(front, first, row);
      assert forall k :: 0 <= k < |front| ==> Numbered(shown, first, row)[k] == Numbered(front, first, row)[k];
    }
  }

  /** One more line numbered: its row follows the rows before it. */
  lemma NumberedOfPrefix(shown: seq<string>, first: int, row: (int, string) -> string, i: nat)
    requires i < |shown|
    ensures Numbered(shown[..i + 1], first, row) == Numbered(shown[..i], first, row) + [row(first + i, shown[i])]
  {
    var seen := shown[..i + 1];
    assert |seen| == i + 1 && seen[i] == shown[i] && seen[..i] == shown[..i];
  }

  /** The rows `read_file` displays: the slice `lines[start_line - 1 : end]`
      numbered from `start_line`, every number padded to the width of `end`. */
  function Rows(lines: seq<string>, startLine: int, endLine: Option<int>): seq<string>
  {
    var end := EffectiveEnd(endLine, |lines|);
    Numbered(PySlice(lines, startLine - 1, end), startLine, RowFormat(|Text.IntToString(end)|))
  }

  /** The `enumerate` loop of `read_file`: one row per shown line, numbered
      from `first` and padded to `width`. */
  method NumberRows(shown: seq<string>, first: int, width: nat) returns (display: seq<string>)
    ensures display == Numbered(shown, first, RowFormat(width))
  {
    display := [];
    var row := RowFormat(width);
    var i := 0;
    while i < |shown|
      invariant 0 <= i <= |shown|
      invariant display == Numbered(shown[..i], first, row)
    {
      NumberedOfPrefix(shown, first, row, i);
      display := display + [row(first + i, shown[i])];
      i := i + 1;
    }
    assert shown[..i] == shown;
  }

  /** `read_file`: the line-numbered rows joined by newlines. */
  method ReadFile(lines: seq<string>, startLine: int, endLine: Option<int>) returns (text: string)
    ensures text == Text.Join(Rows(lines, startLine, endLine), "\n")
  {
    var end := EffectiveEnd(endLine, |lines|);
    var width := |Text.IntToString(end)|;
    var shown := PySlice(lines, startLine - 1, end);
    var display := NumberRows(shown, startLine, width);
    text := Text.Join(display, "\n");
  }

  /** With a 1-based start and a non-negative end, the slice
      `lines[start_line - 1 : end]` holds the lines `start_line` to
      `min(end, number of lines)`. */
  lemma SliceOfRange(lines: seq<string>, startLine: int, end: int)
    requires startLine >= 1 && end >= 0
    ensures var last := if end < |lines| then end else |lines|;
      PySlice(lines, startLine - 1, end) == if startLine <= last then lines[startLine - 1..last] else []
  {
  }

  /** With a 1-based start and a non-negative end, `read_file` shows exactly
      the lines numbered `start_line` to `min(end, number of lines)`, in order
      and numbered from `start_line`; an omitted or zero end means the last
      line. Row `k` of the result is then `Row(start_line + k, ...)` by
      `NumberedAt`. */
  lemma ReadFileShowsRange(lines: seq<string>, startLine: int, endLine: Option<int>)
    requires startLine >= 1
    requires endLine.Some? ==> endLine.value >= 0
    ensures var end := if endLine.None? || endLine == Some(0) then |lines| else endLine.value;
      var last := if end < |lines| then end else |lines|;
      Rows(lines, startLine, endLine)
        == if startLine <= last then Numbered(lines[startLine - 1..last], startLine, RowFormat(|Text.IntToString(end)|))
           else []
  {
    SliceOfRange(lines, startLine, EffectiveEnd(endLine, |lines|));
  }

  /** The layout of one row whose number fits the width: the number padded
      to exactly `width` characters, then `" | "`, then the line. */
  lemma RowLayout(number: nat, width: nat, line: string)
    requires |Text.NatToString(number)| <= width
    ensures |Text.RJust(Text.NatToString(number), width)| == width
    ensures Row(number, width, line) == Text.RJust(Text.NatToString(number), width) + " | " + line
  {
    assert Text.IntToString(number) == Text.NatToString(number);
  }

  /** Every number `read_file` shows fits the width of `str(end)`, so by
      `RowLayout` every row's number field is exactly that wide and the
      separators of all rows line up. */
  lemma ReadFileRowsAligned(lines: seq<string>, startLine: int, endLine: Option<int>)
    requires startLine >= 1
    requires endLine.Some? ==> endLine.value >= 0
    ensures var end := EffectiveEnd(endLine, |lines|);
      var rows := Rows(lines, startLine, endLine);
      forall n: nat :: startLine <= n < startLine + |rows| ==> |Text.NatToString(n)| <= |Text.IntToString(end)|
  {
    var end := EffectiveEnd(endLine, |lines|);
    assert Text.IntToString(end) == Text.NatToString(end);
    SliceOfRange(lines, startLine, end);
    var rows := Rows(lines, startLine, endLine);
    forall n: nat | startLine <= n < startLine + |rows|
      ensures |Text.NatToString(n)| <= |Text.NatToString(end)|
    {
      Text.NatToStringLengthMonotone(n, end);
    }
  }

  /** Outside those bounds the numbers need not fit: a negative end is kept
      (`-1 or n` is `-1`), so on a file of 101 lines `end_line=-1` shows
      lines 1 to 100 under the width of `"-1"`, and row 100's number field
      is one character wider than row 99's, shifting its separator. */
  lemma NegativeEndMisaligns(lines: seq<string>)
    requires |lines| == 101
    ensures var rows := Rows(lines, 1, Some(-1));
      && |rows| == 100
      && rows[98] == "99" + " | " + lines[98]
      && rows[99] == "100" + " | " + lines[99]
  {
    var shown := lines[..100];
    NegativeEndRows(lines);
    NumberedAt(shown, 1, RowFormat(2));
    NarrowRows(lines[98], lines[99]);
  }

  /** With `end_line=-1` on 101 lines, the first 100 lines are numbered under
      the width 2. */
  lemma NegativeEndRows(lines: seq<string>)
    requires |lines| == 101
    ensures Rows(lines, 1, Some(-1)) == Numbered(lines[..100], 1, RowFormat(2))
  {
    assert |Text.IntToString(-1)| == 2 by {
      assert |Text.NatToString(1)| == 1;
    }
    assert EffectiveEnd(Some(-1), |lines|) == -1;
    assert PySlice(lines, 0, -1) == lines[..100] by {
      assert PyIndex(0, 101) == 0 && PyIndex(-1, 101) == 100;
    }
  }

  /** Rows 99 and 100 under the width 2: the three digits of 100 overflow it. */
  lemma NarrowRows(line99: string, line100: string)
    ensures RowFormat(2)(99, line99) == "99" + " | " + line99
    ensures RowFormat(2)(100, line100) == "100" + " | " + line100
  {
    assert Text.NatToString(99) == "99" by {
      assert Text.NatToString(9) == "9";
    }
    assert Text.NatToString(100) == "100" by {
      assert Text.NatToString(1) == "1";
      assert Text.NatToString(10) == "10";
    }
  }

  /** A start line of 0 makes the slice start at -1: only the last line is
      shown, under the number 0. */
  lemma ZeroStartShowsLastLine(lines: seq<string>)
    requires |lines| > 0
    ensures Rows(lines, 0, None) == [Row(0, |Text.IntToString(|lines|)|, lines[|lines| - 1])]
  {
    var shown := PySlice(lines, -1, |lines|);
    assert shown == [lines[|lines| - 1]];
    NumberedAt(shown, 0, RowFormat(|Text.IntToString(|lines|)|));
  }

  /** The new lines of `edit_file`: `del lines[s-1 : s-1+count]`, then
      `lines.insert(s-1, insert_text)`, with Python's index rules. */
  function EditedLines(lines: seq<string>, lineIndexStart: int, deleteCount: int, insertText: string): seq<string>
  {
    var start := lineIndexStart - 1;
    InsertAt(DelSlice(lines, start, start + deleteCount), start, insertText)
  }

  /** `edit_file`: the text written back to the file, which is also the text
      returned. With a 1-based start and a non-negative count it is a splice:
      `count` lines at the start line are replaced by the inserted text, the
      deletion stopping at the end of the file. */
  method EditFile(lines: seq<string>, lineIndexStart: int, deleteCount: int, insertText: string)
    returns (written: string)
    ensures written == Text.Join(EditedLines(lines, lineIndexStart, deleteCount, insertText), "\n")
    ensures lineIndexStart >= 1 && deleteCount >= 0 ==>
      var a := if lineIndexStart - 1 < |lines| then lineIndexStart - 1 else |lines|;
      var b := if lineIndexStart - 1 + deleteCount < |lines| then lineIndexStart - 1 + deleteCount else |lines|;
      written == Text.Join(lines[..a] + [insertText] + lines[b..], "\n")
  {
    var buffer := lines;
    var start := lineIndexStart - 1;
    var end := start + deleteCount;
    buffer := DelSlice(buffer, start, end);
    buffer := InsertAt(buffer, start, insertText);
    written := Text.Join(buffer, "\n");
    if lineIndexStart >= 1 && deleteCount >= 0 {
      EditFileSplice(lines, lineIndexStart, deleteCount, insertText);
    }
  }

  /** The splice `edit_file` performs: lines before the start line are
      untouched, the inserted text sits at the start line, the lines after
      the deleted ones follow; a count of 0 is a pure insertion that adds
      exactly one line. */
  lemma EditFileSplice(lines: seq<string>, lineIndexStart: int, deleteCount: int, insertText: string)
    requires lineIndexStart >= 1 && deleteCount >= 0
    ensures var a := if lineIndexStart - 1 < |lines| then lineIndexStart - 1 else |lines|;
      var b := if lineIndexStart - 1 + deleteCount < |lines| then lineIndexStart - 1 + deleteCount else |lines|;
      var r := EditedLines(lines, lineIndexStart, deleteCount, insertText);
      && r == lines[..a] + [insertText] + lines[b..]
      && |r| == |lines| - (b - a) + 1
      && r[..a] == lines[..a]
      && (deleteCount == 0 ==> |r| == |lines| + 1 && r[a + 1..] == lines[a..])
  {
    var n := |lines|;
    var a := if lineIndexStart - 1 < n then lineIndexStart - 1 else n;
    var b := if lineIndexStart - 1 + deleteCount < n then lineIndexStart - 1 + deleteCount else n;
    var deleted := DelSlice(lines, lineIndexStart - 1, lineIndexStart - 1 + deleteCount);
    assert deleted == lines[..a] + lines[b..];
    assert deleted[..a] == lines[..a];
    assert deleted[a..] == lines[b..];
  }

  /** A file as `search_files` sees it: its path and its lines, or `None`
      when opening or reading it raised, in which case it is skipped. The
      lines are those of `readlines()`, each with its `"\n"` kept, so a search
      text ending in `"\n"` can match a line, and the line number and the
      stripped preview are computed from the line with its terminator. */
  datatype SourceFile = SourceFile(path: string, lines: Option<seq<string>>)

  /** Previews longer than this are cut. */
  const MaxPreview: nat := 100

  /** The preview of a matching line: the stripped line, cut to 97 characters
      plus `...` when it is longer than 100, so never longer than 100. */
  function Preview(line: string): (p: string)
    ensures |p| <= MaxPreview
    ensures |Text.Strip(line)| <= MaxPreview ==> p == Text.Strip(line)
    ensures |Text.Strip(line)| > MaxPreview ==>
      |p| == MaxPreview && Text.StartsWith(Text.Strip(line), p[..97]) && p[97..] == "..."
  {
    var stripped := Text.Strip(line);
    if |stripped| > MaxPreview then stripped[..97] + "..." else stripped
  }

  /** The report line of a match on line `number` (1-based). */
  function MatchRow(number: nat, line: string): string
  {
    "  Line " + Text.NatToString(number) + ": " + Preview(line)
  }

  /** The report lines for the lines of one file that contain `needle`. */
  function MatchRows(lines: seq<string>, needle: string): seq<string>
  {
    if |lines| == 0 then []
    else
      MatchRows(lines[..|lines| - 1], needle)
      + (if Text.Contains(lines[|lines| - 1], needle) then [MatchRow(|lines|, lines[|lines| - 1])] else [])
  }

  /** Every line that contains `needle` is reported, under its 1-based number. */
  lemma {:induction false} MatchRowsComplete(lines: seq<string>, needle: string, j: nat)
    requires j < |lines| && Text.Contains(lines[j], needle)
    ensures MatchRow(j + 1, lines[j]) in MatchRows(lines, needle)
  {
    var front := lines[..|lines| - 1];
    if j < |lines| - 1 {
      assert front[j] == lines[j];
      MatchRowsComplete(front, needle, j);
    }
  }

  /** Every report line is the report of a line that contains `needle`. */
  lemma {:induction false} MatchRowsSound(lines: seq<string>, needle: string, m: string)
    requires m in MatchRows(lines, needle)
    ensures exists j :: 0 <= j < |lines| && Text.Contains(lines[j], needle) && m == MatchRow(j + 1, lines[j])
  {
    var front := lines[..|lines| - 1];
    if m in MatchRows(front, needle) {
      MatchRowsSound(front, needle, m);
      var j :| 0 <= j < |front| && Text.Contains(front[j], needle) && m == MatchRow(j + 1, front[j]);
      assert lines[j] == front[j];
    } else {
      assert m == MatchRow(|lines|, lines[|lines| - 1]);
    }
  }

  /** A file with no matching line contributes no report line. */
  lemma {:induction false} NoMatchNoRows(lines: seq<string>, needle: string)
    ensures MatchRows(lines, needle) == [] <==> forall j :: 0 <= j < |lines| ==> !Text.Contains(lines[j], needle)
  {
    if |lines| > 0 {
      NoMatchNoRows(lines[..|lines| - 1], needle);
    }
  }

  /** What one file adds to the report: its `> path` line, its match lines
      and an empty separator line, or nothing when nothing matched. */
  function FileResults(file: SourceFile, needle: string): seq<string>
  {
    match file.lines
    case None => []
    case Some(lines) =>
      var matches := MatchRows(lines, needle);
      if |matches| == 0 then [] else ["> " + file.path] + matches + [""]
  }

  /** The report lines of several files, file after file. */
  function SearchResults(files: seq<SourceFile>, needle: string): seq<string>
  {
    if |files| == 0 then []
    else SearchResults(files[..|files| - 1], needle) + FileResults(files[|files| - 1], needle)
  }

  /** The inner loop of `search_files`: the report line of every line of one
      file that contains `needle`, in order. */
  method MatchLines(lines: seq<string>, needle: string) returns (matches: seq<string>)
    ensures matches == MatchRows(lines, needle)
  {
    matches := [];
    var i := 0;
    while i < |lines|
      invariant 0 <= i <= |lines|
      invariant matches == MatchRows(lines[..i], needle)
    {
      var line := lines[i];
      var seen := lines[..i + 1];
      assert |seen| == i + 1 && seen[i] == line && seen[..i] == lines[..i];
      if Text.Contains(line, needle) {
        matches := matches + [MatchRow(i + 1, line)];
      }
      i := i + 1;
    }
    assert lines[..i] == lines;
  }

  /** `CodeEditor.search_files` over the listed files (the listing of the
      directory and the reading of each file are inputs): the report lines
      joined by newlines, trailing whitespace removed. */
  method SearchFiles(files: seq<SourceFile>, needle: string) returns (text: string)
    ensures text == Text.RStrip(Text.Join(SearchResults(files, needle), "\n"))
    ensures text == [] || !Text.IsSpace(text[|text| - 1])
  {
    var results: seq<string> := [];
    var f := 0;
    while f < |files|
      invariant 0 <= f <= |files|
      invariant results == SearchResults(files[..f], needle)
    {
      var file := files[f];
      if file.lines.Some? {
        var matches := MatchLines(file.lines.value, needle);
        if |matches| > 0 {
          results := results + (["> " + file.path] + matches + [""]);
        }
      }
      assert files[..f + 1][..f] == files[..f];
      assert results == SearchResults(files[..f], needle) + FileResults(file, needle);
      f := f + 1;
    }
    assert files[..f] == files;
    text := Text.RStrip(Text.Join(results, "\n"));
  }
}
