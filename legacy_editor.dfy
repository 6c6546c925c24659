/** The older `CodeEditor` class of the root `code_editor.py`: its
    `read_file` is the line-numbered rendering of `CodeEditing`, and
    `apply_diff` first makes sure the diff text ends with a newline before it
    hands the text to `git apply` (the patching itself is not modelled). */
module LegacyEditor {
  import opened Wrappers
  import Text
  import CodeEditing

  /** The diff text as written to the patch file: a newline is appended only
      when the text does not already end with one. */
  function NormalizeDiff(diff: string): (r: string)
    ensures Text.EndsWith(r, "\n")
    ensures Text.StartsWith(r, diff) && |r| <= |diff| + 1
    ensures Text.EndsWith(diff, "\n") ==> r == diff
  {
    if Text.EndsWith(diff, "\n") then diff else diff + "\n"
  }

  /** Normalising twice is normalising once. */
  lemma NormalizeDiffIdempotent(diff: string)
    ensures NormalizeDiff(NormalizeDiff(diff)) == NormalizeDiff(diff)
  {
  }

  class CodeEditor {
    /** Set to an empty dict by the constructor and never used again. */
    var files: map<string, string>

    constructor ()
      ensures files == map[]
    {
      files := map[];
    }

    /** `CodeEditor.read_file`: the same rows as the module-level `read_file`,
        joined by newlines; with a 1-based start they are the lines
        `start_line` to `min(end_line, number of lines)`. */
    method ReadFile(lines: seq<string>, startLine: int, endLine: Option<int>) returns (text: string)
      ensures text == Text.Join(CodeEditing.Rows(lines, startLine, endLine), "\n")
    {
      text := CodeEditing.ReadFile(lines, startLine, endLine);
    }
  }
}
