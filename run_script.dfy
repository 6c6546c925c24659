/** The older shell and terminal of `run.py`: the history holds `(command,
    output)` pairs, a record's header is `$ {command}`, `run_command` returns
    the output alone, and the terminal is a plain list of shells. The
    rendering algorithm is the one of `ShellTerminal`. */
module RunScript {
  import opened Wrappers
  import Text
  import ShellTerminal

  /** One `(command, output)` tuple of the older `Shell.history`. */
  datatype Entry = Entry(command: string, output: string)

  /** The first line of a rendered entry. */
  function Header(command: string): string
  {
    "$ " + command
  }

  /** A history as the `(header, result)` pairs the renderer works on. */
  function Entries(history: seq<Entry>): (entries: seq<(string, string)>)
    ensures |entries| == |history|
    ensures forall k :: 0 <= k < |history| ==> entries[k] == (Header(history[k].command), history[k].output)
  {
    seq(|history|, k requires 0 <= k < |history| => (Header(history[k].command), history[k].output))
  }

  /** What the older `Shell.__repr__` returns for a history. */
  function RenderHistory(history: seq<Entry>): string
  {
    ShellTerminal.RenderEntries(Entries(history))
  }

  /** Converting a history converts each part on its own. */
  lemma EntriesAppend(a: seq<Entry>, b: seq<Entry>)
    ensures Entries(a + b) == Entries(a) + Entries(b)
  {
    var l, r := Entries(a + b), Entries(a) + Entries(b);
    assert |l| == |r|;
    forall k | 0 <= k < |l|
      ensures l[k] == r[k]
    {
      if k < |a| {
        assert (a + b)[k] == a[k];
      } else {
        assert (a + b)[k] == b[k - |a|];
      }
    }
  }

  /** Only the last 20 entries are shown: entries older than those never
      change the text. */
  lemma RenderShowsLast20(older: seq<Entry>, recent: seq<Entry>)
    requires |recent| == ShellTerminal.MaxShownEntries
    ensures RenderHistory(older + recent) == RenderHistory(recent)
  {
    EntriesAppend(older, recent);
    var es := Entries(recent);
    assert es[|es| - ShellTerminal.MaxShownEntries..] == es;
    ShellTerminal.RenderOnlyLast20(Entries(older), es);
  }

  /** The newest entry is always shown: its header and clipped output close
      the rendered lines. */
  lemma RenderShowsNewest(history: seq<Entry>, newest: Entry)
    ensures var lines := ShellTerminal.BlockLines(ShellTerminal.LastN(Entries(history + [newest]), ShellTerminal.MaxShownEntries));
      var block := ShellTerminal.Block((Header(newest.command), newest.output));
      |lines| >= |block| && lines[|lines| - |block|..] == block
  {
    EntriesAppend(history, [newest]);
    ShellTerminal.RenderEndsWithNewest(Entries(history), (Header(newest.command), newest.output));
  }

  class Shell {
    var history: seq<Entry>

    constructor ()
      ensures history == []
    {
      history := [];
    }

    /** The older `Shell.__repr__`; the stored entries are only read. */
    method Repr() returns (text: string)
      ensures text == RenderHistory(history)
      ensures history == [] ==> text == ShellTerminal.NoHistory
    {
      text := ShellTerminal.Render(Entries(history));
    }

    /** The history effect of the older `run_command`: exactly one entry is
        appended, holding the very text that is returned (stdout, else stderr,
        or the exception text). The process outcome is a parameter. */
    method RunCommand(command: string, outcome: ShellTerminal.RunOutcome) returns (output: string)
      modifies this
      ensures output == ShellTerminal.RecordedOutput(outcome)
      ensures history == old(history) + [Entry(command, output)]
    {
      match outcome {
        case Completed(stdout, stderr) =>
          output := if stdout != "" then stdout else stderr;
        case Raised(message) =>
          output := message;
      }
      history := history + [Entry(command, output)];
    }
  }

  /** The position of the first occurrence of `x` in `s`. */
  function FirstIndex(s: seq<Shell>, x: Shell): (i: nat)
    requires x in s
    ensures i < |s| && s[i] == x && x !in s[..i]
  {
    if s[0] == x then 0 else 1 + FirstIndex(s[1..], x)
  }

  /** The first occurrence is the only one with no occurrence before it. */
  lemma {:induction false} FirstIndexUnique(s: seq<Shell>, x: Shell, i: nat)
    requires i < |s| && s[i] == x && x !in s[..i]
    ensures FirstIndex(s, x) == i
  {
    if i > 0 {
      assert s[0] == s[..i][0];
      assert s[1..][..i - 1] == s[..i][1..];
      FirstIndexUnique(s[1..], x, i - 1);
    }
  }

  /** The message of the `ValueError` that `list.remove` raises. */
  const NotInList := "list.remove(x): x not in list"

  /** Every shell's rendering, in list order. */
  function Renderings(shells: seq<Shell>): (r: seq<string>)
    reads shells
    ensures |r| == |shells|
    ensures forall k :: 0 <= k < |shells| ==> r[k] == RenderHistory(shells[k].history)
  {
    seq(|shells|, k requires 0 <= k < |shells| reads shells => RenderHistory(shells[k].history))
  }

  /** A shell added at the end adds its own rendering as a last line block,
      after a newline: the earlier renderings are untouched. */
  lemma DescribeAppends(shells: seq<Shell>, shell: Shell)
    requires |shells| > 0
    ensures Text.Join(Renderings(shells + [shell]), "\n")
      == Text.Join(Renderings(shells), "\n") + "\n" + RenderHistory(shell.history)
  {
    assert Renderings(shells + [shell]) == Renderings(shells) + [RenderHistory(shell.history)];
    Text.JoinSnoc(Renderings(shells), RenderHistory(shell.history), "\n");
  }

  /** The older `Terminal`: a list of shells, in creation order. */
  class Terminal {
    var shells: seq<Shell>

    constructor ()
      ensures shells == []
    {
      shells := [];
    }

    /** The older `Terminal.__repr__`: each shell's rendering, joined by
        newlines. No shell gives the empty text; otherwise the text ends with
        the rendering of the newest shell (and `DescribeAppends` says what a
        new shell adds). */
    function Describe(): (text: string)
      reads this, shells
      ensures shells == [] ==> text == ""
      ensures |shells| > 0 ==> Text.EndsWith(text, RenderHistory(shells[|shells| - 1].history))
    {
      Text.Join(Renderings(shells), "\n")
    }

    /** `create_shell`: a new shell with an empty history goes at the end of
        the list and is returned; the shells already there stay in place. */
    method CreateShell() returns (shell: Shell)
      modifies this
      ensures fresh(shell) && shell.history == []
      ensures shells == old(shells) + [shell]
    {
      shell := new Shell();
      shells := shells + [shell];
    }

    /** `close_shell`, i.e. `list.remove`: the first occurrence of `shell` goes,
        the others keep their order; an absent shell raises `ValueError`. */
    method CloseShell(shell: Shell) returns (r: Result<(), string>)
      modifies this
      ensures shell !in old(shells) ==> r == Err(NotInList) && shells == old(shells)
      ensures shell in old(shells) ==>
        && r == Ok(())
        && var i := FirstIndex(old(shells), shell);
           shells == old(shells)[..i] + old(shells)[i + 1..]
    {
      var i := 0;
      while i < |shells| && shells[i] != shell
        invariant 0 <= i <= |shells|
        invariant shell !in shells[..i]
      {
        assert shells[..i + 1] == shells[..i] + [shells[i]];
        i := i + 1;
      }
      if i == |shells| {
        assert shells[..i] == shells;
        return Err(NotInList);
      }
      FirstIndexUnique(shells, shell, i);
      shells := shells[..i] + shells[i + 1..];
      r := Ok(());
    }
  }
}
