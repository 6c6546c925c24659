/** The shell-session manager of `src/autocode/terminal.py`: a `Shell` keeps an
    append-only history of `(timestamp, command, output)` records and renders
    the last 20 of them; a `Terminal` is a registry of shells by name.

    The rendering algorithm (last 20 entries, a header line per entry, its
    result clipped at 2000 characters) is shared with the older shell of
    `run.py`, which differs only in the header; it is written once here over
    `(header, result)` pairs. */
module ShellTerminal {
  import opened Wrappers
  import Text

  /** At most this many history entries are rendered. */
  const MaxShownEntries: nat := 20
  /** A result longer than this is cut when rendered. */
  const MaxResultChars: nat := 2000
  /** Appended to a result that was cut. */
  const ClipMarker := "\n...\n"
  /** The rendering of an empty history. */
  const NoHistory := "No commands executed yet"

  /** `s[-n:]`: the last `n` elements of `s`, or all of them when there are fewer. */
  function LastN<T>(s: seq<T>, n: nat): (r: seq<T>)
    ensures |r| == if |s| <= n then |s| else n
    ensures forall k :: 0 <= k < |r| ==> r[k] == s[|s| - |r| + k]
  {
    if |s| <= n then s else s[|s| - n..]
  }

  /** A result as it is displayed: never longer than 2000 characters plus the
      marker, and always starting with the result's own first characters. */
  function Clip(result: string): (c: string)
    ensures |c| <= MaxResultChars + |ClipMarker|
    ensures |result| <= MaxResultChars ==> c == result
    ensures |result| > MaxResultChars ==> |c| == MaxResultChars + |ClipMarker| && c[..MaxResultChars] == result[..MaxResultChars] && Text.EndsWith(c, ClipMarker)
  {
    if |result| > MaxResultChars then result[..MaxResultChars] + ClipMarker else result
  }

  /** The lines one history entry contributes: its header, then its clipped
      result unless that result is empty. */
  function Block(entry: (string, string)): seq<string>
  {
    [entry.0] + (if entry.1 != "" then [Clip(entry.1)] else [])
  }

  /** The lines of several entries, block after block, in stored order. */
  function BlockLines(entries: seq<(string, string)>): seq<string>
  {
    if |entries| == 0 then []
    else BlockLines(entries[..|entries| - 1]) + Block(entries[|entries| - 1])
  }

  /** The full rendering of a history given as `(header, result)` pairs. */
  function RenderEntries(entries: seq<(string, string)>): string
  {
    if |entries| == 0 then NoHistory
    else Text.Join(BlockLines(LastN(entries, MaxShownEntries)), "\n")
  }

  /** The loop of `__repr__`: collect header and clipped result of each of the
      last 20 entries into a list, then join it with newlines. */
  method Render(entries: seq<(string, string)>) returns (text: string)
    ensures text == RenderEntries(entries)
    ensures |entries| == 0 ==> text == NoHistory
  {
    if |entries| == 0 {
      return NoHistory;
    }
    var shown := LastN(entries, MaxShownEntries);
    var output: seq<string> := [];
    var i := 0;
    while i < |shown|
      invariant 0 <= i <= |shown|
      invariant output == BlockLines(shown[..i])
    {
      BlockLinesOfPrefix(shown, i);
      var header := shown[i].0;
      var result := shown[i].1;
      output := output + [header];
      if result != "" {
        if |result| > MaxResultChars {
          result := result[..MaxResultChars] + ClipMarker;
        }
        output := output + [result];
      }
      i := i + 1;
    }
    assert shown[..i] == shown;
    text := Text.Join(output, "\n");
  }

  /** One more entry rendered: its block follows the lines before it. */
  lemma BlockLinesOfPrefix(entries: seq<(string, string)>, i: nat)
    requires i < |entries|
    ensures BlockLines(entries[..i + 1]) == BlockLines(entries[..i]) + Block(entries[i])
  {
    var seen := entries[..i + 1];
    assert |seen| == i + 1 && seen[i] == entries[i] && seen[..i] == entries[..i];
  }

  /** How many entries have a non-empty result, i.e. contribute a second line. */
  function NonEmptyResults(entries: seq<(string, string)>): nat
  {
    if |entries| == 0 then 0
    else NonEmptyResults(entries[..|entries| - 1]) + (if entries[|entries| - 1].1 != "" then 1 else 0)
  }

  /** One header line per entry, plus one line per non-empty result: an empty
      result adds no line. */
  lemma {:induction false} BlockLinesCount(entries: seq<(string, string)>)
    ensures |BlockLines(entries)| == |entries| + NonEmptyResults(entries)
  {
    if |entries| > 0 {
      BlockLinesCount(entries[..|entries| - 1]);
    }
  }

  /** The lines of a prefix of the entries are a prefix of the lines. */
  lemma {:induction false} BlockLinesPrefix(entries: seq<(string, string)>, j: nat)
    requires j <= |entries|
    ensures BlockLines(entries[..j]) <= BlockLines(entries)
    decreases |entries| - j
  {
    if j < |entries| {
      var front := entries[..|entries| - 1];
      assert front[..j] == entries[..j];
      BlockLinesPrefix(front, j);
    } else {
      assert entries[..j] == entries;
    }
  }

  /** Entries are rendered in stored order: entry `k`'s block sits right after
      the blocks of the entries before it. */
  lemma EntryBlockInPlace(entries: seq<(string, string)>, k: nat)
    requires k < |entries|
    ensures var before := |BlockLines(entries[..k])|;
      && before + |Block(entries[k])| <= |BlockLines(entries)|
      && BlockLines(entries)[before..before + |Block(entries[k])|] == Block(entries[k])
  {
    BlockLinesPrefix(entries, k + 1);
    assert entries[..k + 1][..k] == entries[..k];
  }

  /** Only the last 20 entries are shown: whatever precedes them never changes
      the rendering. */
  lemma RenderOnlyLast20(older: seq<(string, string)>, entries: seq<(string, string)>)
    requires |entries| >= MaxShownEntries
    ensures RenderEntries(older + entries) == RenderEntries(entries[|entries| - MaxShownEntries..])
  {
    var all := older + entries;
    var tail := entries[|entries| - MaxShownEntries..];
    assert all[|all| - MaxShownEntries..] == tail;
    assert LastN(all, MaxShownEntries) == tail;
    assert LastN(tail, MaxShownEntries) == tail;
  }

  /** The newest entry is always shown, and its block closes the rendering. */
  lemma RenderEndsWithNewest(entries: seq<(string, string)>, newest: (string, string))
    ensures var lines := BlockLines(LastN(entries + [newest], MaxShownEntries));
      |lines| >= |Block(newest)| && lines[|lines| - |Block(newest)|..] == Block(newest)
  {
    var shown := LastN(entries + [newest], MaxShownEntries);
    assert shown[|shown| - 1] == newest;
  }

  /** One `(timestamp, command, output)` tuple of `Shell.history`. */
  datatype Record = Record(timestamp: string, command: string, output: string)

  /** What `subprocess.run` gave for one command, supplied from outside the
      model: the captured streams, or the text of the exception it raised. */
  datatype RunOutcome = Completed(stdout: string, stderr: string) | Raised(message: string)

  /** The text recorded for a command: stdout when it is not empty, otherwise
      stderr; the exception text when spawning failed. */
  function RecordedOutput(outcome: RunOutcome): string
  {
    match outcome
    case Completed(stdout, stderr) => if stdout != "" then stdout else stderr
    case Raised(message) => message
  }

  /** The first line of a rendered record. */
  function Header(timestamp: string, command: string): string
  {
    timestamp + " $ " + command
  }

  /** A history as the `(header, result)` pairs the renderer works on. */
  function Entries(history: seq<Record>): (entries: seq<(string, string)>)
    ensures |entries| == |history|
    ensures forall k :: 0 <= k < |history| ==>
      entries[k] == (Header(history[k].timestamp, history[k].command), history[k].output)
  {
    seq(|history|, k requires 0 <= k < |history| =>
      (Header(history[k].timestamp, history[k].command), history[k].output))
  }

  /** What `Shell.__repr__` returns for a history. */
  function RenderHistory(history: seq<Record>): string
  {
    RenderEntries(Entries(history))
  }

  /** After a command runs, the rendering ends with that command's header and
      (clipped) output, whatever came before. */
  lemma RunIsRenderedLast(history: seq<Record>, r: Record)
    ensures var lines := BlockLines(LastN(Entries(history + [r]), MaxShownEntries));
      var block := Block((Header(r.timestamp, r.command), r.output));
      |lines| >= |block| && lines[|lines| - |block|..] == block
  {
    assert Entries(history + [r]) == Entries(history) + [(Header(r.timestamp, r.command), r.output)];
    RenderEndsWithNewest(Entries(history), (Header(r.timestamp, r.command), r.output));
  }

  /** A terminal session: its command history, appended to and never edited. */
  class Shell {
    var history: seq<Record>

    constructor ()
      ensures history == []
    {
      history := [];
    }

    /** `Shell.__repr__`; the stored records are only read. */
    method Repr() returns (text: string)
      ensures text == RenderHistory(history)
      ensures history == [] ==> text == NoHistory
    {
      text := Render(Entries(history));
    }

    /** The history effect and the return value of `Shell.run_command`; the
        process is not run here, its outcome is a parameter, and so is the
        timestamp taken from the clock. One record is appended on the success
        path and on the exception path alike. */
    method RunCommand(command: string, timestamp: string, outcome: RunOutcome) returns (shown: string)
      modifies this
      ensures history == old(history) + [Record(timestamp, command, RecordedOutput(outcome))]
      ensures shown == Header(timestamp, command) + "\n" + RecordedOutput(outcome)
    {
      var output: string;
      match outcome {
        case Completed(stdout, stderr) =>
          output := if stdout != "" then stdout else stderr;
        case Raised(message) =>
          output := message;
      }
      history := history + [Record(timestamp, command, output)];
      shown := timestamp + " $ " + command + "\n" + output;
    }
  }

  /** The two `ValueError`s of the registry. */
  datatype RegistryError = AlreadyExists(name: string) | DoesNotExist(name: string)
  {
    function Message(): string
    {
      match this
      case AlreadyExists(name) => "Shell " + name + " already exists"
      case DoesNotExist(name) => "Shell " + name + " does not exist"
    }
  }

  /** `xs` without the element `x`, the rest in order. */
  function Without(xs: seq<string>, x: string): (r: seq<string>)
    ensures forall y :: y in r <==> y in xs && y != x
    ensures |r| <= |xs|
  {
    if |xs| == 0 then []
    else if xs[|xs| - 1] == x then Without(xs[..|xs| - 1], x)
    else Without(xs[..|xs| - 1], x) + [xs[|xs| - 1]]
  }

  ghost predicate Distinct(xs: seq<string>)
  {
    forall i, j :: 0 <= i < j < |xs| ==> xs[i] != xs[j]
  }

  lemma {:induction false} WithoutKeepsDistinct(xs: seq<string>, x: string)
    requires Distinct(xs)
    ensures Distinct(Without(xs, x))
  {
    if |xs| > 0 {
      var front, last := xs[..|xs| - 1], xs[|xs| - 1];
      WithoutKeepsDistinct(front, x);
      if last != x {
        assert last !in front;
        assert last !in Without(front, x);
      }
    }
  }

  /** A list without repetitions has as many elements as its set. */
  lemma {:induction false} DistinctCardinality(xs: seq<string>)
    requires Distinct(xs)
    ensures |set x | x in xs| == |xs|
  {
    if |xs| > 0 {
      var front := xs[..|xs| - 1];
      DistinctCardinality(front);
      assert (set x | x in xs) == (set x | x in front) + {xs[|xs| - 1]};
    }
  }

  /** The `"- {name}"` lines of the registry listing. */
  function Listing(names: seq<string>): seq<string>
  {
    seq(|names|, i requires 0 <= i < |names| => "- " + names[i])
  }

  /** The registry of named shells: `Terminal.shells`. A Python dict keeps its
      keys in insertion order, which `names` records. */
  class Terminal {
    var shells: map<string, Shell>
    var names: seq<string>

    ghost predicate Valid()
      reads this
    {
      Distinct(names) && forall n :: n in shells <==> n in names
    }

    constructor ()
      ensures Valid() && shells == map[] && names == []
    {
      shells := map[];
      names := [];
    }

    /** `Terminal.__repr__`: a title line, then one line per shell name. */
    function Describe(): (text: string)
      reads this
      ensures Text.StartsWith(text, "Shells:\n")
    {
      "Shells:\n" + Text.Join(Listing(names), "\n")
    }

    /** `Terminal.create_shell`. Without a name the shell's identity is used;
        that token is a parameter here. A name already registered is refused
        and nothing changes; otherwise exactly one entry is added. */
    method CreateShell(name: Option<string>, identity: string) returns (r: Result<Shell, RegistryError>)
      requires Valid()
      modifies this
      ensures Valid()
      ensures var key := if name.Some? then name.value else identity;
        if key in old(shells) then
          r == Err(AlreadyExists(key)) && shells == old(shells) && names == old(names)
        else
          && r.Ok? && fresh(r.value) && r.value.history == []
          && shells == old(shells)[key := r.value] && names == old(names) + [key]
    {
      var shell := new Shell();
      var key := if name.Some? then name.value else identity;
      if key in shells {
        return Err(AlreadyExists(key));
      }
      shells := shells[key := shell];
      names := names + [key];
      r := Ok(shell);
    }

    /** `Terminal.close_shell`: an absent name is refused and nothing changes;
        otherwise exactly that name is removed and every other entry stays. */
    method CloseShell(name: string) returns (r: Result<(), RegistryError>)
      requires Valid()
      modifies this
      ensures Valid()
      ensures name !in old(shells) ==> r == Err(DoesNotExist(name)) && shells == old(shells) && names == old(names)
      ensures name in old(shells) ==> r == Ok(()) && shells == old(shells) - {name} && names == Without(old(names), name)
    {
      if name !in shells {
        return Err(DoesNotExist(name));
      }
      shells := shells - {name};
      WithoutKeepsDistinct(names, name);
      names := Without(names, name);
      r := Ok(());
    }
  }

  /** The listing has one line per registered shell, and a line `- n` exactly
      for each registered name `n`. */
  lemma DescribeListsEveryShell(t: Terminal)
    requires t.Valid()
    ensures |Listing(t.names)| == |t.shells|
    ensures forall n :: n in t.shells <==> "- " + n in Listing(t.names)
  {
    DistinctCardinality(t.names);
    assert t.shells.Keys == set x | x in t.names;
    forall n
      ensures n in t.shells <==> "- " + n in Listing(t.names)
    {
      if "- " + n in Listing(t.names) {
        var i :| 0 <= i < |t.names| && Listing(t.names)[i] == "- " + n;
        assert ("- " + t.names[i])[2..] == t.names[i];
        assert ("- " + n)[2..] == n;
      }
      if n in t.shells {
        var i :| 0 <= i < |t.names| && t.names[i] == n;
        assert Listing(t.names)[i] == "- " + n;
      }
    }
  }
}
