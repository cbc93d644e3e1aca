/** Subprocess results and the dry-run rendering of a command line (`src/cmd.rs`).
    Running a program is outside the model: its outcome is an input. */
module Cmd {
  import opened Wrappers
  import opened Strings
  import ExitCodes

  /** What `run_capture` returns for a program that started. */
  datatype CaptureOutput = CaptureOutput(stdout: string, stderr: string, status: int)

  /** `run_capture`: the captured output, or the spawn error text. */
  type Capture = Result<CaptureOutput, string>

  /** `run_stream`: the child's exit code, or the spawn error text. */
  type Stream = Result<int, string>

  /** The message `run_capture` and `run_stream` give when `prog` cannot be started. */
  function SpawnError(prog: string, reason: string): (r: string)
    ensures StartsWith(r, "Failed to run " + prog)
  {
    var r := "Failed to run " + prog + ": " + reason;
    assert r[..|"Failed to run " + prog|] == "Failed to run " + prog;
    r
  }

  /** A captured run that started and exited with status 0. */
  predicate Succeeded(c: Capture) {
    c.Ok? && c.value.status == 0
  }

  /** The error text for a failed captured run of `prog`: the spawn error, or
      `<prog> failed (exit N): <stderr trimmed>`. */
  function FailureText(prog: string, c: Capture): (r: string)
    requires !Succeeded(c)
    ensures c.Err? ==> r == c.error
    ensures c.Ok? ==> StartsWith(r, prog + " failed (exit ")
  {
    if c.Err? then c.error
    else
      var r := prog + " failed (exit " + IntToString(c.value.status) + "): " + Trim(c.value.stderr);
      assert r[..|prog + " failed (exit "|] == prog + " failed (exit ";
      r
  }

  /** `run_stream(...).unwrap_or(PREREQ_NOT_FOUND)`: the exit code, 127 when spawning failed. */
  function StreamCode(s: Stream): (code: int)
    ensures s.Ok? ==> code == s.value
    ensures s.Err? ==> code == ExitCodes.PrereqNotFound
  {
    match s
    case Ok(c) => c
    case Err(_) => ExitCodes.PrereqNotFound
  }

  /** `display_cmd`: the program and its arguments separated by single spaces, unquoted. */
  function DisplayCmd(prog: string, args: seq<string>): (r: string)
    ensures StartsWith(r, prog)
    ensures args == [] ==> r == prog
  {
    JoinPrefix(prog, args);
    Join([prog] + args, " ")
  }

  /** A join starts with its first part. */
  lemma {:induction false} JoinPrefix(first: string, rest: seq<string>)
    ensures StartsWith(Join([first] + rest, " "), first)
  {
    if |rest| > 0 {
      JoinCons(first, rest, " ");
      assert Join([first] + rest, " ")[..|first|] == first;
    } else {
      assert [first] + rest == [first];
    }
  }

  /** One more argument is one more space and the argument, verbatim. */
  lemma {:induction false} DisplayCmdSnoc(prog: string, args: seq<string>, a: string)
    ensures DisplayCmd(prog, args + [a]) == DisplayCmd(prog, args) + " " + a
  {
    if |args| == 0 {
      assert [prog] + [a] == [prog] + [a];
      JoinCons(prog, [a], " ");
    } else {
      var rest := args[1..];
      assert [prog] + (args + [a]) == [prog] + ([args[0]] + (rest + [a]));
      JoinCons(prog, args + [a], " ");
      JoinCons(prog, args, " ");
      JoinSnoc(args, a);
      assert ([prog] + (args + [a]))[1..] == args + [a];
      assert ([prog] + args)[1..] == args;
    }
  }

  /** Joining with a space distributes over appending one part. */
  lemma {:induction false} JoinSnoc(parts: seq<string>, a: string)
    requires |parts| > 0
    ensures Join(parts + [a], " ") == Join(parts, " ") + " " + a
  {
    if |parts| == 1 {
      JoinCons(parts[0], [a], " ");
      assert parts + [a] == [parts[0]] + [a];
    } else {
      JoinSnoc(parts[1..], a);
      assert (parts + [a])[1..] == parts[1..] + [a];
      JoinCons(parts[0], parts[1..] + [a], " ");
      JoinCons(parts[0], parts[1..], " ");
      assert parts == [parts[0]] + parts[1..];
      assert parts + [a] == [parts[0]] + (parts[1..] + [a]);
    }
  }

  /** Splitting the rendering on spaces gives the command back when no part holds a space. */
  lemma DisplayCmdSplit(prog: string, args: seq<string>)
    requires ' ' !in prog
    requires forall i :: 0 <= i < |args| ==> ' ' !in args[i]
    ensures Split(DisplayCmd(prog, args), ' ') == [prog] + args
  {
    var parts := [prog] + args;
    assert forall i :: 0 <= i < |parts| ==> ' ' !in parts[i] by {
      forall i | 0 <= i < |parts| ensures ' ' !in parts[i] {
        if i > 0 { assert parts[i] == args[i - 1]; }
      }
    }
    SplitJoin(parts, ' ');
  }
}
