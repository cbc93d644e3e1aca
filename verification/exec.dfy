/** `dcx exec` (`src/exec.rs`): run a command in the devcontainer of a mounted workspace,
    addressing it by its mount point. */
module Exec {
  import opened Wrappers
  import opened Strings
  import opened Naming
  import opened MountTable
  import opened Cmd
  import opened Docker
  import opened Workspace
  import opened World
  import ExitCodes

  /** `no_mount_error`. */
  function NoMountError(ws: string): (r: string)
    ensures StartsWith(r, "No mount found for ") && Contains(r, ws) && Contains(r, "dcx up")
  {
    var a, b := "No mount found for ", ". Run `dcx up` first.";
    ContainsMiddle(a, ws, b);
    assert (a + ws + b)[..|a|] == a;
    assert a + ws + b == (a + ws + ". Run `") + "dcx up" + "` first.";
    ContainsMiddle(a + ws + ". Run `", "dcx up", "` first.");
    a + ws + b
  }

  /** `stale_mount_error`: the mount is stale, and `dcx up` remounts it. */
  function StaleMountError(): (r: string)
    ensures Contains(r, "stale") && Contains(r, "dcx up") && Contains(r, "remount")
  {
    var a, b, c, d, e, f, g := "Mount is ", "stale", ". Run `", "dcx up", "` to ", "remount", ".";
    ContainsMiddle(a, b, c + d + e + f + g);
    assert a + b + (c + d + e + f + g) == a + b + c + d + e + f + g;
    ContainsMiddle(a + b + c, d, e + f + g);
    assert a + b + c + d + (e + f + g) == a + b + c + d + e + f + g;
    ContainsMiddle(a + b + c + d + e, f, g);
    a + b + c + d + e + f + g
  }

  /** The arguments given to `devcontainer`: the mount point as the workspace folder, then
      the user's command after a `--` (left out when there is no command). */
  function ExecArgs(mp: string, command: seq<string>): (args: seq<string>)
    ensures |args| >= 3 && args[..3] == ["exec", "--workspace-folder", mp]
    ensures command == [] ==> |args| == 3
    ensures command != [] ==> |args| == 4 + |command| && args[3] == "--" && args[4..] == command
  {
    ["exec", "--workspace-folder", mp] + (if command == [] then [] else ["--"] + command)
  }

  /** The command an argument list runs: everything after the `--`. */
  function CommandOf(args: seq<string>): (command: seq<string>)
    ensures |args| <= 4 ==> command == []
    ensures |args| > 4 ==> |command| == |args| - 4 && command == args[4..]
  {
    if |args| <= 4 then [] else args[4..]
  }

  /** The arguments determine the mount point and the command: the user's words come back
      unchanged, whatever they look like (`--`, options, empty strings). */
  lemma ExecArgsRoundTrip(mp: string, command: seq<string>)
    ensures ExecArgs(mp, command)[2] == mp
    ensures CommandOf(ExecArgs(mp, command)) == command
  {
    var args := ExecArgs(mp, command);
    assert args[..3][2] == args[2];
  }

  /** Two runs with the same arguments target the same mount point with the same command. */
  lemma ExecArgsInjective(mp: string, command: seq<string>, mp2: string, command2: seq<string>)
    requires ExecArgs(mp, command) == ExecArgs(mp2, command2)
    ensures mp == mp2 && command == command2
  {
    ExecArgsRoundTrip(mp, command);
    ExecArgsRoundTrip(mp2, command2);
  }

  /** `run_exec`. The exits come in this order: Docker (1), the workspace (2, the resolver's
      error), the recursion guard (2), no mount in the table (1), a stale mount (1); then the
      command runs and its exit code is returned (127 when `devcontainer` cannot start). */
  function RunExec(env: Env, w: State, given: Option<string>, command: seq<string>, child: Stream): (r: Run)
    ensures !IsDockerAvailable(env.dockerInfo) ==> r == Exit(ExitCodes.RuntimeError, DockerUnavailable)
    ensures IsDockerAvailable(env.dockerInfo) && ResolveWorkspace(given, env.cwd, w.canonical).Err? ==>
      r == Exit(ExitCodes.UsageError, ResolveWorkspace(given, env.cwd, w.canonical).error)
    ensures IsDockerAvailable(env.dockerInfo) && ResolveWorkspace(given, env.cwd, w.canonical).Ok? ==>
      var ws := ResolveWorkspace(given, env.cwd, w.canonical).value;
      var mp := MountPoint(env, ws);
      (IsManagedPath(ws, RelayDir(env.home)) ==> r == Exit(ExitCodes.UsageError, ManagedPathError)) &&
      (!IsManagedPath(ws, RelayDir(env.home)) && FindMountSource(ObservedTable(w), mp).None? ==>
        r == Exit(ExitCodes.RuntimeError, NoMountError(ws))) &&
      (!IsManagedPath(ws, RelayDir(env.home)) && FindMountSource(ObservedTable(w), mp).Some? && mp !in w.present ==>
        r == Exit(ExitCodes.RuntimeError, StaleMountError())) &&
      (!IsManagedPath(ws, RelayDir(env.home)) && FindMountSource(ObservedTable(w), mp).Some? && mp in w.present ==>
        r.code == StreamCode(child) && Effects(r.steps) == [DevcontainerExec(ExecArgs(mp, command))])
    ensures |r.steps| <= 1
  {
    match Admit(env, w, given)
    case NoDocker => Exit(ExitCodes.RuntimeError, DockerUnavailable)
    case Unresolved(e) => Exit(ExitCodes.UsageError, e)
    case Nested(_) => Exit(ExitCodes.UsageError, ManagedPathError)
    case Admitted(ws) =>
      var mp := MountPoint(env, ws);
      if FindMountSource(ObservedTable(w), mp).None? then Exit(ExitCodes.RuntimeError, NoMountError(ws))
      else if mp !in w.present then Exit(ExitCodes.RuntimeError, StaleMountError())
      else
        var step := Step(DevcontainerExec(ExecArgs(mp, command)), StreamCode(child) == 0);
        assert Effects([step])[0] == step.effect;
        Run(StreamCode(child), [step], [], [])
  }

  /** `dcx exec` leaves the host as it found it: no mount, directory or container changes,
      whatever the command does inside the container. */
  lemma ExecChangesNothing(env: Env, w: State, given: Option<string>, command: seq<string>, child: Stream)
    ensures Replay(w, RunExec(env, w, given, command, child).steps) == w
  {
    var r := RunExec(env, w, given, command, child);
    if r.steps != [] {
      ReplayOne(w, r.steps[0]);
      assert r.steps == [r.steps[0]];
    }
  }

  /** The command runs only in a healthy mount of the workspace itself: one the table knows
      and whose mount point is reachable. */
  lemma ExecOnlyOnHealthyMount(env: Env, w: State, given: Option<string>, command: seq<string>, child: Stream)
    requires RunExec(env, w, given, command, child).steps != []
    ensures Admit(env, w, given).Admitted?
    ensures var mp := MountPoint(env, Admit(env, w, given).workspace);
      FindMountSource(ObservedTable(w), mp).Some? && mp in w.present &&
      RunExec(env, w, given, command, child).steps[0].effect == DevcontainerExec(ExecArgs(mp, command))
  {
  }
}
