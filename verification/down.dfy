/** `dcx down` (`src/down.rs`): stop the workspace's container, unmount it and remove the
    mount point; a workspace without a mount is a no-op. */
module Down {
  import opened Wrappers
  import opened Strings
  import opened Naming
  import opened MountTable
  import opened Cmd
  import opened Docker
  import opened Workspace
  import opened World
  import ExitCodes
  import Platform

  /** `nothing_to_do`. */
  function NothingToDo(ws: string): (r: string)
    ensures StartsWith(r, "No mount found for ") && Contains(r, ws) && Contains(r, "Nothing to do")
  {
    var a, b := "No mount found for ", ". Nothing to do.";
    ContainsMiddle(a, ws, b);
    assert (a + ws + b)[..|a|] == a;
    assert a + ws + b == (a + ws) + ". " + "Nothing to do" + ".";
    ContainsMiddle(a + ws + ". ", "Nothing to do", ".");
    a + ws + b
  }

  /** `workspace_missing_error`: what `down` prints instead of the resolver's error. It says
      the directory is gone and points to `dcx clean`. */
  function WorkspaceMissing(): (r: string)
    ensures Contains(r, "does not exist") && Contains(r, "dcx clean")
  {
    var a, b, c, d, e := "Workspace directory ", "does not exist", ". Use `", "dcx clean", "` to remove stale mounts.";
    ContainsMiddle(a, b, c + d + e);
    assert a + b + (c + d + e) == a + b + c + d + e;
    ContainsMiddle(a + b + c, d, e);
    a + b + c + d + e
  }

  const InterruptNotice: string := "Signal received, finishing unmount..."

  /** What the outside world answers during a `down`: `docker stop`, whether Ctrl+C arrived
      before the unmount, the unmount program, and `remove_dir`. */
  datatype DownOracle = DownOracle(stop: FsOutcome, interrupted: bool, unmount: Capture, rmdir: FsOutcome)

  /** The steps are a non-empty prefix of steps 7 to 9: stop, unmount, remove. */
  predicate InOrder(steps: seq<Step>, mp: string) {
    1 <= |steps| <= 3 && Effects(steps) == [StopContainer(mp), Unmount(mp), RemoveDir(mp)][..|steps|]
  }

  /** Steps 8 and 9 after a successful stop. A Ctrl+C does not stop the unmount, it only
      announces itself and turns success into exit 1. */
  function AfterStop(os: Platform.Os, mp: string, o: DownOracle): (r: Run)
    requires o.stop.Ok?
    ensures InOrder(r.steps, mp) && |r.steps| >= 2 && r.steps[0].ok
    ensures r.steps[1].ok <==> Succeeded(o.unmount)
    ensures |r.steps| == 3 <==> Succeeded(o.unmount)
    ensures |r.steps| == 3 ==> (r.steps[2].ok <==> o.rmdir.Ok?)
    ensures r.code == ExitCodes.Success <==> Succeeded(o.unmount) && o.rmdir.Ok? && !o.interrupted
    ensures r.code != ExitCodes.Success ==> r.code == ExitCodes.RuntimeError
    ensures o.interrupted ==> |r.err| > 0 && r.err[0] == InterruptNotice
    ensures r.code == ExitCodes.Success ==> r.err == []
    ensures r.out == []
  {
    var notice := if o.interrupted then [InterruptNotice] else [];
    var stopped := Step(StopContainer(mp), true);
    var u := DoUnmount(os, mp, o.unmount);
    if u.failure.Some? then
      EffectsTwo(stopped, u.steps[0]);
      var r := Run(ExitCodes.RuntimeError, [stopped] + u.steps, [], notice + [u.failure.value]);
      assert r.steps == [stopped, u.steps[0]];
      r
    else
      var d := RemoveMountDir(mp, o.rmdir);
      EffectsThree(stopped, u.steps[0], d.steps[0]);
      var steps := [stopped] + u.steps + d.steps;
      assert steps == [stopped, u.steps[0], d.steps[0]];
      if d.failure.Some? then Run(ExitCodes.RuntimeError, steps, [], notice + [d.failure.value])
      else Run(if o.interrupted then ExitCodes.RuntimeError else ExitCodes.Success, steps, [], notice)
  }

  /** Steps 7 to 9 for a mount point found in the table: stop, unmount, remove, each only
      when the one before it succeeded. */
  function TearDown(os: Platform.Os, mp: string, o: DownOracle): (r: Run)
    ensures InOrder(r.steps, mp)
    ensures forall i :: 0 <= i < |r.steps| - 1 ==> r.steps[i].ok
    ensures r.code == ExitCodes.Success <==>
      o.stop.Ok? && Succeeded(o.unmount) && o.rmdir.Ok? && !o.interrupted
    ensures r.code != ExitCodes.Success ==> r.code == ExitCodes.RuntimeError
    ensures r.steps[|r.steps| - 1].ok <==> |r.steps| == 3 && r.steps[2].ok
    ensures |r.steps| == 3 && r.steps[2].ok <==> o.stop.Ok? && Succeeded(o.unmount) && o.rmdir.Ok?
    ensures o.stop.Ok? && o.interrupted ==> |r.err| > 0 && r.err[0] == InterruptNotice
    ensures r.code == ExitCodes.Success ==> r.err == []
    ensures r.out == []
  {
    match o.stop
    case Err(e) =>
      var r := Run(ExitCodes.RuntimeError, [Step(StopContainer(mp), false)], [], [e]);
      assert Effects(r.steps)[0] == StopContainer(mp);
      r
    case Ok(_) => AfterStop(os, mp, o)
  }

  /** `run_down`. The early exits come in this order: Docker (1), the workspace (2, with
      the down-specific message), the recursion guard (2), and no mount in the table
      (0, nothing done); none of them touches the host. */
  function RunDown(env: Env, w: State, given: Option<string>, o: DownOracle): (r: Run)
    ensures !IsDockerAvailable(env.dockerInfo) ==> r == Exit(ExitCodes.RuntimeError, DockerUnavailable)
    ensures IsDockerAvailable(env.dockerInfo) && ResolveWorkspace(given, env.cwd, w.canonical).Err? ==>
      r == Exit(ExitCodes.UsageError, WorkspaceMissing())
    ensures IsDockerAvailable(env.dockerInfo) && ResolveWorkspace(given, env.cwd, w.canonical).Ok? ==>
      var ws := ResolveWorkspace(given, env.cwd, w.canonical).value;
      (IsManagedPath(ws, RelayDir(env.home)) ==> r == Exit(ExitCodes.UsageError, ManagedPathError)) &&
      (!IsManagedPath(ws, RelayDir(env.home)) && FindMountSource(ObservedTable(w), MountPoint(env, ws)).None? ==>
        r == Run(ExitCodes.Success, [], [NothingToDo(ws)], [])) &&
      (!IsManagedPath(ws, RelayDir(env.home)) && FindMountSource(ObservedTable(w), MountPoint(env, ws)).Some? ==>
        InOrder(r.steps, MountPoint(env, ws)))
    ensures r.code == ExitCodes.Success || r.code == ExitCodes.RuntimeError || r.code == ExitCodes.UsageError
    ensures r.code == ExitCodes.UsageError ==> r.steps == []
  {
    match Admit(env, w, given)
    case NoDocker => Exit(ExitCodes.RuntimeError, DockerUnavailable)
    case Unresolved(_) => Exit(ExitCodes.UsageError, WorkspaceMissing())
    case Nested(_) => Exit(ExitCodes.UsageError, ManagedPathError)
    case Admitted(ws) =>
      var mp := MountPoint(env, ws);
      if FindMountSource(ObservedTable(w), mp).None? then Run(ExitCodes.Success, [], [NothingToDo(ws)], [])
      else TearDown(env.os, mp, o)
  }

  // ---------------------------------------------------------------------------
  // Properties of the run
  // ---------------------------------------------------------------------------

  /** A Ctrl+C before the unmount changes nothing that is done: the same steps run, and
      the exit code becomes 1. */
  lemma InterruptFinishesUnmount(os: Platform.Os, mp: string, o: DownOracle)
    ensures TearDown(os, mp, o.(interrupted := true)).steps == TearDown(os, mp, o.(interrupted := false)).steps
    ensures TearDown(os, mp, o.(interrupted := true)).code == ExitCodes.RuntimeError
  {
  }

  /** A completed teardown leaves no mount, no mount point and no container behind. */
  lemma TearDownClears(os: Platform.Os, w: State, mp: string, o: DownOracle)
    requires o.stop.Ok? && Succeeded(o.unmount) && o.rmdir.Ok?
    ensures var after := Replay(w, TearDown(os, mp, o).steps);
      FindMountSource(after.table, mp).None? && mp !in after.present && mp !in after.containers
  {
    var a, b, c := Step(StopContainer(mp), true), Step(Unmount(mp), true), Step(RemoveDir(mp), true);
    assert TearDown(os, mp, o).steps == [a] + ([b] + [c]);
    ReplayAppend(w, [a], [b] + [c]);
    ReplayOne(w, a);
    var w1 := Apply(w, a.effect);
    ReplayAppend(w1, [b], [c]);
    ReplayOne(w1, b);
    var w2 := Apply(w1, b.effect);
    ReplayOne(w2, c);
  }

  /** A `dcx down` that exits 0 on a host whose mount table it can read leaves the
      workspace unmounted; when it did anything, the mount point and container are gone. */
  lemma DownUnmounts(env: Env, w: State, given: Option<string>, o: DownOracle)
    requires w.tableReadable
    requires RunDown(env, w, given, o).code == ExitCodes.Success
    ensures Admit(env, w, given).Admitted?
    ensures var mp := MountPoint(env, Admit(env, w, given).workspace);
      var r := RunDown(env, w, given, o);
      var after := Replay(w, r.steps);
      FindMountSource(after.table, mp).None? &&
      (r.steps != [] ==> mp !in after.present && mp !in after.containers)
  {
    var mp := MountPoint(env, Admit(env, w, given).workspace);
    if FindMountSource(w.table, mp).Some? {
      TearDownClears(env.os, w, mp, o);
    }
  }

  /** `dcx down` is idempotent: after one that exits 0, a second (whatever the outside world
      answers) finds nothing to do, changes nothing and exits 0. */
  lemma DownIdempotent(env: Env, w: State, given: Option<string>, o: DownOracle, o2: DownOracle)
    requires w.tableReadable
    requires RunDown(env, w, given, o).code == ExitCodes.Success
    ensures var after := Replay(w, RunDown(env, w, given, o).steps);
      var again := RunDown(env, after, given, o2);
      again.code == ExitCodes.Success && again.steps == [] &&
      again.out == [NothingToDo(Admit(env, w, given).workspace)]
  {
    var after := Replay(w, RunDown(env, w, given, o).steps);
    DownUnmounts(env, w, given, o);
    AdmitCanonical(env, w, after, given);
  }
}
