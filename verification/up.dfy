/** `dcx up` (`src/up.rs`): the plan and error texts, mounting with clean-up, the
    reconcile decision, and the run itself with its rollback. */
module Up {
  import opened Wrappers
  import opened Strings
  import opened Paths
  import opened Naming
  import opened MountTable
  import opened Cmd
  import opened Docker
  import opened Workspace
  import opened Categorize
  import opened World
  import ExitCodes

  // ---------------------------------------------------------------------------
  // tilde_path
  // ---------------------------------------------------------------------------

  /** `tilde_path`: `~` for the home directory itself, `~/<rest>` below it (compared
      component by component), the path unchanged elsewhere. */
  function TildePath(path: string, home: string): (r: string)
    ensures StripPrefix(path, home).None? ==> r == path
    ensures StripPrefix(path, home) == Some([]) ==> r == "~"
    ensures StripPrefix(path, home).Some? ==> StartsWith(r, "~")
  {
    match StripPrefix(path, home)
    case None => path
    case Some(rest) =>
      var rel := Render(rest);
      if rel == "" then "~" else "~/" + rel
  }

  lemma RenderOne(n: string)
    requires ValidName(n)
    ensures Render([Normal(n)]) == n
  {
    assert Texts([Normal(n)]) == [n];
  }

  lemma RenderTwo(a: string, b: string)
    requires ValidName(a) && ValidName(b)
    ensures Render([Normal(a), Normal(b)]) == a + "/" + b
  {
    assert Texts([Normal(a), Normal(b)]) == [a, b];
    JoinCons(a, [b], "/");
  }

  /** The home directory is shown as `~`. */
  lemma TildeHome(home: string)
    ensures TildePath(home, home) == "~"
  {
    StripSelf(home);
  }

  /** A path strictly below the home directory is shown as `~/` and the rest. */
  lemma TildeBelow(path: string, home: string, rest: seq<Component>)
    requires StripPrefix(path, home) == Some(rest) && Render(rest) != ""
    ensures TildePath(path, home) == "~/" + Render(rest)
  {
  }

  /** A name directly under the home directory is shown as `~/<name>`. */
  lemma TildeChild(home: string, n: string)
    requires ValidName(n)
    ensures TildePath(JoinPath(home, n), home) == "~/" + n
  {
    StripJoinName(home, n);
    RenderOne(n);
    TildeBelow(JoinPath(home, n), home, [Normal(n)]);
  }

  /** Two names under the home directory are shown as `~/<a>/<b>`. */
  lemma TildeGrandchild(home: string, a: string, b: string)
    requires ValidName(a) && ValidName(b)
    ensures TildePath(JoinPath(JoinPath(home, a), b), home) == "~/" + a + "/" + b
  {
    StripJoinTwoNames(home, a, b);
    RenderTwo(a, b);
    TildeBelow(JoinPath(JoinPath(home, a), b), home, [Normal(a), Normal(b)]);
  }

  /** A sibling of the home directory is not abbreviated, even when the home directory's
      text is a prefix of its text (`/home/user2` against `/home/user`). */
  lemma TildeSibling(parent: string, a: string, b: string)
    requires ValidName(a) && ValidName(b) && a != b
    ensures TildePath(JoinPath(parent, b), JoinPath(parent, a)) == JoinPath(parent, b)
  {
    ComponentsJoinName(parent, a);
    ComponentsJoinName(parent, b);
    var home, path := Components(JoinPath(parent, a)), Components(JoinPath(parent, b));
    assert |home| == |path|;
    assert home[|home| - 1] != path[|home| - 1];
  }

  // ---------------------------------------------------------------------------
  // The dry-run plan and the collision message
  // ---------------------------------------------------------------------------

  function PlanMountLine(ws: string, tildeMount: string): string {
    "Would mount: " + ws + " \U{2192} " + tildeMount
  }

  function PlanRunLine(tildeMount: string): string {
    "Would run: " + DisplayCmd("devcontainer", ["up", "--workspace-folder", tildeMount])
  }

  /** The command shown is `devcontainer up --workspace-folder <tilde M>`, spelled out. */
  lemma PlanRunLineText(t: string)
    ensures PlanRunLine(t) == "Would run: devcontainer up --workspace-folder " + t
  {
    JoinCons("--workspace-folder", [t], " ");
    assert ["up", "--workspace-folder", t] == ["up"] + ["--workspace-folder", t];
    JoinCons("up", ["--workspace-folder", t], " ");
    assert ["devcontainer"] + ["up", "--workspace-folder", t] ==
      ["devcontainer", "up", "--workspace-folder", t];
    JoinCons("devcontainer", ["up", "--workspace-folder", t], " ");
    Regroup("Would run: ", "devcontainer", " ", "up", " ", "--workspace-folder", " ", t);
    RunLinePrefix();
  }

  /** The fixed text in front of the mount point. */
  lemma RunLinePrefix()
    ensures "Would run: " + "devcontainer" + " " + "up" + " " + "--workspace-folder" + " " ==
      "Would run: devcontainer up --workspace-folder "
  {
  }

  lemma Regroup(a: string, b: string, c: string, d: string, e: string, f: string, g: string, t: string)
    ensures a + (b + c + (d + e + (f + g + t))) == (a + b + c + d + e + f + g) + t
  {
  }

  /** `dry_run_plan`: exactly two lines, the mount and the command that would run. */
  function DryRunPlan(ws: string, mountPoint: string, home: string): (r: string)
    ensures var t := TildePath(mountPoint, home);
      '\n' !in ws && '\n' !in t ==> Split(r, '\n') == [PlanMountLine(ws, t), PlanRunLine(t)]
  {
    var t := TildePath(mountPoint, home);
    PlanLinesSplit(ws, t);
    PlanMountLine(ws, t) + "\n" + PlanRunLine(t)
  }

  /** The fixed texts of the plan lines are single lines. */
  lemma PlanTextsNoBreak()
    ensures '\n' !in "Would mount: " && '\n' !in " \U{2192} "
    ensures '\n' !in "Would run: devcontainer up --workspace-folder "
  {
    assert '\n' !in "Would mount: " && '\n' !in " \U{2192} ";
    assert '\n' !in "Would run: devcontainer up --workspace-folder ";
  }

  lemma PlanLinesSplit(ws: string, t: string)
    ensures '\n' !in ws && '\n' !in t ==>
      Split(PlanMountLine(ws, t) + "\n" + PlanRunLine(t), '\n') == [PlanMountLine(ws, t), PlanRunLine(t)]
  {
    var first, second := PlanMountLine(ws, t), PlanRunLine(t);
    if '\n' !in ws && '\n' !in t {
      PlanRunLineText(t);
      PlanTextsNoBreak();
      assert '\n' !in first && '\n' !in second;
      SplitAt(first, second, '\n');
      assert IndexOf(second, '\n').None?;
    }
  }

  /** For a mount point the run computes, the plan names it relative to home:
      `~/.colima-mounts/<mount name>`. */
  lemma DryRunPlanMountPoint(env: Env, ws: string)
    ensures TildePath(MountPoint(env, ws), env.home) == "~/" + RelayName + "/" + MountName(ws, env.sha)
  {
    RelayNameValid();
    TildeGrandchild(env.home, RelayName, MountName(ws, env.sha));
  }

  /** `collision_error`: names both sources, the shared hash and the way out. */
  function CollisionError(ws: string, found: string, hash: string): (r: string)
    ensures Contains(r, ws) && Contains(r, found) && Contains(r, hash) && Contains(r, "dcx clean")
  {
    var a := "\U{2717} Mount point already exists but points to wrong source!\n   Expected: ";
    var b := "\n   Found:    ";
    var c := "\n\nHash collision detected (both hash to ";
    var d := ").\nThis is extremely rare (~1 in 4 billion).\nRun `";
    var e := "` to reset and retry.";
    Interleaved(a, ws, b, found, c, hash, d, "dcx clean", e);
    a + ws + b + found + c + hash + d + "dcx clean" + e
  }

  /** A text made by interleaving fixed pieces with `x`, `y`, `z` and `k` contains each. */
  lemma Interleaved(a: string, x: string, b: string, y: string, c: string, z: string, d: string,
                    k: string, e: string)
    ensures var s := a + x + b + y + c + z + d + k + e;
      Contains(s, x) && Contains(s, y) && Contains(s, z) && Contains(s, k)
  {
    var s := a + x + b + y + c + z + d + k + e;
    var i := |a|;
    var j := i + |x| + |b|;
    var l := j + |y| + |c|;
    var m := l + |z| + |d|;
    assert s[i..i + |x|] == x;
    assert s[j..j + |y|] == y;
    assert s[l..l + |z|] == z;
    assert s[m..m + |k|] == k;
    ContainsWitness(s, x, i);
    ContainsWitness(s, y, j);
    ContainsWitness(s, z, l);
    ContainsWitness(s, k, m);
  }

  /** The message when the workspace has no devcontainer configuration: it names the
      workspace, as the last thing before the closing period. */
  function NoConfigError(ws: string): (r: string)
    ensures StartsWith(r, "No devcontainer configuration found in ")
    ensures EndsWith(r, ws + ".") && Contains(r, ws)
  {
    var a := "No devcontainer configuration found in ";
    ContainsMiddle(a, ws, ".");
    assert (a + ws + ".")[..|a|] == a;
    assert (a + ws + ".")[|a|..] == ws + ".";
    a + ws + "."
  }

  // ---------------------------------------------------------------------------
  // Reconcile
  // ---------------------------------------------------------------------------

  /** What step 9 of `run_up` does with the mount point. */
  datatype Reconcile =
    | Reuse                    // healthy mount of this workspace
    | Collision(found: string) // healthy mount of another source
    | MountNew                 // not in the mount table: mount
    | Remount                  // in the table but not accessible: unmount, then mount

  function Decide(accessible: bool, source: Option<string>, ws: string): (r: Reconcile)
    ensures r == Reuse <==> accessible && source == Some(ws)
    ensures r.Collision? <==> accessible && source.Some? && source.value != ws
    ensures r.Collision? ==> r.found == source.value
    ensures r == MountNew <==> source.None?
    ensures r == Remount <==> !accessible && source.Some?
  {
    if accessible then
      match source
      case Some(s) => if s == ws then Reuse else Collision(s)
      case None => MountNew
    else if source.Some? then Remount
    else MountNew
  }

  /** The decision follows the mount's category: an Empty entry is mounted, a Stale one is
      remounted, a healthy one (Active or Orphaned) is reused or reported as a collision. */
  lemma DecideByCategory(accessible: bool, source: Option<string>, ws: string, hasContainer: bool)
    ensures var st := Categorize.Categorize(source.Some?, accessible, hasContainer);
      var d := Decide(accessible, source, ws);
      (st == Empty <==> d == MountNew) &&
      (st == Stale <==> d == Remount) &&
      (st == Active || st == Orphaned <==> d == Reuse || d.Collision?)
  {
  }

  // ---------------------------------------------------------------------------
  // Mounting, rollback
  // ---------------------------------------------------------------------------

  /** `do_mount`: create the mount point, then bind-mount the workspace onto it. When
      bindfs runs but fails, the directory is removed again; when it cannot be started, it
      is left in place. */
  function DoMount(ws: string, mp: string, mkdir: FsOutcome, bindfs: Capture, cleanup: FsOutcome): (r: Attempt)
    ensures r.failure.None? <==> mkdir.Ok? && Succeeded(bindfs)
    ensures r.failure.None? ==> r.steps == [Step(MakeDir(mp), true), Step(Bindfs(ws, mp), true)]
    ensures mkdir.Err? ==> r.steps == [Step(MakeDir(mp), false)]
    ensures mkdir.Ok? && bindfs.Err? ==> Effects(r.steps) == [MakeDir(mp), Bindfs(ws, mp)]
    ensures mkdir.Ok? && bindfs.Ok? && bindfs.value.status != 0 ==>
      Effects(r.steps) == [MakeDir(mp), Bindfs(ws, mp), RemoveDir(mp)]
    ensures |r.steps| > 0 && r.steps[0].effect == MakeDir(mp)
  {
    match mkdir
    case Err(e) => Attempt([Step(MakeDir(mp), false)], Some("Failed to create " + mp + ": " + e))
    case Ok(_) =>
      var made := Step(MakeDir(mp), true);
      match bindfs
      case Err(e) =>
        EffectsTwo(made, Step(Bindfs(ws, mp), false));
        Attempt([made, Step(Bindfs(ws, mp), false)], Some(e))
      case Ok(out) =>
        if out.status != 0 then
          EffectsThree(made, Step(Bindfs(ws, mp), false), Step(RemoveDir(mp), cleanup.Ok?));
          Attempt([made, Step(Bindfs(ws, mp), false), Step(RemoveDir(mp), cleanup.Ok?)],
            Some("bindfs mount failed (exit " + IntToString(out.status) + "): " + Trim(out.stderr)))
        else Attempt([made, Step(Bindfs(ws, mp), true)], None)
  }

  /** `rollback`: unmount and remove the directory; a failed unmount does not stop the
      removal. Returns the steps and the warnings printed. */
  function Rollback(os: Platform.Os, mp: string, unmount: Capture, rmdir: FsOutcome): (r: (seq<Step>, seq<string>))
    ensures Effects(r.0) == [Unmount(mp), RemoveDir(mp)]
    ensures r.0[0].ok == Succeeded(unmount) && r.0[1].ok == rmdir.Ok?
    ensures |r.1| > 0 && r.1[|r.1| - 1] == "Mount rolled back."
  {
    var u := DoUnmount(os, mp, unmount);
    var d := RemoveMountDir(mp, rmdir);
    var w1 := if u.failure.Some? then ["Warning: rollback unmount failed: " + u.failure.value] else [];
    var w2 := if rmdir.Err? then ["Warning: rollback rmdir failed: " + rmdir.error] else [];
    (u.steps + d.steps, w1 + w2 + ["Mount rolled back."])
  }

  // ---------------------------------------------------------------------------
  // run_up
  // ---------------------------------------------------------------------------

  /** Everything `run_up` learns past the gate: file system results, the ownership
      check, subprocess outcomes. */
  datatype UpOracle = UpOracle(
    makeRelay: FsOutcome,             // create_dir_all(relay), when the relay is missing
    ownerUid: Option<int>,            // owner of the workspace directory
    currentUid: Option<int>,          // `id -u`
    answer: Result<string, string>,   // the line read at the ownership prompt
    staleUnmount: Capture,            // unmounting a stale mount
    makeMountPoint: FsOutcome,        // create_dir_all(mount point)
    bindfs: Capture,                  // bindfs
    cleanup: FsOutcome,               // remove_dir after a failed bindfs
    devcontainer: Stream,             // devcontainer up
    rollbackUnmount: Capture,         // unmount during rollback
    rollbackRmdir: FsOutcome)         // remove_dir during rollback

  /** The workspace belongs to someone else and the user did not confirm. */
  function Declined(o: UpOracle): (r: bool)
    ensures o.ownerUid.None? || o.currentUid.None? || o.ownerUid == o.currentUid ==> !r
    ensures o.answer.Ok? && Accepts(o.answer.value) ==> !r
    ensures o.ownerUid.Some? && o.currentUid.Some? && o.ownerUid != o.currentUid && o.answer.Err? ==> r
    ensures (o.ownerUid.Some? && o.currentUid.Some? && o.ownerUid != o.currentUid &&
             o.answer.Ok? && Trim(o.answer.value) == "") ==> r
  {
    o.ownerUid.Some? && o.currentUid.Some? && o.ownerUid.value != o.currentUid.value &&
    !(o.answer.Ok? && Accepts(o.answer.value))
  }

  /** The devcontainer was started for this mount point. */
  predicate Launched(steps: seq<Step>, mp: string) {
    DevcontainerUp(mp) in Effects(steps)
  }

  /** The run ends by unmounting and removing the mount point. */
  predicate RolledBack(steps: seq<Step>, mp: string) {
    |steps| >= 2 && Effects(steps)[|steps| - 2..] == [Unmount(mp), RemoveDir(mp)]
  }

  /** Step 10 and 11: start the devcontainer; on failure roll back a mount made by this
      run. The result is 1, not the child's code, on any failure. */
  function Launch(os: Platform.Os, mp: string, mountedFresh: bool, pre: seq<Step>, o: UpOracle): (r: Run)
    ensures r.code == 0 <==> StreamCode(o.devcontainer) == 0
    ensures r.code != 0 ==> r.code == ExitCodes.RuntimeError
    ensures |r.steps| > |pre| && r.steps[..|pre| + 1] ==
      pre + [Step(DevcontainerUp(mp), StreamCode(o.devcontainer) == 0)]
    ensures mountedFresh && r.code != 0 ==> |r.steps| == |pre| + 3 && RolledBack(r.steps, mp)
    ensures !(mountedFresh && r.code != 0) ==> |r.steps| == |pre| + 1
  {
    var code := StreamCode(o.devcontainer);
    var up := [Step(DevcontainerUp(mp), code == 0)];
    if code == 0 then Run(ExitCodes.Success, pre + up, [], [])
    else if mountedFresh then
      var (steps, warnings) := Rollback(os, mp, o.rollbackUnmount, o.rollbackRmdir);
      var all := pre + up + steps;
      assert all[..|pre| + 1] == pre + up;
      assert Effects(all)[|all| - 2..] == Effects(steps) by {
        EffectsAppend(pre + up, steps);
      }
      Run(ExitCodes.RuntimeError, all, [], warnings)
    else Run(ExitCodes.RuntimeError, pre + up, [], [])
  }

  /** Step 9 and onwards, once the decision is made: reuse, report the collision (with
      `hash`, the end of the mount name), mount, or unmount and mount; then launch. */
  function Act(os: Platform.Os, ws: string, mp: string, hash: string, d: Reconcile, o: UpOracle): (r: Run)
    ensures r.code == ExitCodes.Success || r.code == ExitCodes.RuntimeError
  {
    match d
    case Reuse => Launch(os, mp, false, [], o)
    case Collision(found) => Run(ExitCodes.RuntimeError, [], [], [CollisionError(ws, found, hash)])
    case MountNew =>
      var m := DoMount(ws, mp, o.makeMountPoint, o.bindfs, o.cleanup);
      if m.failure.Some? then Run(ExitCodes.RuntimeError, m.steps, [], [m.failure.value])
      else Launch(os, mp, true, m.steps, o)
    case Remount =>
      var u := DoUnmount(os, mp, o.staleUnmount);
      if u.failure.Some? then
        Run(ExitCodes.RuntimeError, u.steps, [], ["Failed to unmount stale mount: " + u.failure.value])
      else
        var m := DoMount(ws, mp, o.makeMountPoint, o.bindfs, o.cleanup);
        if m.failure.Some? then Run(ExitCodes.RuntimeError, u.steps + m.steps, [], [m.failure.value])
        else Launch(os, mp, true, u.steps + m.steps, o)
  }

  /** The decision step 9 takes for a workspace on a host. */
  function Decision(env: Env, w: State, ws: string): (d: Reconcile)
    ensures var mp := MountPoint(env, ws);
      d == Decide(mp in w.present, FindMountSource(ObservedTable(w), mp), ws)
  {
    var mp := MountPoint(env, ws);
    Decide(mp in w.present, FindMountSource(ObservedTable(w), mp), ws)
  }

  /** The last eight characters of the mount name: the hash shown on a collision. */
  function NameHash(env: Env, ws: string): (h: string)
    ensures h == ComputeHash(ws, env.sha)
  {
    var name := MountName(ws, env.sha);
    name[|name| - 8..]
  }

  /** Steps 7 and 8: create the relay directory when missing, then ask before mounting a
      workspace owned by someone else (unless `--yes`); then steps 9 to 11. */
  function Prepare(env: Env, w: State, ws: string, yes: bool, o: UpOracle): (r: Run)
    ensures r.code != ExitCodes.UsageError
    ensures r.code == ExitCodes.Success ==>
      var a := Act(env.os, ws, MountPoint(env, ws), NameHash(env, ws), Decision(env, w, ws), o);
      a.code == ExitCodes.Success &&
      r.steps == (if RelayDir(env.home) in w.present then [] else [Step(MakeDir(RelayDir(env.home)), true)]) + a.steps
  {
    var relay := RelayDir(env.home);
    if relay !in w.present && o.makeRelay.Err? then
      Run(ExitCodes.RuntimeError, [Step(MakeDir(relay), false)], [],
        ["Failed to create " + relay + ": " + o.makeRelay.error])
    else
      var made := if relay in w.present then [] else [Step(MakeDir(relay), true)];
      if !yes && Declined(o) then Run(ExitCodes.UserAborted, made, [], [])
      else
        var r := Act(env.os, ws, MountPoint(env, ws), NameHash(env, ws), Decision(env, w, ws), o);
        r.(steps := made + r.steps)
  }

  /** `run_up`. The early exits come in this order: Docker (1), the workspace (2), the
      recursion guard (2), the configuration (2), and the dry run (0); none of them
      touches the host. */
  function RunUp(env: Env, w: State, given: Option<string>, dryRun: bool, yes: bool, o: UpOracle): (r: Run)
    ensures !IsDockerAvailable(env.dockerInfo) ==> r == Exit(ExitCodes.RuntimeError, DockerUnavailable)
    ensures IsDockerAvailable(env.dockerInfo) && ResolveWorkspace(given, env.cwd, w.canonical).Err? ==>
      r == Exit(ExitCodes.UsageError, ResolveWorkspace(given, env.cwd, w.canonical).error)
    ensures IsDockerAvailable(env.dockerInfo) && ResolveWorkspace(given, env.cwd, w.canonical).Ok? ==>
      var ws := ResolveWorkspace(given, env.cwd, w.canonical).value;
      (IsManagedPath(ws, RelayDir(env.home)) ==> r == Exit(ExitCodes.UsageError, ManagedPathError)) &&
      (!IsManagedPath(ws, RelayDir(env.home)) && FindDevcontainerConfig(ws, w.present).None? ==>
        r == Exit(ExitCodes.UsageError, NoConfigError(ws))) &&
      (!IsManagedPath(ws, RelayDir(env.home)) && FindDevcontainerConfig(ws, w.present).Some? && dryRun ==>
        r == Run(ExitCodes.Success, [], [DryRunPlan(ws, MountPoint(env, ws), env.home)], []))
    ensures dryRun ==> r.steps == []
    ensures r.code == ExitCodes.UsageError ==> r.steps == []
  {
    match Admit(env, w, given)
    case NoDocker => Exit(ExitCodes.RuntimeError, DockerUnavailable)
    case Unresolved(e) => Exit(ExitCodes.UsageError, e)
    case Nested(_) => Exit(ExitCodes.UsageError, ManagedPathError)
    case Admitted(ws) =>
      if FindDevcontainerConfig(ws, w.present).None? then Exit(ExitCodes.UsageError, NoConfigError(ws))
      else if dryRun then Run(ExitCodes.Success, [], [DryRunPlan(ws, MountPoint(env, ws), env.home)], [])
      else Prepare(env, w, ws, yes, o)
  }

  // ---------------------------------------------------------------------------
  // Properties of the run
  // ---------------------------------------------------------------------------

  /** Step 9, a healthy mount of this workspace: it is reused, and only the devcontainer
      is started. */
  lemma ReuseLaunchesOnly(os: Platform.Os, ws: string, mp: string, hash: string, o: UpOracle)
    ensures var r := Act(os, ws, mp, hash, Reuse, o);
      Effects(r.steps) == [DevcontainerUp(mp)] &&
      (r.code == ExitCodes.Success <==> StreamCode(o.devcontainer) == 0)
  {
    var r := Launch(os, mp, false, [], o);
    assert Effects(r.steps)[0] == DevcontainerUp(mp);
  }

  /** Step 9, a healthy mount of another source: exit 1 without touching anything, with an
      error naming both sources and the hash. */
  lemma CollisionReported(os: Platform.Os, ws: string, mp: string, hash: string, found: string, o: UpOracle)
    ensures var r := Act(os, ws, mp, hash, Collision(found), o);
      r.code == ExitCodes.RuntimeError && r.steps == [] && |r.err| == 1 &&
      Contains(r.err[0], hash) && Contains(r.err[0], found) && Contains(r.err[0], ws)
  {
  }

  /** Step 9, no mount yet: the mount point is created first; on success the run created it,
      bound the workspace, and started the devcontainer, in that order. */
  lemma MountNewMounts(os: Platform.Os, ws: string, mp: string, hash: string, o: UpOracle)
    ensures var r := Act(os, ws, mp, hash, MountNew, o);
      r.steps[0].effect == MakeDir(mp) &&
      (r.code == ExitCodes.Success <==>
        (o.makeMountPoint.Ok? && Succeeded(o.bindfs) && StreamCode(o.devcontainer) == 0)) &&
      (r.code == ExitCodes.Success ==>
        Effects(r.steps) == [MakeDir(mp), Bindfs(ws, mp), DevcontainerUp(mp)])
  {
    var m := DoMount(ws, mp, o.makeMountPoint, o.bindfs, o.cleanup);
    var up := Step(DevcontainerUp(mp), true);
    if m.failure.None? && StreamCode(o.devcontainer) == 0 {
      var r := Launch(os, mp, true, m.steps, o);
      assert r.steps == m.steps + [up];
      assert r.steps == [m.steps[0], m.steps[1], up];
      EffectsThree(m.steps[0], m.steps[1], up);
    }
  }

  /** Step 9, a stale mount: it is unmounted first, and a failed unmount stops the run with
      1 before anything else; on success the run unmounted, created, bound and started. */
  lemma RemountUnmountsFirst(os: Platform.Os, ws: string, mp: string, hash: string, o: UpOracle)
    ensures var r := Act(os, ws, mp, hash, Remount, o);
      r.steps[0].effect == Unmount(mp) &&
      (!Succeeded(o.staleUnmount) ==> r.code == ExitCodes.RuntimeError && |r.steps| == 1) &&
      (r.code == ExitCodes.Success <==>
        (Succeeded(o.staleUnmount) && o.makeMountPoint.Ok? && Succeeded(o.bindfs) &&
          StreamCode(o.devcontainer) == 0)) &&
      (r.code == ExitCodes.Success ==>
        Effects(r.steps) == [Unmount(mp), MakeDir(mp), Bindfs(ws, mp), DevcontainerUp(mp)])
  {
    var u := DoUnmount(os, mp, o.staleUnmount);
    var m := DoMount(ws, mp, o.makeMountPoint, o.bindfs, o.cleanup);
    var up := Step(DevcontainerUp(mp), true);
    if u.failure.None? && m.failure.None? {
      var r := Launch(os, mp, true, u.steps + m.steps, o);
      assert r.steps[0] == u.steps[0];
      if StreamCode(o.devcontainer) == 0 {
        assert r.steps == [u.steps[0], m.steps[0], m.steps[1], up];
        var e := Effects(r.steps);
        assert e[0] == Unmount(mp) && e[1] == MakeDir(mp) && e[2] == Bindfs(ws, mp) && e[3] == DevcontainerUp(mp);
      }
    }
  }

  /** Exit code 0 means the devcontainer started; a failed start is rolled back exactly
      when this run made the mount (every decision but reuse). */
  lemma RollbackIffFresh(os: Platform.Os, ws: string, mp: string, hash: string, d: Reconcile, o: UpOracle)
    ensures var r := Act(os, ws, mp, hash, d, o);
      (r.code == ExitCodes.Success <==> Launched(r.steps, mp) && StreamCode(o.devcontainer) == 0) &&
      (RolledBack(r.steps, mp) <==> Launched(r.steps, mp) && StreamCode(o.devcontainer) != 0 && d != Reuse)
  {
    match d
    case Reuse =>
      RollbackReuse(os, ws, mp, hash, o);
    case Collision(found) =>
      RollbackCollision(os, ws, mp, hash, found, o);
    case MountNew =>
      RollbackNew(os, ws, mp, hash, o);
    case Remount =>
      RollbackRemount(os, ws, mp, hash, o);
  }

  lemma RollbackReuse(os: Platform.Os, ws: string, mp: string, hash: string, o: UpOracle)
    ensures var r := Act(os, ws, mp, hash, Reuse, o);
      (r.code == ExitCodes.Success <==> Launched(r.steps, mp) && StreamCode(o.devcontainer) == 0) &&
      !RolledBack(r.steps, mp)
  {
    assert Act(os, ws, mp, hash, Reuse, o) == Launch(os, mp, false, [], o);
    LaunchedBy(os, mp, false, [], o);
  }

  lemma RollbackCollision(os: Platform.Os, ws: string, mp: string, hash: string, found: string, o: UpOracle)
    ensures var r := Act(os, ws, mp, hash, Collision(found), o);
      r.code != ExitCodes.Success && !Launched(r.steps, mp) && !RolledBack(r.steps, mp)
  {
    var r := Act(os, ws, mp, hash, Collision(found), o);
    assert r.steps == [];
    assert |Effects(r.steps)| == 0;
  }

  lemma RollbackNew(os: Platform.Os, ws: string, mp: string, hash: string, o: UpOracle)
    ensures var r := Act(os, ws, mp, hash, MountNew, o);
      (r.code == ExitCodes.Success <==> Launched(r.steps, mp) && StreamCode(o.devcontainer) == 0) &&
      (RolledBack(r.steps, mp) <==> Launched(r.steps, mp) && StreamCode(o.devcontainer) != 0)
  {
    var r := Act(os, ws, mp, hash, MountNew, o);
    var m := DoMount(ws, mp, o.makeMountPoint, o.bindfs, o.cleanup);
    if m.failure.Some? {
      assert r.steps == m.steps && r.code == ExitCodes.RuntimeError;
      MountFailureNotLaunched([], m, ws, mp);
      assert [] + m.steps == m.steps;
    } else {
      assert r == Launch(os, mp, true, m.steps, o);
      EffectsTwo(m.steps[0], m.steps[1]);
      LaunchedBy(os, mp, true, m.steps, o);
    }
  }

  lemma RollbackRemount(os: Platform.Os, ws: string, mp: string, hash: string, o: UpOracle)
    ensures var r := Act(os, ws, mp, hash, Remount, o);
      (r.code == ExitCodes.Success <==> Launched(r.steps, mp) && StreamCode(o.devcontainer) == 0) &&
      (RolledBack(r.steps, mp) <==> Launched(r.steps, mp) && StreamCode(o.devcontainer) != 0)
  {
    var r := Act(os, ws, mp, hash, Remount, o);
    var u := DoUnmount(os, mp, o.staleUnmount);
    var m := DoMount(ws, mp, o.makeMountPoint, o.bindfs, o.cleanup);
    if u.failure.Some? {
      assert r.steps == u.steps && r.code == ExitCodes.RuntimeError;
      assert Effects(u.steps) == [Unmount(mp)];
    } else if m.failure.Some? {
      assert r.steps == u.steps + m.steps && r.code == ExitCodes.RuntimeError;
      MountFailureNotLaunched(u.steps, m, ws, mp);
    } else {
      assert r == Launch(os, mp, true, u.steps + m.steps, o);
      EffectsAppend(u.steps, m.steps);
      EffectsTwo(m.steps[0], m.steps[1]);
      assert Effects(u.steps + m.steps) == [Unmount(mp), MakeDir(mp), Bindfs(ws, mp)];
      LaunchedBy(os, mp, true, u.steps + m.steps, o);
    }
  }

  /** A run that launched after `pre`: launched, and rolled back as `Launch` says. */
  lemma LaunchedBy(os: Platform.Os, mp: string, mountedFresh: bool, pre: seq<Step>, o: UpOracle)
    requires DevcontainerUp(mp) !in Effects(pre)
    ensures var r := Launch(os, mp, mountedFresh, pre, o);
      Launched(r.steps, mp) &&
      (RolledBack(r.steps, mp) <==> mountedFresh && StreamCode(o.devcontainer) != 0)
  {
    var r := Launch(os, mp, mountedFresh, pre, o);
    assert Effects(r.steps)[|pre|] == DevcontainerUp(mp);
    if !(mountedFresh && r.code != 0) {
      assert |r.steps| == |pre| + 1;
      assert Effects(r.steps)[|r.steps| - 1] == DevcontainerUp(mp);
    }
  }

  /** A failed `do_mount` after `pre` neither launches nor looks like a rollback. */
  lemma MountFailureNotLaunched(pre: seq<Step>, m: Attempt, ws: string, mp: string)
    requires Effects(pre) == [] || Effects(pre) == [Unmount(mp)]
    requires Effects(m.steps) == [MakeDir(mp)] || Effects(m.steps) == [MakeDir(mp), Bindfs(ws, mp)] ||
      Effects(m.steps) == [MakeDir(mp), Bindfs(ws, mp), RemoveDir(mp)]
    ensures !Launched(pre + m.steps, mp) && !RolledBack(pre + m.steps, mp)
  {
    EffectsAppend(pre, m.steps);
    var e := Effects(pre + m.steps);
    assert e == Effects(pre) + Effects(m.steps);
    assert DevcontainerUp(mp) !in e;
    if |e| >= 2 {
      assert e[|e| - 2] != Unmount(mp) || e[|e| - 1] != RemoveDir(mp);
    }
  }

  /** A successful `dcx up` leaves the workspace mounted at its mount point: with a
      readable mount table, the table maps the mount point to the workspace afterwards, and
      the mount point exists. */
  lemma UpEstablishesMount(env: Env, w: State, given: Option<string>, yes: bool, o: UpOracle)
    requires w.tableReadable
    requires RunUp(env, w, given, false, yes, o).code == ExitCodes.Success
    ensures Admit(env, w, given).Admitted?
    ensures var ws := Admit(env, w, given).workspace;
      var after := Replay(w, RunUp(env, w, given, false, yes, o).steps);
      FindMountSource(after.table, MountPoint(env, ws)) == Some(ws) && MountPoint(env, ws) in after.present
  {
    var ws := Admit(env, w, given).workspace;
    assert RunUp(env, w, given, false, yes, o) == Prepare(env, w, ws, yes, o);
    PrepareEstablishes(env, w, ws, yes, o);
  }

  lemma PrepareEstablishes(env: Env, w: State, ws: string, yes: bool, o: UpOracle)
    requires w.tableReadable
    requires Prepare(env, w, ws, yes, o).code == ExitCodes.Success
    ensures var after := Replay(w, Prepare(env, w, ws, yes, o).steps);
      FindMountSource(after.table, MountPoint(env, ws)) == Some(ws) && MountPoint(env, ws) in after.present
  {
    var relay := RelayDir(env.home);
    var made := if relay in w.present then [] else [Step(MakeDir(relay), true)];
    var mp, d := MountPoint(env, ws), Decision(env, w, ws);
    var r := Act(env.os, ws, mp, NameHash(env, ws), d, o);
    ReplayAppend(w, made, r.steps);
    var v := Replay(w, made);
    assert v.table == w.table && w.present <= v.present by {
      if made != [] { ReplayOne(w, made[0]); }
    }
    MountEstablished(env.os, v, ws, mp, NameHash(env, ws), d, o, FindMountSource(w.table, mp), mp in w.present);
  }

  /** The mount part of `UpEstablishesMount`, on a host `v` whose table was observed. */
  lemma MountEstablished(os: Platform.Os, v: State, ws: string, mp: string, hash: string, d: Reconcile,
                         o: UpOracle, source: Option<string>, accessible: bool)
    requires source == FindMountSource(v.table, mp) && (accessible ==> mp in v.present)
    requires d == Decide(accessible, source, ws)
    requires Act(os, ws, mp, hash, d, o).code == ExitCodes.Success
    ensures var after := Replay(v, Act(os, ws, mp, hash, d, o).steps);
      FindMountSource(after.table, mp) == Some(ws) && mp in after.present
  {
    match d
    case Reuse =>
      var up := Step(DevcontainerUp(mp), true);
      assert Act(os, ws, mp, hash, Reuse, o) == Launch(os, mp, false, [], o);
      assert Act(os, ws, mp, hash, d, o).steps == [up];
      ReplayOne(v, up);
    case Collision(found) =>
      RollbackCollision(os, ws, mp, hash, found, o);
    case MountNew =>
      NewMountEstablished(os, v, ws, mp, hash, o);
    case Remount =>
      RemountEstablished(os, v, ws, mp, hash, o);
  }

  lemma NewMountEstablished(os: Platform.Os, v: State, ws: string, mp: string, hash: string, o: UpOracle)
    requires FindMountSource(v.table, mp).None?
    requires Act(os, ws, mp, hash, MountNew, o).code == ExitCodes.Success
    ensures var after := Replay(v, Act(os, ws, mp, hash, MountNew, o).steps);
      FindMountSource(after.table, mp) == Some(ws) && mp in after.present
  {
    var m := DoMount(ws, mp, o.makeMountPoint, o.bindfs, o.cleanup);
    assert m.failure.None?;
    assert Act(os, ws, mp, hash, MountNew, o) == Launch(os, mp, true, m.steps, o);
    assert Act(os, ws, mp, hash, MountNew, o).steps ==
      [Step(MakeDir(mp), true), Step(Bindfs(ws, mp), true), Step(DevcontainerUp(mp), true)];
    BindAndLaunch(v, ws, mp);
  }

  lemma RemountEstablished(os: Platform.Os, v: State, ws: string, mp: string, hash: string, o: UpOracle)
    requires Act(os, ws, mp, hash, Remount, o).code == ExitCodes.Success
    ensures var after := Replay(v, Act(os, ws, mp, hash, Remount, o).steps);
      FindMountSource(after.table, mp) == Some(ws) && mp in after.present
  {
    var u := DoUnmount(os, mp, o.staleUnmount);
    var m := DoMount(ws, mp, o.makeMountPoint, o.bindfs, o.cleanup);
    assert u.failure.None? && m.failure.None?;
    assert Act(os, ws, mp, hash, Remount, o) == Launch(os, mp, true, u.steps + m.steps, o);
    var gone := Step(Unmount(mp), true);
    var bound := [Step(MakeDir(mp), true), Step(Bindfs(ws, mp), true), Step(DevcontainerUp(mp), true)];
    assert Act(os, ws, mp, hash, Remount, o).steps == [gone] + bound;
    ReplayAppend(v, [gone], bound);
    ReplayOne(v, gone);
    var w := Apply(v, gone.effect);
    assert FindMountSource(w.table, mp).None?;
    BindAndLaunch(w, ws, mp);
  }

  /** Creating the mount point, binding the workspace and starting the devcontainer on a host
      with no mount at the mount point leaves the workspace mounted there. */
  lemma BindAndLaunch(v: State, ws: string, mp: string)
    requires FindMountSource(v.table, mp).None?
    ensures var after := Replay(v, [Step(MakeDir(mp), true), Step(Bindfs(ws, mp), true), Step(DevcontainerUp(mp), true)]);
      FindMountSource(after.table, mp) == Some(ws) && mp in after.present
  {
    var a, b, c := Step(MakeDir(mp), true), Step(Bindfs(ws, mp), true), Step(DevcontainerUp(mp), true);
    assert [a, b, c] == [a] + ([b] + [c]);
    ReplayAppend(v, [a], [b] + [c]);
    ReplayOne(v, a);
    var v1 := Apply(v, a.effect);
    ReplayAppend(v1, [b], [c]);
    ReplayOne(v1, b);
    var v2 := Apply(v1, b.effect);
    ReplayOne(v2, c);
    assert v2.table == v.table + [MountEntry(ws, mp)];
    FindMountSourceFirst(v2.table, |v.table|, mp);
  }
}
