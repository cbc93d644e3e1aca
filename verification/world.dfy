/** The host as the command engines (`src/up.rs`, `src/down.rs`, `src/exec.rs`,
    `src/clean.rs`, `src/status.rs`) observe and change it.

    The engines are pure functions. Everything they learn from outside (the Docker probe,
    the current directory, subprocess exit codes, file system errors, the user's answer,
    the interrupt flag) is an input. Everything they do to the outside is a `Step` in the
    run's log. `Replay` gives the host after the successful steps. */
module World {
  import opened Wrappers
  import opened Strings
  import opened Seqs
  import opened Paths
  import opened Digest
  import opened MountTable
  import opened Cmd
  import opened Platform
  import opened Naming
  import opened Docker
  import opened Workspace

  /** The host: the bindfs entries of the system mount table and whether it can be read,
      the paths that exist (`metadata`/`exists` succeed), the canonical form of each path
      that can be canonicalised, and the container running at each mount point. */
  datatype State = State(
    table: seq<MountEntry>,
    tableReadable: bool,
    present: set<string>,
    canonical: map<string, string>,
    containers: map<string, string>)

  /** The facts of one invocation: the home directory, the OS, the hash, the current
      directory and the outcome of `docker info`. */
  datatype Env = Env(
    home: string,
    os: Os,
    sha: seq<Byte> -> Digest,
    cwd: Result<string, string>,
    dockerInfo: Capture)

  /** The outcome of a file system call such as `create_dir_all` or `remove_dir`. */
  type FsOutcome = Result<(), string>

  // ---------------------------------------------------------------------------
  // Observations
  // ---------------------------------------------------------------------------

  /** `platform::read_mount_table().unwrap_or_default()`: an unreadable table looks empty. */
  function ObservedTable(w: State): (r: seq<MountEntry>)
    ensures w.tableReadable ==> r == w.table
    ensures !w.tableReadable ==> r == []
  {
    if w.tableReadable then w.table else []
  }

  /** The container the engines find at a mount point, if any. */
  function ContainerAt(w: State, mountPoint: string): (r: Option<string>)
    ensures r.Some? <==> mountPoint in w.containers
    ensures r.Some? ==> r.value == w.containers[mountPoint]
  {
    if mountPoint in w.containers then Some(w.containers[mountPoint]) else None
  }

  /** `matches!(line.trim().to_ascii_lowercase().as_str(), "y" | "yes")`: the trimmed answer
      is accepted exactly when it is `y` or `yes` in any mix of ASCII case, so an empty
      answer declines and `y`, `Y`, `yes` and `YES` are accepted. */
  function Accepts(line: string): (r: bool)
    ensures var t := Trim(line);
      r <==> (|t| == 1 && t[0] in "yY") || (|t| == 3 && t[0] in "yY" && t[1] in "eE" && t[2] in "sS")
    ensures Trim(line) in ["y", "Y", "yes", "YES"] ==> r
  {
    var t := Trim(line);
    LowerAnswer(t);
    var a := AsciiLowerStr(t);
    a == "y" || a == "yes"
  }

  /** Lowering an answer gives `y` or `yes` exactly for those words in any ASCII case. */
  lemma LowerAnswer(t: string)
    ensures AsciiLowerStr(t) == "y" <==> |t| == 1 && t[0] in "yY"
    ensures AsciiLowerStr(t) == "yes" <==> |t| == 3 && t[0] in "yY" && t[1] in "eE" && t[2] in "sS"
    ensures t in ["y", "Y", "yes", "YES"] ==> AsciiLowerStr(t) == "y" || AsciiLowerStr(t) == "yes"
  {
    var a := AsciiLowerStr(t);
    if |t| >= 1 {
      LowerChar(t[0], 'y', 'Y');
    }
    if |t| == 3 {
      LowerChar(t[1], 'e', 'E');
      LowerChar(t[2], 's', 'S');
      assert a == "yes" <==> a[0] == 'y' && a[1] == 'e' && a[2] == 's';
    }
    if |t| == 1 {
      assert a == "y" <==> a[0] == 'y';
    }
  }

  /** A character lowers to a lowercase ASCII letter exactly when it is that letter in
      either case. */
  lemma LowerChar(c: char, lower: char, upper: char)
    requires IsAsciiLower(lower) && upper as int == lower as int - 32
    ensures AsciiLower(c) == lower <==> c == lower || c == upper
  {
  }

  /** A lowercase answer with no surrounding blanks is accepted exactly when it is `y` or
      `yes`. */
  lemma AcceptsLower(s: string)
    requires |s| > 0 && !IsWhitespace(s[0]) && !IsWhitespace(s[|s| - 1])
    requires forall i :: 0 <= i < |s| ==> IsAsciiLower(s[i])
    ensures Accepts(s) <==> s == "y" || s == "yes"
  {
    TrimNoop(s);
    assert AsciiLowerStr(Trim(s)) == s;
  }

  // ---------------------------------------------------------------------------
  // Effects
  // ---------------------------------------------------------------------------

  /** What an engine does to the host. */
  datatype Effect =
    | MakeDir(path: string)                  // create_dir_all
    | RemoveDir(path: string)                // remove_dir
    | Bindfs(source: string, target: string) // bindfs --no-allow-other <source> <target>
    | Unmount(target: string)                // fusermount -u <target> / umount <target>
    | StopContainer(target: string)          // stop the container of <target>
    | DevcontainerUp(target: string)         // devcontainer up --workspace-folder <target>
    | DevcontainerDown(target: string)       // devcontainer down --workspace-folder <target>
    | DevcontainerExec(args: seq<string>)    // devcontainer <args>

  /** An effect that was attempted, and whether it succeeded. */
  datatype Step = Step(effect: Effect, ok: bool)

  /** The host after an effect succeeded. Unmounting removes every table entry at the
      target; stopping or taking down a container forgets it. */
  function Apply(w: State, e: Effect): (r: State)
    ensures r.canonical == w.canonical && r.tableReadable == w.tableReadable
    ensures e.MakeDir? || e.RemoveDir? || e.Bindfs? || e.Unmount? ==> r.containers == w.containers
    ensures e.MakeDir? ==> r.present == w.present + {e.path} && r.table == w.table
    ensures e.RemoveDir? ==> r.present == w.present - {e.path} && r.table == w.table
    ensures e.Bindfs? ==>
      r.table == w.table + [MountEntry(e.source, e.target)] && r.present == w.present + {e.target}
    ensures e.Unmount? ==> r.present == w.present
    ensures e.Unmount? ==> forall i :: 0 <= i < |r.table| ==> r.table[i].target != e.target
    ensures e.Unmount? ==> forall m :: m in r.table <==> m in w.table && m.target != e.target
    ensures e.StopContainer? || e.DevcontainerDown? ==>
      r.table == w.table && r.present == w.present && r.containers == w.containers - {e.target}
    ensures e.DevcontainerUp? || e.DevcontainerExec? ==> r == w
  {
    match e
    case MakeDir(p) => w.(present := w.present + {p})
    case RemoveDir(p) => w.(present := w.present - {p})
    case Bindfs(s, t) => w.(table := w.table + [MountEntry(s, t)], present := w.present + {t})
    case Unmount(t) =>
      var kept := (m: MountEntry) => m.target != t;
      var table := Filter(w.table, kept);
      assert forall m :: m in table <==> m in w.table && m.target != t by {
        forall m ensures m in table <==> m in w.table && m.target != t {
          FilterMember(w.table, kept, m);
        }
      }
      w.(table := table)
    case StopContainer(t) => w.(containers := w.containers - {t})
    case DevcontainerDown(t) => w.(containers := w.containers - {t})
    case DevcontainerUp(_) => w
    case DevcontainerExec(_) => w
  }

  /** The host after a run: every successful step applied in order, failed ones skipped. */
  function Replay(w: State, steps: seq<Step>): (r: State)
    ensures r.canonical == w.canonical && r.tableReadable == w.tableReadable
    decreases |steps|
  {
    if |steps| == 0 then w
    else Replay(if steps[0].ok then Apply(w, steps[0].effect) else w, steps[1..])
  }

  /** Replaying a run whose first step succeeded starts from that step's effect. */
  lemma ReplayFirst(w: State, steps: seq<Step>)
    requires |steps| > 0 && steps[0].ok
    ensures Replay(w, steps) == Replay(Apply(w, steps[0].effect), steps[1..])
  {
  }

  lemma {:induction false} ReplayAppend(w: State, a: seq<Step>, b: seq<Step>)
    ensures Replay(w, a + b) == Replay(Replay(w, a), b)
    decreases |a|
  {
    if |a| == 0 {
      assert a + b == b;
    } else {
      assert (a + b)[0] == a[0];
      assert (a + b)[1..] == a[1..] + b;
      ReplayAppend(if a[0].ok then Apply(w, a[0].effect) else w, a[1..], b);
    }
  }

  lemma ReplayOne(w: State, s: Step)
    ensures Replay(w, [s]) == if s.ok then Apply(w, s.effect) else w
  {
    assert [s][1..] == [];
  }

  /** The effects a run attempted, in order. */
  function Effects(steps: seq<Step>): (r: seq<Effect>)
    ensures |r| == |steps|
    ensures forall i :: 0 <= i < |steps| ==> r[i] == steps[i].effect
  {
    if |steps| == 0 then [] else [steps[0].effect] + Effects(steps[1..])
  }

  lemma EffectsThree(a: Step, b: Step, c: Step)
    ensures Effects([a, b, c]) == [a.effect, b.effect, c.effect]
  {
    var e := Effects([a, b, c]);
    assert e[0] == a.effect && e[1] == b.effect && e[2] == c.effect;
  }

  lemma EffectsTwo(a: Step, b: Step)
    ensures Effects([a, b]) == [a.effect, b.effect]
  {
    var e := Effects([a, b]);
    assert e[0] == a.effect && e[1] == b.effect;
  }

  lemma {:induction false} EffectsAppend(a: seq<Step>, b: seq<Step>)
    ensures Effects(a + b) == Effects(a) + Effects(b)
  {
    var l, r := Effects(a + b), Effects(a) + Effects(b);
    assert |l| == |r|;
    forall i | 0 <= i < |l| ensures l[i] == r[i] {
      if i < |a| { assert (a + b)[i] == a[i]; } else { assert (a + b)[i] == b[i - |a|]; }
    }
  }

  // ---------------------------------------------------------------------------
  // Sequences of fallible steps
  // ---------------------------------------------------------------------------

  /** Steps taken so far and the error that stopped them, if any (a `Result<(), String>`
      that also remembers what was done). */
  datatype Attempt = Attempt(steps: seq<Step>, failure: Option<string>)

  /** `a?; b`: `b` runs only when `a` succeeded. */
  function AndThen(a: Attempt, b: Attempt): (r: Attempt)
    ensures a.failure.Some? ==> r == a
    ensures a.failure.None? ==> r.steps == a.steps + b.steps && r.failure == b.failure
  {
    if a.failure.Some? then a else Attempt(a.steps + b.steps, b.failure)
  }

  /** `do_unmount`: run the OS's unmount program; a spawn error or a nonzero exit fails
      with the captured text. */
  function DoUnmount(os: Os, mountPoint: string, run: Capture): (r: Attempt)
    ensures r.steps == [Step(Unmount(mountPoint), Succeeded(run))]
    ensures r.failure.None? <==> Succeeded(run)
    ensures r.failure.Some? ==> r.failure.value == FailureText(UnmountProg(os), run)
  {
    if Succeeded(run) then Attempt([Step(Unmount(mountPoint), true)], None)
    else Attempt([Step(Unmount(mountPoint), false)], Some(FailureText(UnmountProg(os), run)))
  }

  /** `remove_mount_dir` (and the `remove_dir` of `dcx down`). */
  function RemoveMountDir(mountPoint: string, res: FsOutcome): (r: Attempt)
    ensures r.steps == [Step(RemoveDir(mountPoint), res.Ok?)]
    ensures r.failure.None? <==> res.Ok?
    ensures res.Err? ==> r.failure == Some("Failed to remove " + mountPoint + ": " + res.error)
  {
    match res
    case Ok(_) => Attempt([Step(RemoveDir(mountPoint), true)], None)
    case Err(e) => Attempt([Step(RemoveDir(mountPoint), false)], Some("Failed to remove " + mountPoint + ": " + e))
  }

  // ---------------------------------------------------------------------------
  // Runs
  // ---------------------------------------------------------------------------

  /** What a command did: its exit code, its steps, and what it printed to stdout and
      stderr (progress lines aside). */
  datatype Run = Run(code: int, steps: seq<Step>, out: seq<string>, err: seq<string>)

  /** An exit before anything was done. */
  function Exit(code: int, message: string): (r: Run)
    ensures r.code == code && r.steps == [] && r.err == [message]
  {
    Run(code, [], [], [message])
  }

  const DockerUnavailable: string := "Docker is not available. Is Colima running?"

  const ManagedPathError: string :=
    "Cannot use a dcx-managed mount point as a workspace. Use the original workspace path instead."

  /** The checks `up`, `down` and `exec` make first, in this order: Docker, the workspace,
      the recursion guard. */
  datatype Gate =
    | NoDocker
    | Unresolved(error: string)
    | Nested(workspace: string)
    | Admitted(workspace: string)

  function Admit(env: Env, w: State, given: Option<string>): (g: Gate)
    ensures g.NoDocker? <==> !IsDockerAvailable(env.dockerInfo)
    ensures g.Unresolved? <==>
      IsDockerAvailable(env.dockerInfo) && ResolveWorkspace(given, env.cwd, w.canonical).Err?
    ensures g.Unresolved? ==> g.error == ResolveWorkspace(given, env.cwd, w.canonical).error
    ensures g.Nested? || g.Admitted? ==>
      IsDockerAvailable(env.dockerInfo) && ResolveWorkspace(given, env.cwd, w.canonical) == Ok(g.workspace)
    ensures g.Nested? ==> IsManagedPath(g.workspace, RelayDir(env.home))
    ensures g.Admitted? ==> !IsManagedPath(g.workspace, RelayDir(env.home))
  {
    if !IsDockerAvailable(env.dockerInfo) then NoDocker
    else match ResolveWorkspace(given, env.cwd, w.canonical)
      case Err(e) => Unresolved(e)
      case Ok(ws) => if IsManagedPath(ws, RelayDir(env.home)) then Nested(ws) else Admitted(ws)
  }

  /** The gate depends on the host only through the canonical paths. */
  lemma AdmitCanonical(env: Env, w: State, v: State, given: Option<string>)
    requires w.canonical == v.canonical
    ensures Admit(env, w, given) == Admit(env, v, given)
  {
  }

  /** `relay_dir(home).join(mount_name(workspace))`. */
  function MountPoint(env: Env, ws: string): (r: string)
    ensures Components(r) == Components(RelayDir(env.home)) + [Normal(MountName(ws, env.sha))]
    ensures FileName(r) == Some(MountName(ws, env.sha))
    ensures IsManagedPath(r, RelayDir(env.home))
  {
    var relay, name := RelayDir(env.home), MountName(ws, env.sha);
    ComponentsJoinName(relay, name);
    FileNameJoinName(relay, name);
    MountPointManaged(relay, ws, env.sha);
    JoinPath(relay, name)
  }
}
