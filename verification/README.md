# dcx, modelled in Dafny

`dcx` runs devcontainers on Colima through a bindfs relay: every workspace is bind-mounted
at `~/.colima-mounts/dcx-<name>-<hash8>`, and the devcontainer CLI is pointed at that mount
point instead of the workspace. This project models the part of `dcx` that decides things
and formats things, and proves what it promises:

- **Naming and the recursion guard** (`Naming`, `Digest`, `Paths`): the sanitized last
  component, the eight-hex-character path hash over an abstract SHA-256, the mount name,
  the relay directory, and whether a path lies inside a managed mount.
- **Mount states** (`Categorize`, `Scan`): the four categories of a relay entry and the
  labels `dcx status` and `dcx clean` give them; the relay scan that keeps `dcx-...`
  entries in sorted order.
- **Mount tables** (`MountTable`, `Platform`): the Linux `/proc/mounts` and macOS `mount`
  parsers, the first-match lookup by target, and the per-OS unmount command.
- **The command engines** (`World`, `Up`, `Down`, `Exec`, `Clean`, `Status`). Each command
  is a pure function of what it learns from outside and of the host `State` it finds (the
  mount table, the paths that exist, the containers running). What it does to the outside
  is a log of `Step`s, and `Replay` gives the host after the successful ones. Every
  subprocess, file-system call, prompt answer and Ctrl+C is an input, so the proofs hold
  for every outcome of each.
- **Parsers and formatters** (`Doctor`, `Image`, `Colima`, `Network`, `Workspace`,
  `Format`, `Cmd`, `Progress`): version extraction, `${localEnv:VAR:default}` expansion and
  the content tag, Colima mount filtering and `~` expansion, the network-mode round trip,
  configuration-file precedence, and the four reports.

`Strings`, `Seqs` and `Wrappers` give the `str`, iterator, `Option` and `Result`
behaviour of Rust that the rest relies on. `ExitCodes` holds the exit codes 0, 1, 2, 4
and 127 (`src/exit_codes.rs:4-16`).

The model follows the code as written:

- `run_up` (`src/up.rs:185-311`) polls no interrupt flag, takes no `--config` option and
  tags no base image.
- `run_exec` (`src/exec.rs:34`) takes no `--config` option.
- `run_clean` (`src/clean.rs:145-284`) neither purges images and volumes nor sweeps in a
  dry run.
- `src/main.rs:52-58` calls `run_up` with five arguments, one of them a configuration
  path; `run_up` in `src/up.rs:185` takes four (`home`, `workspace_folder`, `dry_run`,
  `yes`). Likewise `src/main.rs:70-75` passes a configuration to `run_exec`, which takes
  three (`src/exec.rs:34`). The model follows `src/up.rs` and `src/exec.rs`.
- `src/status.rs:10` imports `scan_relay` from `naming`; `src/naming.rs` defines no
  `scan_relay`, and the only one is the private function at `src/clean.rs:63`. The model
  uses that one for both commands.
- `src/status.rs:74` sets a `network` field; `StatusRow` in `src/format.rs:4-13` has four
  fields (`workspace`, `mount`, `container`, `state`). The model's row has those four.
- `src/clean.rs:18` imports `query_container` from `status`; `src/status.rs` defines none
  and itself calls `docker::query_container`. The model reads the container at a mount
  point from the host `State`.

## Model

| member | source | states |
|---|---|---|
| Naming.Sanitize | src/naming.rs:7-12 | the result has as many characters as the name, up to 30; the i-th is the i-th input character when it is an ASCII letter or digit and `-` otherwise, so every character is a letter, digit or `-` |
| Naming.SanitizeIdentity | src/naming.rs:56-97 | a name of at most 30 letters, digits and dashes comes back unchanged (the empty name included) |
| Naming.SanitizeIdempotent | src/naming.rs:7-12 | sanitising twice is sanitising once |
| Naming.ComputeHash | src/naming.rs:15-21 | exactly 8 characters, each in `0-9a-f`, and they decode to the first four bytes of the digest of the path's UTF-8 bytes |
| Naming.MountName | src/naming.rs:24-32 | `dcx-`, the sanitised last component (empty when there is none), `-`, then the hash; 13 characters longer than the sanitised part, so at most 43; a single valid file name |
| Naming.MountNameRoot | src/naming.rs:24-32 | the root path has no file name, so its mount name starts `dcx--` |
| Naming.MountNameOfChild | src/naming.rs:24-32 | the name's middle part is the sanitised final segment of the workspace path |
| Naming.RelayDir | src/naming.rs:35-37 | the relay directory is the home directory's components followed by `.colima-mounts`, and stripping the home leaves exactly that component |
| Naming.IsManagedPath | src/naming.rs:40-50 | true iff the relay's components are a proper prefix of the path's and the next component is a `Normal` one starting with `dcx-` |
| Naming.RelayNotManaged | src/naming.rs:40-50 | the relay directory itself is not inside a managed mount |
| Naming.MountPointManaged | src/naming.rs:40-50 | every mount point the tool creates under the relay is recognised as managed |
| Naming.BelowMountPointManaged | src/naming.rs:40-50 | so is anything below such a mount point |
| Naming.ChildManagedIff | src/naming.rs:40-50 | a direct child of the relay is managed iff its name starts with `dcx-` |
| Categorize.Categorize | src/categorize.rs:20-32 | Empty iff not in the table; Stale iff in the table and unreachable; Active iff in the table, reachable and with a container; Orphaned iff the same without a container |
| Categorize.CategorizeIgnores | src/categorize.rs:21-26 | outside the table the other two flags do not matter, and an unreachable entry's container flag does not matter |
| MountTable.ParseProcLine | src/mount_table.rs:16-29 | an accepted line yields whitespace-free source and target; a line with fewer than three fields is rejected |
| MountTable.ParseProcMounts | src/mount_table.rs:14-31 | empty text gives no entries; at most one entry per line; every field is whitespace-free |
| MountTable.ProcLineParses | src/mount_table.rs:17-25 | a `fuse.bindfs` line yields its first two fields verbatim, whatever follows the type |
| MountTable.ProcLineOtherType | src/mount_table.rs:20-28 | a line of any other file-system type is rejected |
| MountTable.ParseProcMountsLines | src/mount_table.rs:14-31 | parsing joined lines parses each line, keeping the accepted ones in order |
| MountTable.ProcMountsRoundTrip | src/mount_table.rs:14-31 | rendering entries as `fuse.bindfs` lines and parsing them gives the entries back, in order |
| MountTable.ParseMountLine | src/mount_table.rs:38-54 | a line without ` on ` is rejected |
| MountTable.ParseMountOutput | src/mount_table.rs:36-56 | empty text gives no entries, and at most one entry per line |
| MountTable.SourceCut | src/mount_table.rs:40 | `split_once(" on ")` cuts right after the source when ` on ` first occurs there, spaces in the source allowed |
| MountTable.TargetCut | src/mount_table.rs:41-44 | `split_once(" (")` cuts right after a target without `(`, and the options start after the first `(` |
| MountTable.MountLineShape | src/mount_table.rs:38-54 | a `<source> on <target> (<options>` line yields the trimmed source and target exactly when its first option, trimmed, is `bindfs`, and nothing otherwise |
| MountTable.MountLineOtherType | src/mount_table.rs:45-53 | a line whose first option is not `bindfs` is rejected |
| MountTable.FirstOptionBindfs | src/mount_table.rs:45-46 | the first comma token of `bindfs,...`, trimmed, is `bindfs` |
| MountTable.MountLineParses | src/mount_table.rs:36-56 | a `<source> on <target> (bindfs, ...)` line yields the source and target back, spaces in them allowed, when the source holds no earlier ` on ` and the target no `(` |
| MountTable.ParseMountOutputLines | src/mount_table.rs:36-56 | parsing joined lines parses each line, keeping the accepted ones in order |
| MountTable.MountLinesParse | src/mount_table.rs:36-56 | each rendered `mount` line is a single line that parses to its entry, under the same conditions on the fields |
| MountTable.MountOutputRoundTrip | src/mount_table.rs:36-56 | rendering entries as `mount` lines and parsing them gives the entries back, in order, under the same conditions on the fields |
| MountTable.FindTarget | src/mount_table.rs:59-65 | the index of the first entry with the target, or none exactly when no entry has it |
| MountTable.FindMountSource | src/mount_table.rs:59-65 | `Some(s)` iff some entry has the target, and `s` is the source of the first such entry |
| MountTable.FindMountSourceFirst | src/mount_table.rs:59-65 | when entry `i` is the first with the target, its source is returned |
| Platform.UnmountProg | src/platform.rs:13-22 | `fusermount` on Linux, `umount` on macOS |
| Platform.UnmountArgs | src/platform.rs:28-38 | `["-u", p]` on Linux, `[p]` on macOS, and the mount point is always last |
| Platform.BindfsInstallHint | src/platform.rs:44-53 | the apt hint on Linux, the brew hint on macOS; on both it ends with `install bindfs` |
| Platform.ReadMountTable | src/platform.rs:64-76 | on Linux, a read error is prefixed with `Failed to read /proc/mounts: ` and the text is parsed as `/proc/mounts`; on macOS, a spawn error is passed on and the output is parsed as `mount` output |
| Cmd.SpawnError | src/cmd.rs:18-22 | the spawn error names the program after `Failed to run ` |
| Cmd.StreamCode | src/cmd.rs:45-54 | the child's exit code, or 127 when it could not be spawned |
| Cmd.DisplayCmd | src/cmd.rs:34-40 | starts with the program, and is just the program when there are no arguments |
| Cmd.DisplayCmdSnoc | src/cmd.rs:34-40 | one more argument appends a space and that argument verbatim |
| Cmd.DisplayCmdSplit | src/cmd.rs:34-40 | with space-free words, splitting the text on spaces gives back the program and the arguments in order |
| Progress.FormatStep | src/progress.rs:6-8 | the arrow U+2192, one space, then the message unchanged: two characters longer, ending with the message |
| Progress.FormatStepInjective | src/progress.rs:6-8 | different messages give different lines |
| Network.DefaultMode | src/network_mode.rs:5-16 | the default mode is `minimal` |
| Network.Display | src/network_mode.rs:35-44 | a non-empty lowercase keyword per mode |
| Network.DisplayInjective | src/network_mode.rs:35-44 | different modes display differently |
| Network.InvalidModeError | src/network_mode.rs:27-30 | the error quotes the input and lists `restricted, minimal, host, open` |
| Network.Parse | src/network_mode.rs:21-32 | accepted iff the lower-cased input is some mode's keyword, which is then the mode returned; otherwise the error for that input |
| Network.ParseDisplay | src/network_mode.rs:18-44 | parsing a mode's display gives the mode back |
| Network.ParseUpper | src/network_mode.rs:21-26 | any letter case of a keyword parses to its mode |
| Network.ParseEmpty | src/network_mode.rs:27-30 | the empty string is rejected |
| Clean.WasLabel | src/clean.rs:23-30 | `running`, `orphaned`, `stale`, `empty dir` for Active, Orphaned, Stale, Empty |
| Clean.WasLabelInjective | src/clean.rs:23-30 | the summary label tells the status apart |
| Clean.LabelsAgree | src/clean.rs:23-30 | for the two healthy states the summary label and the status label agree |
| Clean.PromptHeader | src/clean.rs:37-43 | the header opens with `⚠`, the count and ` active container`; it ends `s will be stopped:` iff the count is not 1; it is one line |
| Clean.PromptLine | src/clean.rs:44-49 | an entry line opens with `  - ` and the workspace and closes with `(container: <id>)` |
| Clean.ConfirmPrompt | src/clean.rs:36-51 | the prompt starts with the header for the number of entries |
| Clean.ConfirmPromptLines | src/clean.rs:36-51 | split at line breaks, the prompt is the header then exactly one line per entry, in order |
| Clean.Plan | src/clean.rs:107-138 | every plan ends with removing the mount directory |
| Clean.UnmountAndRemove | src/clean.rs:119-120 | the removal runs only after a successful unmount; a failed unmount is the failure |
| Clean.StopAndClean | src/clean.rs:109-122 | a running entry takes a prefix of down, unmount, remove, stopping at the first failure; a nonzero `devcontainer down` (127 when it cannot start) fails with `devcontainer down failed (exit N)` |
| Clean.UnmountAndClean | src/clean.rs:123-132 | an orphaned or stale entry takes a prefix of unmount, remove, stopping at the first failure |
| Clean.RemoveOnly | src/clean.rs:133-136 | an empty entry takes the removal only |
| Clean.CleanOne | src/clean.rs:107-138 | the steps are a non-empty prefix of the entry's plan, each taken only after the one before it succeeded; the entry is cleaned iff the whole plan ran and succeeded, with the action of its status |
| Clean.CleanOneClears | src/clean.rs:107-138 | after a cleaned entry its directory is gone, its mount is gone (an empty entry leaves the table alone) and a running entry's container is gone |
| Clean.UnmountThenRemove | src/clean.rs:119-120 | a successful unmount and removal leave neither mount nor directory and touch no container |
| Clean.DownUnmountRemove | src/clean.rs:111-120 | a successful down, unmount and removal leave no mount, directory or container |
| Clean.IdleNoDown | src/clean.rs:123-136 | an entry that is not running is never sent `devcontainer down` |
| Clean.Summary | src/clean.rs:242-255 | the summary entry keeps the workspace, the status label and the action; its mount column is the file name of the entry's path, or empty when the path has none |
| Clean.Single | src/clean.rs:248-266 | one processed entry: cleaned with its summary, or failed with `<path>: <error>`, and the interrupt flag sampled after it |
| Clean.Loop | src/clean.rs:241-267 | the loop processes a prefix of the entries, one after the other; it stops early only after an entry whose interrupt flag was set; cleaned plus failed equals processed; no failure iff every processed entry succeeded |
| Clean.LoopSteps | src/clean.rs:241-267 | the loop's steps are the processed entries' steps, one entry after the other, in order |
| Clean.LoopCleaned | src/clean.rs:249-256 | the cleaned list is the processed entries' summaries, in order |
| Clean.LoopFailures | src/clean.rs:257-259 | the failure list is the processed entries' failure texts, in order |
| Clean.LoopNoDown | src/clean.rs:241-267 | a loop over entries whose own steps have no `devcontainer down` takes none |
| Clean.Outcomes | src/clean.rs:248 | the j-th outcome is `clean_one` of the j-th entry with its own answers from the outside world |
| Clean.Singles | src/clean.rs:248-266 | the j-th processed entry pairs the j-th entry with its outcome |
| Clean.CleanLoop | src/clean.rs:241-267 | the loop stops after the first entry whose interrupt flag is set, or at the end; cleaned plus failed equals processed; no failures iff every processed entry's `clean_one` succeeded |
| Clean.CleanLoopContents | src/clean.rs:241-267 | over the processed entries in order: the steps are each entry's steps, the cleaned list holds the summary of each entry whose `clean_one` succeeded, and the failures hold `<path>: <error>` for each one that failed |
| Clean.CleanLoopRecords | src/clean.rs:248-259 | the record of each processed entry is what its own `clean_one` outcome gives |
| Clean.LoopStopsOnlyRunning | src/clean.rs:241-267 | a loop over entries none of which is running never sends `devcontainer down` |
| Clean.PromptEntries | src/clean.rs:188-204 | one prompt line per running entry: the i-th line is made from the i-th running entry, in order |
| Clean.PromptEntry | src/clean.rs:191-203 | the workspace or `(unknown)`, the file name of the path or empty, and the container or `(none)` |
| Clean.Selection | src/clean.rs:220-227 | with `--all` every entry, otherwise exactly the entries that are not running, none of them running |
| Clean.Report | src/clean.rs:262-283 | the summary only when something was cleaned; the interrupt notice first on standard error exactly when the loop was interrupted, then `Error: <failure>` for each failure in order; exit 0 iff there was no failure, else 1 |
| Clean.ErrorLines | src/clean.rs:275-277 | one `Error: <failure>` line per failure, in order |
| Clean.CleanSelected | src/clean.rs:219-283 | exit 0 or 1; an empty selection prints `Nothing to clean.` and exits 0 with no step |
| Clean.Gate | src/clean.rs:186-217 | when asked: a read error exits 1 and a refusal exits 4, both after the prompt and before any step; otherwise the rest of the run goes ahead, behind the prompt when there was one |
| Clean.GateShowsPrompt | src/clean.rs:187-207 | the prompt and `Continue? [y/N] ` open the error stream iff `--all`, some entry is running and `--yes` is absent |
| Clean.CleanEntries | src/clean.rs:186-283 | exit 0, 1 or 4, and a 4 takes no step |
| Clean.RunClean | src/clean.rs:145-178 | without Docker, exit 1 and the Docker message; otherwise the surveyed relay scan is cleaned |
| Clean.CleanPromptGate | src/clean.rs:186-217 | the prompt appears iff `all && active_count > 0 && !yes`; a read error exits 1 and a refusal exits 4, with no step and no output |
| Clean.CleanNothingSelected | src/clean.rs:231-235 | past the gate, an empty selection prints `Nothing to clean.`, exits 0 and takes no step |
| Clean.CleanLoopResult | src/clean.rs:237-283 | past the gate, the run takes the loop's steps, exits 0 iff every processed entry was cleaned, and prints the summary with the running entries left counted when not `--all` |
| Clean.CleanSparesRunning | src/clean.rs:220-227 | without `--all`, no `devcontainer down` is ever run |
| Scan.Kept | src/clean.rs:68-76 | an entry is kept iff it was read without error and its name starts with `dcx-` |
| Scan.KeptNames | src/clean.rs:67-77 | the kept names are exactly the readable names starting with `dcx-` |
| Scan.Insert | src/clean.rs:78 | inserting into a sorted list keeps it sorted and adds exactly the one name |
| Scan.Sort | src/clean.rs:78 | sorted, and a permutation of the input |
| Scan.SortedUnique | src/clean.rs:78 | only one sorted permutation exists, so any sort agrees with this one |
| Scan.JoinAll | src/clean.rs:72 | each name becomes the relay joined with that name |
| Scan.ScanRelay | src/clean.rs:63-80 | an unreadable relay gives nothing; otherwise the relay joined with each kept name, the names sorted |
| Scan.ScanRelayNames | src/clean.rs:63-80 | every scanned path's file name is a kept name starting with `dcx-`, in sorted order |
| Scan.MountColumn | src/clean.rs:242-246 | the file name of the path, or empty when it has none |
| Scan.Survey | src/clean.rs:165-177 | the workspace is the table's source for the path; the status is Active, Orphaned, Stale or Empty from table, reachability and container exactly as categorised |
| Scan.SurveyAll | src/clean.rs:163-178 | one survey per scanned path, in order |
| Status.MountStateLabel | src/status.rs:23-29 | `running` iff mounted with a container, `orphaned` iff mounted without, `stale mount` iff not mounted |
| Status.LabelFollowsCategory | src/status.rs:24-27 | the label is the category's own name, and Stale never arises from `categorize(m, m, c)` |
| Status.RowOf | src/status.rs:54-77 | the row's workspace is the table's source, its mount the file name, its state `running`, `orphaned` or `stale mount` as the entry's survey is Active, Orphaned, or Stale or Empty |
| Status.Rows | src/status.rs:52-78 | one row per scanned mount, in scan order |
| Status.RunStatus | src/status.rs:35-83 | without Docker, exit 1; an empty relay prints `No active workspaces.` and exits 0; otherwise the table of all rows and exit 0; no step is ever taken |
| Status.StatusListsEveryMount | src/status.rs:52-81 | the table is the header then one line per scanned mount, in order |
| World.ObservedTable | src/clean.rs:162 | an unreadable mount table is taken as empty |
| World.ContainerAt | src/status.rs:59-60 | a mount point has a container iff the container map holds it |
| World.Accepts | src/up.rs:121 | an answer is accepted iff, trimmed, it is `y` or `yes` in any mix of ASCII case, character by character; so an empty answer declines and `y`, `Y`, `yes` and `YES` are accepted |
| World.LowerAnswer | src/clean.rs:214 | lowering gives `y` iff the text is `y` or `Y`, and `yes` iff its three characters are `y`/`Y`, `e`/`E`, `s`/`S` |
| World.AcceptsLower | src/clean.rs:214 | a trimmed lowercase answer is accepted iff it is `y` or `yes` |
| World.Apply | src/up.rs:129-178 | no effect changes the canonical paths or the table's readability; a directory creation or removal changes only the directory set; a bind mount appends its entry and makes its target present; an unmount drops exactly the entries for its target; stopping a container removes only that container; directory, mount and unmount effects leave the containers alone |
| World.Replay | src/down.rs:85-118 | replaying steps never changes what the host resolves paths to |
| World.ReplayAppend | src/down.rs:85-118 | replaying two runs in sequence is replaying their concatenation |
| World.AndThen | src/clean.rs:119-120 | `a?; b`: a failure of `a` stops there, otherwise both runs' steps and `b`'s outcome |
| World.DoUnmount | src/clean.rs:83-96 | one unmount step; it fails iff the program could not start or exited nonzero, with the spawn error or `<prog> failed (exit N): ...` |
| World.RemoveMountDir | src/clean.rs:99-102 | one removal step; it fails iff the removal did, with `Failed to remove <path>: <error>` |
| World.Admit | src/up.rs:187-219 | the early exits in order: Docker, an unresolvable workspace, then a workspace inside a managed mount |
| World.AdmitCanonical | src/up.rs:187-219 | the early exits depend on the host only through its path resolution |
| World.MountPoint | src/up.rs:225-226 | the mount point is the relay joined with the mount name, and is itself managed |
| Docker.IsDockerAvailable | src/docker.rs:8-13 | available iff `docker info` started and exited 0 |
| Digest.Utf8Char | src/naming.rs:17 | one to four bytes per character, one byte (the code) exactly for ASCII |
| Digest.Utf8Append | src/naming.rs:17 | the encoding of a concatenation is the concatenation of encodings |
| Digest.Utf8Ascii | src/naming.rs:17 | ASCII text encodes byte for byte |
| Digest.ByteHex | src/naming.rs:19 | `{:02x}`: two lowercase hex digits whose value is the byte |
| Digest.Hex | src/naming.rs:19 | two lowercase hex digits per byte |
| Digest.Unhex | src/naming.rs:19 | half as many bytes as hex digits |
| Digest.UnhexHex | src/naming.rs:19 | decoding the hex of any bytes gives the bytes back |
| Digest.HexPrefix | src/naming.rs:19-20 | the first `2k` hex digits encode the first `k` bytes |
| Digest.Hex8 | src/naming.rs:19-20 | eight lowercase hex digits |
| Digest.Hex8FirstBytes | src/naming.rs:19-20 | the eight digits are the hex of the digest's first four bytes, and decode back to them |
| Up.TildePath | src/up.rs:17-29 | a path outside the home directory is shown unchanged; the home directory itself is `~`; anything below it starts with `~` |
| Up.TildeHome | src/up.rs:21-22 | the home directory is shown as `~` |
| Up.TildeBelow | src/up.rs:19-25 | a path below the home directory is `~/` and the rest of its path |
| Up.TildeChild | src/up.rs:17-29 | `<home>/n` is shown as `~/n` |
| Up.TildeGrandchild | src/up.rs:17-29 | `<home>/a/b` is shown as `~/a/b` |
| Up.TildeSibling | src/up.rs:17-29 | the prefix is matched by components: a sibling such as `/home/user2` of `/home/user` is not abbreviated |
| Up.PlanRunLineText | src/up.rs:34-37 | the command shown is `devcontainer up --workspace-folder <tilde M>` after `Would run: ` |
| Up.DryRunPlan | src/up.rs:32-40 | exactly two lines: `Would mount: <ws> → <tilde M>` and the `Would run:` line |
| Up.PlanLinesSplit | src/up.rs:36-39 | the two plan lines are separated by the one line break |
| Up.DryRunPlanMountPoint | src/up.rs:221-226 | the mount point in the plan is shown as `~/.colima-mounts/<mount name>` |
| Up.CollisionError | src/up.rs:43-53 | the collision message names the expected workspace, the found source, the hash and `dcx clean` |
| Up.Decide | src/up.rs:255-291 | reuse iff reachable with this workspace as source; a collision, carrying the source found, iff reachable with another source; a fresh mount iff the table has no source; unmount then mount iff unreachable but in the table |
| Up.DecideByCategory | src/up.rs:255-291 | the decision follows the entry's category: Empty mounts fresh, Stale remounts, Active or Orphaned reuses or collides |
| Up.DoMount | src/up.rs:129-149 | succeeds iff the directory is created and `bindfs` exits 0; a failed directory stops there; a `bindfs` that exits nonzero is followed by removing the directory; a spawn error is not |
| Up.Rollback | src/up.rs:170-178 | unmount then remove, the second attempted whatever the first did, and `Mount rolled back.` printed last |
| Up.Launch | src/up.rs:293-308 | exit 0 iff `devcontainer up` exits 0 (127 when it cannot start), else 1; a failure after a fresh mount is followed by the rollback, and nothing else follows |
| Up.Act | src/up.rs:249-310 | step 9 onwards exits 0 or 1 |
| Up.Decision | src/up.rs:251-253 | the decision is taken on the table's source for the mount point and on whether it is reachable |
| Up.NameHash | src/up.rs:263 | the hash in the collision message is the path hash, the last 8 characters of the mount name |
| Up.Prepare | src/up.rs:230-291 | never a usage error; a run that exits 0 created the relay directory first when it was missing, and then took exactly the steps of a successful mount handling |
| Up.RunUp | src/up.rs:185-228 | the early exits in order: Docker (1), the workspace (2), the recursion guard (2), the configuration (2), the dry run (0, with the plan); none takes a step |
| Up.NoConfigError | src/up.rs:211-217 | the message starts with `No devcontainer configuration found in ` and ends with the workspace and a period |
| Up.Declined | src/up.rs:238-246 | no prompt, so no refusal, when either user id is unknown or the workspace is the user's own; for a foreign workspace, a failed read or a blank answer declines and an accepted answer proceeds |
| Up.ReuseLaunchesOnly | src/up.rs:257-260 | a healthy mount of this workspace is reused: only `devcontainer up` runs |
| Up.CollisionReported | src/up.rs:261-266 | a healthy mount of another source exits 1 with the collision message and no step |
| Up.MountNewMounts | src/up.rs:267-274 | a mount point not in the table is created and mounted before `devcontainer up`, and the run succeeds iff all three do |
| Up.RemountUnmountsFirst | src/up.rs:276-291 | an unreachable mount in the table is unmounted first; a failed unmount exits 1 with nothing else done |
| Up.RollbackIffFresh | src/up.rs:294-308 | exit 0 iff `devcontainer up` ran and exited 0; the rollback happens iff it ran, failed, and this run mounted |
| Up.RollbackReuse | src/up.rs:257-260 | a reused mount is never rolled back |
| Up.RollbackCollision | src/up.rs:261-266 | a collision neither launches nor rolls back |
| Up.RollbackNew | src/up.rs:267-274 | a fresh mount is rolled back iff `devcontainer up` fails |
| Up.RollbackRemount | src/up.rs:276-291 | a remount is rolled back iff `devcontainer up` fails |
| Up.LaunchedBy | src/up.rs:293-308 | after the launch the devcontainer has run, and the rollback follows iff it failed after a fresh mount |
| Up.MountFailureNotLaunched | src/up.rs:269-272 | a failed mount neither launches nor rolls back |
| Up.UpEstablishesMount | src/up.rs:185-311 | when the mount table can be read, a `dcx up` (not a dry run) that exits 0 leaves the workspace's mount point in the table with this workspace as source, and reachable |
| Up.PrepareEstablishes | src/up.rs:230-311 | the same for steps 7 onwards |
| Up.MountEstablished | src/up.rs:249-311 | the same for step 9 onwards, whatever the decision |
| Up.NewMountEstablished | src/up.rs:267-274 | the same after a fresh mount |
| Up.RemountEstablished | src/up.rs:276-291 | the same after unmounting a stale mount |
| Up.BindAndLaunch | src/up.rs:129-149 | creating, bind-mounting and launching on a mount point absent from the table leaves it mounted from the workspace |
| Down.NothingToDo | src/down.rs:20-22 | `No mount found for <ws>. Nothing to do.`: the workspace and `Nothing to do` |
| Down.WorkspaceMissing | src/down.rs:25-27 | the message says the directory does not exist and points to `dcx clean` |
| Down.AfterStop | src/down.rs:91-125 | after a successful stop: unmount, then remove only when that succeeded; a Ctrl+C prints its notice first and turns success into exit 1 |
| Down.TearDown | src/down.rs:82-125 | steps in order stop, unmount, remove, each only after the one before succeeded; exit 0 iff all three succeeded and no Ctrl+C arrived, else 1 |
| Down.RunDown | src/down.rs:34-126 | the early exits in order: Docker (1), the workspace (2, with the down-specific message), the recursion guard (2), no mount in the table (0, `nothing_to_do`), none taking a step; otherwise the teardown |
| Down.InterruptFinishesUnmount | src/down.rs:91-122 | a Ctrl+C changes none of the steps taken, only the exit code, which becomes 1 |
| Down.TearDownClears | src/down.rs:85-118 | a completed teardown leaves no mount, no mount point and no container |
| Down.DownUnmounts | src/down.rs:74-125 | when the mount table can be read, a `dcx down` that exits 0 leaves the workspace unmounted, and its mount point and container gone when it did anything |
| Down.DownIdempotent | src/down.rs:74-80 | when the mount table can be read, after a `dcx down` that exits 0 another finds nothing to do, takes no step and exits 0 |
| Exec.NoMountError | src/exec.rs:17-22 | starts with `No mount found for ` and names the workspace and `dcx up` |
| Exec.StaleMountError | src/exec.rs:25-27 | the message says the mount is stale and that `dcx up` remounts it |
| Exec.ExecArgs | src/exec.rs:84-91 | `exec --workspace-folder <M>`, then `--` and the command, in order, iff the command is not empty |
| Exec.CommandOf | src/exec.rs:86-91 | the command is what follows the `--` |
| Exec.ExecArgsRoundTrip | src/exec.rs:84-91 | the arguments give back the mount point and the user's words unchanged |
| Exec.ExecArgsInjective | src/exec.rs:84-91 | different mount points or commands give different argument lists |
| Exec.RunExec | src/exec.rs:34-93 | the exits in order: Docker (1), the workspace (2), the recursion guard (2), no mount in the table (1), an unreachable mount (1); otherwise the child's exit code (127 when it cannot start) |
| Exec.ExecChangesNothing | src/exec.rs:81-92 | `dcx exec` changes nothing on the host |
| Exec.ExecOnlyOnHealthyMount | src/exec.rs:64-92 | the command runs only in a mount the table knows and that is reachable |
| Format.Text | src/format.rs:35 | a report of one line is that line; in general the lines joined with line breaks |
| Format.TextLines | src/format.rs:35 | lines free of line breaks can be recovered from the report by splitting at line breaks |
| Format.StatusLine | src/format.rs:22-33 | the four columns padded to 30, 30 and 12 characters and one space apart: the second starts at character 31, the third at 62, the last at 75, for values that fit |
| Format.StatusHeader | src/format.rs:22-25 | an 80-character header with `WORKSPACE`, `MOUNT`, `CONTAINER` and `STATE` at characters 0, 31, 62 and 75 |
| Format.RowLine | src/format.rs:27-33 | the row starts with the workspace, or `(unknown)`, and the mount name sits at character 31 |
| Format.RowLines | src/format.rs:27-34 | one line per row, in order |
| Format.StatusTableLines | src/format.rs:18-35 | `No active workspaces.` alone for no rows; otherwise the header, then one line per row in order |
| Format.FormatStatusTable | src/format.rs:18-35 | the empty table is the notice; otherwise the text starts with the header and a line break |
| Format.MountColumnAligned | src/format.rs:22-33 | the mount name of every row lines up under `MOUNT` in the header |
| Format.CheckLines | src/format.rs:53-66 | a passed check is one ticked line with ` (detail)` when there is a detail; a failed check is a crossed line and a `Fix:` line when there is a detail |
| Format.ChecksLines | src/format.rs:53-67 | every check line is indented; no checks give no lines, and one check gives exactly its own lines |
| Format.ChecksLinesAppend | src/format.rs:53-67 | the lines of a list of checks are the lines of its parts, one after the other, so each check's lines appear in the order of the checks |
| Format.CheckLinesNoBreaks | src/format.rs:53-66 | a check whose name and detail hold no line break prints no line break inside its lines |
| Format.ChecksLinesNoBreaks | src/format.rs:53-67 | the same holds of the lines of every check |
| Format.DoctorReportLines | src/format.rs:49-73 | the title first, then exactly the lines of the checks; `All checks passed.` appears iff there is at least one check and all passed, then after an empty line and last, and nothing else follows the checks |
| Format.FormatDoctorReport | src/format.rs:49-73 | the report starts with the title and, when all checks passed, ends with a blank line and `All checks passed.` |
| Format.DoctorReportRead | src/format.rs:49-73 | split at line breaks, the report is the title, the lines of each check in order, then an empty line and `All checks passed.` exactly when all passed |
| Format.RemoveLine | src/format.rs:120-131 | a removal line is `    - Remove ` and what is removed |
| Format.VolumeLines | src/format.rs:129-131 | one `Remove volume <v>  [purge]` line per volume, in order |
| Format.Removals | src/format.rs:120-131 | every runtime-image, base-tag and volume line is a removal line; one line for the runtime image when there is one, one for the base tag when it exists, one per volume |
| Format.RemovalsOrder | src/format.rs:120-131 | the runtime image's line comes first when there is one, the base tag's `dcx-base:<mount>  [purge]` line next when it exists, and the volume lines, in order, end the list |
| Format.RemovalsLists | src/format.rs:120-128 | the runtime image is listed iff the plan has one, and the base image tag iff it exists |
| Format.RemovalKind | src/format.rs:120-131 | the k-th removal names the runtime image iff it is in the runtime image's place, and the base tag iff it is in the base tag's place |
| Format.ContainerLines | src/format.rs:117-119 | exactly the stop line of the container when there is one, and nothing otherwise |
| Format.PlanLines | src/format.rs:116-135 | a plan starts with `  name  (state)` and ends with `Remove mount directory`; its second line is the stop line iff there is a container; the line before last is `Unmount bindfs` iff it is mounted |
| Format.PlanLinesRemovals | src/format.rs:116-135 | a plan's block has one line more than the title, container, removals and unmount lines, and the removals stand together, in order, right after the container line |
| Format.PlansLines | src/format.rs:115-136 | at least two lines per plan; no plans give no lines, and one plan gives exactly its block |
| Format.PlansLinesAppend | src/format.rs:115-136 | the lines of a list of plans are the blocks of its parts, one after the other |
| Format.VolumeLinesNoBreaks | src/format.rs:128-130 | volume names without line breaks give removal lines without line breaks |
| Format.RemovalsNoBreaks | src/format.rs:120-130 | the removal lines of a plan whose texts hold no line break hold none |
| Format.PlanLinesNoBreaks | src/format.rs:116-135 | the block of such a plan holds no line break inside a line |
| Format.PlansLinesNoBreaks | src/format.rs:115-136 | the same holds of the blocks of every plan |
| Format.DryRunLines | src/format.rs:110-137 | `Nothing to clean.` alone for no plans; otherwise `Would clean:` and the plans' lines in order |
| Format.FormatDryRun | src/format.rs:110-137 | the text is the notice or starts with `Would clean:` and a line break |
| Format.DryRunRead | src/format.rs:110-137 | split at line breaks, the preview is `Nothing to clean.` alone, or `Would clean:` and then each plan's block in order |
| Format.SummaryHeader | src/format.rs:142-150 | `Cleaned N mounts:` exactly when no running mount was left; otherwise the count left untouched is named |
| Format.EntryLeft | src/format.rs:154-157 | `workspace  →  mount`, or the mount alone when the workspace is not known |
| Format.EntryLeftArrow | src/format.rs:154-157 | the arrow appears iff the workspace is known |
| Format.SummaryLine | src/format.rs:154-161 | the left column padded to 52 characters, then ` was: ` and the state before cleaning at column 60 when the left column fits; the line ends with ` → ` and the action |
| Format.SummaryLines | src/format.rs:153-162 | one line per entry, in order |
| Format.CleanSummaryLines | src/format.rs:141-163 | the header counting the entries, then one line per entry in order |
| Format.FormatCleanSummary | src/format.rs:141-163 | the summary starts with its header |
| Format.CleanSummaryRead | src/format.rs:141-163 | for entries whose texts hold no line break, reading the summary back line by line gives the header and then one line per entry, in order |
| Doctor.Normalize | src/doctor.rs:17-19 | a normalized word does not end in `,`, `;` or `.` |
| Doctor.ParseVersionStr | src/doctor.rs:15-30 | the first whitespace-separated word that, stripped, has two or more dot-separated all-digit parts, stripped; nothing iff there is no such word |
| Doctor.ParseVersionFirst | src/doctor.rs:16-27 | a qualifying word after only non-qualifying ones is the result |
| Doctor.VersionShape | src/doctor.rs:20-25 | a version holds a dot and starts and ends with a digit |
| Doctor.TwoPartVersion | src/doctor.rs:20-25 | `MAJOR.MINOR` of two numerals is a version |
| Doctor.LoneNumberRejected | src/doctor.rs:21 | a word without a dot is never a version |
| Doctor.EmptyOutput | src/doctor.rs:29 | blank output has no version |
| Doctor.NormalizeLeadingV | src/doctor.rs:18 | a leading `v` is stripped |
| Doctor.DoctorExitCode | src/doctor.rs:191-198 | 0 iff every check passed, else 1 |
| Doctor.RunDoctor | src/doctor.rs:181-199 | prints the report and exits 0 iff every one of the (non-empty) checks passed |
| Image.ContentTag | src/image.rs:22-29 | `dcx-base:` and eight lower-case hex characters that encode the first four bytes of the digest of the contents, an unreadable file counting as empty |
| Image.ContentTagSeparates | src/image.rs:22-29 | contents whose digests differ in the first four bytes get different tags |
| Image.ContentTagByContents | src/image.rs:22-29 | the tag depends only on the bytes read: equal contents give equal tags wherever the file sits, and an unreadable file is tagged like an empty one |
| Image.Expansion | src/image.rs:44-50 | without `:` the text names the variable, whose value or nothing replaces it |
| Image.ExpansionWithDefault | src/image.rs:45-50 | `VAR:def` gives the value of `VAR`, or `def`, which may hold further `:` |
| Image.Expand | src/image.rs:36-61 | text without `${localEnv:` comes back unchanged |
| Image.ExpandNoBrace | src/image.rs:40-59 | text without `}` comes back unchanged, unclosed patterns included |
| Image.ExpandFirst | src/image.rs:40-52 | the first closed pattern is replaced, the text before it is kept, and expansion carries on after its `}` |
| Image.ExpandLone | src/image.rs:40-59 | a lone closed pattern becomes its expansion |
| Image.ExpandOne | src/image.rs:45-50 | `${localEnv:VAR:def}` becomes the value of `VAR`, or `def` |
| Image.ExpandOneNoDefault | src/image.rs:47-50 | `${localEnv:VAR}` becomes the value of `VAR`, or nothing |
| Image.ExpandClosed | src/image.rs:43-52 | a closed pattern is replaced by the expansion of the text up to the first `}` |
| Image.ExpandUnclosed | src/image.rs:53-57 | an unclosed pattern is copied and scanning continues after it |
| Image.ExpandStep | src/image.rs:40-58 | one pass of the loop consumes text and emits what the whole expansion would |
| Image.ExpandLocalEnv | src/image.rs:36-61 | the loop computes the expansion of the whole text |
| Colima.ColimaConfigPath | src/colima.rs:31-40 | the home directory's components then `.colima/default/colima.yaml` on macOS, `.config/colima/default/colima.yaml` elsewhere |
| Colima.MacConfigComponents | src/colima.rs:34 | the macOS path as components |
| Colima.LinuxConfigComponents | src/colima.rs:38 | the Linux path as components |
| Colima.FilterRelayMounts | src/colima.rs:59-67 | the kept mounts are exactly those whose location is not `~/.colima-mounts` with any trailing slashes; a list free of them is unchanged |
| Colima.FilterRelayMountsMember | src/colima.rs:59-67 | a mount is kept iff it was there and is not the relay |
| Colima.FilterRelayMountsAppend | src/colima.rs:59-67 | the filter keeps order: filtering a concatenation concatenates the filtered parts |
| Colima.RelayWithSlashes | src/colima.rs:63-64 | `~/.colima-mounts` followed by any number of `/` is the relay |
| Colima.ExpandTilde | src/colima.rs:71-79 | `~/x` is `x` below home, `~` is home, anything else is unchanged |
| Colima.ExpandTildeOther | src/colima.rs:76-77 | absolute and `./` locations are unchanged |
| Colima.ExpandTildeName | src/colima.rs:72-73 | `~/n` names `n` below the home directory |
| Workspace.ResolveWorkspace | src/workspace.rs:11-19 | the given path, else the current directory; its canonical form when it exists; the error messages of a missing current directory and of a missing path |
| Workspace.RequestedPath | src/workspace.rs:12-16 | the given path wins over the current directory |
| Workspace.FindDevcontainerConfig | src/workspace.rs:28-38 | `.devcontainer/devcontainer.json` when present, else `.devcontainer.json` when present, else nothing; a result is always a present file |
| Workspace.ConfigInsideWorkspace | src/workspace.rs:28-38 | the configuration found lies inside the workspace at one of the two places |
| Workspace.ConfigCandidatesDiffer | src/workspace.rs:29-33 | the two candidates are different paths |
| Paths.JoinPath | src/naming.rs:36 | `Path::join`: an absolute second path replaces the first; otherwise they are joined with one `/` |
| Paths.ComponentsJoinName | src/down.rs:72 | joining a file name adds exactly that name as the last component |
| Paths.FileNameJoinName | src/status.rs:60-64 | the file name of `dir/name` is `name` |
| Paths.FileName | src/naming.rs:25-27 | the last component when it is a name, otherwise nothing |
| Paths.StripPrefix | src/naming.rs:41 | succeeds iff the base's components begin the path's, and gives the rest |
| Paths.StripJoinName | src/naming.rs:40-50 | `base/n` stripped of `base` is `n` |
| Paths.StripJoinTwoNames | src/naming.rs:40-50 | `base/m/n` stripped of `base` is `m`, `n` |
| Paths.ComponentsJoinTwo | src/workspace.rs:29 | joining `a/b` adds the names `a` and `b` |
| Paths.ComponentsJoinThree | src/colima.rs:34 | joining a three-name relative path adds those three names |
| Paths.ComponentsJoinFour | src/colima.rs:38 | joining a four-name relative path adds those four names |
| Clean.PromptLines | src/clean.rs:36-51 | one prompt line per entry, in order |
| Clean.Finish | src/clean.rs:107-138 | the outcome of an entry is `Ok` with its action when every step succeeded, else the first failure's message |
| Cmd.FailureText | src/clean.rs:83-96 | a command that could not start reports its error; one that exited nonzero reports `<prog> failed (exit ` and its status |
| Naming.SanitizeChar | src/naming.rs:7-12 | every character becomes a name character, and a name character is kept |
| Naming.SanitizeAll | src/naming.rs:7-12 | sanitizing maps character by character and keeps the length |
| Naming.NameShape | src/naming.rs:24-32 | `dcx-<s>-<h>`: the prefix, the sanitized name, a `-` and the eight-character hash, and a valid file name |
| Strings.PadRight | src/format.rs:22-33 | `{:<w}`: the text, then spaces up to width `w`; longer text is kept whole |
| Strings.NatToString | src/format.rs:143-149 | decimal digits without a leading zero |
| Strings.Lines | src/mount_table.rs:15 | `str::lines`: nothing for empty text, and no line holds a line break |
| Strings.SplitWhitespace | src/mount_table.rs:17 | `split_whitespace`: non-empty words free of whitespace |
| Strings.SplitOnce | src/mount_table.rs:40-44 | `split_once`: nothing iff the pattern does not occur; otherwise the text before its first occurrence and the text after it |
| Strings.TrimStartBy | src/doctor.rs:18 | `trim_start_matches`: the longest suffix not starting with a matching character, everything dropped matching |
| Strings.TrimEndBy | src/colima.rs:63 | `trim_end_matches`: the longest prefix not ending with a matching character, everything dropped matching |

## Left out

- SHA-256 itself: the digest is a parameter `sha: seq<Byte> -> Digest`. The UTF-8 encoding of the path, the hex encoding and the truncation to eight characters are modelled.
- Running subprocesses (`bindfs`, `fusermount`/`umount`, `devcontainer`, `docker`, `colima`, `id`, `which`): each run is an input outcome (exit status and output, or a spawn error).
- Signal handling (`src/signals.rs`): whether Ctrl+C has arrived is an input at each point where the engines poll it.
- File-system and terminal I/O: directory creation and removal, `read_dir`, `canonicalize`, reading the answer to a prompt, and the mount table's text are inputs or `Step`s. What is printed is the list of lines the run emits.
- YAML and JSON handling: `parse_colima_mounts`, `temp_config_with_image`, `build_base_image`. Colima's mounts arrive as a sequence.
- `has_build_dockerfile`: it calls `docker::strip_jsonc_comments`, and `src/docker.rs` holds only the availability probe, so that function is not part of this model.
- The individual `dcx doctor` probes (`check_bindfs` and the others): their results are input, and only the report and the exit rule are modelled.
- The command-line front end (`src/cli.rs`, `src/main.rs`, `src/completions.rs`).
- `query_container`, `stop_container` and `read_network_mode` are not part of this model. The container at a mount point comes from the host `State`, and stopping it is an input outcome.
- The `network` field that `src/status.rs` sets on a status row, because `StatusRow` in `src/format.rs` has no such field.
- The text of the ownership prompt in `dcx up` and how the two user ids are looked up: the ids and the answer are inputs (`Up.UpOracle`).
- The progress lines the engines print with `format_step`. `Progress.FormatStep` models the function itself.
- Paths.Render: the text of a path stripped of a prefix is rebuilt from its components, so doubled `/` inside the remainder, which Rust keeps, comes out single. This shows only in `Up.TildePath` for such paths.
- Network.Parse: lower-cases ASCII letters only, where Rust's `to_lowercase` folds every letter. Both accept the same strings: the only non-ASCII character that lower-cases to ASCII letters alone is the Kelvin sign, which becomes `k`, and no keyword contains `k`.
- Format.RowLine: states the workspace and mount columns. The container column, `(none)` when there is no container, and the state column are built the same way but are not restated in the contract.
- MountTable.MountOutputRoundTrip (and MountTable.MountLineParses, MountTable.MountLinesParse): hold for sources in which no ` on ` starts before the separating one, and for targets without `(`. `parse_mount_output` cuts each line at the first ` on ` and the first `(`, so other entries are read back differently; `MountTable.MountLineShape` states what it reads from them.
- MountTable.ParseMountLine: its own contract states only that a line without ` on ` is rejected. What it returns for every line of the `mount` shape is stated by `MountTable.MountLineShape` and `MountTable.MountLineOtherType`.
- MountTable.ParseMountOutput: its own contract states only the empty case and at most one entry per line. `MountTable.ParseMountOutputLines` reduces it to `MountTable.ParseMountLine` applied line by line.
- Format.FormatDoctorReport: its own contract states the first and last lines only. The full text, read back line by line, is stated by `Format.DoctorReportRead`.
- Format.FormatDryRun: its own contract states the first line only. The full text, read back line by line, is stated by `Format.DryRunRead`.
