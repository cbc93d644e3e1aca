/** `dcx status` (`src/status.rs`): one row per relay entry, labelled from its category. */
module Status {
  import opened Wrappers
  import opened Strings
  import opened Paths
  import opened MountTable
  import opened Categorize
  import opened Naming
  import opened Docker
  import opened World
  import opened Format
  import opened Scan
  import ExitCodes

  /** `mount_state_label(is_mounted, has_container)`, through `categorize(m, m, c)`. */
  function MountStateLabel(mounted: bool, hasContainer: bool): (r: string)
    ensures r == "running" <==> mounted && hasContainer
    ensures r == "orphaned" <==> mounted && !hasContainer
    ensures r == "stale mount" <==> !mounted
  {
    match Categorize.Categorize(mounted, mounted, hasContainer)
    case Active => "running"
    case Orphaned => "orphaned"
    case Stale => "stale mount"
    case Empty => "stale mount"
  }

  /** The label is the category's own name for the two healthy states, and "stale mount"
      for the other two; an Empty category never arises from `categorize(m, m, c)` with a
      mounted entry, nor Stale at all. */
  lemma LabelFollowsCategory(mounted: bool, hasContainer: bool)
    ensures var st := Categorize.Categorize(mounted, mounted, hasContainer);
      st != Stale &&
      (st == Active ==> MountStateLabel(mounted, hasContainer) == "running") &&
      (st == Orphaned ==> MountStateLabel(mounted, hasContainer) == "orphaned") &&
      (st == Empty <==> MountStateLabel(mounted, hasContainer) == "stale mount")
  {
  }

  /** The row for one mount point: its source from the mount table, its file name, the
      container running there, and its label, where "mounted" means in the table and
      reachable. */
  function RowOf(w: State, mp: string): (row: StatusRow)
    ensures row.workspace == FindMountSource(ObservedTable(w), mp)
    ensures row.mount == MountColumn(mp) && row.container == ContainerAt(w, mp)
    ensures row.state == "running" <==> Survey(w, mp).status == Active
    ensures row.state == "orphaned" <==> Survey(w, mp).status == Orphaned
    ensures row.state == "stale mount" <==> Survey(w, mp).status in {Stale, Empty}
  {
    var ws := FindMountSource(ObservedTable(w), mp);
    var c := ContainerAt(w, mp);
    StatusRow(ws, MountColumn(mp), c, MountStateLabel(ws.Some? && mp in w.present, c.Some?))
  }

  function Rows(w: State, mps: seq<string>): (rows: seq<StatusRow>)
    ensures |rows| == |mps|
    ensures forall i :: 0 <= i < |mps| ==> rows[i] == RowOf(w, mps[i])
  {
    if |mps| == 0 then [] else [RowOf(w, mps[0])] + Rows(w, mps[1..])
  }

  /** `run_status`: 1 without Docker; the notice and 0 for an empty relay; otherwise the
      table of every scanned mount, in scan order, and 0. It never changes the host. */
  function RunStatus(env: Env, w: State, listing: Listing): (r: Run)
    ensures !IsDockerAvailable(env.dockerInfo) ==> r == Exit(ExitCodes.RuntimeError, DockerUnavailable)
    ensures IsDockerAvailable(env.dockerInfo) && ScanRelay(RelayDir(env.home), listing) == [] ==>
      r == Run(ExitCodes.Success, [], [NoWorkspaces], [])
    ensures IsDockerAvailable(env.dockerInfo) && ScanRelay(RelayDir(env.home), listing) != [] ==>
      r.code == ExitCodes.Success && r.err == [] &&
      r.out == [Text(StatusTableLines(Rows(w, ScanRelay(RelayDir(env.home), listing))))]
    ensures r.steps == []
  {
    if !IsDockerAvailable(env.dockerInfo) then Exit(ExitCodes.RuntimeError, DockerUnavailable)
    else
      var mounts := ScanRelay(RelayDir(env.home), listing);
      if mounts == [] then Run(ExitCodes.Success, [], [NoWorkspaces], [])
      else Run(ExitCodes.Success, [], [FormatStatusTable(Rows(w, mounts))], [])
  }

  /** The status table lists every scanned mount point exactly once, in scan order: the
      header, then for the i-th mount point the line of its row. */
  lemma StatusListsEveryMount(env: Env, w: State, listing: Listing)
    requires IsDockerAvailable(env.dockerInfo)
    ensures var mounts := ScanRelay(RelayDir(env.home), listing);
      var lines := StatusTableLines(Rows(w, mounts));
      mounts != [] ==>
        |lines| == |mounts| + 1 && lines[0] == StatusHeader() &&
        forall i :: 0 <= i < |mounts| ==> lines[i + 1] == RowLine(RowOf(w, mounts[i]))
  {
  }
}
