/** Workspace resolution and configuration lookup (`src/workspace.rs`). The file system is
    abstract: `canonical` maps each path that exists to its canonical form, `present` is the
    set of paths that exist. */
module Workspace {
  import opened Wrappers
  import opened Strings
  import opened Seqs
  import opened Paths

  /** `resolve_workspace`: the canonical form of the given path, or of the current directory. */
  function ResolveWorkspace(given: Option<string>, cwd: Result<string, string>,
                            canonical: map<string, string>): (r: Result<string, string>)
    ensures given.None? && cwd.Err? ==>
      r == Err("Cannot determine current directory: " + cwd.error)
    ensures r.Ok? <==> var p := RequestedPath(given, cwd); p.Some? && p.value in canonical
    ensures r.Ok? ==> r.value == canonical[RequestedPath(given, cwd).value]
    ensures r.Err? && RequestedPath(given, cwd).Some? ==>
      r.error == "Workspace path does not exist: " + RequestedPath(given, cwd).value &&
      Contains(r.error, RequestedPath(given, cwd).value)
  {
    match RequestedPath(given, cwd)
    case None => Err("Cannot determine current directory: " + cwd.error)
    case Some(path) =>
      if path in canonical then Ok(canonical[path])
      else
        var prefix := "Workspace path does not exist: ";
        ContainsWitness(prefix + path, path, |prefix|);
        Err(prefix + path)
  }

  /** The path `resolve_workspace` tries to canonicalise: the given one, else the current one. */
  function RequestedPath(given: Option<string>, cwd: Result<string, string>): (r: Option<string>)
    ensures given.Some? ==> r == given
    ensures given.None? ==> r == cwd.ToOption()
  {
    if given.Some? then given else cwd.ToOption()
  }

  /** `.devcontainer/devcontainer.json` under the workspace. */
  function NestedConfig(ws: string): string {
    JoinPath(JoinPath(ws, ".devcontainer"), "devcontainer.json")
  }

  /** `.devcontainer.json` under the workspace. */
  function TopLevelConfig(ws: string): string {
    JoinPath(ws, ".devcontainer.json")
  }

  /** `find_devcontainer_config`: the nested file first, then the top-level one. */
  function FindDevcontainerConfig(ws: string, present: set<string>): (r: Option<string>)
    ensures NestedConfig(ws) in present ==> r == Some(NestedConfig(ws))
    ensures NestedConfig(ws) !in present && TopLevelConfig(ws) in present ==> r == Some(TopLevelConfig(ws))
    ensures r.None? <==> NestedConfig(ws) !in present && TopLevelConfig(ws) !in present
    ensures r.Some? ==> r.value in present
  {
    if NestedConfig(ws) in present then Some(NestedConfig(ws))
    else if TopLevelConfig(ws) in present then Some(TopLevelConfig(ws))
    else None
  }

  /** Whatever is found lies in the workspace: its components are the workspace's followed by
      `.devcontainer`, `devcontainer.json` or by `.devcontainer.json`. */
  lemma ConfigInsideWorkspace(ws: string, present: set<string>)
    requires FindDevcontainerConfig(ws, present).Some?
    ensures var cs := Components(FindDevcontainerConfig(ws, present).value);
      cs == Components(ws) + [Normal(".devcontainer"), Normal("devcontainer.json")] ||
      cs == Components(ws) + [Normal(".devcontainer.json")]
  {
    NestedComponents(ws);
    TopLevelComponents(ws);
  }

  lemma NestedComponents(ws: string)
    ensures Components(NestedConfig(ws)) ==
      Components(ws) + [Normal(".devcontainer"), Normal("devcontainer.json")]
  {
    var dir := JoinPath(ws, ".devcontainer");
    ComponentsJoinName(ws, ".devcontainer");
    ComponentsJoinName(dir, "devcontainer.json");
    var c := Components(ws);
    assert Components(NestedConfig(ws)) == (c + [Normal(".devcontainer")]) + [Normal("devcontainer.json")];
    AppendPair(c, Normal(".devcontainer"), Normal("devcontainer.json"));
  }

  lemma TopLevelComponents(ws: string)
    ensures Components(TopLevelConfig(ws)) == Components(ws) + [Normal(".devcontainer.json")]
  {
    ComponentsJoinName(ws, ".devcontainer.json");
  }

  /** The two candidates are different files, so precedence is meaningful. */
  lemma ConfigCandidatesDiffer(ws: string)
    ensures NestedConfig(ws) != TopLevelConfig(ws)
  {
    NestedComponents(ws);
    TopLevelComponents(ws);
    var n := Components(NestedConfig(ws));
    var t := Components(TopLevelConfig(ws));
    assert |n| != |t|;
  }
}
