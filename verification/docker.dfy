/** The Docker availability probe (`src/docker.rs`). */
module Docker {
  import opened Wrappers
  import opened Cmd

  /** `is_docker_available`: `docker info` started and exited with status 0. */
  function IsDockerAvailable(info: Capture): (r: bool)
    ensures r <==> info.Ok? && info.value.status == 0
  {
    match info
    case Ok(out) => out.status == 0
    case Err(_) => false
  }
}
