/** Process exit codes (`src/exit_codes.rs`). */
module ExitCodes {
  /** Success. */
  const Success: int := 0
  /** Runtime error: a mount, unmount or devcontainer step failed. */
  const RuntimeError: int := 1
  /** Usage error: bad workspace, managed path, missing configuration. */
  const UsageError: int := 2
  /** The user declined a confirmation prompt. */
  const UserAborted: int := 4
  /** A prerequisite program could not be started. */
  const PrereqNotFound: int := 127
}
