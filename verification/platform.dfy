/** Per-OS unmounting and mount-table reading (`src/platform.rs`). The target OS is a
    parameter instead of a compile-time switch. */
module Platform {
  import opened Wrappers
  import opened Cmd
  import opened MountTable
  import Strings

  datatype Os = Linux | MacOs

  /** `unmount_prog`: the program that detaches a FUSE mount. */
  function UnmountProg(os: Os): (r: string)
    ensures os == Linux ==> r == "fusermount"
    ensures os == MacOs ==> r == "umount"
  {
    match os
    case Linux => "fusermount"
    case MacOs => "umount"
  }

  /** `unmount_args`: the arguments after the program name; the mount point comes last. */
  function UnmountArgs(os: Os, mountPoint: string): (r: seq<string>)
    ensures |r| > 0 && r[|r| - 1] == mountPoint
    ensures os == Linux ==> r == ["-u", mountPoint]
    ensures os == MacOs ==> r == [mountPoint]
  {
    match os
    case Linux => ["-u", mountPoint]
    case MacOs => [mountPoint]
  }

  /** `bindfs_install_hint`: the platform's package manager, asked to install `bindfs`. */
  function BindfsInstallHint(os: Os): (r: string)
    ensures os == Linux ==> r == "sudo apt install bindfs"
    ensures os == MacOs ==> r == "brew install bindfs"
    ensures Strings.EndsWith(r, " install bindfs")
  {
    var manager := match os case Linux => "sudo apt" case MacOs => "brew";
    assert (manager + " install bindfs")[|manager|..] == " install bindfs";
    manager + " install bindfs"
  }

  /** What the OS gives when asked for its mount table: the text of `/proc/mounts` (or the
      read error) on Linux, the outcome of running `mount` on macOS. */
  datatype TableSource =
    | ProcFile(read: Result<string, string>)
    | MountCommand(run: Capture)

  /** `read_mount_table`: the bindfs entries of the system mount table, or why it could not
      be read. On macOS the exit status of `mount` is not consulted, only its output. */
  function ReadMountTable(src: TableSource): (r: Result<seq<MountEntry>, string>)
    ensures src.ProcFile? && src.read.Err? ==>
      r == Err("Failed to read /proc/mounts: " + src.read.error)
    ensures src.ProcFile? && src.read.Ok? ==> r == Ok(ParseProcMounts(src.read.value))
    ensures src.MountCommand? && src.run.Err? ==> r == Err(src.run.error)
    ensures src.MountCommand? && src.run.Ok? ==> r == Ok(ParseMountOutput(src.run.value.stdout))
  {
    match src
    case ProcFile(Err(e)) => Err("Failed to read /proc/mounts: " + e)
    case ProcFile(Ok(text)) => Ok(ParseProcMounts(text))
    case MountCommand(Err(e)) => Err(e)
    case MountCommand(Ok(out)) => Ok(ParseMountOutput(out.stdout))
  }
}
