/** The four states of a relay entry (`src/categorize.rs`). */
module Categorize {

  datatype MountStatus =
    | Active    // healthy bindfs mount with a running container
    | Orphaned  // healthy bindfs mount, no container
    | Stale     // in the mount table but not accessible
    | Empty     // not in the mount table: a leftover directory

  /** `categorize(is_fuse_mounted, is_accessible, has_container)`. */
  function Categorize(inTable: bool, accessible: bool, hasContainer: bool): (r: MountStatus)
    ensures r == Empty <==> !inTable
    ensures r == Stale <==> inTable && !accessible
    ensures r == Active <==> inTable && accessible && hasContainer
    ensures r == Orphaned <==> inTable && accessible && !hasContainer
  {
    if !inTable then Empty
    else if !accessible then Stale
    else if hasContainer then Active
    else Orphaned
  }

  /** The flags that matter: a missing table entry hides the other two, an inaccessible
      mount point hides the container. */
  lemma CategorizeIgnores(inTable: bool, accessible: bool, hasContainer: bool)
    ensures Categorize(false, accessible, hasContainer) == Categorize(false, false, false)
    ensures Categorize(true, false, hasContainer) == Categorize(true, false, false)
  {
  }
}
