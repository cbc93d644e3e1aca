/** Colima configuration paths and mount filtering (`src/colima.rs`). Reading the YAML file
    is outside the model; its mounts arrive as a sequence. */
module Colima {
  import opened Wrappers
  import opened Strings
  import opened Seqs
  import opened Paths
  import opened Platform

  /** One entry of `mounts:` in `colima.yaml`. */
  datatype ColimaMount = ColimaMount(location: string, writable: bool)

  /** The relay directory as it is written in `colima.yaml`. */
  const RelayLocation: string := "~/.colima-mounts"

  /** The configuration file relative to the home directory. */
  function ConfigRelative(os: Os): string {
    match os
    case MacOs => ".colima/default/colima.yaml"
    case Linux => ".config/colima/default/colima.yaml"
  }

  /** `colima_config_path`: the default profile's `colima.yaml` under `home`. */
  function ColimaConfigPath(os: Os, home: string): (r: string)
    ensures os == MacOs ==>
      Components(r) == Components(home) + [Normal(".colima"), Normal("default"), Normal("colima.yaml")]
    ensures os == Linux ==>
      Components(r) == Components(home) + [Normal(".config"), Normal("colima"), Normal("default"), Normal("colima.yaml")]
  {
    match os
    case MacOs =>
      MacConfigComponents(home);
      JoinPath(home, ConfigRelative(os))
    case Linux =>
      LinuxConfigComponents(home);
      JoinPath(home, ConfigRelative(os))
  }

  lemma MacConfigComponents(home: string)
    ensures Components(JoinPath(home, ConfigRelative(MacOs))) ==
      Components(home) + [Normal(".colima"), Normal("default"), Normal("colima.yaml")]
  {
    assert ConfigRelative(MacOs) == ".colima" + "/" + ("default" + "/" + "colima.yaml");
    ComponentsJoinThree(home, ".colima", "default", "colima.yaml");
  }

  lemma LinuxConfigComponents(home: string)
    ensures Components(JoinPath(home, ConfigRelative(Linux))) ==
      Components(home) + [Normal(".config"), Normal("colima"), Normal("default"), Normal("colima.yaml")]
  {
    assert ConfigRelative(Linux) == ".config" + "/" + ("colima" + "/" + ("default" + "/" + "colima.yaml"));
    ComponentsJoinFour(home, ".config", "colima", "default", "colima.yaml");
  }

  /** The location names the relay directory, whatever number of trailing `/` it has. */
  predicate IsRelayMount(m: ColimaMount) {
    TrimEndBy(m.location, c => c == '/') == RelayLocation
  }

  /** `filter_relay_mounts`: drops the relay directory's entries, keeps the rest in order. */
  function FilterRelayMounts(mounts: seq<ColimaMount>): (r: seq<ColimaMount>)
    ensures forall i :: 0 <= i < |r| ==> !IsRelayMount(r[i]) && r[i] in mounts
    ensures (forall i :: 0 <= i < |mounts| ==> !IsRelayMount(mounts[i])) ==> r == mounts
  {
    Filter(mounts, m => !IsRelayMount(m))
  }

  /** An entry survives exactly when it was there and is not the relay directory. */
  lemma FilterRelayMountsMember(mounts: seq<ColimaMount>, m: ColimaMount)
    ensures m in FilterRelayMounts(mounts) <==> m in mounts && !IsRelayMount(m)
  {
    FilterMember(mounts, m => !IsRelayMount(m), m);
  }

  /** Filtering splits over concatenation, so kept entries keep their relative order. */
  lemma FilterRelayMountsAppend(a: seq<ColimaMount>, b: seq<ColimaMount>)
    ensures FilterRelayMounts(a + b) == FilterRelayMounts(a) + FilterRelayMounts(b)
  {
    FilterAppend(a, b, m => !IsRelayMount(m));
  }

  /** `~/.colima-mounts` followed by any number of `/` is recognised as the relay. */
  lemma RelayWithSlashes(slashes: nat, writable: bool)
    ensures IsRelayMount(ColimaMount(RelayLocation + seq(slashes, _ => '/'), writable))
  {
    var loc := RelayLocation + seq(slashes, _ => '/');
    var t := TrimEndBy(loc, c => c == '/');
    assert loc[|RelayLocation| - 1] == 's';
    assert forall i :: |RelayLocation| <= i < |loc| ==> loc[i] == '/';
    assert |t| >= |RelayLocation|;
    assert |t| <= |RelayLocation|;
    assert t == loc[..|RelayLocation|] == RelayLocation;
  }

  /** `expand_tilde`: `~/rest` is `rest` under `home`, `~` is `home`, anything else as is. */
  function ExpandTilde(location: string, home: string): (r: string)
    ensures StartsWith(location, "~/") ==> r == JoinPath(home, location[2..])
    ensures location == "~" ==> r == home
    ensures !StartsWith(location, "~/") && location != "~" ==> r == location
  {
    if StartsWith(location, "~/") then JoinPath(home, location[2..])
    else if location == "~" then home
    else location
  }

  /** Absolute locations and `./` locations are left alone. */
  lemma ExpandTildeOther(location: string, home: string)
    requires IsAbsolute(location) || StartsWith(location, "./")
    ensures ExpandTilde(location, home) == location
  {
  }

  /** `~/n` names `n` directly under the home directory. */
  lemma ExpandTildeName(n: string, home: string)
    requires ValidName(n)
    ensures Components(ExpandTilde("~/" + n, home)) == Components(home) + [Normal(n)]
  {
    assert ("~/" + n)[2..] == n;
    ComponentsJoinName(home, n);
  }
}
