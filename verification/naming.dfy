/** Mount names, the relay directory and the recursion guard (`src/naming.rs`). */
module Naming {
  import opened Wrappers
  import opened Strings
  import opened Paths
  import opened Digest

  /** The longest sanitised name `sanitize_name` keeps. */
  const MaxNameChars: nat := 30

  /** The relay directory's name under the home directory. */
  const RelayName: string := ".colima-mounts"

  lemma RelayNameValid()
    ensures ValidName(RelayName)
  {
    assert RelayName == "." + "colima-mounts";
  }

  /** The characters a sanitised name is made of. */
  predicate NameChar(c: char) {
    IsAsciiAlphanumeric(c) || c == '-'
  }

  function SanitizeChar(c: char): (r: char)
    ensures NameChar(r)
    ensures NameChar(c) ==> r == c
  {
    if IsAsciiAlphanumeric(c) then c else '-'
  }

  /** The character-by-character map of `sanitize_name`, before the cut to 30. */
  function SanitizeAll(s: string): (r: string)
    ensures |r| == |s|
    ensures forall i :: 0 <= i < |s| ==> r[i] == SanitizeChar(s[i])
  {
    if |s| == 0 then "" else [SanitizeChar(s[0])] + SanitizeAll(s[1..])
  }

  /** `sanitize_name`: non-alphanumeric characters become `-`; at most 30 characters kept. */
  function Sanitize(name: string): (r: string)
    ensures |r| == if |name| < MaxNameChars then |name| else MaxNameChars
    ensures forall i :: 0 <= i < |r| ==> r[i] == SanitizeChar(name[i])
    ensures forall i :: 0 <= i < |r| ==> NameChar(r[i])
  {
    var all := SanitizeAll(name);
    if |all| <= MaxNameChars then all else all[..MaxNameChars]
  }

  /** Names already made of name characters and short enough come through unchanged. */
  lemma SanitizeIdentity(name: string)
    requires |name| <= MaxNameChars
    requires forall i :: 0 <= i < |name| ==> NameChar(name[i])
    ensures Sanitize(name) == name
  {
  }

  /** Sanitising twice is sanitising once. */
  lemma SanitizeIdempotent(name: string)
    ensures Sanitize(Sanitize(name)) == Sanitize(name)
  {
    SanitizeIdentity(Sanitize(name));
  }

  /** `compute_hash`: the first eight lowercase hex characters of SHA-256 of the path's UTF-8. */
  function ComputeHash(path: string, sha: seq<Byte> -> Digest): (r: string)
    ensures |r| == 8
    ensures forall i :: 0 <= i < 8 ==> IsLowerHex(r[i])
    ensures Unhex(r) == sha(Utf8(path))[..4]
  {
    Hex8FirstBytes(sha(Utf8(path)));
    Hex8(sha(Utf8(path)))
  }

  /** The text `mount_name` sanitises: the path's file name, or nothing. */
  function LastName(path: string): (r: string)
    ensures FileName(path).Some? ==> r == FileName(path).value
    ensures FileName(path).None? ==> r == ""
  {
    FileName(path).GetOr("")
  }

  /** Sanitised names and hex digits never hold a path separator. */
  lemma NoSlash(s: string)
    requires forall i :: 0 <= i < |s| ==> NameChar(s[i]) || IsLowerHex(s[i])
    ensures '/' !in s
  {
  }

  lemma NoSlashAppend(a: string, b: string)
    requires '/' !in a && '/' !in b
    ensures '/' !in a + b
  {
  }

  /** `mount_name`: `dcx-<sanitised file name>-<hash8>`. */
  function MountName(path: string, sha: seq<Byte> -> Digest): (r: string)
    ensures |r| == 13 + |Sanitize(LastName(path))| <= 43
    ensures StartsWith(r, "dcx-")
    ensures r[4..|r| - 9] == Sanitize(LastName(path))
    ensures r[|r| - 9] == '-'
    ensures r[|r| - 8..] == ComputeHash(path, sha)
    ensures ValidName(r)
  {
    var s := Sanitize(LastName(path));
    var h := ComputeHash(path, sha);
    NoSlash(s);
    NoSlash(h);
    NameShape(s, h);
    "dcx-" + s + "-" + h
  }

  /** Where the parts of a mount name sit in it. */
  lemma NameShape(s: string, h: string)
    requires '/' !in s && '/' !in h && |h| == 8
    ensures var r := "dcx-" + s + "-" + h;
      |r| == 13 + |s| && StartsWith(r, "dcx-") && r[4..|r| - 9] == s && r[|r| - 9] == '-' &&
      r[|r| - 8..] == h && ValidName(r)
  {
    var r := "dcx-" + s + "-" + h;
    assert '/' !in "dcx-" && '/' !in "-";
    NoSlashAppend("dcx-", s);
    NoSlashAppend("dcx-" + s, "-");
    NoSlashAppend("dcx-" + s + "-", h);
    assert r[4..|r| - 9] == s;
    assert r[|r| - 8..] == h;
  }

  /** The root has no file name, so its mount name begins `dcx--`. */
  lemma MountNameRoot(sha: seq<Byte> -> Digest)
    ensures StartsWith(MountName("/", sha), "dcx--")
  {
    assert "/" == "" + "/" + "";
    BodySlash("", "");
    BodyEmpty();
    assert Components("/") == [RootDir];
  }

  /** A path whose last component is `n` is named after `n`, cut to 30 characters. */
  lemma MountNameOfChild(parent: string, n: string, sha: seq<Byte> -> Digest)
    requires ValidName(n)
    ensures var r := MountName(JoinPath(parent, n), sha);
      r[4..|r| - 9] == Sanitize(n)
  {
    FileNameJoinName(parent, n);
  }

  /** `relay_dir`: `<home>/.colima-mounts`. */
  function RelayDir(home: string): (r: string)
    ensures Components(r) == Components(home) + [Normal(RelayName)]
    ensures StripPrefix(r, home) == Some([Normal(RelayName)])
  {
    ComponentsJoinName(home, RelayName);
    StripJoinName(home, RelayName);
    JoinPath(home, RelayName)
  }

  /** `is_dcx_managed_path`: the first component of `path` past `relay` starts with `dcx-`. */
  function IsManagedPath(path: string, relay: string): (r: bool)
    ensures r <==> var cs, rs := Components(path), Components(relay);
      rs < cs && cs[|rs|].Normal? && StartsWith(cs[|rs|].name, "dcx-")
  {
    match StripPrefix(path, relay)
    case Some(rest) => |rest| > 0 && rest[0].Normal? && StartsWith(rest[0].name, "dcx-")
    case None => false
  }

  /** The relay directory itself is not a managed path. */
  lemma RelayNotManaged(relay: string)
    ensures !IsManagedPath(relay, relay)
  {
  }

  /** Every mount point this tool creates, and everything below it, is a managed path. */
  lemma MountPointManaged(relay: string, ws: string, sha: seq<Byte> -> Digest)
    ensures IsManagedPath(JoinPath(relay, MountName(ws, sha)), relay)
  {
    ComponentsJoinName(relay, MountName(ws, sha));
  }

  lemma BelowMountPointManaged(relay: string, ws: string, sub: string, sha: seq<Byte> -> Digest)
    requires ValidName(sub)
    ensures IsManagedPath(JoinPath(JoinPath(relay, MountName(ws, sha)), sub), relay)
  {
    var m := MountName(ws, sha);
    ComponentsJoinName(relay, m);
    ComponentsJoinName(JoinPath(relay, m), sub);
    assert Components(JoinPath(JoinPath(relay, m), sub))[|Components(relay)|] == Normal(m);
  }

  /** A name directly under the relay is managed exactly when it starts with `dcx-`. */
  lemma ChildManagedIff(relay: string, n: string)
    requires ValidName(n)
    ensures IsManagedPath(JoinPath(relay, n), relay) <==> StartsWith(n, "dcx-")
  {
    ComponentsJoinName(relay, n);
  }
}
