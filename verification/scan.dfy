/** The relay scan (`scan_relay`, `src/clean.rs`) and the survey `dcx status` and
    `dcx clean` make of each entry it finds. */
module Scan {
  import opened Wrappers
  import opened Strings
  import opened Seqs
  import opened Paths
  import opened MountTable
  import opened Categorize
  import opened World

  /** What `read_dir` yields: an error for the directory, or one result per entry (its file
      name, or the error reading it). */
  type Listing = Result<seq<Result<string, string>>, string>

  /** A relay entry `scan_relay` keeps: read without error, and named `dcx-...`. */
  function Kept(e: Result<string, string>): (r: Option<string>)
    ensures r.Some? <==> e.Ok? && StartsWith(e.value, "dcx-")
    ensures r.Some? ==> r.value == e.value
  {
    if e.Ok? && StartsWith(e.value, "dcx-") then Some(e.value) else None
  }

  /** The kept names, in directory order. */
  function KeptNames(entries: seq<Result<string, string>>): (r: seq<string>)
    ensures forall n :: n in r <==> Ok(n) in entries && StartsWith(n, "dcx-")
  {
    var r := FilterMap(entries, Kept);
    assert forall n :: n in r <==> Ok(n) in entries && StartsWith(n, "dcx-") by {
      forall n ensures n in r <==> Ok(n) in entries && StartsWith(n, "dcx-") {
        FilterMapMember(entries, Kept, n);
        if Ok(n) in entries && StartsWith(n, "dcx-") {
          var i :| 0 <= i < |entries| && entries[i] == Ok(n);
          assert Kept(entries[i]) == Some(n);
        }
      }
    }
    r
  }

  // ---------------------------------------------------------------------------
  // Sorting
  // ---------------------------------------------------------------------------

  /** Ascending by code point, which is the byte order of their UTF-8 encodings and so the
      order `PathBuf::sort` gives paths that differ only in their last component. */
  predicate Sorted(s: seq<string>) {
    forall i, j :: 0 <= i < j < |s| ==> LexLe(s[i], s[j])
  }

  /** `x` comes no later than any element of `s`. */
  predicate Below(x: string, s: seq<string>) {
    forall i :: 0 <= i < |s| ==> LexLe(x, s[i])
  }

  function Insert(x: string, s: seq<string>): (r: seq<string>)
    requires Sorted(s)
    ensures Sorted(r)
    ensures multiset(r) == multiset(s) + multiset{x}
    ensures |r| == |s| + 1
    decreases |s|
  {
    if |s| == 0 then [x]
    else if LexLe(x, s[0]) then
      assert Below(x, s) by {
        forall i | 0 <= i < |s| ensures LexLe(x, s[i]) {
          if i > 0 { LexLeTrans(x, s[0], s[i]); }
        }
      }
      [x] + s
    else
      LexLeTotal(x, s[0]);
      assert s == [s[0]] + s[1..];
      var t := Insert(x, s[1..]);
      assert Below(s[0], t) by {
        forall i | 0 <= i < |t| ensures LexLe(s[0], t[i]) {
          assert t[i] in multiset(t);
          if t[i] != x {
            assert t[i] in multiset(s[1..]);
            var k :| 0 <= k < |s[1..]| && s[1..][k] == t[i];
            assert s[k + 1] == t[i];
          }
        }
      }
      [s[0]] + t
  }

  /** A sort of the names, by insertion. */
  function Sort(s: seq<string>): (r: seq<string>)
    ensures Sorted(r)
    ensures multiset(r) == multiset(s)
    ensures |r| == |s|
  {
    if |s| == 0 then []
    else
      assert s == [s[0]] + s[1..];
      Insert(s[0], Sort(s[1..]))
  }

  /** There is only one sorted arrangement of a collection of names: whatever algorithm
      `sort` uses, its result is `Sort`'s. */
  lemma {:induction false} SortedUnique(a: seq<string>, b: seq<string>)
    requires Sorted(a) && Sorted(b) && multiset(a) == multiset(b)
    ensures a == b
    decreases |a|
  {
    assert |a| == |multiset(a)| == |b|;
    if |a| > 0 {
      SortedHeads(a, b);
      TailMultiset(a, b);
      SortedUnique(a[1..], b[1..]);
      assert a == [a[0]] + a[1..] && b == [b[0]] + b[1..];
    }
  }

  /** Two sorted arrangements of the same names start with the same name. */
  lemma SortedHeads(a: seq<string>, b: seq<string>)
    requires Sorted(a) && Sorted(b) && multiset(a) == multiset(b) && |a| > 0
    ensures |b| > 0 && a[0] == b[0]
  {
    assert a[0] in multiset(b);
    var k :| 0 <= k < |b| && b[k] == a[0];
    assert b[0] in multiset(a);
    var m :| 0 <= m < |a| && a[m] == b[0];
    assert LexLe(a[0], b[0]) by { if m == 0 { LexLeTotal(a[0], a[0]); } }
    assert LexLe(b[0], a[0]) by { if k == 0 { LexLeTotal(b[0], b[0]); } }
    LexLeAntisym(a[0], b[0]);
  }

  /** Removing the same first element leaves the same names. */
  lemma TailMultiset(a: seq<string>, b: seq<string>)
    requires multiset(a) == multiset(b) && |a| > 0 && |b| > 0 && a[0] == b[0]
    ensures multiset(a[1..]) == multiset(b[1..])
  {
    assert a == [a[0]] + a[1..] && b == [b[0]] + b[1..];
    assert multiset(a[1..]) == multiset(a) - multiset{a[0]};
    assert multiset(b[1..]) == multiset(b) - multiset{b[0]};
  }

  // ---------------------------------------------------------------------------
  // scan_relay
  // ---------------------------------------------------------------------------

  function JoinAll(relay: string, names: seq<string>): (r: seq<string>)
    ensures |r| == |names|
    ensures forall i :: 0 <= i < |names| ==> r[i] == JoinPath(relay, names[i])
  {
    if |names| == 0 then [] else [JoinPath(relay, names[0])] + JoinAll(relay, names[1..])
  }

  /** `scan_relay`: the relay's `dcx-...` entries, sorted, as paths below the relay; nothing
      when the relay cannot be listed; entries that cannot be read are skipped. */
  function ScanRelay(relay: string, listing: Listing): (r: seq<string>)
    ensures listing.Err? ==> r == []
    ensures listing.Ok? ==>
      var names := Sort(KeptNames(listing.value));
      r == JoinAll(relay, names) && (forall n :: n in names <==> Ok(n) in listing.value && StartsWith(n, "dcx-"))
  {
    match listing
    case Err(_) => []
    case Ok(es) =>
      var names := Sort(KeptNames(es));
      assert forall n :: n in names <==> n in multiset(names);
      assert forall n :: n in KeptNames(es) <==> n in multiset(KeptNames(es));
      JoinAll(relay, names)
  }

  /** A listing of valid file names (as `read_dir` gives) scans to paths whose file names
      are exactly the kept names, in sorted order, each inside the relay. */
  lemma ScanRelayNames(relay: string, listing: Listing)
    requires listing.Ok?
    requires forall i :: 0 <= i < |listing.value| && listing.value[i].Ok? ==> ValidName(listing.value[i].value)
    ensures var r := ScanRelay(relay, listing);
      var names := Sort(KeptNames(listing.value));
      |r| == |names| && Sorted(names) &&
      forall i :: 0 <= i < |r| ==> FileName(r[i]) == Some(names[i]) && StartsWith(names[i], "dcx-")
  {
    var r := ScanRelay(relay, listing);
    var names := Sort(KeptNames(listing.value));
    assert r == JoinAll(relay, names);
    forall i | 0 <= i < |names| ensures FileName(r[i]) == Some(names[i]) && StartsWith(names[i], "dcx-") {
      var n := names[i];
      assert n in names;
      var j :| 0 <= j < |listing.value| && listing.value[j] == Ok(n);
      FileNameJoinName(relay, n);
    }
  }

  // ---------------------------------------------------------------------------
  // Surveying an entry
  // ---------------------------------------------------------------------------

  /** `EntryInfo`: a relay entry with what the mount table, the file system and Docker say
      about it. */
  datatype Entry = Entry(path: string, workspace: Option<string>, status: MountStatus, container: Option<string>)

  /** The mount column of a path: its file name, or nothing. */
  function MountColumn(path: string): (r: string)
    ensures FileName(path).Some? ==> r == FileName(path).value
    ensures FileName(path).None? ==> r == ""
  {
    match FileName(path)
    case Some(n) => n
    case None => ""
  }

  /** The survey of one entry: its source from the mount table (when the table could be
      read), whether it can be reached, and the container running there. */
  function Survey(w: State, path: string): (e: Entry)
    ensures e.path == path && e.container == ContainerAt(w, path)
    ensures e.workspace == FindMountSource(ObservedTable(w), path)
    ensures e.status == Active <==> e.workspace.Some? && path in w.present && path in w.containers
    ensures e.status == Orphaned <==> e.workspace.Some? && path in w.present && path !in w.containers
    ensures e.status == Stale <==> e.workspace.Some? && path !in w.present
    ensures e.status == Empty <==> e.workspace.None?
  {
    var ws := FindMountSource(ObservedTable(w), path);
    var c := ContainerAt(w, path);
    Entry(path, ws, Categorize.Categorize(ws.Some?, path in w.present, c.Some?), c)
  }

  function SurveyAll(w: State, paths: seq<string>): (r: seq<Entry>)
    ensures |r| == |paths|
    ensures forall i :: 0 <= i < |paths| ==> r[i] == Survey(w, paths[i])
  {
    if |paths| == 0 then [] else [Survey(w, paths[0])] + SurveyAll(w, paths[1..])
  }
}
