/** Parsing the system mount table and looking up a mount point (`src/mount_table.rs`). */
module MountTable {
  import opened Wrappers
  import opened Strings
  import opened Seqs

  datatype MountEntry = MountEntry(source: string, target: string)

  /** The file-system type `/proc/mounts` shows for a bindfs mount. */
  const ProcBindfsType: string := "fuse.bindfs"

  /** The file-system type `mount` shows for a bindfs mount on macOS. */
  const MountBindfsType: string := "bindfs"

  /** A field as `split_whitespace` yields it: non-empty, no whitespace. */
  predicate Field(s: string) {
    s != [] && NoWhitespace(s)
  }

  // ---------------------------------------------------------------------------
  // Linux: /proc/mounts
  // ---------------------------------------------------------------------------

  /** One `/proc/mounts` line: `<source> <target> <fstype> ...`; kept when the type is bindfs. */
  function ParseProcLine(line: string): (r: Option<MountEntry>)
    ensures r.Some? ==> Field(r.value.source) && Field(r.value.target)
    ensures |SplitWhitespace(line)| < 3 ==> r.None?
  {
    var f := SplitWhitespace(line);
    if |f| >= 3 && f[2] == ProcBindfsType then Some(MountEntry(f[0], f[1])) else None
  }

  /** `parse_proc_mounts`: the bindfs entries of the table, one per matching line, in order. */
  function ParseProcMounts(text: string): (r: seq<MountEntry>)
    ensures text == [] ==> r == []
    ensures |r| <= |Lines(text)|
    ensures forall i :: 0 <= i < |r| ==> Field(r[i].source) && Field(r[i].target)
  {
    var r := FilterMap(Lines(text), ParseProcLine);
    assert forall i :: 0 <= i < |r| ==> Field(r[i].source) && Field(r[i].target) by {
      forall i | 0 <= i < |r| ensures Field(r[i].source) && Field(r[i].target) {
        FilterMapMember(Lines(text), ParseProcLine, r[i]);
      }
    }
    r
  }

  lemma TypesAreFields()
    ensures Field(ProcBindfsType) && Field(MountBindfsType)
  {
  }

  /** The `/proc/mounts` line of a bindfs mount, with whatever follows the type. */
  function ProcLine(e: MountEntry, rest: string): string {
    e.source + " " + (e.target + " " + (ProcBindfsType + " " + rest))
  }

  /** A bindfs line yields its first two fields verbatim. */
  lemma ProcLineParses(e: MountEntry, rest: string)
    requires Field(e.source) && Field(e.target)
    ensures ParseProcLine(ProcLine(e, rest)) == Some(e)
  {
    TypesAreFields();
    SplitWhitespaceThree(e.source, e.target, ProcBindfsType, rest);
  }

  /** A line of any other type yields nothing. */
  lemma ProcLineOtherType(src: string, tgt: string, fstype: string, rest: string)
    requires Field(src) && Field(tgt) && Field(fstype) && fstype != ProcBindfsType
    ensures ParseProcLine(src + " " + (tgt + " " + (fstype + " " + rest))).None?
  {
    SplitWhitespaceThree(src, tgt, fstype, rest);
  }

  /** A table joined from lines is parsed line by line. */
  lemma ParseProcMountsLines(ls: seq<string>)
    requires forall i :: 0 <= i < |ls| ==> PlainLine(ls[i])
    requires |ls| > 0 ==> ls[|ls| - 1] != []
    ensures ParseProcMounts(Strings.Join(ls, "\n")) == FilterMap(ls, ParseProcLine)
  {
    LinesJoin(ls);
  }

  function ProcLines(es: seq<MountEntry>, rest: string): (r: seq<string>)
    ensures |r| == |es|
    ensures forall i :: 0 <= i < |es| ==> r[i] == ProcLine(es[i], rest)
  {
    if |es| == 0 then [] else [ProcLine(es[0], rest)] + ProcLines(es[1..], rest)
  }

  /** A bindfs line is a plain, non-empty line when its fields and tail are. */
  lemma ProcLinePlain(e: MountEntry, rest: string)
    requires Field(e.source) && Field(e.target)
    requires PlainLine(rest)
    ensures PlainLine(ProcLine(e, rest)) && ProcLine(e, rest) != []
  {
    var l := ProcLine(e, rest);
    assert '\n' !in e.source && '\n' !in e.target;
    if rest == [] {
      assert l[|l| - 1] == ' ';
    } else {
      assert l[|l| - 1] == rest[|rest| - 1];
    }
  }

  /** Writing bindfs entries as `/proc/mounts` lines and parsing them gives the entries back. */
  lemma ProcMountsRoundTrip(es: seq<MountEntry>, rest: string)
    requires forall i :: 0 <= i < |es| ==> Field(es[i].source) && Field(es[i].target)
    requires PlainLine(rest)
    ensures ParseProcMounts(Strings.Join(ProcLines(es, rest), "\n")) == es
  {
    var ls := ProcLines(es, rest);
    forall i | 0 <= i < |ls|
      ensures PlainLine(ls[i]) && ls[i] != []
      ensures ParseProcLine(ls[i]) == Some(es[i])
    {
      ProcLinePlain(es[i], rest);
      ProcLineParses(es[i], rest);
    }
    ParseProcMountsLines(ls);
    FilterMapExact(ls, ParseProcLine, es);
  }

  // ---------------------------------------------------------------------------
  // macOS: `mount` output
  // ---------------------------------------------------------------------------

  /** One `mount` line: `<source> on <target> (<fstype>, ...)`; kept when the type is bindfs.
      The source is cut at the first ` on `, the target at the first ` (` after it, and the
      options start after the first `(` after it. */
  function ParseMountLine(line: string): (r: Option<MountEntry>)
    ensures !Contains(line, " on ") ==> r.None?
  {
    match SplitOnce(line, " on ")
    case None => None
    case Some((source, rest)) =>
      match SplitOnce(rest, " (")
      case None => None
      case Some((target, _)) =>
        match IndexOf(rest, '(')
        case None => None
        case Some(k) =>
          var fstype := Trim(Split(rest[k + 1..], ',')[0]);
          if fstype == MountBindfsType then Some(MountEntry(Trim(source), Trim(target))) else None
  }

  /** `parse_mount_output`. */
  function ParseMountOutput(text: string): (r: seq<MountEntry>)
    ensures text == [] ==> r == []
    ensures |r| <= |Lines(text)|
  {
    FilterMap(Lines(text), ParseMountLine)
  }

  /** A source after which the first ` on ` of a line is the separator that follows it:
      no ` on ` lies inside the source, nor starts in it and runs into the separator
      (a source ending in ` on`). */
  predicate CutsAtOn(source: string) {
    !Contains(source + " on", " on ")
  }

  /** Text without surrounding whitespace, which `trim` leaves alone. */
  predicate Trimmed(s: string) {
    s == [] || (!IsWhitespace(s[0]) && !IsWhitespace(s[|s| - 1]))
  }

  /** `split_once(" on ")` cuts right after a source that `CutsAtOn`. */
  lemma SourceCut(source: string, rest: string)
    requires CutsAtOn(source)
    ensures SplitOnce(source + " on " + rest, " on ") == Some((source, rest))
  {
    var s := source + " on " + rest;
    var head := source + " on";
    forall j | 0 <= j < |source| ensures !OccursAt(s, " on ", j) {
      assert !OccursAt(head, " on ", j);
      assert s[j..j + 4] == head[j..j + 4];
    }
    SplitOnceAt(source, " on ", rest);
  }

  /** After ` on `, a target free of `(` ends at the first ` (`, and the options start right
      after the first `(`. */
  lemma TargetCut(target: string, opts: string)
    requires '(' !in target
    ensures SplitOnce(target + " (" + opts, " (") == Some((target, opts))
    ensures IndexOf(target + " (" + opts, '(') == Some(|target| + 1)
    ensures (target + " (" + opts)[|target| + 2..] == opts
  {
    var rest := target + " (" + opts;
    forall j | 0 <= j < |target| ensures !OccursAt(rest, " (", j) {
      assert rest[j + 1] != '(' by {
        if j + 1 < |target| { assert rest[j + 1] == target[j + 1]; }
      }
    }
    SplitOnceAt(target, " (", opts);
    assert rest[..|target| + 1] == target + " ";
    IndexOfIs(rest, '(', |target| + 1);
  }

  /** Every line of the form `<source> on <target> (<opts>` whose source and target do not
      hold the separators themselves: kept iff the first comma-separated option, trimmed,
      is `bindfs`, and then the entry is the trimmed source and target. Spaces inside the
      source and the target are allowed. */
  lemma MountLineShape(source: string, target: string, opts: string)
    requires CutsAtOn(source) && '(' !in target
    ensures ParseMountLine(source + " on " + target + " (" + opts) ==
      if Trim(Split(opts, ',')[0]) == MountBindfsType then Some(MountEntry(Trim(source), Trim(target))) else None
  {
    var rest := target + " (" + opts;
    assert source + " on " + target + " (" + opts == source + " on " + rest;
    SourceCut(source, rest);
    TargetCut(target, opts);
  }

  /** A line whose first option is not `bindfs` yields nothing. */
  lemma MountLineOtherType(source: string, target: string, opts: string)
    requires CutsAtOn(source) && '(' !in target
    requires Trim(Split(opts, ',')[0]) != MountBindfsType
    ensures ParseMountLine(source + " on " + target + " (" + opts).None?
  {
    MountLineShape(source, target, opts);
  }

  /** The `mount` line of a bindfs mount, with whatever follows the type. */
  function MountLine(e: MountEntry, more: string): string {
    e.source + " on " + e.target + " (" + (MountBindfsType + "," + more)
  }

  /** The first option of a bindfs `mount` line is `bindfs`. */
  lemma FirstOptionBindfs(more: string)
    ensures Trim(Split(MountBindfsType + [','] + more, ',')[0]) == MountBindfsType
  {
    SplitAt(MountBindfsType, more, ',');
    TrimNoop(MountBindfsType);
  }

  /** An entry `mount` can print so that it reads back: one line, the separators only
      where they belong, no surrounding whitespace. Paths with spaces qualify. */
  predicate MountPrintable(e: MountEntry) {
    CutsAtOn(e.source) && '(' !in e.target && Trimmed(e.source) && Trimmed(e.target) &&
    '\n' !in e.source && '\n' !in e.target
  }

  /** A bindfs line yields its source and target. */
  lemma MountLineParses(e: MountEntry, more: string)
    requires MountPrintable(e)
    ensures ParseMountLine(MountLine(e, more)) == Some(e)
  {
    MountLineShape(e.source, e.target, MountBindfsType + "," + more);
    FirstOptionBindfs(more);
    TrimNoop(e.source);
    TrimNoop(e.target);
  }

  /** A table joined from lines is parsed line by line. */
  lemma ParseMountOutputLines(ls: seq<string>)
    requires forall i :: 0 <= i < |ls| ==> PlainLine(ls[i])
    requires |ls| > 0 ==> ls[|ls| - 1] != []
    ensures ParseMountOutput(Strings.Join(ls, "\n")) == FilterMap(ls, ParseMountLine)
  {
    LinesJoin(ls);
  }

  function MountLines(es: seq<MountEntry>, more: string): (r: seq<string>)
    ensures |r| == |es|
    ensures forall i :: 0 <= i < |es| ==> r[i] == MountLine(es[i], more)
  {
    if |es| == 0 then [] else [MountLine(es[0], more)] + MountLines(es[1..], more)
  }

  lemma MountLinePlain(e: MountEntry, more: string)
    requires '\n' !in e.source && '\n' !in e.target
    requires PlainLine(more)
    ensures PlainLine(MountLine(e, more)) && MountLine(e, more) != []
  {
    var l := MountLine(e, more);
    if more == [] {
      assert l[|l| - 1] == ',';
    } else {
      assert l[|l| - 1] == more[|more| - 1];
    }
  }

  lemma MountLinesParse(es: seq<MountEntry>, more: string)
    requires forall i :: 0 <= i < |es| ==> MountPrintable(es[i])
    requires PlainLine(more)
    ensures forall i :: 0 <= i < |es| ==> PlainLine(MountLines(es, more)[i]) && MountLines(es, more)[i] != []
    ensures forall i :: 0 <= i < |es| ==> ParseMountLine(MountLines(es, more)[i]) == Some(es[i])
  {
    forall i | 0 <= i < |es|
      ensures PlainLine(MountLine(es[i], more)) && MountLine(es[i], more) != []
      ensures ParseMountLine(MountLine(es[i], more)) == Some(es[i])
    {
      MountLinePlain(es[i], more);
      MountLineParses(es[i], more);
    }
  }

  /** Writing bindfs entries as `mount` lines and parsing them gives the entries back. */
  lemma MountOutputRoundTrip(es: seq<MountEntry>, more: string)
    requires forall i :: 0 <= i < |es| ==> MountPrintable(es[i])
    requires PlainLine(more)
    ensures ParseMountOutput(Strings.Join(MountLines(es, more), "\n")) == es
  {
    var ls := MountLines(es, more);
    MountLinesParse(es, more);
    ParseMountOutputLines(ls);
    FilterMapExact(ls, ParseMountLine, es);
  }

  // ---------------------------------------------------------------------------
  // Lookup
  // ---------------------------------------------------------------------------

  /** The index of the first entry mounted at `target`. */
  function FindTarget(entries: seq<MountEntry>, target: string): (r: Option<nat>)
    ensures r.None? <==> forall i :: 0 <= i < |entries| ==> entries[i].target != target
    ensures r.Some? ==> r.value < |entries| && entries[r.value].target == target
    ensures r.Some? ==> forall j :: 0 <= j < r.value ==> entries[j].target != target
  {
    if |entries| == 0 then None
    else if entries[0].target == target then Some(0)
    else match FindTarget(entries[1..], target)
      case None => None
      case Some(i) => Some(i + 1)
  }

  /** `find_mount_source`: the source of the first entry whose target is `target`. */
  function FindMountSource(entries: seq<MountEntry>, target: string): (r: Option<string>)
    ensures r.Some? <==> exists i :: 0 <= i < |entries| && entries[i].target == target
    ensures r.Some? ==> exists i :: (0 <= i < |entries| && entries[i].target == target
      && r.value == entries[i].source
      && (forall j :: 0 <= j < i ==> entries[j].target != target))
  {
    match FindTarget(entries, target)
    case None => None
    case Some(i) => Some(entries[i].source)
  }

  /** The first entry with the target decides, whatever comes after it. */
  lemma FindMountSourceFirst(entries: seq<MountEntry>, i: nat, target: string)
    requires i < |entries| && entries[i].target == target
    requires forall j :: 0 <= j < i ==> entries[j].target != target
    ensures FindMountSource(entries, target) == Some(entries[i].source)
  {
    var k := FindTarget(entries, target);
    assert k.Some?;
  }
}
