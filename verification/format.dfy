/** The report formatters (`src/format.rs`). Each report is built as its list of lines,
    and the printed text is those lines joined with `\n`. */
module Format {
  import opened Wrappers
  import opened Strings
  import Seqs

  /** The right arrow, U+2192. */
  const Arrow: string := "\U{2192}"

  /** The text of a report made of these lines. */
  function Text(lines: seq<string>): (r: string)
    ensures |lines| == 1 ==> r == lines[0]
  {
    Strings.Join(lines, "\n")
  }

  /** Reading a report back line by line gives its lines, when none holds a line break. */
  lemma {:induction false} TextLines(lines: seq<string>)
    requires |lines| >= 1
    requires forall i :: 0 <= i < |lines| ==> '\n' !in lines[i]
    ensures Split(Text(lines), '\n') == lines
  {
    SplitJoin(lines, '\n');
  }

  /** No line holds a line break. */
  predicate NoBreaks(lines: seq<string>) {
    forall i :: 0 <= i < |lines| ==> '\n' !in lines[i]
  }

  lemma {:induction false} NoBreaksAppend(a: seq<string>, b: seq<string>)
    requires NoBreaks(a) && NoBreaks(b)
    ensures NoBreaks(a + b)
  {
    assert forall k :: |a| <= k < |a + b| ==> (a + b)[k] == b[k - |a|];
  }

  // ---------------------------------------------------------------------------
  // dcx status
  // ---------------------------------------------------------------------------

  datatype StatusRow = StatusRow(
    workspace: Option<string>,  // original workspace path, when it can be recovered
    mount: string,              // mount point name
    container: Option<string>,  // container id, when a container runs there
    state: string)              // human-readable state

  /** The status report when there is nothing to show. */
  const NoWorkspaces: string := "No active workspaces."

  /** `{:<30} {:<30} {:<12} {}`: three left-aligned columns and a free last one. */
  function StatusLine(a: string, b: string, c: string, d: string): (r: string)
    ensures |r| == |PadRight(a, 30)| + |PadRight(b, 30)| + |PadRight(c, 12)| + 3 + |d|
    ensures StartsWith(r, a)
    ensures |a| <= 30 ==> r[30] == ' ' && r[31..31 + |b|] == b
    ensures |a| <= 30 && |b| <= 30 ==> r[62..62 + |c|] == c
    ensures |a| <= 30 && |b| <= 30 && |c| <= 12 ==> r[75..] == d
  {
    StatusLineColumns(a, b, c, d);
    PadRight(a, 30) + " " + PadRight(b, 30) + " " + PadRight(c, 12) + " " + d
  }

  lemma {:induction false} StatusLineColumns(a: string, b: string, c: string, d: string)
    ensures var r := PadRight(a, 30) + " " + PadRight(b, 30) + " " + PadRight(c, 12) + " " + d;
      |r| == |PadRight(a, 30)| + |PadRight(b, 30)| + |PadRight(c, 12)| + 3 + |d| &&
      StartsWith(r, a) &&
      (|a| <= 30 ==> r[30] == ' ' && r[31..31 + |b|] == b) &&
      (|a| <= 30 && |b| <= 30 ==> r[62..62 + |c|] == c) &&
      (|a| <= 30 && |b| <= 30 && |c| <= 12 ==> r[75..] == d)
  {
    var pa, pb, pc := PadRight(a, 30), PadRight(b, 30), PadRight(c, 12);
    var r := pa + " " + pb + " " + pc + " " + d;
    assert r[..|a|] == pa[..|a|] == a;
    if |a| <= 30 {
      assert r[31..31 + |b|] == pb[..|b|];
      if |b| <= 30 {
        assert r[62..62 + |c|] == pc[..|c|];
      }
    }
  }

  /** The column titles. */
  function StatusHeader(): (r: string)
    ensures |r| == 80
    ensures StartsWith(r, "WORKSPACE")
    ensures r[31..36] == "MOUNT" && r[62..71] == "CONTAINER" && r[75..] == "STATE"
  {
    StatusLine("WORKSPACE", "MOUNT", "CONTAINER", "STATE")
  }

  /** One row: `(unknown)` for a missing workspace, `(none)` for a missing container. */
  function RowLine(row: StatusRow): (r: string)
    ensures StartsWith(r, row.workspace.GetOr("(unknown)"))
    ensures |row.workspace.GetOr("(unknown)")| <= 30 ==>
      31 + |row.mount| <= |r| && r[31..31 + |row.mount|] == row.mount
  {
    StatusLine(row.workspace.GetOr("(unknown)"), row.mount, row.container.GetOr("(none)"), row.state)
  }

  function RowLines(rows: seq<StatusRow>): (r: seq<string>)
    ensures |r| == |rows|
    ensures forall i :: 0 <= i < |rows| ==> r[i] == RowLine(rows[i])
  {
    if |rows| == 0 then [] else [RowLine(rows[0])] + RowLines(rows[1..])
  }

  /** The lines of `format_status_table`: the notice alone, or the header and a line per row. */
  function StatusTableLines(rows: seq<StatusRow>): (r: seq<string>)
    ensures rows == [] ==> r == [NoWorkspaces]
    ensures rows != [] ==> |r| == |rows| + 1 && r[0] == StatusHeader()
    ensures rows != [] ==> forall i :: 0 <= i < |rows| ==> r[i + 1] == RowLine(rows[i])
  {
    if rows == [] then [NoWorkspaces] else [StatusHeader()] + RowLines(rows)
  }

  /** `format_status_table`. */
  function FormatStatusTable(rows: seq<StatusRow>): (r: string)
    ensures rows == [] ==> r == NoWorkspaces
    ensures rows != [] ==> StartsWith(r, StatusHeader() + "\n")
  {
    var lines := StatusTableLines(rows);
    JoinHead(lines, "\n");
    Text(lines)
  }

  /** The MOUNT column starts at the same offset in the header and in every row whose
      workspace text fits its column. */
  lemma {:induction false} MountColumnAligned(row: StatusRow)
    requires |row.workspace.GetOr("(unknown)")| <= 30
    ensures StatusHeader()[31..36] == "MOUNT"
    ensures RowLine(row)[31..31 + |row.mount|] == row.mount
  {
  }

  // ---------------------------------------------------------------------------
  // dcx doctor
  // ---------------------------------------------------------------------------

  datatype DoctorCheck = DoctorCheck(
    name: string,
    passed: bool,
    detail: Option<string>)  // a version on success, a fix on failure

  const DoctorTitle: string := "Checking prerequisites..."
  const AllPassedNotice: string := "All checks passed."

  /** Every check ran and passed; an empty list does not count as passing. */
  predicate AllPassed(checks: seq<DoctorCheck>) {
    |checks| > 0 && forall i :: 0 <= i < |checks| ==> checks[i].passed
  }

  /** The lines of one check: a tick and the optional ` (detail)`, or a cross and an
      optional `Fix:` line. */
  function CheckLines(c: DoctorCheck): (r: seq<string>)
    ensures c.passed ==> |r| == 1
    ensures c.passed && c.detail.None? ==> r == ["  \U{2713} " + c.name]
    ensures c.passed && c.detail.Some? ==> r == ["  \U{2713} " + c.name + " (" + c.detail.value + ")"]
    ensures !c.passed ==> |r| == if c.detail.Some? then 2 else 1
    ensures !c.passed ==> r[0] == "  \U{2717} " + c.name
    ensures !c.passed && c.detail.Some? ==> r[1] == "    Fix: " + c.detail.value
    ensures forall i :: 0 <= i < |r| ==> |r[i]| > 0 && r[i][0] == ' '
  {
    if c.passed then
      if c.detail.Some? then ["  \U{2713} " + c.name + " (" + c.detail.value + ")"]
      else ["  \U{2713} " + c.name]
    else
      ["  \U{2717} " + c.name] + (if c.detail.Some? then ["    Fix: " + c.detail.value] else [])
  }

  /** The lines of the checks, each check's lines in the order of the checks. */
  function ChecksLines(checks: seq<DoctorCheck>): (r: seq<string>)
    ensures forall i :: 0 <= i < |r| ==> |r[i]| > 0 && r[i][0] == ' '
    ensures checks == [] ==> r == []
    ensures |checks| == 1 ==> r == CheckLines(checks[0])
  {
    if |checks| == 0 then [] else CheckLines(checks[0]) + ChecksLines(checks[1..])
  }

  /** The lines of a list of checks are those of its parts, one after the other. */
  lemma {:induction false} ChecksLinesAppend(a: seq<DoctorCheck>, b: seq<DoctorCheck>)
    ensures ChecksLines(a + b) == ChecksLines(a) + ChecksLines(b)
    decreases |a|
  {
    if |a| > 0 {
      assert (a + b)[1..] == a[1..] + b;
      ChecksLinesAppend(a[1..], b);
    } else {
      assert a + b == b;
    }
  }

  /** A check whose name and detail hold no line break prints one line per entry of
      `CheckLines`. */
  predicate CheckPrintable(c: DoctorCheck) {
    '\n' !in c.name && (c.detail.Some? ==> '\n' !in c.detail.value)
  }

  lemma {:induction false} CheckLinesNoBreaks(c: DoctorCheck)
    requires CheckPrintable(c)
    ensures NoBreaks(CheckLines(c))
  {
  }

  lemma {:induction false} ChecksLinesNoBreaks(checks: seq<DoctorCheck>)
    requires forall i :: 0 <= i < |checks| ==> CheckPrintable(checks[i])
    ensures NoBreaks(ChecksLines(checks))
    decreases |checks|
  {
    if |checks| > 0 {
      CheckLinesNoBreaks(checks[0]);
      ChecksLinesNoBreaks(checks[1..]);
      NoBreaksAppend(CheckLines(checks[0]), ChecksLines(checks[1..]));
    }
  }

  /** The lines of `format_doctor_report`. */
  function DoctorReportLines(checks: seq<DoctorCheck>): (r: seq<string>)
    ensures |r| >= 1 && r[0] == DoctorTitle
    ensures |r| == 1 + |ChecksLines(checks)| + (if AllPassed(checks) then 2 else 0)
    ensures r[1..1 + |ChecksLines(checks)|] == ChecksLines(checks)
    ensures AllPassedNotice in r <==> AllPassed(checks)
    ensures AllPassed(checks) ==> |r| >= 4 && r[|r| - 2..] == ["", AllPassedNotice]
  {
    var body := [DoctorTitle] + ChecksLines(checks);
    assert AllPassedNotice !in body by {
      forall i | 0 <= i < |body| ensures body[i] != AllPassedNotice {
        if i > 0 { assert body[i] == ChecksLines(checks)[i - 1]; }
      }
    }
    var r := if AllPassed(checks) then body + ["", AllPassedNotice] else body;
    assert r[1..1 + |ChecksLines(checks)|] == body[1..];
    r
  }

  /** `format_doctor_report`. */
  function FormatDoctorReport(checks: seq<DoctorCheck>): (r: string)
    ensures StartsWith(r, DoctorTitle)
    ensures AllPassed(checks) ==> EndsWith(r, "\n\n" + AllPassedNotice)
  {
    var lines := DoctorReportLines(checks);
    JoinStartsWithFirst(lines, "\n");
    DoctorReportEnd(checks);
    Text(lines)
  }

  /** A report of checks that all passed ends with a blank line and the notice. */
  lemma {:induction false} DoctorReportEnd(checks: seq<DoctorCheck>)
    ensures AllPassed(checks) ==> EndsWith(Text(DoctorReportLines(checks)), "\n\n" + AllPassedNotice)
  {
    if AllPassed(checks) {
      JoinEndsWithLast2(DoctorReportLines(checks), "\n");
    }
  }

  /** The title and the notice are single lines. */
  lemma {:induction false} DoctorFixedLines()
    ensures NoBreaks([DoctorTitle]) && NoBreaks([]) && NoBreaks(["", AllPassedNotice])
  {
    assert '\n' !in DoctorTitle;
    assert '\n' !in AllPassedNotice;
  }

  lemma {:induction false} DoctorReportLinesNoBreaks(checks: seq<DoctorCheck>)
    requires forall i :: 0 <= i < |checks| ==> CheckPrintable(checks[i])
    ensures NoBreaks(DoctorReportLines(checks))
    ensures DoctorReportLines(checks) ==
      [DoctorTitle] + ChecksLines(checks) + (if AllPassed(checks) then ["", AllPassedNotice] else [])
  {
    var tail: seq<string> := if AllPassed(checks) then ["", AllPassedNotice] else [];
    assert DoctorReportLines(checks) == [DoctorTitle] + ChecksLines(checks) + tail;
    DoctorFixedLines();
    ChecksLinesNoBreaks(checks);
    NoBreaksAppend([DoctorTitle], ChecksLines(checks));
    NoBreaksAppend([DoctorTitle] + ChecksLines(checks), tail);
  }

  /** Reading the report back line by line gives the title, the lines of each check in
      order, and the blank line and notice when every check passed. */
  lemma {:induction false} DoctorReportRead(checks: seq<DoctorCheck>)
    requires forall i :: 0 <= i < |checks| ==> CheckPrintable(checks[i])
    ensures Split(FormatDoctorReport(checks), '\n') ==
      [DoctorTitle] + ChecksLines(checks) + (if AllPassed(checks) then ["", AllPassedNotice] else [])
  {
    var lines := DoctorReportLines(checks);
    assert FormatDoctorReport(checks) == Text(lines);
    DoctorReportLinesNoBreaks(checks);
    assert NoBreaks(lines);
    TextLines(lines);
  }

  /** A joined list of two or more starts with its first element and the separator. */
  lemma {:induction false} JoinHead(lines: seq<string>, sep: string)
    ensures |lines| >= 2 ==> StartsWith(Strings.Join(lines, sep), lines[0] + sep)
  {
    if |lines| >= 2 {
      JoinCons(lines[0], lines[1..], sep);
      assert lines == [lines[0]] + lines[1..];
    }
  }

  /** A joined list starts with its first element. */
  lemma {:induction false} JoinStartsWithFirst(lines: seq<string>, sep: string)
    requires |lines| > 0
    ensures StartsWith(Strings.Join(lines, sep), lines[0])
  {
    if |lines| > 1 {
      JoinCons(lines[0], lines[1..], sep);
      assert lines == [lines[0]] + lines[1..];
    }
  }

  /** A joined list of three or more whose last but one is empty ends with the separator
      twice and the last. */
  lemma {:induction false} JoinEndsWithLast2(lines: seq<string>, sep: string)
    requires |lines| >= 3 && lines[|lines| - 2] == ""
    ensures EndsWith(Strings.Join(lines, sep), sep + sep + lines[|lines| - 1])
  {
    if |lines| == 3 {
      assert Strings.Join(lines[1..], sep) == "" + sep + lines[2];
      assert Strings.Join(lines, sep) == lines[0] + sep + ("" + sep + lines[2]);
    } else {
      JoinCons(lines[0], lines[1..], sep);
      assert lines == [lines[0]] + lines[1..];
      JoinEndsWithLast2(lines[1..], sep);
    }
  }

  // ---------------------------------------------------------------------------
  // dcx clean --dry-run
  // ---------------------------------------------------------------------------

  datatype DryRunPlan = DryRunPlan(
    mountName: string,
    state: string,
    containerId: Option<string>,
    runtimeImageId: Option<string>,
    hasBaseImageTag: bool,
    volumes: seq<string>,
    isMounted: bool)

  const NothingToClean: string := "Nothing to clean."

  /** The title of a non-empty preview. */
  const DryRunTitle: string := "Would clean:"
  const UnmountAction: string := "    - Unmount bindfs"
  const RemoveDirAction: string := "    - Remove mount directory"
  const StopPrefix: string := "    - Stop and remove container "

  /** The line when it is called for, otherwise nothing. */
  function Opt(present: bool, line: string): (r: seq<string>)
    ensures |r| == if present then 1 else 0
    ensures present ==> r == [line]
  {
    if present then [line] else []
  }

  /** The opening of every removal line. */
  const RemovePrefix: string := "    - Remove "

  /** `    - Remove <what>`: the `R` of `Remove` sits at index 6. */
  function RemoveLine(what: string): (r: string)
    ensures StartsWith(r, RemovePrefix) && r[|RemovePrefix|..] == what
    ensures |r| > 6 && r[6] == 'R'
  {
    var r := RemovePrefix + what;
    assert r[6] == RemovePrefix[6];
    assert r[..|RemovePrefix|] == RemovePrefix;
    r
  }

  /** Every line has `c` at index 6, where the indented `- ` ends. */
  predicate MarkedAt6(lines: seq<string>, c: char) {
    forall k :: 0 <= k < |lines| ==> |lines[k]| > 6 && lines[k][6] == c
  }

  lemma {:induction false} MarkedAppend(a: seq<string>, b: seq<string>, c: char)
    requires MarkedAt6(a, c) && MarkedAt6(b, c)
    ensures MarkedAt6(a + b, c)
  {
    assert forall k :: |a| <= k < |a + b| ==> (a + b)[k] == b[k - |a|];
  }

  /** The words that tell the removals apart, and the mark of those made only by a purge. */
  const RuntimeImageWord: string := "runtime image "
  const BaseTagWord: string := "base image tag dcx-base:"
  const VolumeWord: string := "volume "
  const PurgeMark: string := "  [purge]"

  function VolumeLines(volumes: seq<string>): (r: seq<string>)
    ensures |r| == |volumes|
    ensures forall i :: 0 <= i < |r| ==> r[i] == RemoveLine(VolumeWord + volumes[i] + PurgeMark)
  {
    if |volumes| == 0 then [] else [RemoveLine(VolumeWord + volumes[0] + PurgeMark)] + VolumeLines(volumes[1..])
  }

  /** The removals a plan lists between its container and its unmount line: the runtime
      image when there is one, the base image tag when it exists, then every volume. */
  function Removals(p: DryRunPlan): (r: seq<string>)
    ensures MarkedAt6(r, 'R')
    ensures |r| == (if p.runtimeImageId.Some? then 1 else 0) + (if p.hasBaseImageTag then 1 else 0) + |p.volumes|
  {
    var i := Opt(p.runtimeImageId.Some?, RemoveLine(RuntimeImageWord + p.runtimeImageId.GetOr("")));
    var t := Opt(p.hasBaseImageTag, RemoveLine(BaseTagWord + p.mountName + PurgeMark));
    var v := VolumeLines(p.volumes);
    MarkedAppend(i, t, 'R');
    MarkedAppend(i + t, v, 'R');
    i + t + v
  }

  /** Which line removes what: the runtime image first when there is one, the base image
      tag next when it exists, and the volumes' lines, in order, after them. */
  lemma {:induction false} RemovalsOrder(p: DryRunPlan)
    ensures var r := Removals(p);
      (p.runtimeImageId.Some? ==> r[0] == RemoveLine(RuntimeImageWord + p.runtimeImageId.value)) &&
      (p.hasBaseImageTag ==>
        r[if p.runtimeImageId.Some? then 1 else 0] == RemoveLine(BaseTagWord + p.mountName + PurgeMark)) &&
      r[|r| - |p.volumes|..] == VolumeLines(p.volumes)
  {
    var i := Opt(p.runtimeImageId.Some?, RemoveLine(RuntimeImageWord + p.runtimeImageId.GetOr("")));
    var t := Opt(p.hasBaseImageTag, RemoveLine(BaseTagWord + p.mountName + PurgeMark));
    var v := VolumeLines(p.volumes);
    assert Removals(p) == i + t + v;
    assert (i + t + v)[|i + t|..] == v;
  }

  /** Some line of `lines` removes a thing of the kind `word` names. */
  predicate Lists(lines: seq<string>, word: string) {
    exists k :: 0 <= k < |lines| && StartsWith(lines[k], RemovePrefix + word)
  }

  /** A removal line names the kind its text opens with. */
  lemma {:induction false} RemoveLineIs(word: string, rest: string)
    ensures StartsWith(RemoveLine(word + rest), RemovePrefix + word)
  {
    var r := RemoveLine(word + rest);
    assert r == RemovePrefix + word + rest;
    assert r[..|RemovePrefix + word|] == RemovePrefix + word;
  }

  /** A removal line names no kind with another first letter than its text. */
  lemma {:induction false} RemoveLineIsNot(what: string, other: string)
    requires |what| > 0 && |other| > 0 && other[0] != what[0]
    ensures !StartsWith(RemoveLine(what), RemovePrefix + other)
  {
    var r := RemoveLine(what);
    assert r[|RemovePrefix|] == what[0];
    assert (RemovePrefix + other)[|RemovePrefix|] == other[0];
  }

  /** The runtime image is listed exactly when the plan has one, and the base image tag
      exactly when it exists; volumes are never taken for either. */
  lemma {:induction false} RemovalsLists(p: DryRunPlan)
    ensures Lists(Removals(p), RuntimeImageWord) <==> p.runtimeImageId.Some?
    ensures Lists(Removals(p), BaseTagWord) <==> p.hasBaseImageTag
  {
    var r := Removals(p);
    if p.runtimeImageId.Some? {
      RemovalKind(p, 0);
    }
    if p.hasBaseImageTag {
      RemovalKind(p, if p.runtimeImageId.Some? then 1 else 0);
    }
    forall k | 0 <= k < |r|
      ensures StartsWith(r[k], RemovePrefix + RuntimeImageWord) ==> p.runtimeImageId.Some?
      ensures StartsWith(r[k], RemovePrefix + BaseTagWord) ==> p.hasBaseImageTag
    {
      RemovalKind(p, k);
    }
  }

  /** The kind of the `k`-th removal: the runtime image first, then the base image tag,
      then the volumes. */
  lemma {:induction false} RemovalKind(p: DryRunPlan, k: nat)
    requires k < |Removals(p)|
    ensures var i := if p.runtimeImageId.Some? then 1 else 0;
      k < i <==> StartsWith(Removals(p)[k], RemovePrefix + RuntimeImageWord)
    ensures var i, t := if p.runtimeImageId.Some? then 1 else 0, if p.hasBaseImageTag then 1 else 0;
      i <= k < i + t <==> StartsWith(Removals(p)[k], RemovePrefix + BaseTagWord)
  {
    var line := Removals(p)[k];
    var i := if p.runtimeImageId.Some? then 1 else 0;
    var t := if p.hasBaseImageTag then 1 else 0;
    var run, tag := StartsWith(line, RemovePrefix + RuntimeImageWord), StartsWith(line, RemovePrefix + BaseTagWord);
    if k < i {
      RuntimeImageRemoval(p);
      assert run && !tag;
    } else if k < i + t {
      BaseTagRemoval(p);
      assert tag && !run;
    } else {
      VolumeRemovalKind(p, k);
    }
  }

  /** A volume's removal is taken for neither the runtime image nor the base image tag. */
  lemma {:induction false} VolumeRemovalKind(p: DryRunPlan, k: nat)
    requires (if p.runtimeImageId.Some? then 1 else 0) + (if p.hasBaseImageTag then 1 else 0) <= k < |Removals(p)|
    ensures !StartsWith(Removals(p)[k], RemovePrefix + RuntimeImageWord)
    ensures !StartsWith(Removals(p)[k], RemovePrefix + BaseTagWord)
  {
    var r := Removals(p);
    var j := k - (if p.runtimeImageId.Some? then 1 else 0) - (if p.hasBaseImageTag then 1 else 0);
    var what := VolumeRemoval(p, j);
    assert |r| - |p.volumes| + j == k;
    assert r[k] == RemoveLine(what);
    assert RuntimeImageWord[0] == 'r' && BaseTagWord[0] == 'b';
    RemoveLineIsNot(what, RuntimeImageWord);
    RemoveLineIsNot(what, BaseTagWord);
  }

  /** The runtime image, when there is one, is the first removal. */
  lemma {:induction false} RuntimeImageRemoval(p: DryRunPlan)
    requires p.runtimeImageId.Some?
    ensures StartsWith(Removals(p)[0], RemovePrefix + RuntimeImageWord)
    ensures !StartsWith(Removals(p)[0], RemovePrefix + BaseTagWord)
  {
    var what := RuntimeImageWord + p.runtimeImageId.value;
    RemovalsOrder(p);
    RemoveLineIs(RuntimeImageWord, p.runtimeImageId.value);
    assert what[0] == 'r' && BaseTagWord[0] == 'b';
    RemoveLineIsNot(what, BaseTagWord);
  }

  /** The base image tag, when it exists, comes right after the runtime image. */
  lemma {:induction false} BaseTagRemoval(p: DryRunPlan)
    requires p.hasBaseImageTag
    ensures var k := if p.runtimeImageId.Some? then 1 else 0;
      k < |Removals(p)| && StartsWith(Removals(p)[k], RemovePrefix + BaseTagWord) &&
      !StartsWith(Removals(p)[k], RemovePrefix + RuntimeImageWord)
  {
    var what := BaseTagWord + p.mountName + PurgeMark;
    RemovalsOrder(p);
    assert what == BaseTagWord + (p.mountName + PurgeMark);
    RemoveLineIs(BaseTagWord, p.mountName + PurgeMark);
    assert what[0] == 'b' && RuntimeImageWord[0] == 'r';
    RemoveLineIsNot(what, RuntimeImageWord);
  }

  /** The removals after the runtime image and the base image tag are the volumes'. */
  lemma {:induction false} VolumeRemoval(p: DryRunPlan, j: nat) returns (what: string)
    requires j < |p.volumes|
    ensures var r := Removals(p);
      |r| - |p.volumes| + j < |r| && r[|r| - |p.volumes| + j] == RemoveLine(what) && |what| > 0 && what[0] == 'v'
  {
    var r := Removals(p);
    var v := VolumeLines(p.volumes);
    what := VolumeWord + p.volumes[j] + PurgeMark;
    assert r[|r| - |p.volumes| + j] == v[j] by {
      RemovalsOrder(p);
      assert r[|r| - |p.volumes|..] == v;
    }
    assert what[0] == 'v' by {
      assert what[0] == VolumeWord[0];
    }
  }

  function PlanTitle(p: DryRunPlan): (r: string)
    ensures |r| > 0 && r[|r| - 1] == ')'
  {
    "  " + p.mountName + "  (" + p.state + ")"
  }

  /** The stop line, present exactly when there is a container. */
  function ContainerLines(p: DryRunPlan): (r: seq<string>)
    ensures p.containerId.Some? ==> r == [StopPrefix + p.containerId.value]
    ensures p.containerId.None? ==> r == []
    ensures forall k :: 0 <= k < |r| ==> |r[k]| > 6 && r[k][6] == 'S'
  {
    assert (StopPrefix + p.containerId.GetOr(""))[6] == 'S';
    Opt(p.containerId.Some?, StopPrefix + p.containerId.GetOr(""))
  }

  /** Everything after the container line. */
  function PlanTail(p: DryRunPlan): seq<string> {
    Removals(p) + Opt(p.isMounted, UnmountAction) + [RemoveDirAction]
  }

  /** The block of one plan: `name  (state)`, the container, the removals, the unmount, and
      always the removal of the mount directory last. */
  function PlanLines(p: DryRunPlan): (r: seq<string>)
    ensures |r| >= 2
    ensures r[0] == "  " + p.mountName + "  (" + p.state + ")"
    ensures r[|r| - 1] == RemoveDirAction
    ensures p.containerId.Some? ==> r[1] == StopPrefix + p.containerId.value
    ensures p.containerId.Some? <==> StartsWith(r[1], StopPrefix)
    ensures p.isMounted <==> r[|r| - 2] == UnmountAction
  {
    var tail := PlanTail(p);
    assert |tail[0]| > 6 && tail[0][6] != 'S' by {
      assert RemoveDirAction[6] == 'R' && UnmountAction[6] == 'U';
    }
    PlanContainerLine(PlanTitle(p), ContainerLines(p), tail, p.containerId);
    PlanUnmountLine(PlanTitle(p), ContainerLines(p), Removals(p), p.isMounted);
    [PlanTitle(p)] + ContainerLines(p) + tail
  }

  /** The removals stand together, in their order, right after the title and the
      container line. */
  lemma {:induction false} PlanLinesRemovals(p: DryRunPlan)
    ensures var r, c := PlanLines(p), |ContainerLines(p)|;
      |r| == 1 + c + |Removals(p)| + (if p.isMounted then 1 else 0) + 1 &&
      r[1 + c..1 + c + |Removals(p)|] == Removals(p)
  {
    var head := [PlanTitle(p)] + ContainerLines(p);
    var rest := Opt(p.isMounted, UnmountAction) + [RemoveDirAction];
    assert PlanLines(p) == head + (Removals(p) + rest);
    SliceOfAppend(head, Removals(p), rest);
  }

  /** The middle part of a concatenation is found right after the first. */
  lemma {:induction false} SliceOfAppend<A>(a: seq<A>, b: seq<A>, c: seq<A>)
    ensures |a + (b + c)| == |a| + |b| + |c|
    ensures (a + (b + c))[|a|..|a| + |b|] == b
  {
  }

  /** The second line is a container line exactly when there is a container. */
  lemma {:induction false} PlanContainerLine(title: string, c: seq<string>, rest: seq<string>, id: Option<string>)
    requires c == Opt(id.Some?, StopPrefix + id.GetOr(""))
    requires |rest| > 0 && |rest[0]| > 6 && rest[0][6] != 'S'
    ensures var r := [title] + c + rest;
      (id.Some? ==> r[1] == StopPrefix + id.value) && (id.Some? <==> StartsWith(r[1], StopPrefix))
  {
    var r := [title] + c + rest;
    if id.None? {
      assert r[1] == rest[0];
      assert StopPrefix[6] == 'S';
    }
  }

  /** The line before the last is the unmount line exactly when the plan is mounted. */
  lemma {:induction false} PlanUnmountLine(title: string, c: seq<string>, removals: seq<string>, mounted: bool)
    requires forall k :: 0 <= k < |removals| ==> |removals[k]| > 6 && removals[k][6] == 'R'
    requires forall k :: 0 <= k < |c| ==> |c[k]| > 6 && c[k][6] == 'S'
    requires |title| > 0 && title[|title| - 1] == ')'
    ensures var r := [title] + c + (removals + Opt(mounted, UnmountAction) + [RemoveDirAction]);
      mounted <==> r[|r| - 2] == UnmountAction
  {
    var before := [title] + c + removals;
    var r := [title] + c + (removals + Opt(mounted, UnmountAction) + [RemoveDirAction]);
    assert r == before + Opt(mounted, UnmountAction) + [RemoveDirAction];
    if !mounted {
      assert r[|r| - 2] == before[|before| - 1];
      assert UnmountAction[6] == 'U';
      if |removals| > 0 {
        assert before[|before| - 1] == removals[|removals| - 1];
      } else if |c| > 0 {
        assert before[|before| - 1] == c[|c| - 1];
      } else {
        assert before[|before| - 1] == title;
      }
    }
  }

  /** The blocks of the plans, in the order of the plans. */
  function PlansLines(plans: seq<DryRunPlan>): (r: seq<string>)
    ensures |r| >= 2 * |plans|
    ensures plans == [] ==> r == []
    ensures |plans| == 1 ==> r == PlanLines(plans[0])
  {
    if |plans| == 0 then [] else PlanLines(plans[0]) + PlansLines(plans[1..])
  }

  /** The lines of a list of plans are those of its parts, one after the other. */
  lemma {:induction false} PlansLinesAppend(a: seq<DryRunPlan>, b: seq<DryRunPlan>)
    ensures PlansLines(a + b) == PlansLines(a) + PlansLines(b)
  {
    PlansLinesFlat(a + b);
    PlansLinesFlat(a);
    PlansLinesFlat(b);
    Seqs.FlatMapAppend(a, b, PlanLines);
  }

  /** The lines of a list of plans are the blocks of its plans, one after the other. */
  lemma {:induction false} PlansLinesFlat(plans: seq<DryRunPlan>)
    ensures PlansLines(plans) == Seqs.FlatMap(plans, PlanLines)
    decreases |plans|
  {
    if |plans| > 0 {
      PlansLinesFlat(plans[1..]);
    }
  }

  /** A plan whose texts hold no line break. */
  predicate PlanPrintable(p: DryRunPlan) {
    '\n' !in p.mountName && '\n' !in p.state &&
    (p.containerId.Some? ==> '\n' !in p.containerId.value) &&
    (p.runtimeImageId.Some? ==> '\n' !in p.runtimeImageId.value) &&
    forall i :: 0 <= i < |p.volumes| ==> '\n' !in p.volumes[i]
  }

  /** The fixed texts of the preview are free of line breaks. */
  lemma {:induction false} DryRunFixedTexts()
    ensures '\n' !in RemovePrefix && '\n' !in StopPrefix
    ensures '\n' !in UnmountAction && '\n' !in RemoveDirAction
    ensures NoBreaks([DryRunTitle]) && NoBreaks([NothingToClean])
  {
    ActionTextsNoBreak();
    assert '\n' !in NothingToClean;
    assert '\n' !in DryRunTitle;
  }

  lemma {:induction false} ActionTextsNoBreak()
    ensures '\n' !in RemovePrefix && '\n' !in StopPrefix
    ensures '\n' !in UnmountAction && '\n' !in RemoveDirAction
  {
    assert '\n' !in RemovePrefix;
    assert '\n' !in StopPrefix;
    assert '\n' !in UnmountAction;
    assert '\n' !in RemoveDirAction;
  }

  lemma {:induction false} OptNoBreaks(present: bool, line: string)
    requires '\n' !in line
    ensures NoBreaks(Opt(present, line))
  {
  }

  lemma {:induction false} VolumeLineNoBreak(volume: string)
    requires '\n' !in volume
    ensures '\n' !in RemoveLine(VolumeWord + volume + PurgeMark)
  {
    DryRunFixedTexts();
    var a, b := VolumeWord, PurgeMark;
    assert '\n' !in a;
    assert '\n' !in b;
    assert RemoveLine(a + volume + b) == RemovePrefix + (a + volume + b);
  }

  lemma {:induction false} VolumeLinesNoBreaks(volumes: seq<string>)
    requires forall i :: 0 <= i < |volumes| ==> '\n' !in volumes[i]
    ensures NoBreaks(VolumeLines(volumes))
  {
    var v := VolumeLines(volumes);
    forall i | 0 <= i < |v| ensures '\n' !in v[i] {
      VolumeLineNoBreak(volumes[i]);
    }
  }

  lemma {:induction false} RemovalsNoBreaks(p: DryRunPlan)
    requires PlanPrintable(p)
    ensures NoBreaks(Removals(p))
  {
    DryRunFixedTexts();
    var v := VolumeLines(p.volumes);
    VolumeLinesNoBreaks(p.volumes);
    var im := Opt(p.runtimeImageId.Some?, RemoveLine(RuntimeImageWord + p.runtimeImageId.GetOr("")));
    var t := Opt(p.hasBaseImageTag, RemoveLine(BaseTagWord + p.mountName + PurgeMark));
    OptNoBreaks(p.runtimeImageId.Some?, RemoveLine(RuntimeImageWord + p.runtimeImageId.GetOr("")));
    OptNoBreaks(p.hasBaseImageTag, RemoveLine(BaseTagWord + p.mountName + PurgeMark));
    NoBreaksAppend(im, t);
    NoBreaksAppend(im + t, v);
  }

  lemma {:induction false} PlanLinesNoBreaks(p: DryRunPlan)
    requires PlanPrintable(p)
    ensures NoBreaks(PlanLines(p))
  {
    DryRunFixedTexts();
    RemovalsNoBreaks(p);
    OptNoBreaks(p.containerId.Some?, StopPrefix + p.containerId.GetOr(""));
    OptNoBreaks(p.isMounted, UnmountAction);
    var head := [PlanTitle(p)] + ContainerLines(p);
    NoBreaksAppend([PlanTitle(p)], ContainerLines(p));
    NoBreaksAppend(Opt(p.isMounted, UnmountAction), [RemoveDirAction]);
    NoBreaksAppend(Removals(p), Opt(p.isMounted, UnmountAction) + [RemoveDirAction]);
    assert PlanTail(p) == Removals(p) + (Opt(p.isMounted, UnmountAction) + [RemoveDirAction]);
    NoBreaksAppend(head, PlanTail(p));
  }

  lemma {:induction false} PlansLinesNoBreaks(plans: seq<DryRunPlan>)
    requires forall i :: 0 <= i < |plans| ==> PlanPrintable(plans[i])
    ensures NoBreaks(PlansLines(plans))
    decreases |plans|
  {
    if |plans| > 0 {
      PlanLinesNoBreaks(plans[0]);
      PlansLinesNoBreaks(plans[1..]);
      NoBreaksAppend(PlanLines(plans[0]), PlansLines(plans[1..]));
    }
  }

  /** The lines of `format_dry_run`: the notice alone, or a title and each plan's block. */
  function DryRunLines(plans: seq<DryRunPlan>): (r: seq<string>)
    ensures plans == [] ==> r == [NothingToClean]
    ensures |r| >= 1
    ensures plans != [] ==> r[0] == DryRunTitle && r[1..] == PlansLines(plans)
  {
    if plans == [] then [NothingToClean] else [DryRunTitle] + PlansLines(plans)
  }

  /** `format_dry_run`. */
  function FormatDryRun(plans: seq<DryRunPlan>): (r: string)
    ensures plans == [] ==> r == NothingToClean
    ensures plans != [] ==> StartsWith(r, "Would clean:\n")
  {
    var lines := DryRunLines(plans);
    JoinHead(lines, "\n");
    Text(lines)
  }

  /** Reading the preview back line by line gives `Would clean:` and the block of each plan
      in order, or the notice alone. */
  lemma {:induction false} DryRunRead(plans: seq<DryRunPlan>)
    requires forall i :: 0 <= i < |plans| ==> PlanPrintable(plans[i])
    ensures plans == [] ==> Split(FormatDryRun(plans), '\n') == [NothingToClean]
    ensures plans != [] ==> Split(FormatDryRun(plans), '\n') == [DryRunTitle] + PlansLines(plans)
  {
    DryRunFixedTexts();
    PlansLinesNoBreaks(plans);
    NoBreaksAppend([DryRunTitle], PlansLines(plans));
    TextLines(DryRunLines(plans));
    assert FormatDryRun(plans) == Text(DryRunLines(plans));
  }

  // ---------------------------------------------------------------------------
  // dcx clean summary
  // ---------------------------------------------------------------------------

  datatype CleanEntry = CleanEntry(
    workspace: Option<string>,
    mount: string,
    was: string,    // state before cleaning
    action: string) // what was done

  /** `Cleaned N mounts:`, with the count of running mounts left alone when there are any. */
  function SummaryHeader(cleaned: nat, activeLeft: nat): (r: string)
    ensures StartsWith(r, "Cleaned " + NatToString(cleaned) + " mounts")
    ensures activeLeft == 0 ==> r == "Cleaned " + NatToString(cleaned) + " mounts:"
    ensures activeLeft > 0 ==> Contains(r, "(" + NatToString(activeLeft) + " active mounts left untouched)")
    ensures activeLeft == 0 <==> EndsWith(r, " mounts:")
  {
    var head := "Cleaned " + NatToString(cleaned) + " mounts";
    if activeLeft > 0 then
      var note := "(" + NatToString(activeLeft) + " active mounts left untouched)";
      var r := head + " " + note + ":";
      assert r[..|head|] == head;
      ContainsMiddle(head + " ", note, ":");
      assert r[|r| - 8..] != " mounts:" by { assert r[|r| - 2] == ')'; }
      r
    else
      var r := head + ":";
      assert r[..|head|] == head;
      r
  }

  /** The left column: `workspace  →  mount`, or the mount alone. */
  function EntryLeft(e: CleanEntry): (r: string)
    ensures EndsWith(r, e.mount)
    ensures e.workspace.None? ==> r == e.mount
    ensures e.workspace.Some? ==> r == e.workspace.value + "  " + Arrow + "  " + e.mount
  {
    match e.workspace
    case None => e.mount
    case Some(ws) =>
      var r := ws + "  " + Arrow + "  " + e.mount;
      assert r[|r| - |e.mount|..] == e.mount;
      r
  }

  /** The arrow shows up exactly when the workspace is known, for mount names free of it. */
  lemma {:induction false} EntryLeftArrow(e: CleanEntry)
    requires Arrow[0] !in e.mount
    ensures Arrow[0] in EntryLeft(e) <==> e.workspace.Some?
  {
    if e.workspace.Some? {
      var r := EntryLeft(e);
      assert r[|e.workspace.value| + 2] == Arrow[0];
    }
  }

  /** `  {:<52} was: {:<12} → {}`: the left column, the state before cleaning in the
      middle column when the left one fits its width, and what was done after the arrow. */
  function SummaryLine(e: CleanEntry): (r: string)
    ensures StartsWith(r, "  " + EntryLeft(e))
    ensures |EntryLeft(e)| <= 52 ==> |r| >= 60 && r[54..60] == " was: "
    ensures |EntryLeft(e)| <= 52 ==> |r| >= 60 + |e.was| && r[60..60 + |e.was|] == e.was
    ensures EndsWith(r, " " + Arrow + " " + e.action)
  {
    var left := PadRight(EntryLeft(e), 52);
    var was := PadRight(e.was, 12);
    var pre := "  " + left + " was: " + was;
    var tail := " " + Arrow + " " + e.action;
    var r := pre + tail;
    assert r[..2 + |EntryLeft(e)|] == "  " + left[..|EntryLeft(e)|];
    assert r[|r| - |tail|..] == tail;
    assert |EntryLeft(e)| <= 52 ==> r[60..60 + |e.was|] == was[..|e.was|];
    r
  }

  function SummaryLines(entries: seq<CleanEntry>): (r: seq<string>)
    ensures |r| == |entries|
    ensures forall i :: 0 <= i < |r| ==> r[i] == SummaryLine(entries[i])
  {
    seq(|entries|, i requires 0 <= i < |entries| => SummaryLine(entries[i]))
  }

  /** The lines of `format_clean_summary`: the header, then one line per entry in order. */
  function CleanSummaryLines(entries: seq<CleanEntry>, activeLeft: nat): (r: seq<string>)
    ensures |r| == |entries| + 1
    ensures r[0] == SummaryHeader(|entries|, activeLeft)
    ensures forall i :: 0 <= i < |entries| ==> r[i + 1] == SummaryLine(entries[i])
  {
    var lines := SummaryLines(entries);
    var r := [SummaryHeader(|entries|, activeLeft)] + lines;
    assert forall i :: 0 <= i < |entries| ==> r[i + 1] == lines[i];
    r
  }

  /** `format_clean_summary`. */
  function FormatCleanSummary(entries: seq<CleanEntry>, activeLeft: nat): (r: string)
    ensures StartsWith(r, SummaryHeader(|entries|, activeLeft))
  {
    var lines := CleanSummaryLines(entries, activeLeft);
    JoinStartsWithFirst(lines, "\n");
    Text(lines)
  }

  /** An entry none of whose texts holds a line break. */
  predicate EntryPrintable(e: CleanEntry) {
    (e.workspace.Some? ==> '\n' !in e.workspace.value) &&
    '\n' !in e.mount && '\n' !in e.was && '\n' !in e.action
  }

  lemma {:induction false} PadRightNoBreak(s: string, w: nat)
    requires '\n' !in s
    ensures '\n' !in PadRight(s, w)
  {
    var r := PadRight(s, w);
    forall i | 0 <= i < |r| ensures r[i] != '\n' {
      if i < |s| {
        assert r[i] == r[..|s|][i];
      }
    }
  }

  lemma {:induction false} NatToStringNoBreak(n: nat)
    ensures '\n' !in NatToString(n)
  {
    var r := NatToString(n);
    forall i | 0 <= i < |r| ensures r[i] != '\n' {
      assert IsAsciiDigit(r[i]);
    }
  }

  lemma {:induction false} SummaryHeaderNoBreak(cleaned: nat, activeLeft: nat)
    ensures '\n' !in SummaryHeader(cleaned, activeLeft)
  {
    NatToStringNoBreak(cleaned);
    NatToStringNoBreak(activeLeft);
    var a, b, c := "Cleaned ", " mounts", " active mounts left untouched)";
    assert '\n' !in a && '\n' !in b && '\n' !in c;
    assert '\n' !in ":" && '\n' !in " " && '\n' !in "(";
  }

  lemma {:induction false} SummaryLineNoBreak(e: CleanEntry)
    requires EntryPrintable(e)
    ensures '\n' !in SummaryLine(e)
  {
    assert '\n' !in Arrow && '\n' !in "  " && '\n' !in " " && '\n' !in " was: ";
    assert '\n' !in EntryLeft(e);
    PadRightNoBreak(EntryLeft(e), 52);
    PadRightNoBreak(e.was, 12);
  }

  /** Reading the summary back line by line gives the header and then one line per entry,
      in order. */
  lemma {:induction false} CleanSummaryRead(entries: seq<CleanEntry>, activeLeft: nat)
    requires forall i :: 0 <= i < |entries| ==> EntryPrintable(entries[i])
    ensures Split(FormatCleanSummary(entries, activeLeft), '\n') == CleanSummaryLines(entries, activeLeft)
  {
    var lines := CleanSummaryLines(entries, activeLeft);
    forall i | 0 <= i < |lines| ensures '\n' !in lines[i] {
      if i == 0 {
        SummaryHeaderNoBreak(|entries|, activeLeft);
      } else {
        assert lines[i] == SummaryLine(entries[i - 1]);
        SummaryLineNoBreak(entries[i - 1]);
      }
    }
    TextLines(lines);
  }
}
