/** `dcx clean` (`src/clean.rs`): survey the relay, choose what to clean, ask before
    stopping running containers, and clean each chosen entry, carrying on past failures. */
module Clean {
  import opened Wrappers
  import opened Strings
  import opened Seqs
  import opened Paths
  import opened MountTable
  import opened Categorize
  import opened Naming
  import opened Cmd
  import opened Docker
  import opened World
  import opened Format
  import opened Scan
  import Status
  import Platform
  import ExitCodes

  // ---------------------------------------------------------------------------
  // Labels and the confirmation prompt
  // ---------------------------------------------------------------------------

  /** `was_label`. */
  function WasLabel(st: MountStatus): (r: string)
    ensures st == Active ==> r == "running"
    ensures st == Orphaned ==> r == "orphaned"
    ensures st == Stale ==> r == "stale"
    ensures st == Empty ==> r == "empty dir"
  {
    match st
    case Active => "running"
    case Orphaned => "orphaned"
    case Stale => "stale"
    case Empty => "empty dir"
  }

  /** The summary tells the four states apart. */
  lemma {:induction false} WasLabelInjective(a: MountStatus, b: MountStatus)
    requires WasLabel(a) == WasLabel(b)
    ensures a == b
  {
  }

  /** For the two healthy states, `clean` and `status` use the same word. */
  lemma {:induction false} LabelsAgree(mounted: bool, hasContainer: bool)
    ensures var st := Categorize.Categorize(mounted, mounted, hasContainer);
      st == Active || st == Orphaned ==> WasLabel(st) == Status.MountStateLabel(mounted, hasContainer)
  {
  }

  const ActiveContainer: string := " active container"
  const StoppedTail: string := " will be stopped:"

  /** A stem not ending in `s`, pluralised for every count but one: the text ends in
      `s` and the tail exactly when the count is not one. */
  lemma {:induction false} PluralSuffix(stem: string, tail: string, n: nat)
    requires |stem| > 0 && stem[|stem| - 1] != 's'
    ensures var r := stem + (if n == 1 then "" else "s") + tail;
      StartsWith(r, stem) && (EndsWith(r, "s" + tail) <==> n != 1)
  {
    var r := stem + (if n == 1 then "" else "s") + tail;
    assert r[..|stem|] == stem;
    if n == 1 {
      assert r[|r| - |tail| - 1] == stem[|stem| - 1];
    } else {
      assert r == stem + ("s" + tail);
    }
  }

  /** `⚠ N active container(s) will be stopped:`. */
  function PromptHeader(n: nat): (r: string)
    ensures StartsWith(r, "\U{26A0} " + NatToString(n) + ActiveContainer)
    ensures EndsWith(r, "s" + StoppedTail) <==> n != 1
    ensures '\n' !in r
  {
    var head := "\U{26A0} " + NatToString(n) + ActiveContainer;
    assert head[|head| - 1] == ActiveContainer[|ActiveContainer| - 1] == 'r';
    PluralSuffix(head, StoppedTail, n);
    assert '\n' !in head by {
      NatToStringNoBreak(n);
      assert '\n' !in "\U{26A0} " && '\n' !in ActiveContainer;
    }
    assert '\n' !in StoppedTail && '\n' !in "s";
    head + (if n == 1 then "" else "s") + StoppedTail
  }

  /** `  - ws  →  mount  (container: c)`. */
  function PromptLine(ws: string, mount: string, container: string): (r: string)
    ensures StartsWith(r, "  - " + ws)
    ensures EndsWith(r, "(container: " + container + ")")
  {
    var r := "  - " + ws + "  " + Arrow + "  " + mount + "  (container: " + container + ")";
    assert r[..|"  - " + ws|] == "  - " + ws;
    assert r[|r| - |"(container: " + container + ")"|..] == "(container: " + container + ")";
    r
  }

  function PromptLines(entries: seq<(string, string, string)>): (r: seq<string>)
    ensures |r| == |entries|
    ensures forall i :: 0 <= i < |entries| ==>
      r[i] == PromptLine(entries[i].0, entries[i].1, entries[i].2)
  {
    if |entries| == 0 then []
    else [PromptLine(entries[0].0, entries[0].1, entries[0].2)] + PromptLines(entries[1..])
  }

  /** `confirm_prompt`: the header, then one line per entry. */
  function ConfirmPrompt(entries: seq<(string, string, string)>): (r: string)
    ensures StartsWith(r, PromptHeader(|entries|))
  {
    var lines := [PromptHeader(|entries|)] + PromptLines(entries);
    JoinStartsWithFirst(lines, "\n");
    Text(lines)
  }

  /** A prompt over entries free of line breaks reads back as the header and exactly one
      line per entry, in order. */
  lemma {:induction false} ConfirmPromptLines(entries: seq<(string, string, string)>)
    requires forall i :: 0 <= i < |entries| ==>
      '\n' !in entries[i].0 && '\n' !in entries[i].1 && '\n' !in entries[i].2
    ensures var lines := Split(ConfirmPrompt(entries), '\n');
      |lines| == |entries| + 1 && lines[0] == PromptHeader(|entries|) &&
      forall i :: 0 <= i < |entries| ==> lines[i + 1] == PromptLine(entries[i].0, entries[i].1, entries[i].2)
  {
    var lines := [PromptHeader(|entries|)] + PromptLines(entries);
    forall i | 0 <= i < |lines| ensures '\n' !in lines[i] {
      if i > 0 {
        var e := entries[i - 1];
        assert lines[i] == "  - " + e.0 + "  " + Arrow + "  " + e.1 + "  (container: " + e.2 + ")";
      }
    }
    TextLines(lines);
  }

  const ContinuePrompt: string := "\nContinue? [y/N] "

  const NothingToClean: string := "Nothing to clean."

  const InterruptNotice: string := "Signal received, " + "finishing current unmount..."

  // ---------------------------------------------------------------------------
  // clean_one
  // ---------------------------------------------------------------------------

  /** What the outside world answers while one entry is cleaned: `devcontainer down`, the
      unmount program, `remove_dir`, and whether Ctrl+C arrived meanwhile. */
  datatype EntryOracle = EntryOracle(down: Stream, unmount: Capture, rmdir: FsOutcome, interrupted: bool)

  /** What cleaning an entry of each state takes, in order. */
  function Plan(st: MountStatus, mp: string): (r: seq<Effect>)
    ensures |r| >= 1 && r[|r| - 1] == RemoveDir(mp)
  {
    match st
    case Active => [DevcontainerDown(mp), Unmount(mp), RemoveDir(mp)]
    case Orphaned => [Unmount(mp), RemoveDir(mp)]
    case Stale => [Unmount(mp), RemoveDir(mp)]
    case Empty => [RemoveDir(mp)]
  }

  /** The action reported for a cleaned entry of each state. */
  function Action(st: MountStatus): string {
    match st
    case Active => "stopped, unmounted"
    case Orphaned => "unmounted"
    case Stale => "unmounted"
    case Empty => "removed"
  }

  /** The steps taken for one entry and its result: the action, or the error. */
  datatype Outcome = Outcome(steps: seq<Step>, result: Result<string, string>)

  /** Every step in `steps` succeeded. */
  predicate AllOk(steps: seq<Step>) {
    forall i :: 0 <= i < |steps| ==> steps[i].ok
  }

  function Finish(a: Attempt, action: string): (r: Outcome)
    ensures r.steps == a.steps
    ensures a.failure.None? ==> r.result == Ok(action)
    ensures a.failure.Some? ==> r.result == Err(a.failure.value)
  {
    match a.failure
    case None => Outcome(a.steps, Ok(action))
    case Some(e) => Outcome(a.steps, Err(e))
  }

  /** Unmount, then remove the directory. */
  function UnmountAndRemove(os: Platform.Os, mp: string, o: EntryOracle): (a: Attempt)
    ensures Succeeded(o.unmount) ==>
      a.steps == [Step(Unmount(mp), true), Step(RemoveDir(mp), o.rmdir.Ok?)] &&
      (a.failure.None? <==> o.rmdir.Ok?)
    ensures !Succeeded(o.unmount) ==> a.steps == [Step(Unmount(mp), false)] && a.failure.Some?
  {
    AndThen(DoUnmount(os, mp, o.unmount), RemoveMountDir(mp, o.rmdir))
  }

  /** The steps taken are a non-empty prefix of `plan`, each only after the one before it
      succeeded, and the entry is cleaned exactly when the whole plan succeeded. */
  predicate Follows(r: Outcome, plan: seq<Effect>) {
    1 <= |r.steps| <= |plan| && Effects(r.steps) == plan[..|r.steps|] &&
    (forall i :: 0 <= i < |r.steps| - 1 ==> r.steps[i].ok) &&
    (r.result.Ok? <==> |r.steps| == |plan| && AllOk(r.steps))
  }

  /** A successful first step in front of a plan's outcome follows the longer plan. */
  lemma {:induction false} FollowsAfter(s: Step, u: Outcome, plan: seq<Effect>)
    requires s.ok && Follows(u, plan)
    ensures Follows(Outcome([s] + u.steps, u.result), [s.effect] + plan)
  {
    var steps := [s] + u.steps;
    EffectsAppend([s], u.steps);
    assert Effects([s]) == [s.effect];
    assert ([s.effect] + plan)[..|steps|] == [s.effect] + plan[..|u.steps|];
    assert forall i :: 1 <= i < |steps| ==> steps[i] == u.steps[i - 1];
  }

  /** A running entry: `devcontainer down`, then unmount and remove. */
  function StopAndClean(os: Platform.Os, mp: string, o: EntryOracle): (r: Outcome)
    ensures Follows(r, [DevcontainerDown(mp), Unmount(mp), RemoveDir(mp)])
    ensures r.result.Ok? ==> r.result.value == Action(Active)
    ensures StreamCode(o.down) != 0 ==>
      r.result == Err("devcontainer down failed (exit " + IntToString(StreamCode(o.down)) + ")")
  {
    var code := StreamCode(o.down);
    var down := Step(DevcontainerDown(mp), code == 0);
    if code != 0 then
      assert Effects([down])[0] == DevcontainerDown(mp);
      Outcome([down], Err("devcontainer down failed (exit " + IntToString(code) + ")"))
    else
      var u := UnmountAndClean(os, mp, o, Action(Active));
      FollowsAfter(down, u, [Unmount(mp), RemoveDir(mp)]);
      assert [down.effect] + [Unmount(mp), RemoveDir(mp)] == [DevcontainerDown(mp), Unmount(mp), RemoveDir(mp)];
      Outcome([down] + u.steps, u.result)
  }

  /** A mounted entry without a container, or an unreachable one: unmount and remove. */
  function UnmountAndClean(os: Platform.Os, mp: string, o: EntryOracle, action: string): (r: Outcome)
    ensures Follows(r, [Unmount(mp), RemoveDir(mp)])
    ensures r.result.Ok? ==> r.result.value == action
  {
    var tail := UnmountAndRemove(os, mp, o);
    if Succeeded(o.unmount) then EffectsTwo(tail.steps[0], tail.steps[1]); Finish(tail, action)
    else assert Effects(tail.steps)[0] == Unmount(mp); Finish(tail, action)
  }

  /** An entry with no mount: remove the directory. */
  function RemoveOnly(mp: string, o: EntryOracle, action: string): (r: Outcome)
    ensures Follows(r, [RemoveDir(mp)])
    ensures r.result.Ok? ==> r.result.value == action
  {
    var d := RemoveMountDir(mp, o.rmdir);
    assert Effects(d.steps)[0] == RemoveDir(mp);
    Finish(d, action)
  }

  /** `clean_one`: the steps of the entry's plan, each only after the one before it
      succeeded; the entry is cleaned when they all succeed. */
  function CleanOne(os: Platform.Os, mp: string, st: MountStatus, o: EntryOracle): (r: Outcome)
    ensures 1 <= |r.steps| <= |Plan(st, mp)| && Effects(r.steps) == Plan(st, mp)[..|r.steps|]
    ensures forall i :: 0 <= i < |r.steps| - 1 ==> r.steps[i].ok
    ensures r.result.Ok? <==> |r.steps| == |Plan(st, mp)| && AllOk(r.steps)
    ensures r.result.Ok? ==> r.result.value == Action(st)
    ensures st == Active && StreamCode(o.down) != 0 ==>
      r.result == Err("devcontainer down failed (exit " + IntToString(StreamCode(o.down)) + ")")
  {
    var r := match st
      case Active => StopAndClean(os, mp, o)
      case Orphaned => UnmountAndClean(os, mp, o, Action(st))
      case Stale => UnmountAndClean(os, mp, o, Action(st))
      case Empty => RemoveOnly(mp, o, Action(st));
    assert Follows(r, Plan(st, mp));
    r
  }

  /** A cleaned entry is gone from the host: its directory, its mount and (for a running
      one) its container; an empty one had no mount to undo. */
  lemma {:induction false} CleanOneClears(os: Platform.Os, w: State, mp: string, st: MountStatus, o: EntryOracle)
    requires CleanOne(os, mp, st, o).result.Ok?
    ensures var after := Replay(w, CleanOne(os, mp, st, o).steps);
      mp !in after.present &&
      (st != Empty ==> FindMountSource(after.table, mp).None?) &&
      (st == Empty ==> after.table == w.table) &&
      (st == Active ==> mp !in after.containers)
  {
    var steps := CleanOne(os, mp, st, o).steps;
    assert |steps| == |Plan(st, mp)| && AllOk(steps) && Effects(steps) == Plan(st, mp);
    match st
    case Active =>
      DownUnmountRemove(w, mp, steps);
    case Orphaned =>
      UnmountThenRemove(w, mp, steps);
    case Stale =>
      UnmountThenRemove(w, mp, steps);
    case Empty =>
      assert steps == [steps[0]];
      ReplayOne(w, steps[0]);
  }

  /** A successful unmount and removal leave no mount and no directory, and no container
      appears. */
  lemma {:induction false} UnmountThenRemove(w: State, mp: string, steps: seq<Step>)
    requires |steps| == 2 && AllOk(steps) && Effects(steps) == [Unmount(mp), RemoveDir(mp)]
    ensures var after := Replay(w, steps);
      mp !in after.present && FindMountSource(after.table, mp).None? && after.containers == w.containers
  {
    assert steps[0].effect == Unmount(mp) && steps[1].effect == RemoveDir(mp);
    ReplayFirst(w, steps);
    var w1 := Apply(w, Unmount(mp));
    ReplayFirst(w1, steps[1..]);
    var w2 := Apply(w1, RemoveDir(mp));
    assert Replay(w, steps) == w2;
  }

  /** `devcontainer down`, unmount and removal, all successful: no container either. */
  lemma {:induction false} DownUnmountRemove(w: State, mp: string, steps: seq<Step>)
    requires |steps| == 3 && AllOk(steps) && Effects(steps) == [DevcontainerDown(mp), Unmount(mp), RemoveDir(mp)]
    ensures var after := Replay(w, steps);
      mp !in after.present && FindMountSource(after.table, mp).None? && mp !in after.containers
  {
    assert steps[0].effect == DevcontainerDown(mp);
    ReplayFirst(w, steps);
    var tail := steps[1..];
    assert Effects(tail) == [Unmount(mp), RemoveDir(mp)] by {
      assert Effects(tail)[0] == steps[1].effect && Effects(tail)[1] == steps[2].effect;
    }
    UnmountThenRemove(Apply(w, DevcontainerDown(mp)), mp, tail);
  }

  // ---------------------------------------------------------------------------
  // The loop
  // ---------------------------------------------------------------------------

  /** Where the loop stands: the summary entries and failures so far, the steps taken, how
      many entries were processed, and whether a Ctrl+C stopped it. */
  datatype Progress = Progress(cleaned: seq<CleanEntry>, failures: seq<string>, steps: seq<Step>,
                               processed: nat, interrupted: bool)

  /** The summary entry of a cleaned entry. */
  function Summary(e: Entry, action: string): (c: CleanEntry)
    ensures c.workspace == e.workspace && c.was == WasLabel(e.status) && c.action == action
    ensures FileName(e.path).Some? ==> c.mount == FileName(e.path).value
    ensures FileName(e.path).None? ==> c.mount == ""
  {
    CleanEntry(e.workspace, MountColumn(e.path), WasLabel(e.status), action)
  }

  /** The progress record of one processed entry, from its outcome: its summary entry
      when cleaned, `<path>: <error>` when not. */
  function Single(e: Entry, c: Outcome, interrupted: bool): (p: Progress)
    ensures p.processed == 1 && |p.cleaned| + |p.failures| == 1
    ensures p.interrupted == interrupted
    ensures p.failures == [] <==> c.result.Ok?
    ensures c.result.Ok? ==> p.cleaned == [Summary(e, c.result.value)]
    ensures c.result.Err? ==> p.failures == [e.path + ": " + c.result.error]
    ensures p.steps == c.steps
  {
    if c.result.Ok? then Progress([Summary(e, c.result.value)], [], c.steps, 1, interrupted)
    else Progress([], [e.path + ": " + c.result.error], c.steps, 1, interrupted)
  }

  /** A record of one processed entry. */
  predicate IsSingle(p: Progress) {
    p.processed == 1 && |p.cleaned| + |p.failures| == 1
  }

  function RecordSteps(p: Progress): seq<Step> { p.steps }
  function RecordCleaned(p: Progress): seq<CleanEntry> { p.cleaned }
  function RecordFailures(p: Progress): seq<string> { p.failures }

  /** Step 8 of `run_clean` over the entries' own records, from the `k`-th on: the records
      are taken in turn whatever they hold, their steps, summary entries and failures kept
      one after the other, and the first interrupted one is the last. */
  function Loop(items: seq<Progress>, k: nat): (p: Progress)
    requires k <= |items|
    requires forall j {:trigger IsSingle(items[j])} :: 0 <= j < |items| ==> IsSingle(items[j])
    ensures k + p.processed <= |items|
    ensures |p.cleaned| + |p.failures| == p.processed
    ensures forall j :: k <= j < k + p.processed - 1 ==> !items[j].interrupted
    ensures p.interrupted <==> p.processed > 0 && items[k + p.processed - 1].interrupted
    ensures !p.interrupted ==> k + p.processed == |items|
    ensures p.failures == [] <==> forall j :: k <= j < k + p.processed ==> items[j].failures == []
    decreases |items| - k
  {
    if k == |items| then Progress([], [], [], 0, false)
    else if items[k].interrupted then assert IsSingle(items[k]); items[k]
    else
      var here, rest := items[k], Loop(items, k + 1);
      assert IsSingle(here);
      Progress(here.cleaned + rest.cleaned, here.failures + rest.failures, here.steps + rest.steps,
        1 + rest.processed, rest.interrupted)
  }

  /** The loop's steps are the processed records' steps, one after the other. */
  lemma {:induction false} LoopSteps(items: seq<Progress>, k: nat)
    requires k <= |items|
    requires forall j {:trigger IsSingle(items[j])} :: 0 <= j < |items| ==> IsSingle(items[j])
    ensures var p := Loop(items, k); p.steps == FlatMap(items[k..k + p.processed], RecordSteps)
    decreases |items| - k
  {
    var p := Loop(items, k);
    if k == |items| {
      assert items[k..k + p.processed] == [];
    } else if items[k].interrupted {
      assert p == items[k] && p.processed == 1;
      FlatMapOne(items, RecordSteps, k);
    } else {
      var rest := Loop(items, k + 1);
      LoopSteps(items, k + 1);
      assert p.processed == 1 + rest.processed;
      FlatMapFront(items, RecordSteps, k, rest.processed);
    }
  }

  /** The loop's summary entries are the processed records' entries, one after the other. */
  lemma {:induction false} LoopCleaned(items: seq<Progress>, k: nat)
    requires k <= |items|
    requires forall j {:trigger IsSingle(items[j])} :: 0 <= j < |items| ==> IsSingle(items[j])
    ensures var p := Loop(items, k); p.cleaned == FlatMap(items[k..k + p.processed], RecordCleaned)
    decreases |items| - k
  {
    var p := Loop(items, k);
    if k == |items| {
      assert items[k..k + p.processed] == [];
    } else if items[k].interrupted {
      assert p == items[k] && p.processed == 1;
      FlatMapOne(items, RecordCleaned, k);
    } else {
      var rest := Loop(items, k + 1);
      LoopCleaned(items, k + 1);
      assert p.processed == 1 + rest.processed;
      FlatMapFront(items, RecordCleaned, k, rest.processed);
    }
  }

  /** The loop's failures are the processed records' failures, one after the other: each
      failure is recorded and the loop goes on. */
  lemma {:induction false} LoopFailures(items: seq<Progress>, k: nat)
    requires k <= |items|
    requires forall j {:trigger IsSingle(items[j])} :: 0 <= j < |items| ==> IsSingle(items[j])
    ensures var p := Loop(items, k); p.failures == FlatMap(items[k..k + p.processed], RecordFailures)
    decreases |items| - k
  {
    var p := Loop(items, k);
    if k == |items| {
      assert items[k..k + p.processed] == [];
    } else if items[k].interrupted {
      assert p == items[k] && p.processed == 1;
      FlatMapOne(items, RecordFailures, k);
    } else {
      var rest := Loop(items, k + 1);
      LoopFailures(items, k + 1);
      assert p.processed == 1 + rest.processed;
      FlatMapFront(items, RecordFailures, k, rest.processed);
    }
  }

  /** None of the steps stops a container. */
  predicate NoDown(steps: seq<Step>) {
    forall i :: 0 <= i < |steps| ==> !steps[i].effect.DevcontainerDown?
  }

  lemma {:induction false} NoDownAppend(a: seq<Step>, b: seq<Step>)
    requires NoDown(a) && NoDown(b)
    ensures NoDown(a + b)
  {
    forall i | 0 <= i < |a + b| ensures !(a + b)[i].effect.DevcontainerDown? {
      if i < |a| { assert (a + b)[i] == a[i]; } else { assert (a + b)[i] == b[i - |a|]; }
    }
  }

  /** The loop's steps are the processed records' steps: with none of them stopping a
      container, neither does the loop. */
  lemma {:induction false} LoopNoDown(items: seq<Progress>, k: nat)
    requires k <= |items|
    requires forall j {:trigger IsSingle(items[j])} :: 0 <= j < |items| ==> IsSingle(items[j])
    requires forall j :: k <= j < |items| ==> NoDown(items[j].steps)
    ensures NoDown(Loop(items, k).steps)
    decreases |items| - k
  {
    if k < |items| && !items[k].interrupted {
      LoopNoDown(items, k + 1);
      NoDownAppend(items[k].steps, Loop(items, k + 1).steps);
    }
  }

  /** `clean_one` applied to each chosen entry, with the outside world's answers for it. */
  function Outcomes(os: Platform.Os, es: seq<Entry>, outcome: nat -> EntryOracle): (r: seq<Outcome>)
    ensures |r| == |es|
    ensures forall j :: 0 <= j < |es| ==> r[j] == CleanOne(os, es[j].path, es[j].status, outcome(j))
  {
    seq(|es|, j requires 0 <= j < |es| => CleanOne(os, es[j].path, es[j].status, outcome(j)))
  }

  /** The records of the chosen entries, in order. */
  function Singles(es: seq<Entry>, outs: seq<Outcome>, outcome: nat -> EntryOracle): (r: seq<Progress>)
    requires |outs| == |es|
    ensures |r| == |es|
    ensures forall j :: 0 <= j < |es| ==> r[j] == Single(es[j], outs[j], outcome(j).interrupted) && IsSingle(r[j])
  {
    seq(|es|, j requires 0 <= j < |es| => Single(es[j], outs[j], outcome(j).interrupted))
  }

  /** Each chosen entry with its outcome. */
  function Paired(es: seq<Entry>, outs: seq<Outcome>): seq<(Entry, Outcome)>
    requires |outs| == |es|
  {
    seq(|es|, j requires 0 <= j < |es| => (es[j], outs[j]))
  }

  function StepsTaken(x: (Entry, Outcome)): seq<Step> { x.1.steps }

  /** The summary entry of a cleaned entry; nothing for a failed one. */
  function CleanedBy(x: (Entry, Outcome)): seq<CleanEntry> {
    if x.1.result.Ok? then [Summary(x.0, x.1.result.value)] else []
  }

  /** `<path>: <error>` for a failed entry; nothing for a cleaned one. */
  function FailedBy(x: (Entry, Outcome)): seq<string> {
    if x.1.result.Err? then [x.0.path + ": " + x.1.result.error] else []
  }

  /** Step 8 of `run_clean`, given each chosen entry's outcome: the entries are taken in
      turn, a failure is recorded and the loop goes on, and a Ctrl+C ends the loop once the
      entry in hand is done. The steps, the summary entries and the failures are those of
      the processed entries, one after the other. */
  function CleanLoop(es: seq<Entry>, outs: seq<Outcome>, outcome: nat -> EntryOracle): (p: Progress)
    requires |outs| == |es|
    ensures p.processed <= |es|
    ensures |p.cleaned| + |p.failures| == p.processed
    ensures forall j :: 0 <= j < p.processed - 1 ==> !outcome(j).interrupted
    ensures p.interrupted <==> p.processed > 0 && outcome(p.processed - 1).interrupted
    ensures !p.interrupted ==> p.processed == |es|
    ensures p.failures == [] <==> forall j :: 0 <= j < p.processed ==> outs[j].result.Ok?
  {
    var items := Singles(es, outs, outcome);
    SinglesFlags(es, outs, outcome);
    Loop(items, 0)
  }

  /** Each record is interrupted when its entry's flag was set, and fails when its entry's
      `clean_one` did. */
  lemma {:induction false} SinglesFlags(es: seq<Entry>, outs: seq<Outcome>, outcome: nat -> EntryOracle)
    requires |outs| == |es|
    ensures var items := Singles(es, outs, outcome);
      (forall j :: 0 <= j < |es| ==> items[j].interrupted == outcome(j).interrupted) &&
      (forall j :: 0 <= j < |es| ==> (items[j].failures == [] <==> outs[j].result.Ok?))
  {
  }

  /** The loop's steps, summary entries and failures are those of the processed entries'
      outcomes, one after the other: a cleaned entry adds its summary entry, a failed one
      `<path>: <error>`. */
  lemma {:induction false} CleanLoopContents(es: seq<Entry>, outs: seq<Outcome>, outcome: nat -> EntryOracle)
    requires |outs| == |es|
    ensures var p := CleanLoop(es, outs, outcome);
      var done := Paired(es, outs)[..p.processed];
      p.steps == FlatMap(done, StepsTaken) && p.cleaned == FlatMap(done, CleanedBy) &&
      p.failures == FlatMap(done, FailedBy)
  {
    var items := Singles(es, outs, outcome);
    var p := Loop(items, 0);
    assert CleanLoop(es, outs, outcome) == p;
    LoopSteps(items, 0);
    LoopCleaned(items, 0);
    LoopFailures(items, 0);
    CleanLoopRecords(es, outs, outcome, p.processed);
  }

  /** The first `n` records hold, one after the other, the steps, summary entries and
      failures of the first `n` entries' outcomes. */
  lemma {:induction false} CleanLoopRecords(es: seq<Entry>, outs: seq<Outcome>, outcome: nat -> EntryOracle, n: nat)
    requires |outs| == |es| && n <= |es|
    ensures var items, pairs := Singles(es, outs, outcome)[0..n], Paired(es, outs)[..n];
      FlatMap(items, RecordSteps) == FlatMap(pairs, StepsTaken) &&
      FlatMap(items, RecordCleaned) == FlatMap(pairs, CleanedBy) &&
      FlatMap(items, RecordFailures) == FlatMap(pairs, FailedBy)
  {
    var items, pairs := Singles(es, outs, outcome)[0..n], Paired(es, outs)[..n];
    forall j | 0 <= j < n
      ensures RecordSteps(items[j]) == StepsTaken(pairs[j])
      ensures RecordCleaned(items[j]) == CleanedBy(pairs[j])
      ensures RecordFailures(items[j]) == FailedBy(pairs[j])
    {
      assert items[j] == Single(es[j], outs[j], outcome(j).interrupted);
      assert pairs[j] == (es[j], outs[j]);
    }
    FlatMapPointwise(items, RecordSteps, pairs, StepsTaken);
    FlatMapPointwise(items, RecordCleaned, pairs, CleanedBy);
    FlatMapPointwise(items, RecordFailures, pairs, FailedBy);
  }

  /** The loop only stops containers of running entries: with none among the chosen
      entries, it never takes a `devcontainer down` step. */
  lemma {:induction false} LoopStopsOnlyRunning(os: Platform.Os, es: seq<Entry>, outcome: nat -> EntryOracle)
    requires forall j :: 0 <= j < |es| ==> es[j].status != Active
    ensures NoDown(CleanLoop(es, Outcomes(os, es, outcome), outcome).steps)
  {
    var outs := Outcomes(os, es, outcome);
    var items := Singles(es, outs, outcome);
    forall j | 0 <= j < |items| ensures NoDown(items[j].steps) {
      IdleNoDown(os, es[j].path, es[j].status, outcome(j));
    }
    LoopNoDown(items, 0);
  }

  /** Cleaning an entry that is not running never stops a container. */
  lemma {:induction false} IdleNoDown(os: Platform.Os, mp: string, st: MountStatus, o: EntryOracle)
    requires st != Active
    ensures NoDown(CleanOne(os, mp, st, o).steps)
  {
    var c := CleanOne(os, mp, st, o);
    forall i | 0 <= i < |c.steps| ensures !c.steps[i].effect.DevcontainerDown? {
      assert Effects(c.steps)[i] == c.steps[i].effect;
      assert c.steps[i].effect == Plan(st, mp)[i];
    }
  }

  // ---------------------------------------------------------------------------
  // run_clean
  // ---------------------------------------------------------------------------

  function IsActive(e: Entry): bool {
    e.status == Active
  }

  function IsIdle(e: Entry): bool {
    e.status != Active
  }

  /** The prompt line for a running entry: workspace (or "(unknown)"), mount name,
      container (or "(none)"). */
  function PromptEntry(e: Entry): (r: (string, string, string))
    ensures e.workspace.Some? ==> r.0 == e.workspace.value
    ensures e.workspace.None? ==> r.0 == "(unknown)"
    ensures FileName(e.path).Some? ==> r.1 == FileName(e.path).value
    ensures FileName(e.path).None? ==> r.1 == ""
    ensures e.container.Some? ==> r.2 == e.container.value
    ensures e.container.None? ==> r.2 == "(none)"
  {
    (e.workspace.GetOr("(unknown)"), MountColumn(e.path), e.container.GetOr("(none)"))
  }

  /** The prompt lines of the running entries, in order. */
  function PromptEntries(es: seq<Entry>): (r: seq<(string, string, string)>)
    ensures |r| == Count(es, IsActive)
    ensures forall i :: 0 <= i < |r| ==> r[i] == PromptEntry(Filter(es, IsActive)[i])
  {
    var running := Filter(es, IsActive);
    seq(|running|, i requires 0 <= i < |running| => PromptEntry(running[i]))
  }

  /** Step 6: everything with `--all`, otherwise everything but the running entries. */
  function Selection(es: seq<Entry>, all: bool): (r: seq<Entry>)
    ensures all ==> r == es
    ensures !all ==> forall e :: e in r <==> e in es && e.status != Active
    ensures !all ==> forall i :: 0 <= i < |r| ==> r[i].status != Active
  {
    if all then es
    else
      var r := Filter(es, IsIdle);
      assert forall e :: e in r <==> e in es && e.status != Active by {
        forall e ensures e in r <==> e in es && e.status != Active {
          FilterMember(es, IsIdle, e);
        }
      }
      r
  }

  /** The confirmation gate of step 5: `--all`, running containers, and no `--yes`. */
  predicate Asked(es: seq<Entry>, all: bool, yes: bool) {
    all && Count(es, IsActive) > 0 && !yes
  }

  /** The run goes past the gate: it was not asked, or the answer was read and accepted. */
  predicate Proceeds(es: seq<Entry>, all: bool, yes: bool, answer: Result<string, string>) {
    !Asked(es, all, yes) || (answer.Ok? && Accepts(answer.value))
  }

  /** Steps 7 to 10 of `run_clean`, once past the gate: "Nothing to clean." for an empty
      selection, otherwise the loop, its summary, and 1 exactly when an entry failed. Its
      error output (the interrupt notice and the failures) never carries the warning sign
      that opens the confirmation prompt. */
  function CleanSelected(os: Platform.Os, es: seq<Entry>, all: bool, outcome: nat -> EntryOracle): (r: Run)
    ensures r.code == ExitCodes.Success || r.code == ExitCodes.RuntimeError
    ensures Selection(es, all) == [] ==> r == Run(ExitCodes.Success, [], [NothingToClean], [])
    ensures Unsigned(r.err)
  {
    var sel := Selection(es, all);
    if sel == [] then Run(ExitCodes.Success, [], [NothingToClean], [])
    else Report(CleanLoop(sel, Outcomes(os, sel, outcome), outcome), if all then 0 else Count(es, IsActive))
  }

  /** Steps 9 and 10: the summary of what was cleaned, the interrupt notice and each failure
      on the error stream, and 1 exactly when something failed. */
  function Report(p: Progress, activeLeft: nat): (r: Run)
    ensures r.steps == p.steps
    ensures r.code == ExitCodes.Success <==> p.failures == []
    ensures r.code == ExitCodes.Success || r.code == ExitCodes.RuntimeError
    ensures p.cleaned != [] ==> r.out == [FormatCleanSummary(p.cleaned, activeLeft)]
    ensures p.cleaned == [] ==> r.out == []
    ensures p.interrupted <==> |r.err| > 0 && r.err[0] == InterruptNotice
    ensures var o := if p.interrupted then 1 else 0;
      |r.err| == o + |p.failures| &&
      forall i :: 0 <= i < |p.failures| ==> r.err[o + i] == "Error: " + p.failures[i]
    ensures Unsigned(r.err)
  {
    var notice := if p.interrupted then [InterruptNotice] else [];
    var errors := ErrorLines(p.failures);
    NoticeStartsWithS();
    ErrorLinesUnsigned(p.failures);
    UnsignedAppend(notice, errors);
    assert |errors| > 0 ==> errors[0][0] == 'E' by {
      if |errors| > 0 { assert errors[0] == "Error: " + p.failures[0]; }
    }
    assert forall i :: 0 <= i < |errors| ==> (notice + errors)[|notice| + i] == errors[i];
    Run(if p.failures == [] then ExitCodes.Success else ExitCodes.RuntimeError,
      p.steps,
      if p.cleaned == [] then [] else [FormatCleanSummary(p.cleaned, activeLeft)],
      notice + errors)
  }

  /** No line opens with the warning sign. */
  predicate Unsigned(lines: seq<string>) {
    forall i :: 0 <= i < |lines| ==> |lines[i]| > 0 && lines[i][0] != '\U{26A0}'
  }

  lemma {:induction false} UnsignedAppend(a: seq<string>, b: seq<string>)
    requires Unsigned(a) && Unsigned(b)
    ensures Unsigned(a + b)
  {
    forall i | 0 <= i < |a + b| ensures |(a + b)[i]| > 0 && (a + b)[i][0] != '\U{26A0}' {
      if i >= |a| { assert (a + b)[i] == b[i - |a|]; }
    }
  }

  lemma {:induction false} ErrorLinesUnsigned(failures: seq<string>)
    ensures Unsigned(ErrorLines(failures))
  {
    var r := ErrorLines(failures);
    forall i | 0 <= i < |r| ensures |r[i]| > 0 && r[i][0] != '\U{26A0}' {
      assert r[i] == "Error: " + failures[i];
      assert r[i][0] == 'E';
    }
  }

  /** The prompt shown at the gate of step 5. */
  function Prompt(es: seq<Entry>): seq<string> {
    [ConfirmPrompt(PromptEntries(es)), ContinuePrompt]
  }

  /** Step 5, in front of the run `g` of the steps after it: when asked, the prompt comes
      first on the error stream, and the answer either stops the run (1 on a read error, 4
      on a refusal) or lets `g` go ahead. */
  function Gate(es: seq<Entry>, all: bool, yes: bool, answer: Result<string, string>, g: Run): (r: Run)
    ensures Asked(es, all, yes) && answer.Err? ==> r == Run(ExitCodes.RuntimeError, [], [], Prompt(es))
    ensures Asked(es, all, yes) && answer.Ok? && !Accepts(answer.value) ==>
      r == Run(ExitCodes.UserAborted, [], [], Prompt(es))
    ensures Proceeds(es, all, yes, answer) ==>
      r.code == g.code && r.steps == g.steps && r.out == g.out &&
      r.err == (if Asked(es, all, yes) then Prompt(es) else []) + g.err
  {
    var prompt := if Asked(es, all, yes) then Prompt(es) else [];
    if Asked(es, all, yes) && answer.Err? then Run(ExitCodes.RuntimeError, [], [], prompt)
    else if Asked(es, all, yes) && !Accepts(answer.value) then Run(ExitCodes.UserAborted, [], [], prompt)
    else Run(g.code, g.steps, g.out, prompt + g.err)
  }

  /** Steps 4 to 10 of `run_clean`, on the surveyed entries: the gate (1 on a read error,
      4 on any answer other than y/yes), then what was selected is cleaned. */
  function CleanEntries(os: Platform.Os, es: seq<Entry>, all: bool, yes: bool,
                        answer: Result<string, string>, outcome: nat -> EntryOracle): (r: Run)
    ensures r.code == ExitCodes.Success || r.code == ExitCodes.RuntimeError || r.code == ExitCodes.UserAborted
    ensures r.code == ExitCodes.UserAborted ==> r.steps == []
  {
    Gate(es, all, yes, answer, CleanSelected(os, es, all, outcome))
  }

  /** `run_clean`: Docker first (1), then the relay is scanned and each entry surveyed. */
  function RunClean(env: Env, w: State, listing: Listing, all: bool, yes: bool,
                    answer: Result<string, string>, outcome: nat -> EntryOracle): (r: Run)
    ensures !IsDockerAvailable(env.dockerInfo) ==> r == Exit(ExitCodes.RuntimeError, DockerUnavailable)
    ensures IsDockerAvailable(env.dockerInfo) ==>
      r == CleanEntries(env.os, SurveyAll(w, ScanRelay(RelayDir(env.home), listing)), all, yes, answer, outcome)
  {
    if !IsDockerAvailable(env.dockerInfo) then Exit(ExitCodes.RuntimeError, DockerUnavailable)
    else CleanEntries(env.os, SurveyAll(w, ScanRelay(RelayDir(env.home), listing)), all, yes, answer, outcome)
  }

  /** Step 5: the prompt is shown exactly when asked; a read error gives 1 and any answer
      but y/yes gives 4, both before anything is touched. */
  lemma {:induction false} CleanPromptGate(os: Platform.Os, es: seq<Entry>, all: bool, yes: bool,
                        answer: Result<string, string>, outcome: nat -> EntryOracle)
    ensures var r := CleanEntries(os, es, all, yes, answer, outcome);
      (Asked(es, all, yes) <==> |r.err| >= 2 && r.err[..2] == [ConfirmPrompt(PromptEntries(es)), ContinuePrompt]) &&
      (Asked(es, all, yes) && answer.Err? ==> r.code == ExitCodes.RuntimeError && r.steps == [] && r.out == []) &&
      (Asked(es, all, yes) && answer.Ok? && !Accepts(answer.value) ==>
        r.code == ExitCodes.UserAborted && r.steps == [] && r.out == [])
  {
    var g := CleanSelected(os, es, all, outcome);
    assert CleanEntries(os, es, all, yes, answer, outcome) == Gate(es, all, yes, answer, g);
    GateShowsPrompt(es, all, yes, answer, g);
  }

  /** The prompt opens the error stream exactly when asked, whatever follows it, as long as
      what follows never opens with the warning sign. */
  lemma {:induction false} GateShowsPrompt(es: seq<Entry>, all: bool, yes: bool, answer: Result<string, string>, g: Run)
    requires Unsigned(g.err)
    ensures var r := Gate(es, all, yes, answer, g);
      Asked(es, all, yes) <==> |r.err| >= 2 && r.err[..2] == Prompt(es)
  {
    var r := Gate(es, all, yes, answer, g);
    if Asked(es, all, yes) {
      assert r.err[..2] == Prompt(es) by {
        if answer.Ok? && Accepts(answer.value) {
          assert r.err == Prompt(es) + g.err;
        }
      }
    } else if |r.err| >= 2 {
      assert r.err == g.err;
      var c := ConfirmPrompt(PromptEntries(es));
      PromptStartsWithSign(PromptEntries(es));
      assert r.err[0][0] != c[0];
      assert r.err[..2][0] == r.err[0];
    }
  }

  /** The confirmation prompt opens with a warning sign. */
  lemma {:induction false} PromptStartsWithSign(entries: seq<(string, string, string)>)
    ensures |ConfirmPrompt(entries)| > 0 && ConfirmPrompt(entries)[0] == '\U{26A0}'
  {
    var c := ConfirmPrompt(entries);
    var h := PromptHeader(|entries|);
    var head := "\U{26A0} " + NatToString(|entries|) + ActiveContainer;
    assert h[..|head|] == head;
    assert h[0] == head[0];
    assert c[..|h|] == h;
    assert c[0] == h[0];
  }

  /** The interrupt notice opens with `S`, so it cannot be mistaken for the prompt. */
  lemma {:induction false} NoticeStartsWithS()
    ensures |InterruptNotice| > 0 && InterruptNotice[0] == 'S'
  {
    assert InterruptNotice[..6] == "Signal";
  }

  /** Step 7: past the gate, an empty selection prints "Nothing to clean.", touches nothing
      and exits 0. */
  lemma {:induction false} CleanNothingSelected(os: Platform.Os, es: seq<Entry>, all: bool, yes: bool,
                             answer: Result<string, string>, outcome: nat -> EntryOracle)
    requires Proceeds(es, all, yes, answer) && Selection(es, all) == []
    ensures var r := CleanEntries(os, es, all, yes, answer, outcome);
      r.code == ExitCodes.Success && r.steps == [] && r.out == [NothingToClean]
  {
    var g := CleanSelected(os, es, all, outcome);
    assert CleanEntries(os, es, all, yes, answer, outcome) == Gate(es, all, yes, answer, g);
  }

  /** Steps 8 to 10: past the gate, the run takes the loop's steps, prints the summary of
      what was cleaned (with the running mounts left alone counted when not `--all`), and
      exits 1 exactly when some processed entry failed. */
  lemma {:induction false} CleanLoopResult(os: Platform.Os, es: seq<Entry>, all: bool, yes: bool,
                        answer: Result<string, string>, outcome: nat -> EntryOracle)
    requires Proceeds(es, all, yes, answer) && Selection(es, all) != []
    ensures var sel := Selection(es, all);
      var outs := Outcomes(os, sel, outcome);
      var p := CleanLoop(sel, outs, outcome);
      var r := CleanEntries(os, es, all, yes, answer, outcome);
      r.steps == p.steps &&
      (r.code == ExitCodes.Success <==> forall j :: 0 <= j < p.processed ==> outs[j].result.Ok?) &&
      (p.cleaned != [] ==> r.out == [FormatCleanSummary(p.cleaned, if all then 0 else Count(es, IsActive))]) &&
      (p.cleaned == [] ==> r.out == [])
  {
    var sel := Selection(es, all);
    var outs := Outcomes(os, sel, outcome);
    var p := CleanLoop(sel, outs, outcome);
    var g := CleanSelected(os, es, all, outcome);
    assert g == Report(p, if all then 0 else Count(es, IsActive));
    assert CleanEntries(os, es, all, yes, answer, outcome) == Gate(es, all, yes, answer, g);
  }

  /** `Error: <failure>`, one per failure. */
  function ErrorLines(failures: seq<string>): (r: seq<string>)
    ensures |r| == |failures|
    ensures forall i :: 0 <= i < |r| ==> r[i] == "Error: " + failures[i]
  {
    if |failures| == 0 then [] else ["Error: " + failures[0]] + ErrorLines(failures[1..])
  }

  /** Without `--all`, no running container is stopped: the run never takes a
      `devcontainer down` step. */
  lemma {:induction false} CleanSparesRunning(os: Platform.Os, es: seq<Entry>, yes: bool,
                           answer: Result<string, string>, outcome: nat -> EntryOracle)
    ensures NoDown(CleanEntries(os, es, false, yes, answer, outcome).steps)
  {
    var sel := Selection(es, false);
    var g := CleanSelected(os, es, false, outcome);
    assert CleanEntries(os, es, false, yes, answer, outcome) == Gate(es, false, yes, answer, g);
    assert !Asked(es, false, yes);
    if sel != [] {
      var p := CleanLoop(sel, Outcomes(os, sel, outcome), outcome);
      assert g.steps == p.steps;
      LoopStopsOnlyRunning(os, sel, outcome);
    }
  }
}
