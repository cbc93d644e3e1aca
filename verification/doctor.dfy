/** Version extraction and the exit rule of `dcx doctor` (`src/doctor.rs`). The checks
    themselves probe programs and files and are outside the model; their results are input. */
module Doctor {
  import opened Wrappers
  import opened Strings
  import opened Format
  import opened Seqs
  import ExitCodes

  /** The characters trimmed from the end of a word. */
  predicate TrailingPunct(c: char) {
    c == ',' || c == ';' || c == '.'
  }

  /** A word with its leading `v`s and trailing `,`, `;`, `.` removed. */
  function Normalize(word: string): (r: string)
    ensures r == [] || !TrailingPunct(r[|r| - 1])
  {
    TrimEndBy(TrimStartBy(word, c => c == 'v'), TrailingPunct)
  }

  /** Nonempty and made of ASCII digits only. */
  predicate Numeral(s: string) {
    |s| > 0 && forall i :: 0 <= i < |s| ==> IsAsciiDigit(s[i])
  }

  /** `MAJOR.MINOR[.PATCH...]`: two or more numerals separated by single dots. */
  predicate IsVersion(w: string) {
    var parts := Split(w, '.');
    |parts| >= 2 && forall i :: 0 <= i < |parts| ==> Numeral(parts[i])
  }

  /** A word that reads as a version once normalised. */
  predicate Qualifies(word: string) {
    IsVersion(Normalize(word))
  }

  /** `parse_version_str`: the first whitespace-separated word that reads as a version,
      normalised. */
  function ParseVersionStr(output: string): (r: Option<string>)
    ensures r.Some? ==> IsVersion(r.value)
    ensures r.Some? <==> exists i :: 0 <= i < |SplitWhitespace(output)| && Qualifies(SplitWhitespace(output)[i])
    ensures r.Some? ==> var i := FirstIndex(SplitWhitespace(output), Qualifies).value;
      r.value == Normalize(SplitWhitespace(output)[i]) &&
      forall j :: 0 <= j < i ==> !Qualifies(SplitWhitespace(output)[j])
  {
    var words := SplitWhitespace(output);
    match FirstIndex(words, Qualifies)
    case Some(i) => Some(Normalize(words[i]))
    case None => None
  }

  /** The first qualifying word is the one returned, whatever follows it. */
  lemma ParseVersionFirst(pre: seq<string>, w: string, output: string)
    requires |pre| < |SplitWhitespace(output)|
    requires SplitWhitespace(output)[..|pre|] == pre && SplitWhitespace(output)[|pre|] == w
    requires forall j :: 0 <= j < |pre| ==> !Qualifies(pre[j])
    requires Qualifies(w)
    ensures ParseVersionStr(output) == Some(Normalize(w))
  {
    var words := SplitWhitespace(output);
    assert forall j :: 0 <= j < |pre| ==> words[j] == words[..|pre|][j];
    FirstIndexIs(words, Qualifies, |pre|);
  }

  /** A version has at least one dot, starts and ends with a digit. */
  lemma VersionShape(w: string)
    requires IsVersion(w)
    ensures '.' in w
    ensures |w| > 0 && IsAsciiDigit(w[0]) && IsAsciiDigit(w[|w| - 1])
  {
    var parts := Split(w, '.');
    JoinSplit(w, '.');
    assert IndexOf(w, '.').Some?;
    assert w[IndexOf(w, '.').value] == '.';
    LastPart(parts, '.');
    JoinFirst(parts, ['.']);
  }

  lemma JoinFirst(parts: seq<string>, sep: string)
    requires |parts| >= 2 && |parts[0]| > 0
    ensures |Strings.Join(parts, sep)| > 0 && Strings.Join(parts, sep)[0] == parts[0][0]
  {
    JoinCons(parts[0], parts[1..], sep);
    assert parts == [parts[0]] + parts[1..];
  }

  lemma {:induction false} LastPart(parts: seq<string>, c: char)
    requires |parts| >= 1 && |parts[|parts| - 1]| > 0
    ensures var j := Strings.Join(parts, [c]);
      |j| > 0 && j[|j| - 1] == parts[|parts| - 1][|parts[|parts| - 1]| - 1]
  {
    if |parts| > 1 {
      LastPart(parts[1..], c);
      JoinCons(parts[0], parts[1..], [c]);
      assert parts == [parts[0]] + parts[1..];
    }
  }

  /** Two numerals joined by a dot make a version. */
  lemma TwoPartVersion(major: string, minor: string)
    requires Numeral(major) && Numeral(minor)
    ensures IsVersion(major + "." + minor)
  {
    assert '.' !in major && '.' !in minor;
    SplitAt(major, minor, '.');
    assert IndexOf(minor, '.').None?;
  }

  /** A word with no dot is never a version: a lone number is rejected. */
  lemma LoneNumberRejected(w: string)
    requires '.' !in w
    ensures !IsVersion(w)
  {
    assert IndexOf(w, '.').None?;
  }

  /** Output with no words has no version. */
  lemma EmptyOutput(output: string)
    requires forall i :: 0 <= i < |output| ==> IsWhitespace(output[i])
    ensures ParseVersionStr(output).None?
  {
    SplitWhitespaceSkip(output, "");
    assert output + "" == output;
  }

  /** A leading `v` is dropped: `v1.2` reads as `1.2`. */
  lemma NormalizeLeadingV(w: string)
    requires |w| > 0 && w[0] != 'v'
    ensures Normalize("v" + w) == Normalize(w)
  {
    assert ("v" + w)[1..] == w;
  }

  /** `run_doctor`'s exit code: success exactly when every check passed. */
  function DoctorExitCode(checks: seq<DoctorCheck>): (code: int)
    ensures code == ExitCodes.Success <==> forall i :: 0 <= i < |checks| ==> checks[i].passed
    ensures code != ExitCodes.Success ==> code == ExitCodes.RuntimeError
  {
    if forall i :: 0 <= i < |checks| ==> checks[i].passed then ExitCodes.Success
    else ExitCodes.RuntimeError
  }

  /** `run_doctor`: the printed report and the exit code. The report says all checks passed
      exactly when the exit code is 0 (the list of checks is never empty). */
  function RunDoctor(checks: seq<DoctorCheck>): (r: (string, int))
    ensures r.0 == FormatDoctorReport(checks)
    ensures r.1 == DoctorExitCode(checks)
    ensures |checks| > 0 ==> (r.1 == ExitCodes.Success <==> AllPassed(checks))
  {
    (FormatDoctorReport(checks), DoctorExitCode(checks))
  }
}
