/** Progress lines (`src/progress.rs`). */
module Progress {
  import opened Strings

  /** The arrow that leads every progress line, U+2192. */
  const Arrow: char := '\U{2192}'

  /** `format_step`: the arrow, one space, then the message unchanged. */
  function FormatStep(msg: string): (r: string)
    ensures |r| == |msg| + 2
    ensures r[0] == Arrow && r[1] == ' '
    ensures r[2..] == msg
    ensures EndsWith(r, msg)
  {
    [Arrow, ' '] + msg
  }

  /** The message can be read back from its progress line. */
  lemma FormatStepInjective(a: string, b: string)
    requires FormatStep(a) == FormatStep(b)
    ensures a == b
  {
    assert a == FormatStep(a)[2..];
  }
}
