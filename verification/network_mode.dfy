/** The devcontainer network isolation level (`src/network_mode.rs`). */
module Network {
  import opened Wrappers
  import opened Strings

  datatype NetworkMode =
    | Restricted  // no network access
    | Minimal     // developer services only
    | Host        // host network only
    | Open        // unrestricted

  /** `Default`: the developer-services level. */
  function DefaultMode(): (m: NetworkMode)
    ensures m == Minimal
    ensures Display(m) == "minimal"
  {
    Minimal
  }

  /** `Display`: the lowercase keyword. */
  function Display(m: NetworkMode): (r: string)
    ensures r != []
    ensures forall i :: 0 <= i < |r| ==> IsAsciiLower(r[i])
  {
    match m
    case Restricted => "restricted"
    case Minimal => "minimal"
    case Host => "host"
    case Open => "open"
  }

  /** Different modes display differently. */
  lemma DisplayInjective(m: NetworkMode, n: NetworkMode)
    requires Display(m) == Display(n)
    ensures m == n
  {
  }

  /** The error `from_str` reports for text that names no mode. */
  function InvalidModeError(s: string): (r: string)
    ensures Contains(r, s)
    ensures Contains(r, "restricted, minimal, host, open")
  {
    var pre := "Invalid network mode '";
    var post := "'. Must be one of: ";
    var allowed := "restricted, minimal, host, open";
    var r := pre + s + post + allowed;
    ContainsWitness(r, s, |pre|);
    assert r[|pre|..|pre| + |s|] == s;
    assert r == (pre + s + post) + allowed;
    ContainsWitness(r, allowed, |pre + s + post|);
    r
  }

  /** `from_str`: the mode whose keyword is the input's lower case. Only ASCII letters can
      lower-case to a keyword letter, so ASCII lowering decides the same inputs. */
  function Parse(s: string): (r: Result<NetworkMode, string>)
    ensures r.Ok? <==> exists m :: Display(m) == AsciiLowerStr(s)
    ensures r.Ok? ==> Display(r.value) == AsciiLowerStr(s)
    ensures r.Err? ==> r.error == InvalidModeError(s)
  {
    var l := AsciiLowerStr(s);
    if l == "restricted" then assert Display(Restricted) == l; Ok(Restricted)
    else if l == "minimal" then assert Display(Minimal) == l; Ok(Minimal)
    else if l == "host" then assert Display(Host) == l; Ok(Host)
    else if l == "open" then assert Display(Open) == l; Ok(Open)
    else
      assert forall m :: Display(m) != l by {
        forall m ensures Display(m) != l {
          assert m.Restricted? || m.Minimal? || m.Host? || m.Open?;
        }
      }
      Err(InvalidModeError(s))
  }

  /** Displaying a mode and parsing the text gives the mode back. */
  lemma ParseDisplay(m: NetworkMode)
    ensures Parse(Display(m)) == Ok(m)
  {
    AsciiLowerOfLower(Display(m));
  }

  /** Parsing ignores letter case: the upper-case keyword parses too. */
  lemma ParseUpper(m: NetworkMode, s: string)
    requires |s| == |Display(m)|
    requires forall i :: 0 <= i < |s| ==> AsciiLower(s[i]) == Display(m)[i]
    ensures Parse(s) == Ok(m)
  {
    assert AsciiLowerStr(s) == Display(m);
    DisplayInjective(Parse(s).value, m);
  }

  /** The empty text names no mode. */
  lemma ParseEmpty()
    ensures Parse("").Err?
  {
    assert AsciiLowerStr("") == "";
  }
}
