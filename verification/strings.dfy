/** The text primitives of Rust's `str` that the tool leans on: prefix tests, `find`,
    `split`, `split_whitespace`, `trim`, `lines`, `join`, `{:<w}` padding and decimal
    formatting of integers. A `string` is a sequence of Unicode scalar values, as a
    Rust `str` seen through `chars()`. */
module Strings {
  import opened Wrappers

  // ---------------------------------------------------------------------------
  // Prefixes, suffixes, occurrences
  // ---------------------------------------------------------------------------

  predicate StartsWith(s: string, p: string) {
    |p| <= |s| && s[..|p|] == p
  }

  predicate EndsWith(s: string, p: string) {
    |p| <= |s| && s[|s| - |p|..] == p
  }

  /** `p` occurs in `s` starting at index `i`. */
  predicate OccursAt(s: string, p: string, i: int) {
    0 <= i && i + |p| <= |s| && s[i..i + |p|] == p
  }

  predicate Contains(s: string, p: string) {
    exists i :: 0 <= i <= |s| - |p| && OccursAt(s, p, i)
  }

  lemma ContainsWitness(s: string, p: string, i: int)
    requires OccursAt(s, p, i)
    ensures Contains(s, p)
  {
  }

  /** `a + b + c` contains `b`. */
  lemma ContainsMiddle(a: string, b: string, c: string)
    ensures Contains(a + b + c, b)
  {
    assert (a + b + c)[|a|..|a| + |b|] == b;
    ContainsWitness(a + b + c, b, |a|);
  }

  /** The first occurrence of `p` in `s` at or after `k`. */
  function FindFrom(s: string, p: string, k: nat): (r: Option<nat>)
    decreases |s| - k
    ensures r.Some? ==> k <= r.value && OccursAt(s, p, r.value)
    ensures r.Some? ==> forall j :: k <= j < r.value ==> !OccursAt(s, p, j)
    ensures r.None? ==> forall j :: k <= j ==> !OccursAt(s, p, j)
  {
    if k + |p| > |s| then None
    else if s[k..k + |p|] == p then Some(k)
    else FindFrom(s, p, k + 1)
  }

  /** `str::find(&str)`: the index of the first occurrence of `p`. */
  function Find(s: string, p: string): (r: Option<nat>)
    ensures r.Some? <==> Contains(s, p)
    ensures r.Some? ==> OccursAt(s, p, r.value) && forall j :: 0 <= j < r.value ==> !OccursAt(s, p, j)
  {
    FindFrom(s, p, 0)
  }

  /** `Find` returns the given index when `p` sits there and nowhere earlier. */
  lemma FindIs(s: string, p: string, i: nat)
    requires OccursAt(s, p, i)
    requires forall j :: 0 <= j < i ==> !OccursAt(s, p, j)
    ensures Find(s, p) == Some(i)
  {
    ContainsWitness(s, p, i);
  }

  /** The first index at or after `k` holding `c`. */
  function IndexOfFrom(s: string, c: char, k: nat): (r: Option<nat>)
    decreases |s| - k
    ensures r.Some? ==> k <= r.value < |s| && s[r.value] == c
    ensures r.Some? ==> forall j :: k <= j < r.value ==> s[j] != c
    ensures r.None? ==> forall j :: k <= j < |s| ==> s[j] != c
  {
    if k >= |s| then None
    else if s[k] == c then Some(k)
    else IndexOfFrom(s, c, k + 1)
  }

  /** `str::find(char)`. */
  function IndexOf(s: string, c: char): (r: Option<nat>)
    ensures r.Some? ==> r.value < |s| && s[r.value] == c && c !in s[..r.value]
    ensures r.None? <==> c !in s
  {
    var r := IndexOfFrom(s, c, 0);
    assert r.Some? ==> forall j :: 0 <= j < r.value ==> s[..r.value][j] != c;
    assert r.Some? ==> c in s by {
      if r.Some? { assert s[r.value] == c; }
    }
    r
  }

  /** `IndexOf` returns the given index when `c` sits there and nowhere earlier. */
  lemma IndexOfIs(s: string, c: char, i: nat)
    requires i < |s| && s[i] == c && c !in s[..i]
    ensures IndexOf(s, c) == Some(i)
  {
    var r := IndexOf(s, c);
    assert c in s;
    assert forall j :: 0 <= j < r.value ==> s[j] != c by {
      forall j | 0 <= j < r.value ensures s[j] != c { assert s[..r.value][j] == s[j]; }
    }
    assert forall j :: 0 <= j < i ==> s[j] != c by {
      forall j | 0 <= j < i ensures s[j] != c { assert s[..i][j] == s[j]; }
    }
  }

  /** `str::split_once(&str)`: the text before and after the first occurrence of `p`. */
  function SplitOnce(s: string, p: string): (r: Option<(string, string)>)
    ensures r.None? <==> !Contains(s, p)
    ensures r.Some? ==> s == r.value.0 + p + r.value.1
    ensures r.Some? ==> forall j :: 0 <= j < |r.value.0| ==> !OccursAt(s, p, j)
  {
    match Find(s, p)
    case None => None
    case Some(i) =>
      SliceAround(s, p, i);
      Some((s[..i], s[i + |p|..]))
  }

  lemma SliceAround(s: string, p: string, i: nat)
    requires OccursAt(s, p, i)
    ensures s == s[..i] + p + s[i + |p|..]
  {
    assert s == s[..i] + s[i..i + |p|] + s[i + |p|..];
  }

  /** `split_once` cuts at the given occurrence when there is none earlier. */
  lemma SplitOnceAt(a: string, p: string, b: string)
    requires forall j :: 0 <= j < |a| ==> !OccursAt(a + p + b, p, j)
    ensures SplitOnce(a + p + b, p) == Some((a, b))
  {
    var s := a + p + b;
    assert s[|a|..|a| + |p|] == p;
    FindIs(s, p, |a|);
    assert s[..|a|] == a;
    assert s[|a| + |p|..] == b;
  }

  // ---------------------------------------------------------------------------
  // split / join
  // ---------------------------------------------------------------------------

  /** `str::split(char)`: always at least one piece; no piece holds the separator. */
  function Split(s: string, c: char): (r: seq<string>)
    decreases |s|
    ensures |r| >= 1
    ensures forall i :: 0 <= i < |r| ==> c !in r[i]
  {
    match IndexOf(s, c)
    case None => [s]
    case Some(i) => [s[..i]] + Split(s[i + 1..], c)
  }

  /** `[T]::join(sep)`. */
  function Join(parts: seq<string>, sep: string): string
  {
    if |parts| == 0 then ""
    else if |parts| == 1 then parts[0]
    else parts[0] + sep + Join(parts[1..], sep)
  }

  lemma JoinCons(p: string, rest: seq<string>, sep: string)
    requires |rest| > 0
    ensures Join([p] + rest, sep) == p + sep + Join(rest, sep)
  {
    assert ([p] + rest)[1..] == rest;
  }

  /** Joining the pieces of a split with the separator gives back the text. */
  lemma {:induction false} JoinSplit(s: string, c: char)
    decreases |s|
    ensures Join(Split(s, c), [c]) == s
  {
    match IndexOf(s, c)
    case None =>
    case Some(i) =>
      JoinSplit(s[i + 1..], c);
      JoinCons(s[..i], Split(s[i + 1..], c), [c]);
      assert s == s[..i] + [c] + s[i + 1..];
  }

  /** Splitting `a + c + b` on `c` splits `a` and `b` separately when `a` holds no `c`. */
  lemma SplitAt(a: string, b: string, c: char)
    requires c !in a
    ensures Split(a + [c] + b, c) == [a] + Split(b, c)
  {
    var s := a + [c] + b;
    assert s[..|a|] == a;
    IndexOfIs(s, c, |a|);
    assert s[|a| + 1..] == b;
  }

  /** Splitting a separator-joined list whose items avoid the separator gives the list back. */
  lemma {:induction false} SplitJoin(parts: seq<string>, c: char)
    requires |parts| >= 1
    requires forall i :: 0 <= i < |parts| ==> c !in parts[i]
    ensures Split(Join(parts, [c]), c) == parts
  {
    if |parts| == 1 {
      assert IndexOf(parts[0], c).None?;
    } else {
      SplitJoin(parts[1..], c);
      SplitAt(parts[0], Join(parts[1..], [c]), c);
      assert parts == [parts[0]] + parts[1..];
    }
  }

  /** Splitting distributes over a separator placed between two texts. */
  lemma {:induction false} SplitConcat(a: string, b: string, c: char)
    decreases |a|
    ensures Split(a + [c] + b, c) == Split(a, c) + Split(b, c)
  {
    match IndexOf(a, c)
    case None =>
      SplitAt(a, b, c);
    case Some(i) =>
      var s := a + [c] + b;
      assert s[..i] == a[..i];
      IndexOfIs(s, c, i);
      assert s[i + 1..] == a[i + 1..] + [c] + b;
      SplitConcat(a[i + 1..], b, c);
  }

  // ---------------------------------------------------------------------------
  // Whitespace, trimming, split_whitespace, lines
  // ---------------------------------------------------------------------------

  /** Unicode White_Space, the class `str::trim` and `split_whitespace` use. */
  predicate IsWhitespace(ch: char) {
    ('\t' <= ch <= '\r') || ch == ' ' || ch == '\U{0085}' || ch == '\U{00A0}' || ch == '\U{1680}'
    || ('\U{2000}' <= ch <= '\U{200A}') || ch == '\U{2028}' || ch == '\U{2029}'
    || ch == '\U{202F}' || ch == '\U{205F}' || ch == '\U{3000}'
  }

  predicate NoWhitespace(s: string) {
    forall i :: 0 <= i < |s| ==> !IsWhitespace(s[i])
  }

  /** `trim_start_matches(f)`: drops the longest prefix whose characters satisfy `f`. */
  function TrimStartBy(s: string, f: char -> bool): (r: string)
    decreases |s|
    ensures |r| <= |s| && r == s[|s| - |r|..]
    ensures r == [] || !f(r[0])
    ensures forall i :: 0 <= i < |s| - |r| ==> f(s[i])
  {
    if |s| > 0 && f(s[0]) then TrimStartBy(s[1..], f) else s
  }

  /** `trim_end_matches(f)`: drops the longest suffix whose characters satisfy `f`. */
  function TrimEndBy(s: string, f: char -> bool): (r: string)
    decreases |s|
    ensures |r| <= |s| && r == s[..|r|]
    ensures r == [] || !f(r[|r| - 1])
    ensures forall i :: |r| <= i < |s| ==> f(s[i])
  {
    if |s| > 0 && f(s[|s| - 1]) then TrimEndBy(s[..|s| - 1], f) else s
  }

  /** `str::trim`. */
  function Trim(s: string): string {
    TrimEndBy(TrimStartBy(s, IsWhitespace), IsWhitespace)
  }

  /** A text with no whitespace at either end is its own trim. */
  lemma TrimNoop(s: string)
    requires s == [] || (!IsWhitespace(s[0]) && !IsWhitespace(s[|s| - 1]))
    ensures Trim(s) == s
  {
  }

  /** Whitespace added around a text with no whitespace at its ends is what `Trim` removes. */
  lemma TrimPadded(pre: string, s: string, post: string)
    requires forall i :: 0 <= i < |pre| ==> IsWhitespace(pre[i])
    requires forall i :: 0 <= i < |post| ==> IsWhitespace(post[i])
    requires s != [] && !IsWhitespace(s[0]) && !IsWhitespace(s[|s| - 1])
    ensures Trim(pre + s + post) == s
  {
    TrimStartPadded(pre, s + post);
    assert pre + s + post == pre + (s + post);
    TrimEndPadded(s, post);
  }

  /** Trimming the start removes exactly a whitespace prefix before a non-whitespace text. */
  lemma TrimStartPadded(pre: string, s: string)
    requires forall i :: 0 <= i < |pre| ==> IsWhitespace(pre[i])
    requires s != [] && !IsWhitespace(s[0])
    ensures TrimStartBy(pre + s, IsWhitespace) == s
  {
    var x := pre + s;
    var t := TrimStartBy(x, IsWhitespace);
    assert x[|pre|] == s[0];
    assert forall k :: 0 <= k < |pre| ==> x[k] == pre[k];
    assert |t| == |s|;
  }

  /** Trimming the end removes exactly a whitespace suffix after a non-whitespace text. */
  lemma TrimEndPadded(s: string, post: string)
    requires forall i :: 0 <= i < |post| ==> IsWhitespace(post[i])
    requires s != [] && !IsWhitespace(s[|s| - 1])
    ensures TrimEndBy(s + post, IsWhitespace) == s
  {
    var t := s + post;
    var u := TrimEndBy(t, IsWhitespace);
    assert t[|s| - 1] == s[|s| - 1];
    assert forall k :: |s| <= k < |t| ==> t[k] == post[k - |s|];
    assert |u| == |s|;
  }

  /** Length of the longest prefix of `s` free of characters satisfying `f`. */
  function SpanNot(s: string, f: char -> bool): (n: nat)
    decreases |s|
    ensures n <= |s|
    ensures forall j :: 0 <= j < n ==> !f(s[j])
    ensures n < |s| ==> f(s[n])
  {
    if |s| == 0 || f(s[0]) then 0 else 1 + SpanNot(s[1..], f)
  }

  /** `str::split_whitespace`: the maximal runs of non-whitespace, in order. */
  function SplitWhitespace(s: string): (r: seq<string>)
    decreases |s|
    ensures forall i :: 0 <= i < |r| ==> r[i] != [] && NoWhitespace(r[i])
  {
    if s == [] then []
    else if IsWhitespace(s[0]) then SplitWhitespace(s[1..])
    else
      var n := SpanNot(s, IsWhitespace);
      [s[..n]] + SplitWhitespace(s[n..])
  }

  /** Leading whitespace does not change the tokens. */
  lemma {:induction false} SplitWhitespaceSkip(w: string, s: string)
    requires forall i :: 0 <= i < |w| ==> IsWhitespace(w[i])
    ensures SplitWhitespace(w + s) == SplitWhitespace(s)
  {
    if w != [] {
      assert (w + s)[0] == w[0];
      assert (w + s)[1..] == w[1..] + s;
      assert SplitWhitespace(w + s) == SplitWhitespace(w[1..] + s);
      SplitWhitespaceSkip(w[1..], s);
    } else {
      assert w + s == s;
    }
  }

  /** A token followed by whitespace is the first token. */
  lemma SplitWhitespaceToken(tok: string, w: string, rest: string)
    requires tok != [] && NoWhitespace(tok)
    requires w != [] && forall i :: 0 <= i < |w| ==> IsWhitespace(w[i])
    ensures SplitWhitespace(tok + w + rest) == [tok] + SplitWhitespace(rest)
  {
    var s := tok + w + rest;
    assert s[0] == tok[0];
    assert forall k :: 0 <= k < |tok| ==> s[k] == tok[k];
    assert s[|tok|] == w[0];
    assert SpanNot(s, IsWhitespace) == |tok|;
    assert s[..|tok|] == tok;
    assert s[|tok|..] == w + rest;
    SplitWhitespaceSkip(w, rest);
  }

  /** Three space-separated tokens lead the split of the text they start. */
  lemma SplitWhitespaceThree(a: string, b: string, c: string, rest: string)
    requires a != [] && NoWhitespace(a)
    requires b != [] && NoWhitespace(b)
    requires c != [] && NoWhitespace(c)
    ensures SplitWhitespace(a + " " + (b + " " + (c + " " + rest))) == [a, b, c] + SplitWhitespace(rest)
  {
    var t3 := c + " " + rest;
    var t2 := b + " " + t3;
    calc {
      SplitWhitespace(a + " " + t2);
      { SplitWhitespaceToken(a, " ", t2); }
      [a] + SplitWhitespace(t2);
      { SplitWhitespaceToken(b, " ", t3); }
      [a] + ([b] + SplitWhitespace(t3));
      { SplitWhitespaceToken(c, " ", rest); }
      [a] + ([b] + ([c] + SplitWhitespace(rest)));
      [a, b, c] + SplitWhitespace(rest);
    }
  }

  /** A lone token splits to itself. */
  lemma SplitWhitespaceSingle(tok: string)
    requires tok != [] && NoWhitespace(tok)
    ensures SplitWhitespace(tok) == [tok]
  {
    assert SpanNot(tok, IsWhitespace) == |tok|;
    assert tok[|tok|..] == [];
    assert tok[..|tok|] == tok;
    assert SplitWhitespace(tok) == [tok] + SplitWhitespace([]);
  }

  /** Drops one trailing carriage return. */
  function StripCR(line: string): (r: string)
    ensures r == line || (line == r + "\r")
  {
    if |line| > 0 && line[|line| - 1] == '\r' then line[..|line| - 1] else line
  }

  /** `str::lines`: splits on `\n`, strips a `\r` that precedes it, and yields no empty
      last line for a text ending in `\n`. */
  function Lines(s: string): (r: seq<string>)
    decreases |s|
    ensures s == [] <==> r == []
    ensures forall i :: 0 <= i < |r| ==> '\n' !in r[i]
  {
    if s == [] then []
    else match IndexOf(s, '\n')
      case None => [s]
      case Some(i) => [StripCR(s[..i])] + Lines(s[i + 1..])
  }

  /** A line for `Lines`: no newline and no trailing carriage return. */
  predicate PlainLine(l: string) {
    '\n' !in l && (l == [] || l[|l| - 1] != '\r')
  }

  /** `Lines` undoes joining plain lines with `\n`, provided the last line is not empty. */
  lemma {:induction false} LinesJoin(ls: seq<string>)
    requires forall i :: 0 <= i < |ls| ==> PlainLine(ls[i])
    requires |ls| > 0 ==> ls[|ls| - 1] != []
    ensures Lines(Join(ls, "\n")) == ls
  {
    if |ls| == 0 {
    } else if |ls| == 1 {
      assert IndexOf(ls[0], '\n').None?;
    } else {
      var rest := Join(ls[1..], "\n");
      var s := ls[0] + "\n" + rest;
      assert Join(ls, "\n") == s;
      assert s[..|ls[0]|] == ls[0];
      IndexOfIs(s, '\n', |ls[0]|);
      assert s[|ls[0]| + 1..] == rest;
      LinesJoin(ls[1..]);
      assert ls == [ls[0]] + ls[1..];
    }
  }

  // ---------------------------------------------------------------------------
  // Characters and case
  // ---------------------------------------------------------------------------

  predicate IsAsciiDigit(c: char) { '0' <= c <= '9' }
  predicate IsAsciiLower(c: char) { 'a' <= c <= 'z' }
  predicate IsAsciiUpper(c: char) { 'A' <= c <= 'Z' }

  /** `char::is_ascii_alphanumeric`. */
  predicate IsAsciiAlphanumeric(c: char) { IsAsciiDigit(c) || IsAsciiLower(c) || IsAsciiUpper(c) }

  /** `char::to_ascii_lowercase`. */
  function AsciiLower(c: char): (r: char)
    ensures IsAsciiUpper(c) ==> IsAsciiLower(r) && r as int == c as int + 32
    ensures !IsAsciiUpper(c) ==> r == c
  {
    if IsAsciiUpper(c) then (c as int + 32) as char else c
  }

  /** `str::to_ascii_lowercase`. */
  function AsciiLowerStr(s: string): (r: string)
    ensures |r| == |s|
    ensures forall i :: 0 <= i < |s| ==> r[i] == AsciiLower(s[i])
  {
    seq(|s|, i requires 0 <= i < |s| => AsciiLower(s[i]))
  }

  /** A text already in ASCII lower case is unchanged by lowering. */
  lemma AsciiLowerOfLower(s: string)
    requires forall i :: 0 <= i < |s| ==> !IsAsciiUpper(s[i])
    ensures AsciiLowerStr(s) == s
  {
  }

  // ---------------------------------------------------------------------------
  // Padding and numbers
  // ---------------------------------------------------------------------------

  function Spaces(n: nat): (r: string)
    ensures |r| == n && forall i :: 0 <= i < n ==> r[i] == ' '
  {
    seq(n, _ => ' ')
  }

  /** `format!("{:<w}", s)`: left-aligned in a field of `w` characters, never truncated. */
  function PadRight(s: string, w: nat): (r: string)
    ensures |r| == if |s| < w then w else |s|
    ensures r[..|s|] == s
    ensures forall i :: |s| <= i < |r| ==> r[i] == ' '
  {
    if |s| < w then s + Spaces(w - |s|) else s
  }

  function DigitChar(d: nat): (c: char)
    requires d < 10
    ensures IsAsciiDigit(c) && c as int - '0' as int == d
  {
    ('0' as int + d) as char
  }

  /** `format!("{}", n)` for a non-negative integer. */
  function NatToString(n: nat): (r: string)
    ensures |r| >= 1
    ensures forall i :: 0 <= i < |r| ==> IsAsciiDigit(r[i])
    ensures n >= 10 ==> r[0] != '0'
  {
    if n < 10 then [DigitChar(n)] else NatToString(n / 10) + [DigitChar(n % 10)]
  }

  /** The value of a string of ASCII digits. */
  function DigitsValue(s: string): nat
    requires forall i :: 0 <= i < |s| ==> IsAsciiDigit(s[i])
  {
    if |s| == 0 then 0
    else
      var d := s[|s| - 1] as int - '0' as int;
      assert IsAsciiDigit(s[|s| - 1]);
      10 * DigitsValue(s[..|s| - 1]) + d
  }

  /** Reading back the decimal text of `n` gives `n`. */
  lemma {:induction false} NatToStringRoundTrip(n: nat)
    ensures DigitsValue(NatToString(n)) == n
  {
    if n >= 10 {
      NatToStringRoundTrip(n / 10);
      var s := NatToString(n);
      assert s[..|s| - 1] == NatToString(n / 10);
    }
  }

  /** `format!("{}", i)` for any integer. */
  function IntToString(i: int): (r: string)
    ensures |r| >= 1
    ensures i < 0 <==> r[0] == '-'
  {
    if i < 0 then "-" + NatToString(-i) else NatToString(i)
  }

  // ---------------------------------------------------------------------------
  // Lexicographic order (code point order, which is UTF-8 byte order)
  // ---------------------------------------------------------------------------

  predicate LexLe(a: string, b: string) {
    |a| == 0 || (|b| > 0 && (a[0] < b[0] || (a[0] == b[0] && LexLe(a[1..], b[1..]))))
  }

  lemma {:induction false} LexLeTotal(a: string, b: string)
    decreases |a|
    ensures LexLe(a, b) || LexLe(b, a)
  {
    if |a| > 0 && |b| > 0 && a[0] == b[0] {
      LexLeTotal(a[1..], b[1..]);
    }
  }

  lemma {:induction false} LexLeTrans(a: string, b: string, c: string)
    decreases |a|
    requires LexLe(a, b) && LexLe(b, c)
    ensures LexLe(a, c)
  {
    if |a| > 0 && a[0] == b[0] && b[0] == c[0] {
      LexLeTrans(a[1..], b[1..], c[1..]);
    }
  }

  lemma {:induction false} LexLeAntisym(a: string, b: string)
    decreases |a|
    requires LexLe(a, b) && LexLe(b, a)
    ensures a == b
  {
    if |a| > 0 {
      LexLeAntisym(a[1..], b[1..]);
      assert a == [a[0]] + a[1..];
      assert b == [b[0]] + b[1..];
    }
  }
}
