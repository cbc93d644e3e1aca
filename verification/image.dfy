/** The base-image tag and `${localEnv:...}` expansion (`src/image.rs`). Reading the
    configuration file is outside the model: its bytes, or nothing, are an input; the
    environment is a function from variable names to values. */
module Image {
  import opened Wrappers
  import opened Strings
  import opened Digest

  /** The tag's fixed part. */
  const TagPrefix: string := "dcx-base:"

  /** `content_tag`: `dcx-base:` and the first eight hex characters of SHA-256 of the file's
      bytes; a file that cannot be read hashes as empty. The path itself plays no part. */
  function ContentTag(contents: Option<seq<Byte>>, sha: seq<Byte> -> Digest): (r: string)
    ensures |r| == |TagPrefix| + 8 && StartsWith(r, TagPrefix)
    ensures forall i :: |TagPrefix| <= i < |r| ==> IsLowerHex(r[i])
    ensures Unhex(r[|TagPrefix|..]) == sha(contents.GetOr([]))[..4]
  {
    var d := sha(contents.GetOr([]));
    Hex8FirstBytes(d);
    var r := TagPrefix + Hex8(d);
    assert r[|TagPrefix|..] == Hex8(d);
    r
  }

  /** Equal contents give equal tags, and an unreadable file is tagged like an empty one. */
  lemma ContentTagByContents(a: Option<seq<Byte>>, b: Option<seq<Byte>>, sha: seq<Byte> -> Digest)
    requires a.GetOr([]) == b.GetOr([])
    ensures ContentTag(a, sha) == ContentTag(b, sha)
  {
  }

  /** Tags differ whenever the digests of the contents differ in their first four bytes. */
  lemma ContentTagSeparates(a: seq<Byte>, b: seq<Byte>, sha: seq<Byte> -> Digest)
    requires sha(a)[..4] != sha(b)[..4]
    ensures ContentTag(Some(a), sha) != ContentTag(Some(b), sha)
  {
    var ta, tb := ContentTag(Some(a), sha), ContentTag(Some(b), sha);
    assert Unhex(ta[|TagPrefix|..]) != Unhex(tb[|TagPrefix|..]);
  }

  // ---------------------------------------------------------------------------
  // ${localEnv:VAR:default}
  // ---------------------------------------------------------------------------

  /** The opening of a pattern. */
  const Marker: string := "${localEnv:"

  /** The replacement for the text between `${localEnv:` and `}`: the variable before the
      first `:` (or the whole text), its value if set, else the text after that `:` (or ``). */
  function Expansion(inner: string, env: string -> Option<string>): (r: string)
    ensures ':' !in inner ==> r == env(inner).GetOr("")
  {
    match IndexOf(inner, ':')
    case Some(c) => env(inner[..c]).GetOr(inner[c + 1..])
    case None => env(inner).GetOr("")
  }

  /** `${localEnv:VAR:def}` names `VAR` and falls back to `def`, which may itself hold `:`. */
  lemma ExpansionWithDefault(name: string, def: string, env: string -> Option<string>)
    requires ':' !in name
    ensures Expansion(name + ":" + def, env) == env(name).GetOr(def)
  {
    var inner := name + ":" + def;
    assert inner[..|name|] == name;
    IndexOfIs(inner, ':', |name|);
    assert inner[|name| + 1..] == def;
  }

  /** `expand_local_env`, as the text it produces: each `${localEnv:` with a later `}` and
      the text up to that `}` is replaced by its expansion; an unclosed `${localEnv:` is
      copied and scanning continues after it. */
  function Expand(value: string, env: string -> Option<string>): (r: string)
    ensures Find(value, Marker).None? ==> r == value
    decreases |value|
  {
    match Find(value, Marker)
    case None => value
    case Some(start) =>
      var rest := value[start + |Marker|..];
      match IndexOf(rest, '}')
      case Some(end) => value[..start] + Expansion(rest[..end], env) + Expand(rest[end + 1..], env)
      case None => value[..start] + Marker + Expand(rest, env)
  }

  /** Text without `}` comes back unchanged, even when it holds unclosed patterns. */
  lemma {:induction false} ExpandNoBrace(value: string, env: string -> Option<string>)
    requires '}' !in value
    ensures Expand(value, env) == value
    decreases |value|
  {
    match Find(value, Marker)
    case None =>
    case Some(start) =>
      var rest := value[start + |Marker|..];
      assert '}' !in rest by {
        forall j | 0 <= j < |rest| ensures rest[j] != '}' {
          assert rest[j] == value[start + |Marker| + j];
        }
      }
      ExpandUnclosed(value, start, env);
      ExpandNoBrace(rest, env);
      SliceAround(value, Marker, start);
  }

  /** The first pattern is replaced and the text before it kept; the rest is expanded on. */
  lemma ExpandFirst(pre: string, inner: string, post: string, env: string -> Option<string>)
    requires forall j :: 0 <= j < |pre| ==> !OccursAt(pre + Marker, Marker, j)
    requires '}' !in inner
    ensures Expand(pre + Marker + inner + "}" + post, env) == pre + Expansion(inner, env) + Expand(post, env)
  {
    var value := pre + Marker + inner + "}" + post;
    assert value[|pre|..|pre| + |Marker|] == Marker;
    var head := pre + Marker;
    assert value == head + (inner + "}" + post);
    forall j | 0 <= j < |pre| ensures !OccursAt(value, Marker, j) {
      assert !OccursAt(head, Marker, j);
      assert j + |Marker| <= |head|;
      assert head[j..j + |Marker|] == value[j..j + |Marker|];
    }
    FindIs(value, Marker, |pre|);
    var rest := value[|pre| + |Marker|..];
    assert rest == inner + "}" + post;
    assert rest[..|inner|] == inner;
    IndexOfIs(rest, '}', |inner|);
    assert rest[|inner| + 1..] == post;
    assert value[..|pre|] == pre;
  }

  /** A lone closed pattern is replaced by its expansion. */
  lemma ExpandLone(inner: string, env: string -> Option<string>)
    requires '}' !in inner
    ensures Expand(Marker + inner + "}", env) == Expansion(inner, env)
  {
    var none: string := [];
    assert Marker + inner + "}" == none + Marker + inner + "}" + none;
    ExpandFirst(none, inner, none, env);
    assert Expand(none, env) == none by {
      assert !Contains(none, Marker);
    }
    assert none + Expansion(inner, env) + none == Expansion(inner, env);
  }

  /** A lone pattern with a default: the variable's value, or the default. */
  lemma ExpandOne(name: string, def: string, env: string -> Option<string>)
    requires ':' !in name && '}' !in name && '}' !in def
    ensures Expand(Marker + name + ":" + def + "}", env) == env(name).GetOr(def)
  {
    var inner := name + ":" + def;
    assert '}' !in inner;
    assert Marker + name + ":" + def + "}" == Marker + inner + "}";
    ExpandLone(inner, env);
    ExpansionWithDefault(name, def, env);
  }

  /** A lone pattern without `:`: the variable's value, or nothing. */
  lemma ExpandOneNoDefault(name: string, env: string -> Option<string>)
    requires ':' !in name && '}' !in name
    ensures Expand(Marker + name + "}", env) == env(name).GetOr("")
  {
    ExpandLone(name, env);
  }

  /** One step of `Expand` at a closed pattern starting at `start`. */
  lemma ExpandClosed(value: string, start: nat, end: nat, env: string -> Option<string>)
    requires Find(value, Marker) == Some(start)
    requires IndexOf(value[start + |Marker|..], '}') == Some(end)
    ensures var rest := value[start + |Marker|..];
      Expand(value, env) == value[..start] + Expansion(rest[..end], env) + Expand(rest[end + 1..], env)
  {
    var rest := value[start + |Marker|..];
    var e := Expand(value, env);
    assert e == value[..start] + Expansion(rest[..end], env) + Expand(rest[end + 1..], env);
  }

  /** One step of `Expand` at an unclosed pattern starting at `start`. */
  lemma ExpandUnclosed(value: string, start: nat, env: string -> Option<string>)
    requires Find(value, Marker) == Some(start)
    requires IndexOf(value[start + |Marker|..], '}').None?
    ensures Expand(value, env) == value[..start] + Marker + Expand(value[start + |Marker|..], env)
  {
  }

  /** One pass of the loop in `expand_local_env`: consumes the text through the first
      `${localEnv:` (and through its `}` when there is one) and emits its replacement. */
  method ExpandStep(remaining: string, start: nat, env: string -> Option<string>)
      returns (emitted: string, next: string)
    requires Find(remaining, Marker) == Some(start)
    ensures |next| < |remaining|
    ensures emitted + Expand(next, env) == Expand(remaining, env)
    ensures StartsWith(emitted, remaining[..start])
  {
    var rest := remaining[start + |Marker|..];
    match IndexOf(rest, '}') {
      case Some(end) =>
        ExpandClosed(remaining, start, end, env);
        emitted := remaining[..start] + Expansion(rest[..end], env);
        next := rest[end + 1..];
      case None =>
        ExpandUnclosed(remaining, start, env);
        emitted := remaining[..start] + Marker;
        next := rest;
    }
  }

  /** `expand_local_env` as written: a loop over the remaining text that appends to a result. */
  method ExpandLocalEnv(value: string, env: string -> Option<string>) returns (result: string)
    ensures result == Expand(value, env)
  {
    result := "";
    var remaining := value;
    var found := Find(remaining, Marker);
    while found.Some?
      invariant found == Find(remaining, Marker)
      invariant result + Expand(remaining, env) == Expand(value, env)
      decreases |remaining|
    {
      var emitted, next := ExpandStep(remaining, found.value, env);
      result, remaining := result + emitted, next;
      found := Find(remaining, Marker);
    }
    result := result + remaining;
  }
}
