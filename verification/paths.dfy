/** Unix paths as Rust's `std::path` treats them: `components`, `push`/`join`, `file_name`,
    `strip_prefix`. A path is its text (the bytes of a `PathBuf`, here characters). */
module Paths {
  import opened Wrappers
  import opened Strings
  import opened Seqs

  datatype Component = RootDir | CurDir | ParentDir | Normal(name: string)

  /** `Path::has_root` on Unix, which is also `is_absolute`. */
  predicate IsAbsolute(p: string) {
    |p| > 0 && p[0] == '/'
  }

  /** A single path segment that `components` reports as `Normal` unchanged. */
  predicate ValidName(n: string) {
    n != "" && '/' !in n && n != "." && n != ".."
  }

  /** What one `/`-separated segment contributes: nothing for `` and `.`, else one component. */
  function SegmentComponent(seg: string): (r: Option<Component>)
    ensures r.Some? ==> r.value != RootDir && r.value != CurDir
    ensures ValidName(seg) ==> r == Some(Normal(seg))
  {
    if seg == "" || seg == "." then None
    else if seg == ".." then Some(ParentDir)
    else Some(Normal(seg))
  }

  /** The leading `RootDir` of a rooted path, or the leading `CurDir` of `.` and `./...`. */
  function Head(p: string): (r: seq<Component>)
    ensures |r| <= 1
  {
    if IsAbsolute(p) then [RootDir]
    else if |p| > 0 && p[0] == '.' && (|p| == 1 || p[1] == '/') then [CurDir]
    else []
  }

  /** The components a path's `/`-separated segments contribute, after any head. */
  function Body(p: string): (r: seq<Component>)
    ensures forall i :: 0 <= i < |r| ==> r[i] != RootDir
  {
    var body := FilterMap(Split(p, '/'), SegmentComponent);
    assert forall i :: 0 <= i < |body| ==> body[i] != RootDir by {
      forall i | 0 <= i < |body| ensures body[i] != RootDir {
        FilterMapMember(Split(p, '/'), SegmentComponent, body[i]);
      }
    }
    body
  }

  /** `Path::components`: empty and interior `.` segments vanish, `..` is `ParentDir`. */
  function Components(p: string): (r: seq<Component>)
    ensures IsAbsolute(p) <==> |r| > 0 && r[0] == RootDir
  {
    Head(p) + Body(p)
  }

  /** `PathBuf::push` / `Path::join` on Unix: an absolute `q` replaces `p`; otherwise a `/`
      goes between them unless `p` is empty or already ends in `/`. */
  function JoinPath(p: string, q: string): (r: string)
    ensures IsAbsolute(q) ==> r == q
    ensures !IsAbsolute(q) && (p == [] || p[|p| - 1] == '/') ==> r == p + q
    ensures !IsAbsolute(q) && p != [] && p[|p| - 1] != '/' ==> r == p + "/" + q
  {
    if IsAbsolute(q) then q
    else if p == [] || p[|p| - 1] == '/' then p + q
    else p + "/" + q
  }

  /** `Path::file_name`: the last component when it is a `Normal` one. */
  function FileName(p: string): (r: Option<string>)
    ensures r.Some? <==> |Components(p)| > 0 && Components(p)[|Components(p)| - 1].Normal?
    ensures r.Some? ==> r.value == Components(p)[|Components(p)| - 1].name
  {
    var cs := Components(p);
    if |cs| > 0 && cs[|cs| - 1].Normal? then Some(cs[|cs| - 1].name) else None
  }

  /** `Path::strip_prefix`: the components after `base`, when `base`'s components lead `p`'s. */
  function StripPrefix(p: string, base: string): (r: Option<seq<Component>>)
    ensures r.Some? <==> Components(base) <= Components(p)
    ensures r.Some? ==> Components(p) == Components(base) + r.value
  {
    var cs := Components(p);
    var bs := Components(base);
    if bs <= cs then
      assert cs == bs + cs[|bs|..];
      Some(cs[|bs|..])
    else None
  }

  /** The text of one component, as `Component::as_os_str`. */
  function ComponentText(c: Component): string {
    match c
    case RootDir => "/"
    case CurDir => "."
    case ParentDir => ".."
    case Normal(n) => n
  }

  function Texts(cs: seq<Component>): (r: seq<string>)
    ensures |r| == |cs|
    ensures forall i :: 0 <= i < |cs| ==> r[i] == ComponentText(cs[i])
  {
    if |cs| == 0 then [] else [ComponentText(cs[0])] + Texts(cs[1..])
  }

  /** The text of a path made of these components (`PathBuf: FromIterator<Component>`). */
  function Render(cs: seq<Component>): (r: string)
    ensures cs == [] ==> r == ""
  {
    if |cs| > 0 && cs[0] == RootDir then "/" + Strings.Join(Texts(cs[1..]), "/")
    else Strings.Join(Texts(cs), "/")
  }

  // ---------------------------------------------------------------------------
  // Joining a single name
  // ---------------------------------------------------------------------------

  lemma SplitSingle(n: string)
    requires '/' !in n
    ensures Split(n, '/') == [n]
  {
    assert IndexOf(n, '/').None?;
  }

  lemma BodyEmpty()
    ensures Body("") == []
  {
    SplitSingle("");
    assert FilterMap([""], SegmentComponent) == [];
  }

  lemma BodyName(n: string)
    requires ValidName(n)
    ensures Body(n) == [Normal(n)]
  {
    SplitSingle(n);
    assert FilterMap([n], SegmentComponent) == [Normal(n)];
  }

  /** A `/` between two texts splits their components. */
  lemma BodySlash(a: string, b: string)
    ensures Body(a + "/" + b) == Body(a) + Body(b)
  {
    assert a + "/" + b == a + ['/'] + b;
    SplitConcat(a, b, '/');
    FilterMapAppend(Split(a, '/'), Split(b, '/'), SegmentComponent);
  }

  lemma BodyTrailingSlash(b: string, n: string)
    ensures Body(b + "/") == Body(b)
    ensures Body((b + "/") + n) == Body(b) + Body(n)
  {
    assert b + "/" == b + "/" + "";
    assert (b + "/") + n == b + "/" + n;
    BodySlash(b, "");
    BodySlash(b, n);
    BodyEmpty();
  }

  /** Pushing a plain name adds it to the segment components. */
  lemma BodyJoinName(p: string, n: string)
    requires ValidName(n)
    ensures Body(JoinPath(p, n)) == Body(p) + [Normal(n)]
  {
    BodyName(n);
    if p == [] {
      BodyEmpty();
      assert JoinPath(p, n) == n;
    } else if p[|p| - 1] == '/' {
      var b := p[..|p| - 1];
      assert p == b + "/";
      BodyTrailingSlash(b, n);
    } else {
      BodySlash(p, n);
    }
  }

  /** Pushing a plain name onto a non-empty path keeps its head. */
  lemma HeadJoinName(p: string, n: string)
    requires ValidName(n)
    ensures Head(JoinPath(p, n)) == if p == [] then [] else Head(p)
  {
    if p == [] {
      assert n != "." && (|n| == 1 || n[1] != '/');
    }
  }

  /** Pushing a plain name onto a path appends exactly one `Normal` component. */
  lemma ComponentsJoinName(p: string, n: string)
    requires ValidName(n)
    ensures Components(JoinPath(p, n)) == Components(p) + [Normal(n)]
  {
    BodyJoinName(p, n);
    HeadJoinName(p, n);
    if p == [] {
      BodyEmpty();
    }
  }

  /** The file name of a path with a plain name pushed onto it is that name. */
  lemma FileNameJoinName(p: string, n: string)
    requires ValidName(n)
    ensures FileName(JoinPath(p, n)) == Some(n)
  {
    ComponentsJoinName(p, n);
    var cs := Components(JoinPath(p, n));
    assert cs[|cs| - 1] == Normal(n);
  }

  /** `strip_prefix` leaves exactly the components after the base's. */
  lemma StripPrefixOf(p: string, base: string, rest: seq<Component>)
    requires Components(p) == Components(base) + rest
    ensures StripPrefix(p, base) == Some(rest)
  {
    var cs := Components(p);
    var bs := Components(base);
    assert bs <= cs;
    assert cs[|bs|..] == rest;
  }

  /** Every path `p` lies under itself with nothing left over. */
  lemma StripSelf(p: string)
    ensures StripPrefix(p, p) == Some([])
  {
    StripPrefixOf(p, p, []);
  }

  /** A name pushed onto `base` is what `strip_prefix(base)` leaves. */
  lemma StripJoinName(base: string, n: string)
    requires ValidName(n)
    ensures StripPrefix(JoinPath(base, n), base) == Some([Normal(n)])
  {
    ComponentsJoinName(base, n);
    StripPrefixOf(JoinPath(base, n), base, [Normal(n)]);
  }

  /** Two names pushed in turn are what `strip_prefix(base)` leaves. */
  lemma StripJoinTwoNames(base: string, m: string, n: string)
    requires ValidName(m) && ValidName(n)
    ensures StripPrefix(JoinPath(JoinPath(base, m), n), base) == Some([Normal(m), Normal(n)])
  {
    ComponentsJoinName(base, m);
    ComponentsJoinName(JoinPath(base, m), n);
    AppendPair(Components(base), Normal(m), Normal(n));
    StripPrefixOf(JoinPath(JoinPath(base, m), n), base, [Normal(m), Normal(n)]);
  }

  /** Pushing `a` and then `b` is pushing the relative path `a/b` in one go. */
  lemma JoinNested(p: string, a: string, b: string)
    requires ValidName(a) && !IsAbsolute(b)
    ensures JoinPath(JoinPath(p, a), b) == JoinPath(p, a + "/" + b)
  {
    var ab := a + "/" + b;
    assert ab[0] == a[0] && a[0] != '/';
    assert !IsAbsolute(ab);
    var pa := JoinPath(p, a);
    var sep := if p == [] || p[|p| - 1] == '/' then "" else "/";
    assert pa == p + sep + a;
    assert pa[|pa| - 1] == a[|a| - 1] && a[|a| - 1] != '/';
    assert JoinPath(pa, b) == (p + sep + a) + "/" + b;
    assert JoinPath(p, ab) == p + sep + (a + "/" + b);
  }

  /** Pushing the relative path `a/b` appends two `Normal` components. */
  lemma ComponentsJoinTwo(p: string, a: string, b: string)
    requires ValidName(a) && ValidName(b)
    ensures Components(JoinPath(p, a + "/" + b)) == Components(p) + [Normal(a), Normal(b)]
  {
    JoinNested(p, a, b);
    var pa := JoinPath(p, a);
    ComponentsJoinName(p, a);
    ComponentsJoinName(pa, b);
    assert Components(JoinPath(pa, b)) == Components(p) + [Normal(a)] + [Normal(b)];
    AppendPair(Components(p), Normal(a), Normal(b));
  }

  /** Pushing the relative path `a/b/c` appends three `Normal` components. */
  lemma ComponentsJoinThree(p: string, a: string, b: string, c: string)
    requires ValidName(a) && ValidName(b) && ValidName(c)
    ensures Components(JoinPath(p, a + "/" + (b + "/" + c))) ==
      Components(p) + [Normal(a), Normal(b), Normal(c)]
  {
    var bc := b + "/" + c;
    var pa := JoinPath(p, a);
    calc {
      Components(JoinPath(p, a + "/" + bc));
      { assert bc[0] == b[0]; JoinNested(p, a, bc); }
      Components(JoinPath(pa, bc));
      { ComponentsJoinTwo(pa, b, c); }
      Components(pa) + [Normal(b), Normal(c)];
      { ComponentsJoinName(p, a); }
      Components(p) + [Normal(a)] + [Normal(b), Normal(c)];
      { SnocPrepend(Components(p), Normal(a), [Normal(b), Normal(c)]); }
      Components(p) + [Normal(a), Normal(b), Normal(c)];
    }
  }

  /** Pushing the relative path `a/b/c/d` appends four `Normal` components. */
  lemma ComponentsJoinFour(p: string, a: string, b: string, c: string, d: string)
    requires ValidName(a) && ValidName(b) && ValidName(c) && ValidName(d)
    ensures Components(JoinPath(p, a + "/" + (b + "/" + (c + "/" + d)))) ==
      Components(p) + [Normal(a), Normal(b), Normal(c), Normal(d)]
  {
    var bcd := b + "/" + (c + "/" + d);
    var pa := JoinPath(p, a);
    calc {
      Components(JoinPath(p, a + "/" + bcd));
      { assert bcd[0] == b[0]; JoinNested(p, a, bcd); }
      Components(JoinPath(pa, bcd));
      { ComponentsJoinThree(pa, b, c, d); }
      Components(pa) + [Normal(b), Normal(c), Normal(d)];
      { ComponentsJoinName(p, a); }
      Components(p) + [Normal(a)] + [Normal(b), Normal(c), Normal(d)];
      { SnocPrepend(Components(p), Normal(a), [Normal(b), Normal(c), Normal(d)]); }
      Components(p) + [Normal(a), Normal(b), Normal(c), Normal(d)];
    }
  }

  lemma SnocPrepend<T>(s: seq<T>, x: T, t: seq<T>)
    ensures s + [x] + t == s + ([x] + t)
  {
  }
}
