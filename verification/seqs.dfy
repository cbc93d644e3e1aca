/** Generic sequence combinators: `filter`, `filter_map` and counting, as Rust iterators use them. */
module Seqs {
  import opened Wrappers

  /** `iter().filter_map(f)`: the present results of `f`, in order. */
  function FilterMap<A, B>(s: seq<A>, f: A -> Option<B>): (r: seq<B>)
    ensures |r| <= |s|
    ensures (forall i :: 0 <= i < |s| ==> f(s[i]).None?) ==> r == []
  {
    if |s| == 0 then []
    else (match f(s[0]) case Some(b) => [b] case None => []) + FilterMap(s[1..], f)
  }

  lemma {:induction false} FilterMapAppend<A, B>(a: seq<A>, b: seq<A>, f: A -> Option<B>)
    ensures FilterMap(a + b, f) == FilterMap(a, f) + FilterMap(b, f)
  {
    if |a| > 0 {
      assert (a + b)[0] == a[0];
      assert (a + b)[1..] == a[1..] + b;
      var h: seq<B> := match f(a[0]) case Some(x) => [x] case None => [];
      assert FilterMap(a + b, f) == h + FilterMap(a[1..] + b, f);
      FilterMapAppend(a[1..], b, f);
      assert FilterMap(a, f) == h + FilterMap(a[1..], f);
      assert h + (FilterMap(a[1..], f) + FilterMap(b, f)) == (h + FilterMap(a[1..], f)) + FilterMap(b, f);
    } else {
      assert a + b == b;
    }
  }

  /** When `f` accepts every element, `FilterMap` is a plain `map`. */
  lemma {:induction false} FilterMapAll<A, B>(s: seq<A>, f: A -> Option<B>)
    requires forall i :: 0 <= i < |s| ==> f(s[i]).Some?
    ensures |FilterMap(s, f)| == |s|
    ensures forall i :: 0 <= i < |s| ==> FilterMap(s, f)[i] == f(s[i]).value
  {
    if |s| > 0 {
      FilterMapAll(s[1..], f);
    }
  }

  /** When `f` maps each element to the matching element of `t`, `FilterMap` gives `t`. */
  lemma FilterMapExact<A, B>(s: seq<A>, f: A -> Option<B>, t: seq<B>)
    requires |s| == |t|
    requires forall i :: 0 <= i < |s| ==> f(s[i]) == Some(t[i])
    ensures FilterMap(s, f) == t
  {
    FilterMapAll(s, f);
  }

  /** Every result comes from some element, and every accepted element gives a result. */
  lemma {:induction false} FilterMapMember<A, B>(s: seq<A>, f: A -> Option<B>, b: B)
    ensures b in FilterMap(s, f) <==> exists i :: 0 <= i < |s| && f(s[i]) == Some(b)
  {
    if |s| > 0 {
      FilterMapMember(s[1..], f, b);
      if exists i :: 0 <= i < |s| && f(s[i]) == Some(b) {
        var i :| 0 <= i < |s| && f(s[i]) == Some(b);
        if i > 0 {
          assert f(s[1..][i - 1]) == Some(b);
        }
      }
      if exists i :: 0 <= i < |s[1..]| && f(s[1..][i]) == Some(b) {
        var i :| 0 <= i < |s[1..]| && f(s[1..][i]) == Some(b);
        assert f(s[i + 1]) == Some(b);
      }
    }
  }

  /** `iter().filter(p)`: the elements satisfying `p`, in order. */
  function Filter<A>(s: seq<A>, p: A -> bool): (r: seq<A>)
    ensures |r| <= |s|
    ensures forall i :: 0 <= i < |r| ==> p(r[i]) && r[i] in s
    ensures (forall i :: 0 <= i < |s| ==> p(s[i])) ==> r == s
  {
    if |s| == 0 then []
    else (if p(s[0]) then [s[0]] else []) + Filter(s[1..], p)
  }

  lemma {:induction false} FilterAppend<A>(a: seq<A>, b: seq<A>, p: A -> bool)
    ensures Filter(a + b, p) == Filter(a, p) + Filter(b, p)
  {
    if |a| > 0 {
      assert (a + b)[0] == a[0];
      assert (a + b)[1..] == a[1..] + b;
      FilterAppend(a[1..], b, p);
    } else {
      assert a + b == b;
    }
  }

  /** An element survives `Filter` exactly when it is in the input and satisfies `p`. */
  lemma {:induction false} FilterMember<A>(s: seq<A>, p: A -> bool, x: A)
    ensures x in Filter(s, p) <==> x in s && p(x)
  {
    if |s| > 0 {
      FilterMember(s[1..], p, x);
      assert s == [s[0]] + s[1..];
    }
  }

  /** The number of elements satisfying `p`. */
  function Count<A>(s: seq<A>, p: A -> bool): (n: nat)
    ensures n <= |s|
    ensures n == |Filter(s, p)|
  {
    if |s| == 0 then 0 else (if p(s[0]) then 1 else 0) + Count(s[1..], p)
  }

  lemma {:induction false} CountAppend<A>(a: seq<A>, b: seq<A>, p: A -> bool)
    ensures Count(a + b, p) == Count(a, p) + Count(b, p)
  {
    FilterAppend(a, b, p);
  }

  /** `iter().flat_map(f)`: the results of `f`, one after the other. */
  function FlatMap<A, B>(s: seq<A>, f: A -> seq<B>): seq<B> {
    if |s| == 0 then [] else f(s[0]) + FlatMap(s[1..], f)
  }

  /** `FlatMap` distributes over concatenation. */
  lemma {:induction false} FlatMapAppend<A, B>(a: seq<A>, b: seq<A>, f: A -> seq<B>)
    ensures FlatMap(a + b, f) == FlatMap(a, f) + FlatMap(b, f)
  {
    if |a| > 0 {
      assert (a + b)[0] == a[0];
      assert (a + b)[1..] == a[1..] + b;
      FlatMapAppend(a[1..], b, f);
    } else {
      assert a + b == b;
    }
  }

  /** A slice of `1 + m` elements: the first element's results, then the other `m`'s. */
  lemma FlatMapFront<A, B>(s: seq<A>, f: A -> seq<B>, k: nat, m: nat)
    requires k + 1 + m <= |s|
    ensures FlatMap(s[k..k + (1 + m)], f) == f(s[k]) + FlatMap(s[k + 1..k + 1 + m], f)
  {
    assert s[k..k + (1 + m)][1..] == s[k + 1..k + 1 + m];
  }

  /** A one-element slice gives that element's results. */
  lemma FlatMapOne<A, B>(s: seq<A>, f: A -> seq<B>, k: nat)
    requires k < |s|
    ensures FlatMap(s[k..k + 1], f) == f(s[k])
  {
    assert s[k..k + 1][1..] == [];
    assert f(s[k]) + [] == f(s[k]);
  }

  /** Two sequences whose elements give the same results give the same `FlatMap`. */
  lemma {:induction false} FlatMapPointwise<A, B, C>(s: seq<A>, f: A -> seq<C>, t: seq<B>, g: B -> seq<C>)
    requires |s| == |t|
    requires forall j :: 0 <= j < |s| ==> f(s[j]) == g(t[j])
    ensures FlatMap(s, f) == FlatMap(t, g)
  {
    if |s| > 0 {
      FlatMapPointwise(s[1..], f, t[1..], g);
    }
  }

  /** `iter().position(p)`: the index of the first element satisfying `p`. */
  function FirstIndex<A>(s: seq<A>, p: A -> bool): (r: Option<nat>)
    ensures r.Some? ==> r.value < |s| && p(s[r.value])
    ensures r.Some? ==> forall j :: 0 <= j < r.value ==> !p(s[j])
    ensures r.None? <==> forall i :: 0 <= i < |s| ==> !p(s[i])
  {
    if |s| == 0 then None
    else if p(s[0]) then Some(0)
    else
      var r := FirstIndex(s[1..], p);
      assert forall i :: 1 <= i < |s| ==> s[i] == s[1..][i - 1];
      match r
      case None => None
      case Some(k) => Some(k + 1)
  }

  /** `FirstIndex` finds the given index when `p` holds there and nowhere earlier. */
  lemma FirstIndexIs<A>(s: seq<A>, p: A -> bool, i: nat)
    requires i < |s| && p(s[i])
    requires forall j :: 0 <= j < i ==> !p(s[j])
    ensures FirstIndex(s, p) == Some(i)
  {
    var r := FirstIndex(s, p);
    assert r.Some?;
    assert !(r.value < i) && !(i < r.value);
  }

  /** Appending two elements one at a time appends the pair. */
  lemma AppendPair<A>(c: seq<A>, x: A, y: A)
    ensures c + [x] + [y] == c + [x, y]
  {
  }
}
