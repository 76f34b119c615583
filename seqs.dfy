/** JavaScript's `Array.prototype.filter` and `Array.prototype.map`, with the
    laws that let a chain of them be read as one pass over the input. */
module Seqs {

  /** `s.filter(p)`: the elements that satisfy `p`, in their original order. */
  function Filter<T>(p: T -> bool, s: seq<T>): (r: seq<T>)
    ensures |r| <= |s|
    ensures forall k :: 0 <= k < |r| ==> p(r[k])
  {
    if s == [] then [] else (if p(s[0]) then [s[0]] else []) + Filter(p, s[1..])
  }

  /** Every element that passes the test is kept. */
  lemma {:induction false} FilterKeeps<T>(p: T -> bool, s: seq<T>, j: nat)
    requires j < |s| && p(s[j])
    ensures s[j] in Filter(p, s)
  {
    if j > 0 {
      FilterKeeps(p, s[1..], j - 1);
    }
  }

  /** Every element kept is an element of the input. */
  lemma {:induction false} FilterKeptFromInput<T>(p: T -> bool, s: seq<T>, k: nat)
    requires k < |Filter(p, s)|
    ensures Filter(p, s)[k] in s
  {
    if !p(s[0]) || k > 0 {
      FilterKeptFromInput(p, s[1..], if p(s[0]) then k - 1 else k);
    }
  }

  /** `s.map(f)`. */
  function Map<T, U>(f: T -> U, s: seq<T>): (r: seq<U>)
    ensures |r| == |s| && forall k :: 0 <= k < |s| ==> r[k] == f(s[k])
  {
    seq(|s|, k requires 0 <= k < |s| => f(s[k]))
  }

  /** The positions, from `from` on, of the elements of `s` that satisfy `p`. */
  function OriginsFrom<T>(p: T -> bool, s: seq<T>, from: nat): seq<nat>
    requires from <= |s|
    decreases |s| - from
  {
    if from == |s| then [] else (if p(s[from]) then [from] else []) + OriginsFrom(p, s, from + 1)
  }

  /** The positions in `s` of the elements that `Filter(p, s)` keeps. */
  function FilterOrigins<T>(p: T -> bool, s: seq<T>): seq<nat>
  {
    OriginsFrom(p, s, 0)
  }

  lemma {:induction false} OriginsFromSpec<T>(p: T -> bool, s: seq<T>, from: nat)
    requires from <= |s|
    ensures var idx, kept := OriginsFrom(p, s, from), Filter(p, s[from..]);
      && |idx| == |kept|
      && (forall k :: 0 <= k < |idx| ==> from <= idx[k] < |s| && p(s[idx[k]]) && kept[k] == s[idx[k]])
      && (forall k, l :: 0 <= k < l < |idx| ==> idx[k] < idx[l])
    decreases |s| - from
  {
    if from < |s| {
      OriginsFromSpec(p, s, from + 1);
      assert s[from..][1..] == s[from + 1..];
      var idx, kept := OriginsFrom(p, s, from + 1), Filter(p, s[from + 1..]);
      if p(s[from]) {
        assert OriginsFrom(p, s, from) == [from] + idx;
        assert Filter(p, s[from..]) == [s[from]] + kept;
      } else {
        assert OriginsFrom(p, s, from) == idx;
        assert Filter(p, s[from..]) == kept;
      }
    }
  }

  /** The kept elements come from strictly increasing positions of the input,
      each satisfying the test: a filter never reorders what it keeps. */
  lemma FilterOriginsSpec<T>(p: T -> bool, s: seq<T>)
    ensures |FilterOrigins(p, s)| == |Filter(p, s)|
    ensures forall k :: 0 <= k < |FilterOrigins(p, s)| ==>
      FilterOrigins(p, s)[k] < |s| && p(s[FilterOrigins(p, s)[k]]) && Filter(p, s)[k] == s[FilterOrigins(p, s)[k]]
    ensures forall k, l :: 0 <= k < l < |FilterOrigins(p, s)| ==> FilterOrigins(p, s)[k] < FilterOrigins(p, s)[l]
  {
    OriginsFromSpec(p, s, 0);
    assert s[0..] == s;
  }

  lemma MapCons<T, U>(f: T -> U, s: seq<T>)
    requires s != []
    ensures Map(f, s) == [f(s[0])] + Map(f, s[1..])
  {
  }

  lemma MapAppend<T, U>(f: T -> U, a: seq<T>, b: seq<T>)
    ensures Map(f, a + b) == Map(f, a) + Map(f, b)
  {
  }

  /** Mapping twice is mapping once with the composition `gf`. */
  lemma MapOfMap<T, U, V>(g: U -> V, f: T -> U, gf: T -> V, s: seq<T>)
    requires forall x :: gf(x) == g(f(x))
    ensures Map(g, Map(f, s)) == Map(gf, s)
  {
  }

  /** Maps by functions that agree on every element are equal. */
  lemma MapExtensional<T, U>(f: T -> U, g: T -> U, s: seq<T>)
    requires forall x :: f(x) == g(x)
    ensures Map(f, s) == Map(g, s)
  {
  }

  /** Filters that agree on every element keep the same elements. */
  lemma {:induction false} FilterExtensional<T>(p: T -> bool, q: T -> bool, s: seq<T>)
    requires forall x :: p(x) == q(x)
    ensures Filter(p, s) == Filter(q, s)
  {
    if s != [] {
      FilterExtensional(p, q, s[1..]);
    }
  }

  /** Filtering after a map is mapping after filtering by the composed test `pf`. */
  lemma {:induction false} FilterOfMap<T, U>(p: U -> bool, f: T -> U, pf: T -> bool, s: seq<T>)
    requires forall x :: pf(x) == p(f(x))
    ensures Filter(p, Map(f, s)) == Map(f, Filter(pf, s))
  {
    if s != [] {
      MapCons(f, s);
      assert Map(f, s)[1..] == Map(f, s[1..]);
      FilterOfMap(p, f, pf, s[1..]);
      var head := if pf(s[0]) then [s[0]] else [];
      MapAppend(f, head, Filter(pf, s[1..]));
    }
  }

  /** Two filters in a row are one filter by the conjunction `qp`. */
  lemma {:induction false} FilterOfFilter<T>(p: T -> bool, q: T -> bool, qp: T -> bool, s: seq<T>)
    requires forall x :: qp(x) == (q(x) && p(x))
    ensures Filter(p, Filter(q, s)) == Filter(qp, s)
  {
    if s != [] {
      FilterOfFilter(p, q, qp, s[1..]);
      var head := if q(s[0]) then [s[0]] else [];
      FilterAppend(p, head, Filter(q, s[1..]));
    }
  }

  lemma {:induction false} FilterAppend<T>(p: T -> bool, a: seq<T>, b: seq<T>)
    ensures Filter(p, a + b) == Filter(p, a) + Filter(p, b)
  {
    if a != [] {
      assert (a + b)[1..] == a[1..] + b;
      FilterAppend(p, a[1..], b);
    } else {
      assert a + b == b;
    }
  }
}
