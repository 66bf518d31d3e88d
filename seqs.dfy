/**
 * Generic sequence helpers for the loops of the model: taking a prefix,
 * keeping what a partial map makes of each element, and re-bracketing
 * concatenations as a loop moves an element from "to come" to "done".
 */
module Seqs {
  import opened Wrappers

  /** The first `n` elements of `xs`, or all of them when there are fewer. */
  function Take<T>(xs: seq<T>, n: nat): (r: seq<T>)
    ensures |r| <= n && r <= xs
    ensures |r| == n || r == xs
  {
    if |xs| <= n then xs else xs[..n]
  }

  /** What `f` makes of the elements of `xs`, in order, skipping those it rejects. */
  function FilterMap<A, B>(xs: seq<A>, f: A -> Option<B>): seq<B> {
    if xs == [] then []
    else
      var rest := FilterMap(xs[..|xs| - 1], f);
      match f(xs[|xs| - 1])
      case None => rest
      case Some(y) => rest + [y]
  }

  /** What a prefix of the elements makes is a prefix of what they all make. */
  lemma {:induction false} FilterMapPrefix<A, B>(xs: seq<A>, f: A -> Option<B>, k: nat)
    requires k <= |xs|
    ensures FilterMap(xs[..k], f) <= FilterMap(xs, f)
    decreases |xs| - k
  {
    if k < |xs| {
      FilterMapPrefix(xs, f, k + 1);
      assert xs[..k + 1][..k] == xs[..k];
    } else {
      assert xs[..k] == xs;
    }
  }

  /** One more element: `f`'s verdict on it is appended, or nothing is. */
  lemma FilterMapStep<A, B>(xs: seq<A>, f: A -> Option<B>, k: nat)
    requires k < |xs|
    ensures FilterMap(xs[..k + 1], f) ==
      FilterMap(xs[..k], f) + (if f(xs[k]).Some? then [f(xs[k]).value] else [])
  {
    assert xs[..k + 1][..k] == xs[..k];
  }

  /**
   * A loop that stops after `k` elements, either at the end or once `n`
   * results are kept, has kept the first `n` results of the whole sequence.
   */
  lemma FilterMapTake<A, B>(xs: seq<A>, f: A -> Option<B>, k: nat, n: nat)
    requires k <= |xs| && |FilterMap(xs[..k], f)| <= n
    requires k == |xs| || |FilterMap(xs[..k], f)| == n
    ensures Take(FilterMap(xs, f), n) == FilterMap(xs[..k], f)
  {
    if k == |xs| {
      assert xs[..k] == xs;
    } else {
      FilterMapPrefix(xs, f, k);
    }
  }

  /** Everything kept is what `f` made of some element. */
  lemma {:induction false} FilterMapSound<A, B>(xs: seq<A>, f: A -> Option<B>)
    ensures forall y <- FilterMap(xs, f) :: exists x <- xs :: f(x) == Some(y)
  {
    if xs != [] {
      var init := xs[..|xs| - 1];
      FilterMapSound(init, f);
      assert forall x <- init :: x in xs;
      assert xs[|xs| - 1] in xs;
    }
  }

  /** When `f` rejects every element, nothing is kept. */
  lemma {:induction false} FilterMapNone<A, B>(xs: seq<A>, f: A -> Option<B>)
    requires forall x <- xs :: f(x).None?
    ensures FilterMap(xs, f) == []
  {
    if xs != [] {
      var init := xs[..|xs| - 1];
      assert forall x <- init :: x in xs;
      FilterMapNone(init, f);
      assert xs[|xs| - 1] in xs;
    }
  }

  /** A sequence is its prefix up to `k` followed by the rest. */
  lemma SplitAt<T>(s: seq<T>, k: nat)
    requires k <= |s|
    ensures s == s[..k] + s[k..]
  {
  }

  /** A sequence cut at `k` and at `e`: prefix, middle and rest. */
  lemma SplitTwice<T>(s: seq<T>, k: nat, e: nat)
    requires k <= e <= |s|
    ensures s == s[..k] + s[k..e] + s[e..]
    ensures s[..e] == s[..k] + s[k..e]
  {
    assert s[..e] == s[..k] + s[k..e];
    assert s == s[..e] + s[e..];
  }

  /** Slicing a suffix is slicing the whole at shifted indices. */
  lemma SliceOfSuffix<T>(s: seq<T>, k: nat, m: nat)
    requires k + m <= |s|
    ensures s[k..][..m] == s[k..k + m]
    ensures s[k..][m..] == s[k + m..]
  {
  }

  lemma Regroup<T>(a: seq<T>, b: seq<T>, c: seq<T>)
    ensures a + (b + c) == a + b + c
  {
  }

  lemma AppendAssoc<T>(a: seq<T>, b: seq<T>, c: seq<T>)
    ensures (a + b) + c == a + (b + c)
  {
  }

  lemma AppendNil<T>(a: seq<T>, d: seq<T>)
    requires a + [] == d
    ensures a == d
  {
    assert a + [] == a;
  }

  /** Moving the first element of `xs` from the part to come to the part done. */
  lemma Advance<T>(cur: seq<T>, xs: seq<T>, x: T, rest: seq<T>, d: seq<T>)
    requires cur + xs == d && xs != [] && xs[0] == x && xs[1..] == rest
    ensures cur + [x] + rest == d
  {
    assert xs == [x] + rest;
  }

  /** The pieces `ps` with `seps[i]` put back between `ps[i]` and `ps[i + 1]`. */
  function Interleave<T>(ps: seq<seq<T>>, seps: seq<seq<T>>): seq<T>
    requires |seps| + 1 == |ps|
  {
    if |ps| == 1 then ps[0] else ps[0] + seps[0] + Interleave(ps[1..], seps[1..])
  }

  /** One more piece and separator in front. */
  lemma InterleaveCons<T>(p: seq<T>, sep: seq<T>, ps: seq<seq<T>>, seps: seq<seq<T>>)
    requires |seps| + 1 == |ps|
    ensures Interleave([p] + ps, [sep] + seps) == p + sep + Interleave(ps, seps)
  {
    assert ([p] + ps)[1..] == ps && ([sep] + seps)[1..] == seps;
  }
}
