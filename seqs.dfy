/**
  Order-keeping operations on sequences shared by the listing, detail and filtering
  code: subsequences, keeping the elements that pass a test, and collecting the values
  a partial function yields over a sequence.
 */
module Seqs {
  import opened Wrappers

  // ---------------------------------------------------------------------------
  // Subsequences
  // ---------------------------------------------------------------------------

  /** `a` is `b` with some elements removed, the rest in their order. */
  predicate Subseq<T(==)>(a: seq<T>, b: seq<T>)
    decreases |b|
  {
    if b == [] then a == []
    else (a != [] && a[0] == b[0] && Subseq(a[1..], b[1..])) || Subseq(a, b[1..])
  }

  lemma {:induction false} SubseqTrans<T>(a: seq<T>, b: seq<T>, c: seq<T>)
    requires Subseq(a, b) && Subseq(b, c)
    ensures Subseq(a, c)
    decreases |c|
  {
    if c == [] {
    } else if b != [] && b[0] == c[0] && Subseq(b[1..], c[1..]) {
      if a != [] && a[0] == b[0] && Subseq(a[1..], b[1..]) {
        SubseqTrans(a[1..], b[1..], c[1..]);
      } else {
        SubseqTrans(a, b[1..], c[1..]);
      }
    } else {
      SubseqTrans(a, b, c[1..]);
    }
  }

  lemma {:induction false} SubseqMembers<T>(a: seq<T>, b: seq<T>)
    requires Subseq(a, b)
    ensures forall x :: x in a ==> x in b
    decreases |b|
  {
    if b != [] {
      assert forall x :: x in b[1..] ==> x in b;
      if a != [] && a[0] == b[0] && Subseq(a[1..], b[1..]) {
        SubseqMembers(a[1..], b[1..]);
        forall x | x in a
          ensures x in b
        {
          var i :| 0 <= i < |a| && a[i] == x;
          if i > 0 {
            assert a[1..][i - 1] == x;
          }
        }
      } else {
        SubseqMembers(a, b[1..]);
      }
    }
  }

  // ---------------------------------------------------------------------------
  // Keeping the elements that pass a test
  // ---------------------------------------------------------------------------

  /** A list comprehension `[x for x in xs if p(x)]`: the elements passing `p`, each as
      often as it occurs in `xs`, in their order in `xs`; nothing else. */
  function Keep<T(==, !new)>(p: T -> bool, xs: seq<T>): (r: seq<T>)
    ensures Subseq(r, xs)
    ensures forall x :: multiset(r)[x] == if p(x) then multiset(xs)[x] else 0
    ensures forall x :: x in r <==> x in xs && p(x)
    ensures |r| <= |xs|
  {
    if xs == [] then []
    else
      var rest := Keep(p, xs[1..]);
      assert xs == [xs[0]] + xs[1..];
      if p(xs[0]) then
        assert ([xs[0]] + rest)[1..] == rest;
        [xs[0]] + rest
      else rest
  }

  // ---------------------------------------------------------------------------
  // Collecting the values of a partial function
  // ---------------------------------------------------------------------------

  /** The values `f` yields over `xs`, in order, skipping the elements it maps to None. */
  function Collect<A, B>(f: A -> Option<B>, xs: seq<A>): (r: seq<B>)
    ensures |r| <= |xs|
    decreases |xs|
  {
    if xs == [] then []
    else
      var last := f(xs[|xs| - 1]);
      Collect(f, xs[..|xs| - 1]) + (if last.Some? then [last.value] else [])
  }

  lemma CollectStep<A, B>(f: A -> Option<B>, xs: seq<A>, i: int)
    requires 0 <= i < |xs|
    ensures Collect(f, xs[..i + 1])
         == Collect(f, xs[..i]) + (if f(xs[i]).Some? then [f(xs[i]).value] else [])
  {
    assert xs[..i + 1][..i] == xs[..i];
  }

  /** Collecting over two runs of elements is collecting over each, the first run's
      values first: every element contributes in its own place. */
  lemma {:induction false} CollectAppend<A, B>(f: A -> Option<B>, a: seq<A>, b: seq<A>)
    ensures Collect(f, a + b) == Collect(f, a) + Collect(f, b)
    decreases |b|
  {
    if b != [] {
      var n := |b| - 1;
      var tail := if f(b[n]).Some? then [f(b[n]).value] else [];
      assert (a + b)[..|a + b| - 1] == a + b[..n];
      assert (a + b)[|a + b| - 1] == b[n];
      CollectAppend(f, a, b[..n]);
      assert Collect(f, a + b) == Collect(f, a) + Collect(f, b[..n]) + tail;
    } else {
      assert a + b == a;
    }
  }

  /** One element contributes its value, if it has one. */
  lemma CollectOne<A, B>(f: A -> Option<B>, x: A)
    ensures Collect(f, [x]) == if f(x).Some? then [f(x).value] else []
  {
    assert [x][..0] == [];
  }

  /** A value is collected exactly when some element yields it. */
  lemma {:induction false} CollectExactly<A, B>(f: A -> Option<B>, xs: seq<A>)
    ensures forall y :: y in Collect(f, xs) <==> exists k :: 0 <= k < |xs| && f(xs[k]) == Some(y)
    decreases |xs|
  {
    if xs != [] {
      var n := |xs| - 1;
      var init := xs[..n];
      CollectExactly(f, init);
      forall y
        ensures y in Collect(f, xs) <==> exists k :: 0 <= k < |xs| && f(xs[k]) == Some(y)
      {
        if y in Collect(f, init) {
          var k :| 0 <= k < |init| && f(init[k]) == Some(y);
          assert xs[k] == init[k];
        }
        if k :| 0 <= k < |xs| && f(xs[k]) == Some(y) {
          if k < n {
            assert init[k] == xs[k];
          }
        }
      }
    }
  }

  // ---------------------------------------------------------------------------
  // Concatenating lists
  // ---------------------------------------------------------------------------

  /** The lists of `xss` one after another. */
  function Concat<T>(xss: seq<seq<T>>): seq<T>
    decreases |xss|
  {
    if xss == [] then [] else Concat(xss[..|xss| - 1]) + xss[|xss| - 1]
  }

  lemma ConcatStep<T>(xss: seq<seq<T>>, i: int)
    requires 0 <= i < |xss|
    ensures Concat(xss[..i + 1]) == Concat(xss[..i]) + xss[i]
  {
    assert xss[..i + 1][..i] == xss[..i];
  }

  /** Concatenating two runs of lists is concatenating each, the first run first. */
  lemma {:induction false} ConcatAppend<T>(a: seq<seq<T>>, b: seq<seq<T>>)
    ensures Concat(a + b) == Concat(a) + Concat(b)
    decreases |b|
  {
    if b == [] {
      assert a + b == a;
    } else {
      var n := |b| - 1;
      assert (a + b)[..|a + b| - 1] == a + b[..n];
      assert (a + b)[|a + b| - 1] == b[n];
      ConcatAppend(a, b[..n]);
    }
  }

  lemma ConcatOne<T>(xs: seq<T>)
    ensures Concat([xs]) == xs
  {
    assert [xs][..0] == [];
  }

  /** An element is in the concatenation exactly when it is in one of the lists. */
  lemma {:induction false} ConcatMembers<T>(xss: seq<seq<T>>)
    ensures forall x :: x in Concat(xss) <==> exists k :: 0 <= k < |xss| && x in xss[k]
    decreases |xss|
  {
    if xss != [] {
      var n := |xss| - 1;
      var init := xss[..n];
      ConcatMembers(init);
      forall x
        ensures x in Concat(xss) <==> exists k :: 0 <= k < |xss| && x in xss[k]
      {
        if x in Concat(init) {
          var k :| 0 <= k < |init| && x in init[k];
          assert xss[k] == init[k];
        }
        if k :| 0 <= k < |xss| && x in xss[k] {
          if k < n {
            assert init[k] == xss[k];
          }
        }
      }
    }
  }
}
