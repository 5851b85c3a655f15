/** Generic sequence utilities: order-preserving filtering (JavaScript's
    `Array.prototype.filter`) and distinctness. */
module Seqs {

  /** No element occurs twice. */
  ghost predicate Distinct<T>(xs: seq<T>) {
    forall i, j :: 0 <= i < j < |xs| ==> xs[i] != xs[j]
  }

  /** The elements of `xs` satisfying `p`, in their original relative order. */
  function Filter<T(!new)>(xs: seq<T>, p: T -> bool): (r: seq<T>)
    ensures |r| <= |xs|
    ensures forall x :: x in r <==> x in xs && p(x)
  {
    if |xs| == 0 then []
    else
      assert xs == [xs[0]] + xs[1..];
      if p(xs[0]) then [xs[0]] + Filter(xs[1..], p) else Filter(xs[1..], p)
  }

  /** A filter keeps each element satisfying its test as often as it occurs in
      the input, and drops every other one. */
  lemma {:induction false} FilterMultiset<T(!new)>(xs: seq<T>, p: T -> bool)
    ensures forall x :: multiset(Filter(xs, p))[x] == if p(x) then multiset(xs)[x] else 0
  {
    if |xs| > 0 {
      assert xs == [xs[0]] + xs[1..];
      FilterMultiset(xs[1..], p);
    }
  }

  /** Filtering distributes over concatenation: the kept elements of `a` stay
      in front of the kept elements of `b`, so relative order is preserved. */
  lemma {:induction false} FilterConcat<T(!new)>(a: seq<T>, b: seq<T>, p: T -> bool)
    ensures Filter(a + b, p) == Filter(a, p) + Filter(b, p)
  {
    if |a| == 0 {
      assert a + b == b;
    } else {
      assert (a + b)[0] == a[0];
      assert (a + b)[1..] == a[1..] + b;
      FilterConcat(a[1..], b, p);
      if p(a[0]) {
        assert Filter(a + b, p) == [a[0]] + (Filter(a[1..], p) + Filter(b, p));
        assert Filter(a, p) == [a[0]] + Filter(a[1..], p);
        SeqAssoc([a[0]], Filter(a[1..], p), Filter(b, p));
      } else {
        assert Filter(a + b, p) == Filter(a[1..] + b, p);
      }
    }
  }

  lemma SeqAssoc<T>(a: seq<T>, b: seq<T>, c: seq<T>)
    ensures a + (b + c) == (a + b) + c
  {
  }

  /** A filter whose test holds of every element keeps the whole sequence. */
  lemma {:induction false} FilterKeepsAll<T(!new)>(xs: seq<T>, p: T -> bool)
    requires forall x :: x in xs ==> p(x)
    ensures Filter(xs, p) == xs
  {
    if |xs| > 0 {
      var t := xs[1..];
      assert forall x :: x in t ==> p(x) by {
        forall x | x in t ensures p(x) {
          assert x in xs;
        }
      }
      FilterKeepsAll(t, p);
      assert p(xs[0]) by {
        assert xs[0] in xs;
      }
      assert xs == [xs[0]] + t;
    }
  }

  /** Two filters whose tests agree on every element give the same result. */
  lemma {:induction false} FilterExt<T(!new)>(xs: seq<T>, p: T -> bool, q: T -> bool)
    requires forall x :: x in xs ==> p(x) == q(x)
    ensures Filter(xs, p) == Filter(xs, q)
  {
    if |xs| > 0 {
      assert forall x :: x in xs[1..] ==> x in xs;
      FilterExt(xs[1..], p, q);
    }
  }

  /** A filter that rejects exactly the element at position `i` cuts that one
      position out and keeps everything else in place. */
  lemma {:induction false} FilterDropsOne<T(!new)>(xs: seq<T>, p: T -> bool, i: nat)
    requires i < |xs|
    requires !p(xs[i])
    requires forall j :: 0 <= j < |xs| && j != i ==> p(xs[j])
    ensures Filter(xs, p) == xs[..i] + xs[i + 1..]
  {
    var t := xs[1..];
    if i == 0 {
      assert forall x :: x in t ==> p(x) by {
        forall x | x in t ensures p(x) {
          var j :| 0 <= j < |t| && t[j] == x;
          assert xs[j + 1] == x;
        }
      }
      FilterKeepsAll(t, p);
      assert Filter(xs, p) == Filter(t, p);
    } else {
      assert p(xs[0]);
      assert forall j :: 0 <= j < |t| && j != i - 1 ==> p(t[j]) by {
        forall j | 0 <= j < |t| && j != i - 1 ensures p(t[j]) {
          assert t[j] == xs[j + 1];
        }
      }
      FilterDropsOne(t, p, i - 1);
      calc {
        Filter(xs, p);
        [xs[0]] + Filter(t, p);
        [xs[0]] + (t[..i - 1] + t[i..]);
        { SeqAssoc([xs[0]], t[..i - 1], t[i..]); }
        ([xs[0]] + t[..i - 1]) + t[i..];
        { assert xs[..i] == [xs[0]] + t[..i - 1]; assert xs[i + 1..] == t[i..]; }
        xs[..i] + xs[i + 1..];
      }
    }
  }

  /** Applying two filters one after the other does not depend on their order. */
  lemma {:induction false} FilterCommute<T(!new)>(xs: seq<T>, p: T -> bool, q: T -> bool)
    ensures Filter(Filter(xs, p), q) == Filter(Filter(xs, q), p)
  {
    if |xs| > 0 {
      FilterCommute(xs[1..], p, q);
    }
  }

  /** A filter of a sequence without repetitions has no repetitions. */
  lemma {:induction false} FilterDistinct<T(!new)>(xs: seq<T>, p: T -> bool)
    requires Distinct(xs)
    ensures Distinct(Filter(xs, p))
  {
    if |xs| > 0 {
      var t := xs[1..];
      assert Distinct(t) by {
        forall i, j | 0 <= i < j < |t| ensures t[i] != t[j] {
          assert t[i] == xs[i + 1] && t[j] == xs[j + 1];
        }
      }
      FilterDistinct(t, p);
      assert xs[0] !in t;
    }
  }

  /** Two complementary filters split a sequence: every element lands in
      exactly one of the two results. */
  lemma FilterSplit<T(!new)>(xs: seq<T>, p: T -> bool, q: T -> bool)
    requires forall x :: x in xs ==> (q(x) <==> !p(x))
    ensures multiset(Filter(xs, p)) + multiset(Filter(xs, q)) == multiset(xs)
    ensures |Filter(xs, p)| + |Filter(xs, q)| == |xs|
    ensures forall x :: !(x in Filter(xs, p) && x in Filter(xs, q))
  {
    var a, b := Filter(xs, p), Filter(xs, q);
    FilterMultiset(xs, p);
    FilterMultiset(xs, q);
    assert forall x :: (multiset(a) + multiset(b))[x] == multiset(xs)[x] by {
      forall x ensures (multiset(a) + multiset(b))[x] == multiset(xs)[x] {
        if x !in xs {
          assert multiset(xs)[x] == 0;
        }
      }
    }
    assert multiset(a) + multiset(b) == multiset(xs);
    assert |multiset(a) + multiset(b)| == |xs|;
  }

  /** A sequence without repetitions has as many elements as its set. */
  lemma {:induction false} DistinctCardinality<T>(xs: seq<T>)
    requires Distinct(xs)
    ensures |(set x | x in xs)| == |xs|
  {
    if |xs| > 0 {
      var t := xs[1..];
      assert Distinct(t) by {
        forall i, j | 0 <= i < j < |t| ensures t[i] != t[j] {
          assert t[i] == xs[i + 1] && t[j] == xs[j + 1];
        }
      }
      DistinctCardinality(t);
      assert (set x | x in xs) == {xs[0]} + (set x | x in t);
      assert xs[0] !in (set x | x in t);
    }
  }
}
