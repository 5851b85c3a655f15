/** Stable sorting in non-increasing order of an integer key: the behaviour of
    JavaScript's `Array.prototype.sort` (stable since ES2019) with a comparator
    `(a, b) => key(b) - key(a)`. */
module Sorting {
  import opened Seqs

  /** Keys never increase from left to right. */
  ghost predicate SortedDesc<T>(s: seq<T>, key: T -> int) {
    forall i, j :: 0 <= i < j < |s| ==> key(s[i]) >= key(s[j])
  }

  /** The test "has key `k`", used to state stability. */
  function KeyIs<T>(key: T -> int, k: int): T -> bool {
    x => key(x) == k
  }

  /** Puts `x` in front of the first element whose key is not greater than its
      own, so that `x` precedes every element of `s` with an equal key. */
  function Insert<T(!new)>(x: T, s: seq<T>, key: T -> int): (r: seq<T>)
    ensures multiset(r) == multiset(s) + multiset{x}
    ensures |r| == |s| + 1
  {
    if |s| == 0 || key(s[0]) <= key(x) then
      [x] + s
    else
      assert s == [s[0]] + s[1..];
      [s[0]] + Insert(x, s[1..], key)
  }

  /** No key in `s` exceeds `k`. */
  ghost predicate KeysAtMost<T>(s: seq<T>, key: T -> int, k: int) {
    forall i :: 0 <= i < |s| ==> key(s[i]) <= k
  }

  /** A sorted sequence stays sorted when an element with a key at least as
      large as all of its keys goes in front. */
  lemma SortedCons<T>(a: T, t: seq<T>, key: T -> int)
    requires SortedDesc(t, key)
    requires KeysAtMost(t, key, key(a))
    ensures SortedDesc([a] + t, key)
  {
    var r := [a] + t;
    forall i, j | 0 <= i < j < |r| ensures key(r[i]) >= key(r[j]) {
      assert r[j] == t[j - 1];
      if i > 0 {
        assert r[i] == t[i - 1];
      }
    }
  }

  /** Inserting an element with key at most `k` keeps every key at most `k`. */
  lemma {:induction false} InsertKeysAtMost<T(!new)>(x: T, s: seq<T>, key: T -> int, k: int)
    requires KeysAtMost(s, key, k) && key(x) <= k
    ensures KeysAtMost(Insert(x, s, key), key, k)
  {
    if |s| == 0 || key(s[0]) <= key(x) {
      assert Insert(x, s, key) == [x] + s;
    } else {
      InsertKeysAtMost(x, s[1..], key, k);
      assert Insert(x, s, key) == [s[0]] + Insert(x, s[1..], key);
    }
  }

  /** Inserting into a sorted sequence keeps it sorted. */
  lemma {:induction false} InsertSorted<T(!new)>(x: T, s: seq<T>, key: T -> int)
    requires SortedDesc(s, key)
    ensures SortedDesc(Insert(x, s, key), key)
  {
    if |s| == 0 || key(s[0]) <= key(x) {
      assert KeysAtMost(s, key, key(x)) by {
        forall i | 0 < i < |s| ensures key(s[i]) <= key(s[0]) {
        }
      }
      SortedCons(x, s, key);
    } else {
      var tail := s[1..];
      assert SortedDesc(tail, key) by {
        forall i, j | 0 <= i < j < |tail| ensures key(tail[i]) >= key(tail[j]) {
          assert tail[i] == s[i + 1] && tail[j] == s[j + 1];
        }
      }
      assert KeysAtMost(tail, key, key(s[0])) by {
        forall i | 0 <= i < |tail| ensures key(tail[i]) <= key(s[0]) {
          assert tail[i] == s[i + 1];
        }
      }
      InsertSorted(x, tail, key);
      InsertKeysAtMost(x, tail, key, key(s[0]));
      SortedCons(s[0], Insert(x, tail, key), key);
    }
  }

  /** Insertion sort into non-increasing key order. */
  function SortDesc<T(!new)>(s: seq<T>, key: T -> int): (r: seq<T>)
    ensures multiset(r) == multiset(s)
    ensures |r| == |s|
    ensures SortedDesc(r, key)
  {
    if |s| == 0 then []
    else
      assert s == [s[0]] + s[1..];
      InsertSorted(s[0], SortDesc(s[1..], key), key);
      Insert(s[0], SortDesc(s[1..], key), key)
  }

  /** Inserting `x` keeps the relative order of the elements of each key, with
      `x` first among those sharing its key. */
  lemma {:induction false} InsertStable<T(!new)>(x: T, s: seq<T>, key: T -> int, k: int)
    ensures Filter(Insert(x, s, key), KeyIs(key, k))
         == if key(x) == k then [x] + Filter(s, KeyIs(key, k)) else Filter(s, KeyIs(key, k))
  {
    if |s| == 0 || key(s[0]) <= key(x) {
    } else {
      InsertStable(x, s[1..], key, k);
    }
  }

  /** The sort is stable: for every key value, the elements with that key come
      out in the order in which they went in. */
  lemma {:induction false} SortStable<T(!new)>(s: seq<T>, key: T -> int, k: int)
    ensures Filter(SortDesc(s, key), KeyIs(key, k)) == Filter(s, KeyIs(key, k))
  {
    if |s| > 0 {
      SortStable(s[1..], key, k);
      InsertStable(s[0], SortDesc(s[1..], key), key, k);
    }
  }

  /** Cutting a sorted sequence leaves a sorted prefix whose keys are at least
      those of every element cut off. */
  lemma SortedSplit<T(!new)>(s: seq<T>, key: T -> int, n: nat)
    requires SortedDesc(s, key)
    requires n <= |s|
    ensures s == s[..n] + s[n..]
    ensures multiset(s) == multiset(s[..n]) + multiset(s[n..])
    ensures SortedDesc(s[..n], key)
    ensures forall x :: x in s ==> x in s[..n] || x in s[n..]
    ensures forall x, y :: x in s[n..] && y in s[..n] ==> key(y) >= key(x)
  {
  }
}
