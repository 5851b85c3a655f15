/** `todo_stats` (src/index.ts:239-259, 270) and the `todos://summary`
    resource (src/index.ts:313-321): counts, pending counts per priority, the
    tag histogram with its top five, and the completion percentage. */
module Stats {
  import opened Todos
  import opened Seqs
  import opened Sorting

  // ---------------------------------------------------------------- counts

  predicate IsCompleted(t: Todo) {
    t.completed
  }

  predicate IsPending(t: Todo) {
    !t.completed
  }

  /** The test "pending, with priority `p`" (src/index.ts:246-248). */
  function PendingWith(p: Priority): Todo -> bool {
    (t: Todo) => t.priority == p && !t.completed
  }

  /** The pending records split by priority: every pending record has exactly
      one of the three priorities. */
  lemma {:induction false} PendingByPrioritySum(vs: seq<Todo>)
    ensures |Filter(vs, PendingWith(High))| + |Filter(vs, PendingWith(Medium))| + |Filter(vs, PendingWith(Low))|
         == |Filter(vs, IsPending)|
  {
    if |vs| > 0 {
      PendingByPrioritySum(vs[1..]);
    }
  }

  /** The completed count and the pending count add up to the total. */
  lemma {:induction false} CompletedPendingSplit(vs: seq<Todo>)
    ensures |Filter(vs, IsCompleted)| + |Filter(vs, IsPending)| == |vs|
  {
    FilterSplit(vs, IsCompleted, IsPending);
  }

  // ---------------------------------------------------------------- completion rate

  /** `Math.round(completed / total * 100)`, or 0 for an empty store
      (src/index.ts:270, 321), as exact half-up rounding: the result is the
      integer nearest to 100 * completed / total, halves rounded up. */
  function CompletionRate(completed: nat, total: nat): (r: nat)
    ensures total == 0 ==> r == 0
    ensures total > 0 ==> 200 * completed - total < 2 * total * r <= 200 * completed + total
  {
    if total == 0 then 0
    else
      var q := (200 * completed + total) / (2 * total);
      assert 200 * completed + total == 2 * total * q + (200 * completed + total) % (2 * total);
      q
  }

  /** The percentage lies between 0 and 100, is 0 when nothing is completed
      and 100 when everything is. */
  lemma CompletionRateBounds(completed: nat, total: nat)
    requires completed <= total
    ensures CompletionRate(completed, total) <= 100
    ensures completed == 0 ==> CompletionRate(completed, total) == 0
    ensures 0 < total == completed ==> CompletionRate(completed, total) == 100
  {
    var r := CompletionRate(completed, total);
    if total > 0 {
      assert 2 * total * r <= 2 * total * 100 + total;
      CancelFactor(2 * total, r, 100);
      if completed == 0 {
        assert 2 * total * r <= 2 * total * 0 + total;
        CancelFactor(2 * total, r, 0);
      }
      if completed == total {
        assert 2 * total * 99 + total < 2 * total * r;
        CancelFactorBelow(2 * total, 99, r);
      }
    }
  }

  /** Dividing out a positive factor: d * a < d * b + d gives a <= b. */
  lemma CancelFactor(d: int, a: int, b: int)
    requires d > 0
    requires d * a < d * b + d
    ensures a <= b
  {
    assert d * a - d * b == d * (a - b);
    AtLeastFactor(d, a - b);
  }

  /** A positive factor times a positive integer is at least the factor. */
  lemma AtLeastFactor(d: int, x: int)
    requires d > 0
    ensures x >= 1 ==> d * x >= d
  {
  }

  /** Dividing out a positive factor: d * a < d * b gives a < b. */
  lemma CancelFactorBelow(d: int, a: int, b: int)
    requires d > 0
    requires d * a < d * b
    ensures a < b
  {
  }

  // ---------------------------------------------------------------- tag histogram

  /** The counter of one tag in the histogram. */
  datatype TagCount = TagCount(tag: string, count: nat)

  /** The sort key of the histogram entries. */
  function Count(e: TagCount): int {
    e.count
  }

  /** `allTodos.flatMap(t => t.tags)` (src/index.ts:251). */
  function AllTags(vs: seq<Todo>): (r: seq<string>)
    ensures forall tag :: tag in r <==> exists i :: 0 <= i < |vs| && tag in vs[i].tags
  {
    if |vs| == 0 then []
    else
      assert forall i :: 0 <= i < |vs| - 1 ==> vs[1..][i] == vs[i + 1];
      vs[0].tags + AllTags(vs[1..])
  }

  /** The number of tag occurrences across all records, duplicates included. */
  function TagOccurrences(vs: seq<Todo>): nat {
    if |vs| == 0 then 0 else |vs[0].tags| + TagOccurrences(vs[1..])
  }

  /** The tags of the histogram, in its entry order. */
  function TagsOf(h: seq<TagCount>): seq<string> {
    if |h| == 0 then [] else [h[0].tag] + TagsOf(h[1..])
  }

  /** The counter for `tag`, or 0 when the histogram has none. */
  function CountOf(h: seq<TagCount>, tag: string): nat {
    if |h| == 0 then 0 else if h[0].tag == tag then h[0].count else CountOf(h[1..], tag)
  }

  function SumCounts(h: seq<TagCount>): nat {
    if |h| == 0 then 0 else h[0].count + SumCounts(h[1..])
  }

  ghost predicate Positive(h: seq<TagCount>) {
    forall i :: 0 <= i < |h| ==> h[i].count >= 1
  }

  /** One step of the reduce (src/index.ts:252-255): the tag's counter goes up
      by one, and a tag seen for the first time gets a new counter, at 1, after
      all existing ones. */
  function Tally(h: seq<TagCount>, tag: string): (r: seq<TagCount>)
    ensures forall t :: CountOf(r, t) == CountOf(h, t) + (if t == tag then 1 else 0)
    ensures TagsOf(r) == if tag in TagsOf(h) then TagsOf(h) else TagsOf(h) + [tag]
    ensures Positive(h) ==> Positive(r)
  {
    if |h| == 0 then
      [TagCount(tag, 1)]
    else if h[0].tag == tag then
      var r := [TagCount(tag, h[0].count + 1)] + h[1..];
      assert r[1..] == h[1..];
      assert TagsOf(r) == [tag] + TagsOf(h[1..]) == TagsOf(h);
      r
    else
      var rest := Tally(h[1..], tag);
      var r := [h[0]] + rest;
      assert r[1..] == rest;
      assert TagsOf(h) == [h[0].tag] + TagsOf(h[1..]);
      assert TagsOf(r) == [h[0].tag] + TagsOf(rest);
      assert tag in TagsOf(h) <==> tag in TagsOf(h[1..]);
      SeqAssoc([h[0].tag], TagsOf(h[1..]), [tag]);
      r
  }

  /** The whole reduce: tallies `tags` from left to right into `h`. */
  function TallyAll(h: seq<TagCount>, tags: seq<string>): (r: seq<TagCount>)
    ensures forall t :: CountOf(r, t) == CountOf(h, t) + multiset(tags)[t]
    ensures forall t :: t in TagsOf(r) <==> t in TagsOf(h) || t in tags
    ensures Distinct(TagsOf(h)) ==> Distinct(TagsOf(r))
    ensures Positive(h) ==> Positive(r)
    decreases |tags|
  {
    if |tags| == 0 then
      h
    else
      assert tags == [tags[0]] + tags[1..];
      var h1 := Tally(h, tags[0]);
      assert Distinct(TagsOf(h)) ==> Distinct(TagsOf(h1)) by {
        if Distinct(TagsOf(h)) && tags[0] !in TagsOf(h) {
          var xs := TagsOf(h);
          assert forall i, j :: 0 <= i < j < |xs + [tags[0]]| ==> (xs + [tags[0]])[i] != (xs + [tags[0]])[j] by {
            forall i, j | 0 <= i < j < |xs + [tags[0]]|
              ensures (xs + [tags[0]])[i] != (xs + [tags[0]])[j]
            {
              if j == |xs| {
                assert (xs + [tags[0]])[i] == xs[i];
              }
            }
          }
        }
      }
      TallyAll(h1, tags[1..])
  }

  /** One step of the reduce adds exactly one to the sum of the counters. */
  lemma {:induction false} TallySum(h: seq<TagCount>, tag: string)
    ensures SumCounts(Tally(h, tag)) == SumCounts(h) + 1
  {
    if |h| > 0 && h[0].tag != tag {
      TallySum(h[1..], tag);
      assert Tally(h, tag)[1..] == Tally(h[1..], tag);
    }
  }

  /** The whole reduce adds one to the sum of the counters per tag. */
  lemma {:induction false} TallyAllSum(h: seq<TagCount>, tags: seq<string>)
    ensures SumCounts(TallyAll(h, tags)) == SumCounts(h) + |tags|
    decreases |tags|
  {
    if |tags| > 0 {
      TallySum(h, tags[0]);
      TallyAllSum(Tally(h, tags[0]), tags[1..]);
    }
  }

  /** The tag histogram of `todo_stats`: counters in the order the tags are
      first seen. */
  function TagHistogram(vs: seq<Todo>): (h: seq<TagCount>)
    ensures Distinct(TagsOf(h))
    ensures forall t :: t in TagsOf(h) <==> t in AllTags(vs)
    ensures forall t :: CountOf(h, t) == multiset(AllTags(vs))[t]
  {
    TallyAll([], AllTags(vs))
  }

  /** `AllTags` lists every occurrence of every record's tags. */
  lemma {:induction false} AllTagsLength(vs: seq<Todo>)
    ensures |AllTags(vs)| == TagOccurrences(vs)
  {
    if |vs| > 0 {
      AllTagsLength(vs[1..]);
    }
  }

  /** In a histogram without repeated tags, each entry is the counter its tag
      reads. */
  lemma {:induction false} EntryIsCounter(h: seq<TagCount>)
    requires Distinct(TagsOf(h))
    ensures forall i :: 0 <= i < |h| ==> CountOf(h, h[i].tag) == h[i].count
  {
    if |h| > 0 {
      var xs := TagsOf(h[1..]);
      assert TagsOf(h) == [h[0].tag] + xs;
      assert Distinct(xs) by {
        forall i, j | 0 <= i < j < |xs| ensures xs[i] != xs[j] {
          assert xs[i] == TagsOf(h)[i + 1] && xs[j] == TagsOf(h)[j + 1];
        }
      }
      EntryIsCounter(h[1..]);
      forall i | 1 <= i < |h| ensures h[i].tag != h[0].tag {
        TagsOfIndex(h, i);
        TagsOfIndex(h, 0);
      }
    }
  }

  lemma {:induction false} TagsOfIndex(h: seq<TagCount>, i: nat)
    requires i < |h|
    ensures |TagsOf(h)| == |h|
    ensures TagsOf(h)[i] == h[i].tag
  {
    if i > 0 {
      TagsOfIndex(h[1..], i - 1);
    } else if |h| > 1 {
      TagsOfIndex(h[1..], 0);
    }
  }

  /** The histogram counts every tag occurrence exactly once: one entry per
      distinct tag, each holding the number of times the tag occurs across all
      records, and the counts add up to the number of tag occurrences. */
  lemma {:induction false} HistogramCounts(vs: seq<Todo>)
    ensures var h := TagHistogram(vs);
      && Distinct(TagsOf(h))
      && (forall t :: t in TagsOf(h) <==> t in AllTags(vs))
      && (forall t :: CountOf(h, t) == multiset(AllTags(vs))[t])
      && (forall e :: e in h ==> e.count == multiset(AllTags(vs))[e.tag] >= 1)
      && SumCounts(h) == TagOccurrences(vs)
  {
    var h := TagHistogram(vs);
    AllTagsLength(vs);
    TallyAllSum([], AllTags(vs));
    EntryIsCounter(h);
  }

  /** The histogram has one entry per distinct tag. */
  lemma HistogramSize(vs: seq<Todo>)
    ensures |TagHistogram(vs)| == |(set t | t in AllTags(vs))|
  {
    var h := TagHistogram(vs);
    DistinctCardinality(TagsOf(h));
    if |h| > 0 {
      TagsOfIndex(h, 0);
    }
    assert (set t | t in TagsOf(h)) == (set t | t in AllTags(vs));
  }

  // ---------------------------------------------------------------- top tags

  const TopTagLimit: nat := 5

  /** `Object.entries(tagCounts).sort(([,a], [,b]) => b - a).slice(0, 5)`
      (src/index.ts:257-259): the entries with the largest counts, at most five,
      largest first. */
  function TopTags(h: seq<TagCount>): (r: seq<TagCount>)
    ensures |r| == if |h| < TopTagLimit then |h| else TopTagLimit
    ensures SortedDesc(r, Count)
    ensures multiset(r) <= multiset(h)
    ensures |h| <= TopTagLimit ==> multiset(r) == multiset(h)
    ensures forall e, e' :: e in h && e !in r && e' in r ==> e'.count >= e.count
  {
    var sorted := SortDesc(h, Count);
    var n := if |h| < TopTagLimit then |h| else TopTagLimit;
    SortedSplit(sorted, Count, n);
    var r := sorted[..n];
    assert forall e :: e in h ==> e in sorted by {
      forall e | e in h ensures e in sorted {
        assert multiset(sorted)[e] == multiset(h)[e] > 0;
      }
    }
    r
  }

  // ---------------------------------------------------------------- todo_stats

  datatype Stats = Stats(
    total: nat,
    completed: nat,
    pending: int,
    pendingHigh: nat,
    pendingMedium: nat,
    pendingLow: nat,
    completionRate: nat,
    topTags: seq<TagCount>)

  /** `todo_stats` over a snapshot of the store (src/index.ts:239-259, 270). */
  function ComputeStats(vs: seq<Todo>): (st: Stats)
    ensures st.total == |vs|
    ensures st.completed == |Filter(vs, IsCompleted)|
    ensures st.pending == |Filter(vs, IsPending)|
    ensures st.pendingHigh + st.pendingMedium + st.pendingLow == st.pending
    ensures st.completionRate <= 100
    ensures |vs| == 0 ==> st.completionRate == 0
    ensures st.pendingHigh == |Filter(vs, PendingWith(High))|
    ensures st.pendingMedium == |Filter(vs, PendingWith(Medium))|
    ensures st.pendingLow == |Filter(vs, PendingWith(Low))|
    ensures st.completionRate == CompletionRate(st.completed, st.total)
    ensures st.topTags == TopTags(TagHistogram(vs))
    ensures var distinct := |(set t | t in AllTags(vs))|;
      |st.topTags| == if distinct < TopTagLimit then distinct else TopTagLimit
    ensures SortedDesc(st.topTags, Count)
    ensures forall e :: e in st.topTags ==> e.count == multiset(AllTags(vs))[e.tag] >= 1
  {
    var completed := |Filter(vs, IsCompleted)|;
    var pending := |vs| - completed;
    CompletedPendingSplit(vs);
    PendingByPrioritySum(vs);
    CompletionRateBounds(completed, |vs|);
    HistogramCounts(vs);
    HistogramSize(vs);
    var h := TagHistogram(vs);
    var top := TopTags(h);
    assert forall e :: e in top ==> e in h by {
      forall e | e in top ensures e in h {
        assert multiset(top)[e] > 0;
      }
    }
    Stats(
      |vs|,
      completed,
      pending,
      |Filter(vs, PendingWith(High))|,
      |Filter(vs, PendingWith(Medium))|,
      |Filter(vs, PendingWith(Low))|,
      CompletionRate(completed, |vs|),
      top)
  }

  // ---------------------------------------------------------------- summary resource

  datatype Summary = Summary(total: nat, completed: nat, pending: int, completionRate: nat)

  /** The `todos://summary` resource (src/index.ts:313-321), without its
      `lastUpdated` timestamp. */
  function Summarize(vs: seq<Todo>): (sm: Summary)
    ensures sm.total == |vs|
    ensures sm.completed + sm.pending == sm.total
    ensures sm.pending == |Filter(vs, IsPending)|
    ensures sm.completionRate <= 100
    ensures sm.total == 0 ==> sm.completionRate == 0
  {
    var completed := |Filter(vs, IsCompleted)|;
    CompletedPendingSplit(vs);
    CompletionRateBounds(completed, |vs|);
    Summary(|vs|, completed, |vs| - completed, CompletionRate(completed, |vs|))
  }

  /** The summary resource repeats the arithmetic of `todo_stats`. */
  lemma SummaryAgreesWithStats(vs: seq<Todo>)
    ensures var sm, st := Summarize(vs), ComputeStats(vs);
      sm.total == st.total && sm.completed == st.completed &&
      sm.pending == st.pending && sm.completionRate == st.completionRate
  {
  }
}
