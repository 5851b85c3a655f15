/** The query of `list_todos` (src/index.ts:91-113): three filters combined by
    AND over a snapshot of the store, then a stable sort, newest first. */
module Query {
  import opened Wrappers
  import opened Todos
  import opened Seqs
  import opened Sorting

  /** The `status` argument; it defaults to `All`. */
  datatype Status = All | CompletedOnly | PendingOnly

  predicate StatusMatches(status: Status, t: Todo) {
    match status
    case All => true
    case CompletedOnly => t.completed
    case PendingOnly => !t.completed
  }

  /** An absent priority keeps every record. */
  predicate PriorityMatches(priority: Option<Priority>, t: Todo) {
    priority.None? || t.priority == priority.value
  }

  /** An absent tag keeps every record, and so does the empty tag: `if (tag)`
      treats "" as false. Otherwise the tag must occur in the record's tags. */
  predicate TagMatches(tag: Option<string>, t: Todo) {
    tag.None? || tag.value == "" || tag.value in t.tags
  }

  predicate Matches(status: Status, priority: Option<Priority>, tag: Option<string>, t: Todo) {
    StatusMatches(status, t) && PriorityMatches(priority, t) && TagMatches(tag, t)
  }

  function StatusTest(status: Status): Todo -> bool {
    t => StatusMatches(status, t)
  }

  function PriorityTest(priority: Option<Priority>): Todo -> bool {
    t => PriorityMatches(priority, t)
  }

  function TagTest(tag: Option<string>): Todo -> bool {
    t => TagMatches(tag, t)
  }

  function MatchTest(status: Status, priority: Option<Priority>, tag: Option<string>): Todo -> bool {
    t => Matches(status, priority, tag, t)
  }

  /** The status filter (src/index.ts:96-100); skipped for `All`. */
  function ByStatus(vs: seq<Todo>, status: Status): (r: seq<Todo>)
    ensures r == Filter(vs, StatusTest(status))
  {
    if status == All then
      FilterKeepsAll(vs, StatusTest(status));
      vs
    else
      var test := (t: Todo) => if status == CompletedOnly then t.completed else !t.completed;
      FilterExt(vs, test, StatusTest(status));
      Filter(vs, test)
  }

  /** The priority filter (src/index.ts:102-104); skipped when absent. */
  function ByPriority(vs: seq<Todo>, priority: Option<Priority>): (r: seq<Todo>)
    ensures r == Filter(vs, PriorityTest(priority))
  {
    if priority.None? then
      FilterKeepsAll(vs, PriorityTest(priority));
      vs
    else
      var test := (t: Todo) => t.priority == priority.value;
      FilterExt(vs, test, PriorityTest(priority));
      Filter(vs, test)
  }

  /** The tag filter (src/index.ts:106-110); skipped when absent or empty. */
  function ByTag(vs: seq<Todo>, tag: Option<string>): (r: seq<Todo>)
    ensures r == Filter(vs, TagTest(tag))
  {
    if tag.None? || tag.value == "" then
      FilterKeepsAll(vs, TagTest(tag));
      vs
    else
      var test := (t: Todo) => tag.value in t.tags;
      FilterExt(vs, test, TagTest(tag));
      Filter(vs, test)
  }

  /** The three filters in the order the handler applies them. */
  function Select(vs: seq<Todo>, status: Status, priority: Option<Priority>, tag: Option<string>): (r: seq<Todo>)
    ensures forall t :: t in r <==> t in vs && Matches(status, priority, tag, t)
  {
    ByTag(ByPriority(ByStatus(vs, status), priority), tag)
  }

  /** The filters keep exactly the records satisfying all three tests, in their
      original relative order: the result is the single filter by the
      conjunction. */
  lemma {:induction false} SelectIsConjunction(vs: seq<Todo>, status: Status, priority: Option<Priority>, tag: Option<string>)
    ensures Select(vs, status, priority, tag) == Filter(vs, MatchTest(status, priority, tag))
  {
    SelectIsConjunctionRec(vs, status, priority, tag);
  }

  lemma {:induction false} SelectIsConjunctionRec(vs: seq<Todo>, status: Status, priority: Option<Priority>, tag: Option<string>)
    ensures Filter(Filter(Filter(vs, StatusTest(status)), PriorityTest(priority)), TagTest(tag))
         == Filter(vs, MatchTest(status, priority, tag))
  {
    if |vs| > 0 {
      var s, p, q := StatusTest(status), PriorityTest(priority), TagTest(tag);
      var x, rest := vs[0], vs[1..];
      SelectIsConjunctionRec(rest, status, priority, tag);
      assert MatchTest(status, priority, tag)(x) == (s(x) && p(x) && q(x));
      if !s(x) {
        assert Filter(vs, s) == Filter(rest, s);
      } else if !p(x) {
        assert Filter(vs, s) == [x] + Filter(rest, s);
        assert Filter(Filter(vs, s), p) == Filter(Filter(rest, s), p);
      } else {
        assert Filter(vs, s) == [x] + Filter(rest, s);
        assert Filter(Filter(vs, s), p) == [x] + Filter(Filter(rest, s), p);
      }
    }
  }

  /** The order in which the three filters are applied does not matter. */
  lemma {:induction false} FiltersCommute(vs: seq<Todo>, status: Status, priority: Option<Priority>, tag: Option<string>)
    ensures Select(vs, status, priority, tag) == ByStatus(ByPriority(ByTag(vs, tag), priority), status)
    ensures Select(vs, status, priority, tag) == ByPriority(ByStatus(ByTag(vs, tag), status), priority)
    ensures Select(vs, status, priority, tag) == ByTag(ByStatus(ByPriority(vs, priority), status), tag)
    ensures Select(vs, status, priority, tag) == ByStatus(ByTag(ByPriority(vs, priority), tag), status)
    ensures Select(vs, status, priority, tag) == ByPriority(ByTag(ByStatus(vs, status), tag), priority)
  {
    var s, p, t := StatusTest(status), PriorityTest(priority), TagTest(tag);
    FilterCommute(vs, s, p);
    FilterCommute(vs, s, t);
    FilterCommute(vs, p, t);
    FilterCommute(Filter(vs, s), p, t);
    FilterCommute(Filter(vs, p), s, t);
    FilterCommute(Filter(vs, t), s, p);
  }

  /** "completed" and "pending" split the snapshot: no record in both, none
      left out, and "all" keeps everything. */
  lemma StatusPartition(vs: seq<Todo>)
    ensures multiset(ByStatus(vs, CompletedOnly)) + multiset(ByStatus(vs, PendingOnly)) == multiset(vs)
    ensures |ByStatus(vs, CompletedOnly)| + |ByStatus(vs, PendingOnly)| == |vs|
    ensures forall t :: !(t in ByStatus(vs, CompletedOnly) && t in ByStatus(vs, PendingOnly))
    ensures ByStatus(vs, All) == vs
  {
    FilterSplit(vs, StatusTest(CompletedOnly), StatusTest(PendingOnly));
    FilterKeepsAll(vs, StatusTest(All));
  }

  /** `list_todos` (src/index.ts:91-113): the matching records, newest first.
      The sort is stable, so records created at the same millisecond keep
      their insertion order. */
  function ListTodos(vs: seq<Todo>, status: Status, priority: Option<Priority>, tag: Option<string>): (r: seq<Todo>)
    ensures forall t :: t in r <==> t in vs && Matches(status, priority, tag, t)
    ensures multiset(r) == multiset(Filter(vs, MatchTest(status, priority, tag)))
    ensures SortedDesc(r, CreatedAt)
  {
    var selected := Select(vs, status, priority, tag);
    SelectIsConjunction(vs, status, priority, tag);
    var r := SortDesc(selected, CreatedAt);
    assert forall t :: t in r <==> t in selected by {
      forall t ensures t in r <==> t in selected {
        assert t in r <==> multiset(r)[t] > 0;
        assert t in selected <==> multiset(selected)[t] > 0;
      }
    }
    assert forall t :: MatchTest(status, priority, tag)(t) == Matches(status, priority, tag, t);
    r
  }

  /** Records sharing a creation time come out of `list_todos` in the order in
      which they were inserted into the store. */
  lemma {:induction false} ListTodosStable(vs: seq<Todo>, status: Status, priority: Option<Priority>, tag: Option<string>, time: int)
    ensures Filter(ListTodos(vs, status, priority, tag), KeyIs(CreatedAt, time))
         == Filter(Filter(vs, MatchTest(status, priority, tag)), KeyIs(CreatedAt, time))
  {
    SelectIsConjunction(vs, status, priority, tag);
    SortStable(Select(vs, status, priority, tag), CreatedAt, time);
  }
}
