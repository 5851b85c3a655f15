/** Concrete runs of the query and statistics code on small snapshots. */
module Scenarios {
  import opened Wrappers
  import opened Todos
  import opened Query
  import opened Stats
  import opened Seqs
  import opened Sorting

  function Sample(id: string, completed: bool, priority: Priority, createdAt: int, tags: seq<string>): Todo {
    Todo(id, "task " + id, None, completed, priority, createdAt, createdAt, tags)
  }

  /** A completed high-priority record, a pending medium one and a pending
      low one. */
  function Three(): seq<Todo> {
    [Sample("todo-1", true, High, 10, []),
     Sample("todo-2", false, Medium, 20, []),
     Sample("todo-3", false, Low, 30, [])]
  }

  /** The counts `todo_stats` filters out of `Three()`. */
  lemma ThreeCounts()
    ensures |Filter(Three(), IsCompleted)| == 1
    ensures |Filter(Three(), PendingWith(High))| == 0
    ensures |Filter(Three(), PendingWith(Medium))| == 1
    ensures |Filter(Three(), PendingWith(Low))| == 1
    ensures AllTags(Three()) == []
  {
  }

  /** With the high one completed, the stats report one completed and two
      pending records, none of them high. */
  lemma StatsOfThree()
    ensures var st := ComputeStats(Three());
      && st.total == 3 && st.completed == 1 && st.pending == 2
      && st.pendingHigh == 0 && st.pendingMedium == 1 && st.pendingLow == 1
      && st.completionRate == 33 && st.topTags == []
  {
    ThreeCounts();
    assert CompletionRate(1, 3) == 203 / 6 == 33;
    assert TagHistogram(Three()) == [];
  }

  /** Filtering by "shopping" keeps the record tagged with it and drops the one
      tagged only "work". */
  lemma ShoppingTagFilter()
    ensures var a := Sample("todo-1", false, Low, 10, ["personal", "shopping"]);
            var b := Sample("todo-2", false, High, 20, ["work"]);
            ListTodos([a, b], All, None, Some("shopping")) == [a]
  {
    var a := Sample("todo-1", false, Low, 10, ["personal", "shopping"]);
    var b := Sample("todo-2", false, High, 20, ["work"]);
    assert "shopping" == a.tags[1];
    assert "shopping" !in b.tags;
    assert [a, b][1..] == [b] && [b][1..] == [];
    var test := (t: Todo) => "shopping" in t.tags;
    assert Filter([b], test) == [];
    assert Filter([a, b], test) == [a];
    assert Select([a, b], All, None, Some("shopping")) == [a];
    assert SortDesc([a], CreatedAt) == [a];
  }

  /** Records listed newest first. */
  lemma NewestFirst()
    ensures var a := Sample("todo-1", false, Low, 10, []);
            var b := Sample("todo-2", false, High, 20, []);
            ListTodos([a, b], All, None, None) == [b, a]
  {
  }
}
