/** The in-memory todo store (src/index.ts:18-24) and the mutating handlers
    `create_todo`, `update_todo` and `delete_todo`. The JavaScript `Map` keeps
    its keys in insertion order, and `Array.from(todos.values())` lists the
    records in that order; `order` records it. The clock is a parameter `now`. */
module TodoStore {
  import opened Wrappers
  import opened Todos
  import opened Ids
  import opened Seqs

  datatype Store = Store(todos: map<string, Todo>, order: seq<string>, nextId: nat)

  /** The state at start-up: no todos and the counter at 1. */
  const Initial: Store := Store(map[], [], 1)

  datatype Error =
    | EmptyTitle          // zod's `min(1)` on the title of `create_todo`
    | NotFound(id: string)

  /** The store invariant: every record is filed under its own id, every key was
      minted from a counter value below `nextId`, and `order` lists every key
      exactly once. */
  ghost predicate Valid(s: Store) {
    && (forall k :: k in s.todos ==> s.todos[k].id == k)
    && (forall k :: k in s.todos ==> IdNumber(k).Some? && IdNumber(k).value < s.nextId)
    && Distinct(s.order)
    && (forall k :: k in s.order <==> k in s.todos)
  }

  lemma InitialValid()
    ensures Valid(Initial)
  {
  }

  /** The identifier the next create mints is not a key of a valid store. */
  lemma NextIdFresh(s: Store)
    requires Valid(s)
    ensures IdOf(s.nextId) !in s.todos
  {
    IdRoundTrip(s.nextId);
  }

  /** The records in insertion order: what `Array.from(todos.values())` yields. */
  function Values(s: Store): (r: seq<Todo>)
    requires forall k :: k in s.order ==> k in s.todos
    ensures |r| == |s.order|
    ensures forall t :: t in r ==> t in s.todos.Values
  {
    seq(|s.order|, i requires 0 <= i < |s.order| => s.todos[s.order[i]])
  }

  /** The snapshot lists every record of a valid store exactly once. */
  lemma ValuesListsStore(s: Store)
    requires Valid(s)
    ensures |Values(s)| == |s.todos|
    ensures forall k :: k in s.todos ==> s.todos[k] in Values(s)
    ensures forall t :: t in Values(s) ==> t.id in s.todos && s.todos[t.id] == t
    ensures Distinct(Values(s))
  {
    var vs := Values(s);
    assert |vs| == |s.todos| by {
      DistinctCardinality(s.order);
      assert (set k | k in s.order) == s.todos.Keys;
      assert |s.todos.Keys| == |s.todos|;
    }
    forall k | k in s.todos ensures s.todos[k] in vs {
      assert k in s.order;
      var i :| 0 <= i < |s.order| && s.order[i] == k;
      assert vs[i] == s.todos[k];
    }
    forall t | t in vs ensures t.id in s.todos && s.todos[t.id] == t {
      var i :| 0 <= i < |vs| && vs[i] == t;
      assert s.order[i] in s.todos;
    }
    forall i, j | 0 <= i < j < |vs| ensures vs[i] != vs[j] {
      assert s.order[i] in s.todos && s.order[j] in s.todos;
      assert vs[i].id == s.order[i] && vs[j].id == s.order[j];
    }
  }

  // ---------------------------------------------------------------- create

  /** The arguments of `create_todo`; an absent priority or tag list takes the
      schema default (src/index.ts:48-51). */
  datatype CreateRequest = CreateRequest(
    title: string,
    description: Option<string>,
    priority: Option<Priority>,
    tags: Option<seq<string>>)

  datatype Created = Created(store: Store, id: string)

  /** `create_todo` (src/index.ts:48-69): an empty title is refused by the
      schema before the handler runs; otherwise a new id is minted and a fresh,
      not yet completed record is stored under it. `Map.set` on a key already
      present keeps the key's position, so `order` only grows for a new key. */
  function Create(s: Store, req: CreateRequest, now: int): (r: Result<Created, Error>)
    ensures r.Failure? <==> |req.title| == 0
    ensures r.Failure? ==> r.error == EmptyTitle
    ensures r.Success? ==>
      var s', id := r.value.store, r.value.id;
      && id == IdOf(s.nextId)
      && s'.nextId == s.nextId + 1
      && s'.todos.Keys == s.todos.Keys + {id}
      && (id !in s.todos ==> s'.order == s.order + [id])
      && (forall k :: k in s.todos && k != id ==> s'.todos[k] == s.todos[k])
      && s'.todos[id].id == id
      && s'.todos[id].title == req.title
      && s'.todos[id].description == req.description
      && !s'.todos[id].completed
      && s'.todos[id].priority == (if req.priority.Some? then req.priority.value else Medium)
      && s'.todos[id].tags == (if req.tags.Some? then req.tags.value else [])
      && s'.todos[id].createdAt == now
      && s'.todos[id].updatedAt == now
  {
    if |req.title| == 0 then
      Failure(EmptyTitle)
    else
      var id := IdOf(s.nextId);
      var todo := Todo(id, req.title, req.description, false,
                       req.priority.GetOr(Medium), now, now, req.tags.GetOr([]));
      var order := if id in s.todos then s.order else s.order + [id];
      Success(Created(Store(s.todos[id := todo], order, s.nextId + 1), id))
  }

  /** On a valid store a successful create adds exactly one key, one never used
      before, and keeps the store valid. */
  lemma CreateFresh(s: Store, req: CreateRequest, now: int)
    requires Valid(s)
    requires |req.title| > 0
    ensures Create(s, req, now).Success?
    ensures var c := Create(s, req, now).value;
      && c.id !in s.todos
      && |c.store.todos| == |s.todos| + 1
      && c.store.order == s.order + [c.id]
      && Valid(c.store)
  {
    var id := IdOf(s.nextId);
    NextIdFresh(s);
    AddFreshKeepsValid(s, id, Create(s, req, now).value.store.todos[id]);
  }

  /** Filing a record under the id the counter names, appending the id to the
      key order and advancing the counter keeps a valid store valid. */
  lemma AddFreshKeepsValid(s: Store, id: string, todo: Todo)
    requires Valid(s)
    requires id == IdOf(s.nextId) && todo.id == id
    ensures id !in s.todos
    ensures |s.todos[id := todo]| == |s.todos| + 1
    ensures Valid(Store(s.todos[id := todo], s.order + [id], s.nextId + 1))
  {
    NextIdFresh(s);
    IdRoundTrip(s.nextId);
    var order := s.order + [id];
    assert Distinct(order) by {
      forall i, j | 0 <= i < j < |order| ensures order[i] != order[j] {
        if j == |s.order| {
          assert order[i] == s.order[i];
        }
      }
    }
  }

  /** Create then list: the snapshot of the new store is the old snapshot with
      the new record, tags in the order supplied, appended at the end. */
  lemma CreateAppendsToSnapshot(s: Store, req: CreateRequest, now: int)
    requires Valid(s)
    requires |req.title| > 0
    ensures var c := Create(s, req, now).value;
      && Valid(c.store)
      && Values(c.store) == Values(s) + [c.store.todos[c.id]]
      && Values(c.store)[|Values(s)|].tags == (if req.tags.Some? then req.tags.value else [])
  {
    var c := Create(s, req, now).value;
    CreateFresh(s, req, now);
    ValuesAppend(s, c.id, c.store.todos[c.id], c.store.nextId);
  }

  /** Filing a record under a new key appended to the key order appends the
      record to the snapshot. */
  lemma ValuesAppend(s: Store, id: string, todo: Todo, nextId: nat)
    requires forall k :: k in s.order ==> k in s.todos
    requires id !in s.todos
    ensures Values(Store(s.todos[id := todo], s.order + [id], nextId)) == Values(s) + [todo]
  {
  }

  // ---------------------------------------------------------------- update

  /** The optional fields of `update_todo` (src/index.ts:154-158). The title is
      not checked for emptiness here: the schema has no `min(1)` on update. */
  datatype Patch = Patch(
    title: Option<string>,
    description: Option<string>,
    completed: Option<bool>,
    priority: Option<Priority>,
    tags: Option<seq<string>>)

  const NoChanges: Patch := Patch(None, None, None, None, None)

  /** Overwrites each supplied field and refreshes `updatedAt`
      (src/index.ts:174-181). */
  function ApplyPatch(t: Todo, p: Patch, now: int): (u: Todo)
    ensures u.id == t.id && u.createdAt == t.createdAt && u.updatedAt == now
    ensures p.title.Some? ==> u.title == p.title.value
    ensures p.title.None? ==> u.title == t.title
    ensures p.description.Some? ==> u.description == p.description
    ensures p.description.None? ==> u.description == t.description
    ensures p.completed.Some? ==> u.completed == p.completed.value
    ensures p.completed.None? ==> u.completed == t.completed
    ensures p.priority.Some? ==> u.priority == p.priority.value
    ensures p.priority.None? ==> u.priority == t.priority
    ensures p.tags.Some? ==> u.tags == p.tags.value
    ensures p.tags.None? ==> u.tags == t.tags
  {
    t.(title := p.title.GetOr(t.title),
       description := if p.description.Some? then p.description else t.description,
       completed := p.completed.GetOr(t.completed),
       priority := p.priority.GetOr(t.priority),
       tags := p.tags.GetOr(t.tags),
       updatedAt := now)
  }

  /** An update that supplies no field changes only `updatedAt`. */
  lemma NoChangesOnlyTouchesUpdatedAt(t: Todo, now: int)
    ensures ApplyPatch(t, NoChanges, now) == t.(updatedAt := now)
  {
  }

  /** Applying the same patch twice is the same as applying it once, at the
      later time. */
  lemma ApplyPatchIdempotent(t: Todo, p: Patch, first: int, second: int)
    ensures ApplyPatch(ApplyPatch(t, p, first), p, second) == ApplyPatch(t, p, second)
  {
  }

  datatype Changed = Changed(store: Store, todo: Todo)

  /** `update_todo` (src/index.ts:160-181): not found for an absent id;
      otherwise the patched record replaces the old one under the same key and
      nothing else in the store changes. */
  function Update(s: Store, id: string, p: Patch, now: int): (r: Result<Changed, Error>)
    ensures r.Failure? <==> id !in s.todos
    ensures r.Failure? ==> r.error == NotFound(id)
    ensures r.Success? ==>
      var s', u := r.value.store, r.value.todo;
      && u == ApplyPatch(s.todos[id], p, now)
      && s'.todos.Keys == s.todos.Keys
      && s'.todos[id] == u
      && (forall k :: k in s.todos && k != id ==> s'.todos[k] == s.todos[k])
      && s'.order == s.order
      && s'.nextId == s.nextId
  {
    if id !in s.todos then
      Failure(NotFound(id))
    else
      var u := ApplyPatch(s.todos[id], p, now);
      Success(Changed(s.(todos := s.todos[id := u]), u))
  }

  // ---------------------------------------------------------------- delete

  /** `delete_todo` (src/index.ts:205-219): not found for an absent id;
      otherwise exactly that key is removed and returned, the remaining keys
      keep their relative order, and the counter is untouched so the id is
      never minted again. */
  function Delete(s: Store, id: string): (r: Result<Changed, Error>)
    ensures r.Failure? <==> id !in s.todos
    ensures r.Failure? ==> r.error == NotFound(id)
    ensures r.Success? ==>
      var s' := r.value.store;
      && r.value.todo == s.todos[id]
      && s'.todos.Keys == s.todos.Keys - {id}
      && (forall k :: k in s'.todos ==> s'.todos[k] == s.todos[k])
      && (forall k :: k in s'.order <==> k in s.order && k != id)
      && s'.nextId == s.nextId
  {
    if id !in s.todos then
      Failure(NotFound(id))
    else
      Success(Changed(Store(s.todos - {id}, Filter(s.order, k => k != id), s.nextId), s.todos[id]))
  }

  /** Deleting from a valid store removes one record and keeps the store valid. */
  lemma DeleteKeepsValid(s: Store, id: string)
    requires Valid(s)
    requires id in s.todos
    ensures |Delete(s, id).value.store.todos| == |s.todos| - 1
    ensures Valid(Delete(s, id).value.store)
  {
    FilterDistinct(s.order, k => k != id);
  }

  /** Deleting cuts the id out of the key order and leaves the remaining keys
      in their relative order, as `Map.delete` does. */
  lemma DeleteKeepsOrder(s: Store, id: string)
    requires Valid(s)
    requires id in s.todos
    ensures exists i :: (0 <= i < |s.order| && s.order[i] == id
      && Delete(s, id).value.store.order == s.order[..i] + s.order[i + 1..])
  {
    var i :| 0 <= i < |s.order| && s.order[i] == id;
    FilterDropsOne(s.order, k => k != id, i);
  }

  /** Updating a record of a valid store keeps it valid. */
  lemma UpdateKeepsValid(s: Store, id: string, p: Patch, now: int)
    requires Valid(s)
    requires id in s.todos
    ensures Valid(Update(s, id, p, now).value.store)
  {
  }

  // ---------------------------------------------------------------- timestamps

  ghost predicate TimestampsOrdered(s: Store) {
    forall k :: k in s.todos ==> s.todos[k].createdAt <= s.todos[k].updatedAt
  }

  /** The clock reads no earlier than any timestamp already stored. */
  ghost predicate ClockNotBehind(s: Store, now: int) {
    forall k :: k in s.todos ==> s.todos[k].updatedAt <= now
  }

  // ---------------------------------------------------------------- request sequences

  /** One request handled by the store. */
  datatype Op =
    | CreateOp(req: CreateRequest, now: int)
    | UpdateOp(id: string, patch: Patch, now: int)
    | DeleteOp(id: string)

  /** The state after one request; a failed request leaves the state as it was. */
  function Step(s: Store, op: Op): (r: Store)
    ensures r.nextId == s.nextId + |Minted(s, op)|
    ensures r.todos.Keys <= s.todos.Keys + {IdOf(s.nextId)}
    ensures op.UpdateOp? ==> r.todos.Keys == s.todos.Keys
    ensures op.DeleteOp? ==> r.todos.Keys == s.todos.Keys - {op.id}
  {
    match op
    case CreateOp(req, now) =>
      (match Create(s, req, now) case Success(c) => c.store case Failure(_) => s)
    case UpdateOp(id, p, now) =>
      (match Update(s, id, p, now) case Success(c) => c.store case Failure(_) => s)
    case DeleteOp(id) =>
      (match Delete(s, id) case Success(c) => c.store case Failure(_) => s)
  }

  /** The id a request minted: one for a successful create, none otherwise. */
  function Minted(s: Store, op: Op): seq<string> {
    match op
    case CreateOp(req, now) =>
      (match Create(s, req, now) case Success(c) => [c.id] case Failure(_) => [])
    case _ => []
  }

  function Run(s: Store, ops: seq<Op>): (r: Store)
    ensures r.nextId == s.nextId + |MintedIds(s, ops)|
    decreases |ops|
  {
    if |ops| == 0 then s else Run(Step(s, ops[0]), ops[1..])
  }

  /** The ids minted along a sequence of requests, in order. */
  function MintedIds(s: Store, ops: seq<Op>): seq<string>
    decreases |ops|
  {
    if |ops| == 0 then [] else Minted(s, ops[0]) + MintedIds(Step(s, ops[0]), ops[1..])
  }

  /** Every request keeps a valid store valid and never decreases the counter;
      a minted id is the one the counter named. */
  lemma StepKeepsValid(s: Store, op: Op)
    requires Valid(s)
    ensures Valid(Step(s, op))
    ensures s.nextId <= Step(s, op).nextId
    ensures Minted(s, op) == [] ==> Step(s, op).nextId == s.nextId
    ensures Minted(s, op) != [] ==>
      Minted(s, op) == [IdOf(s.nextId)] && Step(s, op).nextId == s.nextId + 1
  {
    match op
    case CreateOp(req, now) =>
      if |req.title| > 0 {
        CreateFresh(s, req, now);
      }
    case UpdateOp(id, p, now) =>
      if id in s.todos {
        UpdateKeepsValid(s, id, p, now);
      }
    case DeleteOp(id) =>
      if id in s.todos {
        DeleteKeepsValid(s, id);
      }
  }

  /** Every id in `ids` was minted from a counter value in [lo, hi). */
  ghost predicate MintedBetween(ids: seq<string>, lo: nat, hi: nat) {
    forall i :: 0 <= i < |ids| ==> IdNumber(ids[i]).Some? && lo <= IdNumber(ids[i]).value < hi
  }

  /** The ids were minted from strictly increasing counter values. */
  ghost predicate MintedInOrder(ids: seq<string>) {
    forall i, j :: 0 <= i < j < |ids| ==>
      IdNumber(ids[i]).Some? && IdNumber(ids[j]).Some? &&
      IdNumber(ids[i]).value < IdNumber(ids[j]).value
  }

  /** Prepending the id minted from `lo` to ids minted later keeps them in order. */
  lemma MintedPrepend(m: seq<string>, rest: seq<string>, lo: nat, hi: nat)
    requires m == [] || m == [IdOf(lo)]
    requires MintedBetween(rest, lo + |m|, hi) && MintedInOrder(rest)
    requires lo + |m| <= hi
    ensures MintedBetween(m + rest, lo, hi) && MintedInOrder(m + rest)
  {
    if m != [] {
      IdRoundTrip(lo);
      var ids := m + rest;
      forall i | 0 <= i < |ids|
        ensures IdNumber(ids[i]).Some? && lo <= IdNumber(ids[i]).value < hi
      {
        if i > 0 {
          assert ids[i] == rest[i - 1];
        }
      }
      forall i, j | 0 <= i < j < |ids|
        ensures IdNumber(ids[i]).Some? && IdNumber(ids[j]).Some?
        ensures IdNumber(ids[i]).value < IdNumber(ids[j]).value
      {
        assert ids[j] == rest[j - 1];
        if i > 0 {
          assert ids[i] == rest[i - 1];
        }
      }
    } else {
      assert m + rest == rest;
    }
  }

  /** Ids minted from increasing counter values are pairwise distinct. */
  lemma MintedInOrderDistinct(ids: seq<string>)
    requires MintedInOrder(ids)
    ensures Distinct(ids)
  {
  }

  /** Fresh ids: along any sequence of creates, updates and deletes from a valid
      store, the minted ids come from strictly increasing counter values at or
      above the starting counter, so they are pairwise distinct, none of them
      was a key of the starting store, and none is reused after a delete. */
  lemma {:induction false} RunMintsFreshIds(s: Store, ops: seq<Op>)
    requires Valid(s)
    ensures Valid(Run(s, ops))
    ensures s.nextId <= Run(s, ops).nextId
    ensures MintedBetween(MintedIds(s, ops), s.nextId, Run(s, ops).nextId)
    ensures MintedInOrder(MintedIds(s, ops))
    ensures Distinct(MintedIds(s, ops))
    ensures forall k :: k in MintedIds(s, ops) ==> k !in s.todos
    decreases |ops|
  {
    var ids := MintedIds(s, ops);
    if |ops| > 0 {
      var s1 := Step(s, ops[0]);
      var m := Minted(s, ops[0]);
      var rest := MintedIds(s1, ops[1..]);
      StepKeepsValid(s, ops[0]);
      RunMintsFreshIds(s1, ops[1..]);
      assert ids == m + rest;
      assert Run(s, ops) == Run(s1, ops[1..]);
      MintedPrepend(m, rest, s.nextId, Run(s, ops).nextId);
    }
    MintedInOrderDistinct(ids);
    forall k | k in ids ensures k !in s.todos {
      var i :| 0 <= i < |ids| && ids[i] == k;
      assert IdNumber(k).Some? && s.nextId <= IdNumber(k).value;
    }
  }

  /** When every request reads the clock no earlier than the timestamps already
      stored, `createdAt <= updatedAt` keeps holding for every record. */
  lemma StepKeepsTimestampsOrdered(s: Store, op: Op)
    requires TimestampsOrdered(s)
    requires op.UpdateOp? ==> ClockNotBehind(s, op.now)
    ensures TimestampsOrdered(Step(s, op))
  {
  }
}
