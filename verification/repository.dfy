/**
 * The in-memory task store: a map from id to task plus the counter the next id is drawn from.
 * Calls are taken one at a time; timestamps are passed in as `now`.
 */
module Data {
  import opened Wrappers
  import opened Models
  import opened TagUtility

  /** Length of a day on the model's clock (timestamps count seconds). */
  const SecondsPerDay := 86400

  /** The three items the store is seeded with, before ids are assigned. */
  function SeedTasks(now: int): seq<TaskItem> {
    [ TaskItem(0, "Set up project structure", Some("Create the initial solution and project layout"),
               Done, now - 3 * SecondsPerDay, None, None, [Setup, Infrastructure]),
      TaskItem(0, "Implement API endpoints", Some("Build the REST API for task management"),
               InProgress, now - 2 * SecondsPerDay, None, None, [Backend, Api]),
      TaskItem(0, "Write unit tests", Some("Add tests for the repository and endpoints"),
               Todo, now - 1 * SecondsPerDay, None, None, [Testing, Backend]) ]
  }

  /** The store's contents right after construction: seed item i under id i + 1. */
  function SeedStore(now: int): map<int, TaskItem> {
    var seed := SeedTasks(now);
    map[1 := seed[0].(Id := 1), 2 := seed[1].(Id := 2), 3 := seed[2].(Id := 3)]
  }

  /** A non-empty set has an element. */
  lemma HasElement(s: set<int>)
    ensures s != {} ==> exists k :: k in s
  {
    assert (forall k :: k !in s) ==> s == {};
  }

  /** A non-empty set of ids has a smallest element. */
  lemma {:induction false} HasMinimum(s: set<int>)
    requires s != {}
    ensures exists k :: k in s && forall j :: j in s ==> k <= j
    decreases |s|
  {
    HasElement(s);
    var x :| x in s;
    var t := s - {x};
    assert s == t + {x};
    HasElement(t);
    if t == {} {
      assert forall j :: j in s ==> j == x;
      assert x in s && forall j :: j in s ==> x <= j;
    } else {
      HasMinimum(t);
      var m :| m in t && forall j :: j in t ==> m <= j;
      if x < m {
        assert forall j :: j in s ==> j == x || j in t;
        assert x in s && forall j :: j in s ==> x <= j;
      } else {
        assert forall j :: j in s ==> j == x || j in t;
        assert m in s && forall j :: j in s ==> m <= j;
      }
    }
  }

  ghost function MinKey(s: set<int>): (k: int)
    requires s != {}
    ensures k in s && forall j :: j in s ==> k <= j
  {
    HasMinimum(s);
    var k :| k in s && forall j :: j in s ==> k <= j; k
  }

  /** The items stored under `keys`, in ascending key order. */
  ghost function InKeyOrder(m: map<int, TaskItem>, keys: set<int>): seq<TaskItem>
    requires keys <= m.Keys
    decreases keys
  {
    if keys == {} then []
    else
      var k := MinKey(keys);
      [m[k]] + InKeyOrder(m, keys - {k})
  }

  /** What `GetAllAsync` yields for the map `m`: every stored item, ordered by id. */
  ghost function Listing(m: map<int, TaskItem>): seq<TaskItem> {
    InKeyOrder(m, m.Keys)
  }

  /** Every item sits under its own id. */
  ghost predicate KeyedById(m: map<int, TaskItem>) {
    forall k :: k in m ==> m[k].Id == k
  }

  /** Each item of `r` is the one stored under its own id, and that id is among `keys`. */
  ghost predicate EachStoredUnder(m: map<int, TaskItem>, keys: set<int>, r: seq<TaskItem>) {
    forall i :: 0 <= i < |r| ==> r[i].Id in keys && r[i].Id in m && m[r[i].Id] == r[i]
  }

  /** Ids strictly ascend along `r`, so no id occurs twice. */
  ghost predicate IdsAscending(r: seq<TaskItem>) {
    forall i, j :: 0 <= i < j < |r| ==> r[i].Id < r[j].Id
  }

  lemma {:induction false} InKeyOrderLength(m: map<int, TaskItem>, keys: set<int>)
    requires keys <= m.Keys
    ensures |InKeyOrder(m, keys)| == |keys|
    decreases keys
  {
    if keys != {} {
      InKeyOrderLength(m, keys - {MinKey(keys)});
    }
  }

  lemma {:induction false} InKeyOrderMembers(m: map<int, TaskItem>, keys: set<int>)
    requires keys <= m.Keys && KeyedById(m)
    ensures EachStoredUnder(m, keys, InKeyOrder(m, keys))
    decreases keys
  {
    if keys != {} {
      var k := MinKey(keys);
      InKeyOrderMembers(m, keys - {k});
      var rest := InKeyOrder(m, keys - {k});
      var r := [m[k]] + rest;
      assert InKeyOrder(m, keys) == r;
      forall i | 0 <= i < |r| ensures r[i].Id in keys && m[r[i].Id] == r[i] {
        if i > 0 {
          assert r[i] == rest[i - 1];
          assert rest[i - 1].Id in keys - {k};
        }
      }
    }
  }

  lemma {:induction false} InKeyOrderComplete(m: map<int, TaskItem>, keys: set<int>)
    requires keys <= m.Keys
    ensures forall k :: k in keys ==> m[k] in InKeyOrder(m, keys)
    decreases keys
  {
    if keys != {} {
      var k := MinKey(keys);
      InKeyOrderComplete(m, keys - {k});
      var rest := InKeyOrder(m, keys - {k});
      assert InKeyOrder(m, keys) == [m[k]] + rest;
      forall k' | k' in keys ensures m[k'] in [m[k]] + rest {
        if k' != k { assert m[k'] in rest; }
      }
    }
  }

  lemma {:induction false} InKeyOrderAscending(m: map<int, TaskItem>, keys: set<int>)
    requires keys <= m.Keys && KeyedById(m)
    ensures IdsAscending(InKeyOrder(m, keys))
    decreases keys
  {
    if keys != {} {
      var k := MinKey(keys);
      InKeyOrderAscending(m, keys - {k});
      InKeyOrderMembers(m, keys - {k});
      var rest := InKeyOrder(m, keys - {k});
      var r := [m[k]] + rest;
      assert InKeyOrder(m, keys) == r;
      assert r[0].Id == k;
      assert forall i :: 1 <= i < |r| ==> r[i] == rest[i - 1];
      assert forall j :: 1 <= j < |r| ==> r[0].Id < r[j].Id;
    }
  }

  /**
   * The listing holds each stored item exactly once (as many items as keys, every item
   * present), each under its own id, with ids strictly ascending.
   */
  lemma ListingSpec(m: map<int, TaskItem>)
    requires KeyedById(m)
    ensures |Listing(m)| == |m|
    ensures EachStoredUnder(m, m.Keys, Listing(m))
    ensures forall k :: k in m ==> m[k] in Listing(m)
    ensures IdsAscending(Listing(m))
  {
    InKeyOrderLength(m, m.Keys);
    InKeyOrderMembers(m, m.Keys);
    InKeyOrderComplete(m, m.Keys);
    InKeyOrderAscending(m, m.Keys);
  }

  /** The seeded store lists its three items in seed order. */
  lemma SeedListing(now: int)
    ensures Listing(SeedStore(now)) == [SeedStore(now)[1], SeedStore(now)[2], SeedStore(now)[3]]
  {
    var m := SeedStore(now);
    assert m.Keys == {1, 2, 3};
    assert MinKey({1, 2, 3}) == 1;
    assert {1, 2, 3} - {1} == {2, 3};
    assert MinKey({2, 3}) == 2;
    assert {2, 3} - {2} == {3};
    assert MinKey({3}) == 3;
    assert {3} - {3} == {};
  }

  class InMemoryTaskRepository {
    /** `_tasks`. */
    var tasks: map<int, TaskItem>
    /** `_nextId`: the last id handed out. */
    var nextId: int
    /** Every id handed out so far, including those of deleted items. */
    ghost var issued: set<int>

    ghost predicate Valid()
      reads this
    {
      && nextId >= 0
      && (forall k :: k in issued <==> 1 <= k <= nextId)
      && tasks.Keys <= issued
      && KeyedById(tasks)
      && (forall k :: k in tasks ==> IsNormalized(tasks[k].Tags))
    }

    /** Seeds the store with three items; they receive ids 1, 2, 3 in order. */
    constructor (now: int)
      ensures Valid()
      ensures tasks == SeedStore(now)
      ensures nextId == 3 && issued == {1, 2, 3}
    {
      tasks := map[];
      nextId := 0;
      issued := {};
      new;
      var seed := SeedTasks(now);
      for i := 0 to |seed|
        invariant nextId == i
        invariant forall j :: j in issued <==> 1 <= j <= i
        invariant tasks.Keys == issued
        invariant forall j :: j in tasks ==> tasks[j] == seed[j - 1].(Id := j)
      {
        nextId := nextId + 1;
        var id := nextId;
        tasks := tasks[id := seed[i].(Id := id)];
        issued := issued + {id};
      }
      SeedStoreIs(now, tasks);
      SeedStoreValid(now);
      assert issued == {1, 2, 3};
    }

    /** `GetAllAsync`: every stored item, ordered by id (the `OrderBy` is a repeated minimum selection). */
    method GetAll() returns (r: seq<TaskItem>)
      requires Valid()
      ensures r == Listing(tasks)
    {
      r := [];
      var rest := tasks.Keys;
      while rest != {}
        invariant rest <= tasks.Keys
        invariant r + InKeyOrder(tasks, rest) == Listing(tasks)
        decreases rest
      {
        HasMinimum(rest);
        var k :| k in rest && forall j :: j in rest ==> k <= j;
        assert k == MinKey(rest);
        r := r + [tasks[k]];
        rest := rest - {k};
      }
    }

    /** `GetByIdAsync`: the item stored under `id`, or nothing. */
    method GetById(id: int) returns (r: Option<TaskItem>)
      requires Valid()
      ensures r.Some? <==> id in tasks
      ensures r.Some? ==> r.value == tasks[id] && r.value.Id == id
    {
      if id in tasks {
        r := Some(tasks[id]);
      } else {
        r := None;
      }
    }

    /**
     * `CreateAsync`: stores `task` under a fresh id, one above the last id handed out, with the
     * creation time set and the tags normalised; every other entry is left as it was.
     */
    method Create(task: TaskItem, now: int) returns (created: TaskItem)
      requires Valid()
      modifies this
      ensures Valid()
      ensures created == task.(Id := old(nextId) + 1, CreatedAt := now, Tags := NormalizeTags(task.Tags))
      ensures created.Id !in old(tasks) && created.Id !in old(issued)
      ensures forall k :: k in old(issued) ==> k < created.Id
      ensures tasks == old(tasks)[created.Id := created]
      ensures |tasks| == |old(tasks)| + 1
      ensures nextId == old(nextId) + 1 && issued == old(issued) + {created.Id}
    {
      nextId := nextId + 1;
      var id := nextId;
      created := task.(Id := id, CreatedAt := now, Tags := NormalizeTags(task.Tags));
      tasks := tasks[id := created];
      issued := issued + {id};
    }

    /**
     * `UpdateAsync`: when `task.Id` is stored, replaces that entry wholesale with `task` (tags
     * normalised) and returns it; otherwise returns nothing and changes nothing.
     */
    method Update(task: TaskItem) returns (r: Option<TaskItem>)
      requires Valid()
      modifies this
      ensures Valid()
      ensures r.Some? <==> task.Id in old(tasks)
      ensures r.None? ==> tasks == old(tasks)
      ensures r.Some? ==> (r.value == task.(Tags := NormalizeTags(task.Tags))
                           && tasks == old(tasks)[task.Id := r.value])
      ensures tasks.Keys == old(tasks.Keys)
      ensures nextId == old(nextId) && issued == old(issued)
    {
      if task.Id !in tasks {
        return None;
      }
      var stored := task.(Tags := NormalizeTags(task.Tags));
      tasks := tasks[task.Id := stored];
      r := Some(stored);
    }

    /** `DeleteAsync`: removes the entry for `id`, reporting whether there was one. */
    method Delete(id: int) returns (removed: bool)
      requires Valid()
      modifies this
      ensures Valid()
      ensures removed <==> id in old(tasks)
      ensures tasks == old(tasks) - {id}
      ensures removed ==> |tasks| == |old(tasks)| - 1
      ensures nextId == old(nextId) && issued == old(issued)
    {
      removed := id in tasks;
      tasks := tasks - {id};
    }
  }

  /** A map holding seed item j - 1 under each key j of {1, 2, 3} is the seeded store. */
  lemma SeedStoreIs(now: int, m: map<int, TaskItem>)
    requires forall j :: j in m <==> 1 <= j <= 3
    requires forall j :: j in m ==> m[j] == SeedTasks(now)[j - 1].(Id := j)
    ensures m == SeedStore(now)
  {
    assert m.Keys == SeedStore(now).Keys;
  }

  /** The seeded store keeps each item under its own id, with its tags in normal form. */
  lemma SeedStoreValid(now: int)
    ensures KeyedById(SeedStore(now))
    ensures forall k :: k in SeedStore(now) ==> IsNormalized(SeedStore(now)[k].Tags)
  {
    SeedTagsNormalized(now);
    var m := SeedStore(now);
    assert m.Keys == {1, 2, 3};
    assert m[1].Tags == SeedTasks(now)[0].Tags;
    assert m[2].Tags == SeedTasks(now)[1].Tags;
    assert m[3].Tags == SeedTasks(now)[2].Tags;
  }

  /** The seed tags are already in normal form. */
  lemma SeedTagsNormalized(now: int)
    ensures forall t :: t in SeedTasks(now) ==> IsNormalized(t.Tags)
  {
    assert IsNormalTag(Setup) && IsNormalTag(Infrastructure) && IsNormalTag(Backend);
    assert IsNormalTag(Api) && IsNormalTag(Testing);
  }
}
