/**
 * The repository's unit-test scenarios, replayed on the model: each method builds a freshly
 * seeded store and states what the calls return.
 */
module Scenarios {
  import opened Wrappers
  import opened Models
  import opened Enumerable
  import opened TagUtility
  import opened Data
  import opened Endpoints

  // ------------------------------------------------------------ the seeded data

  lemma AllTagsCons(t: TaskItem, rest: seq<TaskItem>)
    ensures AllTags([t] + rest) == t.Tags + AllTags(rest)
  {
    assert ([t] + rest)[1..] == rest;
  }

  /** The seeded listing's tags, task after task. */
  lemma SeedAllTags(now: int)
    ensures AllTags(Listing(SeedStore(now))) == [Setup, Infrastructure, Backend, Api, Testing, Backend]
  {
    SeedListing(now);
    var m := SeedStore(now);
    AllTagsCons(m[3], []);
    AllTagsCons(m[2], [m[3]]);
    AllTagsCons(m[1], [m[2], m[3]]);
    assert [m[1]] + [m[2], m[3]] == [m[1], m[2], m[3]];
    assert [m[2]] + [m[3]] == [m[2], m[3]];
  }

  lemma SeedDistinctStep1()
    ensures Where([Infrastructure, Backend, Api, Testing, Backend], NotEqualTo(Setup))
         == [Infrastructure, Backend, Api, Testing, Backend]
  {
    WhereKeepsAll([Infrastructure, Backend, Api, Testing, Backend], NotEqualTo(Setup));
  }

  lemma SeedDistinctStep2()
    ensures Where([Backend, Api, Testing, Backend], NotEqualTo(Infrastructure)) == [Backend, Api, Testing, Backend]
  {
    WhereKeepsAll([Backend, Api, Testing, Backend], NotEqualTo(Infrastructure));
  }

  lemma SeedDistinctStep3()
    ensures Where([Api, Testing, Backend], NotEqualTo(Backend)) == [Api, Testing]
  {
    WhereCons(Backend, [], NotEqualTo(Backend));
    WhereCons(Testing, [Backend], NotEqualTo(Backend));
    WhereCons(Api, [Testing, Backend], NotEqualTo(Backend));
  }

  /** The seeded listing carries five distinct tags. */
  lemma SeedDistinctTags(now: int)
    ensures Distinct(AllTags(Listing(SeedStore(now)))) == [Setup, Infrastructure, Backend, Api, Testing]
  {
    SeedAllTags(now);
    DistinctCons(Setup, [Infrastructure, Backend, Api, Testing, Backend]);
    SeedDistinctStep1();
    DistinctCons(Infrastructure, [Backend, Api, Testing, Backend]);
    SeedDistinctStep2();
    DistinctCons(Backend, [Api, Testing, Backend]);
    SeedDistinctStep3();
    DistinctOfDistinct([Api, Testing]);
  }

  /** On the seed the tag summary has five rows. */
  lemma SeedTagSummarySize(now: int)
    ensures |TagSummary(Listing(SeedStore(now)))| == 5
  {
    var all := AllTags(Listing(SeedStore(now)));
    SeedDistinctTags(now);
    ByTagIsPreorder();
    var rows := TagSummary(Listing(SeedStore(now)));
    assert |rows| == |multiset(rows)| == |multiset(Groups(Distinct(all), all))|;
  }

  lemma SeedTagOccurrences(now: int)
    ensures var all := AllTags(Listing(SeedStore(now)));
      && multiset(all)[Backend] == 2
      && multiset(all)[Api] == 1 && multiset(all)[Setup] == 1
      && multiset(all)[Infrastructure] == 1 && multiset(all)[Testing] == 1
  {
    SeedAllTags(now);
    var all := AllTags(Listing(SeedStore(now)));
    assert multiset(all) == multiset{Setup, Infrastructure, Backend, Api, Testing, Backend};
  }

  /** On the seed, backend is counted twice and every other tag once. */
  lemma SeedTagSummaryCounts(now: int)
    ensures var rows := TagSummary(Listing(SeedStore(now)));
      && TagCount(Backend, 2) in rows
      && TagCount(Api, 1) in rows && TagCount(Setup, 1) in rows
      && TagCount(Infrastructure, 1) in rows && TagCount(Testing, 1) in rows
  {
    var tasks := Listing(SeedStore(now));
    var all := AllTags(tasks);
    SeedTagOccurrences(now);
    TagSummaryRows(tasks);
    assert Backend in all && Api in all && Setup in all && Infrastructure in all && Testing in all;
  }

  /** Filtering the seed on "backend" keeps tasks 2 and 3, in that order. */
  lemma SeedFilterBackend(now: int)
    ensures FilterByTag(Listing(SeedStore(now)), Some(Backend)) == [SeedStore(now)[2], SeedStore(now)[3]]
  {
    SeedListing(now);
    var m := SeedStore(now);
    assert !IsBlank(Backend) by { assert !IsWhiteSpace(Backend[0]); }
    NormalizeTagSpec(Backend);
    var p := HasTag(Backend);
    WhereCons(m[3], [], p);
    WhereCons(m[2], [m[3]], p);
    WhereCons(m[1], [m[2], m[3]], p);
    assert [m[1]] + [m[2], m[3]] == [m[1], m[2], m[3]];
    assert [m[2]] + [m[3]] == [m[2], m[3]];
  }

  /** Filtering the seed on a tag no task carries leaves nothing. */
  lemma SeedFilterNoMatch(now: int)
    ensures FilterByTag(Listing(SeedStore(now)), Some("nonexistent")) == []
  {
    SeedListing(now);
    var m := SeedStore(now);
    assert !IsBlank("nonexistent") by { assert !IsWhiteSpace("nonexistent"[0]); }
    assert NormalizeTag("nonexistent") == "nonexistent" by {
      assert "" + "nonexistent" + "" == "nonexistent";
      NormalizePadded("", "nonexistent", "");
    }
    var p := HasTag("nonexistent");
    WhereCons(m[3], [], p);
    WhereCons(m[2], [m[3]], p);
    WhereCons(m[1], [m[2], m[3]], p);
  }

  /** No seeded task has a due date, so none is ever overdue. */
  lemma SeedNothingOverdue(now: int)
    ensures Overdue(Listing(SeedStore(now)), now) == []
  {
    SeedListing(now);
    var m := SeedStore(now);
    var p := OverdueAt(now);
    WhereCons(m[3], [], p);
    WhereCons(m[2], [m[3]], p);
    WhereCons(m[1], [m[2], m[3]], p);
    assert [m[1]] + [m[2], m[3]] == [m[1], m[2], m[3]];
    assert [m[2]] + [m[3]] == [m[2], m[3]];
    assert Where(Listing(m), p) == [];
    OverdueMembers(Listing(m), now);
    assert |Overdue(Listing(m), now)| == |multiset(Overdue(Listing(m), now))| == 0;
  }

  // --------------------------------------------------------------- the test cases

  /** A new task as the tests build one: only the title and the given fields are set. */
  function NewTask(title: string, tags: seq<string>): TaskItem {
    TaskItem(0, title, None, Todo, 0, None, None, tags)
  }

  /** The store starts with three tasks; id 1 is the set-up task, id 999 is absent. */
  method SeededStore(now: int) returns (count: nat, first: Option<TaskItem>, missing: Option<TaskItem>)
    ensures count == 3
    ensures first.Some? && first.value.Title == "Set up project structure"
    ensures missing.None?
  {
    var repo := new InMemoryTaskRepository(now);
    var all := repo.GetAll();
    SeedListing(now);
    count := |all|;
    first := repo.GetById(1);
    missing := repo.GetById(999);
  }

  /** The first task created after seeding gets id 4, and the listing grows to four. */
  method CreateAfterSeed(now: int) returns (created: TaskItem, count: nat)
    ensures created.Id == 4 && created.Title == "New task" && created.CreatedAt == now
    ensures count == 4
  {
    var repo := new InMemoryTaskRepository(now);
    SeedListing(now);
    ListingSpec(repo.tasks);
    var task := NewTask("New task", []).(Description := Some("A brand new task"));
    created := repo.Create(task, now);
    var all := repo.GetAll();
    ListingSpec(repo.tasks);
    count := |all|;
  }

  /** Tags given on creation are stored normalised. */
  method CreateNormalizesTags(now: int) returns (created: TaskItem)
    ensures created.Tags == [Bug, Frontend]
  {
    var repo := new InMemoryTaskRepository(now);
    NormalizeTagsExample();
    created := repo.Create(NewTask("Normalization test", ["  BUG  ", "Bug", "FRONTEND", "frontend", "  ", ""]), now);
  }

  /** The seeded tasks carry their seed tags. */
  method SeededTags(now: int) returns (t1: Option<TaskItem>, t2: Option<TaskItem>, t3: Option<TaskItem>)
    ensures t1.Some? && t1.value.Tags == [Setup, Infrastructure]
    ensures t2.Some? && t2.value.Tags == [Backend, Api]
    ensures t3.Some? && t3.value.Tags == [Testing, Backend]
  {
    var repo := new InMemoryTaskRepository(now);
    t1 := repo.GetById(1);
    t2 := repo.GetById(2);
    t3 := repo.GetById(3);
  }

  /** A due date given on creation is stored. */
  method CreateWithDueDate(now: int, due: int) returns (created: TaskItem)
    ensures created.DueDate == Some(due)
  {
    var repo := new InMemoryTaskRepository(now);
    created := repo.Create(NewTask("Task with due date", []).(DueDate := Some(due)), now);
  }

  /** A new due date given on update is stored, and so is a cleared one. */
  method UpdateDueDate(now: int, due: int) returns (updated: Option<TaskItem>, cleared: Option<TaskItem>)
    ensures updated.Some? && updated.value.DueDate == Some(due)
    ensures cleared.Some? && cleared.value.DueDate.None?
  {
    var repo := new InMemoryTaskRepository(now);
    var task := repo.GetById(1);
    updated := repo.Update(task.value.(DueDate := Some(due)));
    var other := repo.GetById(2);
    cleared := repo.Update(other.value.(DueDate := None));
  }

  /** Tags that are already normal are stored as given on creation. */
  method CreateWithTags(now: int) returns (created: TaskItem)
    ensures created.Tags == [Bug, Frontend]
  {
    var repo := new InMemoryTaskRepository(now);
    assert IsNormalized([Bug, Frontend]) by {
      assert IsNormalTag(Bug) by { assert !IsWhiteSpace(Bug[0]) && !IsWhiteSpace(Bug[|Bug| - 1]); }
      assert IsNormalTag(Frontend) by { assert !IsWhiteSpace(Frontend[0]) && !IsWhiteSpace(Frontend[|Frontend| - 1]); }
    }
    NormalizeTagsOfNormalized([Bug, Frontend]);
    created := repo.Create(NewTask("Tagged task", [Bug, Frontend]), now);
  }

  /** Updating a stored task with normal tags stores exactly those tags. */
  method UpdateTags(now: int) returns (updated: Option<TaskItem>)
    ensures updated.Some? && updated.value.Tags == [Urgent, Reviewed]
  {
    var repo := new InMemoryTaskRepository(now);
    assert IsNormalized([Urgent, Reviewed]) by {
      assert IsNormalTag(Urgent) by { assert !IsWhiteSpace(Urgent[0]) && !IsWhiteSpace(Urgent[|Urgent| - 1]); }
      assert IsNormalTag(Reviewed) by { assert !IsWhiteSpace(Reviewed[0]) && !IsWhiteSpace(Reviewed[|Reviewed| - 1]); }
    }
    NormalizeTagsOfNormalized([Urgent, Reviewed]);
    var task := repo.GetById(1);
    updated := repo.Update(task.value.(Tags := [Urgent, Reviewed]));
  }

  /** Updating a stored task returns it with the new title and status. */
  method UpdateSeeded(now: int) returns (updated: Option<TaskItem>)
    ensures updated.Some? && updated.value.Title == "Updated title" && updated.value.Status == InProgress
  {
    var repo := new InMemoryTaskRepository(now);
    SeedStoreValid(now);
    var task := repo.GetById(1);
    updated := repo.Update(task.value.(Title := "Updated title", Status := InProgress));
  }

  /** Updating normalises the new tags. */
  method UpdateNormalizesTags(now: int) returns (updated: Option<TaskItem>)
    ensures updated.Some? && updated.value.Tags == [Urgent]
  {
    var repo := new InMemoryTaskRepository(now);
    NormalizeTagsUpdateExample();
    var task := repo.GetById(1);
    updated := repo.Update(task.value.(Tags := ["  URGENT  ", "urgent", ""]));
  }

  /** Updating an id that was never stored returns nothing. */
  method UpdateMissing(now: int) returns (updated: Option<TaskItem>)
    ensures updated.None?
  {
    var repo := new InMemoryTaskRepository(now);
    updated := repo.Update(NewTask("Does not exist", []).(Id := 999));
  }

  /** Deleting id 1 succeeds, after which it is gone and two tasks remain; deleting 999 fails. */
  method DeleteSeeded(now: int) returns (deleted: bool, after: Option<TaskItem>, count: nat, deletedMissing: bool)
    ensures deleted && after.None? && count == 2 && !deletedMissing
  {
    var repo := new InMemoryTaskRepository(now);
    SeedListing(now);
    ListingSpec(repo.tasks);
    deleted := repo.Delete(1);
    after := repo.GetById(1);
    var all := repo.GetAll();
    ListingSpec(repo.tasks);
    count := |all|;
    deletedMissing := repo.Delete(999);
  }

  /** Deleting the newest task does not free its id: the next task still gets id 4. */
  method NoIdReuse(now: int) returns (created: TaskItem)
    ensures created.Id == 4
  {
    var repo := new InMemoryTaskRepository(now);
    var _ := repo.Delete(3);
    created := repo.Create(NewTask("After delete", []), now);
  }

  /** A blank title is refused and nothing is stored. */
  method PostBlankTitle(now: int) returns (r: Response, count: nat)
    ensures r == BadRequest(TitleRequired) && count == 3
  {
    var repo := new InMemoryTaskRepository(now);
    assert IsBlank("   ");
    r := PostTask(repo, NewTask("   ", []), now);
    var all := repo.GetAll();
    SeedListing(now);
    count := |all|;
  }

  /** A PUT on a seeded task changes its title but keeps its id and creation time. */
  method PutKeepsCreation(now: int) returns (r: Response)
    ensures r.Ok? && r.body.Item?
    ensures r.body.item.Id == 1 && r.body.item.Title == "Renamed"
    ensures r.body.item.CreatedAt == now - 3 * SecondsPerDay
  {
    var repo := new InMemoryTaskRepository(now);
    r := PutTask(repo, 1, NewTask("Renamed", []).(Id := 42, CreatedAt := now));
  }
}
